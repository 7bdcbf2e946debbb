/** `escape_text` of the first visualisation tool: label text made safe for a Mermaid node,
    cut to a maximum length. */
module Visualize {
  import opened Strings

  /** The default `max_len`. */
  const DefaultMaxLen := 60

  /** None of the characters the diagram syntax reserves. */
  predicate Escaped(s: string) {
    '"' !in s && '\n' !in s && '\r' !in s && '(' !in s && ')' !in s
  }

  /** The five replacements, in the order the tool applies them. */
  function Clean(text: string): (r: string)
    ensures Escaped(r)
  {
    var a := Replace(text, '"', "'");
    var b := Replace(a, '\n', " ");
    var c := Replace(b, '\r', " ");
    var d := Replace(c, '(', "[");
    Replace(d, ')', "]")
  }

  /** What each character becomes: a double quote a single one, line breaks spaces, round
      brackets square ones. */
  function EscapeChar(c: char): char {
    if c == '"' then '\''
    else if c == '\n' || c == '\r' then ' '
    else if c == '(' then '['
    else if c == ')' then ']'
    else c
  }

  /** `escape_text(text, max_len)`: cleaned, then cut to `max_len - 3` characters plus "..."
      when longer than `max_len` (a negative cut counts from the end, as in Python). */
  function EscapeText(text: string, maxLen: int): (r: string)
    ensures Escaped(r)
    ensures maxLen >= 3 ==> |r| <= maxLen
  {
    var c := Clean(text);
    CleanLength(text);
    if |c| > maxLen then
      TruncatedEscaped(c, maxLen - 3);
      SliceTo(c, maxLen - 3) + "..."
    else c
  }

  lemma TruncatedEscaped(c: string, k: int)
    requires Escaped(c)
    ensures Escaped(SliceTo(c, k) + "...")
  {
    var p := SliceTo(c, k);
    assert forall x :: x in p ==> x in c;
  }

  /** Every replacement is one character for one. */
  lemma CleanLength(text: string)
    ensures |Clean(text)| == |text|
  {
  }

  /** Cleaning maps each character on its own. */
  lemma CleanCharwise(text: string, i: nat)
    requires i < |text|
    ensures |Clean(text)| == |text| && Clean(text)[i] == EscapeChar(text[i])
  {
    var a := Replace(text, '"', "'");
    var b := Replace(a, '\n', " ");
    var c := Replace(b, '\r', " ");
    var d := Replace(c, '(', "[");
    ReplaceOneChar(text, '"', "'", i);
    ReplaceOneChar(a, '\n', " ", i);
    ReplaceOneChar(b, '\r', " ", i);
    ReplaceOneChar(c, '(', "[", i);
    ReplaceOneChar(d, ')', "]", i);
  }

  /** Clean text is left as it is. */
  lemma CleanOfEscaped(s: string)
    requires Escaped(s)
    ensures Clean(s) == s
  {
  }

  /** Text of at most `max_len` characters keeps its length and is escaped character by
      character; longer text keeps its first `max_len - 3` escaped characters and ends in
      "...". */
  lemma EscapeTextShape(text: string, maxLen: int)
    requires maxLen >= 3
    ensures var r := EscapeText(text, maxLen);
      && (|text| <= maxLen ==> |r| == |text| && forall i :: 0 <= i < |r| ==> r[i] == EscapeChar(text[i]))
      && (|text| > maxLen ==>
            && |r| == maxLen && r[maxLen - 3..] == "..."
            && forall i :: 0 <= i < maxLen - 3 ==> r[i] == EscapeChar(text[i]))
  {
    var r := EscapeText(text, maxLen);
    CleanLength(text);
    forall i | 0 <= i < |text| && i < |r| && (|text| <= maxLen || i < maxLen - 3)
      ensures r[i] == EscapeChar(text[i])
    {
      CleanCharwise(text, i);
    }
  }

  /** Escaping twice with the same limit is escaping once. */
  lemma EscapeTextIdempotent(text: string, maxLen: int)
    requires maxLen >= 3
    ensures EscapeText(EscapeText(text, maxLen), maxLen) == EscapeText(text, maxLen)
  {
    var r := EscapeText(text, maxLen);
    CleanOfEscaped(r);
  }
}
