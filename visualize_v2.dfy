/** The second visualisation tool: its `escape_text`, its node labels and the whole Mermaid
    diagram it writes for a task list and the analysis of it. */
module VisualizeV2 {
  import opened Wrappers
  import opened Strings
  import opened Tasks
  import Levels
  import Plans
  import opened Mermaid

  /** None of the characters this tool's `escape_text` removes or replaces. */
  predicate Escaped(s: string) {
    '"' !in s && '\n' !in s && '(' !in s && ')' !in s
  }

  /** `escape_text(text)`: double quotes become single ones, line feeds spaces, and round
      brackets are dropped; carriage returns stay. */
  function EscapeText(text: string): (r: string)
    ensures Escaped(r)
    ensures |r| <= |text|
  {
    var a := Replace(text, '"', "'");
    var b := Replace(a, '\n', " ");
    var c := Replace(b, '(', "");
    Replace(c, ')', "")
  }

  /** What one character becomes. */
  function EscapeChar(c: char): string {
    if c == '"' then "'"
    else if c == '\n' then " "
    else if c == '(' || c == ')' then ""
    else [c]
  }

  /** The character-by-character reading of `escape_text`. */
  function EscapeEach(s: string): string {
    if s == [] then [] else EscapeChar(s[0]) + EscapeEach(s[1..])
  }

  lemma EscapeTextAppend(x: string, y: string)
    ensures EscapeText(x + y) == EscapeText(x) + EscapeText(y)
  {
    var a := Replace(x, '"', "'");
    var b := Replace(a, '\n', " ");
    var c := Replace(b, '(', "");
    var a' := Replace(y, '"', "'");
    var b' := Replace(a', '\n', " ");
    var c' := Replace(b', '(', "");
    ReplaceAppend(x, y, '"', "'");
    ReplaceAppend(a, a', '\n', " ");
    ReplaceAppend(b, b', '(', "");
    ReplaceAppend(c, c', ')', "");
  }

  /** The four replacements in a row are the one-pass character map. */
  lemma {:induction false} EscapeTextIsCharwise(s: string)
    ensures EscapeText(s) == EscapeEach(s)
    decreases |s|
  {
    if s != [] {
      assert s == [s[0]] + s[1..];
      EscapeTextAppend([s[0]], s[1..]);
      EscapeTextIsCharwise(s[1..]);
      assert EscapeText([s[0]]) == EscapeChar(s[0]);
    }
  }

  /** Carriage returns are kept. */
  lemma EscapeKeepsCarriageReturn(s: string)
    ensures '\r' in EscapeText(s) <==> '\r' in s
  {
  }

  /** Escaping twice is escaping once. */
  lemma EscapeTextIdempotent(s: string)
    ensures EscapeText(EscapeText(s)) == EscapeText(s)
  {
  }

  // ---------------------------------------------------------------------------------------
  // Node labels

  /** `task.get('title', task.get('content', 'Task'))` */
  function TitleOf(t: Task): string {
    t.title.GetOr(t.content.GetOr("Task"))
  }

  /** `task.get('validation_mechanism')` is truthy. */
  predicate HasMechanism(t: Task) {
    t.validationMechanism.Some? && t.validationMechanism.value != []
  }

  /** The parts of a node label: id, cut title, hours, and for a validator with a validation
      mechanism a fourth part naming it. */
  function LabelParts(t: Task): seq<string> {
    [t.id, EscapeText(SliceTo(TitleOf(t), 40)) + "...", NatToString(Hours(t)) + "h"]
      + if InferCategory(t.id) == Validator && HasMechanism(t) then
          ["\U{2713} " + EscapeText(SliceTo(t.validationMechanism.value, 30)) + "..."]
        else []
  }

  /** The parts are joined with a backslash followed by `n`, which Mermaid reads as a line
      break. */
  function Label(t: Task): string {
    Join(LabelParts(t), "\\n")
  }

  /** Three parts, or four exactly for a validator with a mechanism; the title part is the
      escaped first forty characters of the title plus "...", so at most 43 characters. */
  lemma LabelPartsShape(t: Task)
    ensures |LabelParts(t)| == if InferCategory(t.id) == Validator && HasMechanism(t) then 4 else 3
    ensures LabelParts(t)[0] == t.id
    ensures |LabelParts(t)[1]| <= 43 && Escaped(LabelParts(t)[1][..|LabelParts(t)[1]| - 3])
  {
    var cut := EscapeText(SliceTo(TitleOf(t), 40));
    assert LabelParts(t)[1] == cut + "...";
    assert LabelParts(t)[1][..|LabelParts(t)[1]| - 3] == cut;
  }

  /** The hours part is the task's hours (8 when absent) in decimal, followed by "h". */
  lemma LabelHours(t: Task)
    ensures var h := LabelParts(t)[2];
      && |h| >= 2 && h[|h| - 1] == 'h' && Numeral(h[..|h| - 1])
      && DigitsValue(h[..|h| - 1]) == t.estimatedHours.GetOr(8)
  {
    var h := LabelParts(t)[2];
    assert h == NatToString(Hours(t)) + "h";
    assert h[..|h| - 1] == NatToString(Hours(t));
    NatToStringValue(Hours(t));
  }

  /** `    <id>["<label>"]:::<category>` */
  function NodeLine(t: Task): string {
    "    " + t.id + "[\"" + Label(t) + "\"]:::" + InferCategory(t.id).Name()
  }

  function ClassLine(id: string, cls: string): string {
    "    class " + id + " " + cls
  }

  /** The lines for one task: its node, then its critical and parallel styling. */
  function NodeBlock(t: Task, critical: set<string>, parallel: set<string>): seq<string> {
    [NodeLine(t)]
      + (if t.id in critical then [ClassLine(t.id, "critical")] else [])
      + (if t.id in parallel then [ClassLine(t.id, "parallel")] else [])
  }

  function NodeLines(ts: seq<Task>, critical: set<string>, parallel: set<string>): seq<string> {
    if ts == [] then []
    else NodeLines(ts[..|ts| - 1], critical, parallel) + NodeBlock(ts[|ts| - 1], critical, parallel)
  }

  /** Every task gets its node line, and a styling line exactly when its id is on the
      critical path or in a parallel group. */
  lemma NodeLinesMembers(ts: seq<Task>, critical: set<string>, parallel: set<string>, i: nat)
    requires i < |ts|
    ensures NodeLine(ts[i]) in NodeLines(ts, critical, parallel)
    ensures ts[i].id in critical ==> ClassLine(ts[i].id, "critical") in NodeLines(ts, critical, parallel)
    ensures ts[i].id in parallel ==> ClassLine(ts[i].id, "parallel") in NodeLines(ts, critical, parallel)
  {
    NodeBlockMembers(ts[i], critical, parallel);
    BlockInLines(ts, critical, parallel, i, NodeLine(ts[i]));
    if ts[i].id in critical {
      BlockInLines(ts, critical, parallel, i, ClassLine(ts[i].id, "critical"));
    }
    if ts[i].id in parallel {
      BlockInLines(ts, critical, parallel, i, ClassLine(ts[i].id, "parallel"));
    }
  }

  /** A line of a task's block is one of the node lines. */
  lemma {:induction false} BlockInLines(ts: seq<Task>, critical: set<string>, parallel: set<string>, i: nat, x: string)
    requires i < |ts| && x in NodeBlock(ts[i], critical, parallel)
    ensures x in NodeLines(ts, critical, parallel)
    decreases |ts|
  {
    var init := ts[..|ts| - 1];
    var b := NodeBlock(ts[|ts| - 1], critical, parallel);
    assert NodeLines(ts, critical, parallel) == NodeLines(init, critical, parallel) + b;
    if i < |init| {
      assert init[i] == ts[i];
      BlockInLines(init, critical, parallel, i, x);
    } else {
      assert i == |ts| - 1;
    }
  }

  lemma NodeBlockMembers(t: Task, critical: set<string>, parallel: set<string>)
    ensures NodeLine(t) in NodeBlock(t, critical, parallel)
    ensures t.id in critical ==> ClassLine(t.id, "critical") in NodeBlock(t, critical, parallel)
    ensures t.id in parallel ==> ClassLine(t.id, "parallel") in NodeBlock(t, critical, parallel)
  {
    var b := NodeBlock(t, critical, parallel);
    assert b[0] == NodeLine(t);
    if t.id in critical {
      assert b[1] == ClassLine(t.id, "critical");
    }
    if t.id in parallel {
      assert b[|b| - 1] == ClassLine(t.id, "parallel");
    }
  }

  /** Between one and three lines per task. */
  lemma {:induction false} NodeLinesCount(ts: seq<Task>, critical: set<string>, parallel: set<string>)
    ensures |ts| <= |NodeLines(ts, critical, parallel)| <= 3 * |ts|
    decreases |ts|
  {
    if ts != [] {
      NodeLinesCount(ts[..|ts| - 1], critical, parallel);
    }
  }

  lemma NodeLinesSnoc(ts: seq<Task>, critical: set<string>, parallel: set<string>, i: nat)
    requires i < |ts|
    ensures NodeLines(ts[..i + 1], critical, parallel) == NodeLines(ts[..i], critical, parallel) + NodeBlock(ts[i], critical, parallel)
  {
    assert ts[..i + 1][..i] == ts[..i];
  }

  /** The node loop of `generate_mermaid_code`. */
  method EmitNodes(ts: seq<Task>, critical: set<string>, parallel: set<string>) returns (lines: seq<string>)
    ensures lines == NodeLines(ts, critical, parallel)
  {
    lines := [];
    for i := 0 to |ts|
      invariant lines == NodeLines(ts[..i], critical, parallel)
    {
      NodeLinesSnoc(ts, critical, parallel, i);
      var block := EmitBlock(ts[i], critical, parallel);
      lines := lines + block;
    }
    assert ts[..|ts|] == ts;
  }

  /** One iteration of the node loop: the node line, then the styling lines. */
  method EmitBlock(t: Task, critical: set<string>, parallel: set<string>) returns (block: seq<string>)
    ensures block == NodeBlock(t, critical, parallel)
  {
    block := [NodeLine(t)];
    if t.id in critical {
      block := block + [ClassLine(t.id, "critical")];
    }
    if t.id in parallel {
      block := block + [ClassLine(t.id, "parallel")];
    }
  }

  // ---------------------------------------------------------------------------------------
  // The diagram

  const Preamble: seq<string> := [
    "graph TD",
    "",
    "    %% Style definitions",
    "    classDef setup fill:#e1f5fe,stroke:#01579b,stroke-width:2px",
    "    classDef validator fill:#f0e7ff,stroke:#6a1b9a,stroke-width:2px",
    "    classDef migration fill:#c8e6c9,stroke:#2e7d32,stroke-width:2px",
    "    classDef other fill:#fff9c4,stroke:#f57f17,stroke-width:2px",
    "    classDef critical stroke:#ff0000,stroke-width:4px",
    "    classDef parallel fill:#fce4ec,stroke:#c2185b,stroke-width:3px,stroke-dasharray: 5 5",
    "",
    "    %% Task nodes"]

  /** The lines of the diagram: preamble, nodes, dependency arrows, parallel groups. */
  function DiagramLines(ts: seq<Task>, analysis: Plans.Analysis): seq<string> {
    var critical := Levels.Elements(analysis.criticalPath);
    var parallel := ParallelIds(analysis.groupsDetail);
    Preamble + NodeLines(ts, critical, parallel)
      + ["", "    %% Dependencies"] + DependencyLines(ts)
      + ["", "    %% Parallel group annotations"] + SubgraphLines(analysis.groupsDetail)
  }

  /** The diagram starts with "graph TD" and holds an arrow for every dependency entry of
      every task. */
  lemma DiagramFacts(ts: seq<Task>, analysis: Plans.Analysis, i: nat, j: nat)
    requires i < |ts| && j < |ts[i].dependsOn|
    ensures DiagramLines(ts, analysis)[0] == "graph TD"
    ensures EdgeLine(ts[i].dependsOn[j], ts[i].id) in DiagramLines(ts, analysis)
  {
    DependencyLinesMembers(ts, EdgeLine(ts[i].dependsOn[j], ts[i].id));
  }

  /** `generate_mermaid_code(tasks, analysis)` */
  method GenerateMermaidCode(ts: seq<Task>, analysis: Plans.Analysis) returns (code: string)
    ensures code == Join(DiagramLines(ts, analysis), "\n")
  {
    var parallel := CollectParallelIds(analysis.groupsDetail);
    var critical := Levels.Elements(analysis.criticalPath);
    var lines := Preamble;
    var nodes := EmitNodes(ts, critical, parallel);
    lines := lines + nodes;
    lines := lines + ["", "    %% Dependencies"];
    var edges := EmitDependencies(ts);
    lines := lines + edges;
    lines := lines + ["", "    %% Parallel group annotations"];
    var subgraphs := EmitSubgraphs(analysis.groupsDetail);
    lines := lines + subgraphs;
    code := Join(lines, "\n");
  }
}
