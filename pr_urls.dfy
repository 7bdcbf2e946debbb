/** The pull-request helpers of the GitHub checker: reading owner, repository and number out of
    a pull-request URL, and collecting the URLs the sessions reported. */
module PrUrls {
  import opened Wrappers
  import opened Strings

  /** What `parse_pr_url` returns: the `owner`, `repo` and `pr_number` entries. */
  datatype PrRef = PrRef(owner: string, repo: string, number: string)

  /** The URL as `parse_pr_url` splits it: surrounding whitespace and trailing slashes removed. */
  function Normalized(url: string): (r: string)
    ensures r == [] || r[|r| - 1] != '/'
  {
    RStripChar(Strip(url), '/')
  }

  /** The path segments of the normalised URL. */
  function Segments(url: string): (parts: seq<string>)
    ensures |parts| >= 1
    ensures Join(parts, "/") == Normalized(url)
  {
    Split(Normalized(url), '/')
  }

  /** The segments name a pull request when there are at least seven and the second to last
      is "pull"; the last four are then owner, repository, "pull" and the number. */
  function PullSegments(parts: seq<string>): (r: Option<PrRef>)
    ensures r.Some? ==> |parts| >= 7 && r.value.number == parts[|parts| - 1]
  {
    if |parts| >= 7 && parts[|parts| - 2] == "pull" then
      Some(PrRef(parts[|parts| - 4], parts[|parts| - 3], parts[|parts| - 1]))
    else
      None
  }

  /** `parse_pr_url(pr_url)` */
  function ParsePrUrl(url: string): (r: Option<PrRef>)
    ensures r.Some? ==> '/' !in r.value.owner && '/' !in r.value.repo && '/' !in r.value.number
  {
    PullSegments(Segments(url))
  }

  /** No segment holds a slash. */
  predicate SlashFree(parts: seq<string>) {
    forall i :: 0 <= i < |parts| ==> '/' !in parts[i]
  }

  /** The last four segments of a pull-request path. */
  function PullTail(p: PrRef): seq<string> {
    [p.owner, p.repo, "pull", p.number]
  }

  /** `s` is a path of at least three leading segments followed by `owner/repo/pull/number`,
      no segment holding a slash. */
  ghost predicate PullPath(s: string, p: PrRef) {
    exists prefix: seq<string> ::
      |prefix| >= 3 && SlashFree(prefix + PullTail(p)) && s == Join(prefix + PullTail(p), "/")
  }

  /** A parse succeeds exactly on pull-request paths, and then returns their pieces. */
  lemma ParsePrUrlSound(url: string)
    requires ParsePrUrl(url).Some?
    ensures PullPath(Normalized(url), ParsePrUrl(url).value)
  {
    var parts := Segments(url);
    var p := ParsePrUrl(url).value;
    var prefix := parts[..|parts| - 4];
    PullSegmentsParts(parts);
    assert SlashFree(parts);
    assert Join(prefix + PullTail(p), "/") == Normalized(url);
  }

  lemma ParsePrUrlComplete(url: string, p: PrRef)
    requires PullPath(Normalized(url), p)
    ensures ParsePrUrl(url) == Some(p)
  {
    var prefix: seq<string> :|
      |prefix| >= 3 && SlashFree(prefix + PullTail(p)) && Normalized(url) == Join(prefix + PullTail(p), "/");
    SegmentsOfJoin(url, prefix + PullTail(p));
    PullSegmentsOf(prefix, p);
  }

  lemma PullSegmentsParts(parts: seq<string>)
    requires PullSegments(parts).Some?
    ensures parts == parts[..|parts| - 4] + PullTail(PullSegments(parts).value)
  {
    var n := |parts|;
    assert parts[n - 4..] == [parts[n - 4], parts[n - 3], parts[n - 2], parts[n - 1]];
    assert parts == parts[..n - 4] + parts[n - 4..];
  }

  lemma SegmentsOfJoin(url: string, parts: seq<string>)
    requires |parts| >= 1 && SlashFree(parts) && Normalized(url) == Join(parts, "/")
    ensures Segments(url) == parts
  {
    SplitJoin(parts, '/');
  }

  lemma PullSegmentsOf(prefix: seq<string>, p: PrRef)
    requires |prefix| >= 3
    ensures PullSegments(prefix + PullTail(p)) == Some(p)
  {
    var parts := prefix + PullTail(p);
    assert parts[|parts| - 4..] == PullTail(p);
  }

  /** `https://<host>/<owner>/<repo>/pull/<number>` */
  function PullRequestUrl(host: string, p: PrRef): string {
    Join(["https:", "", host] + PullTail(p), "/")
  }

  lemma JoinCons(a: string, rest: seq<string>, sep: string)
    requires rest != []
    ensures Join([a] + rest, sep) == a + sep + Join(rest, sep)
  {
    assert ([a] + rest)[1..] == rest;
  }

  /** A join ends with its last part. */
  lemma {:induction false} JoinEnds(parts: seq<string>, sep: string)
    requires |parts| >= 1
    ensures var j := Join(parts, sep); var last := parts[|parts| - 1];
      |last| <= |j| && j[|j| - |last|..] == last
    decreases |parts|
  {
    if |parts| > 1 {
      JoinEnds(parts[1..], sep);
      assert Join(parts, sep) == parts[0] + sep + Join(parts[1..], sep);
    }
  }

  /** The URL starts with the "h" of "https:". */
  lemma PullRequestUrlStart(host: string, p: PrRef)
    ensures PullRequestUrl(host, p) != [] && PullRequestUrl(host, p)[0] == 'h'
  {
    var parts := ["https:", "", host] + PullTail(p);
    assert parts == ["https:"] + parts[1..];
    JoinCons("https:", parts[1..], "/");
  }

  /** The URL of a pull request parses back to its owner, repository and number. */
  lemma ParsePullRequestUrl(host: string, p: PrRef)
    requires '/' !in host && '/' !in p.owner && '/' !in p.repo && '/' !in p.number
    requires p.number != [] && !IsSpace(p.number[|p.number| - 1])
    ensures ParsePrUrl(PullRequestUrl(host, p)) == Some(p)
  {
    var prefix := ["https:", "", host];
    var parts := prefix + PullTail(p);
    var u := PullRequestUrl(host, p);
    assert parts == ["https:"] + parts[1..];
    PullRequestUrlStart(host, p);
    assert LStrip(u) == u;
    JoinEnds(parts, "/");
    assert u[|u| - 1] == p.number[|p.number| - 1];
    assert RStrip(u) == u;
    assert RStripChar(u, '/') == u;
    assert SlashFree(parts) by {
      forall i | 0 <= i < |parts| ensures '/' !in parts[i] {
        if i < 3 { assert parts[i] == prefix[i]; }
      }
    }
    SegmentsOfJoin(u, parts);
    PullSegmentsOf(prefix, p);
  }

  /** Trailing slashes after an already stripped URL do not change the parse. */
  lemma ParseIgnoresTrailingSlash(url: string)
    requires url != [] && !IsSpace(url[0]) && !IsSpace(url[|url| - 1])
    ensures ParsePrUrl(url + "/") == ParsePrUrl(url)
  {
    var v := url + "/";
    assert LStrip(v) == v && LStrip(url) == url;
    assert RStrip(v) == v && RStrip(url) == url;
    assert v[..|v| - 1] == url;
    assert RStripChar(v, '/') == RStripChar(url, '/');
  }

  /** Trailing whitespace, the separators U+001C to U+001F included, does not change the
      parse. */
  lemma ParseIgnoresTrailingSpace(url: string, c: char)
    requires url != [] && !IsSpace(url[0]) && IsSpace(c)
    ensures ParsePrUrl(url + [c]) == ParsePrUrl(url)
  {
    var v := url + [c];
    assert LStrip(v) == v && LStrip(url) == url;
    assert v[..|v| - 1] == url;
    assert RStrip(v) == RStrip(url);
  }

  /** A pull-request URL followed by U+001C still parses to its owner, repository and number. */
  lemma ParseWithFileSeparator(host: string, p: PrRef)
    requires '/' !in host && '/' !in p.owner && '/' !in p.repo && '/' !in p.number
    requires p.number != [] && !IsSpace(p.number[|p.number| - 1])
    ensures ParsePrUrl(PullRequestUrl(host, p) + "\U{001C}") == Some(p)
  {
    ParsePullRequestUrl(host, p);
    PullRequestUrlStart(host, p);
    ParseIgnoresTrailingSpace(PullRequestUrl(host, p), '\U{001C}');
  }

  // ---------------------------------------------------------------------------------------
  // extract_pr_urls_from_results

  /** One entry of a session result's `prs` list; `prUrl` is its `pr_url` value, if any. */
  datatype PrRecord = PrRecord(prUrl: Option<string>)

  /** A session result; `prs` is its `prs` value, if any. */
  datatype SessionResult = SessionResult(prs: Option<seq<PrRecord>>)

  /** `pr.get('pr_url')` is truthy: present and not empty. */
  predicate HasUrl(pr: PrRecord) {
    pr.prUrl.Some? && pr.prUrl.value != []
  }

  /** The URLs of one `prs` list, in order. */
  function UrlsOf(prs: seq<PrRecord>): (r: seq<string>)
    ensures |r| <= |prs|
  {
    if prs == [] then []
    else
      var last := prs[|prs| - 1];
      UrlsOf(prs[..|prs| - 1]) + (if HasUrl(last) then [last.prUrl.value] else [])
  }

  /** The URLs of every session result, in order (an absent or empty `prs` gives none). */
  function PrUrlsOf(results: seq<SessionResult>): (r: seq<string>)
  {
    if results == [] then []
    else
      var last := results[|results| - 1];
      PrUrlsOf(results[..|results| - 1]) + (if last.prs.Some? then UrlsOf(last.prs.value) else [])
  }

  /** The number of records in `prs` whose `pr_url` is truthy, counted from the front. */
  function TruthyCount(prs: seq<PrRecord>): nat {
    if prs == [] then 0 else (if HasUrl(prs[0]) then 1 else 0) + TruthyCount(prs[1..])
  }

  lemma {:induction false} TruthyCountSnoc(prs: seq<PrRecord>, x: PrRecord)
    ensures TruthyCount(prs + [x]) == TruthyCount(prs) + if HasUrl(x) then 1 else 0
    decreases |prs|
  {
    if prs != [] {
      assert (prs + [x])[1..] == prs[1..] + [x];
      TruthyCountSnoc(prs[1..], x);
    }
  }

  /** One result yields exactly one URL per record with a truthy `pr_url`. */
  lemma {:induction false} UrlsOfCount(prs: seq<PrRecord>)
    ensures |UrlsOf(prs)| == TruthyCount(prs)
    decreases |prs|
  {
    if prs != [] {
      var init := prs[..|prs| - 1];
      UrlsOfCount(init);
      TruthyCountSnoc(init, prs[|prs| - 1]);
      assert init + [prs[|prs| - 1]] == prs;
    }
  }

  /** The number of truthy `pr_url`s over all results that have `prs`, counted from the front. */
  function ReportedCount(results: seq<SessionResult>): nat {
    if results == [] then 0
    else (if results[0].prs.Some? then TruthyCount(results[0].prs.value) else 0) + ReportedCount(results[1..])
  }

  lemma {:induction false} ReportedCountSnoc(results: seq<SessionResult>, r: SessionResult)
    ensures ReportedCount(results + [r]) == ReportedCount(results) + if r.prs.Some? then TruthyCount(r.prs.value) else 0
    decreases |results|
  {
    if results != [] {
      assert (results + [r])[1..] == results[1..] + [r];
      ReportedCountSnoc(results[1..], r);
    }
  }

  /** The extraction yields exactly as many URLs as there are records with a truthy `pr_url`
      in results that have `prs`. */
  lemma {:induction false} PrUrlsCount(results: seq<SessionResult>)
    ensures |PrUrlsOf(results)| == ReportedCount(results)
    decreases |results|
  {
    if results != [] {
      var init := results[..|results| - 1];
      var last := results[|results| - 1];
      PrUrlsCount(init);
      ReportedCountSnoc(init, last);
      assert init + [last] == results;
      if last.prs.Some? {
        UrlsOfCount(last.prs.value);
      }
    }
  }

  /** A URL is collected exactly when some record carries it, and no collected URL is empty. */
  lemma {:induction false} UrlsOfMembers(prs: seq<PrRecord>, u: string)
    ensures u in UrlsOf(prs) <==> exists j :: 0 <= j < |prs| && HasUrl(prs[j]) && prs[j].prUrl.value == u
    decreases |prs|
  {
    if prs != [] {
      var init := prs[..|prs| - 1];
      UrlsOfMembers(init, u);
      assert forall j :: 0 <= j < |init| ==> init[j] == prs[j];
    }
  }

  /** Some record of session result `r` carries the URL `u`. */
  ghost predicate ReportedBy(r: SessionResult, u: string) {
    r.prs.Some? && exists j :: 0 <= j < |r.prs.value| && HasUrl(r.prs.value[j]) && r.prs.value[j].prUrl.value == u
  }

  lemma {:induction false} PrUrlsMembers(results: seq<SessionResult>, u: string)
    ensures u in PrUrlsOf(results) <==> exists i :: 0 <= i < |results| && ReportedBy(results[i], u)
    decreases |results|
  {
    if results != [] {
      var init := results[..|results| - 1];
      var last := results[|results| - 1];
      PrUrlsMembers(init, u);
      assert forall i :: 0 <= i < |init| ==> init[i] == results[i];
      if last.prs.Some? {
        UrlsOfMembers(last.prs.value, u);
      }
      assert ReportedBy(last, u) <==> last.prs.Some? && u in UrlsOf(last.prs.value);
    }
  }

  lemma {:induction false} PrUrlsAppend(a: seq<SessionResult>, b: seq<SessionResult>)
    ensures PrUrlsOf(a + b) == PrUrlsOf(a) + PrUrlsOf(b)
    decreases |b|
  {
    if b == [] {
      assert a + b == a;
    } else {
      var init := b[..|b| - 1];
      assert (a + b)[..|a + b| - 1] == a + init;
      assert (a + b)[|a + b| - 1] == b[|b| - 1];
      PrUrlsAppend(a, init);
    }
  }

  /** `extract_pr_urls_from_results(session_results)` */
  method ExtractPrUrls(results: seq<SessionResult>) returns (urls: seq<string>)
    ensures urls == PrUrlsOf(results)
  {
    urls := [];
    for i := 0 to |results|
      invariant urls == PrUrlsOf(results[..i])
    {
      assert results[..i + 1][..i] == results[..i];
      var r := results[i];
      if r.prs.Some? && r.prs.value != [] {
        var prs := r.prs.value;
        ghost var before := urls;
        for j := 0 to |prs|
          invariant urls == before + UrlsOf(prs[..j])
        {
          assert prs[..j + 1][..j] == prs[..j];
          if HasUrl(prs[j]) {
            urls := urls + [prs[j].prUrl.value];
          }
        }
        assert prs[..|prs|] == prs;
      }
    }
    assert results[..|results|] == results;
  }
}
