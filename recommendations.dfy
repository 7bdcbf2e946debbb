/** `extract_recommendations_from_analysis` of the archived recommendation test: turning a
    session analysis (action items, issues, a suggested prompt, a timeline) into four lists of
    recommendations by fixed keyword rules. */
module Recommendations {
  import opened Wrappers
  import opened Strings

  /** An element of one of the analysis lists: a dictionary, or some other value, which is
      skipped (though it still takes up a position). */
  datatype Entry<T> = Record(value: T) | NotRecord

  /** The `type`, `action_item` and `issue_id` values of an action item, where present. */
  datatype ActionItem = ActionItem(kind: Option<string>, text: Option<string>, issueRef: Option<string>)

  /** The `impact`, `label` and `issue` values of an issue, where present. */
  datatype Issue = Issue(impact: Option<string>, issueLabel: Option<string>, description: Option<string>)

  /** The `suggested_prompt` and `feedback_items` values of the suggested-prompt dictionary. */
  datatype Suggestion = Suggestion(prompt: Option<string>, feedback: seq<string>)

  /** The `title` and `description` values of a timeline event, where present. */
  datatype Event = Event(title: Option<string>, description: Option<string>)

  /** The analysis keys the function reads; an absent list is the empty one. */
  datatype SessionAnalysis = SessionAnalysis(
    actionItems: seq<Entry<ActionItem>>,
    issues: seq<Entry<Issue>>,
    suggested: Option<Entry<Suggestion>>,
    timeline: seq<Entry<Event>>)

  /** `{"event": title, "description": desc}` */
  datatype PatternEvent = PatternEvent(event: string, description: string)

  /** The dictionaries the function appends, one constructor per shape. */
  datatype Recommendation =
    | Action(kind: string, action: string, relatedIssue: string, category: string)
    | CriticalFix(action: string, details: string)
    | Fix(issueId: nat, issueLabel: string, issueImpact: string, issueDescription: string, recommendedFix: string, priority: string)
    | PromptImprovement(improvedPrompt: string, feedbackReasons: seq<string>)
    | Patterns(kind: string, description: string, patterns: seq<PatternEvent>)

  /** The result dictionary, whose four keys are always present. */
  datatype Recommendations = Recommendations(
    immediateActions: seq<Recommendation>,
    migrationFixes: seq<Recommendation>,
    improvements: seq<Recommendation>,
    nextSessionApproach: seq<Recommendation>)

  // ---------------------------------------------------------------------------------------
  // Action items

  datatype Bucket = Immediate | Improvement | MigrationFix

  function KindOf(item: ActionItem): string {
    item.kind.GetOr("general")
  }

  /** "machine_setup" and "external" items are immediate, "knowledge" ones improvements, all
      others migration fixes. */
  function BucketOf(kind: string): Bucket {
    if kind == "machine_setup" || kind == "external" then Immediate
    else if kind == "knowledge" then Improvement
    else MigrationFix
  }

  function CategoryName(b: Bucket): string {
    match b
    case Immediate => "immediate"
    case Improvement => "improvement"
    case MigrationFix => "migration"
  }

  function ActionOf(item: ActionItem): Recommendation {
    Action(KindOf(item), item.text.GetOr(""), item.issueRef.GetOr(""), CategoryName(BucketOf(KindOf(item))))
  }

  /** The recommendations the action items put in bucket `b`, in order. */
  function ActionsIn(items: seq<Entry<ActionItem>>, b: Bucket): (r: seq<Recommendation>)
    ensures |r| <= |items|
  {
    if items == [] then []
    else
      var last := items[|items| - 1];
      ActionsIn(items[..|items| - 1], b)
        + (if last.Record? && BucketOf(KindOf(last.value)) == b then [ActionOf(last.value)] else [])
  }

  /** The number of dictionaries in a list. */
  function RecordCount<T>(xs: seq<Entry<T>>): (n: nat)
    ensures n <= |xs|
  {
    if xs == [] then 0 else RecordCount(xs[..|xs| - 1]) + (if xs[|xs| - 1].Record? then 1 else 0)
  }

  /** Every dictionary action item lands in exactly one bucket. */
  lemma {:induction false} ActionsPartition(items: seq<Entry<ActionItem>>)
    ensures |ActionsIn(items, Immediate)| + |ActionsIn(items, Improvement)| + |ActionsIn(items, MigrationFix)|
      == RecordCount(items)
    decreases |items|
  {
    if items != [] {
      ActionsPartition(items[..|items| - 1]);
    }
  }

  /** An item's recommendation carries its own category, which names its bucket. */
  lemma {:induction false} ActionsInMembers(items: seq<Entry<ActionItem>>, b: Bucket, r: Recommendation)
    ensures r in ActionsIn(items, b) <==>
      exists i :: 0 <= i < |items| && items[i].Record? && BucketOf(KindOf(items[i].value)) == b && r == ActionOf(items[i].value)
    decreases |items|
  {
    if items != [] {
      var init := items[..|items| - 1];
      ActionsInMembers(init, b, r);
      assert forall i :: 0 <= i < |init| ==> init[i] == items[i];
    }
  }

  // ---------------------------------------------------------------------------------------
  // Issues

  function ImpactOf(issue: Issue): string {
    issue.impact.GetOr("unknown")
  }

  function LabelOf(issue: Issue): string {
    issue.issueLabel.GetOr("Issue")
  }

  function CriticalFixOf(issue: Issue): Recommendation {
    CriticalFix("Fix high-impact issue: " + LabelOf(issue), issue.description.GetOr(""))
  }

  /** The fix recommendation of the issue at 1-based position `id`. */
  function FixOf(id: nat, issue: Issue): Recommendation {
    var description := issue.description.GetOr("");
    Fix(id, LabelOf(issue), ImpactOf(issue), description,
        "Address " + LabelOf(issue) + ": " + description, ImpactOf(issue))
  }

  /** The `critical_fix` entries of the high-impact issues, in order. */
  function CriticalFixes(issues: seq<Entry<Issue>>): (r: seq<Recommendation>)
    ensures |r| <= |issues|
  {
    if issues == [] then []
    else
      var last := issues[|issues| - 1];
      CriticalFixes(issues[..|issues| - 1])
        + (if last.Record? && ImpactOf(last.value) == "high" then [CriticalFixOf(last.value)] else [])
  }

  /** The fix entries of the other issues, numbered by position in the whole list. */
  function IssueFixes(issues: seq<Entry<Issue>>): (r: seq<Recommendation>)
    ensures |r| <= |issues|
  {
    if issues == [] then []
    else
      var last := issues[|issues| - 1];
      IssueFixes(issues[..|issues| - 1])
        + (if last.Record? && ImpactOf(last.value) != "high" then [FixOf(|issues|, last.value)] else [])
  }

  /** Every dictionary issue yields exactly one entry, critical or fix. */
  lemma {:induction false} IssuesPartition(issues: seq<Entry<Issue>>)
    ensures |CriticalFixes(issues)| + |IssueFixes(issues)| == RecordCount(issues)
    decreases |issues|
  {
    if issues != [] {
      IssuesPartition(issues[..|issues| - 1]);
    }
  }

  /** A fix entry names the position of its issue, counting non-dictionary entries too, and
      takes its priority from that issue's impact, which is not "high"; every such issue has
      its entry. */
  lemma {:induction false} IssueFixesNumbered(issues: seq<Entry<Issue>>, r: Recommendation)
    ensures r in IssueFixes(issues) <==>
      exists i :: 0 <= i < |issues| && issues[i].Record? && ImpactOf(issues[i].value) != "high"
        && r == FixOf(i + 1, issues[i].value)
    decreases |issues|
  {
    if issues != [] {
      var n := |issues|;
      var init := issues[..n - 1];
      var last := issues[n - 1];
      IssueFixesNumbered(init, r);
      var tail := if last.Record? && ImpactOf(last.value) != "high" then [FixOf(n, last.value)] else [];
      assert IssueFixes(issues) == IssueFixes(init) + tail;
      if r in IssueFixes(issues) {
        if r in IssueFixes(init) {
          var i :| 0 <= i < |init| && init[i].Record? && ImpactOf(init[i].value) != "high" && r == FixOf(i + 1, init[i].value);
          assert issues[i] == init[i];
        } else {
          assert r in tail && issues[n - 1] == last;
        }
      }
      if exists i :: 0 <= i < n && issues[i].Record? && ImpactOf(issues[i].value) != "high" && r == FixOf(i + 1, issues[i].value) {
        var i :| 0 <= i < n && issues[i].Record? && ImpactOf(issues[i].value) != "high" && r == FixOf(i + 1, issues[i].value);
        if i < n - 1 {
          assert init[i] == issues[i];
        } else {
          assert r in tail;
        }
      }
    }
  }

  lemma FixPriority(id: nat, issue: Issue)
    requires ImpactOf(issue) != "high"
    ensures FixOf(id, issue).priority == ImpactOf(issue) != "high"
    ensures FixOf(id, issue).issueId == id
  {
  }

  // ---------------------------------------------------------------------------------------
  // Suggested prompt

  /** One `prompt_improvement` entry exactly when the suggestion is a dictionary with a
      non-empty `suggested_prompt`.  (An empty dictionary, which Python treats as false, has
      no prompt and so gives no entry either.) */
  function PromptEntries(suggested: Option<Entry<Suggestion>>): (r: seq<Recommendation>)
    ensures |r| <= 1
  {
    match suggested
    case Some(Record(s)) =>
      var prompt := s.prompt.GetOr("");
      if prompt != [] then [PromptImprovement(prompt, s.feedback)] else []
    case _ => []
  }

  lemma PromptEntriesExact(suggested: Option<Entry<Suggestion>>)
    ensures |PromptEntries(suggested)| == 1 <==>
      suggested.Some? && suggested.value.Record? && suggested.value.value.prompt.GetOr("") != []
  {
  }

  // ---------------------------------------------------------------------------------------
  // Timeline

  datatype Outcome = Failed | Succeeded | Neither

  predicate HasAny(title: string, words: seq<string>) {
    exists w :: w in words && Contains(title, w)
  }

  const FailureWords: seq<string> := ["error", "fail", "issue"]
  const FixWords: seq<string> := ["fixed", "resolved"]
  const SuccessWords: seq<string> := ["success", "complete", "fixed"]

  /** How the lower-cased title of an event is read. */
  function Classify(title: string): Outcome {
    var lower := ToLower(title);
    if HasAny(lower, FailureWords) then
      if !HasAny(lower, FixWords) then Failed else Neither
    else if HasAny(lower, SuccessWords) then Succeeded
    else Neither
  }

  /** A failure word without a fix word is a failure; a success word without a failure word is
      a success; and a failure word with "fixed" or "resolved" is neither, since the success
      branch is only tried when no failure word occurs. */
  lemma ClassifyCases(title: string)
    ensures Classify(title) == Failed <==> HasAny(ToLower(title), FailureWords) && !HasAny(ToLower(title), FixWords)
    ensures Classify(title) == Succeeded <==> !HasAny(ToLower(title), FailureWords) && HasAny(ToLower(title), SuccessWords)
    ensures HasAny(ToLower(title), FailureWords) && HasAny(ToLower(title), FixWords) ==> Classify(title) == Neither
    ensures Contains(ToLower(title), "fixed") ==> Classify(title) != Failed
  {
    if Contains(ToLower(title), "fixed") {
      assert "fixed" in FixWords;
    }
  }

  /** The title "Error fixed" is neither a failure nor a success. */
  lemma ErrorFixedIsNeither()
    ensures Classify("Error fixed") == Neither
  {
    var lower := ToLower("Error fixed");
    assert lower == "error fixed";
    assert OccursAt(lower, "error", 0);
    assert OccursAt(lower, "fixed", 6);
    assert "error" in FailureWords && "fixed" in FixWords;
    ClassifyCases("Error fixed");
  }

  function PatternOf(e: Event): PatternEvent {
    PatternEvent(e.title.GetOr(""), e.description.GetOr(""))
  }

  /** The events whose titles read as `o`, in order. */
  function EventsWith(timeline: seq<Entry<Event>>, o: Outcome): (r: seq<PatternEvent>)
    ensures |r| <= |timeline|
  {
    if timeline == [] then []
    else
      var last := timeline[|timeline| - 1];
      EventsWith(timeline[..|timeline| - 1], o)
        + (if last.Record? && Classify(last.value.title.GetOr("")) == o then [PatternOf(last.value)] else [])
  }

  /** No event is both a failure and a success. */
  lemma {:induction false} EventsSplit(timeline: seq<Entry<Event>>)
    ensures |EventsWith(timeline, Failed)| + |EventsWith(timeline, Succeeded)| + |EventsWith(timeline, Neither)|
      == RecordCount(timeline)
    decreases |timeline|
  {
    if timeline != [] {
      EventsSplit(timeline[..|timeline| - 1]);
    }
  }

  /** The pattern entries: one per non-empty list, failures first. */
  function PatternEntries(failed: seq<PatternEvent>, succeeded: seq<PatternEvent>): seq<Recommendation> {
    (if failed != [] then [Patterns("avoid_patterns", "Patterns to avoid based on failed attempts", failed)] else [])
      + (if succeeded != [] then [Patterns("success_patterns", "Successful patterns to replicate", succeeded)] else [])
  }

  // ---------------------------------------------------------------------------------------
  // The whole extraction

  function Extracted(a: SessionAnalysis): Recommendations {
    Recommendations(
      ActionsIn(a.actionItems, Immediate) + CriticalFixes(a.issues),
      ActionsIn(a.actionItems, MigrationFix) + IssueFixes(a.issues),
      ActionsIn(a.actionItems, Improvement)
        + PatternEntries(EventsWith(a.timeline, Failed), EventsWith(a.timeline, Succeeded)),
      PromptEntries(a.suggested))
  }

  /** Every dictionary action item and every dictionary issue gives exactly one entry outside
      the pattern summaries, and the improvements end with at most two pattern summaries,
      present exactly when some event failed or succeeded. */
  lemma ExtractedCounts(a: SessionAnalysis)
    ensures var r := Extracted(a);
      var patterns := |r.improvements| - |ActionsIn(a.actionItems, Improvement)|;
      && |r.immediateActions| + |r.migrationFixes| + |r.improvements| - patterns
         == RecordCount(a.actionItems) + RecordCount(a.issues)
      && (patterns > 0 <==> EventsWith(a.timeline, Failed) != [] || EventsWith(a.timeline, Succeeded) != [])
      && patterns <= 2
  {
    ActionsPartition(a.actionItems);
    IssuesPartition(a.issues);
  }

  lemma ActionsSnoc(items: seq<Entry<ActionItem>>, i: nat, b: Bucket)
    requires i < |items|
    ensures ActionsIn(items[..i + 1], b) == ActionsIn(items[..i], b)
      + (if items[i].Record? && BucketOf(KindOf(items[i].value)) == b then [ActionOf(items[i].value)] else [])
  {
    assert items[..i + 1][..i] == items[..i];
  }

  lemma IssuesSnoc(issues: seq<Entry<Issue>>, i: nat)
    requires i < |issues|
    ensures CriticalFixes(issues[..i + 1]) == CriticalFixes(issues[..i])
      + (if issues[i].Record? && ImpactOf(issues[i].value) == "high" then [CriticalFixOf(issues[i].value)] else [])
    ensures IssueFixes(issues[..i + 1]) == IssueFixes(issues[..i])
      + (if issues[i].Record? && ImpactOf(issues[i].value) != "high" then [FixOf(i + 1, issues[i].value)] else [])
  {
    assert issues[..i + 1][..i] == issues[..i];
  }

  lemma EventsSnoc(timeline: seq<Entry<Event>>, i: nat, o: Outcome)
    requires i < |timeline|
    ensures EventsWith(timeline[..i + 1], o) == EventsWith(timeline[..i], o)
      + (if timeline[i].Record? && Classify(timeline[i].value.title.GetOr("")) == o then [PatternOf(timeline[i].value)] else [])
  {
    assert timeline[..i + 1][..i] == timeline[..i];
  }

  /** The action-item loop: each dictionary item appended to the list of its bucket. */
  method SortActionItems(items: seq<Entry<ActionItem>>) returns (immediate: seq<Recommendation>, fixes: seq<Recommendation>, improvements: seq<Recommendation>)
    ensures immediate == ActionsIn(items, Immediate)
    ensures fixes == ActionsIn(items, MigrationFix)
    ensures improvements == ActionsIn(items, Improvement)
  {
    immediate, fixes, improvements := [], [], [];
    for i := 0 to |items|
      invariant immediate == ActionsIn(items[..i], Immediate)
      invariant fixes == ActionsIn(items[..i], MigrationFix)
      invariant improvements == ActionsIn(items[..i], Improvement)
    {
      ActionsSnoc(items, i, Immediate);
      ActionsSnoc(items, i, MigrationFix);
      ActionsSnoc(items, i, Improvement);
      if items[i].Record? {
        var rec := ActionOf(items[i].value);
        var b := BucketOf(KindOf(items[i].value));
        if b == Immediate {
          immediate := immediate + [rec];
        } else if b == Improvement {
          improvements := improvements + [rec];
        } else {
          fixes := fixes + [rec];
        }
      }
    }
    assert items[..|items|] == items;
  }

  /** The issue loop, numbering issues from 1. */
  method SortIssues(issues: seq<Entry<Issue>>) returns (critical: seq<Recommendation>, fixes: seq<Recommendation>)
    ensures critical == CriticalFixes(issues)
    ensures fixes == IssueFixes(issues)
  {
    critical, fixes := [], [];
    for i := 0 to |issues|
      invariant critical == CriticalFixes(issues[..i])
      invariant fixes == IssueFixes(issues[..i])
    {
      IssuesSnoc(issues, i);
      if issues[i].Record? {
        var issue := issues[i].value;
        if ImpactOf(issue) == "high" {
          critical := critical + [CriticalFixOf(issue)];
        } else {
          fixes := fixes + [FixOf(i + 1, issue)];
        }
      }
    }
    assert issues[..|issues|] == issues;
  }

  /** The timeline loop: failed and successful events, in order. */
  method SplitTimeline(timeline: seq<Entry<Event>>) returns (failed: seq<PatternEvent>, succeeded: seq<PatternEvent>)
    ensures failed == EventsWith(timeline, Failed)
    ensures succeeded == EventsWith(timeline, Succeeded)
  {
    failed, succeeded := [], [];
    for i := 0 to |timeline|
      invariant failed == EventsWith(timeline[..i], Failed)
      invariant succeeded == EventsWith(timeline[..i], Succeeded)
    {
      EventsSnoc(timeline, i, Failed);
      EventsSnoc(timeline, i, Succeeded);
      if timeline[i].Record? {
        var e := timeline[i].value;
        var outcome := Classify(e.title.GetOr(""));
        if outcome == Failed {
          failed := failed + [PatternOf(e)];
        } else if outcome == Succeeded {
          succeeded := succeeded + [PatternOf(e)];
        }
      }
    }
    assert timeline[..|timeline|] == timeline;
  }

  /** `extract_recommendations_from_analysis(analysis)` */
  method ExtractRecommendations(a: SessionAnalysis) returns (r: Recommendations)
    ensures r == Extracted(a)
  {
    var immediate, fixes, improvements := SortActionItems(a.actionItems);
    var critical, issueFixes := SortIssues(a.issues);
    immediate := immediate + critical;
    fixes := fixes + issueFixes;
    var next := PromptEntries(a.suggested);
    var failed, succeeded := SplitTimeline(a.timeline);
    improvements := improvements + PatternEntries(failed, succeeded);
    r := Recommendations(immediate, fixes, improvements, next);
  }
}
