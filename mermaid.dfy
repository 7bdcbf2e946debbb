/** What the two visualisation tools share: the category a task id suggests, the category
    tally of the HTML page, and the dependency-arrow and parallel-group sections of the
    Mermaid diagram, which both tools emit with the same code. */
module Mermaid {
  import opened Wrappers
  import opened Strings
  import opened Tasks
  import Levels
  import Plans

  datatype Category = Setup | Validator | Migration | Other {
    /** The string `infer_task_category` returns, also the Mermaid class name. */
    function Name(): string {
      match this
      case Setup => "setup"
      case Validator => "validator"
      case Migration => "migration"
      case Other => "other"
    }
  }

  predicate SetupLike(lower: string) {
    Contains(lower, "setup") || Contains(lower, "pre_")
  }

  predicate MigrationLike(lower: string) {
    Contains(lower, "migrate") || Contains(lower, "mig_")
  }

  /** `infer_task_category(task)` on the task's id (a missing id is the empty string). */
  function InferCategory(id: string): Category {
    var lower := ToLower(id);
    if SetupLike(lower) then Setup
    else if Contains(lower, "validator") || Contains(lower, "valid") then Validator
    else if MigrationLike(lower) then Migration
    else Other
  }

  /** The category test is on the lower-cased id, so the id's case does not matter. */
  lemma CategoryIgnoresCase(id: string)
    ensures InferCategory(ToLower(id)) == InferCategory(id)
  {
    ToLowerIdempotent(id);
  }

  /** Every id containing "validator" contains "valid", so an id is a validator exactly when
      it is not a setup and contains "valid". */
  lemma CategoryOfValidator(id: string)
    ensures InferCategory(id) == Validator <==> !SetupLike(ToLower(id)) && Contains(ToLower(id), "valid")
  {
    var lower := ToLower(id);
    if Contains(lower, "validator") {
      ContainsPiece(lower, "validator", 0, 5);
      assert "validator"[0..5] == "valid";
    }
  }

  lemma ContainsLength(s: string, sub: string)
    requires Contains(s, sub)
    ensures |sub| <= |s|
  {
  }

  /** A category other than "other" needs one of the keywords, so an id shorter than four
      characters (the empty one included) is always "other". */
  lemma CategoryNeedsKeyword(id: string)
    requires |id| < 4
    ensures InferCategory(id) == Other
  {
    var lower := ToLower(id);
    if Contains(lower, "setup") { ContainsLength(lower, "setup"); }
    if Contains(lower, "pre_") { ContainsLength(lower, "pre_"); }
    if Contains(lower, "validator") { ContainsLength(lower, "validator"); }
    if Contains(lower, "valid") { ContainsLength(lower, "valid"); }
    if Contains(lower, "migrate") { ContainsLength(lower, "migrate"); }
    if Contains(lower, "mig_") { ContainsLength(lower, "mig_"); }
  }

  // ---------------------------------------------------------------------------------------
  // The category tally of generate_html

  /** The number of tasks in category `c`. */
  function CountOf(ts: seq<Task>, c: Category): (n: nat)
    ensures n <= |ts|
  {
    if ts == [] then 0
    else CountOf(ts[..|ts| - 1], c) + (if InferCategory(ts[|ts| - 1].id) == c then 1 else 0)
  }

  const CategoryNames: set<string> := {"setup", "validator", "migration", "other"}

  /** The four counts add up to the number of tasks. */
  lemma {:induction false} CountsSum(ts: seq<Task>)
    ensures CountOf(ts, Setup) + CountOf(ts, Validator) + CountOf(ts, Migration) + CountOf(ts, Other) == |ts|
    decreases |ts|
  {
    if ts != [] {
      CountsSum(ts[..|ts| - 1]);
    }
  }

  /** The `categories` dictionary of `generate_html`: a count per category name. */
  method CountCategories(ts: seq<Task>) returns (counts: map<string, nat>)
    ensures counts.Keys == CategoryNames
    ensures forall c: Category :: counts[c.Name()] == CountOf(ts, c)
  {
    counts := map["setup" := 0, "validator" := 0, "migration" := 0, "other" := 0];
    for i := 0 to |ts|
      invariant counts.Keys == CategoryNames
      invariant forall c: Category :: counts[c.Name()] == CountOf(ts[..i], c)
    {
      assert ts[..i + 1][..i] == ts[..i];
      var name := InferCategory(ts[i].id).Name();
      counts := counts[name := counts[name] + 1];
    }
    assert ts[..|ts|] == ts;
  }

  // ---------------------------------------------------------------------------------------
  // Dependency arrows

  /** `    <dep> --> <task>` */
  function EdgeLine(dep: string, id: string): string {
    "    " + dep + " --> " + id
  }

  /** The arrows into one task, in the order of its `depends_on` list. */
  function EdgesOf(t: Task): (r: seq<string>)
    ensures |r| == |t.dependsOn| && forall j :: 0 <= j < |r| ==> r[j] == EdgeLine(t.dependsOn[j], t.id)
  {
    seq(|t.dependsOn|, j requires 0 <= j < |t.dependsOn| => EdgeLine(t.dependsOn[j], t.id))
  }

  /** The arrow lines of the diagram: task by task, dependency by dependency, whether or not
      the dependency is a task of the list. */
  function DependencyLines(ts: seq<Task>): seq<string> {
    if ts == [] then [] else DependencyLines(ts[..|ts| - 1]) + EdgesOf(ts[|ts| - 1])
  }

  lemma {:induction false} DependencyLinesAppend(a: seq<Task>, b: seq<Task>)
    ensures DependencyLines(a + b) == DependencyLines(a) + DependencyLines(b)
    decreases |b|
  {
    if b == [] {
      assert a + b == a;
    } else {
      assert (a + b)[..|a + b| - 1] == a + b[..|b| - 1];
      assert (a + b)[|a + b| - 1] == b[|b| - 1];
      DependencyLinesAppend(a, b[..|b| - 1]);
    }
  }

  /** There is a line for every `depends_on` entry of every task and no other line. */
  lemma {:induction false} DependencyLinesMembers(ts: seq<Task>, line: string)
    ensures line in DependencyLines(ts) <==>
      exists i, j :: 0 <= i < |ts| && 0 <= j < |ts[i].dependsOn| && line == EdgeLine(ts[i].dependsOn[j], ts[i].id)
    decreases |ts|
  {
    if ts != [] {
      var init := ts[..|ts| - 1];
      DependencyLinesMembers(init, line);
      assert forall i :: 0 <= i < |init| ==> init[i] == ts[i];
    }
  }

  /** The dependency loop of `generate_mermaid_code`. */
  method EmitDependencies(ts: seq<Task>) returns (lines: seq<string>)
    ensures lines == DependencyLines(ts)
  {
    lines := [];
    for i := 0 to |ts|
      invariant lines == DependencyLines(ts[..i])
    {
      assert ts[..i + 1][..i] == ts[..i];
      var t := ts[i];
      ghost var before := lines;
      for j := 0 to |t.dependsOn|
        invariant lines == before + EdgesOf(t)[..j]
      {
        assert EdgesOf(t)[..j + 1] == EdgesOf(t)[..j] + [EdgeLine(t.dependsOn[j], t.id)];
        lines := lines + [EdgeLine(t.dependsOn[j], t.id)];
      }
      assert EdgesOf(t)[..|t.dependsOn|] == EdgesOf(t);
    }
    assert ts[..|ts|] == ts;
  }

  // ---------------------------------------------------------------------------------------
  // Parallel-group subgraphs

  function GroupName(i: nat): string {
    "parallel_group_" + NatToString(i)
  }

  function SubgraphHeader(i: nat, g: Plans.GroupDetail): string {
    "    subgraph " + GroupName(i) + "[Parallel Group - Level " + NatToString(g.level) + "]"
  }

  function SubgraphStyle(i: nat): string {
    "    style " + GroupName(i) + " fill:#fce4ec,stroke:#c2185b,stroke-width:2px,stroke-dasharray: 5 5"
  }

  function MemberLine(id: string): string {
    "        " + id
  }

  function MemberLines(ids: seq<string>): (r: seq<string>)
    ensures |r| == |ids| && forall k :: 0 <= k < |ids| ==> r[k] == MemberLine(ids[k])
  {
    seq(|ids|, k requires 0 <= k < |ids| => MemberLine(ids[k]))
  }

  /** The subgraph block of group number `i`: header, direction, one line per member, end
      and style. */
  function Block(i: nat, g: Plans.GroupDetail): (r: seq<string>)
    ensures |r| == |g.tasks| + 4
  {
    [SubgraphHeader(i, g), "        direction LR"] + MemberLines(g.tasks) + ["    end", SubgraphStyle(i)]
  }

  /** The subgraph lines: a block for each group of more than one task, numbered by the
      group's position in the list. */
  function SubgraphLines(gs: seq<Plans.GroupDetail>): seq<string> {
    if gs == [] then []
    else
      var last := gs[|gs| - 1];
      SubgraphLines(gs[..|gs| - 1]) + (if |last.tasks| > 1 then Block(|gs| - 1, last) else [])
  }

  /** The sum, over the groups of more than one task, of their block sizes. */
  function BlockLines(gs: seq<Plans.GroupDetail>): nat {
    if gs == [] then 0
    else
      var last := gs[|gs| - 1];
      BlockLines(gs[..|gs| - 1]) + (if |last.tasks| > 1 then |last.tasks| + 4 else 0)
  }

  /** Groups of one task (or none) get no block; the others get their whole block. */
  lemma {:induction false} SubgraphLinesCount(gs: seq<Plans.GroupDetail>)
    ensures |SubgraphLines(gs)| == BlockLines(gs)
    ensures (forall i :: 0 <= i < |gs| ==> |gs[i].tasks| <= 1) ==> SubgraphLines(gs) == []
    decreases |gs|
  {
    if gs != [] {
      var init := gs[..|gs| - 1];
      assert forall i :: 0 <= i < |init| ==> init[i] == gs[i];
      SubgraphLinesCount(init);
    }
  }

  /** Every member of a group of more than one task is listed in the subgraph section. */
  lemma {:induction false} SubgraphListsMembers(gs: seq<Plans.GroupDetail>, i: nat, k: nat)
    requires i < |gs| && |gs[i].tasks| > 1 && k < |gs[i].tasks|
    ensures MemberLine(gs[i].tasks[k]) in SubgraphLines(gs)
    decreases |gs|
  {
    var init := gs[..|gs| - 1];
    if i < |gs| - 1 {
      assert init[i] == gs[i];
      SubgraphListsMembers(init, i, k);
    } else {
      var b := Block(i, gs[i]);
      assert b[k + 2] == MemberLine(gs[i].tasks[k]);
      assert b[k + 2] in b;
    }
  }

  lemma SubgraphLinesSnoc(gs: seq<Plans.GroupDetail>, i: nat)
    requires i < |gs|
    ensures SubgraphLines(gs[..i + 1]) == SubgraphLines(gs[..i]) + (if |gs[i].tasks| > 1 then Block(i, gs[i]) else [])
  {
    assert gs[..i + 1][..i] == gs[..i];
  }

  /** The member lines of one block, appended one by one. */
  method EmitMembers(ids: seq<string>) returns (lines: seq<string>)
    ensures lines == MemberLines(ids)
  {
    lines := [];
    for k := 0 to |ids|
      invariant lines == MemberLines(ids)[..k]
    {
      lines := lines + [MemberLine(ids[k])];
    }
  }

  /** The subgraph loop of `generate_mermaid_code`. */
  method EmitSubgraphs(gs: seq<Plans.GroupDetail>) returns (lines: seq<string>)
    ensures lines == SubgraphLines(gs)
  {
    lines := [];
    for i := 0 to |gs|
      invariant lines == SubgraphLines(gs[..i])
    {
      SubgraphLinesSnoc(gs, i);
      var g := gs[i];
      if |g.tasks| > 1 {
        var members := EmitMembers(g.tasks);
        lines := lines + ([SubgraphHeader(i, g), "        direction LR"] + members + ["    end", SubgraphStyle(i)]);
      }
    }
    assert gs[..|gs|] == gs;
  }

  // ---------------------------------------------------------------------------------------
  // Styling sets

  /** `tasks_in_parallel`: the ids of every listed group. */
  function ParallelIds(gs: seq<Plans.GroupDetail>): set<string> {
    if gs == [] then {} else ParallelIds(gs[..|gs| - 1]) + Levels.Elements(gs[|gs| - 1].tasks)
  }

  lemma {:induction false} ParallelIdsMembers(gs: seq<Plans.GroupDetail>, x: string)
    ensures x in ParallelIds(gs) <==> exists i :: 0 <= i < |gs| && x in gs[i].tasks
    decreases |gs|
  {
    if gs != [] {
      var init := gs[..|gs| - 1];
      ParallelIdsMembers(init, x);
      assert forall i :: 0 <= i < |init| ==> init[i] == gs[i];
    }
  }

  /** The loop that fills `tasks_in_parallel`. */
  method CollectParallelIds(gs: seq<Plans.GroupDetail>) returns (ids: set<string>)
    ensures ids == ParallelIds(gs)
  {
    ids := {};
    for i := 0 to |gs|
      invariant ids == ParallelIds(gs[..i])
    {
      assert gs[..i + 1][..i] == gs[..i];
      ids := ids + Levels.Elements(gs[i].tasks);
    }
    assert gs[..|gs|] == gs;
  }
}
