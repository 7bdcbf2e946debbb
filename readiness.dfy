/** The ready-task rules of the orchestrators and the choice of the batch to run next.

    A task is ready when its own status makes it a candidate and every id in its `depends_on`
    maps to the "done" status in the plan's status map; the orchestrators differ only in their
    status words and in how a missing status reads. From two or more ready tasks, the batch is
    taken from the first parallel group the analyzer finds among them. */
module Readiness {
  import opened Wrappers
  import opened Strings
  import opened Tasks
  import opened Reachability
  import opened Levels
  import opened Clusters
  import opened Groups

  /** How a rule reads statuses.
      `SkipDone(done, fallback)`: every task not explicitly `done` is a candidate, and a task
      without a status counts as `fallback` in the status map.
      `OnlyPending(pending, done)`: only tasks whose status, `pending` when missing, is
      `pending` are candidates. */
  datatype StatusRule =
    | SkipDone(done: string, fallback: string)
    | OnlyPending(pending: string, done: string)
  {
    /** The status a task without one has in the status map. */
    function Fallback(): string {
      match this
      case SkipDone(_, f) => f
      case OnlyPending(p, _) => p
    }

    /** The `continue` test of the loop over the tasks, negated. */
    predicate Candidate(t: Task) {
      match this
      case SkipDone(d, _) => t.status != Some(d)
      case OnlyPending(p, _) => t.status.GetOr(p) == p
    }

    /** The word for an unfinished task differs from the word for a finished one. */
    predicate Separates() {
      Fallback() != done
    }
  }

  /** src/orchestrate_deterministic.py: skip "complete", missing status is "not-complete". */
  const Deterministic := SkipDone("complete", "not-complete")
  /** src/orchestrate_migration.py: only "not-complete" (the default) runs. */
  const Migration := OnlyPending("not-complete", "complete")
  /** The archived orchestrator and the simple runner: only "pending" (the default) runs. */
  const Archived := OnlyPending("pending", "completed")

  /** A candidate never carries the finished status in the status map. */
  lemma CandidateNotDone(rule: StatusRule, t: Task)
    requires rule.Separates() && rule.Candidate(t)
    ensures t.status.GetOr(rule.Fallback()) != rule.done
  {
  }

  // ---------------------------------------------------------------------------------------
  // The status map

  /** `{t["id"]: t.get("status", fallback) for t in tasks}` */
  function StatusMap(ts: seq<Task>, fallback: string): map<string, string>
    decreases |ts|
  {
    if ts == [] then map[]
    else
      var last := ts[|ts| - 1];
      StatusMap(ts[..|ts| - 1], fallback)[last.id := last.status.GetOr(fallback)]
  }

  /** The map has the ids of the list as keys and, for each, the status of the last record
      with that id. */
  lemma {:induction false} StatusMapLookup(ts: seq<Task>, fallback: string, id: string)
    ensures id in StatusMap(ts, fallback) <==> id in IdSet(ts)
    ensures id in IdSet(ts) ==> StatusMap(ts, fallback)[id] == Lookup(ts, id).status.GetOr(fallback)
    decreases |ts|
  {
    if ts != [] {
      var init := ts[..|ts| - 1];
      StatusMapLookup(init, fallback, id);
      IdSetSnoc(ts);
    }
  }

  lemma IdSetSnoc(ts: seq<Task>)
    requires ts != []
    ensures IdSet(ts) == IdSet(ts[..|ts| - 1]) + {ts[|ts| - 1].id}
  {
    var init := ts[..|ts| - 1];
    forall x | x in IdSet(init) ensures x in IdSet(ts) {
      var i :| 0 <= i < |init| && init[i].id == x;
      assert ts[i] == init[i];
    }
  }

  /** `all(status_map.get(dep) == done for dep in deps)`: an id missing from the map blocks. */
  predicate DepsDone(m: map<string, string>, deps: seq<string>, done: string) {
    forall d :: d in deps ==> d in m && m[d] == done
  }

  // ---------------------------------------------------------------------------------------
  // Ready tasks

  predicate ReadyIn(m: map<string, string>, rule: StatusRule, t: Task) {
    rule.Candidate(t) && DepsDone(m, t.dependsOn, rule.done)
  }

  /** What one iteration of the loop keeps of task `t`. */
  function Kept(m: map<string, string>, rule: StatusRule, t: Task): seq<Task> {
    if ReadyIn(m, rule, t) then [t] else []
  }

  /** The loop over `xs`, keeping the ready tasks in order. */
  function ReadyFrom(m: map<string, string>, rule: StatusRule, xs: seq<Task>): seq<Task> {
    if xs == [] then [] else Kept(m, rule, xs[0]) + ReadyFrom(m, rule, xs[1..])
  }

  /** `find_ready_tasks(plan)`, the part before any batching. */
  function Ready(plan: seq<Task>, rule: StatusRule): seq<Task> {
    ReadyFrom(StatusMap(plan, rule.Fallback()), rule, plan)
  }

  /** The ready tasks of a split list are those of its first part followed by those of its
      second: the result keeps the plan's order. */
  lemma {:induction false} ReadyFromAppend(m: map<string, string>, rule: StatusRule, xs: seq<Task>, ys: seq<Task>)
    ensures ReadyFrom(m, rule, xs + ys) == ReadyFrom(m, rule, xs) + ReadyFrom(m, rule, ys)
    decreases |xs|
  {
    if xs == [] {
      assert xs + ys == ys;
    } else {
      assert (xs + ys)[0] == xs[0] && (xs + ys)[1..] == xs[1..] + ys;
      ReadyFromAppend(m, rule, xs[1..], ys);
    }
  }

  lemma {:induction false} ReadyFromMembers(m: map<string, string>, rule: StatusRule, xs: seq<Task>)
    ensures forall t :: t in ReadyFrom(m, rule, xs) <==> t in xs && ReadyIn(m, rule, t)
    decreases |xs|
  {
    if xs != [] {
      ReadyFromMembers(m, rule, xs[1..]);
      assert xs == [xs[0]] + xs[1..];
    }
  }

  /** A task is ready exactly when it is a listed candidate each of whose dependencies is a task
      of the plan whose (last) record has the finished status; a dependency missing from the
      plan blocks it. */
  lemma ReadyMembers(plan: seq<Task>, rule: StatusRule, t: Task)
    ensures t in Ready(plan, rule) <==>
      && t in plan && rule.Candidate(t)
      && forall d :: d in t.dependsOn ==>
           d in IdSet(plan) && Lookup(plan, d).status.GetOr(rule.Fallback()) == rule.done
  {
    ReadyFromMembers(StatusMap(plan, rule.Fallback()), rule, plan);
    forall d ensures d in StatusMap(plan, rule.Fallback()) <==> d in IdSet(plan) {
      StatusMapLookup(plan, rule.Fallback(), d);
    }
    forall d | d in IdSet(plan)
      ensures StatusMap(plan, rule.Fallback())[d] == Lookup(plan, d).status.GetOr(rule.Fallback()) {
      StatusMapLookup(plan, rule.Fallback(), d);
    }
  }

  lemma {:induction false} ReadyFromUnique(m: map<string, string>, rule: StatusRule, xs: seq<Task>)
    requires UniqueIds(xs)
    ensures UniqueIds(ReadyFrom(m, rule, xs))
    decreases |xs|
  {
    if xs != [] {
      ReadyFromUnique(m, rule, xs[1..]);
      ReadyFromMembers(m, rule, xs[1..]);
      var rest := ReadyFrom(m, rule, xs[1..]);
      forall j | 0 <= j < |rest| ensures rest[j].id != xs[0].id {
        assert rest[j] in xs[1..];
        var k :| 0 <= k < |xs[1..]| && xs[1..][k] == rest[j];
        assert xs[k + 1] == rest[j];
      }
    }
  }

  /** The `for task in tasks` loop of each `find_ready_tasks`. */
  method FindReady(plan: seq<Task>, rule: StatusRule) returns (ready: seq<Task>)
    ensures ready == Ready(plan, rule)
  {
    var statusMap := StatusMap(plan, rule.Fallback());
    ready := [];
    for i := 0 to |plan|
      invariant ready == ReadyFrom(statusMap, rule, plan[..i])
    {
      var task := plan[i];
      ReadyFromAppend(statusMap, rule, plan[..i], [task]);
      assert plan[..i + 1] == plan[..i] + [task];
      if !rule.Candidate(task) {
        continue;
      }
      if DepsDone(statusMap, task.dependsOn, rule.done) {
        ready := ready + [task];
      }
    }
    assert plan[..|plan|] == plan;
  }

  /** `find_ready_tasks` of src/orchestrate_deterministic.py: never a "complete" task, while a
      task without a status or with any other one may be ready. */
  method FindReadyDeterministic(plan: seq<Task>) returns (ready: seq<Task>)
    ensures ready == Ready(plan, Deterministic)
    ensures forall t :: t in ready ==> t in plan && t.status != Some("complete")
    ensures forall t :: t in ready ==> forall d :: d in t.dependsOn ==> d in IdSet(plan)
  {
    ready := FindReady(plan, Deterministic);
    forall t | t in ready ensures t in plan && t.status != Some("complete") && forall d :: d in t.dependsOn ==> d in IdSet(plan) {
      ReadyMembers(plan, Deterministic, t);
    }
  }

  /** `find_ready_tasks` of the simple parallel runner: only "pending" tasks (the default)
      whose dependencies are all "completed". */
  method FindReadySimple(plan: seq<Task>) returns (ready: seq<Task>)
    ensures ready == Ready(plan, Archived)
    ensures forall t :: t in ready ==> t in plan && t.status.GetOr("pending") == "pending"
  {
    ready := FindReady(plan, Archived);
    forall t | t in ready ensures t in plan && t.status.GetOr("pending") == "pending" {
      ReadyMembers(plan, Archived, t);
    }
  }

  // ---------------------------------------------------------------------------------------
  // The batch

  /** `[t for t in tasks if t["id"] in ids]` */
  function TasksIn(ts: seq<Task>, ids: seq<string>): seq<Task> {
    if ts == [] then []
    else (if ts[0].id in ids then [ts[0]] else []) + TasksIn(ts[1..], ids)
  }

  lemma {:induction false} TasksInMembers(ts: seq<Task>, ids: seq<string>)
    ensures forall t :: t in TasksIn(ts, ids) <==> t in ts && t.id in ids
    decreases |ts|
  {
    if ts != [] {
      TasksInMembers(ts[1..], ids);
      assert ts == [ts[0]] + ts[1..];
    }
  }

  /** The ids to take from the first group: all of them, or the first `max_parallel`. */
  function Limit(ids: seq<string>, maxParallel: Option<int>): seq<string> {
    match maxParallel
    case None => ids
    case Some(m) => SliceTo(ids, m)
  }

  /** `select_parallel_batch(ready_tasks, max_parallel)`; it fails where the analyzer does. The
      batching of src/orchestrate_migration.py is the same with `Some(max_parallel)`. */
  ghost function SelectBatch(ready: seq<Task>, maxParallel: Option<int>): Result<seq<Task>> {
    if ready == [] then Ok([])
    else if |ready| == 1 then Ok(ready)
    else match DetectSpec(ready)
      case Err(e) => Err(e)
      case Ok(groups) =>
        if groups != [] then Ok(TasksIn(ready, Limit(groups[0].taskIds, maxParallel)))
        else Ok(ready[..1])
  }

  method SelectParallelBatch(ready: seq<Task>, maxParallel: Option<int>) returns (r: Result<seq<Task>>)
    ensures r == SelectBatch(ready, maxParallel)
    ensures ready == [] ==> r == Ok([])
    ensures |ready| == 1 ==> r == Ok(ready)
  {
    if ready == [] {
      return Ok([]);
    }
    if |ready| == 1 {
      return Ok(ready);
    }
    var detected := DetectParallelGroups(ready);
    if detected.Err? {
      return Err(detected.error);
    }
    var groups := detected.value;
    if groups != [] {
      var selected := Limit(groups[0].taskIds, maxParallel);
      r := Ok(TasksIn(ready, selected));
    } else {
      r := Ok(ready[..1]);
    }
  }

  /** The batching step of the archived orchestrator's `find_ready_tasks`, as written there. */
  ghost function ArchivedBatch(ready: seq<Task>, maxParallel: int): Result<seq<Task>> {
    if |ready| > 1 then
      match DetectSpec(ready)
      case Err(e) => Err(e)
      case Ok(groups) =>
        if groups != [] then Ok(TasksIn(ready, SliceTo(groups[0].taskIds, maxParallel)))
        else Ok(SliceTo(ready, 1))
    else Ok(SliceTo(ready, 1))
  }

  /** The archived batching picks what `select_parallel_batch` picks with that limit. */
  lemma ArchivedBatchAgrees(ready: seq<Task>, maxParallel: int)
    ensures ArchivedBatch(ready, maxParallel) == SelectBatch(ready, Some(maxParallel))
  {
    if |ready| == 1 {
      assert SliceTo(ready, 1) == ready;
    }
  }

  /** `find_ready_tasks(plan, max_parallel)` of src/orchestrate_migration.py. */
  method FindReadyMigration(plan: seq<Task>, maxParallel: int) returns (r: Result<seq<Task>>)
    ensures r == SelectBatch(Ready(plan, Migration), Some(maxParallel))
  {
    var ready := FindReady(plan, Migration);
    r := SelectParallelBatch(ready, Some(maxParallel));
  }

  /** `find_ready_tasks(plan, max_parallel)` of the archived orchestrator. */
  method FindReadyArchived(plan: seq<Task>, maxParallel: int) returns (r: Result<seq<Task>>)
    ensures r == ArchivedBatch(Ready(plan, Archived), maxParallel)
  {
    var ready := FindReady(plan, Archived);
    ArchivedBatchAgrees(ready, maxParallel);
    r := SelectParallelBatch(ready, Some(maxParallel));
  }

  /** The truncation of `run_parallel_sessions`: at most the first `max_parallel` ready tasks. */
  function Truncate(ready: seq<Task>, maxParallel: int): (r: seq<Task>)
    ensures |r| <= |ready| && r == ready[..|r|]
    ensures 0 <= maxParallel ==> |r| == if |ready| <= maxParallel then |ready| else maxParallel
  {
    if |ready| > maxParallel then SliceTo(ready, maxParallel) else ready
  }

  // ---------------------------------------------------------------------------------------
  // What the batch is

  lemma {:induction false} TasksInUnique(ts: seq<Task>, ids: seq<string>)
    requires UniqueIds(ts)
    ensures UniqueIds(TasksIn(ts, ids))
    decreases |ts|
  {
    if ts != [] {
      TasksInUnique(ts[1..], ids);
      TasksInMembers(ts[1..], ids);
      var rest := TasksIn(ts[1..], ids);
      forall j | 0 <= j < |rest| ensures rest[j].id != ts[0].id {
        assert rest[j] in ts[1..];
        var k :| 0 <= k < |ts[1..]| && ts[1..][k] == rest[j];
        assert ts[k + 1] == rest[j];
      }
    }
  }

  lemma {:induction false} TasksInAll(ts: seq<Task>, ids: seq<string>)
    requires forall t :: t in ts ==> t.id in ids
    ensures TasksIn(ts, ids) == ts
    decreases |ts|
  {
    if ts != [] {
      assert ts[0] in ts;
      assert forall t :: t in ts[1..] ==> t in ts;
      TasksInAll(ts[1..], ids);
    }
  }

  lemma {:induction false} ElementsOfDistinct(a: seq<string>)
    requires Distinct(a)
    ensures |Elements(a)| == |a|
    decreases |a|
  {
    if a != [] {
      ElementsOfDistinct(a[1..]);
      assert Elements(a) == {a[0]} + Elements(a[1..]);
      assert a[0] !in Elements(a[1..]);
    }
  }

  lemma {:induction false} ElementsAtMost(a: seq<string>)
    ensures |Elements(a)| <= |a|
    decreases |a|
  {
    if a != [] {
      ElementsAtMost(a[1..]);
      assert Elements(a) == {a[0]} + Elements(a[1..]);
    }
  }

  lemma SubsetCard(x: set<string>, y: set<string>)
    requires x <= y
    ensures |x| <= |y|
  {
    assert y == x + (y - x);
    assert x * (y - x) == {};
  }

  /** Distinct entries all found in `b` are no more than `b` has. */
  lemma DistinctWithin(a: seq<string>, b: seq<string>)
    requires Distinct(a) && forall x :: x in a ==> x in b
    ensures |a| <= |b|
  {
    ElementsOfDistinct(a);
    ElementsAtMost(b);
    SubsetCard(Elements(a), Elements(b));
  }

  /** With unique ids, taking the tasks named in `ids` gives no more tasks than `ids` has. */
  lemma TasksInBound(ts: seq<Task>, ids: seq<string>)
    requires UniqueIds(ts)
    ensures |TasksIn(ts, ids)| <= |ids|
  {
    var r := TasksIn(ts, ids);
    TasksInUnique(ts, ids);
    TasksInMembers(ts, ids);
    var rids := Ids(r);
    forall x | x in rids ensures x in ids {
      var i :| 0 <= i < |rids| && rids[i] == x;
      assert r[i] in r;
    }
    DistinctWithin(rids, ids);
  }

  /** The batch is made of ready tasks, and no two of its tasks with different ids depend on
      each other, directly or through other ready tasks: it is a single task or part of one
      parallel group. */
  lemma SelectIndependent(ready: seq<Task>, maxParallel: Option<int>)
    requires SelectBatch(ready, maxParallel).Ok?
    ensures var b := SelectBatch(ready, maxParallel).value;
      && (forall t :: t in b ==> t in ready)
      && forall i, j :: 0 <= i < |b| && 0 <= j < |b| && b[i].id != b[j].id ==> !Related(ready, b[i].id, b[j].id)
  {
    var b := SelectBatch(ready, maxParallel).value;
    if |ready| >= 2 && DetectSpec(ready).value != [] {
      var lt := ComputeLevels(ready).value;
      DetectCorrect(ready);
      ComputedIsLeveled(ready);
      GroupsAtFacts(ready, lt);
      var g := DetectSpec(ready).value[0];
      var sel := Limit(g.taskIds, maxParallel);
      assert forall x :: x in sel ==> x in g.taskIds;
      TasksInMembers(ready, sel);
      forall i, j | 0 <= i < |b| && 0 <= j < |b| && b[i].id != b[j].id ensures !Related(ready, b[i].id, b[j].id) {
        assert b[i] in b && b[j] in b;
      }
    }
  }

  /** With unique ids and a limit of at least one, the batch never exceeds the limit. */
  lemma SelectBound(ready: seq<Task>, maxParallel: int)
    requires UniqueIds(ready) && maxParallel >= 1
    requires SelectBatch(ready, Some(maxParallel)).Ok?
    ensures |SelectBatch(ready, Some(maxParallel)).value| <= maxParallel
  {
    if |ready| >= 2 && DetectSpec(ready).value != [] {
      var g := DetectSpec(ready).value[0];
      TasksInBound(ready, SliceTo(g.taskIds, maxParallel));
    }
  }

  // ---------------------------------------------------------------------------------------
  // Ready tasks form one batch

  /** No ready task depends on another ready task: its dependencies are finished, and with
      unique ids no ready task is. */
  lemma ReadyHaveNoInnerDeps(plan: seq<Task>, rule: StatusRule, t: Task, d: string)
    requires UniqueIds(plan) && rule.Separates()
    requires t in Ready(plan, rule) && d in t.dependsOn
    ensures d !in IdSet(Ready(plan, rule))
  {
    var r := Ready(plan, rule);
    ReadyMembers(plan, rule, t);
    if d in IdSet(r) {
      var i :| 0 <= i < |r| && r[i].id == d;
      var u := r[i];
      ReadyMembers(plan, rule, u);
      var j :| 0 <= j < |plan| && plan[j] == u;
      LookupOfUnique(plan, j);
      CandidateNotDone(rule, u);
      assert false;
    }
  }

  /** A dependency chain of two or more tasks starts with a dependency that is a task. */
  lemma ChainHasInnerDep(ts: seq<Task>, c: seq<string>)
    requires IsChain(ts, c) && |c| >= 2
    ensures Lookup(ts, c[1]) in ts && c[0] in Lookup(ts, c[1]).dependsOn && c[0] in IdSet(ts)
  {
    assert DependsDirectly(ts, c[1], c[0]);
  }

  /** Tasks none of which depends on another have no cycle and no in-set dependencies. */
  lemma NoInnerDeps(ts: seq<Task>)
    requires forall t, d :: t in ts && d in t.dependsOn ==> d !in IdSet(ts)
    ensures !HasCycle(ts)
    ensures forall k :: k in IdSet(ts) ==> ValidDeps(ts, k) == []
  {
    if HasCycle(ts) {
      var c :| IsChain(ts, c) && |c| >= 2 && c[0] == c[|c| - 1];
      ChainHasInnerDep(ts, c);
      assert false;
    }
    forall k | k in IdSet(ts) ensures ValidDeps(ts, k) == [] {
      var v := ValidDeps(ts, k);
      if v != [] {
        HeadIn(v);
        assert false;
      }
    }
  }

  lemma LevelsAllZero(ts: seq<Task>, lt: LevelTable)
    requires Leveled(ts, lt)
    requires forall k :: k in IdSet(ts) ==> ValidDeps(ts, k) == []
    ensures forall k :: k in lt.order ==> lt.levels[k] == 0
  {
    forall k | k in lt.order ensures lt.levels[k] == 0 {
      assert LevelRule(ts, lt.levels, k);
    }
  }

  lemma {:induction false} BucketOfAll(levels: map<string, nat>, o: seq<string>, l: nat)
    requires forall k :: k in o ==> k in levels && levels[k] == l
    ensures Bucket(levels, o, l) == o
    decreases |o|
  {
    if o != [] {
      BucketOfAll(levels, o[..|o| - 1], l);
    }
  }

  lemma {:induction false} BucketOfNone(levels: map<string, nat>, o: seq<string>, l: nat)
    requires forall k :: k in o ==> k in levels && levels[k] != l
    ensures Bucket(levels, o, l) == []
    decreases |o|
  {
    if o != [] {
      BucketOfNone(levels, o[..|o| - 1], l);
    }
  }

  lemma TwoDistinct(s: seq<string>, a: string, b: string)
    requires a in s && b in s && a != b
    ensures |s| >= 2
  {
  }

  /** With every key on level 0 and two or more keys, level 0 is the only full level. */
  lemma FullLevelsOfOne(lt: LevelTable)
    requires forall k :: k in lt.order ==> k in lt.levels && lt.levels[k] == 0
    requires |lt.order| >= 2
    ensures FullLevels(lt, 0) == [0]
  {
    BucketOfAll(lt.levels, lt.order, 0);
    FullLevelsAbove(lt, 1);
    var rs := FullLevels(lt, 1);
    if rs != [] {
      BucketOfNone(lt.levels, lt.order, rs[0]);
      assert false;
    }
  }

  /** Two or more unique tasks none of which depends on another form one group holding every
      one of them. */
  lemma UnrelatedOneGroup(r: seq<Task>)
    requires UniqueIds(r) && |r| >= 2
    requires forall t, d :: t in r && d in t.dependsOn ==> d !in IdSet(r)
    ensures DetectSpec(r).Ok? && DetectSpec(r).value != []
    ensures |DetectSpec(r).value[0].taskIds| == |r|
    ensures forall t :: t in r ==> t.id in DetectSpec(r).value[0].taskIds
  {
    NoInnerDeps(r);
    AcyclicIffNoCycle(r);
    var lt := ComputeLevels(r).value;
    ComputedIsLeveled(r);
    LevelsAllZero(r, lt);
    assert r[0].id in IdSet(r) && r[1].id in IdSet(r);
    TwoDistinct(lt.order, r[0].id, r[1].id);
    FullLevelsOfOne(lt);
    BucketOfAll(lt.levels, lt.order, 0);
    DetectCorrect(r);
    var gs := DetectSpec(r).value;
    assert gs == GroupsAt(r, lt, [0]);
    assert gs[0].taskIds == lt.order;
    DistinctSameElements(lt.order, Keys(r));
    assert |multiset(lt.order)| == |multiset(Keys(r))|;
    KeysOfUnique(r);
    forall t | t in r ensures t.id in lt.order {
      var i :| 0 <= i < |r| && r[i] == t;
      assert t.id in IdSet(r);
    }
  }

  /** So the batch is all of them when the limit allows. */
  lemma UnrelatedAllSelected(r: seq<Task>, maxParallel: Option<int>)
    requires UniqueIds(r) && |r| >= 2
    requires forall t, d :: t in r && d in t.dependsOn ==> d !in IdSet(r)
    requires maxParallel.None? || maxParallel.value >= |r|
    ensures SelectBatch(r, maxParallel) == Ok(r)
  {
    UnrelatedOneGroup(r);
    var ids := DetectSpec(r).value[0].taskIds;
    assert Limit(ids, maxParallel) == ids;
    TasksInAll(r, ids);
  }

  /** Given the output of `find_ready_tasks` on a plan with unique ids, two or more ready tasks
      are all run together when the limit allows: none of them can depend on another. */
  lemma ReadyAllSelected(plan: seq<Task>, rule: StatusRule, maxParallel: Option<int>)
    requires UniqueIds(plan) && rule.Separates()
    requires |Ready(plan, rule)| >= 2
    requires maxParallel.None? || maxParallel.value >= |Ready(plan, rule)|
    ensures SelectBatch(Ready(plan, rule), maxParallel) == Ok(Ready(plan, rule))
  {
    var r := Ready(plan, rule);
    ReadyFromUnique(StatusMap(plan, rule.Fallback()), rule, plan);
    forall t, d | t in r && d in t.dependsOn ensures d !in IdSet(r) {
      ReadyHaveNoInnerDeps(plan, rule, t, d);
    }
    UnrelatedAllSelected(r, maxParallel);
  }
}
