/** `ParallelDetector.get_execution_plan`, the `ExecutionPlan` record and `analyze_tasks`: the
    groups and the critical path together with the serial tasks, the serial and the
    level-synchronised hours, and the largest group size. */
module Plans {
  import opened Wrappers
  import opened Tasks
  import opened Levels
  import opened Groups
  import opened CriticalPath

  /** `ExecutionPlan` */
  datatype ExecutionPlan = ExecutionPlan(
    parallelGroups: seq<ParallelGroup>,
    serialTasks: seq<string>,
    criticalPath: seq<string>,
    criticalPathDuration: nat,
    totalDurationSerial: nat,
    totalDurationParallel: nat,
    maxParallelism: nat)
  {
    /** `time_saved`: serial hours minus parallel hours. */
    function TimeSaved(): int {
      totalDurationSerial - totalDurationParallel
    }

    /** `efficiency_gain`: the hours saved as a percentage of the serial hours, 0 without
        serial hours. */
    function EfficiencyGain(): real {
      if totalDurationSerial == 0 then 0.0
      else (TimeSaved() as real / totalDurationSerial as real) * 100.0
    }
  }

  // ---------------------------------------------------------------------------------------
  // The pieces of the plan

  /** `parallel_task_ids`: every id of every group. */
  function GroupedIds(gs: seq<ParallelGroup>): set<string> {
    if gs == [] then {}
    else GroupedIds(gs[..|gs| - 1]) + Elements(gs[|gs| - 1].taskIds)
  }

  /** An id is grouped exactly when some group holds it. */
  lemma {:induction false} GroupedIdsMembers(gs: seq<ParallelGroup>, x: string)
    ensures x in GroupedIds(gs) <==> exists k :: 0 <= k < |gs| && x in gs[k].taskIds
    decreases |gs|
  {
    if gs != [] {
      var init := gs[..|gs| - 1];
      GroupedIdsMembers(init, x);
      assert forall k :: 0 <= k < |init| ==> init[k] == gs[k];
    }
  }

  /** `serial_tasks`: the ids of the list, in list order, that no group holds. */
  function SerialTasks(ts: seq<Task>, grouped: set<string>): seq<string> {
    if ts == [] then []
    else (if ts[0].id in grouped then [] else [ts[0].id]) + SerialTasks(ts[1..], grouped)
  }

  /** The serial tasks are exactly the ungrouped ids of the list, one per list entry. */
  lemma {:induction false} SerialTasksMembers(ts: seq<Task>, grouped: set<string>)
    ensures |SerialTasks(ts, grouped)| <= |ts|
    ensures forall x :: x in SerialTasks(ts, grouped) <==> x in IdSet(ts) && x !in grouped
    decreases |ts|
  {
    if ts != [] {
      SerialTasksMembers(ts[1..], grouped);
      assert IdSet(ts) == {ts[0].id} + IdSet(ts[1..]) by {
        forall x | x in IdSet(ts) ensures x in {ts[0].id} + IdSet(ts[1..]) {
          var i :| 0 <= i < |ts| && ts[i].id == x;
          if i > 0 { assert ts[1..][i - 1] == ts[i]; }
        }
        forall x | x in IdSet(ts[1..]) ensures x in IdSet(ts) {
          var i :| 0 <= i < |ts[1..]| && ts[1..][i].id == x;
          assert ts[i + 1] == ts[1..][i];
        }
      }
    }
  }

  /** The number of list entries whose id some group holds. */
  function GroupedEntries(ts: seq<Task>, grouped: set<string>): nat {
    if ts == [] then 0 else (if ts[0].id in grouped then 1 else 0) + GroupedEntries(ts[1..], grouped)
  }

  /** Each list entry is either serial or grouped. */
  lemma {:induction false} EntriesSplit(ts: seq<Task>, grouped: set<string>)
    ensures |SerialTasks(ts, grouped)| + GroupedEntries(ts, grouped) == |ts|
    decreases |ts|
  {
    if ts != [] {
      EntriesSplit(ts[1..], grouped);
    }
  }

  /** The largest size among the groups (`max(group.size for ...)` on a non-empty list). */
  function LargestSize(gs: seq<ParallelGroup>): (m: nat)
    requires gs != []
    ensures forall k :: 0 <= k < |gs| ==> gs[k].Size() <= m
    ensures exists k :: 0 <= k < |gs| && gs[k].Size() == m
  {
    if |gs| == 1 then gs[0].Size()
    else
      var rest := LargestSize(gs[1..]);
      assert forall k :: 1 <= k < |gs| ==> gs[k] == gs[1..][k - 1];
      Levels.Max(gs[0].Size(), rest)
  }

  /** `max_parallelism`: the largest group size, 1 without groups. */
  function MaxParallelism(gs: seq<ParallelGroup>): nat {
    if gs == [] then 1 else LargestSize(gs)
  }

  /** `level_durations[level]`, which is 0 for a level that was never set. */
  function DurationAt(d: map<nat, nat>, level: nat): nat {
    if level in d then d[level] else 0
  }

  /** `total_parallel`: the sum over all levels of the longest hours at that level, which is
      where the level after the highest one would start. */
  function ParallelHours(ts: seq<Task>, lt: LevelTable): nat
    requires Covers(ts, lt)
  {
    StartOf(ts, lt, TopLevel(lt.levels, lt.order) + 1)
  }

  /** `get_execution_plan()`: fails as `detect_parallel_groups` does on a cycle, before the
      critical path, which would not end on one, is computed. */
  ghost function PlanSpec(ts: seq<Task>): Result<ExecutionPlan> {
    match ComputeLevels(ts)
    case Err(e) => Err(e)
    case Ok(lt) =>
      AcyclicIffNoCycle(ts);
      var groups := DetectFrom(ts, lt, 0);
      var critical := CriticalSpec(ts);
      Ok(ExecutionPlan(groups, SerialTasks(ts, GroupedIds(groups)), critical.0, critical.1,
                       TotalHours(ts), ParallelHours(ts, lt), MaxParallelism(groups)))
  }

  // ---------------------------------------------------------------------------------------
  // What the plan states

  /** A plan exists exactly when the tasks have no dependency cycle, and then its groups and
      critical path are those of `detect_parallel_groups` and `calculate_critical_path`. */
  lemma PlanParts(ts: seq<Task>)
    ensures PlanSpec(ts).Ok? <==> !HasCycle(ts)
    ensures PlanSpec(ts).Ok? ==> DetectSpec(ts) == Ok(PlanSpec(ts).value.parallelGroups)
    ensures PlanSpec(ts).Ok? ==>
      (PlanSpec(ts).value.criticalPath, PlanSpec(ts).value.criticalPathDuration) == CriticalSpec(ts)
  {
    AcyclicIffNoCycle(ts);
  }

  /** The serial tasks are the listed ids that no group holds, and the serial hours are the
      hours of every list entry. */
  lemma PlanSerial(ts: seq<Task>)
    requires PlanSpec(ts).Ok?
    ensures var p := PlanSpec(ts).value;
      && p.totalDurationSerial == TotalHours(ts)
      && forall x :: x in p.serialTasks <==>
           x in IdSet(ts) && !exists k :: 0 <= k < |p.parallelGroups| && x in p.parallelGroups[k].taskIds
  {
    var p := PlanSpec(ts).value;
    SerialTasksMembers(ts, GroupedIds(p.parallelGroups));
    forall x ensures x in GroupedIds(p.parallelGroups) <==>
      exists k :: 0 <= k < |p.parallelGroups| && x in p.parallelGroups[k].taskIds {
      GroupedIdsMembers(p.parallelGroups, x);
    }
  }

  /** The largest parallelism is 1 without groups, and otherwise the size of a largest group,
      which is at least 2. */
  lemma PlanParallelism(ts: seq<Task>)
    requires PlanSpec(ts).Ok?
    ensures var p := PlanSpec(ts).value;
      && (p.parallelGroups == [] ==> p.maxParallelism == 1)
      && (p.parallelGroups != [] ==> p.maxParallelism >= 2)
      && (forall k :: 0 <= k < |p.parallelGroups| ==> p.parallelGroups[k].Size() <= p.maxParallelism)
      && (p.parallelGroups != [] ==> exists k :: 0 <= k < |p.parallelGroups| && p.parallelGroups[k].Size() == p.maxParallelism)
  {
    var p := PlanSpec(ts).value;
    PlanParts(ts);
    DetectCorrect(ts);
    ComputedIsLeveled(ts);
    GroupsAtFacts(ts, ComputeLevels(ts).value);
    if p.parallelGroups != [] {
      assert p.parallelGroups[0].Size() <= p.maxParallelism;
    }
  }

  /** The parallel hours are the longest hours of each level, summed over the levels. */
  lemma PlanParallelHours(ts: seq<Task>)
    requires PlanSpec(ts).Ok?
    ensures ComputeLevels(ts).Ok?
    ensures var lt := ComputeLevels(ts).value;
      PlanSpec(ts).value.totalDurationParallel == StartOf(ts, lt, TopLevel(lt.levels, lt.order) + 1)
  {
    var lt := ComputeLevels(ts).value;
    assert PlanSpec(ts).value.totalDurationParallel == ParallelHours(ts, lt);
  }

  // ---------------------------------------------------------------------------------------
  // Parallel hours never exceed serial hours

  /** The summed hours of the buckets of the levels below `top`. */
  function BucketHours(ts: seq<Task>, levels: map<string, nat>, o: seq<string>, top: nat): nat
    requires forall k :: k in o ==> k in levels && k in IdSet(ts)
  {
    if top == 0 then 0 else BucketHours(ts, levels, o, top - 1) + HoursOf(ts, Bucket(levels, o, top - 1))
  }

  /** A level's longest task is no longer than the level's summed hours. */
  lemma {:induction false} StartAtMostBucketHours(ts: seq<Task>, lt: LevelTable, top: nat)
    requires Covers(ts, lt)
    ensures StartOf(ts, lt, top) <= BucketHours(ts, lt.levels, lt.order, top)
    decreases top
  {
    if top > 0 {
      StartAtMostBucketHours(ts, lt, top - 1);
      MaxHoursBound(ts, Bucket(lt.levels, lt.order, top - 1));
    }
  }

  /** One more key joins the bucket of its own level and no other. */
  lemma BucketSnoc(levels: map<string, nat>, o: seq<string>, x: string, l: nat)
    requires forall k :: k in o + [x] ==> k in levels
    ensures Bucket(levels, o + [x], l) == Bucket(levels, o, l) + (if levels[x] == l then [x] else [])
  {
    assert (o + [x])[..|o + [x]| - 1] == o;
  }

  lemma {:induction false} BucketHoursOfNone(ts: seq<Task>, levels: map<string, nat>, top: nat)
    ensures BucketHours(ts, levels, [], top) == 0
    decreases top
  {
    if top > 0 {
      BucketHoursOfNone(ts, levels, top - 1);
    }
  }

  lemma BucketHoursStep(ts: seq<Task>, levels: map<string, nat>, o: seq<string>, top: nat)
    requires forall k :: k in o ==> k in levels && k in IdSet(ts)
    requires top > 0
    ensures BucketHours(ts, levels, o, top) == BucketHours(ts, levels, o, top - 1) + HoursOf(ts, Bucket(levels, o, top - 1))
  {
  }

  /** One more key adds its hours to the hours of the bucket of its level. */
  lemma HoursOfBucketSnoc(ts: seq<Task>, levels: map<string, nat>, o: seq<string>, x: string, l: nat)
    requires forall k :: k in o + [x] ==> k in levels && k in IdSet(ts)
    ensures HoursOf(ts, Bucket(levels, o + [x], l))
         == HoursOf(ts, Bucket(levels, o, l)) + (if levels[x] == l then Hours(Lookup(ts, x)) else 0)
  {
    var extra := if levels[x] == l then [x] else [];
    BucketSnoc(levels, o, x, l);
    HoursOfAppend(ts, Bucket(levels, o, l), extra);
    assert HoursOf(ts, extra) == if levels[x] == l then Hours(Lookup(ts, x)) else 0;
  }

  /** One more key adds its hours to the bucket hours when its level is below `top`. */
  lemma {:induction false} BucketHoursSnoc(ts: seq<Task>, levels: map<string, nat>, o: seq<string>, x: string, top: nat)
    requires forall k :: k in o + [x] ==> k in levels && k in IdSet(ts)
    ensures BucketHours(ts, levels, o + [x], top)
         == BucketHours(ts, levels, o, top) + (if levels[x] < top then Hours(Lookup(ts, x)) else 0)
    decreases top
  {
    if top > 0 {
      var l := top - 1;
      var h := Hours(Lookup(ts, x));
      BucketHoursSnoc(ts, levels, o, x, l);
      HoursOfBucketSnoc(ts, levels, o, x, l);
      BucketHoursStep(ts, levels, o + [x], top);
      BucketHoursStep(ts, levels, o, top);
      assert (if levels[x] < l then h else 0) + (if levels[x] == l then h else 0) == if levels[x] < top then h else 0;
    }
  }

  /** Above the highest level the buckets hold every key once, so their hours are those of
      all the keys. */
  lemma {:induction false} BucketHoursAll(ts: seq<Task>, levels: map<string, nat>, o: seq<string>, top: nat)
    requires forall k :: k in o ==> k in levels && k in IdSet(ts)
    requires top > TopLevel(levels, o)
    ensures BucketHours(ts, levels, o, top) == HoursOf(ts, o)
    decreases |o|
  {
    if o == [] {
      BucketHoursOfNone(ts, levels, top);
    } else {
      var init := o[..|o| - 1];
      var x := o[|o| - 1];
      assert o == init + [x];
      BucketHoursAll(ts, levels, init, top);
      BucketHoursSnoc(ts, levels, init, x, top);
      HoursOfAppend(ts, init, [x]);
    }
  }

  /** With unique ids, running the levels one after another never takes longer than running
      every task one after another. */
  lemma ParallelAtMostSerial(ts: seq<Task>, lt: LevelTable)
    requires UniqueIds(ts) && Leveled(ts, lt)
    ensures ParallelHours(ts, lt) <= TotalHours(ts)
  {
    var top := TopLevel(lt.levels, lt.order) + 1;
    StartAtMostBucketHours(ts, lt, top);
    BucketHoursAll(ts, lt.levels, lt.order, top);
    HoursOfReordered(ts, lt.order, Keys(ts));
    KeysOfUnique(ts);
    TotalHoursOfUnique(ts);
  }

  /** With unique ids the plan saves a non-negative number of hours, and its efficiency gain is
      a percentage between 0 and 100. */
  lemma PlanSavesTime(ts: seq<Task>)
    requires UniqueIds(ts) && PlanSpec(ts).Ok?
    ensures PlanSpec(ts).value.TimeSaved() >= 0
    ensures 0.0 <= PlanSpec(ts).value.EfficiencyGain() <= 100.0
  {
    var lt := ComputeLevels(ts).value;
    var p := PlanSpec(ts).value;
    assert p.totalDurationSerial == TotalHours(ts) && p.totalDurationParallel == ParallelHours(ts, lt);
    ComputedIsLeveled(ts);
    ParallelAtMostSerial(ts, lt);
    if p.totalDurationSerial > 0 {
      PercentBounds(p.TimeSaved(), p.totalDurationSerial);
    }
  }

  /** A share of a positive whole, as a percentage, lies between 0 and 100. */
  lemma PercentBounds(part: int, whole: nat)
    requires 0 <= part <= whole && whole > 0
    ensures 0.0 <= (part as real / whole as real) * 100.0 <= 100.0
  {
    var q := part as real / whole as real;
    assert q * whole as real == part as real;
    assert 0.0 <= q <= 1.0;
  }

  // ---------------------------------------------------------------------------------------
  // The loops of `get_execution_plan`

  /** The `parallel_task_ids.update(...)` loop. */
  method CollectGrouped(gs: seq<ParallelGroup>) returns (grouped: set<string>)
    ensures grouped == GroupedIds(gs)
  {
    grouped := {};
    for k := 0 to |gs|
      invariant grouped == GroupedIds(gs[..k])
    {
      assert gs[..k + 1][..k] == gs[..k];
      grouped := grouped + Elements(gs[k].taskIds);
    }
    assert gs[..|gs|] == gs;
  }

  /** The `level_durations` loop over the computed levels: each level ends up with the longest
      hours among its tasks. */
  method LevelDurations(ts: seq<Task>, lt: LevelTable) returns (d: map<nat, nat>)
    requires Covers(ts, lt)
    ensures forall l: nat :: DurationAt(d, l) == MaxHoursOf(ts, Bucket(lt.levels, lt.order, l))
  {
    d := map[];
    for i := 0 to |lt.order|
      invariant forall l: nat :: DurationAt(d, l) == MaxHoursOf(ts, Bucket(lt.levels, lt.order[..i], l))
    {
      var id := lt.order[i];
      var level := lt.levels[id];
      var duration := Hours(Lookup(ts, id));
      ghost var o := lt.order[..i];
      assert lt.order[..i + 1] == o + [id];
      assert lt.order[..i + 1][..i] == o;
      var d' := d[level := Levels.Max(DurationAt(d, level), duration)];
      forall l: nat ensures DurationAt(d', l) == MaxHoursOf(ts, Bucket(lt.levels, lt.order[..i + 1], l)) {
        assert DurationAt(d, l) == MaxHoursOf(ts, Bucket(lt.levels, o, l));
        BucketSnoc(lt.levels, o, id, l);
        if l == level {
          MaxHoursSnoc(ts, Bucket(lt.levels, o, level), id);
          assert DurationAt(d', l) == Levels.Max(DurationAt(d, level), duration);
          assert Bucket(lt.levels, lt.order[..i + 1], l) == Bucket(lt.levels, o, level) + [id];
        } else {
          assert DurationAt(d', l) == DurationAt(d, l);
          assert Bucket(lt.levels, lt.order[..i + 1], l) == Bucket(lt.levels, o, l);
        }
      }
      d := d';
    }
    assert lt.order[..|lt.order|] == lt.order;
  }

  /** `sum(level_durations.values())`, level by level. */
  method SumDurationsByLevel(ts: seq<Task>, lt: LevelTable, d: map<nat, nat>) returns (total: nat)
    requires Covers(ts, lt)
    requires forall l: nat :: DurationAt(d, l) == MaxHoursOf(ts, Bucket(lt.levels, lt.order, l))
    ensures total == ParallelHours(ts, lt)
  {
    total := 0;
    for level := 0 to TopLevel(lt.levels, lt.order) + 1
      invariant total == StartOf(ts, lt, level)
    {
      StartOfNext(ts, lt, level);
      assert DurationAt(d, level) == MaxHoursOf(ts, Bucket(lt.levels, lt.order, level));
      total := total + DurationAt(d, level);
    }
  }

  lemma StartOfNext(ts: seq<Task>, lt: LevelTable, level: nat)
    requires Covers(ts, lt)
    ensures forall k :: k in Bucket(lt.levels, lt.order, level) ==> k in IdSet(ts)
    ensures StartOf(ts, lt, level + 1) == StartOf(ts, lt, level) + MaxHoursOf(ts, Bucket(lt.levels, lt.order, level))
  {
  }

  /** `sum(task.get('estimated_hours', 8) for task in self.tasks)` */
  method SerialHours(ts: seq<Task>) returns (total: nat)
    ensures total == TotalHours(ts)
  {
    total := 0;
    var i := |ts|;
    while i > 0
      invariant 0 <= i <= |ts|
      invariant total == TotalHours(ts[i..])
    {
      i := i - 1;
      assert ts[i..][1..] == ts[i + 1..];
      total := total + Hours(ts[i]);
    }
  }

  /** `get_execution_plan()` */
  method GetExecutionPlan(ts: seq<Task>) returns (r: Result<ExecutionPlan>)
    ensures r == PlanSpec(ts)
  {
    var detected := DetectParallelGroups(ts);
    if detected.Err? {
      return Err(detected.error);
    }
    var groups := detected.value;
    AcyclicIffNoCycle(ts);
    var path, time := CalculateCriticalPath(ts);
    var grouped := CollectGrouped(groups);
    var serial := SerialTasks(ts, grouped);
    var totalSerial := SerialHours(ts);
    var levels := CalculateLevels(ts);
    var lt := levels.value;
    var durations := LevelDurations(ts, lt);
    var totalParallel := SumDurationsByLevel(ts, lt, durations);
    r := Ok(ExecutionPlan(groups, serial, path, time, totalSerial, totalParallel, MaxParallelism(groups)));
  }

  // ---------------------------------------------------------------------------------------
  // `analyze_tasks`

  /** One entry of `parallel_groups_detail`. */
  datatype GroupDetail = GroupDetail(level: nat, tasks: seq<string>, size: nat, maxDuration: nat, timeSaved: int)

  /** The dictionary `analyze_tasks` returns; `efficiencyGain` is not rounded. */
  datatype Analysis = Analysis(
    totalTasks: nat,
    parallelGroups: nat,
    serialTasks: nat,
    parallelizableTasks: int,
    maxParallelism: nat,
    criticalPathLength: nat,
    criticalPathDuration: nat,
    totalDurationSerial: nat,
    totalDurationParallel: nat,
    timeSaved: int,
    efficiencyGain: real,
    criticalPath: seq<string>,
    groupsDetail: seq<GroupDetail>)

  function Detail(g: ParallelGroup): GroupDetail {
    GroupDetail(g.level, g.taskIds, g.Size(), g.maxDuration, g.TimeSaved())
  }

  /** The summary of a plan for a list of `n` tasks. */
  function Summarise(n: nat, p: ExecutionPlan): Analysis {
    Analysis(n, |p.parallelGroups|, |p.serialTasks|, n - |p.serialTasks|, p.maxParallelism,
             |p.criticalPath|, p.criticalPathDuration, p.totalDurationSerial, p.totalDurationParallel,
             p.TimeSaved(), p.EfficiencyGain(), p.criticalPath,
             seq(|p.parallelGroups|, i requires 0 <= i < |p.parallelGroups| => Detail(p.parallelGroups[i])))
  }

  /** `analyze_tasks(tasks)`, failing where the plan does. */
  ghost function AnalyzeTasks(ts: seq<Task>): Result<Analysis> {
    match PlanSpec(ts)
    case Err(e) => Err(e)
    case Ok(p) => Ok(Summarise(|ts|, p))
  }

  /** The parallelizable tasks are the list entries whose id some group holds, so they and the
      serial tasks make up the list. */
  lemma AnalysisCounts(ts: seq<Task>)
    requires AnalyzeTasks(ts).Ok?
    ensures var a := AnalyzeTasks(ts).value;
      && a.totalTasks == |ts|
      && a.parallelizableTasks == GroupedEntries(ts, GroupedIds(PlanSpec(ts).value.parallelGroups))
      && 0 <= a.parallelizableTasks <= a.totalTasks
      && a.serialTasks + a.parallelizableTasks == a.totalTasks
  {
    EntriesSplit(ts, GroupedIds(PlanSpec(ts).value.parallelGroups));
  }

  /** Each group's detail carries the group's own figures, and its time saved is the summed
      hours minus the longest hours of its tasks. */
  lemma AnalysisDetail(ts: seq<Task>, i: nat)
    requires AnalyzeTasks(ts).Ok? && i < |AnalyzeTasks(ts).value.groupsDetail|
    ensures var g := PlanSpec(ts).value.parallelGroups[i];
      var d := AnalyzeTasks(ts).value.groupsDetail[i];
      && (forall x :: x in g.taskIds ==> x in IdSet(ts))
      && d.tasks == g.taskIds && d.level == g.level && d.size == |g.taskIds| >= 2
      && d.timeSaved == HoursOf(ts, g.taskIds) - MaxHoursOf(ts, g.taskIds) >= 0
  {
    var p := PlanSpec(ts).value;
    var lt := ComputeLevels(ts).value;
    PlanParts(ts);
    DetectCorrect(ts);
    ComputedIsLeveled(ts);
    GroupsAtFacts(ts, lt);
    var g := p.parallelGroups[i];
    assert forall x :: x in g.taskIds ==> x in IdSet(ts);
    SumOfDurations(ts, g.taskIds);
    MaxHoursBound(ts, g.taskIds);
  }
}
