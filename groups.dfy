/** `ParallelDetector.detect_parallel_groups` and the `ParallelGroup` record. Tasks are bucketed
    by level; each bucket is split into independent groups, and every group of two or more tasks
    becomes a `ParallelGroup` whose earliest start is the sum of the longest task durations of
    the levels before it. */
module Groups {
  import opened Wrappers
  import opened Tasks
  import opened Reachability
  import opened Levels
  import opened Clusters

  /** `ParallelGroup`; `taskDurations` is the `task_durations` dictionary as (id, hours) pairs in
      insertion order. */
  datatype ParallelGroup = ParallelGroup(
    level: nat,
    taskIds: seq<string>,
    earliestStart: nat,
    maxDuration: nat,
    taskDurations: seq<(string, nat)>)
  {
    function Size(): nat {
      |taskIds|
    }

    /** `time_saved`: the summed durations minus the longest, or 0 for a group of one. */
    function TimeSaved(): int {
      if Size() <= 1 then 0 else SumDurations(taskDurations) - maxDuration
    }
  }

  function SumDurations(ds: seq<(string, nat)>): nat {
    if ds == [] then 0 else ds[0].1 + SumDurations(ds[1..])
  }

  /** The `durations` dictionary of a group: each member with its hours. */
  function Durations(ts: seq<Task>, g: seq<string>): (ds: seq<(string, nat)>)
    requires forall x :: x in g ==> x in IdSet(ts)
    ensures |ds| == |g|
    ensures forall i :: 0 <= i < |g| ==> ds[i] == (g[i], Hours(Lookup(ts, g[i])))
  {
    seq(|g|, i requires 0 <= i < |g| => (g[i], Hours(Lookup(ts, g[i]))))
  }

  lemma {:induction false} SumOfDurations(ts: seq<Task>, g: seq<string>)
    requires forall x :: x in g ==> x in IdSet(ts)
    ensures SumDurations(Durations(ts, g)) == HoursOf(ts, g)
    decreases |g|
  {
    if g != [] {
      assert Durations(ts, g)[1..] == Durations(ts, g[1..]);
      SumOfDurations(ts, g[1..]);
    }
  }

  /** The `ParallelGroup` built for group `g` (`max(durations.values()) if durations else 8`). */
  function MakeGroup(ts: seq<Task>, level: nat, g: seq<string>, start: nat): ParallelGroup
    requires forall x :: x in g ==> x in IdSet(ts)
  {
    ParallelGroup(level, g, start, if g == [] then DefaultHours else MaxHoursOf(ts, g), Durations(ts, g))
  }

  /** What running a group side by side saves is its summed hours minus its longest task,
      which is never negative. */
  lemma TimeSavedOfGroup(ts: seq<Task>, level: nat, g: seq<string>, start: nat)
    requires |g| >= 2 && forall x :: x in g ==> x in IdSet(ts)
    ensures MakeGroup(ts, level, g, start).TimeSaved() == HoursOf(ts, g) - MaxHoursOf(ts, g)
    ensures MakeGroup(ts, level, g, start).TimeSaved() >= 0
  {
    SumOfDurations(ts, g);
    MaxHoursBound(ts, g);
  }

  // ---------------------------------------------------------------------------------------
  // Buckets of the level table

  /** Every key of the order has a level and names a task. */
  ghost predicate Covers(ts: seq<Task>, lt: LevelTable) {
    forall k :: k in lt.order ==> k in lt.levels && k in IdSet(ts)
  }

  /** `tasks_by_level[level]`: the keys at that level, in key order. */
  function Bucket(levels: map<string, nat>, o: seq<string>, level: nat): (b: seq<string>)
    requires forall k :: k in o ==> k in levels
    ensures forall x :: x in b ==> x in o
    decreases |o|
  {
    if o == [] then []
    else
      var last := o[|o| - 1];
      Bucket(levels, o[..|o| - 1], level) + (if levels[last] == level then [last] else [])
  }

  /** A bucket holds exactly the keys at its level. */
  lemma {:induction false} BucketMembers(levels: map<string, nat>, o: seq<string>, level: nat)
    requires forall k :: k in o ==> k in levels
    ensures forall x :: x in Bucket(levels, o, level) <==> x in o && levels[x] == level
    decreases |o|
  {
    if o != [] {
      BucketMembers(levels, o[..|o| - 1], level);
      assert o == o[..|o| - 1] + [o[|o| - 1]];
    }
  }

  lemma {:induction false} BucketDistinct(levels: map<string, nat>, o: seq<string>, level: nat)
    requires forall k :: k in o ==> k in levels
    requires Distinct(o)
    ensures Distinct(Bucket(levels, o, level))
    decreases |o|
  {
    if o != [] {
      var init := o[..|o| - 1];
      var last := o[|o| - 1];
      BucketDistinct(levels, init, level);
      assert last !in init;
      DistinctConcat(Bucket(levels, init, level), if levels[last] == level then [last] else []);
    }
  }

  /** The highest level of the table (0 when empty). */
  function TopLevel(levels: map<string, nat>, o: seq<string>): nat
    requires forall k :: k in o ==> k in levels
  {
    if o == [] then 0 else Levels.Max(TopLevel(levels, o[..|o| - 1]), levels[o[|o| - 1]])
  }

  /** No key lies above the highest level, so the buckets above it are empty. */
  lemma {:induction false} TopLevelBound(levels: map<string, nat>, o: seq<string>)
    requires forall k :: k in o ==> k in levels
    ensures forall k :: k in o ==> levels[k] <= TopLevel(levels, o)
    ensures forall l: nat :: l > TopLevel(levels, o) ==> Bucket(levels, o, l) == []
    decreases |o|
  {
    if o != [] {
      TopLevelBound(levels, o[..|o| - 1]);
      assert o == o[..|o| - 1] + [o[|o| - 1]];
    }
  }

  /** Hours elapsed before level `level` starts: the sum over lower levels of their longest task. */
  function StartOf(ts: seq<Task>, lt: LevelTable, level: nat): nat
    requires Covers(ts, lt)
  {
    if level == 0 then 0 else StartOf(ts, lt, level - 1) + MaxHoursOf(ts, Bucket(lt.levels, lt.order, level - 1))
  }

  /** Start times never decrease with the level. */
  lemma {:induction false} StartOfMonotone(ts: seq<Task>, lt: LevelTable, a: nat, b: nat)
    requires Covers(ts, lt) && a <= b
    ensures StartOf(ts, lt, a) <= StartOf(ts, lt, b)
    decreases b - a
  {
    if a < b {
      StartOfMonotone(ts, lt, a, b - 1);
    }
  }

  // ---------------------------------------------------------------------------------------
  // The detection

  lemma GroupMembers(ts: seq<Task>, ids: seq<string>)
    ensures forall k, x :: 0 <= k < |IndependentGroups(ts, ids)| && x in IndependentGroups(ts, ids)[k] ==> x in ids
  {
    GroupsPartition(ts, ids);
    forall k, x | 0 <= k < |IndependentGroups(ts, ids)| && x in IndependentGroups(ts, ids)[k] ensures x in ids {
      InFlatten(IndependentGroups(ts, ids), x);
    }
  }

  /** The `ParallelGroup`s made from the independent groups of one level: those of 2+ tasks. */
  function LevelGroups(ts: seq<Task>, level: nat, gs: seq<seq<string>>, start: nat): seq<ParallelGroup>
    requires forall k, x :: 0 <= k < |gs| && x in gs[k] ==> x in IdSet(ts)
  {
    if gs == [] then []
    else (if |gs[0]| > 1 then [MakeGroup(ts, level, gs[0], start)] else []) + LevelGroups(ts, level, gs[1..], start)
  }

  /** The loop over `independent_groups` of one level. */
  ghost function LevelPart(ts: seq<Task>, level: nat, b: seq<string>, start: nat): seq<ParallelGroup>
    requires forall x :: x in b ==> x in IdSet(ts)
  {
    GroupMembers(ts, b);
    LevelGroups(ts, level, IndependentGroups(ts, b), start)
  }

  /** The loop over the sorted levels, from `level` on. `cumulative_time` on reaching a level
      is `StartOf` that level: levels without tasks add nothing to it. */
  ghost function DetectFrom(ts: seq<Task>, lt: LevelTable, level: nat): seq<ParallelGroup>
    requires Covers(ts, lt)
    decreases TopLevel(lt.levels, lt.order) + 1 - level
  {
    if level > TopLevel(lt.levels, lt.order) then []
    else
      var b := Bucket(lt.levels, lt.order, level);
      if b == [] then DetectFrom(ts, lt, level + 1)
      else LevelPart(ts, level, b, StartOf(ts, lt, level)) + DetectFrom(ts, lt, level + 1)
  }

  /** `detect_parallel_groups()` */
  ghost function DetectSpec(ts: seq<Task>): Result<seq<ParallelGroup>> {
    match ComputeLevels(ts)
    case Err(e) => Err(e)
    case Ok(lt) => Ok(DetectFrom(ts, lt, 0))
  }

  lemma LevelPartOfOneGroup(ts: seq<Task>, level: nat, b: seq<string>, start: nat)
    requires forall x :: x in b ==> x in IdSet(ts)
    requires IndependentGroups(ts, b) == [b]
    ensures LevelPart(ts, level, b, start) == if |b| > 1 then [MakeGroup(ts, level, b, start)] else []
  {
    assert LevelGroups(ts, level, [b], start) == (if |b| > 1 then [MakeGroup(ts, level, b, start)] else []) + LevelGroups(ts, level, [], start);
  }

  // ---------------------------------------------------------------------------------------
  // What the detection computes

  /** The facts about a level table that the detection relies on; the level computation
      establishes them (`ComputedIsLeveled`). */
  ghost predicate Leveled(ts: seq<Task>, lt: LevelTable) {
    && Covers(ts, lt)
    && (forall k :: k in IdSet(ts) ==> k in lt.order)
    && Distinct(lt.order)
    && (forall k :: k in IdSet(ts) ==> k in lt.levels && LevelRule(ts, lt.levels, k))
  }

  lemma ComputedIsLeveled(ts: seq<Task>)
    requires ComputeLevels(ts).Ok?
    ensures Leveled(ts, ComputeLevels(ts).value)
  {
    LevelsCorrect(ts);
  }

  /** Two different tasks on the same level never depend on each other, directly or
      transitively. */
  lemma SameLevelUnrelated(ts: seq<Task>, lt: LevelTable, a: string, b: string)
    requires Leveled(ts, lt) && a != b
    requires a in lt.levels && b in lt.levels && lt.levels[a] == lt.levels[b]
    ensures !Related(ts, a, b)
  {
    if Reaches(ts, a, b) {
      var c :| IsChain(ts, c) && c[0] == b && c[|c| - 1] == a;
      LevelsRiseAlongChain(ts, lt.levels, c);
    }
    if Reaches(ts, b, a) {
      var c :| IsChain(ts, c) && c[0] == a && c[|c| - 1] == b;
      LevelsRiseAlongChain(ts, lt.levels, c);
    }
  }

  /** A whole level forms one independent group. */
  lemma LevelIsOneGroup(ts: seq<Task>, lt: LevelTable, level: nat)
    requires Leveled(ts, lt)
    requires Bucket(lt.levels, lt.order, level) != []
    ensures IndependentGroups(ts, Bucket(lt.levels, lt.order, level)) == [Bucket(lt.levels, lt.order, level)]
  {
    var b := Bucket(lt.levels, lt.order, level);
    BucketDistinct(lt.levels, lt.order, level);
    BucketMembers(lt.levels, lt.order, level);
    forall i, j | 0 <= i < |b| && 0 <= j < |b| && i != j ensures !Related(ts, b[i], b[j]) {
      assert b[i] in b && b[j] in b;
      SameLevelUnrelated(ts, lt, b[i], b[j]);
    }
    OneGroupWhenUnrelated(ts, b);
  }

  /** The levels from `level` on that hold two or more tasks, in ascending order. */
  function FullLevels(lt: LevelTable, level: nat): seq<nat>
    requires forall k :: k in lt.order ==> k in lt.levels
    decreases TopLevel(lt.levels, lt.order) + 1 - level
  {
    if level > TopLevel(lt.levels, lt.order) then []
    else if |Bucket(lt.levels, lt.order, level)| >= 2 then [level] + FullLevels(lt, level + 1)
    else FullLevels(lt, level + 1)
  }

  /** Each full level from `level` on lies at or above `level` and holds two or more tasks. */
  lemma {:induction false} FullLevelsAbove(lt: LevelTable, level: nat)
    requires forall k :: k in lt.order ==> k in lt.levels
    ensures forall i :: 0 <= i < |FullLevels(lt, level)| ==>
      level <= FullLevels(lt, level)[i] && |Bucket(lt.levels, lt.order, FullLevels(lt, level)[i])| >= 2
    decreases TopLevel(lt.levels, lt.order) + 1 - level
  {
    if level <= TopLevel(lt.levels, lt.order) {
      FullLevelsAbove(lt, level + 1);
      var rs := FullLevels(lt, level + 1);
      if |Bucket(lt.levels, lt.order, level)| >= 2 {
        var r := [level] + rs;
        assert FullLevels(lt, level) == r;
        forall i | 0 <= i < |r| ensures level <= r[i] && |Bucket(lt.levels, lt.order, r[i])| >= 2 {
          if i > 0 { assert r[i] == rs[i - 1]; }
        }
      }
    }
  }

  /** The full levels are listed in strictly ascending order. */
  lemma {:induction false} FullLevelsAscending(lt: LevelTable, level: nat)
    requires forall k :: k in lt.order ==> k in lt.levels
    ensures forall i, j :: 0 <= i < j < |FullLevels(lt, level)| ==> FullLevels(lt, level)[i] < FullLevels(lt, level)[j]
    decreases TopLevel(lt.levels, lt.order) + 1 - level
  {
    if level <= TopLevel(lt.levels, lt.order) {
      FullLevelsAscending(lt, level + 1);
      FullLevelsAbove(lt, level + 1);
      var rs := FullLevels(lt, level + 1);
      if |Bucket(lt.levels, lt.order, level)| >= 2 {
        var r := [level] + rs;
        assert FullLevels(lt, level) == r;
        forall i, j | 0 <= i < j < |r| ensures r[i] < r[j] {
          assert r[j] == rs[j - 1];
          if i > 0 { assert r[i] == rs[i - 1]; }
        }
      }
    }
  }

  /** No level with two or more tasks is missing from the full levels. */
  lemma {:induction false} FullLevelsHasAll(lt: LevelTable, level: nat, x: nat)
    requires forall k :: k in lt.order ==> k in lt.levels
    requires level <= x && |Bucket(lt.levels, lt.order, x)| >= 2
    ensures x in FullLevels(lt, level)
    decreases x - level
  {
    TopLevelBound(lt.levels, lt.order);
    if level < x {
      FullLevelsHasAll(lt, level + 1, x);
    }
  }

  /** A level's `ParallelGroup`: the whole level, starting after all lower levels. */
  function GroupAt(ts: seq<Task>, lt: LevelTable, level: nat): ParallelGroup
    requires Covers(ts, lt)
  {
    MakeGroup(ts, level, Bucket(lt.levels, lt.order, level), StartOf(ts, lt, level))
  }

  /** The groups of the listed levels. */
  function GroupsAt(ts: seq<Task>, lt: LevelTable, ls: seq<nat>): (gs: seq<ParallelGroup>)
    requires Covers(ts, lt)
    ensures |gs| == |ls| && forall i :: 0 <= i < |ls| ==> gs[i] == GroupAt(ts, lt, ls[i])
  {
    seq(|ls|, i requires 0 <= i < |ls| => GroupAt(ts, lt, ls[i]))
  }

  lemma GroupsAtCons(ts: seq<Task>, lt: LevelTable, x: nat, rs: seq<nat>)
    requires Covers(ts, lt)
    ensures GroupsAt(ts, lt, [x] + rs) == [GroupAt(ts, lt, x)] + GroupsAt(ts, lt, rs)
  {
    var l := GroupsAt(ts, lt, [x] + rs);
    var r := [GroupAt(ts, lt, x)] + GroupsAt(ts, lt, rs);
    assert |l| == |r|;
    forall i | 0 <= i < |l| ensures l[i] == r[i] {
      if i > 0 { assert ([x] + rs)[i] == rs[i - 1]; }
    }
  }

  /** One step of the level loop: the part of a level with tasks, then the levels above it. */
  lemma DetectFromStep(ts: seq<Task>, lt: LevelTable, level: nat)
    requires Covers(ts, lt) && level <= TopLevel(lt.levels, lt.order)
    ensures Bucket(lt.levels, lt.order, level) == [] ==> DetectFrom(ts, lt, level) == DetectFrom(ts, lt, level + 1)
    ensures Bucket(lt.levels, lt.order, level) != [] ==>
      DetectFrom(ts, lt, level) == LevelPart(ts, level, Bucket(lt.levels, lt.order, level), StartOf(ts, lt, level)) + DetectFrom(ts, lt, level + 1)
  {
  }

  /** The part a present level contributes is its group when it holds two or more tasks, and
      nothing otherwise. */
  lemma LevelPartIsGroupAt(ts: seq<Task>, lt: LevelTable, level: nat)
    requires Leveled(ts, lt)
    requires Bucket(lt.levels, lt.order, level) != []
    ensures var b := Bucket(lt.levels, lt.order, level);
      LevelPart(ts, level, b, StartOf(ts, lt, level)) == if |b| >= 2 then [GroupAt(ts, lt, level)] else []
  {
    var b := Bucket(lt.levels, lt.order, level);
    LevelIsOneGroup(ts, lt, level);
    LevelPartOfOneGroup(ts, level, b, StartOf(ts, lt, level));
  }

  /** The levels, one per step, give their groups: the loop from `level` on is the groups of
      the full levels from `level` on. */
  lemma {:induction false} DetectFromIsGroupsAt(ts: seq<Task>, lt: LevelTable, level: nat)
    requires Leveled(ts, lt)
    ensures DetectFrom(ts, lt, level) == GroupsAt(ts, lt, FullLevels(lt, level))
    decreases TopLevel(lt.levels, lt.order) + 1 - level
  {
    if level <= TopLevel(lt.levels, lt.order) {
      var b := Bucket(lt.levels, lt.order, level);
      var rs := FullLevels(lt, level + 1);
      DetectFromIsGroupsAt(ts, lt, level + 1);
      DetectFromStep(ts, lt, level);
      if b == [] {
        assert FullLevels(lt, level) == rs;
      } else if |b| == 1 {
        LevelPartIsGroupAt(ts, lt, level);
        assert FullLevels(lt, level) == rs;
        assert DetectFrom(ts, lt, level) == [] + GroupsAt(ts, lt, rs);
      } else {
        LevelPartIsGroupAt(ts, lt, level);
        assert FullLevels(lt, level) == [level] + rs;
        GroupsAtCons(ts, lt, level, rs);
        assert DetectFrom(ts, lt, level) == [GroupAt(ts, lt, level)] + GroupsAt(ts, lt, rs);
      }
      var full := FullLevels(lt, level);
      assert DetectFrom(ts, lt, level) == GroupsAt(ts, lt, full);
    }
  }

  /** What `detect_parallel_groups` returns on an acyclic task list: one group per level that
      holds two or more tasks, in ascending level order (`FullLevels`); each group is that whole
      level in key order, starts after the summed longest durations of the lower levels, and has
      the longest duration and the durations of its members. */
  lemma DetectCorrect(ts: seq<Task>)
    requires DetectSpec(ts).Ok?
    ensures ComputeLevels(ts).Ok?
    ensures DetectSpec(ts).value == GroupsAt(ts, ComputeLevels(ts).value, FullLevels(ComputeLevels(ts).value, 0))
  {
    ComputedIsLeveled(ts);
    DetectFromIsGroupsAt(ts, ComputeLevels(ts).value, 0);
  }

  /** The groups of a leveled table: ascending levels, non-decreasing starts, two or more members
      each, exactly the tasks of their level, pairwise unrelated, and with the longest duration
      and the durations of their members. */
  lemma {:induction false} GroupsAtFacts(ts: seq<Task>, lt: LevelTable)
    requires Leveled(ts, lt)
    ensures var gs := GroupsAt(ts, lt, FullLevels(lt, 0));
      && (forall i, j :: 0 <= i < j < |gs| ==> gs[i].level < gs[j].level && gs[i].earliestStart <= gs[j].earliestStart)
      && (forall i :: 0 <= i < |gs| ==> gs[i].Size() >= 2)
      && (forall i, x :: 0 <= i < |gs| ==> (x in gs[i].taskIds <==> x in IdSet(ts) && lt.levels[x] == gs[i].level))
      && (forall i, x, y :: 0 <= i < |gs| && x in gs[i].taskIds && y in gs[i].taskIds && x != y ==> !Related(ts, x, y))
      && (forall i :: 0 <= i < |gs| ==> gs[i].maxDuration == MaxHoursOf(ts, gs[i].taskIds))
      && (forall i :: 0 <= i < |gs| ==> gs[i].taskDurations == Durations(ts, gs[i].taskIds))
  {
    var r := FullLevels(lt, 0);
    var gs := GroupsAt(ts, lt, r);
    FullLevelsAbove(lt, 0);
    FullLevelsAscending(lt, 0);
    forall i, j | 0 <= i < j < |gs| ensures gs[i].level < gs[j].level && gs[i].earliestStart <= gs[j].earliestStart {
      StartOfMonotone(ts, lt, r[i], r[j]);
    }
    forall i, x | 0 <= i < |gs| ensures x in gs[i].taskIds <==> x in IdSet(ts) && lt.levels[x] == gs[i].level {
      BucketMembers(lt.levels, lt.order, r[i]);
    }
    forall i, x, y | 0 <= i < |gs| && x in gs[i].taskIds && y in gs[i].taskIds && x != y ensures !Related(ts, x, y) {
      BucketMembers(lt.levels, lt.order, r[i]);
      SameLevelUnrelated(ts, lt, x, y);
    }
  }

  /** Every level with two or more tasks has its group. */
  lemma FullLevelsComplete(ts: seq<Task>, x: nat)
    requires ComputeLevels(ts).Ok?
    requires |Bucket(ComputeLevels(ts).value.levels, ComputeLevels(ts).value.order, x)| >= 2
    ensures x in FullLevels(ComputeLevels(ts).value, 0)
  {
    FullLevelsHasAll(ComputeLevels(ts).value, 0, x);
  }

  /** Detection fails exactly on a task list with a dependency cycle. */
  lemma DetectFailsOnCycle(ts: seq<Task>)
    ensures DetectSpec(ts).Err? <==> HasCycle(ts)
  {
    AcyclicIffNoCycle(ts);
  }

  // ---------------------------------------------------------------------------------------
  // The loops of `detect_parallel_groups`

  /** The `durations` loop: each member of the group with its hours. */
  method GroupDurations(ts: seq<Task>, g: seq<string>) returns (ds: seq<(string, nat)>)
    requires forall x :: x in g ==> x in IdSet(ts)
    ensures ds == Durations(ts, g)
  {
    ds := [];
    var i := 0;
    while i < |g|
      invariant 0 <= i <= |g|
      invariant ds == Durations(ts, g[..i])
    {
      ds := ds + [(g[i], Hours(Lookup(ts, g[i])))];
      i := i + 1;
      assert ds == Durations(ts, g[..i]);
    }
    assert g[..i] == g;
  }

  /** The `level_duration` loop: the longest hours among the tasks of a level. */
  method LevelDuration(ts: seq<Task>, ids: seq<string>) returns (d: nat)
    requires forall k :: k in ids ==> k in IdSet(ts)
    ensures d == MaxHoursOf(ts, ids)
  {
    d := 0;
    var i := 0;
    while i < |ids|
      invariant 0 <= i <= |ids|
      invariant MaxHoursOf(ts, ids) == Levels.Max(d, MaxHoursOf(ts, ids[i..]))
    {
      assert ids[i..][1..] == ids[i + 1..];
      var h := Hours(Lookup(ts, ids[i]));
      d := Levels.Max(d, h);
      i := i + 1;
    }
  }

  /** `byLevel` maps each level with keys in `o` to its bucket, and no other level. */
  ghost predicate IndexesLevels(byLevel: map<nat, seq<string>>, levels: map<string, nat>, o: seq<string>)
    requires forall k :: k in o ==> k in levels
  {
    forall l: nat {:trigger l in byLevel} ::
      && (l in byLevel <==> Bucket(levels, o, l) != [])
      && (l in byLevel ==> byLevel[l] == Bucket(levels, o, l))
  }

  /** Appending a key to the list of its level keeps the index up to date. */
  lemma IndexesSnoc(byLevel: map<nat, seq<string>>, levels: map<string, nat>, o: seq<string>, k: string)
    requires forall x :: x in o ==> x in levels
    requires k in levels && IndexesLevels(byLevel, levels, o)
    ensures forall x :: x in o + [k] ==> x in levels
    ensures IndexesLevels(byLevel[levels[k] := (if levels[k] in byLevel then byLevel[levels[k]] else []) + [k]], levels, o + [k])
    ensures TopLevel(levels, o + [k]) == Levels.Max(TopLevel(levels, o), levels[k])
  {
    var o' := o + [k];
    assert o'[..|o'| - 1] == o;
    forall l: nat ensures Bucket(levels, o', l) == Bucket(levels, o, l) + (if levels[k] == l then [k] else []) {
    }
  }

  /** `tasks_by_level`: the keys of the table appended to the list of their level, in table
      order, together with the highest level seen. */
  method BucketByLevel(lt: LevelTable) returns (byLevel: map<nat, seq<string>>, top: nat)
    requires forall k :: k in lt.order ==> k in lt.levels
    ensures top == TopLevel(lt.levels, lt.order)
    ensures IndexesLevels(byLevel, lt.levels, lt.order)
  {
    byLevel := map[];
    top := 0;
    var i := 0;
    while i < |lt.order|
      invariant 0 <= i <= |lt.order|
      invariant top == TopLevel(lt.levels, lt.order[..i])
      invariant IndexesLevels(byLevel, lt.levels, lt.order[..i])
    {
      var k := lt.order[i];
      var l := lt.levels[k];
      assert lt.order[..i + 1] == lt.order[..i] + [k];
      IndexesSnoc(byLevel, lt.levels, lt.order[..i], k);
      byLevel := byLevel[l := (if l in byLevel then byLevel[l] else []) + [k]];
      top := Levels.Max(top, l);
      i := i + 1;
    }
    assert lt.order[..i] == lt.order;
  }

  /** The `for group in independent_groups` loop of one level. */
  method EmitLevel(ts: seq<Task>, level: nat, gs: seq<seq<string>>, start: nat) returns (out: seq<ParallelGroup>)
    requires forall k, x :: 0 <= k < |gs| && x in gs[k] ==> x in IdSet(ts)
    ensures out == LevelGroups(ts, level, gs, start)
  {
    out := [];
    var j := 0;
    while j < |gs|
      invariant 0 <= j <= |gs|
      invariant LevelGroups(ts, level, gs, start) == out + LevelGroups(ts, level, gs[j..], start)
    {
      assert gs[j..][1..] == gs[j + 1..];
      var g := gs[j];
      if |g| > 1 {
        var durations := GroupDurations(ts, g);
        var maxDuration := if durations == [] then DefaultHours else MaxHoursOf(ts, g);
        out := out + [ParallelGroup(level, g, start, maxDuration, durations)];
      }
      j := j + 1;
    }
  }

  /** One level of the loop: its groups of two or more tasks, and its longest task. */
  method DetectLevel(ts: seq<Task>, lt: LevelTable, level: nat, taskIds: seq<string>, start: nat)
    returns (emitted: seq<ParallelGroup>, levelDuration: nat)
    requires Covers(ts, lt) && level <= TopLevel(lt.levels, lt.order)
    requires taskIds == Bucket(lt.levels, lt.order, level) && taskIds != []
    requires start == StartOf(ts, lt, level)
    ensures DetectFrom(ts, lt, level) == emitted + DetectFrom(ts, lt, level + 1)
    ensures StartOf(ts, lt, level + 1) == start + levelDuration
  {
    var independent := FindIndependentGroups(ts, taskIds);
    GroupMembers(ts, taskIds);
    emitted := EmitLevel(ts, level, independent, start);
    levelDuration := LevelDuration(ts, taskIds);
    DetectFromStep(ts, lt, level);
  }

  /** The loop state on reaching `level`: `groups` holds what the levels below it gave, and
      `cumulative` is its start. */
  ghost predicate LoopAt(ts: seq<Task>, lt: LevelTable, level: nat, groups: seq<ParallelGroup>, cumulative: nat)
    requires Covers(ts, lt)
  {
    cumulative == StartOf(ts, lt, level) && DetectFrom(ts, lt, 0) == groups + DetectFrom(ts, lt, level)
  }

  /** Past the highest level nothing is left to emit. */
  lemma LoopDone(ts: seq<Task>, lt: LevelTable, level: nat, groups: seq<ParallelGroup>, cumulative: nat)
    requires Covers(ts, lt) && level > TopLevel(lt.levels, lt.order)
    requires LoopAt(ts, lt, level, groups, cumulative)
    ensures groups == DetectFrom(ts, lt, 0)
  {
    assert DetectFrom(ts, lt, level) == [];
    assert groups + [] == groups;
  }

  /** One pass of the level loop: a level with tasks emits its groups and adds its longest
      task to `cumulative_time`; a level without tasks changes nothing. */
  method DetectStep(ts: seq<Task>, lt: LevelTable, byLevel: map<nat, seq<string>>, level: nat,
                    groups: seq<ParallelGroup>, cumulative: nat)
    returns (groups': seq<ParallelGroup>, cumulative': nat)
    requires Covers(ts, lt) && level <= TopLevel(lt.levels, lt.order)
    requires IndexesLevels(byLevel, lt.levels, lt.order)
    requires LoopAt(ts, lt, level, groups, cumulative)
    ensures LoopAt(ts, lt, level + 1, groups', cumulative')
  {
    DetectFromStep(ts, lt, level);
    if level in byLevel {
      var emitted, levelDuration := DetectLevel(ts, lt, level, byLevel[level], cumulative);
      assert DetectFrom(ts, lt, 0) == (groups + emitted) + DetectFrom(ts, lt, level + 1);
      groups' := groups + emitted;
      cumulative' := cumulative + levelDuration;
    } else {
      groups', cumulative' := groups, cumulative;
    }
  }

  /** The loop over the sorted levels, given the levels indexed by `tasks_by_level`. */
  method RunLevels(ts: seq<Task>, lt: LevelTable, byLevel: map<nat, seq<string>>, top: nat)
    returns (groups: seq<ParallelGroup>, cumulative: nat)
    requires Covers(ts, lt) && top == TopLevel(lt.levels, lt.order)
    requires IndexesLevels(byLevel, lt.levels, lt.order)
    ensures LoopAt(ts, lt, top + 1, groups, cumulative)
  {
    groups := [];
    cumulative := 0;
    for level := 0 to top + 1
      invariant LoopAt(ts, lt, level, groups, cumulative)
    {
      groups, cumulative := DetectStep(ts, lt, byLevel, level, groups, cumulative);
    }
  }

  /** The loop over the sorted levels of a level table, with its `cumulative_time`. */
  method DetectLevels(ts: seq<Task>, lt: LevelTable) returns (groups: seq<ParallelGroup>)
    requires Covers(ts, lt)
    ensures groups == DetectFrom(ts, lt, 0)
  {
    var byLevel, top := BucketByLevel(lt);
    var cumulative;
    groups, cumulative := RunLevels(ts, lt, byLevel, top);
    LoopDone(ts, lt, top + 1, groups, cumulative);
  }

  /** `detect_parallel_groups()`: a cycle is reported as the error of the level computation. */
  method DetectParallelGroups(ts: seq<Task>) returns (r: Result<seq<ParallelGroup>>)
    ensures r == DetectSpec(ts)
  {
    var levels := CalculateLevels(ts);
    if levels.Err? {
      return Err(levels.error);
    }
    var groups := DetectLevels(ts, levels.value);
    return Ok(groups);
  }
}
