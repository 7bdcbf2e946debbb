/** `ParallelDetector.calculate_critical_path`: the longest-duration chain of dependencies.

    `get_longest_path(id)` is written as the function `LongestPath` (with `BestDep` for its loop
    over the dependencies) and as the memoised method `PathMemo.GetLongestPath`. The source
    recurses without a visiting set, so it terminates only on lists without a dependency
    cycle: the functions take a ranking of the tasks that falls along every edge (the levels of
    an acyclic list) as the measure of the recursion, and `CalculateCriticalPath` requires the
    list to be acyclic. */
module CriticalPath {
  import opened Wrappers
  import opened Tasks
  import opened Levels

  /** `lv` gives every task a level by the level rule, so levels fall along every dependency. */
  ghost predicate Ranked(ts: seq<Task>, lv: map<string, nat>) {
    forall k {:trigger k in lv} :: k in IdSet(ts) ==> k in lv && LevelRule(ts, lv, k)
  }

  lemma RankFalls(ts: seq<Task>, lv: map<string, nat>, a: string, d: string)
    requires Ranked(ts, lv) && a in IdSet(ts)
    requires d in Lookup(ts, a).dependsOn && d in IdSet(ts)
    ensures lv[d] < lv[a]
  {
    assert d in ValidDeps(ts, a);
    assert LevelRule(ts, lv, a);
  }

  /** The levels of an acyclic list. */
  ghost function Rank(ts: seq<Task>): (lv: map<string, nat>)
    requires !HasCycle(ts)
    ensures Ranked(ts, lv)
  {
    AcyclicIffNoCycle(ts);
    LevelsCorrect(ts);
    ComputeLevels(ts).value.levels
  }

  /** `get_longest_path(id)`: the hours of the longest chain ending at `id`, and that chain
      (dependencies first). A task with an empty `depends_on` is a chain by itself. */
  ghost function LongestPath(ts: seq<Task>, lv: map<string, nat>, id: string): (nat, seq<string>)
    requires Ranked(ts, lv) && id in IdSet(ts)
    decreases lv[id], 1, 0
  {
    var t := Lookup(ts, id);
    if t.dependsOn == [] then (Hours(t), [id])
    else
      var best := BestDep(ts, lv, id, t.dependsOn, 0, []);
      (best.0 + Hours(t), best.1 + [id])
  }

  /** The `for dep in deps` loop of `get_longest_path(id)`: over the dependencies that name a
      task, keep the first whose time is strictly above the best so far. */
  ghost function BestDep(ts: seq<Task>, lv: map<string, nat>, id: string, ds: seq<string>, time: nat, path: seq<string>): (nat, seq<string>)
    requires Ranked(ts, lv) && id in IdSet(ts)
    requires forall d :: d in ds ==> d in Lookup(ts, id).dependsOn
    decreases lv[id], 0, |ds|
  {
    if ds == [] then (time, path)
    else if ds[0] in IdSet(ts) then
      RankFalls(ts, lv, id, ds[0]);
      var dep := LongestPath(ts, lv, ds[0]);
      if dep.0 > time then BestDep(ts, lv, id, ds[1..], dep.0, dep.1)
      else BestDep(ts, lv, id, ds[1..], time, path)
    else BestDep(ts, lv, id, ds[1..], time, path)
  }

  /** The loop `for task_id in self.task_dict`: keep the first longest path strictly above the
      best so far. */
  ghost function CriticalFrom(ts: seq<Task>, lv: map<string, nat>, ks: seq<string>, time: nat, path: seq<string>): (nat, seq<string>)
    requires Ranked(ts, lv) && forall k :: k in ks ==> k in IdSet(ts)
  {
    if ks == [] then (time, path)
    else
      var p := LongestPath(ts, lv, ks[0]);
      if p.0 > time then CriticalFrom(ts, lv, ks[1..], p.0, p.1)
      else CriticalFrom(ts, lv, ks[1..], time, path)
  }

  /** `calculate_critical_path()`: the path and its duration. */
  ghost function CriticalSpec(ts: seq<Task>): (seq<string>, nat)
    requires !HasCycle(ts)
  {
    var r := CriticalFrom(ts, Rank(ts), Keys(ts), 0, []);
    (r.1, r.0)
  }

  // ---------------------------------------------------------------------------------------
  // What the longest path is

  /** `path` is empty with time 0, or a chain into `id`'s dependencies whose hours are `time`. */
  ghost predicate DepPath(ts: seq<Task>, id: string, time: nat, path: seq<string>) {
    && (forall k :: k in path ==> k in IdSet(ts))
    && time == HoursOf(ts, path)
    && (path == [] || (IsChain(ts, path) && DependsDirectly(ts, id, path[|path| - 1])))
  }

  /** A chain extended by a task depending on its last entry is a chain. */
  lemma ChainSnoc(ts: seq<Task>, c: seq<string>, id: string)
    requires id in IdSet(ts)
    requires c == [] || (IsChain(ts, c) && DependsDirectly(ts, id, c[|c| - 1]))
    ensures IsChain(ts, c + [id])
  {
    var c' := c + [id];
    forall k | 0 <= k < |c'| - 1 ensures DependsDirectly(ts, c'[k + 1], c'[k]) {
      assert c'[k] == c[k];
      if k + 1 < |c| { assert c'[k + 1] == c[k + 1]; }
    }
  }

  /** The longest path into `id` is a chain ending at `id`, and its time is the hours summed
      along it. */
  lemma {:induction false} LongestPathIsChain(ts: seq<Task>, lv: map<string, nat>, id: string)
    requires Ranked(ts, lv) && id in IdSet(ts)
    ensures var r := LongestPath(ts, lv, id);
      && r.1 != [] && r.1[|r.1| - 1] == id && IsChain(ts, r.1)
      && (forall k :: k in r.1 ==> k in IdSet(ts)) && r.0 == HoursOf(ts, r.1)
    decreases lv[id], 1, 0
  {
    var t := Lookup(ts, id);
    if t.dependsOn == [] {
      assert IsChain(ts, [id]);
    } else {
      var best := BestDep(ts, lv, id, t.dependsOn, 0, []);
      BestDepIsChain(ts, lv, id, t.dependsOn, 0, []);
      ChainSnoc(ts, best.1, id);
      HoursOfAppend(ts, best.1, [id]);
    }
  }

  lemma {:induction false} BestDepIsChain(ts: seq<Task>, lv: map<string, nat>, id: string, ds: seq<string>, time: nat, path: seq<string>)
    requires Ranked(ts, lv) && id in IdSet(ts)
    requires forall d :: d in ds ==> d in Lookup(ts, id).dependsOn
    requires DepPath(ts, id, time, path)
    ensures var r := BestDep(ts, lv, id, ds, time, path); DepPath(ts, id, r.0, r.1)
    decreases lv[id], 0, |ds|
  {
    if ds != [] {
      if ds[0] in IdSet(ts) {
        RankFalls(ts, lv, id, ds[0]);
        var dep := LongestPath(ts, lv, ds[0]);
        if dep.0 > time {
          LongestPathIsChain(ts, lv, ds[0]);
          BestDepIsChain(ts, lv, id, ds[1..], dep.0, dep.1);
        } else {
          BestDepIsChain(ts, lv, id, ds[1..], time, path);
        }
      } else {
        BestDepIsChain(ts, lv, id, ds[1..], time, path);
      }
    }
  }

  /** The loop over the dependencies ends at least as high as where it started and as every
      dependency's own longest path. */
  lemma {:induction false} BestDepAtLeast(ts: seq<Task>, lv: map<string, nat>, id: string, ds: seq<string>, time: nat, path: seq<string>)
    requires Ranked(ts, lv) && id in IdSet(ts)
    requires forall d :: d in ds ==> d in Lookup(ts, id).dependsOn
    ensures time <= BestDep(ts, lv, id, ds, time, path).0
    ensures forall d :: d in ds && d in IdSet(ts) ==> LongestPath(ts, lv, d).0 <= BestDep(ts, lv, id, ds, time, path).0
    decreases |ds|
  {
    if ds != [] {
      if ds[0] in IdSet(ts) {
        RankFalls(ts, lv, id, ds[0]);
        var dep := LongestPath(ts, lv, ds[0]);
        if dep.0 > time {
          BestDepAtLeast(ts, lv, id, ds[1..], dep.0, dep.1);
        } else {
          BestDepAtLeast(ts, lv, id, ds[1..], time, path);
        }
      } else {
        BestDepAtLeast(ts, lv, id, ds[1..], time, path);
      }
    }
  }

  /** A task's longest path takes at least its own hours. */
  lemma LongestPathAtLeast(ts: seq<Task>, lv: map<string, nat>, id: string)
    requires Ranked(ts, lv) && id in IdSet(ts)
    ensures Hours(Lookup(ts, id)) <= LongestPath(ts, lv, id).0
  {
  }

  /** A task's longest path takes at least its hours more than that of each dependency. */
  lemma LongestPathAboveDep(ts: seq<Task>, lv: map<string, nat>, id: string, d: string)
    requires Ranked(ts, lv) && DependsDirectly(ts, id, d)
    ensures LongestPath(ts, lv, d).0 + Hours(Lookup(ts, id)) <= LongestPath(ts, lv, id).0
  {
    var t := Lookup(ts, id);
    BestDepAtLeast(ts, lv, id, t.dependsOn, 0, []);
  }

  /** A chain of two or more tasks without its last entry is a chain ending at a dependency of
      that entry. */
  lemma ChainInit(ts: seq<Task>, c: seq<string>)
    requires IsChain(ts, c) && |c| >= 2
    ensures IsChain(ts, c[..|c| - 1]) && DependsDirectly(ts, c[|c| - 1], c[|c| - 2])
  {
    var init := c[..|c| - 1];
    forall k | 0 <= k < |init| - 1 ensures DependsDirectly(ts, init[k + 1], init[k]) {
      assert init[k + 1] == c[k + 1] && init[k] == c[k];
    }
  }

  /** No chain ending at a task takes longer than that task's longest path. */
  lemma {:induction false} ChainBounded(ts: seq<Task>, lv: map<string, nat>, c: seq<string>)
    requires Ranked(ts, lv) && IsChain(ts, c)
    ensures forall k :: k in c ==> k in IdSet(ts)
    ensures HoursOf(ts, c) <= LongestPath(ts, lv, c[|c| - 1]).0
    decreases |c|
  {
    var id := c[|c| - 1];
    var init := c[..|c| - 1];
    assert c == init + [id];
    HoursOfAppend(ts, init, [id]);
    if |c| == 1 {
      LongestPathAtLeast(ts, lv, id);
    } else {
      var d := c[|c| - 2];
      ChainInit(ts, c);
      ChainBounded(ts, lv, init);
      assert init[|init| - 1] == d;
      LongestPathAboveDep(ts, lv, id, d);
    }
  }

  /** The outer loop ends at least as high as where it started and as every task's longest path. */
  lemma {:induction false} CriticalFromMax(ts: seq<Task>, lv: map<string, nat>, ks: seq<string>, time: nat, path: seq<string>)
    requires Ranked(ts, lv) && forall k :: k in ks ==> k in IdSet(ts)
    ensures time <= CriticalFrom(ts, lv, ks, time, path).0
    ensures forall k :: k in ks ==> LongestPath(ts, lv, k).0 <= CriticalFrom(ts, lv, ks, time, path).0
    decreases |ks|
  {
    if ks != [] {
      var p := LongestPath(ts, lv, ks[0]);
      if p.0 > time {
        CriticalFromMax(ts, lv, ks[1..], p.0, p.1);
      } else {
        CriticalFromMax(ts, lv, ks[1..], time, path);
      }
    }
  }

  /** `r` is the longest path of `ks[i]`, and every task before it takes less time. */
  ghost predicate FirstReaching(ts: seq<Task>, lv: map<string, nat>, ks: seq<string>, i: int, r: (nat, seq<string>))
    requires Ranked(ts, lv) && forall k :: k in ks ==> k in IdSet(ts)
  {
    && 0 <= i < |ks| && r == LongestPath(ts, lv, ks[i])
    && forall j :: 0 <= j < i ==> LongestPath(ts, lv, ks[j]).0 < r.0
  }

  /** The outer loop keeps its start when no task beats it, and otherwise the longest path of
      the first task reaching the final time. */
  lemma {:induction false} CriticalFromFirst(ts: seq<Task>, lv: map<string, nat>, ks: seq<string>, time: nat, path: seq<string>)
    requires Ranked(ts, lv) && forall k :: k in ks ==> k in IdSet(ts)
    ensures var r := CriticalFrom(ts, lv, ks, time, path);
      r == (time, path) || (time < r.0 && exists i :: FirstReaching(ts, lv, ks, i, r))
    decreases |ks|
  {
    if ks != [] {
      var p := LongestPath(ts, lv, ks[0]);
      var rest := ks[1..];
      var r := CriticalFrom(ts, lv, ks, time, path);
      if p.0 > time {
        CriticalFromFirst(ts, lv, rest, p.0, p.1);
        if r == p {
          assert FirstReaching(ts, lv, ks, 0, r);
        } else {
          var i :| FirstReaching(ts, lv, rest, i, r);
          FirstReachingCons(ts, lv, ks, i, r);
        }
      } else {
        CriticalFromFirst(ts, lv, rest, time, path);
        if r != (time, path) {
          var i :| FirstReaching(ts, lv, rest, i, r);
          FirstReachingCons(ts, lv, ks, i, r);
        }
      }
    }
  }

  lemma FirstReachingCons(ts: seq<Task>, lv: map<string, nat>, ks: seq<string>, i: int, r: (nat, seq<string>))
    requires Ranked(ts, lv) && ks != [] && forall k :: k in ks ==> k in IdSet(ts)
    requires FirstReaching(ts, lv, ks[1..], i, r)
    requires LongestPath(ts, lv, ks[0]).0 < r.0
    ensures FirstReaching(ts, lv, ks, i + 1, r)
  {
    var rest := ks[1..];
    assert ks[i + 1] == rest[i];
    forall j | 0 <= j < i + 1 ensures LongestPath(ts, lv, ks[j]).0 < r.0 {
      if j > 0 { assert ks[j] == rest[j - 1]; }
    }
  }

  /** On an acyclic list `calculate_critical_path` returns a chain of dependencies (or nothing)
      whose duration is its summed hours, and it is empty exactly when that duration is 0. */
  lemma CriticalIsChain(ts: seq<Task>)
    requires !HasCycle(ts)
    ensures var (path, time) := CriticalSpec(ts);
      && (path == [] <==> time == 0)
      && (path != [] ==> IsChain(ts, path))
      && (forall k :: k in path ==> k in IdSet(ts))
      && time == HoursOf(ts, path)
  {
    var lv := Rank(ts);
    var ks := Keys(ts);
    var r := CriticalFrom(ts, lv, ks, 0, []);
    CriticalFromFirst(ts, lv, ks, 0, []);
    if r != (0, []) {
      var i :| FirstReaching(ts, lv, ks, i, r);
      LongestPathIsChain(ts, lv, ks[i]);
    }
  }

  /** No chain of the list takes longer than the critical path. */
  lemma CriticalIsLongest(ts: seq<Task>, c: seq<string>)
    requires !HasCycle(ts) && IsChain(ts, c)
    ensures forall k :: k in c ==> k in IdSet(ts)
    ensures HoursOf(ts, c) <= CriticalSpec(ts).1
  {
    var lv := Rank(ts);
    ChainBounded(ts, lv, c);
    CriticalFromMax(ts, lv, Keys(ts), 0, []);
    assert c[|c| - 1] in Keys(ts);
  }

  /** Of several tasks with the longest time, the critical path is that of the first in key
      order (the strict `>` of the loop). */
  lemma CriticalIsFirst(ts: seq<Task>)
    requires !HasCycle(ts)
    ensures var (path, time) := CriticalSpec(ts);
      time > 0 ==> exists i :: FirstReaching(ts, Rank(ts), Keys(ts), i, (time, path))
  {
    CriticalFromFirst(ts, Rank(ts), Keys(ts), 0, []);
  }

  /** An empty task list has the empty critical path of duration 0. */
  lemma CriticalOfEmpty()
    ensures !HasCycle([])
    ensures CriticalSpec([]) == ([], 0)
  {
    assert IdSet([]) == {};
  }

  lemma {:induction false} ZeroHoursOf(ts: seq<Task>, ids: seq<string>)
    requires forall k :: k in ids ==> k in IdSet(ts)
    requires forall t :: t in ts ==> Hours(t) == 0
    ensures HoursOf(ts, ids) == 0
    decreases |ids|
  {
    if ids != [] {
      ZeroHoursOf(ts, ids[1..]);
    }
  }

  /** When every task takes 0 hours no path is long enough to be kept: the critical path is
      empty. */
  lemma CriticalOfZeroHours(ts: seq<Task>)
    requires !HasCycle(ts)
    requires forall t :: t in ts ==> Hours(t) == 0
    ensures CriticalSpec(ts) == ([], 0)
  {
    CriticalIsChain(ts);
    var (path, time) := CriticalSpec(ts);
    ZeroHoursOf(ts, path);
  }

  // ---------------------------------------------------------------------------------------
  // The memoised computation

  ghost predicate MemoOk(ts: seq<Task>, lv: map<string, nat>, times: map<string, nat>, paths: map<string, seq<string>>)
    requires Ranked(ts, lv)
  {
    forall k :: k in times ==> k in IdSet(ts) && k in paths && LongestPath(ts, lv, k) == (times[k], paths[k])
  }

  /** The longest path of a task without dependencies is the task alone. */
  lemma LongestPathOfLeaf(ts: seq<Task>, lv: map<string, nat>, id: string)
    requires Ranked(ts, lv) && id in IdSet(ts) && Lookup(ts, id).dependsOn == []
    ensures LongestPath(ts, lv, id) == (Hours(Lookup(ts, id)), [id])
  {
  }

  /** The longest path of a task with dependencies extends the best path among them. */
  lemma LongestPathOfDeps(ts: seq<Task>, lv: map<string, nat>, id: string, maxTime: nat, maxPath: seq<string>)
    requires Ranked(ts, lv) && id in IdSet(ts) && Lookup(ts, id).dependsOn != []
    requires (maxTime, maxPath) == BestDep(ts, lv, id, Lookup(ts, id).dependsOn, 0, [])
    ensures LongestPath(ts, lv, id) == (maxTime + Hours(Lookup(ts, id)), maxPath + [id])
  {
    var t := Lookup(ts, id);
    var best := BestDep(ts, lv, id, t.dependsOn, 0, []);
    assert LongestPath(ts, lv, id) == (best.0 + Hours(t), best.1 + [id]);
  }

  /** Recording a task's longest path keeps the memo right. */
  lemma MemoRecord(ts: seq<Task>, lv: map<string, nat>, times: map<string, nat>, paths: map<string, seq<string>>,
                   id: string, time: nat, path: seq<string>)
    requires Ranked(ts, lv) && MemoOk(ts, lv, times, paths)
    requires id in IdSet(ts) && (time, path) == LongestPath(ts, lv, id)
    ensures MemoOk(ts, lv, times[id := time], paths[id := path])
  {
  }

  /** The dictionaries `task_times` and `task_paths` of one `calculate_critical_path` call. */
  class PathMemo {
    var times: map<string, nat>
    var paths: map<string, seq<string>>

    constructor ()
      ensures times == map[] && paths == map[]
    {
      times := map[];
      paths := map[];
    }

    /** Every memoised entry is the longest path of its task. */
    ghost predicate Valid(ts: seq<Task>, lv: map<string, nat>)
      reads this
    {
      Ranked(ts, lv) && MemoOk(ts, lv, times, paths)
    }

    /** `get_longest_path(id)` */
    method GetLongestPath(ts: seq<Task>, ghost lv: map<string, nat>, id: string) returns (time: nat, path: seq<string>)
      requires Valid(ts, lv) && id in IdSet(ts)
      modifies this
      ensures Valid(ts, lv)
      ensures (time, path) == LongestPath(ts, lv, id)
      decreases lv[id], 1
    {
      if id in times {
        return times[id], paths[id];
      }
      var t := Lookup(ts, id);
      var duration := Hours(t);
      var deps := t.dependsOn;
      if deps == [] {
        LongestPathOfLeaf(ts, lv, id);
        time, path := duration, [id];
      } else {
        var maxTime, maxPath := BestOfDeps(ts, lv, id, deps);
        LongestPathOfDeps(ts, lv, id, maxTime, maxPath);
        time, path := maxTime + duration, maxPath + [id];
      }
      MemoRecord(ts, lv, times, paths, id, time, path);
      times := times[id := time];
      paths := paths[id := path];
    }

    /** `max_dep_time` and `max_dep_path` after the loop over `deps`. */
    method BestOfDeps(ts: seq<Task>, ghost lv: map<string, nat>, id: string, deps: seq<string>)
      returns (maxTime: nat, maxPath: seq<string>)
      requires Valid(ts, lv) && id in IdSet(ts) && deps == Lookup(ts, id).dependsOn
      modifies this
      ensures Valid(ts, lv)
      ensures (maxTime, maxPath) == BestDep(ts, lv, id, deps, 0, [])
      decreases lv[id], 0
    {
      maxTime, maxPath := 0, [];
      var i := 0;
      while i < |deps|
        invariant 0 <= i <= |deps|
        invariant Valid(ts, lv)
        invariant BestDep(ts, lv, id, deps, 0, []) == BestDep(ts, lv, id, deps[i..], maxTime, maxPath)
      {
        assert deps[i..][1..] == deps[i + 1..];
        var dep := deps[i];
        if dep in IdSet(ts) {
          RankFalls(ts, lv, id, dep);
          var depTime, depPath := GetLongestPath(ts, lv, dep);
          if depTime > maxTime {
            maxTime, maxPath := depTime, depPath;
          }
        }
        i := i + 1;
      }
    }
  }

  /** `calculate_critical_path()` on an acyclic list. */
  method CalculateCriticalPath(ts: seq<Task>) returns (path: seq<string>, time: nat)
    requires !HasCycle(ts)
    ensures (path, time) == CriticalSpec(ts)
  {
    ghost var lv := Rank(ts);
    var memo := new PathMemo();
    var ks := Keys(ts);
    time, path := 0, [];
    var i := 0;
    while i < |ks|
      invariant 0 <= i <= |ks|
      invariant memo.Valid(ts, lv)
      invariant CriticalFrom(ts, lv, ks, 0, []) == CriticalFrom(ts, lv, ks[i..], time, path)
    {
      assert ks[i..][1..] == ks[i + 1..];
      var t, p := memo.GetLongestPath(ts, lv, ks[i]);
      if t > time {
        time, path := t, p;
      }
      i := i + 1;
    }
  }
}
