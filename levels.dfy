/** `ParallelDetector.calculate_levels`: a depth-first, memoised walk that gives every task its
    topological level and raises `ValueError` on a cycle.

    The walk is first written as functions (`Visit`, `VisitAll`, `ComputeLevels`) that thread the
    memo table through the recursion; the lemmas below prove what the table means. The class
    `LevelMemo` and the method `CalculateLevels` then do the same walk over mutable state, as the
    source does, and are proved to agree with the functions. */
module Levels {
  import opened Wrappers
  import opened Tasks

  /** The `levels` dictionary: its values, and its keys in insertion order. */
  datatype LevelTable = LevelTable(levels: map<string, nat>, order: seq<string>)

  /** The message of the `ValueError` raised when `id` is met again while still in progress. */
  function CycleMessage(id: string): string {
    "Circular dependency detected involving task: " + id
  }

  function Max(a: nat, b: nat): nat {
    if a < b then b else a
  }

  /** `levels[id] = v` for an id that is not yet a key. */
  function Record(st: LevelTable, id: string, v: nat): LevelTable {
    LevelTable(st.levels[id := v], st.order + [id])
  }

  function Elements(s: seq<string>): set<string> {
    set x | x in s
  }

  /** How many tasks can still be put in progress: the walk's termination measure. */
  function Unvisited(ts: seq<Task>, stack: seq<string>): nat {
    |IdSet(ts) - Elements(stack)|
  }

  lemma UnvisitedDrops(ts: seq<Task>, stack: seq<string>, id: string)
    requires id in IdSet(ts) && id !in stack
    ensures Unvisited(ts, [id] + stack) < Unvisited(ts, stack)
  {
    var a := IdSet(ts) - Elements(stack);
    assert IdSet(ts) - Elements([id] + stack) == a - {id};
    assert id in a;
  }

  /** `get_level(id)`. `stack` holds the tasks in progress (the `visited` set), most recent
      first; `st` is the memo table. */
  function Visit(ts: seq<Task>, id: string, stack: seq<string>, st: LevelTable): Result<(nat, LevelTable)>
    requires id in IdSet(ts)
    requires forall x :: x in stack ==> x in IdSet(ts)
    decreases Unvisited(ts, stack), 0, 0
  {
    if id in st.levels then Ok((st.levels[id], st))
    else if id in stack then Err(CycleMessage(id))
    else if Lookup(ts, id).dependsOn == [] then Ok((0, Record(st, id, 0)))
    else if ValidDeps(ts, id) == [] then Ok((0, Record(st, id, 0)))
    else
      UnvisitedDrops(ts, stack, id);
      match VisitAll(ts, ValidDeps(ts, id), [id] + stack, st, 0)
      case Err(e) => Err(e)
      case Ok((m, st1)) => Ok((m + 1, Record(st1, id, m + 1)))
  }

  /** `max(get_level(dep) for dep in ds)`, folded from `acc`, visiting `ds` in order. */
  function VisitAll(ts: seq<Task>, ds: seq<string>, stack: seq<string>, st: LevelTable, acc: nat): Result<(nat, LevelTable)>
    requires forall d :: d in ds ==> d in IdSet(ts)
    requires forall x :: x in stack ==> x in IdSet(ts)
    decreases Unvisited(ts, stack), 1, |ds|
  {
    if ds == [] then Ok((acc, st))
    else match Visit(ts, ds[0], stack, st)
      case Err(e) => Err(e)
      case Ok((v, st1)) => VisitAll(ts, ds[1..], stack, st1, Max(acc, v))
  }

  /** The loop `for task_id in self.task_dict: get_level(task_id)`. */
  function VisitKeys(ts: seq<Task>, ks: seq<string>, st: LevelTable): Result<LevelTable>
    requires forall k :: k in ks ==> k in IdSet(ts)
  {
    if ks == [] then Ok(st)
    else match Visit(ts, ks[0], [], st)
      case Err(e) => Err(e)
      case Ok((_, st1)) => VisitKeys(ts, ks[1..], st1)
  }

  /** `calculate_levels()` */
  function ComputeLevels(ts: seq<Task>): (r: Result<LevelTable>)
    ensures r.Ok? ==> forall k :: k in r.value.order ==> k in r.value.levels && k in IdSet(ts)
  {
    VisitKeysOk(ts, Keys(ts), LevelTable(map[], []));
    VisitKeys(ts, Keys(ts), LevelTable(map[], []))
  }

  /** The task list has no dependency cycle (shown equivalent to `!HasCycle` below). */
  predicate Acyclic(ts: seq<Task>) {
    ComputeLevels(ts).Ok?
  }

  // ---------------------------------------------------------------------------------------
  // What a level table means

  /** The largest level among `ds`, or 0 for none (`max(dep_levels)` folded from 0). */
  function MaxLevel(levels: map<string, nat>, ds: seq<string>): (m: nat)
    requires forall d :: d in ds ==> d in levels
    ensures forall d :: d in ds ==> levels[d] <= m
  {
    if ds == [] then 0 else Max(levels[ds[0]], MaxLevel(levels, ds[1..]))
  }

  lemma {:induction false} MaxLevelAttained(levels: map<string, nat>, ds: seq<string>)
    requires ds != [] && forall d :: d in ds ==> d in levels
    ensures exists d :: d in ds && levels[d] == MaxLevel(levels, ds)
    decreases |ds|
  {
    if |ds| > 1 && levels[ds[0]] < MaxLevel(levels, ds[1..]) {
      MaxLevelAttained(levels, ds[1..]);
      var d :| d in ds[1..] && levels[d] == MaxLevel(levels, ds[1..]);
      assert d in ds;
    } else {
      assert MaxLevel(levels, ds) == Max(levels[ds[0]], MaxLevel(levels, ds[1..]));
      assert ds[0] in ds;
    }
  }

  lemma {:induction false} MaxLevelAgrees(l1: map<string, nat>, l2: map<string, nat>, ds: seq<string>)
    requires forall d :: d in ds ==> d in l1 && d in l2 && l1[d] == l2[d]
    ensures MaxLevel(l1, ds) == MaxLevel(l2, ds)
    decreases |ds|
  {
    if ds != [] {
      MaxLevelAgrees(l1, l2, ds[1..]);
    }
  }

  /** `levels[k]` is 0 when `k` has no in-set dependency, and otherwise one more than the
      largest level among its in-set dependencies. */
  ghost predicate LevelRule(ts: seq<Task>, levels: map<string, nat>, k: string) {
    && k in IdSet(ts) && k in levels
    && (forall d :: d in ValidDeps(ts, k) ==> d in levels)
    && levels[k] == if ValidDeps(ts, k) == [] then 0 else 1 + MaxLevel(levels, ValidDeps(ts, k))
  }

  /** Every in-set dependency of a key sits before it in the key order. */
  ghost predicate DepsFirst(ts: seq<Task>, order: seq<string>) {
    forall i, j :: 0 <= i < |order| && 0 <= j < |order| && order[i] in IdSet(ts) && order[j] in ValidDeps(ts, order[i]) ==> j < i
  }

  ghost predicate Consistent(ts: seq<Task>, st: LevelTable) {
    && (forall k :: k in st.levels <==> k in st.order)
    && Distinct(st.order)
    && (forall k :: k in st.levels ==> LevelRule(ts, st.levels, k))
    && DepsFirst(ts, st.order)
  }

  ghost predicate Extends(st: LevelTable, st1: LevelTable) {
    && (forall k :: k in st.levels ==> k in st1.levels && st1.levels[k] == st.levels[k])
    && |st.order| <= |st1.order| && st1.order[..|st.order|] == st.order
  }

  ghost predicate Apart(st: LevelTable, stack: seq<string>) {
    forall x :: x in stack ==> x !in st.levels
  }

  /** Recording `id` with the level its rule gives keeps the table consistent. */
  lemma RecordKeepsConsistent(ts: seq<Task>, st: LevelTable, id: string, v: nat)
    requires Consistent(ts, st) && id in IdSet(ts) && id !in st.levels
    requires forall d :: d in ValidDeps(ts, id) ==> d in st.levels
    requires v == if ValidDeps(ts, id) == [] then 0 else 1 + MaxLevel(st.levels, ValidDeps(ts, id))
    ensures Consistent(ts, Record(st, id, v)) && Extends(st, Record(st, id, v))
  {
    var st1 := Record(st, id, v);
    RecordKeepsRules(ts, st, id, v);
    RecordKeepsDepsFirst(ts, st, id);
    assert st1.order[..|st.order|] == st.order;
  }

  lemma RecordKeepsRules(ts: seq<Task>, st: LevelTable, id: string, v: nat)
    requires forall k :: k in st.levels ==> LevelRule(ts, st.levels, k)
    requires id !in st.levels && id in IdSet(ts)
    requires forall d :: d in ValidDeps(ts, id) ==> d in st.levels
    requires v == if ValidDeps(ts, id) == [] then 0 else 1 + MaxLevel(st.levels, ValidDeps(ts, id))
    ensures forall k :: k in st.levels || k == id ==> LevelRule(ts, st.levels[id := v], k)
  {
    var l1 := st.levels[id := v];
    forall k | k in st.levels || k == id ensures LevelRule(ts, l1, k) {
      var vd := ValidDeps(ts, k);
      if k != id {
        assert LevelRule(ts, st.levels, k);
      }
      assert forall d :: d in vd ==> d in st.levels && l1[d] == st.levels[d];
      MaxLevelAgrees(st.levels, l1, vd);
    }
  }

  lemma RecordKeepsDepsFirst(ts: seq<Task>, st: LevelTable, id: string)
    requires forall k :: k in st.levels <==> k in st.order
    requires forall k :: k in st.levels ==> LevelRule(ts, st.levels, k)
    requires DepsFirst(ts, st.order) && id !in st.levels
    requires id in IdSet(ts) && forall d :: d in ValidDeps(ts, id) ==> d in st.levels
    ensures DepsFirst(ts, st.order + [id])
  {
    var o1 := st.order + [id];
    forall i, j | 0 <= i < |o1| && 0 <= j < |o1| && o1[i] in IdSet(ts) && o1[j] in ValidDeps(ts, o1[i])
      ensures j < i
    {
      if i < |st.order| {
        assert LevelRule(ts, st.levels, st.order[i]);
        assert o1[j] in st.levels;
        assert o1[i] == st.order[i] && o1[j] == st.order[j];
      }
    }
  }

  lemma ExtendsTrans(a: LevelTable, b: LevelTable, c: LevelTable)
    requires Extends(a, b) && Extends(b, c)
    ensures Extends(a, c)
  {
    assert c.order[..|a.order|] == c.order[..|b.order|][..|a.order|];
  }

  lemma {:induction false} VisitOk(ts: seq<Task>, id: string, stack: seq<string>, st: LevelTable)
    requires id in IdSet(ts)
    requires forall x :: x in stack ==> x in IdSet(ts)
    requires Consistent(ts, st) && Apart(st, stack)
    ensures Visit(ts, id, stack, st).Ok? ==>
      var (v, st1) := Visit(ts, id, stack, st).value;
      Consistent(ts, st1) && Extends(st, st1) && Apart(st1, stack) && id in st1.levels && st1.levels[id] == v
    decreases Unvisited(ts, stack), 0, 2
  {
    if id in st.levels || id in stack {
    } else if Lookup(ts, id).dependsOn == [] || ValidDeps(ts, id) == [] {
      VisitOkLeaf(ts, id, stack, st);
    } else {
      VisitOkDeep(ts, id, stack, st);
    }
  }

  /** `get_level` on a new task without in-set dependencies records it at level 0. */
  lemma VisitOkLeaf(ts: seq<Task>, id: string, stack: seq<string>, st: LevelTable)
    requires id in IdSet(ts)
    requires forall x :: x in stack ==> x in IdSet(ts)
    requires Consistent(ts, st) && Apart(st, stack)
    requires id !in st.levels && id !in stack
    requires Lookup(ts, id).dependsOn == [] || ValidDeps(ts, id) == []
    ensures Visit(ts, id, stack, st).Ok? ==>
      var (v, st1) := Visit(ts, id, stack, st).value;
      Consistent(ts, st1) && Extends(st, st1) && Apart(st1, stack) && id in st1.levels && st1.levels[id] == v
  {
    assert Visit(ts, id, stack, st) == Ok((0, Record(st, id, 0)));
    RecordKeepsConsistent(ts, st, id, 0);
  }

  /** `get_level` on a new task with in-set dependencies records it after them. */
  lemma {:induction false} VisitOkDeep(ts: seq<Task>, id: string, stack: seq<string>, st: LevelTable)
    requires id in IdSet(ts)
    requires forall x :: x in stack ==> x in IdSet(ts)
    requires Consistent(ts, st) && Apart(st, stack)
    requires id !in st.levels && id !in stack
    requires ValidDeps(ts, id) != []
    ensures Visit(ts, id, stack, st).Ok? ==>
      var (v, st1) := Visit(ts, id, stack, st).value;
      Consistent(ts, st1) && Extends(st, st1) && Apart(st1, stack) && id in st1.levels && st1.levels[id] == v
    decreases Unvisited(ts, stack), 0, 1
  {
    UnvisitedDrops(ts, stack, id);
    var valid := ValidDeps(ts, id);
    VisitAllOk(ts, valid, [id] + stack, st, 0);
    var r := VisitAll(ts, valid, [id] + stack, st, 0);
    if r.Ok? {
      var (m, st1) := r.value;
      VisitRecurses(ts, id, stack, st, m, st1);
      RecordAfterDeps(ts, id, stack, st, m, st1);
    } else {
      assert Lookup(ts, id).dependsOn != [];
    }
  }

  /** Recording a task once its in-set dependencies are recorded keeps the table consistent. */
  lemma RecordAfterDeps(ts: seq<Task>, id: string, stack: seq<string>, st: LevelTable, m: nat, st1: LevelTable)
    requires id in IdSet(ts) && id !in stack
    requires Consistent(ts, st1) && Extends(st, st1) && Apart(st1, [id] + stack)
    requires (forall d :: d in ValidDeps(ts, id) ==> d in st1.levels)
    requires ValidDeps(ts, id) != [] && m == Max(0, MaxLevel(st1.levels, ValidDeps(ts, id)))
    ensures var st2 := Record(st1, id, m + 1);
      Consistent(ts, st2) && Extends(st, st2) && Apart(st2, stack) && id in st2.levels && st2.levels[id] == m + 1
  {
    assert id !in st1.levels;
    RecordKeepsConsistent(ts, st1, id, m + 1);
    ExtendsTrans(st, st1, Record(st1, id, m + 1));
  }

  lemma {:induction false} VisitAllOk(ts: seq<Task>, ds: seq<string>, stack: seq<string>, st: LevelTable, acc: nat)
    requires forall d :: d in ds ==> d in IdSet(ts)
    requires forall x :: x in stack ==> x in IdSet(ts)
    requires Consistent(ts, st) && Apart(st, stack)
    ensures VisitAll(ts, ds, stack, st, acc).Ok? ==>
      var (m, st1) := VisitAll(ts, ds, stack, st, acc).value;
      && Consistent(ts, st1) && Extends(st, st1) && Apart(st1, stack)
      && (forall d :: d in ds ==> d in st1.levels)
      && m == Max(acc, MaxLevel(st1.levels, ds))
    decreases Unvisited(ts, stack), 1, |ds|
  {
    if ds != [] {
      VisitOk(ts, ds[0], stack, st);
      var r := Visit(ts, ds[0], stack, st);
      if r.Ok? {
        var (v, st1) := r.value;
        VisitAllOk(ts, ds[1..], stack, st1, Max(acc, v));
        var r2 := VisitAll(ts, ds[1..], stack, st1, Max(acc, v));
        if r2.Ok? {
          var (m, st2) := r2.value;
          ExtendsTrans(st, st1, st2);
          forall d | d in ds ensures d in st2.levels {
            if d != ds[0] { assert d in ds[1..]; }
          }
          assert st2.levels[ds[0]] == v;
        }
      }
    }
  }

  lemma {:induction false} VisitKeysOk(ts: seq<Task>, ks: seq<string>, st: LevelTable)
    requires forall k :: k in ks ==> k in IdSet(ts)
    requires Consistent(ts, st)
    ensures VisitKeys(ts, ks, st).Ok? ==>
      var st1 := VisitKeys(ts, ks, st).value;
      Consistent(ts, st1) && Extends(st, st1) && forall k :: k in ks ==> k in st1.levels
    decreases |ks|
  {
    if ks != [] {
      VisitOk(ts, ks[0], [], st);
      var r := Visit(ts, ks[0], [], st);
      if r.Ok? {
        var st1 := r.value.1;
        VisitKeysOk(ts, ks[1..], st1);
        if VisitKeys(ts, ks[1..], st1).Ok? {
          var st2 := VisitKeys(ts, ks[1..], st1).value;
          ExtendsTrans(st, st1, st2);
          forall k | k in ks ensures k in st2.levels {
            if k != ks[0] { assert k in ks[1..]; }
          }
        }
      }
    }
  }

  /** Every supplied id gets exactly one level, given by the level rule, and the keys are
      recorded dependencies first. */
  lemma LevelsCorrect(ts: seq<Task>)
    requires ComputeLevels(ts).Ok?
    ensures var lt := ComputeLevels(ts).value;
      && (forall k :: k in lt.levels <==> k in IdSet(ts))
      && (forall k :: k in lt.order <==> k in IdSet(ts))
      && Distinct(lt.order)
      && (forall k :: k in IdSet(ts) ==> LevelRule(ts, lt.levels, k))
      && DepsFirst(ts, lt.order)
  {
    var empty := LevelTable(map[], []);
    VisitKeysOk(ts, Keys(ts), empty);
  }

  /** Levels strictly increase along every in-set `depends_on` edge. */
  lemma LevelAboveDependencies(ts: seq<Task>, a: string, b: string)
    requires ComputeLevels(ts).Ok? && DependsDirectly(ts, a, b)
    ensures a in ComputeLevels(ts).value.levels && b in ComputeLevels(ts).value.levels
    ensures ComputeLevels(ts).value.levels[b] < ComputeLevels(ts).value.levels[a]
  {
    LevelsCorrect(ts);
    assert b in ValidDeps(ts, a);
    assert LevelRule(ts, ComputeLevels(ts).value.levels, a);
  }

  // ---------------------------------------------------------------------------------------
  // Cycles

  /** `x` lies on a dependency cycle among the supplied tasks. */
  ghost predicate OnCycle(ts: seq<Task>, x: string) {
    exists c :: IsChain(ts, c) && |c| >= 2 && c[0] == x && c[|c| - 1] == x
  }

  ghost predicate ReportsCycle(ts: seq<Task>, e: string) {
    exists x :: x in IdSet(ts) && OnCycle(ts, x) && e == CycleMessage(x)
  }

  lemma {:induction false} VisitErr(ts: seq<Task>, id: string, stack: seq<string>, st: LevelTable)
    requires id in IdSet(ts)
    requires forall x :: x in stack ==> x in IdSet(ts)
    requires IsChain(ts, [id] + stack)
    ensures Visit(ts, id, stack, st).Err? ==> ReportsCycle(ts, Visit(ts, id, stack, st).error)
    decreases Unvisited(ts, stack), 0, 0
  {
    if id in st.levels {
    } else if id in stack {
      var j :| 0 <= j < |stack| && stack[j] == id;
      var c := ([id] + stack)[..j + 2];
      assert IsChain(ts, c) && |c| >= 2 && c[0] == id && c[|c| - 1] == id;
    } else if Lookup(ts, id).dependsOn == [] || ValidDeps(ts, id) == [] {
    } else {
      UnvisitedDrops(ts, stack, id);
      VisitAllErr(ts, ValidDeps(ts, id), [id] + stack, st, 0);
    }
  }

  lemma {:induction false} VisitAllErr(ts: seq<Task>, ds: seq<string>, stack: seq<string>, st: LevelTable, acc: nat)
    requires forall d :: d in ds ==> d in IdSet(ts)
    requires forall x :: x in stack ==> x in IdSet(ts)
    requires IsChain(ts, stack)
    requires forall d :: d in ds ==> DependsDirectly(ts, stack[0], d)
    ensures VisitAll(ts, ds, stack, st, acc).Err? ==> ReportsCycle(ts, VisitAll(ts, ds, stack, st, acc).error)
    decreases Unvisited(ts, stack), 1, |ds|
  {
    if ds != [] {
      assert IsChain(ts, [ds[0]] + stack) by {
        var c := [ds[0]] + stack;
        forall k | 0 <= k < |c| - 1 ensures DependsDirectly(ts, c[k + 1], c[k]) {
          if k > 0 { assert c[k + 1] == stack[k] && c[k] == stack[k - 1]; }
        }
      }
      VisitErr(ts, ds[0], stack, st);
      var r := Visit(ts, ds[0], stack, st);
      if r.Ok? {
        VisitAllErr(ts, ds[1..], stack, r.value.1, Max(acc, r.value.0));
      }
    }
  }

  lemma {:induction false} VisitKeysErr(ts: seq<Task>, ks: seq<string>, st: LevelTable)
    requires forall k :: k in ks ==> k in IdSet(ts)
    ensures VisitKeys(ts, ks, st).Err? ==> ReportsCycle(ts, VisitKeys(ts, ks, st).error)
    decreases |ks|
  {
    if ks != [] {
      assert IsChain(ts, [ks[0]] + []);
      VisitErr(ts, ks[0], [], st);
      var r := Visit(ts, ks[0], [], st);
      if r.Ok? {
        VisitKeysErr(ts, ks[1..], r.value.1);
      }
    }
  }

  /** A `ValueError` names a supplied task that lies on a dependency cycle. */
  lemma CycleReported(ts: seq<Task>)
    requires ComputeLevels(ts).Err?
    ensures ReportsCycle(ts, ComputeLevels(ts).error)
  {
    VisitKeysErr(ts, Keys(ts), LevelTable(map[], []));
  }

  lemma {:induction false} LevelsRiseAlongChain(ts: seq<Task>, levels: map<string, nat>, c: seq<string>)
    requires IsChain(ts, c)
    requires forall k :: k in IdSet(ts) ==> k in levels && LevelRule(ts, levels, k)
    ensures |c| >= 2 ==> levels[c[0]] < levels[c[|c| - 1]]
    decreases |c|
  {
    if |c| >= 2 {
      var c' := c[..|c| - 1];
      assert IsChain(ts, c');
      LevelsRiseAlongChain(ts, levels, c');
      var n := |c|;
      assert DependsDirectly(ts, c[n - 1], c[n - 2]);
      assert c[n - 2] in ValidDeps(ts, c[n - 1]);
      assert LevelRule(ts, levels, c[n - 1]);
    }
  }

  /** The level computation fails exactly when the supplied tasks contain a cycle; in
      particular diamonds and other acyclic shapes are never reported. */
  lemma AcyclicIffNoCycle(ts: seq<Task>)
    ensures Acyclic(ts) <==> !HasCycle(ts)
  {
    if ComputeLevels(ts).Ok? {
      LevelsCorrect(ts);
      if HasCycle(ts) {
        var c :| IsChain(ts, c) && |c| >= 2 && c[0] == c[|c| - 1];
        LevelsRiseAlongChain(ts, ComputeLevels(ts).value.levels, c);
      }
    } else {
      CycleReported(ts);
      var x :| x in IdSet(ts) && OnCycle(ts, x) && ComputeLevels(ts).error == CycleMessage(x);
      var c :| IsChain(ts, c) && |c| >= 2 && c[0] == x && c[|c| - 1] == x;
      assert HasCycle(ts);
    }
  }

  /** The level rule determines the levels: any map that obeys it on every task is the
      computed one. */
  lemma LevelsUnique(ts: seq<Task>, other: map<string, nat>)
    requires ComputeLevels(ts).Ok?
    requires forall k :: k in IdSet(ts) ==> k in other && LevelRule(ts, other, k)
    ensures forall k :: k in IdSet(ts) ==> k in ComputeLevels(ts).value.levels
    ensures forall k :: k in IdSet(ts) ==> other[k] == ComputeLevels(ts).value.levels[k]
  {
    LevelsCorrect(ts);
    var levels := ComputeLevels(ts).value.levels;
    forall k | k in IdSet(ts) ensures other[k] == levels[k] {
      SameLevel(ts, levels, other, k);
    }
  }

  lemma {:induction false} SameLevel(ts: seq<Task>, l1: map<string, nat>, l2: map<string, nat>, k: string)
    requires forall x :: x in IdSet(ts) ==> x in l1 && LevelRule(ts, l1, x)
    requires forall x :: x in IdSet(ts) ==> x in l2 && LevelRule(ts, l2, x)
    requires k in IdSet(ts)
    ensures l1[k] == l2[k]
    decreases l1[k]
  {
    assert LevelRule(ts, l1, k) && LevelRule(ts, l2, k);
    var vd := ValidDeps(ts, k);
    if vd != [] {
      forall d | d in vd ensures l1[d] == l2[d] {
        SameLevel(ts, l1, l2, d);
      }
      MaxLevelAgrees(l1, l2, vd);
    }
  }

  // ---------------------------------------------------------------------------------------
  // The walk over mutable state

  /** `Visit` on a task not yet recorded nor in progress, that has in-set dependencies. */
  lemma VisitRecurses(ts: seq<Task>, id: string, stack: seq<string>, st: LevelTable, m: nat, st1: LevelTable)
    requires id in IdSet(ts) && forall x :: x in stack ==> x in IdSet(ts)
    requires id !in st.levels && id !in stack && ValidDeps(ts, id) != []
    requires VisitAll(ts, ValidDeps(ts, id), [id] + stack, st, 0) == Ok((m, st1))
    ensures Visit(ts, id, stack, st) == Ok((m + 1, Record(st1, id, m + 1)))
  {
    assert Lookup(ts, id).dependsOn != [];
  }

  /** One step of the fold in `VisitAll`. */
  lemma VisitAllStep(ts: seq<Task>, ds: seq<string>, stack: seq<string>, st: LevelTable, acc: nat)
    requires ds != [] && forall d :: d in ds ==> d in IdSet(ts)
    requires forall x :: x in stack ==> x in IdSet(ts)
    ensures Visit(ts, ds[0], stack, st).Err? ==> VisitAll(ts, ds, stack, st, acc) == Err(Visit(ts, ds[0], stack, st).error)
    ensures Visit(ts, ds[0], stack, st).Ok? ==>
      VisitAll(ts, ds, stack, st, acc)
        == VisitAll(ts, ds[1..], stack, Visit(ts, ds[0], stack, st).value.1, Max(acc, Visit(ts, ds[0], stack, st).value.0))
  {
  }

  /** The state of one `calculate_levels` call: the `levels` dictionary (values and key order)
      and the `visited` set of tasks in progress. */
  class LevelMemo {
    var levels: map<string, nat>
    var order: seq<string>
    var visited: set<string>

    constructor ()
      ensures levels == map[] && order == [] && visited == {}
    {
      levels := map[];
      order := [];
      visited := {};
    }

    function Table(): LevelTable
      reads this
    {
      LevelTable(levels, order)
    }

    /** `get_level(id)`; `stack` lists the tasks in `visited`, most recent first. On success
        the memo holds the table `Visit` computes and `visited` is as before. */
    method GetLevel(ts: seq<Task>, id: string, ghost stack: seq<string>) returns (r: Result<nat>)
      requires id in IdSet(ts)
      requires forall x :: x in stack ==> x in IdSet(ts)
      requires visited == Elements(stack)
      modifies this
      ensures Visit(ts, id, stack, old(Table())).Err? ==> r == Err(Visit(ts, id, stack, old(Table())).error)
      ensures Visit(ts, id, stack, old(Table())).Ok? ==>
        && r == Ok(Visit(ts, id, stack, old(Table())).value.0)
        && Table() == Visit(ts, id, stack, old(Table())).value.1
        && visited == old(visited)
      decreases Unvisited(ts, stack), 0, 1
    {
      if id in levels {
        return Ok(levels[id]);
      }
      if id in visited {
        return Err(CycleMessage(id));
      }
      r := Explore(ts, id, stack);
    }

    /** The part of `get_level(id)` for a task neither computed nor in progress: mark it
        visited, take one more than the highest level of its present dependencies (0 when it
        has none), record that level and unmark it. */
    method Explore(ts: seq<Task>, id: string, ghost stack: seq<string>) returns (r: Result<nat>)
      requires id in IdSet(ts) && id !in levels && id !in stack
      requires forall x :: x in stack ==> x in IdSet(ts)
      requires visited == Elements(stack)
      modifies this
      ensures Visit(ts, id, stack, old(Table())).Err? ==> r == Err(Visit(ts, id, stack, old(Table())).error)
      ensures Visit(ts, id, stack, old(Table())).Ok? ==>
        && r == Ok(Visit(ts, id, stack, old(Table())).value.0)
        && Table() == Visit(ts, id, stack, old(Table())).value.1
        && visited == old(visited)
      decreases Unvisited(ts, stack), 0, 0
    {
      UnvisitedDrops(ts, stack, id);
      ghost var st0 := Table();
      visited := visited + {id};
      var deps := Lookup(ts, id).dependsOn;
      var valid := ValidDeps(ts, id);
      if deps == [] || valid == [] {
        levels := levels[id := 0];
        order := order + [id];
        assert Table() == Record(st0, id, 0);
        assert Visit(ts, id, stack, st0) == Ok((0, Table()));
        r := Ok(0);
      } else {
        var res := MaxDepLevel(ts, valid, [id] + stack);
        if res.Err? {
          return Err(res.error);
        }
        var m := res.value;
        assert VisitAll(ts, valid, [id] + stack, st0, 0) == Ok((m, Table()));
        ghost var st1 := Table();
        VisitRecurses(ts, id, stack, st0, m, st1);
        levels := levels[id := m + 1];
        order := order + [id];
        assert Table() == Record(st1, id, m + 1);
        assert Visit(ts, id, stack, st0) == Ok((m + 1, Table()));
        r := Ok(m + 1);
      }
      visited := visited - {id};
      assert visited == old(visited);
    }

    /** `max(get_level(dep) for dep in ds)`, stopping at the first error. */
    method MaxDepLevel(ts: seq<Task>, ds: seq<string>, ghost stack: seq<string>) returns (r: Result<nat>)
      requires forall d :: d in ds ==> d in IdSet(ts)
      requires forall x :: x in stack ==> x in IdSet(ts)
      requires visited == Elements(stack)
      modifies this
      ensures VisitAll(ts, ds, stack, old(Table()), 0).Err? ==> r == Err(VisitAll(ts, ds, stack, old(Table()), 0).error)
      ensures VisitAll(ts, ds, stack, old(Table()), 0).Ok? ==>
        && r == Ok(VisitAll(ts, ds, stack, old(Table()), 0).value.0)
        && Table() == VisitAll(ts, ds, stack, old(Table()), 0).value.1
        && visited == old(visited)
      decreases Unvisited(ts, stack), 1, 0
    {
      ghost var st0 := Table();
      var m: nat := 0;
      var i := 0;
      while i < |ds|
        invariant 0 <= i <= |ds|
        invariant visited == Elements(stack)
        invariant VisitAll(ts, ds, stack, st0, 0) == VisitAll(ts, ds[i..], stack, Table(), m)
      {
        ghost var sti := Table();
        var v := GetLevel(ts, ds[i], stack);
        VisitAllStep(ts, ds[i..], stack, sti, m);
        if v.Err? {
          return Err(v.error);
        }
        assert ds[i..][1..] == ds[i + 1..];
        m := Max(m, v.value);
        i := i + 1;
      }
      return Ok(m);
    }
  }

  /** `calculate_levels()`, run on a fresh memo: it returns exactly what `ComputeLevels` gives. */
  method CalculateLevels(ts: seq<Task>) returns (r: Result<LevelTable>)
    ensures r == ComputeLevels(ts)
  {
    var memo := new LevelMemo();
    var ks := Keys(ts);
    var i := 0;
    while i < |ks|
      invariant 0 <= i <= |ks|
      invariant memo.visited == {}
      invariant ComputeLevels(ts) == VisitKeys(ts, ks[i..], memo.Table())
    {
      var v := memo.GetLevel(ts, ks[i], []);
      if v.Err? {
        return Err(v.error);
      }
      i := i + 1;
    }
    return Ok(memo.Table());
  }
}
