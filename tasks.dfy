/** Task records as the planning code reads them, and the dependency graph they describe.

    The analyzer indexes the task list by id with a dictionary built left to right (the last
    record with a given id wins, while the id keeps the position of its first occurrence), and it
    only follows `depends_on` entries that name an indexed id. */
module Tasks {
  import opened Wrappers

  /** Hours assumed for a task without `estimated_hours`. */
  const DefaultHours: nat := 8

  /** A task record. A missing `depends_on` is the empty list; the other optional keys are
      `None` when absent. */
  datatype Task = Task(
    id: string,
    dependsOn: seq<string>,
    estimatedHours: Option<nat>,
    status: Option<string>,
    title: Option<string>,
    content: Option<string>,
    validationMechanism: Option<string>)

  /** `task.get('estimated_hours', 8)` */
  function Hours(t: Task): nat {
    t.estimatedHours.GetOr(DefaultHours)
  }

  /** The ids of the list, one per record, in list order. */
  function Ids(ts: seq<Task>): (r: seq<string>)
    ensures |r| == |ts| && forall i :: 0 <= i < |ts| ==> r[i] == ts[i].id
  {
    seq(|ts|, i requires 0 <= i < |ts| => ts[i].id)
  }

  /** The ids present in the list (the keys of `task_dict`). */
  function IdSet(ts: seq<Task>): set<string> {
    set i | 0 <= i < |ts| :: ts[i].id
  }

  predicate UniqueIds(ts: seq<Task>) {
    forall i, j :: 0 <= i < j < |ts| ==> ts[i].id != ts[j].id
  }

  predicate Distinct<T(==)>(s: seq<T>) {
    forall i, j :: 0 <= i < j < |s| ==> s[i] != s[j]
  }

  /** The keys of `task_dict` in iteration order: each id once, at its first occurrence. */
  function Keys(ts: seq<Task>): (ks: seq<string>)
    ensures Distinct(ks)
    ensures forall k :: k in ks <==> k in IdSet(ts)
    decreases |ts|
  {
    if ts == [] then []
    else
      var init := ts[..|ts| - 1];
      var ks := Keys(init);
      assert IdSet(ts) == IdSet(init) + {ts[|ts| - 1].id};
      if ts[|ts| - 1].id in ks then ks else ks + [ts[|ts| - 1].id]
  }

  /** `task_dict[id]`: the last record carrying that id. */
  function Lookup(ts: seq<Task>, id: string): (t: Task)
    requires id in IdSet(ts)
    ensures t in ts && t.id == id
    decreases |ts|
  {
    var init := ts[..|ts| - 1];
    if ts[|ts| - 1].id == id then ts[|ts| - 1]
    else
      assert id in IdSet(init) by {
        var i :| 0 <= i < |ts| && ts[i].id == id;
        assert init[i] == ts[i];
      }
      Lookup(init, id)
  }

  /** With unique ids the keys are the list's ids in list order. */
  lemma {:induction false} KeysOfUnique(ts: seq<Task>)
    requires UniqueIds(ts)
    ensures Keys(ts) == Ids(ts)
    decreases |ts|
  {
    if ts != [] {
      var init := ts[..|ts| - 1];
      KeysOfUnique(init);
      assert Ids(ts) == Ids(init) + [ts[|ts| - 1].id];
      assert ts[|ts| - 1].id !in IdSet(init);
    }
  }

  /** With unique ids the record found for an id is the one in the list. */
  lemma {:induction false} LookupOfUnique(ts: seq<Task>, i: nat)
    requires UniqueIds(ts) && i < |ts|
    ensures ts[i].id in IdSet(ts) && Lookup(ts, ts[i].id) == ts[i]
    decreases |ts|
  {
    if i < |ts| - 1 {
      var init := ts[..|ts| - 1];
      assert init[i] == ts[i];
      LookupOfUnique(init, i);
    }
  }

  /** The entries of `ds` that name a task of the list, in order (`[d for d in ds if d in task_dict]`). */
  function PresentOnly(ts: seq<Task>, ds: seq<string>): (r: seq<string>)
    ensures |r| <= |ds|
    ensures forall x :: x in r <==> x in ds && x in IdSet(ts)
  {
    if ds == [] then []
    else (if ds[0] in IdSet(ts) then [ds[0]] else []) + PresentOnly(ts, ds[1..])
  }

  /** Filtering a list extended by one entry extends the filtered list by that entry when it
      names a task. */
  lemma {:induction false} PresentOnlySnoc(ts: seq<Task>, ds: seq<string>, x: string)
    ensures PresentOnly(ts, ds + [x]) == PresentOnly(ts, ds) + (if x in IdSet(ts) then [x] else [])
    decreases |ds|
  {
    if ds != [] {
      assert (ds + [x])[1..] == ds[1..] + [x];
      PresentOnlySnoc(ts, ds[1..], x);
    }
  }

  /** The in-set dependencies of task `id` (`valid_deps` in the level computation). */
  function ValidDeps(ts: seq<Task>, id: string): seq<string>
    requires id in IdSet(ts)
  {
    PresentOnly(ts, Lookup(ts, id).dependsOn)
  }

  /** Task `a` lists `b` in its `depends_on`, and both are tasks of the list. */
  ghost predicate DependsDirectly(ts: seq<Task>, a: string, b: string) {
    a in IdSet(ts) && b in IdSet(ts) && b in Lookup(ts, a).dependsOn
  }

  /** A chain of tasks of the list, listed dependencies first: each entry depends directly on
      the one before it. */
  ghost predicate IsChain(ts: seq<Task>, c: seq<string>) {
    && |c| >= 1
    && (forall k :: 0 <= k < |c| ==> c[k] in IdSet(ts))
    && (forall k :: 0 <= k < |c| - 1 ==> DependsDirectly(ts, c[k + 1], c[k]))
  }

  /** Following `depends_on` edges between tasks of the list from `from` leads to `to`
      (in zero or more steps). */
  ghost predicate Reaches(ts: seq<Task>, from: string, to: string) {
    exists c :: IsChain(ts, c) && c[0] == to && c[|c| - 1] == from
  }

  /** Some task of the list depends, through one or more edges, on itself. */
  ghost predicate HasCycle(ts: seq<Task>) {
    exists c :: IsChain(ts, c) && |c| >= 2 && c[0] == c[|c| - 1]
  }

  /** Sum of the hours of the records of the list (`total_duration_serial`). */
  function TotalHours(ts: seq<Task>): nat {
    if ts == [] then 0 else Hours(ts[0]) + TotalHours(ts[1..])
  }

  /** Sum of the hours of the indexed records named by `ids`. */
  function HoursOf(ts: seq<Task>, ids: seq<string>): nat
    requires forall k :: k in ids ==> k in IdSet(ts)
  {
    if ids == [] then 0 else Hours(Lookup(ts, ids[0])) + HoursOf(ts, ids[1..])
  }

  /** Summed hours split over a concatenation. */
  lemma {:induction false} HoursOfAppend(ts: seq<Task>, a: seq<string>, b: seq<string>)
    requires forall k :: k in a + b ==> k in IdSet(ts)
    ensures HoursOf(ts, a + b) == HoursOf(ts, a) + HoursOf(ts, b)
    decreases |a|
  {
    if a == [] {
      assert a + b == b;
    } else {
      assert (a + b)[1..] == a[1..] + b;
      HoursOfAppend(ts, a[1..], b);
    }
  }

  lemma HeadIn<T>(s: seq<T>)
    requires s != []
    ensures s[0] in s
  {
  }

  /** Dropping one entry of a list without repeats leaves a list without repeats holding the
      other entries. */
  lemma DistinctRemove<T>(b: seq<T>, j: nat)
    requires Distinct(b) && j < |b|
    ensures Distinct(b[..j] + b[j + 1..])
    ensures forall k :: k in b[..j] + b[j + 1..] <==> k in b && k != b[j]
  {
    var b' := b[..j] + b[j + 1..];
    forall p | 0 <= p < |b'| ensures b'[p] == b[if p < j then p else p + 1] {
    }
    forall k | k in b && k != b[j] ensures k in b' {
      var q :| 0 <= q < |b| && b[q] == k;
      if q < j { assert b'[q] == k; } else { assert b'[q - 1] == k; }
    }
  }

  /** Summed hours do not depend on the order of distinct ids. */
  lemma {:induction false} HoursOfReordered(ts: seq<Task>, a: seq<string>, b: seq<string>)
    requires Distinct(a) && Distinct(b)
    requires forall k :: k in a <==> k in b
    requires forall k :: k in a ==> k in IdSet(ts)
    ensures HoursOf(ts, a) == HoursOf(ts, b)
    decreases |a|
  {
    if a == [] {
      if b != [] {
        HeadIn(b);
        assert false;
      }
    } else {
      var x := a[0];
      assert x in b;
      var j :| 0 <= j < |b| && b[j] == x;
      var b' := b[..j] + b[j + 1..];
      assert b == b[..j] + [x] + b[j + 1..];
      HoursOfAppend(ts, b[..j] + [x], b[j + 1..]);
      HoursOfAppend(ts, b[..j], [x]);
      HoursOfAppend(ts, b[..j], b[j + 1..]);
      DistinctRemove(b, j);
      DistinctRemove(a, 0);
      var a' := a[1..];
      assert a[..0] + a[1..] == a';
      forall k ensures k in a' <==> k in b' {
        assert k in a' <==> k in a && k != x;
        assert k in b' <==> k in b && k != x;
      }
      HoursOfReordered(ts, a', b');
    }
  }

  /** With unique ids the serial total is the summed hours of the ids. */
  lemma {:induction false} TotalHoursOfUnique(ts: seq<Task>)
    requires UniqueIds(ts)
    ensures forall k :: k in Ids(ts) ==> k in IdSet(ts)
    ensures TotalHours(ts) == HoursOf(ts, Ids(ts))
  {
    var ids := Ids(ts);
    assert forall k :: k in ids ==> k in IdSet(ts);
    TotalFromHere(ts, 0);
    assert ids[0..] == ids;
  }

  lemma {:induction false} TotalFromHere(ts: seq<Task>, i: nat)
    requires UniqueIds(ts) && i <= |ts|
    ensures forall k :: k in Ids(ts)[i..] ==> k in IdSet(ts)
    ensures TotalHours(ts[i..]) == HoursOf(ts, Ids(ts)[i..])
    decreases |ts| - i
  {
    var ids := Ids(ts);
    assert forall k :: k in ids[i..] ==> k in IdSet(ts);
    if i < |ts| {
      TotalFromHere(ts, i + 1);
      assert ts[i..][1..] == ts[i + 1..];
      assert ids[i..][1..] == ids[i + 1..];
      LookupOfUnique(ts, i);
    }
  }

  /** The largest hours among the indexed records named by `ids`, or 0 for none. */
  function MaxHoursOf(ts: seq<Task>, ids: seq<string>): (m: nat)
    requires forall k :: k in ids ==> k in IdSet(ts)
    ensures ids == [] ==> m == 0
  {
    if ids == [] then 0
    else
      var h := Hours(Lookup(ts, ids[0]));
      var rest := MaxHoursOf(ts, ids[1..]);
      if h < rest then rest else h
  }

  /** No listed task takes longer than the largest hours, which are at most the summed hours. */
  lemma {:induction false} MaxHoursBound(ts: seq<Task>, ids: seq<string>)
    requires forall k :: k in ids ==> k in IdSet(ts)
    ensures forall k :: k in ids ==> Hours(Lookup(ts, k)) <= MaxHoursOf(ts, ids)
    ensures MaxHoursOf(ts, ids) <= HoursOf(ts, ids)
    decreases |ids|
  {
    if ids != [] {
      MaxHoursBound(ts, ids[1..]);
      forall k | k in ids ensures Hours(Lookup(ts, k)) <= MaxHoursOf(ts, ids) {
        if k != ids[0] { assert k in ids[1..]; }
      }
    }
  }

  /** The largest hours are those of some listed task. */
  lemma {:induction false} MaxHoursAttained(ts: seq<Task>, ids: seq<string>)
    requires ids != [] && forall k :: k in ids ==> k in IdSet(ts)
    ensures exists k :: k in ids && Hours(Lookup(ts, k)) == MaxHoursOf(ts, ids)
    decreases |ids|
  {
    if ids[1..] != [] && Hours(Lookup(ts, ids[0])) < MaxHoursOf(ts, ids[1..]) {
      MaxHoursAttained(ts, ids[1..]);
      var k :| k in ids[1..] && Hours(Lookup(ts, k)) == MaxHoursOf(ts, ids[1..]);
      assert k in ids;
    } else {
      assert ids[0] in ids;
    }
  }

  /** The largest hours of a list extended by one id. */
  lemma {:induction false} MaxHoursSnoc(ts: seq<Task>, ids: seq<string>, x: string)
    requires forall k :: k in ids + [x] ==> k in IdSet(ts)
    ensures var h := Hours(Lookup(ts, x));
      MaxHoursOf(ts, ids + [x]) == if h < MaxHoursOf(ts, ids) then MaxHoursOf(ts, ids) else h
    decreases |ids|
  {
    if ids != [] {
      assert (ids + [x])[1..] == ids[1..] + [x];
      MaxHoursSnoc(ts, ids[1..], x);
    }
  }
}
