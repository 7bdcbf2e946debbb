/** `ParallelDetector._find_independent_groups`: a first-fit split of a list of task ids into
    groups whose members are pairwise unrelated. */
module Clusters {
  import opened Tasks
  import opened Reachability

  /** No member of `group` is related to `x` (the `can_add` check). */
  ghost predicate Independent(ts: seq<Task>, group: seq<string>, x: string) {
    forall e :: e in group ==> !Related(ts, e, x)
  }

  /** The inner loop: scanning `ids` from index `j`, each id not yet used that is unrelated to
      the whole group so far joins it. Returns the grown group and the grown `used` set. */
  ghost function Grow(ts: seq<Task>, ids: seq<string>, j: nat, group: seq<string>, used: set<string>): (seq<string>, set<string>)
    requires j <= |ids|
    decreases |ids| - j
  {
    if j == |ids| then (group, used)
    else if ids[j] in used then Grow(ts, ids, j + 1, group, used)
    else if Independent(ts, group, ids[j]) then Grow(ts, ids, j + 1, group + [ids[j]], used + {ids[j]})
    else Grow(ts, ids, j + 1, group, used)
  }

  /** The outer loop from index `i`: every id not yet used opens a group, grown over all of `ids`. */
  ghost function GroupsFrom(ts: seq<Task>, ids: seq<string>, i: nat, used: set<string>): seq<seq<string>>
    requires i <= |ids|
    decreases |ids| - i
  {
    if i == |ids| then []
    else if ids[i] in used then GroupsFrom(ts, ids, i + 1, used)
    else
      var (g, u) := Grow(ts, ids, 0, [ids[i]], used + {ids[i]});
      [g] + GroupsFrom(ts, ids, i + 1, u)
  }

  /** The groups `_find_independent_groups(ids)` returns. */
  ghost function IndependentGroups(ts: seq<Task>, ids: seq<string>): seq<seq<string>> {
    GroupsFrom(ts, ids, 0, {})
  }

  function Flatten(gs: seq<seq<string>>): seq<string> {
    if gs == [] then [] else gs[0] + Flatten(gs[1..])
  }

  lemma {:induction false} InFlatten(gs: seq<seq<string>>, x: string)
    ensures x in Flatten(gs) <==> exists k :: 0 <= k < |gs| && x in gs[k]
    decreases |gs|
  {
    if gs != [] {
      InFlatten(gs[1..], x);
      if x in Flatten(gs[1..]) {
        var k :| 0 <= k < |gs| - 1 && x in gs[1..][k];
        assert x in gs[k + 1];
      }
      if exists k :: 0 <= k < |gs| && x in gs[k] {
        var k :| 0 <= k < |gs| && x in gs[k];
        if k > 0 { assert x in gs[1..][k - 1]; }
      }
    }
  }

  /** Members of `g` from index `from` on are unrelated to every member before them. */
  ghost predicate PairwiseFrom(ts: seq<Task>, g: seq<string>, from: nat) {
    forall a, b :: 0 <= a < b < |g| && from <= b ==> !Related(ts, g[a], g[b])
  }

  /** What one run of the inner loop does to the group: it only grows, by distinct unused ids of
      the list, each becoming used. */
  lemma {:induction false} GrowShape(ts: seq<Task>, ids: seq<string>, j: nat, group: seq<string>, used: set<string>)
    requires j <= |ids|
    requires Distinct(group) && forall x :: x in group ==> x in used
    ensures var (g, u) := Grow(ts, ids, j, group, used);
      && |group| <= |g| && g[..|group|] == group
      && Distinct(g)
      && (forall x :: x in u <==> x in used || x in g)
      && (forall k :: |group| <= k < |g| ==> g[k] !in used && g[k] in ids)
    decreases |ids| - j
  {
    if j < |ids| {
      var x := ids[j];
      if x in used {
        GrowShape(ts, ids, j + 1, group, used);
      } else if Independent(ts, group, x) {
        var group' := group + [x];
        GrowShape(ts, ids, j + 1, group', used + {x});
        var (g, u) := Grow(ts, ids, j, group, used);
        assert g[..|group'|] == group';
        assert g[..|group|] == group'[..|group|];
        assert g[|group|] == x;
      } else {
        GrowShape(ts, ids, j + 1, group, used);
      }
    }
  }

  /** Every id the inner loop adds is unrelated to all members before it. */
  lemma {:induction false} GrowPairwise(ts: seq<Task>, ids: seq<string>, j: nat, group: seq<string>, used: set<string>)
    requires j <= |ids|
    requires Distinct(group) && forall x :: x in group ==> x in used
    ensures PairwiseFrom(ts, Grow(ts, ids, j, group, used).0, |group|)
    decreases |ids| - j
  {
    if j < |ids| {
      var x := ids[j];
      if x in used {
        GrowPairwise(ts, ids, j + 1, group, used);
      } else if Independent(ts, group, x) {
        var group' := group + [x];
        GrowPairwise(ts, ids, j + 1, group', used + {x});
        GrowShape(ts, ids, j + 1, group', used + {x});
        var g := Grow(ts, ids, j, group, used).0;
        assert g[..|group'|] == group';
        forall a, b | 0 <= a < b < |g| && |group| <= b ensures !Related(ts, g[a], g[b]) {
          if b == |group| {
            assert g[b] == group'[b] == x;
            assert g[a] == group'[a] == group[a];
          }
        }
      } else {
        GrowPairwise(ts, ids, j + 1, group, used);
      }
    }
  }

  /** Every unused id of the list from `j` on ends in the group or is related to a member of it. */
  lemma {:induction false} GrowMaximal(ts: seq<Task>, ids: seq<string>, j: nat, group: seq<string>, used: set<string>)
    requires j <= |ids|
    requires Distinct(group) && forall x :: x in group ==> x in used
    ensures var g := Grow(ts, ids, j, group, used).0;
      forall k :: j <= k < |ids| && ids[k] !in used ==> ids[k] in g || !Independent(ts, g, ids[k])
    decreases |ids| - j
  {
    if j < |ids| {
      var x := ids[j];
      if x in used {
        GrowMaximal(ts, ids, j + 1, group, used);
      } else if Independent(ts, group, x) {
        var group' := group + [x];
        GrowMaximal(ts, ids, j + 1, group', used + {x});
        GrowShape(ts, ids, j + 1, group', used + {x});
        var g := Grow(ts, ids, j, group, used).0;
        assert g[..|group'|] == group';
        assert x in g by { assert g[|group|] == x; }
      } else {
        GrowMaximal(ts, ids, j + 1, group, used);
        GrowShape(ts, ids, j + 1, group, used);
        var g := Grow(ts, ids, j, group, used).0;
        assert !Independent(ts, g, x) by {
          var e :| e in group && Related(ts, e, x);
          assert e in g[..|group|];
        }
      }
    }
  }

  ghost predicate GroupsOk(ts: seq<Task>, ids: seq<string>, used: set<string>, groups: seq<seq<string>>) {
    && (forall k :: 0 <= k < |groups| ==> groups[k] != [])
    && Distinct(Flatten(groups))
    && (forall x :: x in Flatten(groups) <==> x in ids && x !in used)
    && (forall k :: 0 <= k < |groups| ==> PairwiseFrom(ts, groups[k], 0))
    && (forall k, l, x :: 0 <= k < l < |groups| && x in groups[l] ==> !Independent(ts, groups[k], x))
  }

  lemma DistinctConcat(a: seq<string>, b: seq<string>)
    requires Distinct(a) && Distinct(b) && forall x :: x in a ==> x !in b
    ensures Distinct(a + b)
  {
    forall i, j | 0 <= i < j < |a + b| ensures (a + b)[i] != (a + b)[j] {
      if i < |a| && |a| <= j {
        assert (a + b)[i] in a && (a + b)[j] in b;
      }
    }
  }

  lemma {:induction false} GroupsFromFacts(ts: seq<Task>, ids: seq<string>, i: nat, used: set<string>)
    requires i <= |ids|
    requires forall k :: 0 <= k < i ==> ids[k] in used
    ensures GroupsOk(ts, ids, used, GroupsFrom(ts, ids, i, used))
    decreases |ids| - i
  {
    var groups := GroupsFrom(ts, ids, i, used);
    if i == |ids| {
      forall x | x in ids ensures x in used {
        var k :| 0 <= k < |ids| && ids[k] == x;
      }
    } else if ids[i] in used {
      GroupsFromFacts(ts, ids, i + 1, used);
    } else {
      var x := ids[i];
      var used0 := used + {x};
      GrowShape(ts, ids, 0, [x], used0);
      GrowPairwise(ts, ids, 0, [x], used0);
      GrowMaximal(ts, ids, 0, [x], used0);
      var (g, u) := Grow(ts, ids, 0, [x], used0);
      assert g[..1] == [x];
      GroupsFromFacts(ts, ids, i + 1, u);
      var rest := GroupsFrom(ts, ids, i + 1, u);
      assert groups == [g] + rest;
      assert Flatten(groups) == g + Flatten(rest) by {
        assert ([g] + rest)[1..] == rest;
      }
      assert forall y :: y in g ==> y in ids && y !in used by {
        forall y | y in g ensures y in ids && y !in used {
          var k :| 0 <= k < |g| && g[k] == y;
          if k == 0 { assert y == x; }
        }
      }
      assert g[0] == g[..1][0] == x;
      forall y ensures y in Flatten(groups) <==> y in ids && y !in used {
        if y in ids && y !in used && y !in g {
          assert y != x;
          assert y !in u;
        }
      }
      DistinctConcat(g, Flatten(rest));
      forall k, l, y | 0 <= k < l < |groups| && y in groups[l] ensures !Independent(ts, groups[k], y) {
        if k == 0 {
          assert y in rest[l - 1];
          InFlatten(rest, y);
          var m :| 0 <= m < |ids| && ids[m] == y;
          assert y !in used0;
        } else {
          assert groups[k] == rest[k - 1] && groups[l] == rest[l - 1];
        }
      }
      forall k | 0 <= k < |groups| ensures groups[k] != [] && PairwiseFrom(ts, groups[k], 0) {
        if k == 0 {
          forall a, b | 0 <= a < b < |g| ensures !Related(ts, g[a], g[b]) {
          }
        } else {
          assert groups[k] == rest[k - 1];
        }
      }
    }
  }

  /** The groups partition the ids: every id of the list is in exactly one group. */
  lemma GroupsPartition(ts: seq<Task>, ids: seq<string>)
    ensures var groups := IndependentGroups(ts, ids);
      && Distinct(Flatten(groups))
      && (forall x :: x in Flatten(groups) <==> x in ids)
  {
    GroupsFromFacts(ts, ids, 0, {});
  }

  /** For distinct ids the groups hold each id exactly once: their concatenation is a
      permutation of the list. */
  lemma GroupsPermutation(ts: seq<Task>, ids: seq<string>)
    requires Distinct(ids)
    ensures multiset(Flatten(IndependentGroups(ts, ids))) == multiset(ids)
  {
    GroupsPartition(ts, ids);
    DistinctSameElements(Flatten(IndependentGroups(ts, ids)), ids);
  }

  lemma {:induction false} DistinctCounts(a: seq<string>)
    requires Distinct(a)
    ensures forall x :: multiset(a)[x] == if x in a then 1 else 0
    decreases |a|
  {
    if a != [] {
      assert a == [a[0]] + a[1..];
      DistinctCounts(a[1..]);
      assert a[0] !in a[1..];
    }
  }

  lemma DistinctSameElements(a: seq<string>, b: seq<string>)
    requires Distinct(a) && Distinct(b) && forall x :: x in a <==> x in b
    ensures multiset(a) == multiset(b)
  {
    DistinctCounts(a);
    DistinctCounts(b);
    assert forall x :: multiset(a)[x] == multiset(b)[x];
  }

  /** Every group is non-empty and its members are pairwise unrelated. */
  lemma GroupsIndependent(ts: seq<Task>, ids: seq<string>)
    ensures forall k :: 0 <= k < |IndependentGroups(ts, ids)| ==> IndependentGroups(ts, ids)[k] != []
    ensures forall k, a, b :: (0 <= k < |IndependentGroups(ts, ids)| && 0 <= a < |IndependentGroups(ts, ids)[k]| && 0 <= b < |IndependentGroups(ts, ids)[k]| && a != b
      ==> !Related(ts, IndependentGroups(ts, ids)[k][a], IndependentGroups(ts, ids)[k][b]))
  {
    var groups := IndependentGroups(ts, ids);
    GroupsFromFacts(ts, ids, 0, {});
    forall k, a, b | 0 <= k < |groups| && 0 <= a < |groups[k]| && 0 <= b < |groups[k]| && a != b
      ensures !Related(ts, groups[k][a], groups[k][b])
    {
      assert PairwiseFrom(ts, groups[k], 0);
      if b < a {
        assert !Related(ts, groups[k][b], groups[k][a]);
      }
    }
  }

  /** First fit: a member of a later group is related to some member of every earlier group. */
  lemma GroupsFirstFit(ts: seq<Task>, ids: seq<string>, k: nat, l: nat, x: string)
    requires k < l < |IndependentGroups(ts, ids)| && x in IndependentGroups(ts, ids)[l]
    ensures exists e :: e in IndependentGroups(ts, ids)[k] && Related(ts, e, x)
  {
    var groups := IndependentGroups(ts, ids);
    GroupsFromFacts(ts, ids, 0, {});
    assert !Independent(ts, groups[k], x);
  }

  lemma {:induction false} GrowTakesAll(ts: seq<Task>, ids: seq<string>, j: nat)
    requires 1 <= j <= |ids| && Distinct(ids)
    requires forall a, b :: 0 <= a < |ids| && 0 <= b < |ids| && a != b ==> !Related(ts, ids[a], ids[b])
    ensures Grow(ts, ids, j, ids[..j], Taken(ids, j)) == (ids, Taken(ids, |ids|))
    decreases |ids| - j
  {
    if j == |ids| {
      assert ids[..j] == ids;
    } else {
      var used := Taken(ids, j);
      assert ids[j] !in used;
      forall e | e in ids[..j] ensures !Related(ts, e, ids[j]) {
        var a :| 0 <= a < j && ids[..j][a] == e;
        assert ids[a] == e;
      }
      assert Grow(ts, ids, j, ids[..j], used) == Grow(ts, ids, j + 1, ids[..j] + [ids[j]], used + {ids[j]});
      assert ids[..j] + [ids[j]] == ids[..j + 1];
      PrefixSetStep(ids, j);
      GrowTakesAll(ts, ids, j + 1);
    }
  }

  /** The ids at the first `j` positions. */
  function Taken(ids: seq<string>, j: nat): set<string>
    requires j <= |ids|
  {
    set k | 0 <= k < j :: ids[k]
  }

  lemma PrefixSetStep(ids: seq<string>, j: nat)
    requires j < |ids|
    ensures Taken(ids, j) + {ids[j]} == Taken(ids, j + 1)
  {
  }

  lemma {:induction false} NothingLeft(ts: seq<Task>, ids: seq<string>, i: nat, used: set<string>)
    requires i <= |ids| && forall k :: i <= k < |ids| ==> ids[k] in used
    ensures GroupsFrom(ts, ids, i, used) == []
    decreases |ids| - i
  {
    if i < |ids| {
      NothingLeft(ts, ids, i + 1, used);
    }
  }

  /** When no two of the (distinct) ids are related, they all form a single group. */
  lemma OneGroupWhenUnrelated(ts: seq<Task>, ids: seq<string>)
    requires ids != [] && Distinct(ids)
    requires forall a, b :: 0 <= a < |ids| && 0 <= b < |ids| && a != b ==> !Related(ts, ids[a], ids[b])
    ensures IndependentGroups(ts, ids) == [ids]
  {
    assert [ids[0]] == ids[..1];
    assert {ids[0]} == Taken(ids, 1);
    GrowTakesAll(ts, ids, 1);
    var all := Taken(ids, |ids|);
    var none: set<string> := {};
    assert none + {ids[0]} == {ids[0]};
    assert Grow(ts, ids, 0, [ids[0]], {ids[0]}) == Grow(ts, ids, 1, [ids[0]], {ids[0]});
    NothingLeft(ts, ids, 1, all);
  }

  // ---------------------------------------------------------------------------------------

  /** The `can_add` loop: no member of `group` has a dependency relation with `other`. */
  method CanAdd(ts: seq<Task>, group: seq<string>, other: string) returns (b: bool)
    requires other in IdSet(ts) && forall e :: e in group ==> e in IdSet(ts)
    ensures b == Independent(ts, group, other)
  {
    var k := 0;
    while k < |group|
      invariant 0 <= k <= |group|
      invariant Independent(ts, group[..k], other)
    {
      var rel := HasDependencyBetween(ts, group[k], other);
      if rel {
        return false;
      }
      assert group[..k + 1] == group[..k] + [group[k]];
      k := k + 1;
    }
    assert group[..k] == group;
    return true;
  }

  /** `_find_independent_groups(task_ids)` */
  method FindIndependentGroups(ts: seq<Task>, ids: seq<string>) returns (groups: seq<seq<string>>)
    requires forall x :: x in ids ==> x in IdSet(ts)
    ensures groups == IndependentGroups(ts, ids)
  {
    if |ids| <= 1 {
      if ids == [] {
        return [];
      }
      var none: set<string> := {};
      assert none + {ids[0]} == {ids[0]};
      assert Grow(ts, ids, 0, [ids[0]], {ids[0]}) == Grow(ts, ids, 1, [ids[0]], {ids[0]});
      assert Grow(ts, ids, 1, [ids[0]], {ids[0]}) == ([ids[0]], {ids[0]});
      assert GroupsFrom(ts, ids, 1, {ids[0]}) == [];
      assert [ids[0]] == ids;
      return [ids];
    }
    groups := [];
    var used: set<string> := {};
    var i := 0;
    while i < |ids|
      invariant 0 <= i <= |ids|
      invariant IndependentGroups(ts, ids) == groups + GroupsFrom(ts, ids, i, used)
    {
      var x := ids[i];
      if x in used {
        i := i + 1;
        continue;
      }
      var group := [x];
      used := used + {x};
      ghost var start := (group, used);
      var j := 0;
      while j < |ids|
        invariant 0 <= j <= |ids|
        invariant forall e :: e in group ==> e in IdSet(ts)
        invariant Grow(ts, ids, 0, start.0, start.1) == Grow(ts, ids, j, group, used)
      {
        var other := ids[j];
        if other !in used {
          var ok := CanAdd(ts, group, other);
          if ok {
            group := group + [other];
            used := used + {other};
          }
        }
        j := j + 1;
      }
      groups := groups + [group];
      i := i + 1;
    }
  }
}
