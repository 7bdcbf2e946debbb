/** `ParallelDetector._has_dependency_between`: whether one of two tasks depends on the other,
    directly or through a chain of in-set `depends_on` edges, found by breadth-first search. */
module Reachability {
  import opened Tasks

  /** One of the two tasks depends on the other, directly or transitively. */
  ghost predicate Related(ts: seq<Task>, a: string, b: string) {
    Reaches(ts, a, b) || Reaches(ts, b, a)
  }

  /** Every task reaches itself by the empty chain. */
  lemma ReachesSelf(ts: seq<Task>, a: string)
    requires a in IdSet(ts)
    ensures Reaches(ts, a, a)
  {
    assert IsChain(ts, [a]);
  }

  /** A direct `depends_on` edge is a one-step chain. */
  lemma DirectReaches(ts: seq<Task>, a: string, b: string)
    requires DependsDirectly(ts, a, b)
    ensures Reaches(ts, a, b)
  {
    var c := [b, a];
    assert IsChain(ts, c);
  }

  /** A chain to `current` extends by one of its dependencies. */
  lemma ReachesStep(ts: seq<Task>, from: string, current: string, d: string)
    requires Reaches(ts, from, current) && DependsDirectly(ts, current, d)
    ensures Reaches(ts, from, d)
  {
    var c :| IsChain(ts, c) && c[0] == current && c[|c| - 1] == from;
    var c' := [d] + c;
    forall k | 0 <= k < |c'| - 1 ensures DependsDirectly(ts, c'[k + 1], c'[k]) {
      if k > 0 { assert c'[k + 1] == c[k] && c'[k] == c[k - 1]; }
    }
    assert IsChain(ts, c');
  }

  /** `s` holds the in-set dependencies of each of its members. */
  ghost predicate Closed(ts: seq<Task>, s: set<string>) {
    forall x :: x in s ==> x in IdSet(ts) && forall d :: d in ValidDeps(ts, x) ==> d in s
  }

  lemma {:induction false} ChainStaysIn(ts: seq<Task>, s: set<string>, c: seq<string>, k: nat)
    requires IsChain(ts, c) && Closed(ts, s) && c[|c| - 1] in s && k < |c|
    ensures c[k] in s
    decreases |c| - k
  {
    if k < |c| - 1 {
      ChainStaysIn(ts, s, c, k + 1);
      assert DependsDirectly(ts, c[k + 1], c[k]);
      assert c[k] in ValidDeps(ts, c[k + 1]);
    }
  }

  /** A closed set holding `from` holds everything `from` reaches. */
  lemma ClosedHoldsReached(ts: seq<Task>, s: set<string>, from: string, to: string)
    requires Closed(ts, s) && from in s && Reaches(ts, from, to)
    ensures to in s
  {
    var c :| IsChain(ts, c) && c[0] == to && c[|c| - 1] == from;
    ChainStaysIn(ts, s, c, 0);
  }

  /** The loop `for dep in depends_on: if dep in task_dict: queue.append(dep)`. */
  method Enqueue(ts: seq<Task>, queue: seq<string>, deps: seq<string>) returns (q: seq<string>)
    ensures q == queue + PresentOnly(ts, deps)
  {
    q := queue;
    var j := 0;
    while j < |deps|
      invariant 0 <= j <= |deps|
      invariant q == queue + PresentOnly(ts, deps[..j])
    {
      PresentOnlySnoc(ts, deps[..j], deps[j]);
      assert deps[..j + 1] == deps[..j] + [deps[j]];
      if deps[j] in IdSet(ts) {
        q := q + [deps[j]];
      }
      j := j + 1;
    }
    assert deps[..j] == deps;
  }

  /** `has_path(from, to)`: breadth-first search from `from` along in-set `depends_on` edges.
      It answers whether `from` depends on `to`, directly or transitively (or is `to`). */
  method HasPath(ts: seq<Task>, from: string, to: string) returns (r: bool)
    requires from in IdSet(ts)
    ensures r == Reaches(ts, from, to)
  {
    var visited: set<string> := {};
    var queue: seq<string> := [from];
    ReachesSelf(ts, from);
    while queue != []
      invariant forall x :: x in queue ==> x in IdSet(ts)
      invariant visited <= IdSet(ts)
      invariant forall x :: x in visited || x in queue ==> Reaches(ts, from, x)
      invariant to !in visited
      invariant forall x :: x in visited ==> forall d :: d in ValidDeps(ts, x) ==> d in visited || d in queue
      invariant from in visited || from in queue
      decreases |IdSet(ts) - visited|, |queue|
    {
      var current := queue[0];
      queue := queue[1..];
      if current == to {
        return true;
      }
      if current in visited {
        continue;
      }
      assert IdSet(ts) - (visited + {current}) < IdSet(ts) - visited;
      visited := visited + {current};
      ghost var q0 := queue;
      queue := Enqueue(ts, queue, Lookup(ts, current).dependsOn);
      forall d | d in queue ensures Reaches(ts, from, d) {
        if d !in q0 {
          ReachesStep(ts, from, current, d);
        }
      }
    }
    if Reaches(ts, from, to) {
      ClosedHoldsReached(ts, visited, from, to);
    }
    return false;
  }

  /** `_has_dependency_between(a, b)`: the direct check on both `depends_on` lists, then a
      search in each direction. */
  method HasDependencyBetween(ts: seq<Task>, a: string, b: string) returns (r: bool)
    requires a in IdSet(ts) && b in IdSet(ts)
    ensures r == Related(ts, a, b)
  {
    if b in Lookup(ts, a).dependsOn {
      DirectReaches(ts, a, b);
      return true;
    }
    if a in Lookup(ts, b).dependsOn {
      DirectReaches(ts, b, a);
      return true;
    }
    r := HasPath(ts, a, b);
    if !r {
      r := HasPath(ts, b, a);
    }
  }
}
