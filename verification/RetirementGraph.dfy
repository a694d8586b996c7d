/**
 * Retirement of destination generations and destination runtimes. A retirement hook may
 * retire other generations and wait for them; such a wait is recorded as an edge only when
 * a search shows that it closes no cycle. The theorem is that the recorded relation stays
 * acyclic over every run, so retirements never wait for each other in a ring.
 */
module RetirementGraph {

  /** The waits recorded for each owner; the source keeps sets in a weak map. */
  type Dependencies = map<nat, set<nat>>

  function Waited(d: Dependencies, u: nat): set<nat> {
    if u in d then d[u] else {}
  }

  ghost predicate Walk(d: Dependencies, p: seq<nat>) {
    |p| > 0 && forall i, j :: 0 <= i < j < |p| && j == i + 1 ==> p[j] in Waited(d, p[i])
  }

  ghost predicate WalkFromTo(d: Dependencies, p: seq<nat>, u: nat, v: nat) {
    Walk(d, p) && p[0] == u && p[|p| - 1] == v
  }

  ghost predicate Reaches(d: Dependencies, u: nat, v: nat) {
    exists p :: WalkFromTo(d, p, u, v)
  }

  ghost predicate Acyclic(d: Dependencies) {
    forall u, v :: v in Waited(d, u) ==> !Reaches(d, v, u)
  }

  lemma {:induction false} ReachesSelf(d: Dependencies, u: nat)
    ensures Reaches(d, u, u)
  {
    assert WalkFromTo(d, [u], u, u);
  }

  lemma {:induction false} ReachesStep(d: Dependencies, u: nat, v: nat, w: nat)
    requires Reaches(d, u, v) && w in Waited(d, v)
    ensures Reaches(d, u, w)
  {
    var p :| WalkFromTo(d, p, u, v);
    assert WalkFromTo(d, p + [w], u, w);
  }

  lemma {:induction false} ReachesTrans(d: Dependencies, u: nat, v: nat, w: nat)
    requires Reaches(d, u, v) && Reaches(d, v, w)
    ensures Reaches(d, u, w)
  {
    var p :| WalkFromTo(d, p, u, v);
    var q :| WalkFromTo(d, q, v, w);
    assert WalkFromTo(d, p + q[1..], u, w);
  }

  /** A set closed under waiting holds everything its members reach. */
  lemma {:induction false} ClosedHoldsReached(d: Dependencies, inside: set<nat>, u: nat, v: nat)
    requires u in inside && Reaches(d, u, v)
    requires forall x, y :: x in inside && y in Waited(d, x) ==> y in inside
    ensures v in inside
  {
    var p :| WalkFromTo(d, p, u, v);
    var i := 0;
    while i + 1 < |p|
      invariant i < |p| && p[i] in inside
    {
      assert p[i + 1] in Waited(d, p[i]);
      i := i + 1;
    }
  }

  // ---------------------------------------------------------------- recording and removing

  function WithEdge(d: Dependencies, owner: nat, target: nat): Dependencies {
    d[owner := Waited(d, owner) + {target}]
  }

  /** Removing the last edge of an owner also removes its entry. */
  function WithoutEdge(d: Dependencies, owner: nat, target: nat): Dependencies {
    if Waited(d, owner) - {target} == {} then d - {owner} else d[owner := d[owner] - {target}]
  }

  /** With the new edge, a node is reached as before or by way of that edge. */
  lemma {:induction false} ReachesWithEdge(d: Dependencies, owner: nat, target: nat, p: seq<nat>)
    requires Walk(WithEdge(d, owner, target), p)
    ensures Reaches(d, p[0], p[|p| - 1]) || (Reaches(d, p[0], owner) && Reaches(d, target, p[|p| - 1]))
    decreases |p|
  {
    var last := p[|p| - 1];
    if |p| == 1 {
      ReachesSelf(d, last);
    } else {
      var front := p[..|p| - 1];
      var before := front[|front| - 1];
      ReachesWithEdge(d, owner, target, front);
      assert last in Waited(WithEdge(d, owner, target), before);
      if last in Waited(d, before) {
        if Reaches(d, p[0], before) {
          ReachesStep(d, p[0], before, last);
        } else {
          ReachesStep(d, target, before, last);
        }
      } else {
        ReachesSelf(d, target);
      }
    }
  }

  /** An edge that the search allows closes no cycle. */
  lemma {:induction false} AllowedEdgeKeepsAcyclic(d: Dependencies, owner: nat, target: nat)
    requires Acyclic(d) && !Reaches(d, target, owner)
    ensures Acyclic(WithEdge(d, owner, target))
  {
    var after := WithEdge(d, owner, target);
    forall u, v | v in Waited(after, u) ensures !Reaches(after, v, u) {
      if Reaches(after, v, u) {
        var p :| WalkFromTo(after, p, v, u);
        ReachesWithEdge(d, owner, target, p);
        if v in Waited(d, u) {
          if !Reaches(d, v, u) {
            ReachesStep(d, target, u, v);
            ReachesTrans(d, target, v, owner);
          }
        }
        assert false;
      }
    }
  }

  /** An edge that the search refuses would close one. */
  lemma {:induction false} RefusedEdgeClosesCycle(d: Dependencies, owner: nat, target: nat)
    requires Reaches(d, target, owner)
    ensures !Acyclic(WithEdge(d, owner, target))
  {
    var after := WithEdge(d, owner, target);
    var p :| WalkFromTo(d, p, target, owner);
    assert WalkFromTo(after, p, target, owner);
    assert target in Waited(after, owner);
  }

  lemma {:induction false} RemovalKeepsAcyclic(d: Dependencies, owner: nat, target: nat)
    requires Acyclic(d)
    ensures Acyclic(WithoutEdge(d, owner, target))
    ensures forall u, v :: v in Waited(WithoutEdge(d, owner, target), u) <==> v in Waited(d, u) && !(u == owner && v == target)
  {
    var after := WithoutEdge(d, owner, target);
    forall u, v | v in Waited(after, u) ensures !Reaches(after, v, u) {
      if Reaches(after, v, u) {
        FewerEdgesReachLess(d, after, v, u);
      }
    }
  }

  lemma {:induction false} FewerEdgesReachLess(d: Dependencies, fewer: Dependencies, u: nat, v: nat)
    requires forall x :: Waited(fewer, x) <= Waited(d, x)
    requires Reaches(fewer, u, v)
    ensures Reaches(d, u, v)
  {
    var p :| WalkFromTo(fewer, p, u, v);
    assert WalkFromTo(d, p, u, v);
  }

  /** Acyclic means that every nonempty set has a member that waits for none of the set. */
  lemma {:induction false} MemberWithoutWait(d: Dependencies, s: set<nat>) returns (x: nat)
    requires Acyclic(d) && s != {}
    ensures x in s && Waited(d, x) !! s
    decreases s
  {
    x :| x in s;
    if y :| y in Waited(d, x) && y in s {
      var reached := set z | z in s && Reaches(d, y, z);
      ReachesSelf(d, y);
      assert y in reached && x !in reached;
      var start := x;
      x := MemberWithoutWait(d, reached);
      forall w | w in Waited(d, x) ensures w !in s {
        ReachesStep(d, y, x, w);
      }
    }
  }

  // ---------------------------------------------------------------- the search

  /** The members of a set in some order; the order of a JavaScript set is not relied on. */
  method Listed(s: set<nat>) returns (r: seq<nat>)
    ensures forall x :: x in r <==> x in s
  {
    r := [];
    var rest := s;
    while rest != {}
      invariant rest <= s
      invariant forall x :: x in r <==> x in s - rest
    {
      var x :| x in rest;
      r := r + [x];
      rest := rest - {x};
    }
  }

  ghost predicate Searched(d: Dependencies, target: nat, pending: seq<nat>, visited: set<nat>) {
    && (target in visited || target in pending)
    && (forall x :: x in pending ==> Reaches(d, target, x))
    && (forall x :: x in visited ==> Reaches(d, target, x))
    && (forall x, y :: x in visited && y in Waited(d, x) ==> y in visited || y in pending)
  }

  lemma {:induction false} SearchedAfterVisit(d: Dependencies, target: nat, pending: seq<nat>, visited: set<nat>,
      more: seq<nat>)
    requires Searched(d, target, pending, visited) && |pending| > 0
    requires forall x :: x in more <==> x in Waited(d, pending[|pending| - 1])
    ensures Searched(d, target, pending[..|pending| - 1] + more, visited + {pending[|pending| - 1]})
  {
    var current := pending[|pending| - 1];
    var next := pending[..|pending| - 1] + more;
    assert current in pending;
    assert pending == pending[..|pending| - 1] + [current];
    forall x | x in next ensures Reaches(d, target, x) {
      if x in more {
        ReachesStep(d, target, current, x);
      }
    }
    forall x, y | x in visited + {current} && y in Waited(d, x) ensures y in visited + {current} || y in next {
      if x == current {
        assert y in more;
      } else if y !in visited {
        assert y in pending;
      }
    }
  }

  lemma {:induction false} SearchedAfterSkip(d: Dependencies, target: nat, pending: seq<nat>, visited: set<nat>)
    requires Searched(d, target, pending, visited) && |pending| > 0 && pending[|pending| - 1] in visited
    ensures Searched(d, target, pending[..|pending| - 1], visited)
  {
    assert pending == pending[..|pending| - 1] + [pending[|pending| - 1]];
  }

  /** Everything the search can meet. */
  ghost function Universe(d: Dependencies, target: nat): (r: set<nat>)
    ensures target in r && forall x :: Waited(d, x) <= r
  {
    {target} + set x, y | x in d && y in d[x] :: y
  }

  ghost predicate Within(pending: seq<nat>, visited: set<nat>, all: set<nat>) {
    visited <= all && forall x :: x in pending ==> x in all
  }

  lemma {:induction false} WithinAfterVisit(pending: seq<nat>, visited: set<nat>, more: seq<nat>, all: set<nat>)
    requires Within(pending, visited, all) && |pending| > 0 && pending[|pending| - 1] !in visited
    requires forall x :: x in more ==> x in all
    ensures Within(pending[..|pending| - 1] + more, visited + {pending[|pending| - 1]}, all)
    ensures |all - (visited + {pending[|pending| - 1]})| < |all - visited|
  {
    var current := pending[|pending| - 1];
    assert current in pending;
    SmallerSet(all - (visited + {current}), all - visited);
  }

  lemma {:induction false} NothingPending(d: Dependencies, owner: nat, target: nat, visited: set<nat>)
    requires Searched(d, target, [], visited) && owner !in visited
    ensures !Reaches(d, target, owner)
  {
    if Reaches(d, target, owner) {
      forall x, y | x in visited && y in Waited(d, x) ensures y in visited {}
      ClosedHoldsReached(d, visited, target, owner);
    }
  }

  /** Take the last pending node off the list and look at it, unless it was seen before. */
  method Visit(d: Dependencies, target: nat, pending: seq<nat>, visited: set<nat>, ghost all: set<nat>)
    returns (pendingAfter: seq<nat>, visitedAfter: set<nat>)
    requires Searched(d, target, pending, visited) && Within(pending, visited, all) && |pending| > 0
    requires forall x :: Waited(d, x) <= all
    ensures Searched(d, target, pendingAfter, visitedAfter) && Within(pendingAfter, visitedAfter, all)
    ensures visitedAfter == visited + {pending[|pending| - 1]}
    ensures |all - visitedAfter| < |all - visited| || (visitedAfter == visited && |pendingAfter| < |pending|)
  {
    var current := pending[|pending| - 1];
    if current in visited {
      SearchedAfterSkip(d, target, pending, visited);
      return pending[..|pending| - 1], visited;
    }
    var more := Listed(Waited(d, current));
    SearchedAfterVisit(d, target, pending, visited, more);
    WithinAfterVisit(pending, visited, more, all);
    return pending[..|pending| - 1] + more, visited + {current};
  }

  /** The worklist search answers exactly whether the owner is reachable from the target. */
  method JoinWouldCycle(d: Dependencies, owner: nat, target: nat) returns (cycle: bool)
    ensures cycle <==> Reaches(d, target, owner)
  {
    var pending := [target];
    var visited: set<nat> := {};
    ghost var all := Universe(d, target);
    ReachesSelf(d, target);
    while |pending| > 0
      invariant Searched(d, target, pending, visited) && owner !in visited
      invariant Within(pending, visited, all)
      decreases |all - visited|, |pending|
    {
      var current := pending[|pending| - 1];
      if current == owner {
        return true;
      }
      pending, visited := Visit(d, target, pending, visited, all);
    }
    NothingPending(d, owner, target, visited);
    return false;
  }

  lemma {:induction false} SmallerSet(a: set<nat>, b: set<nat>)
    requires a < b
    ensures |a| < |b|
  {
    var x :| x in b && x !in a;
    SubsetSize(a, b - {x});
  }

  lemma {:induction false} SubsetSize(a: set<nat>, b: set<nat>)
    requires a <= b
    ensures |a| <= |b|
    decreases a
  {
    if x :| x in a {
      SubsetSize(a - {x}, b - {x});
    }
  }
}
