/**
 * The depth of the component graph: components are taken once all their reachable
 * predecessors have been taken, and each passes its depth on to its successors.
 */
module LongestChains {
  import opened FinishOrder
  import opened Condensation

  ghost function Preds(adj: ComponentGraph, sources: set<nat>, t: nat): set<nat>
    requires forall s :: s in sources ==> s < |adj|
  {
    set s | s in sources && t in adj[s]
  }

  ghost function Taken(queue: seq<nat>, cursor: nat): set<nat>
    requires cursor <= |queue|
  {
    set c | c in queue[..cursor]
  }

  lemma {:induction false} PredsShrink(adj: ComponentGraph, sources: set<nat>, source: nat, t: nat)
    requires forall s :: s in sources ==> s < |adj|
    requires source in sources
    ensures |Preds(adj, sources - {source}, t)| == |Preds(adj, sources, t)| - (if t in adj[source] then 1 else 0)
  {
    if t in adj[source] {
      assert Preds(adj, sources, t) == Preds(adj, sources - {source}, t) + {source};
    } else {
      assert Preds(adj, sources, t) == Preds(adj, sources - {source}, t);
    }
  }

  /** For every reachable component, the number of reachable components that refer to it. */
  method Indegrees(adj: ComponentGraph, reachable: set<nat>) returns (indegree: array<int>)
    requires Forward(adj) && forall c :: c in reachable ==> c < |adj|
    ensures fresh(indegree) && indegree.Length == |adj|
    ensures forall t: nat :: t < |adj| && t in reachable ==> indegree[t] == |Preds(adj, reachable, t)|
  {
    indegree := new int[|adj|](_ => 0);
    var rest := reachable;
    while rest != {}
      invariant rest <= reachable
      invariant forall t: nat :: t < |adj| && t in reachable ==> indegree[t] == |Preds(adj, reachable - rest, t)|
    {
      var source :| source in rest;
      var targets := Elements(adj[source]);
      ghost var before := indegree[..];
      for k := 0 to |targets|
        invariant forall t: nat :: t < |adj| && t in reachable ==>
                    indegree[t] == before[t] + (if t in targets[..k] then 1 else 0)
      {
        var target := targets[k];
        assert target in targets;
        assert targets[..k + 1] == targets[..k] + [target];
        assert target !in targets[..k];
        if target in reachable {
          indegree[target] := indegree[target] + 1;
        }
      }
      assert targets[..|targets|] == targets;
      forall t: nat | t < |adj| && t in reachable
        ensures indegree[t] == |Preds(adj, reachable - (rest - {source}), t)|
      {
        assert reachable - (rest - {source}) == (reachable - rest) + {source};
        PredsShrink(adj, (reachable - rest) + {source}, source, t);
        assert ((reachable - rest) + {source}) - {source} == reachable - rest;
      }
      rest := rest - {source};
    }
    assert reachable - rest == reachable;
  }

  /** The state of the depth search after the first cursor components of the queue. */
  ghost predicate DepthInv(adj: ComponentGraph, roots: set<nat>, reachable: set<nat>, queue: seq<nat>, cursor: nat,
                           depth: seq<nat>, indegree: seq<int>, maximumDepth: nat)
  {
    && Forward(adj) && RootClosed(adj, roots, reachable)
    && |depth| == |indegree| == |adj|
    && Distinct(queue) && cursor <= |queue|
    && (forall c :: c in queue ==> c in reachable && c < |adj|)
    && (forall c :: c in queue ==> depth[c] >= 1)
    && QueueSound(adj, reachable, queue, Taken(queue, cursor), indegree)
    && DepthSound(adj, roots, Taken(queue, cursor), depth, maximumDepth)
  }

  ghost predicate QueueSound(adj: ComponentGraph, reachable: set<nat>, queue: seq<nat>, taken: set<nat>,
      indegree: seq<int>)
  {
    && (forall c :: c in reachable ==> c < |adj|) && |indegree| == |adj|
    && (forall t: nat :: t in reachable ==> indegree[t] == |Preds(adj, reachable - taken, t)|)
    && (forall t: nat :: t in reachable ==> (t in queue <==> indegree[t] == 0))
  }

  ghost predicate ChainOfLength(adj: ComponentGraph, roots: set<nat>, t: nat, length: nat) {
    exists p :: RootChainTo(adj, roots, p, t) && |p| == length
  }

  /** A depth stands for a chain of that many components. */
  ghost predicate DepthWitness(adj: ComponentGraph, roots: set<nat>, depth: seq<nat>) {
    |depth| == |adj| &&
    forall t: nat {:trigger ChainOfLength(adj, roots, t, depth[t])} :: t < |adj| && depth[t] > 0 ==>
      ChainOfLength(adj, roots, t, depth[t])
  }

  /** Roots have a depth, and taken components have passed theirs on. */
  ghost predicate DepthFloor(adj: ComponentGraph, roots: set<nat>, taken: set<nat>, depth: seq<nat>) {
    && |depth| == |adj| && (forall s: nat :: s in taken ==> s < |adj|)
    && (forall t: nat {:trigger depth[t]} :: t in roots && t < |adj| ==> depth[t] >= 1)
    && (forall s: nat, t: nat {:trigger depth[t], adj[s]} :: s in taken && t < |adj| && t in adj[s] ==> depth[t] >= depth[s] + 1)
  }

  /** No chain to a taken component is longer than its depth. */
  ghost predicate DepthCeiling(adj: ComponentGraph, roots: set<nat>, taken: set<nat>, depth: seq<nat>, maximumDepth: nat) {
    && |depth| == |adj| && (forall s: nat :: s in taken ==> s < |adj|)
    && (forall s: nat :: s in taken ==> 1 <= depth[s] <= maximumDepth)
    && (forall s: nat, p :: s in taken && RootChainTo(adj, roots, p, s) ==> |p| <= depth[s])
  }

  ghost predicate MaximumWitness(adj: ComponentGraph, roots: set<nat>, maximumDepth: nat) {
    maximumDepth > 0 ==> exists p :: ChainFromRoot(adj, roots, p) && |p| == maximumDepth
  }

  ghost predicate DepthSound(adj: ComponentGraph, roots: set<nat>, taken: set<nat>, depth: seq<nat>, maximumDepth: nat) {
    && DepthWitness(adj, roots, depth)
    && DepthFloor(adj, roots, taken, depth)
    && DepthCeiling(adj, roots, taken, depth, maximumDepth)
    && MaximumWitness(adj, roots, maximumDepth)
  }

  /** Nothing that is still to be taken refers to a component whose turn has come. */
  lemma {:induction false} AllPredsTaken(adj: ComponentGraph, reachable: set<nat>, queue: seq<nat>, taken: set<nat>,
      indegree: seq<int>, c: nat, s: nat)
    requires QueueSound(adj, reachable, queue, taken, indegree)
    requires c in reachable && c in queue && s in reachable && c in adj[s]
    ensures s in taken
  {
    assert |Preds(adj, reachable - taken, c)| == 0;
    assert s !in Preds(adj, reachable - taken, c);
  }

  /** When its turn comes, a component has a depth, and no chain to it is longer. */
  lemma {:induction false} TurnHasDepth(adj: ComponentGraph, roots: set<nat>, reachable: set<nat>, queue: seq<nat>,
      taken: set<nat>,
                     depth: seq<nat>, indegree: seq<int>, maximumDepth: nat, c: nat, p: seq<nat>)
    requires Forward(adj) && RootClosed(adj, roots, reachable)
    requires QueueSound(adj, reachable, queue, taken, indegree)
    requires DepthFloor(adj, roots, taken, depth) && DepthCeiling(adj, roots, taken, depth, maximumDepth)
    requires c in reachable && c in queue && RootChainTo(adj, roots, p, c)
    ensures 1 <= |p| <= depth[c]
  {
    if |p| > 1 {
      var q := p[..|p| - 1];
      DropLast(adj, roots, p);
      var s := q[|q| - 1];
      ChainStays(adj, roots, reachable, q, |q| - 1);
      AllPredsTaken(adj, reachable, queue, taken, indegree, c, s);
      assert RootChainTo(adj, roots, q, s);
    }
  }

  lemma {:induction false} DropLast(adj: ComponentGraph, roots: set<nat>, p: seq<nat>)
    requires ChainFromRoot(adj, roots, p) && |p| > 1
    ensures ChainFromRoot(adj, roots, p[..|p| - 1]) && p[|p| - 1] in adj[p[|p| - 2]]
  {}

  function Max(a: nat, b: nat): nat {
    if a < b then b else a
  }

  ghost predicate Relaxed(adj: ComponentGraph, source: nat, depth: seq<nat>, depth': seq<nat>) {
    && source < |adj| == |depth| == |depth'|
    && forall t: nat :: t < |adj| ==>
         depth'[t] == if t in adj[source] then Max(depth[t], depth[source] + 1) else depth[t]
  }

  lemma {:induction false} DepthStep(adj: ComponentGraph, roots: set<nat>, reachable: set<nat>, queue: seq<nat>,
      taken: set<nat>,
                  depth: seq<nat>, indegree: seq<int>, maximumDepth: nat, source: nat, depth': seq<nat>)
    requires Forward(adj) && RootClosed(adj, roots, reachable)
    requires QueueSound(adj, reachable, queue, taken, indegree)
    requires DepthSound(adj, roots, taken, depth, maximumDepth)
    requires taken <= reachable && forall c :: c in taken ==> c in queue
    requires source in reachable && source in queue && source !in taken && Relaxed(adj, source, depth, depth')
    requires depth[source] > 0
    ensures DepthSound(adj, roots, taken + {source}, depth', Max(maximumDepth, depth[source]))
  {
    forall s: nat | s in taken ensures s !in adj[source] {
      if s in adj[source] {
        AllPredsTaken(adj, reachable, queue, taken, indegree, s, source);
      }
    }
    DepthStepWitness(adj, roots, depth, source, depth', maximumDepth);
    assert DepthFloor(adj, roots, taken + {source}, depth');
    forall p | RootChainTo(adj, roots, p, source) ensures |p| <= depth'[source] {
      TurnHasDepth(adj, roots, reachable, queue, taken, depth, indegree, maximumDepth, source, p);
    }
    assert DepthCeiling(adj, roots, taken + {source}, depth', Max(maximumDepth, depth[source]));
  }

  lemma {:induction false} DepthStepWitness(adj: ComponentGraph, roots: set<nat>, depth: seq<nat>, source: nat,
      depth': seq<nat>, maximumDepth: nat)
    requires Forward(adj) && DepthWitness(adj, roots, depth) && MaximumWitness(adj, roots, maximumDepth)
    requires Relaxed(adj, source, depth, depth') && depth[source] > 0
    ensures DepthWitness(adj, roots, depth') && MaximumWitness(adj, roots, Max(maximumDepth, depth[source]))
  {
    assert ChainOfLength(adj, roots, source, depth[source]);
    var p :| RootChainTo(adj, roots, p, source) && |p| == depth[source];
    forall t: nat | t < |adj| && depth'[t] > 0 ensures ChainOfLength(adj, roots, t, depth'[t]) {
      if depth'[t] == depth[t] {
        assert ChainOfLength(adj, roots, t, depth[t]);
      } else {
        ExtendChain(adj, roots, source, t, p);
      }
    }
  }

  lemma {:induction false} QueueStep(adj: ComponentGraph, reachable: set<nat>, queue: seq<nat>, taken: set<nat>,
      indegree: seq<int>,
                  source: nat, indegree': seq<int>, added: seq<nat>)
    requires QueueSound(adj, reachable, queue, taken, indegree) && |indegree'| == |adj|
    requires source in reachable && source !in taken
    requires forall t: nat :: t in reachable ==> indegree'[t] == indegree[t] - (if t in adj[source] then 1 else 0)
    requires forall t: nat :: t in added <==> t in reachable && t in adj[source] && indegree'[t] == 0
    ensures QueueSound(adj, reachable, queue + added, taken + {source}, indegree')
    ensures forall t :: t in added ==> t !in queue
  {
    forall t: nat | t in reachable ensures indegree'[t] == |Preds(adj, reachable - (taken + {source}), t)| {
      PredsShrink(adj, reachable - taken, source, t);
      assert reachable - (taken + {source}) == (reachable - taken) - {source};
    }
  }

  lemma {:induction false} TakeNext(queue: seq<nat>, cursor: nat, added: seq<nat>)
    requires cursor < |queue| && Distinct(queue) && Distinct(added)
    requires forall t :: t in added ==> t !in queue
    ensures Taken(queue + added, cursor + 1) == Taken(queue, cursor) + {queue[cursor]}
    ensures queue[cursor] in queue && queue[cursor] !in Taken(queue, cursor)
    ensures Distinct(queue + added)
  {
    assert (queue + added)[..cursor + 1] == queue[..cursor] + [queue[cursor]];
    assert forall i :: 0 <= i < |added| ==> added[i] in added;
  }

  /** Pass the source's depth on and count down its targets; the targets now ready are added. */
  method Relax(adj: ComponentGraph, reachable: set<nat>, source: nat, depth: array<nat>, indegree: array<int>)
    returns (added: seq<nat>)
    requires Forward(adj) && source in reachable && (forall c :: c in reachable ==> c < |adj|)
    requires depth.Length == indegree.Length == |adj|
    modifies depth, indegree
    ensures source !in adj[source]
    ensures forall t: nat :: t < |adj| ==>
              depth[t] == if t in adj[source] && t in reachable then Max(old(depth[t]), old(depth[source]) + 1) else old(depth[t])
    ensures forall t: nat :: t in reachable ==> indegree[t] == old(indegree[t]) - (if t in adj[source] then 1 else 0)
    ensures Distinct(added)
    ensures forall t: nat :: t in added <==> t in reachable && t in adj[source] && indegree[t] == 0
  {
    var targets := Elements(adj[source]);
    added := [];
    for k := 0 to |targets|
      invariant forall t: nat :: t < |adj| ==>
                  depth[t] == if t in targets[..k] && t in reachable then Max(old(depth[t]), old(depth[source]) + 1) else old(depth[t])
      invariant forall t: nat :: t in reachable ==>
                  indegree[t] == old(indegree[t]) - (if t in targets[..k] then 1 else 0)
      invariant Distinct(added)
      invariant forall t: nat :: t in added <==> t in reachable && t in targets[..k] && indegree[t] == 0
    {
      var target := targets[k];
      assert target in targets && source !in targets;
      assert target !in targets[..k];
      assert targets[..k + 1] == targets[..k] + [target];
      if target in reachable {
        depth[target] := Max(depth[target], depth[source] + 1);
        indegree[target] := indegree[target] - 1;
        if indegree[target] == 0 {
          added := added + [target];
        }
      }
    }
    assert targets[..|targets|] == targets;
  }

  /** Once the queue is used up, every reachable component has been taken. */
  lemma {:induction false} QueueEmptied(adj: ComponentGraph, reachable: set<nat>, queue: seq<nat>, indegree: seq<int>,
      c: nat)
    requires Forward(adj) && QueueSound(adj, reachable, queue, Taken(queue, |queue|), indegree)
    requires c in reachable
    ensures c in Taken(queue, |queue|)
    decreases c
  {
    var taken := Taken(queue, |queue|);
    forall s: nat | s in reachable && c in adj[s] ensures s in taken {
      QueueEmptied(adj, reachable, queue, indegree, s);
    }
    assert Preds(adj, reachable - taken, c) == {};
    assert queue[..|queue|] == queue;
  }

  /** One turn: the next component of the queue is taken and passes its depth on. */
  lemma {:induction false} TurnStep(adj: ComponentGraph, roots: set<nat>, reachable: set<nat>, queue: seq<nat>, cursor: nat,
                 depth: seq<nat>, indegree: seq<int>, maximumDepth: nat,
                 depth': seq<nat>, indegree': seq<int>, added: seq<nat>)
    requires cursor < |queue| && DepthInv(adj, roots, reachable, queue, cursor, depth, indegree, maximumDepth)
    requires var source := queue[cursor];
             && Relaxed(adj, source, depth, depth') && |indegree'| == |adj|
             && (forall t: nat :: t in reachable ==> indegree'[t] == indegree[t] - (if t in adj[source] then 1 else 0))
             && (forall t: nat :: t in added <==> t in reachable && t in adj[source] && indegree'[t] == 0)
    requires Distinct(added)
    ensures DepthInv(adj, roots, reachable, queue + added, cursor + 1, depth', indegree', Max(maximumDepth, depth[queue[cursor]]))
  {
    var source := queue[cursor];
    var taken := Taken(queue, cursor);
    TakeNext(queue, cursor, []);
    assert forall c :: c in taken ==> c in queue;
    assert source in queue;
    DepthStep(adj, roots, reachable, queue, taken, depth, indegree, maximumDepth, source, depth');
    QueueStep(adj, reachable, queue, taken, indegree, source, indegree', added);
    TakeNext(queue, cursor, added);
  }

  lemma {:induction false} TurnsEnd(adj: ComponentGraph, roots: set<nat>, reachable: set<nat>, queue: seq<nat>,
                 depth: seq<nat>, indegree: seq<int>, maximumDepth: nat)
    requires DepthInv(adj, roots, reachable, queue, |queue|, depth, indegree, maximumDepth)
    ensures LongestChain(adj, roots, maximumDepth)
    ensures forall c :: c in reachable ==> c in queue
  {
    var taken := Taken(queue, |queue|);
    forall c | c in reachable ensures c in taken && c in queue {
      QueueEmptied(adj, reachable, queue, indegree, c);
    }
    forall p | ChainFromRoot(adj, roots, p) ensures |p| <= maximumDepth {
      ChainStays(adj, roots, reachable, p, |p| - 1);
      assert RootChainTo(adj, roots, p, p[|p| - 1]);
    }
  }

  /** The roots start at depth one, everything else without a depth. */
  method InitialDepths(adj: ComponentGraph, rootComponents: seq<nat>) returns (depth: array<nat>)
    requires forall c :: c in rootComponents ==> c < |adj|
    ensures fresh(depth) && depth.Length == |adj|
    ensures forall t: nat :: t < |adj| ==> depth[t] == if t in rootComponents then 1 else 0
  {
    depth := new nat[|adj|](_ => 0);
    for k := 0 to |rootComponents|
      invariant forall t: nat :: t < |adj| ==> depth[t] == if t in rootComponents[..k] then 1 else 0
    {
      assert rootComponents[..k + 1] == rootComponents[..k] + [rootComponents[k]];
      assert rootComponents[k] in rootComponents;
      depth[rootComponents[k]] := Max(depth[rootComponents[k]], 1);
    }
    assert rootComponents[..|rootComponents|] == rootComponents;
  }

  /** Every reachable component is a root or is referred to by a reachable component. */
  lemma {:induction false} RootOrReferred(adj: ComponentGraph, roots: set<nat>, reachable: set<nat>, c: nat)
    requires IsReachable(adj, roots, reachable) && c in reachable && c !in roots
    ensures |Preds(adj, reachable, c)| > 0
  {
    var p :| RootChainTo(adj, roots, p, c);
    DropLast(adj, roots, p);
    ChainStays(adj, roots, reachable, p, |p| - 2);
    assert p[|p| - 2] in Preds(adj, reachable, c);
  }

  lemma {:induction false} TurnsStart(adj: ComponentGraph, rootComponents: seq<nat>, reachable: set<nat>, queue: seq<nat>,
                   depth: seq<nat>, indegree: seq<int>)
    requires Forward(adj) && IsReachable(adj, (set c | c in rootComponents), reachable)
    requires |depth| == |indegree| == |adj| && Distinct(queue)
    requires forall t: nat :: t < |adj| ==> depth[t] == if t in rootComponents then 1 else 0
    requires forall t: nat :: t in reachable ==> indegree[t] == |Preds(adj, reachable, t)|
    requires forall t: nat :: t in queue <==> t in reachable && indegree[t] == 0
    ensures DepthInv(adj, (set c | c in rootComponents), reachable, queue, 0, depth, indegree, 0)
  {
    var roots := set c | c in rootComponents;
    forall c | c in queue ensures depth[c] == 1 {
      if c !in roots {
        RootOrReferred(adj, roots, reachable, c);
      }
    }
    assert Taken(queue, 0) == {} && reachable - {} == reachable;
    forall t: nat | t < |adj| && depth[t] > 0 ensures ChainOfLength(adj, roots, t, depth[t]) {
      assert RootChainTo(adj, roots, [t], t) && |[t]| == depth[t];
    }
  }

  lemma {:induction false} QueueBound(adj: ComponentGraph, reachable: set<nat>, queue: seq<nat>)
    requires Distinct(queue) && (forall c :: c in queue ==> c in reachable) && forall c :: c in reachable ==> c < |adj|
    ensures |queue| <= |adj|
  {
    assert forall i :: 0 <= i < |queue| ==> queue[i] in queue;
    DistinctBound(queue, |adj|);
  }

  /** Take the component at the cursor: raise the maximum, pass its depth on, queue what became ready. */
  method TakeTurn(adj: ComponentGraph, ghost roots: set<nat>, reachable: set<nat>, queue: seq<nat>, cursor: nat,
                  depth: array<nat>, indegree: array<int>, maximumDepth: nat)
    returns (maximumDepth': nat, queue': seq<nat>)
    requires depth.Length == indegree.Length == |adj| && cursor < |queue|
    requires DepthInv(adj, roots, reachable, queue, cursor, depth[..], indegree[..], maximumDepth)
    modifies depth, indegree
    ensures DepthInv(adj, roots, reachable, queue', cursor + 1, depth[..], indegree[..], maximumDepth')
    ensures |queue'| <= |adj|
  {
    var source := queue[cursor];
    assert source in queue;
    ghost var depth0, indegree0 := depth[..], indegree[..];
    var reached := depth[source];
    // The source never falls back to depth one: it already has a depth.
    assert reached > 0;
    var added := Relax(adj, reachable, source, depth, indegree);
    TurnStep(adj, roots, reachable, queue, cursor, depth0, indegree0, maximumDepth,
             depth[..], indegree[..], added);
    maximumDepth' := Max(maximumDepth, reached);
    queue' := queue + added;
    QueueBound(adj, reachable, queue');
  }

  /** The depth search over the components already known to be reachable. */
  method DepthOfReachable(adj: ComponentGraph, rootComponents: seq<nat>, reachable: set<nat>)
    returns (maximumDepth: nat, queue: seq<nat>)
    requires Forward(adj) && IsReachable(adj, (set c | c in rootComponents), reachable)
    requires forall c :: c in rootComponents ==> c < |adj|
    ensures LongestChain(adj, (set c | c in rootComponents), maximumDepth)
    ensures Distinct(queue) && forall c :: c in queue <==> c in reachable
  {
    ghost var roots := set c | c in rootComponents;
    var indegree := Indegrees(adj, reachable);
    queue := Elements(set c | c in reachable && indegree[c] == 0);
    var depth := InitialDepths(adj, rootComponents);
    maximumDepth := 0;
    var cursor := 0;
    TurnsStart(adj, rootComponents, reachable, queue, depth[..], indegree[..]);
    while cursor < |queue|
      invariant DepthInv(adj, roots, reachable, queue, cursor, depth[..], indegree[..], maximumDepth)
      decreases |adj| - cursor
    {
      assert queue[cursor] in queue;
      maximumDepth, queue := TakeTurn(adj, roots, reachable, queue, cursor, depth, indegree, maximumDepth);
      cursor := cursor + 1;
    }
    TurnsEnd(adj, roots, reachable, queue, depth[..], indegree[..], maximumDepth);
  }

  /** The number of components on the longest chain from a root. */
  method LongestDepth(adj: ComponentGraph, rootComponents: seq<nat>) returns (maximumDepth: nat)
    requires Forward(adj) && forall c :: c in rootComponents ==> c < |adj|
    ensures LongestChain(adj, (set c | c in rootComponents), maximumDepth)
  {
    var reachable := ReachableComponents(adj, rootComponents);
    var order: seq<nat>;
    maximumDepth, order := DepthOfReachable(adj, rootComponents, reachable);
  }
}
