/**
 * The first pass of the component search: a depth-first search with an explicit
 * stack of frames that records the nodes in the order in which they are finished.
 */
module FinishOrder {
  import opened Graphs

  datatype Frame = Frame(node: nat, next: nat)

  ghost predicate Distinct(s: seq<nat>) {
    forall i, j :: 0 <= i < j < |s| ==> s[i] != s[j]
  }

  /**
   * What the second pass needs of the finishing order: an edge that leads to a node
   * finished no earlier leads to a node that reaches everything finished in between.
   */
  ghost predicate FinishOrdered(g: Graph, finish: seq<nat>) {
    forall i, k, j :: 0 <= i <= k <= j < |finish| && Edge(g, finish[i], finish[j]) ==> Reach(g, finish[j], finish[k])
  }

  ghost function Nodes(stack: seq<Frame>): set<nat> {
    set f | f in stack :: f.node
  }

  /** The frame at position n moves its cursor to its next edge. */
  function Bump(stack: seq<Frame>, n: nat): seq<Frame>
    requires n < |stack|
  {
    stack[n := Frame(stack[n].node, stack[n].next + 1)]
  }

  /** The stacked frames are distinct visited nodes, each linked to the next. */
  ghost predicate StackSound(g: Graph, visited: seq<bool>, stack: seq<Frame>) {
    && Closed(g) && |visited| == |g|
    && (forall t :: 0 <= t < |stack| ==>
          && stack[t].node < |g|
          && visited[stack[t].node]
          && stack[t].next <= |g[stack[t].node]|)
    && (forall t, m :: 0 <= t < |stack| && 0 <= m < stack[t].next ==> visited[g[stack[t].node][m]])
    && (forall s, t :: 0 <= s < t < |stack| ==> stack[s].node != stack[t].node)
    && (forall t :: 0 <= t < |stack| - 1 ==> Edge(g, stack[t].node, stack[t + 1].node))
  }

  /** Finished nodes have only visited successors; visited nodes are finished or stacked. */
  ghost predicate FinishSound(g: Graph, visited: seq<bool>, active: set<nat>, finish: seq<nat>) {
    && Closed(g) && |visited| == |g|
    && Distinct(finish)
    && (forall v :: v in finish ==> v < |g| && visited[v] && v !in active)
    && (forall v, w: nat :: v in finish && Edge(g, v, w) ==> visited[w])
    && (forall v: nat :: v < |g| && visited[v] ==> v in finish || v in active)
  }

  /** A stacked successor of a finished node reaches everything finished since. */
  ghost predicate StackDominates(g: Graph, active: set<nat>, finish: seq<nat>) {
    forall i, k, t :: 0 <= i <= k < |finish| && t in active && Edge(g, finish[i], t) ==> Reach(g, t, finish[k])
  }

  ghost predicate SearchInv(g: Graph, visited: seq<bool>, stack: seq<Frame>, finish: seq<nat>) {
    && StackSound(g, visited, stack)
    && FinishSound(g, visited, Nodes(stack), finish)
    && FinishOrdered(g, finish)
    && StackDominates(g, Nodes(stack), finish)
  }

  lemma {:induction false} StackReach(g: Graph, visited: seq<bool>, stack: seq<Frame>, s: nat, t: nat)
    requires StackSound(g, visited, stack)
    requires s <= t < |stack|
    ensures Reach(g, stack[s].node, stack[t].node)
    decreases t - s
  {
    if s == t {
      ReachRefl(g, stack[s].node);
    } else {
      assert Edge(g, stack[s].node, stack[s + 1].node);
      ReachEdge(g, stack[s].node, stack[s + 1].node);
      StackReach(g, visited, stack, s + 1, t);
      ReachTrans(g, stack[s].node, stack[s + 1].node, stack[t].node);
    }
  }

  lemma {:induction false} NodesAt(stack: seq<Frame>, v: nat) returns (t: nat)
    requires v in Nodes(stack)
    ensures t < |stack| && stack[t].node == v
  {
    var f :| f in stack && f.node == v;
    t :| t < |stack| && stack[t] == f;
  }

  lemma {:induction false} DiscoverStack(g: Graph, visited: seq<bool>, stack: seq<Frame>, w: nat)
    requires StackSound(g, visited, stack) && w < |g| && !visited[w]
    requires stack != [] ==> Edge(g, stack[|stack| - 1].node, w)
    ensures StackSound(g, visited[w := true], stack + [Frame(w, 0)])
    ensures Nodes(stack + [Frame(w, 0)]) == Nodes(stack) + {w}
  {
    var stack' := stack + [Frame(w, 0)];
    assert stack'[|stack|] == Frame(w, 0);
    assert forall f :: f in stack' <==> f in stack || f == Frame(w, 0);
  }

  lemma {:induction false} DiscoverFinish(g: Graph, visited: seq<bool>, active: set<nat>, finish: seq<nat>, w: nat)
    requires FinishSound(g, visited, active, finish) && w < |g| && !visited[w]
    ensures FinishSound(g, visited[w := true], active + {w}, finish)
    ensures forall v :: v in finish ==> !Edge(g, v, w)
  {}

  lemma {:induction false} Discover(g: Graph, visited: seq<bool>, stack: seq<Frame>, finish: seq<nat>, w: nat)
    requires SearchInv(g, visited, stack, finish)
    requires w < |g| && !visited[w]
    requires stack != [] ==> Edge(g, stack[|stack| - 1].node, w)
    ensures SearchInv(g, visited[w := true], stack + [Frame(w, 0)], finish)
  {
    DiscoverStack(g, visited, stack, w);
    DiscoverFinish(g, visited, Nodes(stack), finish, w);
  }

  lemma {:induction false} Advance(g: Graph, visited: seq<bool>, stack: seq<Frame>, finish: seq<nat>, n: nat)
    requires SearchInv(g, visited, stack, finish) && n < |stack|
    requires stack[n].next < |g[stack[n].node]| && visited[g[stack[n].node][stack[n].next]]
    ensures SearchInv(g, visited, Bump(stack, n), finish)
  {
    AdvanceStack(g, visited, stack, n);
  }

  lemma {:induction false} AdvanceStack(g: Graph, visited: seq<bool>, stack: seq<Frame>, n: nat)
    requires StackSound(g, visited, stack) && n < |stack|
    requires stack[n].next < |g[stack[n].node]| && visited[g[stack[n].node][stack[n].next]]
    ensures StackSound(g, visited, Bump(stack, n))
    ensures Nodes(Bump(stack, n)) == Nodes(stack)
  {
    var stack' := Bump(stack, n);
    assert forall t :: 0 <= t < |stack| ==> stack'[t].node == stack[t].node;
    forall v | v in Nodes(stack) ensures v in Nodes(stack') {
      var t := NodesAt(stack, v);
      assert stack'[t] in stack';
    }
    forall v | v in Nodes(stack') ensures v in Nodes(stack) {
      var t := NodesAt(stack', v);
      assert stack[t] in stack;
    }
  }

  lemma {:induction false} FinishStack(g: Graph, visited: seq<bool>, stack: seq<Frame>)
    requires StackSound(g, visited, stack) && stack != []
    ensures StackSound(g, visited, stack[..|stack| - 1])
    ensures Nodes(stack) == Nodes(stack[..|stack| - 1]) + {stack[|stack| - 1].node}
    ensures stack[|stack| - 1].node !in Nodes(stack[..|stack| - 1])
  {
    var n := |stack| - 1;
    forall v | v in Nodes(stack) && v != stack[n].node ensures v in Nodes(stack[..n]) {
      var t := NodesAt(stack, v);
      assert stack[..n][t] in stack[..n];
    }
    assert stack[n] in stack;
    forall v | v in Nodes(stack[..n]) ensures v != stack[n].node {
      var t := NodesAt(stack[..n], v);
    }
  }

  lemma {:induction false} FinishOrders(g: Graph, active: set<nat>, finish: seq<nat>, u: nat)
    requires FinishOrdered(g, finish) && StackDominates(g, active + {u}, finish)
    requires forall t :: t in active + {u} ==> Reach(g, t, u)
    ensures FinishOrdered(g, finish + [u]) && StackDominates(g, active, finish + [u])
  {
    var finish' := finish + [u];
    assert forall i :: 0 <= i < |finish| ==> finish'[i] == finish[i];
    assert u in active + {u};
  }

  lemma {:induction false} FinishTop(g: Graph, visited: seq<bool>, stack: seq<Frame>, finish: seq<nat>)
    requires SearchInv(g, visited, stack, finish) && stack != []
    requires stack[|stack| - 1].next == |g[stack[|stack| - 1].node]|
    ensures SearchInv(g, visited, stack[..|stack| - 1], finish + [stack[|stack| - 1].node])
  {
    var n := |stack| - 1;
    var u := stack[n].node;
    var rest := Nodes(stack[..n]);
    FinishStack(g, visited, stack);
    forall v | v in Nodes(stack) ensures Reach(g, v, u) {
      var t := NodesAt(stack, v);
      StackReach(g, visited, stack, t, n);
    }
    FinishOrders(g, rest, finish, u);
    assert FinishSound(g, visited, rest, finish + [u]) by {
      assert forall w: nat :: Edge(g, u, w) ==> visited[w];
      assert forall v :: v in finish + [u] <==> v in finish || v == u;
    }
  }

  ghost function White(visited: seq<bool>): set<nat> {
    set v: nat | v < |visited| && !visited[v]
  }

  lemma {:induction false} WhiteShrinks(visited: seq<bool>, w: nat)
    requires w < |visited| && !visited[w]
    ensures White(visited[w := true]) == White(visited) - {w} && w in White(visited)
  {}

  /** Distinct nodes of an n-node graph number at most n, and n of them are all nodes. */
  lemma {:induction false} DistinctBound(s: seq<nat>, n: nat)
    requires Distinct(s) && forall i :: 0 <= i < |s| ==> s[i] < n
    ensures |s| <= n
    decreases n
  {
    if s != [] {
      assert s[0] < n;
      if i :| 0 <= i < |s| && s[i] == n - 1 {
        DistinctBound(s[..i] + s[i + 1..], n - 1);
      } else {
        DistinctBound(s, n - 1);
      }
    }
  }

  lemma {:induction false} FinishBound(g: Graph, visited: seq<bool>, stack: seq<Frame>, finish: seq<nat>)
    requires SearchInv(g, visited, stack, finish)
    ensures |finish| <= |g|
  {
    assert forall i :: 0 <= i < |finish| ==> finish[i] in finish;
    DistinctBound(finish, |g|);
  }

  /**
   * One turn of the search loop: follow the top frame's next edge, or finish its node.
   * Every turn lowers (unvisited nodes, unfinished nodes, edges left at the top).
   */
  method Turn(g: Graph, visited: array<bool>, stack: seq<Frame>, finish: seq<nat>)
    returns (stack': seq<Frame>, finish': seq<nat>)
    requires visited.Length == |g| && SearchInv(g, visited[..], stack, finish) && stack != []
    modifies visited
    ensures SearchInv(g, visited[..], stack', finish')
    ensures White(visited[..]) < old(White(visited[..])) ||
            (White(visited[..]) == old(White(visited[..])) &&
             (|finish'| == |finish| + 1 ||
              (|finish'| == |finish| && |stack'| == |stack| &&
               stack' == Bump(stack, |stack| - 1))))
  {
    ghost var seen := visited[..];
    var frame := stack[|stack| - 1];
    var neighbors := g[frame.node];
    finish' := finish;
    if frame.next < |neighbors| {
      var target := neighbors[frame.next];
      if !visited[target] {
        Discover(g, seen, stack, finish, target);
        Advance(g, seen[target := true], stack + [Frame(target, 0)], finish, |stack| - 1);
        visited[target] := true;
        stack' := Bump(stack, |stack| - 1) + [Frame(target, 0)];
        assert visited[..] == seen[target := true];
        assert stack' == Bump(stack + [Frame(target, 0)], |stack| - 1);
        WhiteShrinks(seen, target);
      } else {
        Advance(g, seen, stack, finish, |stack| - 1);
        stack' := Bump(stack, |stack| - 1);
      }
    } else {
      FinishTop(g, seen, stack, finish);
      finish' := finish + [frame.node];
      stack' := stack[..|stack| - 1];
    }
  }

  ghost function EdgesLeft(g: Graph, stack: seq<Frame>): int {
    if stack == [] || stack[|stack| - 1].node >= |g| then 0
    else |g[stack[|stack| - 1].node]| - stack[|stack| - 1].next
  }

  /**
   * Search from one unvisited start: everything it discovers is finished when the
   * stack is empty again.
   */
  method Explore(g: Graph, visited: array<bool>, start: nat, finish0: seq<nat>) returns (finish: seq<nat>)
    requires visited.Length == |g| && SearchInv(g, visited[..], [], finish0)
    requires start < |g| && !visited[start]
    modifies visited
    ensures SearchInv(g, visited[..], [], finish)
    ensures White(visited[..]) <= old(White(visited[..])) - {start}
  {
    finish := finish0;
    var stack := [Frame(start, 0)];
    assert [] + stack == stack;
    Discover(g, visited[..], [], finish, start);
    WhiteShrinks(visited[..], start);
    ghost var before := visited[..];
    visited[start] := true;
    assert visited[..] == before[start := true];
    while |stack| > 0
      invariant SearchInv(g, visited[..], stack, finish)
      invariant White(visited[..]) <= old(White(visited[..])) - {start}
      decreases White(visited[..]), |g| - |finish|, EdgesLeft(g, stack)
    {
      stack, finish := Turn(g, visited, stack, finish);
      FinishBound(g, visited[..], stack, finish);
    }
  }

  /** The whole first pass: every node is finished once, in a suitable order. */
  method FinishingOrder(g: Graph) returns (finish: seq<nat>)
    requires Closed(g)
    ensures Distinct(finish) && forall v: nat :: v in finish <==> v < |g|
    ensures FinishOrdered(g, finish)
  {
    var visited := new bool[|g|](_ => false);
    finish := [];
    assert SearchInv(g, visited[..], [], finish);
    for start := 0 to |g|
      invariant SearchInv(g, visited[..], [], finish)
      invariant forall v: nat :: v < start ==> v !in White(visited[..])
    {
      if !visited[start] {
        finish := Explore(g, visited, start, finish);
      }
    }
    forall v: nat | v < |g| ensures v in finish {
      assert v !in White(visited[..]);
      assert visited[..][v];
    }
  }
}
