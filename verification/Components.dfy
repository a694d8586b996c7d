/**
 * The second pass of the component search: nodes are taken from the latest finished
 * to the earliest, and a search along reversed edges collects one component at a time.
 */
module Components {
  import opened Graphs
  import opened FinishOrder

  const UNASSIGNED := -1

  ghost function Position(finish: seq<nat>, v: nat): (i: nat)
    requires v in finish
    ensures i < |finish| && finish[i] == v
  {
    var i :| 0 <= i < |finish| && finish[i] == v;
    i
  }

  /** If a path ends in its latest finished node, that end reaches back to its beginning. */
  lemma {:induction false} Forefather(g: Graph, finish: seq<nat>, p: seq<nat>)
    requires Distinct(finish) && FinishOrdered(g, finish) && IsPath(g, p)
    requires forall i :: 0 <= i < |p| ==> p[i] in finish
    requires forall i :: 0 <= i < |p| ==> Position(finish, p[i]) <= Position(finish, p[|p| - 1])
    ensures Reach(g, p[|p| - 1], p[0])
    decreases |p|
  {
    var last := p[|p| - 1];
    if p[0] == last {
      ReachRefl(g, last);
    } else {
      var at := Position(finish, p[0]);
      var inside := set v | v in finish && Position(finish, v) <= at;
      var i := FirstExit(g, p, inside);
      var q := p[i + 1..];
      assert Edge(g, p[i], p[i + 1]);
      assert Reach(g, p[i + 1], p[0]);
      Forefather(g, finish, q);
      ReachTrans(g, last, p[i + 1], p[0]);
    }
  }

  ghost predicate Unassigned(comp: seq<int>, v: nat) {
    v < |comp| && comp[v] == UNASSIGNED
  }

  /** Assigned nodes have only assigned predecessors. */
  ghost predicate PredecessorClosed(g: Graph, comp: seq<int>) {
    forall u: nat, v: nat :: u < |comp| && v < |comp| && Edge(g, u, v) && comp[v] != UNASSIGNED ==> comp[u] != UNASSIGNED
  }

  lemma {:induction false} UnassignedReach(g: Graph, comp: seq<int>, u: nat, v: nat)
    requires |comp| == |g| && PredecessorClosed(g, comp) && Closed(g)
    requires Unassigned(comp, u) && Reach(g, u, v)
    ensures Unassigned(comp, v)
  {
    var inside := set w: nat | w < |g| && Unassigned(comp, w);
    forall x: nat, y: nat | x in inside && Edge(g, x, y) ensures y in inside {
      assert y < |g|;
    }
    ClosedSetReach(g, inside, u, v);
  }

  /** An unassigned node that reaches the latest unassigned node is reached from it. */
  lemma {:induction false} LatestReaches(g: Graph, finish: seq<nat>, comp: seq<int>, x: nat, s: nat)
    requires Distinct(finish) && FinishOrdered(g, finish) && Closed(g) && |comp| == |g|
    requires PredecessorClosed(g, comp)
    requires forall v: nat :: v < |g| ==> v in finish
    requires s < |g| && forall v: nat :: Unassigned(comp, v) ==> Position(finish, v) <= Position(finish, s)
    requires Unassigned(comp, x) && Reach(g, x, s)
    ensures Reach(g, s, x)
  {
    var p :| PathFromTo(g, p, x, s);
    forall i | 0 <= i < |p| ensures Unassigned(comp, p[i]) {
      PathReach(g, p, 0, i);
      UnassignedReach(g, comp, x, p[i]);
    }
    Forefather(g, finish, p);
  }

  /** The numbers given so far: complete components, and edges never lead to lower numbers. */
  ghost predicate Numbered(g: Graph, comp: seq<int>, count: nat) {
    && |comp| == |g|
    && (forall v :: 0 <= v < |comp| ==> UNASSIGNED <= comp[v] < count)
    && (forall u: nat, v: nat :: u < |comp| && v < |comp| && comp[u] != UNASSIGNED ==>
          (comp[v] == comp[u] <==> Mutual(g, u, v)))
    && (forall u: nat, v: nat :: u < |comp| && v < |comp| && Edge(g, u, v) && comp[v] != UNASSIGNED ==>
          UNASSIGNED < comp[u] <= comp[v])
  }

  /** The nodes carrying number c, collected by the reverse search from start. */
  ghost predicate Collected(g: Graph, before: seq<int>, after: seq<int>, start: nat, c: nat) {
    && |before| == |after| == |g| && start < |g|
    && before[start] == UNASSIGNED && after[start] == c
    && (forall v: nat :: v < |g| && before[v] != UNASSIGNED ==> after[v] == before[v])
    && (forall v: nat :: v < |g| && before[v] == UNASSIGNED ==> after[v] == UNASSIGNED || after[v] == c)
    && (forall v: nat :: v < |g| && Unassigned(before, v) && after[v] == c ==> Reach(g, v, start))
    && (forall u: nat, v: nat :: u < |g| && v < |g| && Edge(g, u, v) && Unassigned(before, v) && after[v] == c ==>
          after[u] != UNASSIGNED)
  }

  lemma {:induction false} CollectedIsMutual(g: Graph, finish: seq<nat>, before: seq<int>, after: seq<int>,
      start: nat, c: nat, v: nat)
    requires Distinct(finish) && FinishOrdered(g, finish) && Closed(g)
    requires forall w: nat :: w < |g| ==> w in finish
    requires Numbered(g, before, c) && Collected(g, before, after, start, c)
    requires forall w: nat :: Unassigned(before, w) ==> Position(finish, w) <= Position(finish, start)
    requires v < |g|
    ensures after[v] == c <==> Mutual(g, v, start)
  {
    if after[v] == c {
      assert Unassigned(before, v);
      LatestReaches(g, finish, before, v, start);
    } else if Mutual(g, v, start) {
      UnassignedReach(g, before, start, v);
      var p :| PathFromTo(g, p, v, start);
      var outside := set w: nat | w < |g| && after[w] != c;
      var i := FirstExit(g, p, outside);
      assert Edge(g, p[i], p[i + 1]);
      PathReach(g, p, 0, i);
      UnassignedReach(g, before, v, p[i]);
      assert Unassigned(before, p[i + 1]);
      assert false;
    }
  }

  lemma {:induction false} CollectedIsNumbered(g: Graph, finish: seq<nat>, before: seq<int>, after: seq<int>,
      start: nat, c: nat)
    requires Distinct(finish) && FinishOrdered(g, finish) && Closed(g)
    requires forall w: nat :: w < |g| ==> w in finish
    requires Numbered(g, before, c) && Collected(g, before, after, start, c)
    requires forall w: nat :: Unassigned(before, w) ==> Position(finish, w) <= Position(finish, start)
    ensures Numbered(g, after, c + 1)
  {
    forall v: nat | v < |g| ensures after[v] == c <==> Mutual(g, v, start) {
      CollectedIsMutual(g, finish, before, after, start, c, v);
    }
    forall u: nat, v: nat | u < |g| && v < |g| && after[u] != UNASSIGNED
      ensures after[v] == after[u] <==> Mutual(g, u, v)
    {
      if after[u] == c {
        if after[v] == c {
          MutualTrans(g, u, start, v);
        } else if Mutual(g, u, v) {
          MutualTrans(g, v, u, start);
        }
      } else {
        assert before[u] == after[u];
      }
    }
    forall u: nat, v: nat | u < |g| && v < |g| && Edge(g, u, v) && after[v] != UNASSIGNED
      ensures UNASSIGNED < after[u] <= after[v]
    {
      if before[v] != UNASSIGNED {
        assert before[u] != UNASSIGNED;
      }
    }
  }

  /** Every edge, turned around. */
  method Reversed(g: Graph) returns (r: Graph)
    requires Closed(g)
    ensures Closed(r) && |r| == |g|
    ensures forall u: nat, v: nat :: Edge(r, v, u) <==> Edge(g, u, v)
  {
    var lists := new seq<nat>[|g|](_ => []);
    for from := 0 to |g|
      invariant forall v, k :: 0 <= v < |g| && 0 <= k < |lists[v]| ==> lists[v][k] < |g|
      invariant forall u: nat, v: nat :: v < |g| ==> (u in lists[v] <==> u < from && v in g[u])
    {
      for k := 0 to |g[from]|
        invariant forall v, m :: 0 <= v < |g| && 0 <= m < |lists[v]| ==> lists[v][m] < |g|
        invariant forall u: nat, v: nat :: v < |g| ==>
                    (u in lists[v] <==> (u < from && v in g[u]) || (u == from && v in g[from][..k]))
      {
        var to := g[from][k];
        assert g[from][..k + 1] == g[from][..k] + [to];
        lists[to] := lists[to] + [from];
      }
      assert g[from][..|g[from]|] == g[from];
    }
    r := lists[..];
    assert forall v: nat :: v < |g| ==> r[v] == lists[v];
    forall u: nat, v: nat ensures Edge(r, v, u) <==> Edge(g, u, v) {
      if Edge(g, u, v) {
        assert v < |g|;
      }
    }
  }

  function InsertAscending(x: nat, s: seq<nat>): (r: seq<nat>)
    ensures multiset(r) == multiset(s) + multiset{x}
  {
    if s == [] || x <= s[0] then [x] + s
    else assert s == [s[0]] + s[1..]; [s[0]] + InsertAscending(x, s[1..])
  }

  function SortAscending(s: seq<nat>): (r: seq<nat>)
    ensures multiset(r) == multiset(s)
  {
    if s == [] then [] else assert s == [s[0]] + s[1..]; InsertAscending(s[0], SortAscending(s[1..]))
  }

  ghost predicate Ascending(s: seq<nat>) {
    forall i, j :: 0 <= i < j < |s| ==> s[i] <= s[j]
  }

  lemma {:induction false} InsertKeepsAscending(x: nat, s: seq<nat>)
    requires Ascending(s)
    ensures Ascending(InsertAscending(x, s))
  {
    if s != [] && x > s[0] {
      InsertKeepsAscending(x, s[1..]);
      var r := InsertAscending(x, s[1..]);
      forall j | 0 <= j < |r| ensures s[0] <= r[j] {
        assert r[j] in multiset(r);
        if r[j] != x {
          assert r[j] in multiset(s[1..]);
          assert r[j] in s[1..];
        }
      }
    }
  }

  lemma {:induction false} SortIsAscending(s: seq<nat>)
    ensures Ascending(SortAscending(s))
  {
    if s != [] {
      SortIsAscending(s[1..]);
      InsertKeepsAscending(s[0], SortAscending(s[1..]));
    }
  }

  lemma {:induction false} SortKeeps(s: seq<nat>, v: nat)
    ensures v in SortAscending(s) <==> v in s
  {
    assert v in multiset(s) <==> v in multiset(SortAscending(s));
  }

  lemma {:induction false} SortKeepsDistinct(s: seq<nat>)
    requires Distinct(s)
    ensures Distinct(SortAscending(s))
  {
    var r := SortAscending(s);
    forall i, j | 0 <= i < j < |r| ensures r[i] != r[j] {
      if r[i] == r[j] {
        TwiceCounted(r, i, j);
        OnceCounted(s, r[i]);
      }
    }
  }

  lemma {:induction false} TwiceCounted(s: seq<nat>, i: nat, j: nat)
    requires i < j < |s| && s[i] == s[j]
    ensures multiset(s)[s[i]] >= 2
  {
    assert s == s[..j] + s[j..];
    assert s[..j][i] in s[..j] && s[j..][0] in s[j..];
  }

  lemma {:induction false} OnceCounted(s: seq<nat>, v: nat)
    requires Distinct(s)
    ensures multiset(s)[v] <= 1
  {
    if s != [] {
      assert s == [s[0]] + s[1..];
      OnceCounted(s[1..], v);
      if s[0] == v {
        assert v !in s[1..];
      }
    }
  }

  /**
   * Collect, along reversed edges, the unassigned nodes that lead to start,
   * giving each of them the number c.
   */
  method Collect(g: Graph, rev: Graph, comp: array<int>, start: nat, c: nat) returns (members: seq<nat>)
    requires Closed(g) && Closed(rev) && |rev| == |g| == comp.Length
    requires forall u: nat, v: nat :: Edge(rev, v, u) <==> Edge(g, u, v)
    requires start < |g| && comp[start] == UNASSIGNED
    requires forall v: nat :: v < |g| ==> comp[v] < c
    modifies comp
    ensures Collected(g, old(comp[..]), comp[..], start, c)
    ensures Distinct(members) && forall v: nat :: v in members <==> v < |g| && comp[v] == c
  {
    ghost var before := comp[..];
    members := [];
    var stack := [start];
    comp[start] := c;
    ReachRefl(g, start);
    while |stack| > 0
      invariant CollectInv(g, before, comp[..], start, c, members, stack)
      decreases |g| - |members|
    {
      ghost var was := stack;
      var node := stack[|stack| - 1];
      stack := stack[..|stack| - 1];
      assert was == stack + [node];
      CollectPop(g, before, comp[..], start, c, members, stack, node);
      members := members + [node];
      for k := 0 to |rev[node]|
        invariant |members| > 0 && members[|members| - 1] == node
        invariant CollectScan(g, before, comp[..], start, c, members, stack, rev[node][..k])
      {
        var source := rev[node][k];
        assert rev[node][..k + 1] == rev[node][..k] + [source];
        assert Edge(rev, node, source);
        CollectSource(g, before, comp[..], start, c, members, stack, rev[node][..k], source);
        if comp[source] == UNASSIGNED {
          ghost var prior := comp[..];
          comp[source] := c;
          stack := stack + [source];
          assert comp[..] == prior[source := c];
        }
      }
      assert rev[node][..|rev[node]|] == rev[node];
      assert forall u: nat :: Edge(g, u, node) <==> Edge(rev, node, u);
      assert forall u: nat :: Edge(g, u, node) <==> u in rev[node];
      MembersBound(g, before, comp[..], start, c, members, stack);
    }
    assert members + [] == members;
  }

  /** Everything numbered c so far is a member or waits on the stack. */
  ghost predicate CollectBase(g: Graph, before: seq<int>, now: seq<int>, start: nat, c: nat, members: seq<nat>,
      stack: seq<nat>)
  {
    && |before| == |now| == |g| && start < |g|
    && before[start] == UNASSIGNED && now[start] == c
    && (forall v: nat :: v < |g| ==> before[v] < c)
    && (forall v: nat :: v < |g| && before[v] != UNASSIGNED ==> now[v] == before[v])
    && (forall v: nat :: v < |g| && before[v] == UNASSIGNED ==> now[v] == UNASSIGNED || now[v] == c)
    && (forall v: nat :: v < |g| && now[v] == c ==> Reach(g, v, start))
    && Distinct(members + stack)
    && (forall v: nat :: v in members + stack <==> v < |g| && now[v] == c)
  }

  ghost predicate CollectInv(g: Graph, before: seq<int>, now: seq<int>, start: nat, c: nat, members: seq<nat>,
      stack: seq<nat>)
  {
    && CollectBase(g, before, now, start, c, members, stack)
    && (forall u: nat, v :: v in members && u < |g| && Edge(g, u, v) ==> now[u] != UNASSIGNED)
  }

  /** As CollectInv, while the sources of the last member are being scanned. */
  ghost predicate CollectScan(g: Graph, before: seq<int>, now: seq<int>, start: nat, c: nat, members: seq<nat>,
      stack: seq<nat>, scanned: seq<nat>)
  {
    && CollectBase(g, before, now, start, c, members, stack)
    && |members| > 0
    && (forall u: nat, v :: v in members[..|members| - 1] && u < |g| && Edge(g, u, v) ==> now[u] != UNASSIGNED)
    && (forall u :: u in scanned ==> u < |g| && now[u] != UNASSIGNED)
  }

  lemma {:induction false} MembersBound(g: Graph, before: seq<int>, now: seq<int>, start: nat, c: nat,
      members: seq<nat>, stack: seq<nat>)
    requires CollectBase(g, before, now, start, c, members, stack)
    ensures |members| <= |g|
  {
    assert forall i :: 0 <= i < |members + stack| ==> (members + stack)[i] in members + stack;
    DistinctBound(members + stack, |g|);
  }

  lemma {:induction false} CollectPop(g: Graph, before: seq<int>, now: seq<int>, start: nat, c: nat,
      members: seq<nat>, stack: seq<nat>, node: nat)
    requires CollectInv(g, before, now, start, c, members, stack + [node])
    ensures CollectScan(g, before, now, start, c, members + [node], stack, [])
    ensures node < |g|
  {
    var old', new' := members + (stack + [node]), (members + [node]) + stack;
    assert old'[|old'| - 1] == node && node in old';
    forall v: nat ensures v in old' <==> v in new' {}
    forall i, j | 0 <= i < j < |new'| ensures new'[i] != new'[j] {
      var m := |members|;
      var i' := if i < m then i else if i == m then |old'| - 1 else i - 1;
      var j' := if j < m then j else if j == m then |old'| - 1 else j - 1;
      assert old'[i'] == new'[i] && old'[j'] == new'[j];
    }
    assert (members + [node])[..|members + [node]| - 1] == members;
  }

  lemma {:induction false} CollectSource(g: Graph, before: seq<int>, now: seq<int>, start: nat, c: nat,
      members: seq<nat>, stack: seq<nat>, scanned: seq<nat>, source: nat)
    requires Closed(g) && CollectScan(g, before, now, start, c, members, stack, scanned)
    requires source < |g| && Edge(g, source, members[|members| - 1])
    ensures now[source] != UNASSIGNED ==> CollectScan(g, before, now, start, c, members, stack, scanned + [source])
    ensures now[source] == UNASSIGNED ==>
              CollectScan(g, before, now[source := c], start, c, members, stack + [source], scanned + [source])
  {
    var node := members[|members| - 1];
    assert (members + stack)[|members| - 1] == node && node in members + stack;
    ReachEdge(g, source, node);
    ReachTrans(g, source, node, start);
    if now[source] == UNASSIGNED {
      assert members + (stack + [source]) == (members + stack) + [source];
    }
  }

  /** What the two passes compute. */
  ghost predicate IsComponents(g: Graph, comp: seq<nat>, members: seq<seq<nat>>) {
    && |comp| == |g|
    && (forall v: nat :: v < |g| ==> comp[v] < |members|)
    && (forall u: nat, v: nat :: u < |g| && v < |g| ==> (comp[u] == comp[v] <==> Mutual(g, u, v)))
    && (forall u: nat, v: nat :: u < |g| && v < |g| && Edge(g, u, v) ==> comp[u] <= comp[v])
    && (forall c :: 0 <= c < |members| ==> members[c] != [] && Ascending(members[c]) && Distinct(members[c]))
    && (forall c, v: nat {:trigger v in members[c]} :: 0 <= c < |members| ==> (v in members[c] <==> v < |g| && comp[v] == c))
  }

  ghost predicate MembersSound(g: Graph, comp: seq<int>, members: seq<seq<nat>>) {
    && |comp| == |g|
    && (forall c :: 0 <= c < |members| ==> members[c] != [] && Ascending(members[c]) && Distinct(members[c]))
    && (forall c, v: nat {:trigger v in members[c]} :: 0 <= c < |members| ==> (v in members[c] <==> v < |g| && comp[v] == c))
  }

  lemma {:induction false} MembersGrow(g: Graph, before: seq<int>, after: seq<int>, start: nat,
      members: seq<seq<nat>>, added: seq<nat>)
    requires MembersSound(g, before, members) && Collected(g, before, after, start, |members|)
    requires forall v: nat :: v < |g| ==> before[v] < |members|
    requires Distinct(added) && forall v: nat :: v in added <==> v < |g| && after[v] == |members|
    ensures MembersSound(g, after, members + [SortAscending(added)])
  {
    SortIsAscending(added);
    SortKeepsDistinct(added);
    forall v: nat ensures v in SortAscending(added) <==> v in added {
      SortKeeps(added, v);
    }
    assert start in SortAscending(added);
  }

  /** Nodes finished at or after position order are assigned, and nothing else is left half done. */
  ghost predicate ScanInv(g: Graph, finish: seq<nat>, comp: seq<int>, members: seq<seq<nat>>, order: int) {
    && Closed(g) && 0 <= order <= |finish|
    && Distinct(finish) && FinishOrdered(g, finish) && (forall v: nat :: v in finish <==> v < |g|)
    && Numbered(g, comp, |members|)
    && MembersSound(g, comp, members)
    && (forall k :: order <= k < |finish| ==> finish[k] < |comp| && comp[finish[k]] != UNASSIGNED)
  }

  lemma {:induction false} LatestUnassigned(g: Graph, finish: seq<nat>, comp: seq<int>, members: seq<seq<nat>>,
      order: int, w: nat)
    requires order > 0 && ScanInv(g, finish, comp, members, order) && Unassigned(comp, w)
    ensures w in finish && finish[order - 1] in finish
    ensures Position(finish, w) <= Position(finish, finish[order - 1])
  {
    assert finish[order - 1] in finish;
    assert finish[Position(finish, w)] == w;
  }

  lemma {:induction false} ScanCollects(g: Graph, finish: seq<nat>, before: seq<int>, after: seq<int>,
      members: seq<seq<nat>>, order: int, added: seq<nat>)
    requires order > 0 && ScanInv(g, finish, before, members, order)
    requires Collected(g, before, after, finish[order - 1], |members|)
    requires Distinct(added) && forall v: nat :: v in added <==> v < |g| && after[v] == |members|
    ensures ScanInv(g, finish, after, members + [SortAscending(added)], order - 1)
  {
    var start := finish[order - 1];
    assert start in finish;
    forall w: nat | Unassigned(before, w) ensures w in finish && Position(finish, w) <= Position(finish, start) {
      LatestUnassigned(g, finish, before, members, order, w);
    }
    CollectedIsNumbered(g, finish, before, after, start, |members|);
    MembersGrow(g, before, after, start, members, added);
  }

  function AsNumber(i: int): nat {
    if i < 0 then 0 else i
  }

  lemma {:induction false} ScanDone(g: Graph, finish: seq<nat>, comp: seq<int>, members: seq<seq<nat>>, numbers: seq<nat>)
    requires ScanInv(g, finish, comp, members, 0)
    requires |numbers| == |comp| && forall v :: 0 <= v < |comp| ==> numbers[v] == AsNumber(comp[v])
    ensures IsComponents(g, numbers, members)
  {
    forall v: nat | v < |g| ensures numbers[v] == comp[v] {
      assert finish[Position(finish, v)] == v;
    }
  }

  /**
   * The two-pass search computes exactly the strongly connected components, numbered
   * so that no edge leads from a higher number to a lower one.
   */
  method FindComponents(g: Graph) returns (componentByNode: seq<nat>, nodesByComponent: seq<seq<nat>>)
    requires Closed(g)
    ensures IsComponents(g, componentByNode, nodesByComponent)
  {
    var rev := Reversed(g);
    var finish := FinishingOrder(g);
    var comp := new int[|g|](_ => UNASSIGNED);
    nodesByComponent := [];
    var order := |finish|;
    assert ScanInv(g, finish, comp[..], nodesByComponent, order);
    while order > 0
      invariant ScanInv(g, finish, comp[..], nodesByComponent, order)
    {
      var start := finish[order - 1];
      assert start in finish;
      if comp[start] == UNASSIGNED {
        ghost var before := comp[..];
        var members := Collect(g, rev, comp, start, |nodesByComponent|);
        ScanCollects(g, finish, before, comp[..], nodesByComponent, order, members);
        nodesByComponent := nodesByComponent + [SortAscending(members)];
      }
      order := order - 1;
    }
    componentByNode := seq(|g|, v requires 0 <= v < comp.Length reads comp => AsNumber(comp[v]));
    ScanDone(g, finish, comp[..], nodesByComponent, componentByNode);
  }
}
