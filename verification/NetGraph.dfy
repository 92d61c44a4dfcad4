/** The network as a graph: walks, adjacency, and the breadth-first spanning tree. */
module NetGraph {
  import opened Wrappers
  import Names

  datatype Kind = Pipe | Orifice | HxSegment | Imposer

  /** An edge's fixed part; its flow is positive from `a` to `b`. */
  datatype Link = Link(id: string, a: string, b: string, kind: Kind) {
    predicate Unknown() {
      kind != Imposer
    }
  }

  datatype NetError =
    | DisconnectedNetwork
    | OverconstrainedDemand
    | UnbalancedDemand
    | AllImposerLoop
    | NoConvergence(iterations: nat, residual: real)
    | UnknownNode
    | DisconnectedQueryPath

  /** What building the graph demands: a first node, and edges between listed nodes. */
  ghost predicate WfGraph(nodes: seq<string>, links: seq<Link>) {
    nodes != [] && forall i :: 0 <= i < |links| ==> links[i].a in nodes && links[i].b in nodes
  }

  // ----- walks -----

  /** One edge traversed; `sign` is 1 in its own `a` to `b` sense and -1 against it. */
  datatype Hop = Hop(edge: nat, sign: int)

  function Tail(links: seq<Link>, h: Hop): string
    requires h.edge < |links|
  {
    if h.sign == 1 then links[h.edge].a else links[h.edge].b
  }

  function Head(links: seq<Link>, h: Hop): string
    requires h.edge < |links|
  {
    if h.sign == 1 then links[h.edge].b else links[h.edge].a
  }

  predicate WfHop(links: seq<Link>, h: Hop) {
    h.edge < |links| && (h.sign == 1 || h.sign == -1)
  }

  /** `w` leads from `u` to `v`, hop by hop. */
  predicate Walk(links: seq<Link>, w: seq<Hop>, u: string, v: string)
    decreases |w|
  {
    if w == [] then u == v
    else WfHop(links, w[0]) && Tail(links, w[0]) == u && Walk(links, w[1..], Head(links, w[0]), v)
  }

  ghost predicate Reaches(links: seq<Link>, u: string, v: string) {
    exists w :: Walk(links, w, u, v)
  }

  /** Edge `e` joins `u` and `v`, in either sense. */
  predicate Joins(links: seq<Link>, e: nat, u: string, v: string) {
    e < |links| && ((links[e].a == u && links[e].b == v) || (links[e].b == u && links[e].a == v))
  }

  lemma {:induction false} WalkAppend(links: seq<Link>, w: seq<Hop>, h: Hop, u: string, v: string)
    requires Walk(links, w, u, v) && WfHop(links, h) && Tail(links, h) == v
    ensures Walk(links, w + [h], u, Head(links, h))
    decreases |w|
  {
    if w == [] {
      assert [h][1..] == [];
      assert w + [h] == [h];
    } else {
      WalkAppend(links, w[1..], h, Head(links, w[0]), v);
      assert (w + [h])[1..] == w[1..] + [h];
    }
  }

  /** The hop across `e` from `u` to `v`. */
  function HopAcross(links: seq<Link>, e: nat, u: string, v: string): (h: Hop)
    requires Joins(links, e, u, v)
    ensures WfHop(links, h) && h.edge == e && Tail(links, h) == u && Head(links, h) == v
  {
    if links[e].a == u && links[e].b == v then Hop(e, 1) else Hop(e, -1)
  }

  lemma ReachesFurther(links: seq<Link>, u: string, v: string, e: nat, n: string)
    requires Reaches(links, u, v) && Joins(links, e, v, n)
    ensures Reaches(links, u, n)
  {
    var w :| Walk(links, w, u, v);
    WalkAppend(links, w, HopAcross(links, e, v, n), u, v);
  }

  /** A set of nodes with every neighbour of its members. */
  ghost predicate ClosedUnder(links: seq<Link>, s: set<string>) {
    forall e: nat, u, v :: u in s && Joins(links, e, u, v) ==> v in s
  }

  lemma {:induction false} WalkStaysInside(links: seq<Link>, s: set<string>, w: seq<Hop>, u: string, v: string)
    requires ClosedUnder(links, s) && u in s && Walk(links, w, u, v)
    ensures v in s
    decreases |w|
  {
    if w != [] {
      assert Joins(links, w[0].edge, u, Head(links, w[0]));
      WalkStaysInside(links, s, w[1..], Head(links, w[0]), v);
    }
  }

  // ----- adjacency -----

  /** An entry of an adjacency list: a neighbour and the edge to it. */
  datatype Neighbour = Neighbour(node: string, edge: nat)

  /** The entries of `n` over the first `i` edges, in edge order; a self-loop is listed twice. */
  function Entries(links: seq<Link>, i: nat, n: string): seq<Neighbour>
    requires i <= |links|
  {
    if i == 0 then []
    else
      var l := links[i - 1];
      Entries(links, i - 1, n) + (if l.a == n then [Neighbour(l.b, i - 1)] else [])
                               + (if l.b == n then [Neighbour(l.a, i - 1)] else [])
  }

  lemma {:induction false} EntriesJoin(links: seq<Link>, i: nat, n: string)
    requires i <= |links|
    ensures forall j :: 0 <= j < |Entries(links, i, n)| ==>
              Joins(links, Entries(links, i, n)[j].edge, n, Entries(links, i, n)[j].node)
    ensures forall e: nat, m :: e < i && Joins(links, e, n, m) ==> Neighbour(m, e) in Entries(links, i, n)
  {
    if i > 0 {
      EntriesJoin(links, i - 1, n);
      var before, l := Entries(links, i - 1, n), links[i - 1];
      var fwd := if l.a == n then [Neighbour(l.b, i - 1)] else [];
      var bwd := if l.b == n then [Neighbour(l.a, i - 1)] else [];
      assert Entries(links, i, n) == before + fwd + bwd;
      forall e: nat, m | e < i && Joins(links, e, n, m) ensures Neighbour(m, e) in before + fwd + bwd {
        if e < i - 1 {
          assert Neighbour(m, e) in before;
        } else if l.a == n && l.b == m {
          assert fwd[0] == Neighbour(m, e);
        } else {
          assert bwd[0] == Neighbour(m, e);
        }
      }
    }
  }

  /** Every node is listed with its entries over the first `i` edges. */
  ghost predicate Listed(nodes: seq<string>, links: seq<Link>, i: nat, listed: map<string, seq<Neighbour>>) {
    i <= |links| && listed.Keys == (set n | n in nodes) && forall n :: n in nodes ==> listed[n] == Entries(links, i, n)
  }

  method BuildAdjacency(nodes: seq<string>, links: seq<Link>) returns (adjacency: map<string, seq<Neighbour>>)
    requires WfGraph(nodes, links)
    ensures Listed(nodes, links, |links|, adjacency)
  {
    adjacency := map n | n in nodes :: [];
    for i := 0 to |links|
      invariant Listed(nodes, links, i, adjacency)
    {
      ListedNext(nodes, links, i, adjacency);
      var l := links[i];
      adjacency := adjacency[l.a := adjacency[l.a] + [Neighbour(l.b, i)]];
      adjacency := adjacency[l.b := adjacency[l.b] + [Neighbour(l.a, i)]];
    }
  }

  /** Edge `i` entered at both its ends. */
  lemma ListedNext(nodes: seq<string>, links: seq<Link>, i: nat, listed: map<string, seq<Neighbour>>)
    requires WfGraph(nodes, links) && i < |links| && Listed(nodes, links, i, listed)
    ensures links[i].a in listed && links[i].b in listed
    ensures var once := listed[links[i].a := listed[links[i].a] + [Neighbour(links[i].b, i)]];
            var twice := once[links[i].b := once[links[i].b] + [Neighbour(links[i].a, i)]];
            Listed(nodes, links, i + 1, twice)
  {
    assert links[i].a in nodes && links[i].b in nodes;
    hide WfGraph;
    forall n | n in nodes
      ensures Entries(links, i + 1, n) ==
              Entries(links, i, n) + (if links[i].a == n then [Neighbour(links[i].b, i)] else [])
                                   + (if links[i].b == n then [Neighbour(links[i].a, i)] else [])
    {
      EntriesGrow(links, i, n);
    }
  }

  lemma EntriesGrow(links: seq<Link>, i: nat, n: string)
    requires i < |links|
    ensures Entries(links, i + 1, n) ==
            Entries(links, i, n) + (if links[i].a == n then [Neighbour(links[i].b, i)] else [])
                                 + (if links[i].b == n then [Neighbour(links[i].a, i)] else [])
  {
  }

  // ----- the spanning tree -----

  datatype Tree = Tree(order: seq<string>, parentNode: map<string, string>, parentEdge: map<string, nat>,
                       treeEdges: set<nat>)

  function NodeSet(nodes: seq<string>): set<string> {
    set n | n in nodes
  }

  /** The node at position `i` hangs from an earlier one by its parent edge. */
  ghost predicate HangsAt(links: seq<Link>, t: Tree, i: nat) {
    && i < |t.order| && t.order[i] in t.parentNode && t.order[i] in t.parentEdge
    && t.parentNode[t.order[i]] in t.order[..i]
    && Joins(links, t.parentEdge[t.order[i]], t.parentNode[t.order[i]], t.order[i])
  }

  /** A tree from `root` over the nodes of `order`, parents before children. */
  ghost predicate TreeOk(root: string, links: seq<Link>, t: Tree) {
    && t.order != [] && t.order[0] == root && Names.Distinct(t.order)
    && t.parentNode.Keys == t.parentEdge.Keys == NodeSet(t.order) - {root}
    && (forall i :: 0 < i < |t.order| ==> HangsAt(links, t, i))
    && (forall e :: e in t.treeEdges <==> e in t.parentEdge.Values)
  }

  ghost predicate Spans(nodes: seq<string>, links: seq<Link>, t: Tree) {
    nodes != [] && Names.Distinct(nodes) && TreeOk(nodes[0], links, t) && NodeSet(t.order) == NodeSet(nodes)
  }

  /** Every node can be reached from the first one. */
  ghost predicate Connected(nodes: seq<string>, links: seq<Link>)
    requires nodes != []
  {
    forall n :: n in nodes ==> Reaches(links, nodes[0], n)
  }

  function Hang(t: Tree, n: string, m: string, e: nat): Tree {
    Tree(t.order + [m], t.parentNode[m := n], t.parentEdge[m := e], t.treeEdges + {e})
  }

  lemma HangKeeps(root: string, links: seq<Link>, t: Tree, n: string, m: string, e: nat)
    requires TreeOk(root, links, t) && n in t.order && m !in t.order && Joins(links, e, n, m)
    ensures TreeOk(root, links, Hang(t, n, m, e))
  {
    var g := Hang(t, n, m, e);
    forall i | 0 < i < |g.order| ensures HangsAt(links, g, i) {
      if i < |t.order| {
        assert HangsAt(links, t, i);
        assert g.order[i] == t.order[i] && t.order[i] in t.order;
        assert g.order[..i] == t.order[..i];
      } else {
        assert g.order[..i] == t.order;
      }
    }
    assert NodeSet(g.order) == NodeSet(t.order) + {m};
    assert t.order[0] in t.order;
    HangEdges(t, m, e);
  }

  lemma HangEdges(t: Tree, m: string, e: nat)
    requires m !in t.parentEdge && forall x :: x in t.treeEdges <==> x in t.parentEdge.Values
    ensures forall x :: x in t.treeEdges + {e} <==> x in t.parentEdge[m := e].Values
  {
    var pe := t.parentEdge[m := e];
    assert pe[m] == e;
    forall x | x in t.parentEdge.Values ensures x in pe.Values {
      var k :| k in t.parentEdge && t.parentEdge[k] == x;
      assert pe[k] == x;
    }
  }

  lemma {:induction false} SizeOfNodes(nodes: seq<string>)
    ensures |NodeSet(nodes)| <= |nodes|
    ensures |NodeSet(nodes)| == |nodes| <==> Names.Distinct(nodes)
  {
    if nodes != [] {
      var k := |nodes| - 1;
      var front, last := nodes[..k], nodes[k];
      SizeOfNodes(front);
      assert nodes == front + [last];
      assert NodeSet(nodes) == NodeSet(front) + {last};
      if last in front {
        assert NodeSet(nodes) == NodeSet(front);
        var i :| 0 <= i < k && nodes[i] == last;
      } else {
        assert Names.Distinct(front) ==> Names.Distinct(nodes);
      }
    }
  }

  /** What the search maintains: a tree over the visited nodes, all reachable; the queue holds the visited nodes
      whose neighbours are still to be looked at. */
  ghost predicate Searching(nodes: seq<string>, links: seq<Link>, t: Tree, done: seq<string>, queue: seq<string>) {
    && nodes != [] && TreeOk(nodes[0], links, t) && t.order == done + queue
    && NodeSet(t.order) <= NodeSet(nodes)
    && (forall n :: n in t.order ==> Reaches(links, nodes[0], n))
    && (forall n, e: nat, m :: n in done && Joins(links, e, n, m) ==> m in t.order)
  }

  /** The first `k` entries of `node` have been looked at. */
  ghost predicate Looked(entries: seq<Neighbour>, k: nat, t: Tree) {
    k <= |entries| && forall j :: 0 <= j < k ==> entries[j].node in t.order
  }

  lemma EndpointsListed(nodes: seq<string>, links: seq<Link>, e: nat, u: string, v: string)
    requires WfGraph(nodes, links) && Joins(links, e, u, v)
    ensures u in NodeSet(nodes) && v in NodeSet(nodes)
  {
  }

  lemma VisitOne(nodes: seq<string>, links: seq<Link>, t: Tree, done: seq<string>, queue: seq<string>,
                 n: string, m: string, e: nat)
    requires WfGraph(nodes, links) && Searching(nodes, links, t, done, queue)
    requires n in t.order && m !in t.order && Joins(links, e, n, m)
    ensures Searching(nodes, links, Hang(t, n, m, e), done, queue + [m])
  {
    hide TreeOk, Reaches, WfGraph, Joins;
    HangKeeps(nodes[0], links, t, n, m, e);
    ReachesFurther(links, nodes[0], n, e, m);
    EndpointsListed(nodes, links, e, n, m);
    var g := Hang(t, n, m, e);
    assert g.order == done + (queue + [m]);
    assert NodeSet(g.order) == NodeSet(t.order) + {m};
  }

  lemma StartSearch(nodes: seq<string>, links: seq<Link>)
    requires WfGraph(nodes, links)
    ensures Searching(nodes, links, Tree([nodes[0]], map[], map[], {}), [], [nodes[0]])
  {
    var t := Tree([nodes[0]], map[], map[], {});
    assert Walk(links, [], nodes[0], nodes[0]);
    assert NodeSet(t.order) == {nodes[0]};
  }

  /** All neighbours of the node at the head of the queue are visited: it is done. */
  lemma FinishNode(nodes: seq<string>, links: seq<Link>, t: Tree, done: seq<string>, node: string, queue: seq<string>,
                   entries: seq<Neighbour>)
    requires Searching(nodes, links, t, done, [node] + queue)
    requires entries == Entries(links, |links|, node) && Looked(entries, |entries|, t)
    ensures Searching(nodes, links, t, done + [node], queue)
  {
    EntriesJoin(links, |links|, node);
    hide TreeOk, Reaches;
    assert (done + [node]) + queue == done + ([node] + queue);
    forall n, e: nat, m | n in done + [node] && Joins(links, e, n, m) ensures m in t.order {
      if n == node {
        assert Neighbour(m, e) in entries;
        var j: nat :| j < |entries| && entries[j] == Neighbour(m, e);
      }
    }
  }

  lemma DoneShrinks(nodes: seq<string>, links: seq<Link>, t: Tree, done: seq<string>, node: string, queue: seq<string>)
    requires Searching(nodes, links, t, done, [node] + queue)
    ensures node in NodeSet(nodes) - NodeSet(done)
    ensures NodeSet(done + [node]) == NodeSet(done) + {node}
  {
    var k := |done|;
    assert t.order[k] == node && node in t.order;
    forall i | 0 <= i < |done| ensures done[i] != node { assert t.order[i] != t.order[k]; }
  }

  lemma SearchEnds(nodes: seq<string>, links: seq<Link>, t: Tree, done: seq<string>)
    requires WfGraph(nodes, links) && Searching(nodes, links, t, done, [])
    ensures |NodeSet(t.order)| == |nodes| <==> Names.Distinct(nodes) && Connected(nodes, links)
    ensures |NodeSet(t.order)| == |nodes| ==> Spans(nodes, links, t)
  {
    SizeOfNodes(nodes);
    assert t.order == done;
    if Names.Distinct(nodes) && Connected(nodes, links) {
      assert ClosedUnder(links, NodeSet(t.order));
      assert nodes[0] in t.order;
      forall n | n in nodes ensures n in t.order {
        var w :| Walk(links, w, nodes[0], n);
        WalkStaysInside(links, NodeSet(t.order), w, nodes[0], n);
      }
      assert NodeSet(t.order) == NodeSet(nodes);
    }
    if |NodeSet(t.order)| == |nodes| {
      SubsetSize(NodeSet(t.order), NodeSet(nodes));
      forall n | n in nodes ensures Reaches(links, nodes[0], n) { assert n in NodeSet(t.order); }
    }
  }

  lemma SubsetSize(a: set<string>, b: set<string>)
    requires a <= b && |a| >= |b|
    ensures a == b
  {
    var rest := b - a;
    assert b == a + rest;
    assert |b| == |a| + |rest|;
  }

  lemma {:induction false} ListedReaches(root: string, links: seq<Link>, t: Tree, j: nat)
    requires TreeOk(root, links, t) && j < |t.order|
    ensures Reaches(links, root, t.order[j])
  {
    if j == 0 {
      assert Walk(links, [], root, root);
    } else {
      assert HangsAt(links, t, j);
      var q: nat :| q < j && t.order[q] == t.parentNode[t.order[j]];
      ListedReaches(root, links, t, q);
      ReachesFurther(links, root, t.order[q], t.parentEdge[t.order[j]], t.order[j]);
    }
  }

  /** What a tree spans is connected. */
  lemma SpannedIsConnected(nodes: seq<string>, links: seq<Link>, t: Tree)
    requires Spans(nodes, links, t)
    ensures Names.Distinct(nodes) && Connected(nodes, links)
  {
    hide TreeOk, Reaches;
    forall n | n in nodes ensures Reaches(links, nodes[0], n) {
      assert n in NodeSet(nodes);
      var j := PlaceIn(NodeSet(nodes), t.order, n);
      ListedReaches(nodes[0], links, t, j);
    }
  }

  // ----- breadth first -----

  /** The node at position `j` hangs from the node at position `q`. */
  ghost predicate HangsFrom(t: Tree, j: nat, q: nat) {
    && 0 < j < |t.order| && q < j && t.order[j] in t.parentNode && t.order[j] in t.parentEdge
    && t.parentNode[t.order[j]] == t.order[q]
  }

  function EdgeAt(t: Tree, j: nat): nat
    requires j < |t.order| && t.order[j] in t.parentEdge
  {
    t.parentEdge[t.order[j]]
  }

  /** Nodes are listed by the position of their parent, and under one parent by their edge to it. */
  ghost predicate InLayers(t: Tree) {
    forall i, j, p, q :: i < j && HangsFrom(t, i, p) && HangsFrom(t, j, q) ==>
      p < q || (p == q && EdgeAt(t, i) < EdgeAt(t, j))
  }

  /** Every node hangs from the first listed node next to it, by the first edge between them. */
  ghost predicate FirstCome(links: seq<Link>, t: Tree) {
    forall j, q :: HangsFrom(t, j, q) ==> NoneSooner(links, t, j, q)
  }

  ghost predicate NoneSooner(links: seq<Link>, t: Tree, j: nat, q: nat)
    requires HangsFrom(t, j, q)
  {
    forall p: nat, e: nat :: p < |t.order| && Joins(links, e, t.order[p], t.order[j]) ==>
      q < p || (q == p && EdgeAt(t, j) <= e)
  }

  ghost predicate BreadthFirst(links: seq<Link>, t: Tree) {
    InLayers(t) && FirstCome(links, t)
  }

  /** Nodes hang from the first `n` nodes, or from the next one by one of its first `k` entries. */
  ghost predicate Opened(t: Tree, n: nat, entries: seq<Neighbour>, k: nat) {
    k <= |entries| && forall j, q: nat :: HangsFrom(t, j, q) ==> q < n || (q == n && ByEntry(t, j, entries, k))
  }

  ghost predicate ByEntry(t: Tree, j: nat, entries: seq<Neighbour>, k: nat)
    requires j < |t.order| && t.order[j] in t.parentEdge && k <= |entries|
  {
    exists i :: 0 <= i < k && entries[i] == Neighbour(t.order[j], EdgeAt(t, j))
  }

  lemma {:induction false} EntriesAscend(links: seq<Link>, i: nat, n: string)
    requires i <= |links|
    ensures forall j :: 0 <= j < |Entries(links, i, n)| ==> Entries(links, i, n)[j].edge < i
    ensures forall j, k :: 0 <= j < k < |Entries(links, i, n)| ==>
              Entries(links, i, n)[j].edge <= Entries(links, i, n)[k].edge
  {
    if i > 0 { EntriesAscend(links, i - 1, n); }
  }

  /** Positions in the longer tree are positions in the shorter one, but for the new node. */
  lemma HangPositions(root: string, links: seq<Link>, t: Tree, n: string, m: string, e: nat, j: nat, q: nat)
    requires TreeOk(root, links, t) && n in t.order && m !in t.order && HangsFrom(Hang(t, n, m, e), j, q)
    ensures var g := Hang(t, n, m, e);
            if j < |t.order| then HangsFrom(t, j, q) && EdgeAt(g, j) == EdgeAt(t, j)
            else j == |t.order| && t.order[q] == n && EdgeAt(g, j) == e
  {
    var g := Hang(t, n, m, e);
    if j < |t.order| { assert t.order[j] in t.order && t.order[q] in t.order; }
  }

  /** An unvisited neighbour found at entry `k` is not next to any node done before, nor by any earlier edge. */
  lemma NewNodeFirst(nodes: seq<string>, links: seq<Link>, t: Tree, done: seq<string>, node: string,
                     queue: seq<string>, entries: seq<Neighbour>, k: nat, p: nat, x: nat)
    requires Searching(nodes, links, t, done, [node] + queue) && entries == Entries(links, |links|, node)
    requires Looked(entries, k, t) && k < |entries| && entries[k].node !in t.order
    requires p < |t.order| && Joins(links, x, t.order[p], entries[k].node)
    ensures |done| < p || (|done| == p && entries[k].edge <= x)
  {
    hide TreeOk, Joins, Reaches;
    assert forall i :: 0 <= i < |done| ==> t.order[i] in done;
    if p == |done| {
      assert t.order[p] == node;
      EntriesJoin(links, |links|, node);
      EntriesAscend(links, |links|, node);
      JoinsInRange(links, x, node, entries[k].node);
      var i :| 0 <= i < |entries| && entries[i] == Neighbour(entries[k].node, x);
      hide Entries;
      assert k <= i;
    }
  }

  lemma JoinsInRange(links: seq<Link>, e: nat, u: string, v: string)
    requires Joins(links, e, u, v)
    ensures e < |links|
  {
  }

  /** Two neighbours by one edge are one. */
  lemma OneNeighbour(links: seq<Link>, e: nat, n: string, m: string, x: string)
    requires Joins(links, e, n, m) && Joins(links, e, n, x)
    ensures m == x
  {
  }

  /** The new node hangs from the node at the head of the queue, by an edge later than its siblings'. */
  lemma HangInLayers(nodes: seq<string>, links: seq<Link>, t: Tree, done: seq<string>, node: string,
                     queue: seq<string>, entries: seq<Neighbour>, k: nat)
    requires Searching(nodes, links, t, done, [node] + queue) && entries == Entries(links, |links|, node)
    requires k < |entries| && entries[k].node !in t.order
    requires InLayers(t) && Opened(t, |done|, entries, k)
    ensures InLayers(Hang(t, node, entries[k].node, entries[k].edge))
    ensures Opened(Hang(t, node, entries[k].node, entries[k].edge), |done|, entries, k + 1)
  {
    QueuedIsVisited(nodes, links, t, done, node, queue);
    assert TreeOk(nodes[0], links, t) && t.order[|done|] == node && |done| < |t.order|;
    EntriesJoin(links, |links|, node);
    EntriesAscend(links, |links|, node);
    hide *;
    OpenedHangs(nodes[0], links, t, |done|, node, entries, k);
    LayersHang(nodes[0], links, t, |done|, node, entries, k);
  }

  lemma OpenedHangs(root: string, links: seq<Link>, t: Tree, n: nat, node: string, entries: seq<Neighbour>, k: nat)
    requires TreeOk(root, links, t) && n < |t.order| && t.order[n] == node && Opened(t, n, entries, k)
    requires k < |entries| && entries[k].node !in t.order && Joins(links, entries[k].edge, node, entries[k].node)
    ensures Opened(Hang(t, node, entries[k].node, entries[k].edge), n, entries, k + 1)
  {
    var m, e := entries[k].node, entries[k].edge;
    var g := Hang(t, node, m, e);
    hide TreeOk, Joins, HangsFrom;
    forall j: nat, q: nat | HangsFrom(g, j, q) ensures q < n || (q == n && ByNewEntry(g, j, entries, k + 1)) {
      OneOpened(root, links, t, n, node, entries, k, j, q);
    }
    OpenedBy(g, n, entries, k + 1);
  }

  /** `ByEntry` for a node that has a parent edge. */
  ghost predicate ByNewEntry(t: Tree, j: nat, entries: seq<Neighbour>, k: nat) {
    j < |t.order| && t.order[j] in t.parentEdge && k <= |entries| && ByEntry(t, j, entries, k)
  }

  lemma OpenedBy(t: Tree, n: nat, entries: seq<Neighbour>, k: nat)
    requires k <= |entries|
    requires forall j: nat, q: nat :: HangsFrom(t, j, q) ==> q < n || (q == n && ByNewEntry(t, j, entries, k))
    ensures Opened(t, n, entries, k)
  {
    hide ByEntry;
  }

  lemma OneOpened(root: string, links: seq<Link>, t: Tree, n: nat, node: string, entries: seq<Neighbour>, k: nat,
                  j: nat, q: nat)
    requires TreeOk(root, links, t) && n < |t.order| && t.order[n] == node && Opened(t, n, entries, k)
    requires k < |entries| && entries[k].node !in t.order && Joins(links, entries[k].edge, node, entries[k].node)
    requires HangsFrom(Hang(t, node, entries[k].node, entries[k].edge), j, q)
    ensures var g := Hang(t, node, entries[k].node, entries[k].edge);
            q < n || (q == n && ByNewEntry(g, j, entries, k + 1))
  {
    var m, e := entries[k].node, entries[k].edge;
    var g := Hang(t, node, m, e);
    HangPositions(root, links, t, node, m, e, j, q);
    hide TreeOk, Joins, NoneSooner;
    if j < |t.order| {
      if q == n {
        assert ByEntry(t, j, entries, k);
        var i :| 0 <= i < k && entries[i] == Neighbour(t.order[j], EdgeAt(t, j));
        assert entries[i] == Neighbour(g.order[j], EdgeAt(g, j));
      }
    } else {
      NewestAt(root, links, t, q, n);
      assert entries[k] == Neighbour(g.order[j], EdgeAt(g, j));
    }
  }

  lemma LayersHang(root: string, links: seq<Link>, t: Tree, n: nat, node: string, entries: seq<Neighbour>, k: nat)
    requires TreeOk(root, links, t) && n < |t.order| && t.order[n] == node && Opened(t, n, entries, k) && InLayers(t)
    requires k < |entries| && entries[k].node !in t.order
    requires forall j :: 0 <= j < |entries| ==> Joins(links, entries[j].edge, node, entries[j].node)
    requires forall a, b :: 0 <= a < b < |entries| ==> entries[a].edge <= entries[b].edge
    ensures InLayers(Hang(t, node, entries[k].node, entries[k].edge))
  {
    var m, e := entries[k].node, entries[k].edge;
    var g := Hang(t, node, m, e);
    hide TreeOk, Joins, HangsFrom, ByEntry, EdgeAt;
    forall i: nat, j: nat, p: nat, q: nat | i < j && HangsFrom(g, i, p) && HangsFrom(g, j, q)
      ensures InTurn(g, i, j, p, q)
    {
      HangPositions(root, links, t, node, m, e, i, p);
      HangPositions(root, links, t, node, m, e, j, q);
      if j < |t.order| {
        assert HangsFrom(t, i, p) && HangsFrom(t, j, q);
      } else {
        NewestAt(root, links, t, q, n);
        if p == n { EarlierEntry(links, t, node, entries, k, i); }
      }
    }
    LayersInTurn(g);
  }

  ghost predicate InTurn(t: Tree, i: nat, j: nat, p: nat, q: nat) {
    p < q || (p == q && i < |t.order| && j < |t.order| && t.order[i] in t.parentEdge && t.order[j] in t.parentEdge &&
              EdgeAt(t, i) < EdgeAt(t, j))
  }

  lemma LayersInTurn(t: Tree)
    requires forall i: nat, j: nat, p: nat, q: nat :: i < j && HangsFrom(t, i, p) && HangsFrom(t, j, q) ==>
               InTurn(t, i, j, p, q)
    ensures InLayers(t)
  {
    hide EdgeAt;
  }

  lemma NewestAt(root: string, links: seq<Link>, t: Tree, p: nat, q: nat)
    requires TreeOk(root, links, t) && p < |t.order| && q < |t.order|
    ensures t.order[p] == t.order[q] ==> p == q
  {
  }

  lemma EarlierEntry(links: seq<Link>, t: Tree, node: string, entries: seq<Neighbour>, k: nat, i: nat)
    requires k < |entries| && entries[k].node !in t.order && i < |t.order| && t.order[i] in t.parentEdge
    requires forall j :: 0 <= j < |entries| ==> Joins(links, entries[j].edge, node, entries[j].node)
    requires forall a, b :: 0 <= a < b < |entries| ==> entries[a].edge <= entries[b].edge
    requires ByEntry(t, i, entries, k)
    ensures EdgeAt(t, i) < entries[k].edge
  {
    var a :| 0 <= a < k && entries[a] == Neighbour(t.order[i], EdgeAt(t, i));
    if entries[a].edge == entries[k].edge {
      OneNeighbour(links, entries[k].edge, node, entries[k].node, t.order[i]);
    }
  }

  /** The new node hangs from the first listed node next to it, by the first edge between them. */
  lemma HangFirstCome(nodes: seq<string>, links: seq<Link>, t: Tree, done: seq<string>, node: string,
                      queue: seq<string>, entries: seq<Neighbour>, k: nat)
    requires Searching(nodes, links, t, done, [node] + queue) && entries == Entries(links, |links|, node)
    requires Looked(entries, k, t) && k < |entries| && entries[k].node !in t.order
    requires FirstCome(links, t) && Opened(t, |done|, entries, k)
    ensures FirstCome(links, Hang(t, node, entries[k].node, entries[k].edge))
  {
    QueuedIsVisited(nodes, links, t, done, node, queue);
    assert TreeOk(nodes[0], links, t) && t.order[|done|] == node && |done| < |t.order|;
    EntriesJoin(links, |links|, node);
    hide *;
    forall p: nat, x: nat | p < |t.order| && Joins(links, x, t.order[p], entries[k].node)
      ensures |done| < p || (|done| == p && entries[k].edge <= x)
    {
      NewNodeFirst(nodes, links, t, done, node, queue, entries, k, p, x);
    }
    FirstComeHangs(nodes[0], links, t, |done|, node, entries, k);
  }

  lemma FirstComeHangs(root: string, links: seq<Link>, t: Tree, n: nat, node: string, entries: seq<Neighbour>, k: nat)
    requires TreeOk(root, links, t) && n < |t.order| && t.order[n] == node && Opened(t, n, entries, k)
    requires k < |entries| && entries[k].node !in t.order && FirstCome(links, t)
    requires Joins(links, entries[k].edge, node, entries[k].node)
    requires forall p: nat, x: nat :: p < |t.order| && Joins(links, x, t.order[p], entries[k].node) ==>
               n < p || (n == p && entries[k].edge <= x)
    ensures FirstCome(links, Hang(t, node, entries[k].node, entries[k].edge))
  {
    var m, e := entries[k].node, entries[k].edge;
    var g := Hang(t, node, m, e);
    hide TreeOk, Joins, HangsFrom, EdgeAt, NoneSooner;
    forall j: nat, q: nat | HangsFrom(g, j, q) ensures NoneSooner(links, g, j, q) {
      HangPositions(root, links, t, node, m, e, j, q);
      if j < |t.order| {
        SoonerStays(links, t, n, node, m, e, entries, k, j, q);
      } else {
        NewestAt(root, links, t, q, n);
        NewestSooner(links, t, n, node, m, e, j);
      }
    }
  }

  lemma SoonerStays(links: seq<Link>, t: Tree, n: nat, node: string, m: string, e: nat, entries: seq<Neighbour>,
                    k: nat, j: nat, q: nat)
    requires n < |t.order| && j < |t.order| && HangsFrom(t, j, q) && NoneSooner(links, t, j, q)
    requires Opened(t, n, entries, k)
    requires HangsFrom(Hang(t, node, m, e), j, q) && EdgeAt(Hang(t, node, m, e), j) == EdgeAt(t, j)
    ensures NoneSooner(links, Hang(t, node, m, e), j, q)
  {
    var g := Hang(t, node, m, e);
    assert j < |g.order| && g.order[j] in g.parentEdge;
    hide Joins, HangsFrom, ByEntry, EdgeAt;
    assert q <= n;
    forall p: nat, x: nat | p < |g.order| && Joins(links, x, g.order[p], g.order[j])
      ensures q < p || (q == p && EdgeAt(g, j) <= x)
    {
      if p < |t.order| { assert g.order[p] == t.order[p] && g.order[j] == t.order[j]; }
    }
  }

  lemma NewestSooner(links: seq<Link>, t: Tree, n: nat, node: string, m: string, e: nat, j: nat)
    requires n < |t.order| && j == |t.order| && HangsFrom(Hang(t, node, m, e), j, n)
    requires forall p: nat, x: nat :: p < |t.order| && Joins(links, x, t.order[p], m) ==> n < p || (n == p && e <= x)
    ensures NoneSooner(links, Hang(t, node, m, e), j, n)
  {
    hide Joins;
    var g := Hang(t, node, m, e);
    assert g.order[j] == m && EdgeAt(g, j) == e;
    forall p: nat, x: nat | p < |g.order| && Joins(links, x, g.order[p], g.order[j])
      ensures n < p || (n == p && EdgeAt(g, j) <= x)
    {
      if p < |t.order| { assert g.order[p] == t.order[p]; }
    }
  }

  lemma OpenedMore(t: Tree, n: nat, entries: seq<Neighbour>, k: nat)
    requires Opened(t, n, entries, k) && k < |entries|
    ensures Opened(t, n, entries, k + 1)
  {
    forall j, q: nat | HangsFrom(t, j, q) ensures q < n || (q == n && ByEntry(t, j, entries, k + 1)) {
      if q == n { assert ByEntry(t, j, entries, k); }
    }
  }

  /** All nodes hang from the first `n`. */
  ghost predicate HangWithin(t: Tree, n: nat) {
    forall j, q: nat :: HangsFrom(t, j, q) ==> q < n
  }

  lemma OpenNext(t: Tree, n: nat, entries: seq<Neighbour>)
    requires HangWithin(t, n)
    ensures Opened(t, n, entries, 0)
  {
  }

  lemma CloseNode(t: Tree, n: nat, entries: seq<Neighbour>)
    requires Opened(t, n, entries, |entries|)
    ensures HangWithin(t, n + 1)
  {
  }

  lemma StartBreadthFirst(links: seq<Link>, root: string)
    ensures var t := Tree([root], map[], map[], {}); BreadthFirst(links, t) && HangWithin(t, 0)
  {
  }

  /** Both trees list the same nodes in the first `k` places. */
  ghost predicate SameUpTo(t: Tree, u: Tree, k: nat) {
    k <= |t.order| && k <= |u.order| && t.order[..k] == u.order[..k]
  }

  /** Where a node of the tree hangs. */
  lemma HangingPlace(root: string, links: seq<Link>, t: Tree, j: nat) returns (q: nat)
    requires TreeOk(root, links, t) && 0 < j < |t.order|
    ensures HangsFrom(t, j, q) && Joins(links, EdgeAt(t, j), t.order[q], t.order[j])
  {
    assert HangsAt(links, t, j);
    q :| q < j && t.order[q] == t.parentNode[t.order[j]];
  }

  lemma PlaceIn(s: set<string>, order: seq<string>, m: string) returns (j: nat)
    requires NodeSet(order) == s && m in s
    ensures j < |order| && order[j] == m
  {
    j :| j < |order| && order[j] == m;
  }

  /** The next node of `u` does not come sooner than the next node of `t`. */
  lemma NextNotSooner(root: string, links: seq<Link>, t: Tree, u: Tree, k: nat, p: nat, q: nat)
    requires TreeOk(root, links, t) && TreeOk(root, links, u) && NodeSet(t.order) == NodeSet(u.order)
    requires InLayers(u) && FirstCome(links, u) && SameUpTo(t, u, k) && 0 < k < |t.order| && k < |u.order|
    requires HangsFrom(t, k, p) && HangsFrom(u, k, q)
    requires Joins(links, EdgeAt(t, k), t.order[p], t.order[k])
    ensures q < p || (q == p && EdgeAt(u, k) <= EdgeAt(t, k))
  {
    var m := t.order[k];
    assert m in NodeSet(t.order);
    var j := PlaceIn(NodeSet(u.order), u.order, m);
    assert forall i :: 0 <= i < k ==> u.order[..k][i] == t.order[..k][i] != m;
    hide NodeSet, Joins;
    var r := HangingPlace(root, links, u, j);
    assert NoneSooner(links, u, j, r);
    assert t.order[..k][p] == u.order[..k][p];
    hide TreeOk, NoneSooner;
    NewestAt(root, links, u, q, r);
  }

  lemma {:induction false} SameOrder(root: string, links: seq<Link>, t: Tree, u: Tree, k: nat)
    requires TreeOk(root, links, t) && TreeOk(root, links, u) && NodeSet(t.order) == NodeSet(u.order)
    requires BreadthFirst(links, t) && BreadthFirst(links, u) && 0 < k <= |t.order| && |t.order| == |u.order|
    ensures SameUpTo(t, u, k) && forall j :: 0 < j < k ==> SameParent(t, u, j)
  {
    if k == 1 {
      assert t.order[..1] == [root] && u.order[..1] == [root];
    } else {
      hide *;
      SameOrder(root, links, t, u, k - 1);
      OneMoreSame(root, links, t, u, k - 1);
    }
  }

  lemma OneMoreSame(root: string, links: seq<Link>, t: Tree, u: Tree, k: nat)
    requires TreeOk(root, links, t) && TreeOk(root, links, u) && NodeSet(t.order) == NodeSet(u.order)
    requires BreadthFirst(links, t) && BreadthFirst(links, u) && 0 < k < |t.order| && |t.order| == |u.order|
    requires SameUpTo(t, u, k)
    ensures SameUpTo(t, u, k + 1) && SameParent(t, u, k)
  {
    hide TreeOk, InLayers, FirstCome, NodeSet, Joins;
    var p := HangingPlace(root, links, t, k);
    var q := HangingPlace(root, links, u, k);
    NextNotSooner(root, links, t, u, k, p, q);
    NextNotSooner(root, links, u, t, k, q, p);
    SameNext(links, t, u, k, p);
  }

  ghost predicate SameParent(t: Tree, u: Tree, j: nat) {
    && j < |t.order| && j < |u.order| && t.order[j] == u.order[j]
    && t.order[j] in t.parentEdge && t.order[j] in u.parentEdge && EdgeAt(t, j) == EdgeAt(u, j)
    && t.order[j] in t.parentNode && t.order[j] in u.parentNode
    && t.parentNode[t.order[j]] == u.parentNode[u.order[j]]
  }

  lemma SameNext(links: seq<Link>, t: Tree, u: Tree, k: nat, p: nat)
    requires HangsFrom(t, k, p) && HangsFrom(u, k, p) && SameUpTo(t, u, k) && EdgeAt(t, k) == EdgeAt(u, k)
    requires Joins(links, EdgeAt(t, k), t.order[p], t.order[k]) && Joins(links, EdgeAt(u, k), u.order[p], u.order[k])
    ensures SameUpTo(t, u, k + 1) && SameParent(t, u, k)
  {
    assert t.order[..k][p] == u.order[..k][p];
    OneNeighbour(links, EdgeAt(t, k), t.order[p], t.order[k], u.order[k]);
    assert t.order[..k + 1] == t.order[..k] + [t.order[k]] && u.order[..k + 1] == u.order[..k] + [u.order[k]];
  }

  /** The breadth-first tree is the only one: its nodes, their order and their parent edges are determined. */
  lemma BreadthFirstIsUnique(nodes: seq<string>, links: seq<Link>, t: Tree, u: Tree)
    requires Spans(nodes, links, t) && Spans(nodes, links, u) && BreadthFirst(links, t) && BreadthFirst(links, u)
    ensures t == u
  {
    var root := nodes[0];
    SizeOfNodes(t.order);
    SizeOfNodes(u.order);
    assert |t.order| == |u.order| && t.order != [];
    hide TreeOk, BreadthFirst, NodeSet;
    SameOrder(root, links, t, u, |t.order|);
    assert t.order == t.order[..|t.order|] && u.order == u.order[..|u.order|];
    SameTree(root, links, t, u);
  }

  lemma SameTree(root: string, links: seq<Link>, t: Tree, u: Tree)
    requires TreeOk(root, links, t) && TreeOk(root, links, u) && t.order == u.order
    requires forall j :: 0 < j < |t.order| ==> SameParent(t, u, j)
    ensures t == u
  {
    var below := NodeSet(t.order) - {root};
    assert t.parentEdge.Keys == u.parentEdge.Keys == t.parentNode.Keys == u.parentNode.Keys == below;
    assert t.order[0] == root;
    hide TreeOk;
    forall m | m in t.parentEdge ensures t.parentEdge[m] == u.parentEdge[m] && t.parentNode[m] == u.parentNode[m] {
      var j := PlaceIn(NodeSet(t.order), t.order, m);
      assert SameParent(t, u, j);
    }
    assert t.parentEdge == u.parentEdge && t.parentNode == u.parentNode;
    SameEdges(root, links, t, u);
  }

  lemma SameEdges(root: string, links: seq<Link>, t: Tree, u: Tree)
    requires TreeOk(root, links, t) && TreeOk(root, links, u) && t.parentEdge == u.parentEdge
    ensures t.treeEdges == u.treeEdges
  {
  }

  /** Breadth-first from the first node. It succeeds exactly when the nodes are distinct and all reachable from the
      first, and then gives the spanning tree in which every node hangs from the first listed node next to it. */
  method SpanningTree(nodes: seq<string>, links: seq<Link>) returns (r: Result<Tree, NetError>)
    requires WfGraph(nodes, links)
    ensures r.Ok? <==> Names.Distinct(nodes) && Connected(nodes, links)
    ensures match r
            case Ok(t) => Spans(nodes, links, t) && BreadthFirst(links, t)
            case Err(e) => e == DisconnectedNetwork
  {
    hide Searching, Looked, Connected, Spans, Names.Distinct, InLayers, FirstCome, Opened, HangWithin, Joins, TreeOk,
      Entries, Reaches;
    var adjacency := BuildAdjacency(nodes, links);
    var visited := {nodes[0]};
    var t := Tree([nodes[0]], map[], map[], {});
    var queue := [nodes[0]];
    ghost var done: seq<string> := [];
    StartSearch(nodes, links);
    StartBreadthFirst(links, nodes[0]);
    assert visited == NodeSet(t.order);
    while queue != []
      invariant Searching(nodes, links, t, done, queue) && visited == NodeSet(t.order)
      invariant BreadthFirst(links, t) && HangWithin(t, |done|)
      decreases NodeSet(nodes) - NodeSet(done)
    {
      var node := queue[0];
      assert queue == [node] + queue[1..];
      DoneShrinks(nodes, links, t, done, node, queue[1..]);
      queue := queue[1..];
      var entries := adjacency[node];
      EntriesJoin(links, |links|, node);
      assert Looked(entries, 0, t) by { LookedNone(entries, t); }
      OpenNext(t, |done|, entries);
      for k := 0 to |entries|
        invariant Searching(nodes, links, t, done, [node] + queue) && visited == NodeSet(t.order)
        invariant Looked(entries, k, t) && BreadthFirst(links, t) && Opened(t, |done|, entries, k)
      {
        var m, e := entries[k].node, entries[k].edge;
        QueuedIsVisited(nodes, links, t, done, node, queue);
        if m !in visited {
          VisitOne(nodes, links, t, done, [node] + queue, node, m, e);
          HangInLayers(nodes, links, t, done, node, queue, entries, k);
          HangFirstCome(nodes, links, t, done, node, queue, entries, k);
          LookedMore(entries, k, t, Hang(t, node, m, e));
          assert ([node] + queue) + [m] == [node] + (queue + [m]);
          assert NodeSet(t.order + [m]) == visited + {m};
          visited := visited + {m};
          t := Hang(t, node, m, e);
          queue := queue + [m];
        } else {
          LookedMore(entries, k, t, t);
          OpenedMore(t, |done|, entries, k);
        }
      }
      FinishNode(nodes, links, t, done, node, queue, entries);
      CloseNode(t, |done|, entries);
      done := done + [node];
    }
    SearchEnds(nodes, links, t, done);
    if |visited| != |nodes| {
      return Err(DisconnectedNetwork);
    }
    r := Ok(t);
  }

  lemma LookedNone(entries: seq<Neighbour>, t: Tree)
    ensures Looked(entries, 0, t)
  {
  }

  lemma QueuedIsVisited(nodes: seq<string>, links: seq<Link>, t: Tree, done: seq<string>, node: string,
                        queue: seq<string>)
    requires Searching(nodes, links, t, done, [node] + queue)
    ensures node in t.order
  {
    assert t.order[|done|] == node;
  }

  lemma LookedMore(entries: seq<Neighbour>, k: nat, t: Tree, g: Tree)
    requires Looked(entries, k, t) && k < |entries| && entries[k].node in g.order && forall n :: n in t.order ==>
             n in g.order
    ensures Looked(entries, k + 1, g)
  {
  }
}
