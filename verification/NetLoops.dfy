/** The fundamental cycle basis: one circulation per edge outside the spanning tree. */
module NetLoops {
  import opened Wrappers
  import opened NetGraph
  import Names

  // ----- weighted hop lists -----

  /** The weight of edge `e`; none beyond the list. */
  function At(w: seq<real>, e: nat): real {
    if e < |w| then w[e] else 0.0
  }

  /** The weight of the hop's edge, with the hop's sign. */
  function HopValue(h: Hop, w: seq<real>): real {
    h.sign as real * At(w, h.edge)
  }

  /** Sum of the weights along the hops, with their signs. */
  function HopSum(hops: seq<Hop>, w: seq<real>): real {
    if hops == [] then 0.0 else HopValue(hops[0], w) + HopSum(hops[1..], w)
  }

  function Reversed(h: Hop): Hop {
    Hop(h.edge, -h.sign)
  }

  function ReverseAll(hops: seq<Hop>): seq<Hop> {
    if hops == [] then [] else [Reversed(hops[0])] + ReverseAll(hops[1..])
  }

  /** The hops whose edge is not in `common`. */
  function Outside(hops: seq<Hop>, common: set<nat>): seq<Hop> {
    if hops == [] then [] else (if hops[0].edge in common then [] else [hops[0]]) + Outside(hops[1..], common)
  }

  function EdgesOf(hops: seq<Hop>): set<nat> {
    set h | h in hops :: h.edge
  }

  lemma {:induction false} HopSumAppend(a: seq<Hop>, b: seq<Hop>, w: seq<real>)
    ensures HopSum(a + b, w) == HopSum(a, w) + HopSum(b, w)
  {
    if a == [] {
      assert a + b == b;
    } else {
      HopSumAppend(a[1..], b, w);
      assert (a + b)[1..] == a[1..] + b;
    }
  }

  lemma {:induction false} HopSumReverse(hops: seq<Hop>, w: seq<real>)
    ensures HopSum(ReverseAll(hops), w) == -HopSum(hops, w)
  {
    if hops != [] {
      HopSumReverse(hops[1..], w);
      assert ReverseAll(hops)[1..] == ReverseAll(hops[1..]);
    }
  }

  // ----- paths to the root -----

  /** First position of `n`. */
  function Position(order: seq<string>, n: string): (i: nat)
    requires n in order
    ensures i < |order| && order[i] == n
  {
    if order[0] == n then 0 else 1 + Position(order[1..], n)
  }

  /** The hop into the node at position `i` from its parent. */
  function ParentHop(root: string, links: seq<Link>, t: Tree, i: nat): (h: Hop)
    requires TreeOk(root, links, t) && 0 < i < |t.order|
    ensures WfHop(links, h)
  {
    assert HangsAt(links, t, i);
    var e := t.parentEdge[t.order[i]];
    Hop(e, if links[e].b == t.order[i] then 1 else -1)
  }

  function ParentPosition(root: string, links: seq<Link>, t: Tree, i: nat): (p: nat)
    requires TreeOk(root, links, t) && 0 < i < |t.order|
    ensures p < i && t.order[p] == t.parentNode[t.order[i]]
  {
    assert HangsAt(links, t, i);
    Position(t.order[..i], t.parentNode[t.order[i]])
  }

  /** The hops from the node at position `i` up to the root, each signed in the direction away from the root. */
  function PathFrom(root: string, links: seq<Link>, t: Tree, i: nat): seq<Hop>
    requires TreeOk(root, links, t) && i < |t.order|
    decreases i
  {
    if i == 0 then []
    else [ParentHop(root, links, t, i)] + PathFrom(root, links, t, ParentPosition(root, links, t, i))
  }

  lemma ParentHopEnds(root: string, links: seq<Link>, t: Tree, i: nat)
    requires TreeOk(root, links, t) && 0 < i < |t.order|
    ensures var h := ParentHop(root, links, t, i);
            && Tail(links, h) == t.order[ParentPosition(root, links, t, i)] && Head(links, h) == t.order[i]
            && Tail(links, h) != Head(links, h)
            && h.edge == t.parentEdge[t.order[i]] && h.edge in t.treeEdges
  {
    assert HangsAt(links, t, i);
    var p := ParentPosition(root, links, t, i);
    assert t.order[p] != t.order[i];
    ValueIn(t.parentEdge, t.order[i]);
  }

  lemma ValueIn(pe: map<string, nat>, n: string)
    requires n in pe
    ensures pe[n] in pe.Values
  {
  }

  /** No edge is the parent edge of two nodes. */
  lemma ParentEdgesDiffer(root: string, links: seq<Link>, t: Tree, i: nat, j: nat)
    requires TreeOk(root, links, t) && 0 < i < |t.order| && 0 < j < |t.order| && i != j
    ensures ParentHop(root, links, t, i).edge != ParentHop(root, links, t, j).edge
  {
    ParentHopEnds(root, links, t, i);
    ParentHopEnds(root, links, t, j);
    var p, q := ParentPosition(root, links, t, i), ParentPosition(root, links, t, j);
    assert t.order[i] != t.order[j];
    assert !(p == j && q == i);
    assert p != j ==> t.order[p] != t.order[j];
    assert q != i ==> t.order[q] != t.order[i];
  }

  /** A path uses parent edges of nodes at or above its start. */
  lemma {:induction false} PathEdges(root: string, links: seq<Link>, t: Tree, i: nat, h: Hop)
    requires TreeOk(root, links, t) && i < |t.order| && h in PathFrom(root, links, t, i)
    ensures exists k :: 0 < k <= i && h == ParentHop(root, links, t, k)
    ensures h.edge in t.treeEdges && WfHop(links, h)
    decreases i
  {
    var head := ParentHop(root, links, t, i);
    ParentHopEnds(root, links, t, i);
    if h != head { PathEdges(root, links, t, ParentPosition(root, links, t, i), h); }
  }

  lemma NotOnShorterPath(root: string, links: seq<Link>, t: Tree, i: nat, j: nat)
    requires TreeOk(root, links, t) && j < i < |t.order|
    ensures ParentHop(root, links, t, i).edge !in EdgesOf(PathFrom(root, links, t, j))
  {
    forall h | h in PathFrom(root, links, t, j) ensures h.edge != ParentHop(root, links, t, i).edge {
      PathEdges(root, links, t, j, h);
      var k :| 0 < k <= j && h == ParentHop(root, links, t, k);
      ParentEdgesDiffer(root, links, t, i, k);
    }
  }

  /** Sum along the path from the root to the node at position `i`. */
  function Potential(root: string, links: seq<Link>, t: Tree, i: nat, w: seq<real>): real
    requires TreeOk(root, links, t) && i < |t.order|
  {
    HopSum(PathFrom(root, links, t, i), w)
  }

  lemma PotentialStep(root: string, links: seq<Link>, t: Tree, i: nat, w: seq<real>)
    requires TreeOk(root, links, t) && 0 < i < |t.order|
    ensures var h := ParentHop(root, links, t, i);
            Potential(root, links, t, i, w) ==
            HopValue(h, w) + Potential(root, links, t, ParentPosition(root, links, t, i), w)
  {
    var h, rest := ParentHop(root, links, t, i), PathFrom(root, links, t, ParentPosition(root, links, t, i));
    assert PathFrom(root, links, t, i)[1..] == rest;
  }

  // ----- the common part of two paths cancels -----

  function CommonEdges(root: string, links: seq<Link>, t: Tree, i: nat, j: nat): set<nat>
    requires TreeOk(root, links, t) && i < |t.order| && j < |t.order|
  {
    EdgesOf(PathFrom(root, links, t, i)) * EdgesOf(PathFrom(root, links, t, j))
  }

  lemma CommonEdgesStep(root: string, links: seq<Link>, t: Tree, i: nat, j: nat)
    requires TreeOk(root, links, t) && j < i < |t.order|
    ensures var p := ParentPosition(root, links, t, i);
            CommonEdges(root, links, t, i, j) == CommonEdges(root, links, t, p, j) == CommonEdges(root, links, t, j, i)
  {
    var p := ParentPosition(root, links, t, i);
    NotOnShorterPath(root, links, t, i, j);
    var head, rest := ParentHop(root, links, t, i), PathFrom(root, links, t, p);
    assert EdgesOf([head] + rest) == {head.edge} + EdgesOf(rest);
  }

  /** Dropping the common edges of two paths does not change the difference of their sums. */
  lemma {:induction false} CommonCancels(root: string, links: seq<Link>, t: Tree, i: nat, j: nat, w: seq<real>)
    requires TreeOk(root, links, t) && j <= i < |t.order|
    ensures var common := CommonEdges(root, links, t, i, j);
            HopSum(Outside(PathFrom(root, links, t, i), common), w) -
              HopSum(Outside(PathFrom(root, links, t, j), common), w) ==
            Potential(root, links, t, i, w) - Potential(root, links, t, j, w)
    decreases i + j
  {
    hide TreeOk, PathFrom, Outside, HopSum, EdgesOf, Potential;
    var common := CommonEdges(root, links, t, i, j);
    if i != j {
      var p := ParentPosition(root, links, t, i);
      CommonEdgesStep(root, links, t, i, j);
      NotOnShorterPath(root, links, t, i, j);
      PotentialStep(root, links, t, i, w);
      PathStep(root, links, t, i);
      OutsideStep(ParentHop(root, links, t, i), PathFrom(root, links, t, p), common, w);
      if j <= p {
        CommonCancels(root, links, t, p, j, w);
      } else {
        CommonEdgesSymmetric(root, links, t, p, j);
        CommonCancels(root, links, t, j, p, w);
      }
    }
  }

  lemma PathStep(root: string, links: seq<Link>, t: Tree, i: nat)
    requires TreeOk(root, links, t) && 0 < i < |t.order|
    ensures PathFrom(root, links, t, i) ==
            [ParentHop(root, links, t, i)] + PathFrom(root, links, t, ParentPosition(root, links, t, i))
  {
  }

  lemma CommonEdgesSymmetric(root: string, links: seq<Link>, t: Tree, i: nat, j: nat)
    requires TreeOk(root, links, t) && i < |t.order| && j < |t.order|
    ensures CommonEdges(root, links, t, i, j) == CommonEdges(root, links, t, j, i)
  {
  }

  lemma OutsideStep(head: Hop, rest: seq<Hop>, common: set<nat>, w: seq<real>)
    requires head.edge !in common
    ensures HopSum(Outside([head] + rest, common), w) == HopValue(head, w) + HopSum(Outside(rest, common), w)
  {
    assert ([head] + rest)[1..] == rest;
    var tail := Outside(rest, common);
    assert Outside([head] + rest, common) == [head] + tail;
    hide Outside;
    assert ([head] + tail)[1..] == tail;
  }

  // ----- loops -----

  function PathOf(root: string, links: seq<Link>, t: Tree, n: string): seq<Hop>
    requires TreeOk(root, links, t) && n in t.order
  {
    PathFrom(root, links, t, Position(t.order, n))
  }

  /** The chord, then the uncommon part of the path to `a` forwards and of the path to `b` backwards. */
  function Closing(e: nat, a: seq<Hop>, b: seq<Hop>): seq<Hop> {
    var common := EdgesOf(a) * EdgesOf(b);
    [Hop(e, 1)] + (Outside(a, common) + ReverseAll(Outside(b, common)))
  }

  function LoopOf(root: string, links: seq<Link>, t: Tree, e: nat): seq<Hop>
    requires TreeOk(root, links, t) && e < |links| && links[e].a in t.order && links[e].b in t.order
  {
    var a, b := PathOf(root, links, t, links[e].a), PathOf(root, links, t, links[e].b);
    Closing(e, a, b)
  }

  /** Any weights, summed around a loop, give the chord's weight plus the difference of the potentials at its ends. */
  lemma LoopSum(root: string, links: seq<Link>, t: Tree, e: nat, w: seq<real>)
    requires TreeOk(root, links, t) && e < |links| && links[e].a in t.order && links[e].b in t.order
    ensures HopSum(LoopOf(root, links, t, e), w) ==
            At(w, e) + Potential(root, links, t, Position(t.order, links[e].a), w)
                     - Potential(root, links, t, Position(t.order, links[e].b), w)
  {
    var i, j := Position(t.order, links[e].a), Position(t.order, links[e].b);
    var a, b := PathFrom(root, links, t, i), PathFrom(root, links, t, j);
    var common := CommonEdges(root, links, t, i, j);
    hide PathFrom, Outside, TreeOk;
    CommonEdgesSymmetric(root, links, t, i, j);
    if j <= i { CommonCancels(root, links, t, i, j, w); } else { CommonCancels(root, links, t, j, i, w); }
    HopSumAppend([Hop(e, 1)], Outside(a, common) + ReverseAll(Outside(b, common)), w);
    HopSumAppend(Outside(a, common), ReverseAll(Outside(b, common)), w);
    HopSumReverse(Outside(b, common), w);
    assert [Hop(e, 1)][1..] == [];
  }

  // ----- incidence -----

  /** What one unit of flow on the edge adds to node `n`. */
  function Inc(l: Link, n: string): real {
    (if l.b == n then 1.0 else 0.0) - (if l.a == n then 1.0 else 0.0)
  }

  function IncRow(links: seq<Link>, n: string): seq<real> {
    seq(|links|, e requires 0 <= e < |links| => Inc(links[e], n))
  }

  function Is(m: string, n: string): real {
    if m == n then 1.0 else 0.0
  }

  /** One hop takes a unit from its tail and gives it to its head. */
  lemma HopIncidence(links: seq<Link>, h: Hop, n: string)
    requires WfHop(links, h)
    ensures HopValue(h, IncRow(links, n)) == Is(Head(links, h), n) - Is(Tail(links, h), n)
  {
  }

  lemma {:induction false} PathIncidence(root: string, links: seq<Link>, t: Tree, i: nat, n: string)
    requires TreeOk(root, links, t) && i < |t.order|
    ensures Potential(root, links, t, i, IncRow(links, n)) == Is(t.order[i], n) - Is(root, n)
    decreases i
  {
    if i > 0 {
      var p := ParentPosition(root, links, t, i);
      PotentialStep(root, links, t, i, IncRow(links, n));
      ParentHopEnds(root, links, t, i);
      HopIncidence(links, ParentHop(root, links, t, i), n);
      PathIncidence(root, links, t, p, n);
    }
  }

  /** Every loop is a circulation: it enters each node as often as it leaves it. */
  lemma LoopIsCirculation(root: string, links: seq<Link>, t: Tree, e: nat, n: string)
    requires TreeOk(root, links, t) && e < |links| && links[e].a in t.order && links[e].b in t.order
    ensures HopSum(LoopOf(root, links, t, e), IncRow(links, n)) == 0.0
  {
    LoopSum(root, links, t, e, IncRow(links, n));
    PathIncidence(root, links, t, Position(t.order, links[e].a), n);
    PathIncidence(root, links, t, Position(t.order, links[e].b), n);
  }

  // ----- the basis -----

  /** Both ends of every edge are in the tree. */
  ghost predicate Covered(links: seq<Link>, t: Tree) {
    forall e :: 0 <= e < |links| ==> links[e].a in t.order && links[e].b in t.order
  }

  lemma SpansCovers(nodes: seq<string>, links: seq<Link>, t: Tree)
    requires WfGraph(nodes, links) && Spans(nodes, links, t)
    ensures TreeOk(nodes[0], links, t) && Covered(links, t)
  {
    forall e | 0 <= e < |links| ensures links[e].a in t.order && links[e].b in t.order {
      assert links[e].a in NodeSet(nodes) && links[e].b in NodeSet(nodes);
    }
  }

  /** The loops of the chords from edge `i` on. */
  function BasisFrom(root: string, links: seq<Link>, t: Tree, i: nat): seq<seq<Hop>>
    requires TreeOk(root, links, t) && Covered(links, t) && i <= |links|
    decreases |links| - i
  {
    if i == |links| then []
    else if i in t.treeEdges then BasisFrom(root, links, t, i + 1)
    else [LoopOf(root, links, t, i)] + BasisFrom(root, links, t, i + 1)
  }

  function Basis(root: string, links: seq<Link>, t: Tree): seq<seq<Hop>>
    requires TreeOk(root, links, t) && Covered(links, t)
  {
    BasisFrom(root, links, t, 0)
  }

  method PathToRoot(root: string, links: seq<Link>, t: Tree, n: string) returns (path: seq<Hop>)
    requires TreeOk(root, links, t) && n in t.order
    ensures path == PathOf(root, links, t, n)
  {
    path := [];
    var m := n;
    ghost var i: nat := Position(t.order, n);
    while m in t.parentNode
      invariant i < |t.order| && t.order[i] == m
      invariant path + PathFrom(root, links, t, i) == PathOf(root, links, t, n)
      decreases i
    {
      OnlyRootHasNoParent(root, links, t, i);
      OneHopUp(root, links, t, i, path);
      hide TreeOk, PathFrom, PathOf;
      var e := t.parentEdge[m];
      var sign := if links[e].b == m then 1 else -1;
      path := path + [Hop(e, sign)];
      i := ParentPosition(root, links, t, i);
      m := t.parentNode[m];
    }
    OnlyRootHasNoParent(root, links, t, i);
  }

  lemma OneHopUp(root: string, links: seq<Link>, t: Tree, i: nat, path: seq<Hop>)
    requires TreeOk(root, links, t) && 0 < i < |t.order|
    ensures t.order[i] in t.parentEdge && t.parentEdge[t.order[i]] < |links|
    ensures var e := t.parentEdge[t.order[i]];
            ParentHop(root, links, t, i) == Hop(e, if links[e].b == t.order[i] then 1 else -1)
    ensures path + PathFrom(root, links, t, i) ==
            path + [ParentHop(root, links, t, i)] + PathFrom(root, links, t, ParentPosition(root, links, t, i))
  {
    assert HangsAt(links, t, i);
    hide TreeOk;
  }

  lemma OnlyRootHasNoParent(root: string, links: seq<Link>, t: Tree, i: nat)
    requires TreeOk(root, links, t) && i < |t.order|
    ensures t.order[i] in t.parentNode <==> i > 0
  {
    if i > 0 { assert HangsAt(links, t, i); }
  }

  /** One loop per edge outside the tree, in edge order. */
  method BuildCycleBasis(nodes: seq<string>, links: seq<Link>, t: Tree) returns (loops: seq<seq<Hop>>)
    requires WfGraph(nodes, links) && Spans(nodes, links, t)
    ensures TreeOk(nodes[0], links, t) && Covered(links, t) && loops == Basis(nodes[0], links, t)
  {
    hide *;
    GraphFacts(nodes, links);
    var root := nodes[0];
    SpansCovers(nodes, links, t);
    var depthPath := DepthPaths(nodes, links, t);
    BasisEnds(root, links, t);
    loops := [];
    for i := 0 to |links|
      invariant loops + BasisFrom(root, links, t, i) == Basis(root, links, t)
    {
      BasisStep(root, links, t, i);
      if i !in t.treeEdges {
        LoopOfPaths(root, links, t, i);
        var loop := CloseLoop(i, depthPath[links[i].a], depthPath[links[i].b]);
        loops := loops + [loop];
      }
    }
  }

  lemma GraphFacts(nodes: seq<string>, links: seq<Link>)
    requires WfGraph(nodes, links)
    ensures nodes != []
    ensures forall i :: 0 <= i < |links| ==> links[i].a in nodes && links[i].b in nodes
    ensures forall n :: n in nodes ==> n in NodeSet(nodes)
  {
  }

  lemma BasisEnds(root: string, links: seq<Link>, t: Tree)
    requires TreeOk(root, links, t) && Covered(links, t)
    ensures BasisFrom(root, links, t, 0) == Basis(root, links, t) && BasisFrom(root, links, t, |links|) == []
  {
  }

  lemma BasisStep(root: string, links: seq<Link>, t: Tree, i: nat)
    requires TreeOk(root, links, t) && Covered(links, t) && i < |links|
    ensures links[i].a in t.order && links[i].b in t.order
    ensures BasisFrom(root, links, t, i) ==
            (if i in t.treeEdges then [] else [LoopOf(root, links, t, i)]) + BasisFrom(root, links, t, i + 1)
  {
  }

  lemma LoopOfPaths(root: string, links: seq<Link>, t: Tree, e: nat)
    requires TreeOk(root, links, t) && Covered(links, t) && e < |links|
    ensures links[e].a in t.order && links[e].b in t.order
    ensures LoopOf(root, links, t, e) == Closing(e, PathOf(root, links, t, links[e].a),
                                                 PathOf(root, links, t, links[e].b))
  {
  }

  /** The chord and the two uncommon stretches. */
  method CloseLoop(e: nat, a: seq<Hop>, b: seq<Hop>) returns (loop: seq<Hop>)
    ensures loop == Closing(e, a, b)
  {
    var common := EdgesOf(a) * EdgesOf(b);
    var forward := KeepUncommon(a, common);
    var backward := KeepReversed(b, common);
    loop := [Hop(e, 1)] + (forward + backward);
  }

  method DepthPaths(nodes: seq<string>, links: seq<Link>, t: Tree) returns (paths: map<string, seq<Hop>>)
    requires Spans(nodes, links, t)
    ensures paths.Keys == NodeSet(nodes)
    ensures forall n :: n in nodes ==> n in t.order && paths[n] == PathOf(nodes[0], links, t, n)
  {
    hide TreeOk, PathOf;
    assert forall n :: n in nodes ==> n in NodeSet(t.order);
    paths := map[];
    for i := 0 to |nodes|
      invariant paths.Keys == NodeSet(nodes[..i])
      invariant forall n :: n in nodes[..i] ==> n in t.order && paths[n] == PathOf(nodes[0], links, t, n)
    {
      assert nodes[i] in nodes;
      assert nodes[..i + 1] == nodes[..i] + [nodes[i]];
      var path := PathToRoot(nodes[0], links, t, nodes[i]);
      paths := paths[nodes[i] := path];
    }
    assert nodes[..|nodes|] == nodes;
  }

  method KeepUncommon(path: seq<Hop>, common: set<nat>) returns (kept: seq<Hop>)
    ensures kept == Outside(path, common)
  {
    kept := [];
    for i := 0 to |path|
      invariant kept + Outside(path[i..], common) == Outside(path, common)
    {
      OutsideNext(path, common, i, kept);
      if path[i].edge !in common {
        kept := kept + [path[i]];
      }
    }
  }

  lemma OutsideNext(path: seq<Hop>, common: set<nat>, i: nat, kept: seq<Hop>)
    requires i < |path|
    ensures kept + Outside(path[i..], common) ==
            (if path[i].edge in common then kept else kept + [path[i]]) + Outside(path[i + 1..], common)
  {
    assert path[i..][0] == path[i] && path[i..][1..] == path[i + 1..];
  }

  method KeepReversed(path: seq<Hop>, common: set<nat>) returns (kept: seq<Hop>)
    ensures kept == ReverseAll(Outside(path, common))
  {
    kept := [];
    for i := 0 to |path|
      invariant kept + ReverseAll(Outside(path[i..], common)) == ReverseAll(Outside(path, common))
    {
      assert path[i..][1..] == path[i + 1..];
      var tail := Outside(path[i + 1..], common);
      assert Outside(path[i..], common) == (if path[i].edge in common then [] else [path[i]]) + tail;
      assert [] + tail == tail;
      if path[i].edge !in common {
        assert ([path[i]] + tail)[1..] == tail;
        kept := kept + [Reversed(path[i])];
      }
    }
  }

  // ----- how many loops, and of which edges -----

  /** Parent edges of the nodes at positions 1 to `k`. */
  function EdgesUpTo(root: string, links: seq<Link>, t: Tree, k: nat): set<nat>
    requires TreeOk(root, links, t) && k < |t.order|
  {
    set i | 0 < i <= k :: ParentHop(root, links, t, i).edge
  }

  lemma {:induction false} EdgesUpToSize(root: string, links: seq<Link>, t: Tree, k: nat)
    requires TreeOk(root, links, t) && k < |t.order|
    ensures |EdgesUpTo(root, links, t, k)| == k
  {
    hide TreeOk;
    if k > 0 {
      EdgesUpToSize(root, links, t, k - 1);
      var e := ParentHop(root, links, t, k).edge;
      forall i | 0 < i <= k - 1
        ensures ParentHop(root, links, t, i).edge != e
      {
        ParentEdgesDiffer(root, links, t, i, k);
      }
      assert EdgesUpTo(root, links, t, k) == EdgesUpTo(root, links, t, k - 1) + {e};
    }
  }

  lemma TreeEdgesAre(root: string, links: seq<Link>, t: Tree)
    requires TreeOk(root, links, t)
    ensures t.treeEdges == EdgesUpTo(root, links, t, |t.order| - 1) && |t.treeEdges| == |t.order| - 1
    ensures forall e :: e in t.treeEdges ==> e < |links|
  {
    var k := |t.order| - 1;
    forall e | e in t.treeEdges ensures e in EdgesUpTo(root, links, t, k) && e < |links| {
      var n :| n in t.parentEdge && t.parentEdge[n] == e;
      assert n in t.order && n != root;
      var i := Position(t.order, n);
      ParentHopEnds(root, links, t, i);
      assert e == ParentHop(root, links, t, i).edge;
    }
    forall e | e in EdgesUpTo(root, links, t, k) ensures e in t.treeEdges {
      var i :| 0 < i <= k && e == ParentHop(root, links, t, i).edge;
      ParentHopEnds(root, links, t, i);
    }
    EdgesUpToSize(root, links, t, k);
  }

  function ChordsFrom(links: seq<Link>, t: Tree, i: nat): set<nat> {
    set e | i <= e < |links| && e !in t.treeEdges
  }

  /** The basis has one loop per chord. */
  lemma {:induction false} BasisSize(root: string, links: seq<Link>, t: Tree, i: nat)
    requires TreeOk(root, links, t) && Covered(links, t) && i <= |links|
    ensures |BasisFrom(root, links, t, i)| == |ChordsFrom(links, t, i)|
    decreases |links| - i
  {
    hide TreeOk, Covered, LoopOf;
    if i < |links| {
      BasisSize(root, links, t, i + 1);
      if i in t.treeEdges {
        assert ChordsFrom(links, t, i) == ChordsFrom(links, t, i + 1);
      } else {
        assert ChordsFrom(links, t, i) == {i} + ChordsFrom(links, t, i + 1);
      }
    } else {
      assert ChordsFrom(links, t, i) == {};
    }
  }

  function Below(n: nat): set<nat> {
    if n == 0 then {} else Below(n - 1) + {n - 1}
  }

  lemma {:induction false} BelowSize(n: nat)
    ensures |Below(n)| == n && forall e: nat :: e in Below(n) <==> e < n
  {
    if n > 0 { BelowSize(n - 1); }
  }

  /** There are exactly as many loops as the cyclomatic number: edges minus nodes plus one. */
  lemma BasisIsCyclomatic(nodes: seq<string>, links: seq<Link>, t: Tree)
    requires WfGraph(nodes, links) && Spans(nodes, links, t)
    ensures TreeOk(nodes[0], links, t) && Covered(links, t)
    ensures |Basis(nodes[0], links, t)| == |links| - |nodes| + 1
  {
    SpansCovers(nodes, links, t);
    hide TreeOk, Covered, LoopOf, BasisFrom, WfGraph;
    BasisSize(nodes[0], links, t, 0);
    TreeEdgesAre(nodes[0], links, t);
    BelowSize(|links|);
    SizeOfNodes(nodes);
    SizeOfNodes(t.order);
    EdgesSplit(links, t);
  }

  /** Every edge is in the tree or a chord. */
  lemma EdgesSplit(links: seq<Link>, t: Tree)
    requires forall e :: e in t.treeEdges ==> e < |links|
    ensures |Below(|links|)| == |t.treeEdges| + |ChordsFrom(links, t, 0)|
  {
    BelowSize(|links|);
    assert Below(|links|) == t.treeEdges + ChordsFrom(links, t, 0);
    assert t.treeEdges !! ChordsFrom(links, t, 0);
  }

  lemma {:induction false} OutsideMembers(hops: seq<Hop>, common: set<nat>)
    ensures forall h :: h in Outside(hops, common) <==> h in hops && h.edge !in common
  {
    if hops != [] { OutsideMembers(hops[1..], common); }
  }

  lemma {:induction false} ReverseMembers(hops: seq<Hop>)
    ensures forall h :: h in ReverseAll(hops) <==> Reversed(h) in hops
  {
    if hops != [] {
      ReverseMembers(hops[1..]);
      forall h ensures h in ReverseAll(hops) <==> Reversed(h) in hops {
        assert Reversed(Reversed(h)) == h;
      }
    }
  }

  /** A loop starts with its chord, and uses no other edge outside the tree. */
  lemma LoopEdges(root: string, links: seq<Link>, t: Tree, e: nat)
    requires TreeOk(root, links, t) && Covered(links, t) && e < |links|
    ensures var loop := LoopOf(root, links, t, e);
            && loop[0] == Hop(e, 1) && (forall h :: h in loop[1..] ==> h.edge in t.treeEdges)
            && (forall h :: h in loop ==> WfHop(links, h))
  {
    var i, j := Position(t.order, links[e].a), Position(t.order, links[e].b);
    var a, b := PathFrom(root, links, t, i), PathFrom(root, links, t, j);
    var common := EdgesOf(a) * EdgesOf(b);
    OutsideMembers(a, common);
    OutsideMembers(b, common);
    ReverseMembers(Outside(b, common));
    var rest := Outside(a, common) + ReverseAll(Outside(b, common));
    assert LoopOf(root, links, t, e)[1..] == rest;
    hide TreeOk, PathFrom;
    forall h | h in rest ensures h.edge in t.treeEdges && WfHop(links, h) {
      if h in Outside(a, common) {
        PathEdges(root, links, t, i, h);
      } else {
        PathEdges(root, links, t, j, Reversed(h));
      }
    }
  }

  /** Loop `k` of the basis is the loop of some chord. */
  ghost predicate IsLoopOf(root: string, links: seq<Link>, t: Tree, loop: seq<Hop>, e: nat)
    requires TreeOk(root, links, t) && Covered(links, t)
  {
    e < |links| && e !in t.treeEdges && loop == LoopOf(root, links, t, e)
  }

  lemma {:induction false} BasisLoops(root: string, links: seq<Link>, t: Tree, i: nat, k: nat) returns (e: nat)
    requires TreeOk(root, links, t) && Covered(links, t) && i <= |links| && k < |BasisFrom(root, links, t, i)|
    ensures i <= e && IsLoopOf(root, links, t, BasisFrom(root, links, t, i)[k], e)
    ensures forall j :: k < j < |BasisFrom(root, links, t, i)| ==>
            BasisFrom(root, links, t, i)[j] in BasisFrom(root, links, t, e + 1)
    decreases |links| - i
  {
    hide TreeOk, Covered, LoopOf;
    if i in t.treeEdges {
      e := BasisLoops(root, links, t, i + 1, k);
    } else if k == 0 {
      e := i;
    } else {
      e := BasisLoops(root, links, t, i + 1, k - 1);
      var tail := BasisFrom(root, links, t, i + 1);
      forall j | k < j < |BasisFrom(root, links, t, i)|
        ensures BasisFrom(root, links, t, i)[j] in BasisFrom(root, links, t, e + 1)
      {
        assert BasisFrom(root, links, t, i)[j] == tail[j - 1];
      }
    }
  }

  lemma {:induction false} ChordHasLoop(root: string, links: seq<Link>, t: Tree, i: nat, e: nat)
    requires TreeOk(root, links, t) && Covered(links, t) && i <= e < |links| && e !in t.treeEdges
    ensures LoopOf(root, links, t, e) in BasisFrom(root, links, t, i)
    decreases |links| - i
  {
    hide TreeOk, Covered, LoopOf;
    if i < e { ChordHasLoop(root, links, t, i + 1, e); }
  }

  /** Every chord is in exactly one loop of the basis. */
  lemma ChordInOneLoop(root: string, links: seq<Link>, t: Tree, e: nat)
    requires TreeOk(root, links, t) && Covered(links, t) && e < |links| && e !in t.treeEdges
    ensures var loops := Basis(root, links, t);
            && (exists k :: 0 <= k < |loops| && e in EdgesOf(loops[k]))
            && (forall j, k :: 0 <= j < k < |loops| ==> !(e in EdgesOf(loops[j]) && e in EdgesOf(loops[k])))
  {
    hide TreeOk, Covered, LoopOf, BasisFrom;
    var loops := Basis(root, links, t);
    LoopOfPaths(root, links, t, e);
    ChordHasLoop(root, links, t, 0, e);
    LoopEdges(root, links, t, e);
    var k: nat :| k < |loops| && loops[k] == LoopOf(root, links, t, e);
    assert loops[k][0] in loops[k];
    forall i, j | 0 <= i < j < |loops| ensures !(e in EdgesOf(loops[i]) && e in EdgesOf(loops[j])) {
      var c := BasisLoops(root, links, t, 0, i);
      assert loops[j] in BasisFrom(root, links, t, c + 1);
      var tail := BasisFrom(root, links, t, c + 1);
      var l: nat :| l < |tail| && tail[l] == loops[j];
      var d := BasisLoops(root, links, t, c + 1, l);
      OnlyChord(root, links, t, loops[i], c);
      OnlyChord(root, links, t, loops[j], d);
    }
  }

  lemma OnlyChord(root: string, links: seq<Link>, t: Tree, loop: seq<Hop>, c: nat)
    requires TreeOk(root, links, t) && Covered(links, t) && IsLoopOf(root, links, t, loop, c)
    ensures forall e :: e in EdgesOf(loop) && e !in t.treeEdges ==> e == c
  {
    LoopEdges(root, links, t, c);
    hide TreeOk, Covered, LoopOf;
    assert loop == [loop[0]] + loop[1..];
  }
}
