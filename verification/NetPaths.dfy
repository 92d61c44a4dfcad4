/** Pressure drops as a potential field, and the breadth-first path query. */
module NetPaths {
  import opened Wrappers
  import opened Reals
  import opened NetGraph
  import opened NetLoops
  import Names

  // ----- potential field -----

  /** Around every loop of the basis the drops sum to zero, up to `delta`. */
  ghost predicate LoopsClose(root: string, links: seq<Link>, t: Tree, drops: seq<real>, delta: real)
    requires TreeOk(root, links, t) && Covered(links, t)
  {
    forall k :: 0 <= k < |Basis(root, links, t)| ==> Abs(HopSum(Basis(root, links, t)[k], drops)) <= delta
  }

  function PotentialOf(root: string, links: seq<Link>, t: Tree, n: string, drops: seq<real>): real
    requires TreeOk(root, links, t) && n in t.order
  {
    Potential(root, links, t, Position(t.order, n), drops)
  }

  /** The hop into a node carries the potential difference to its parent. */
  lemma ParentHopDrop(root: string, links: seq<Link>, t: Tree, i: nat, drops: seq<real>)
    requires TreeOk(root, links, t) && 0 < i < |t.order|
    ensures var h := ParentHop(root, links, t, i);
            && Tail(links, h) in t.order && Head(links, h) in t.order && h.edge == t.parentEdge[t.order[i]]
            && HopValue(h, drops) ==
               PotentialOf(root, links, t, Head(links, h), drops) - PotentialOf(root, links, t, Tail(links, h), drops)
  {
    assert Names.Distinct(t.order);
    ParentHopEnds(root, links, t, i);
    hide TreeOk, Potential, Names.Distinct;
    PotentialStep(root, links, t, i, drops);
    PositionOf(t.order, i);
    PositionOf(t.order, ParentPosition(root, links, t, i));
  }

  /** A tree edge carries exactly the potential difference of its ends. */
  lemma TreeEdgeDrop(root: string, links: seq<Link>, t: Tree, e: nat, drops: seq<real>)
    requires TreeOk(root, links, t) && Covered(links, t) && e in t.treeEdges && e < |links|
    ensures links[e].a in t.order && links[e].b in t.order
    ensures At(drops, e) == PotentialOf(root, links, t, links[e].b, drops) -
            PotentialOf(root, links, t, links[e].a, drops)
  {
    hide TreeOk, Covered, PotentialOf;
    LoopOfPaths(root, links, t, e);
    TreeEdgesAre(root, links, t);
    var i :| 0 < i <= |t.order| - 1 && e == ParentHop(root, links, t, i).edge;
    ParentHopDrop(root, links, t, i, drops);
    HopSense(ParentHop(root, links, t, i), drops);
    hide HopValue, At;
  }

  lemma HopSense(h: Hop, w: seq<real>)
    ensures h.sign == 1 ==> HopValue(h, w) == At(w, h.edge)
    ensures h.sign == -1 ==> HopValue(h, w) == -At(w, h.edge)
  {
  }

  lemma PositionOf(order: seq<string>, i: nat)
    requires Names.Distinct(order) && i < |order|
    ensures Position(order, order[i]) == i
  {
    assert forall k :: 0 <= k < |order| && order[k] == order[i] ==> k == i;
  }

  lemma EdgeDrop(root: string, links: seq<Link>, t: Tree, e: nat, drops: seq<real>, delta: real)
    requires TreeOk(root, links, t) && Covered(links, t) && e < |links| && LoopsClose(root, links, t, drops, delta) &&
             delta >= 0.0
    ensures links[e].a in t.order && links[e].b in t.order
    ensures Abs(At(drops, e) - (PotentialOf(root, links, t, links[e].b, drops) -
                                PotentialOf(root, links, t, links[e].a, drops))) <= delta
  {
    LoopOfPaths(root, links, t, e);
    if e in t.treeEdges {
      hide TreeOk, Covered, LoopsClose, LoopOf;
      TreeEdgeDrop(root, links, t, e, drops);
    } else {
      ChordHasLoop(root, links, t, 0, e);
      LoopSum(root, links, t, e, drops);
      hide TreeOk, Covered, LoopOf, BasisFrom;
      var k: nat :| k < |Basis(root, links, t)| && Basis(root, links, t)[k] == LoopOf(root, links, t, e);
    }
  }

  lemma HopDrop(root: string, links: seq<Link>, t: Tree, h: Hop, drops: seq<real>, delta: real)
    requires TreeOk(root, links, t) && Covered(links, t) && WfHop(links, h) &&
             LoopsClose(root, links, t, drops, delta) && delta >= 0.0
    ensures Tail(links, h) in t.order && Head(links, h) in t.order
    ensures Abs(HopValue(h, drops) -
                (PotentialOf(root, links, t, Head(links, h), drops) -
                 PotentialOf(root, links, t, Tail(links, h), drops))) <= delta
  {
    hide TreeOk, Covered, LoopsClose, PotentialOf;
    EdgeDrop(root, links, t, h.edge, drops, delta);
    HopSense(h, drops);
    hide HopValue, At;
  }

  /** A walk drops by the potential difference of its ends, up to `delta` per hop. */
  lemma {:induction false} WalkDrop(root: string, links: seq<Link>, t: Tree, w: seq<Hop>, u: string, v: string,
                                    drops: seq<real>, delta: real)
    requires TreeOk(root, links, t) && Covered(links, t) && LoopsClose(root, links, t, drops, delta) && delta >= 0.0
    requires Walk(links, w, u, v) && u in t.order
    ensures v in t.order
    ensures Abs(HopSum(w, drops) - (PotentialOf(root, links, t, v, drops) - PotentialOf(root, links, t, u, drops))) <=
            Slack(delta, |w|)
    decreases |w|
  {
    hide TreeOk, Covered, LoopsClose, PotentialOf, Abs, At, HopValue;
    if w == [] {
      NoSlack(delta, PotentialOf(root, links, t, u, drops));
    } else {
      HopDrop(root, links, t, w[0], drops, delta);
      WalkDrop(root, links, t, w[1..], Head(links, w[0]), v, drops, delta);
      OneMoreHop(HopValue(w[0], drops), HopSum(w[1..], drops), PotentialOf(root, links, t, u, drops),
                 PotentialOf(root, links, t, Head(links, w[0]), drops), PotentialOf(root, links, t, v, drops), delta,
                 |w|);
    }
  }

  /** `delta` once per hop. */
  function Slack(delta: real, n: nat): real {
    delta * n as real
  }

  lemma NoSlack(delta: real, p: real)
    ensures Abs(0.0 - (p - p)) <= Slack(delta, 0)
  {
  }

  lemma OneMoreHop(first: real, rest: real, pu: real, pm: real, pv: real, delta: real, n: nat)
    requires n > 0 && Abs(first - (pm - pu)) <= delta && Abs(rest - (pv - pm)) <= Slack(delta, n - 1)
    ensures Abs(first + rest - (pv - pu)) <= Slack(delta, n)
  {
    assert delta * n as real == delta + delta * (n - 1) as real;
  }

  /** When the loop drops vanish up to `delta`, any two walks between the same nodes drop by the same amount, up to
      `delta` per hop; when they vanish exactly, by exactly the same amount. */
  lemma DropsAgree(root: string, links: seq<Link>, t: Tree, p: seq<Hop>, q: seq<Hop>, u: string, v: string,
                   drops: seq<real>, delta: real)
    requires TreeOk(root, links, t) && Covered(links, t) && LoopsClose(root, links, t, drops, delta) && delta >= 0.0
    requires Walk(links, p, u, v) && Walk(links, q, u, v) && u in t.order
    ensures Abs(HopSum(p, drops) - HopSum(q, drops)) <= Slack(delta, |p| + |q|)
    ensures delta == 0.0 ==> HopSum(p, drops) == HopSum(q, drops)
  {
    hide TreeOk, Covered, LoopsClose, PotentialOf, HopSum, Abs, Walk, Slack;
    WalkDrop(root, links, t, p, u, v, drops, delta);
    WalkDrop(root, links, t, q, u, v, drops, delta);
    BothNear(HopSum(p, drops), HopSum(q, drops),
             PotentialOf(root, links, t, v, drops) - PotentialOf(root, links, t, u, drops),
             delta, |p|, |q|);
  }

  lemma BothNear(x: real, y: real, z: real, delta: real, m: nat, n: nat)
    requires Abs(x - z) <= Slack(delta, m) && Abs(y - z) <= Slack(delta, n)
    ensures Abs(x - y) <= Slack(delta, m + n)
    ensures delta == 0.0 ==> x == y
  {
    assert delta * (m + n) as real == delta * m as real + delta * n as real;
  }

  /** Every two walks with the same ends drop by the same amount. */
  ghost predicate IsPotentialField(links: seq<Link>, t: Tree, drops: seq<real>) {
    forall p, q, u, v :: u in t.order && Walk(links, p, u, v) && Walk(links, q, u, v) ==>
      HopSum(p, drops) == HopSum(q, drops)
  }

  /** The tree path from the root, as a walk. */
  lemma {:induction false} TreeWalk(root: string, links: seq<Link>, t: Tree, i: nat, drops: seq<real>)
    returns (w: seq<Hop>)
    requires TreeOk(root, links, t) && i < |t.order|
    ensures Walk(links, w, root, t.order[i]) && HopSum(w, drops) == Potential(root, links, t, i, drops)
    decreases i
  {
    TreeRoot(root, links, t);
    hide TreeOk, HopValue;
    if i == 0 {
      w := [];
    } else {
      hide PathFrom, HopSum, Potential, Walk;
      var h := ParentHop(root, links, t, i);
      var up := TreeWalk(root, links, t, ParentPosition(root, links, t, i), drops);
      ParentHopEnds(root, links, t, i);
      PotentialStep(root, links, t, i, drops);
      WalkAppend(links, up, h, root, Tail(links, h));
      HopSumAppend(up, [h], drops);
      OneHop(h, drops);
      w := up + [h];
    }
  }

  lemma TreeRoot(root: string, links: seq<Link>, t: Tree)
    requires TreeOk(root, links, t)
    ensures t.order != [] && t.order[0] == root && root in t.order
  {
  }

  /** The drops form a potential field exactly when they sum to zero around every loop of the basis. */
  lemma FieldIffLoopsClose(root: string, links: seq<Link>, t: Tree, drops: seq<real>)
    requires TreeOk(root, links, t) && Covered(links, t)
    ensures IsPotentialField(links, t, drops) <==> LoopsClose(root, links, t, drops, 0.0)
  {
    hide *;
    if LoopsClose(root, links, t, drops, 0.0) { ClosedLoopsGiveField(root, links, t, drops); }
    if IsPotentialField(links, t, drops) { FieldClosesLoops(root, links, t, drops); }
  }

  lemma ClosedLoopsGiveField(root: string, links: seq<Link>, t: Tree, drops: seq<real>)
    requires TreeOk(root, links, t) && Covered(links, t) && LoopsClose(root, links, t, drops, 0.0)
    ensures IsPotentialField(links, t, drops)
  {
    hide TreeOk, Covered, LoopsClose, Walk, HopSum;
    forall p, q, u, v | u in t.order && Walk(links, p, u, v) && Walk(links, q, u, v)
      ensures HopSum(p, drops) == HopSum(q, drops)
    {
      DropsAgree(root, links, t, p, q, u, v, drops, 0.0);
    }
  }

  lemma FieldClosesLoops(root: string, links: seq<Link>, t: Tree, drops: seq<real>)
    requires TreeOk(root, links, t) && Covered(links, t) && IsPotentialField(links, t, drops)
    ensures LoopsClose(root, links, t, drops, 0.0)
  {
    hide TreeOk, Covered, LoopOf, BasisFrom, HopSum, IsPotentialField;
    forall k | 0 <= k < |Basis(root, links, t)| ensures Abs(HopSum(Basis(root, links, t)[k], drops)) <= 0.0 {
      var e := BasisLoops(root, links, t, 0, k);
      ChordCloses(root, links, t, e, drops);
    }
  }

  lemma ChordCloses(root: string, links: seq<Link>, t: Tree, e: nat, drops: seq<real>)
    requires TreeOk(root, links, t) && Covered(links, t) && IsPotentialField(links, t, drops) && e < |links|
    ensures links[e].a in t.order && links[e].b in t.order && HopSum(LoopOf(root, links, t, e), drops) == 0.0
  {
    hide *;
    LoopOfPaths(root, links, t, e);
    TreeRoot(root, links, t);
    LoopSum(root, links, t, e, drops);
    var a := ThroughChord(root, links, t, e, drops);
    var b := TreeWalk(root, links, t, Position(t.order, links[e].b), drops);
    UseField(links, t, drops, a, b, root, links[e].b);
  }

  /** To the chord's start along the tree, and across it. */
  lemma ThroughChord(root: string, links: seq<Link>, t: Tree, e: nat, drops: seq<real>) returns (w: seq<Hop>)
    requires TreeOk(root, links, t) && Covered(links, t) && e < |links|
    ensures links[e].a in t.order && Walk(links, w, root, links[e].b)
    ensures HopSum(w, drops) == Potential(root, links, t, Position(t.order, links[e].a), drops) + At(drops, e)
  {
    var h := Hop(e, 1);
    assert WfHop(links, h) && Tail(links, h) == links[e].a && Head(links, h) == links[e].b;
    HopSense(h, drops);
    hide *;
    LoopOfPaths(root, links, t, e);
    var a := TreeWalk(root, links, t, Position(t.order, links[e].a), drops);
    WalkAppend(links, a, h, root, links[e].a);
    HopSumAppend(a, [h], drops);
    OneHop(h, drops);
    w := a + [h];
  }

  lemma OneHop(h: Hop, w: seq<real>)
    ensures HopSum([h], w) == HopValue(h, w)
  {
    assert [h][1..] == [];
  }

  lemma UseField(links: seq<Link>, t: Tree, drops: seq<real>, p: seq<Hop>, q: seq<Hop>, u: string, v: string)
    requires IsPotentialField(links, t, drops) && u in t.order && Walk(links, p, u, v) && Walk(links, q, u, v)
    ensures HopSum(p, drops) == HopSum(q, drops)
  {
  }

  // ----- the path query -----

  /** How a visited node was first reached: from `from`, over `hop`. */
  datatype Arrival = Arrival(from: string, hop: Hop)

  datatype Front = Front(order: seq<string>, parent: map<string, Arrival>, dist: map<string, nat>)

  /** The arrival at `m` is a hop from a node one step nearer. */
  ghost predicate Arrived(links: seq<Link>, f: Front, m: string) {
    && m in f.parent && m in f.dist
    && var x := f.parent[m];
       && x.from in f.dist && f.dist[m] == f.dist[x.from] + 1
       && WfHop(links, x.hop) && Tail(links, x.hop) == x.from && Head(links, x.hop) == m
  }

  /** The breadth-first invariant; `done` are the nodes whose neighbours have been looked at, and no node is further
      than one step beyond `near`. */
  ghost predicate Layered(nodes: seq<string>, links: seq<Link>, start: string, f: Front, done: seq<string>,
                          queue: seq<string>, near: nat) {
    && f.order == done + queue && Names.Distinct(f.order) && NodeSet(f.order) <= NodeSet(nodes)
    && f.dist.Keys == NodeSet(f.order) && f.parent.Keys == NodeSet(f.order) - {start}
    && start in f.dist && f.dist[start] == 0
    && (forall m :: m in f.parent ==> Arrived(links, f, m))
    && (forall i, j :: 0 <= i < j < |f.order| ==> f.dist[f.order[i]] <= f.dist[f.order[j]])
    && (forall m :: m in f.dist ==> f.dist[m] <= near + 1)
    && (forall n :: n in done ==> Relaxed(links, f, n))
  }

  /** Every neighbour of `n` is visited, at most one step further. */
  ghost predicate Relaxed(links: seq<Link>, f: Front, n: string) {
    n in f.dist && forall e: nat, m :: Joins(links, e, n, m) ==> m in f.dist && f.dist[m] <= f.dist[n] + 1
  }

  ghost predicate RelaxedTo(entries: seq<Neighbour>, k: nat, f: Front, node: string) {
    k <= |entries| && node in f.dist &&
    forall j :: 0 <= j < k ==> entries[j].node in f.dist && f.dist[entries[j].node] <= f.dist[node] + 1
  }

  function Arrive(links: seq<Link>, f: Front, node: string, m: string, e: nat): Front
    requires node in f.dist && Joins(links, e, node, m)
  {
    Front(f.order + [m], f.parent[m := Arrival(node, HopAcross(links, e, node, m))], f.dist[m := f.dist[node] + 1])
  }

  lemma StartLayers(nodes: seq<string>, links: seq<Link>, start: string)
    requires start in nodes
    ensures Layered(nodes, links, start, Front([start], map[], map[start := 0]), [], [start], 0)
  {
    assert NodeSet([start]) == {start};
  }

  lemma ArriveKeeps(nodes: seq<string>, links: seq<Link>, start: string, f: Front, done: seq<string>,
                    queue: seq<string>,
                    node: string, m: string, e: nat)
    requires WfGraph(nodes, links) && node in f.dist && Layered(nodes, links, start, f, done, queue, f.dist[node])
    requires Joins(links, e, node, m) && m !in f.dist
    ensures Layered(nodes, links, start, Arrive(links, f, node, m, e), done, queue + [m], f.dist[node])
  {
    EndpointsListed(nodes, links, e, node, m);
    ArriveLinks(links, f, done, node, m, e);
    ArriveFrame(nodes, links, start, f, done, queue, node, m, e);
    hide Arrived, Relaxed, Names.Distinct, NodeSet, Joins;
  }

  lemma ArriveLinks(links: seq<Link>, f: Front, done: seq<string>, node: string, m: string, e: nat)
    requires node in f.dist && Joins(links, e, node, m) && m !in f.dist
    requires (forall n :: n in f.parent ==> Arrived(links, f, n)) && (forall n :: n in done ==> Relaxed(links, f, n))
    ensures var g := Arrive(links, f, node, m, e);
            (forall n :: n in g.parent ==> Arrived(links, g, n)) && (forall n :: n in done ==> Relaxed(links, g, n))
  {
    hide Joins;
    var g := Arrive(links, f, node, m, e);
    forall n | n in g.parent ensures Arrived(links, g, n) {
      if n == m { ArriveNew(links, f, node, m, e); } else { ArriveOld(links, f, node, m, e, n); }
    }
    hide Arrived;
    forall n | n in done ensures Relaxed(links, g, n) { ArriveRelaxed(links, f, node, m, e, n); }
  }

  lemma ArriveFrame(nodes: seq<string>, links: seq<Link>, start: string, f: Front, done: seq<string>,
                    queue: seq<string>,
                    node: string, m: string, e: nat)
    requires node in f.dist && Layered(nodes, links, start, f, done, queue, f.dist[node])
    requires Joins(links, e, node, m) && m !in f.dist && m in NodeSet(nodes)
    ensures var g := Arrive(links, f, node, m, e);
            && g.order == done + (queue + [m]) && Names.Distinct(g.order) && NodeSet(g.order) <= NodeSet(nodes)
            && g.dist.Keys == NodeSet(g.order) && g.parent.Keys == NodeSet(g.order) - {start}
            && start in g.dist && g.dist[start] == 0
            && (forall i, j :: 0 <= i < j < |g.order| ==> g.dist[g.order[i]] <= g.dist[g.order[j]])
            && (forall n :: n in g.dist ==> g.dist[n] <= f.dist[node] + 1)
  {
    hide Arrived, Relaxed, Joins, Names.Distinct;
    ArriveOrder(f, m, f.dist[node] + 1);
    var g := Arrive(links, f, node, m, e);
    assert g.order == done + (queue + [m]);
    assert NodeSet(g.order) == NodeSet(f.order) + {m};
  }

  lemma ArriveOrder(f: Front, m: string, d: nat)
    requires Names.Distinct(f.order) && f.dist.Keys == NodeSet(f.order) && m !in f.dist
    requires forall i, j :: 0 <= i < j < |f.order| ==> f.dist[f.order[i]] <= f.dist[f.order[j]]
    requires forall n :: n in f.dist ==> f.dist[n] <= d
    ensures var order, dist := f.order + [m], f.dist[m := d];
            && Names.Distinct(order)
            && (forall i :: 0 <= i < |order| ==> order[i] in dist)
            && (forall i, j :: 0 <= i < j < |order| ==> dist[order[i]] <= dist[order[j]])
  {
    var order, dist := f.order + [m], f.dist[m := d];
    forall i | 0 <= i < |f.order| ensures order[i] in f.dist && order[i] != m { assert f.order[i] in f.order; }
  }

  lemma ArriveNew(links: seq<Link>, f: Front, node: string, m: string, e: nat)
    requires node in f.dist && Joins(links, e, node, m) && m !in f.dist
    ensures Arrived(links, Arrive(links, f, node, m, e), m)
  {
  }

  lemma ArriveOld(links: seq<Link>, f: Front, node: string, m: string, e: nat, n: string)
    requires node in f.dist && Joins(links, e, node, m) && m !in f.dist && Arrived(links, f, n)
    ensures Arrived(links, Arrive(links, f, node, m, e), n)
  {
  }

  lemma ArriveRelaxed(links: seq<Link>, f: Front, node: string, m: string, e: nat, n: string)
    requires node in f.dist && Joins(links, e, node, m) && m !in f.dist && Relaxed(links, f, n)
    ensures Relaxed(links, Arrive(links, f, node, m, e), n)
  {
  }

  lemma FinishLayer(nodes: seq<string>, links: seq<Link>, start: string, f: Front, done: seq<string>, node: string,
                    queue: seq<string>, entries: seq<Neighbour>)
    requires node in f.dist && Layered(nodes, links, start, f, done, [node] + queue, f.dist[node])
    requires entries == Entries(links, |links|, node) && RelaxedTo(entries, |entries|, f, node)
    ensures Layered(nodes, links, start, f, done + [node], queue, f.dist[node])
  {
    EntriesJoin(links, |links|, node);
    assert (done + [node]) + queue == done + ([node] + queue);
    forall e: nat, m | Joins(links, e, node, m) ensures m in f.dist && f.dist[m] <= f.dist[node] + 1 {
      assert Neighbour(m, e) in entries;
      var j: nat :| j < |entries| && entries[j] == Neighbour(m, e);
    }
    assert Relaxed(links, f, node);
  }

  /** Taking the next node of the queue: it is new, and the layer bound moves on to it. */
  lemma NextLayer(nodes: seq<string>, links: seq<Link>, start: string, f: Front, done: seq<string>, node: string,
                  queue: seq<string>, near: nat)
    requires Layered(nodes, links, start, f, done, [node] + queue, near)
    requires forall n :: n in done ==> n in f.dist && f.dist[n] <= near
    requires forall n :: n in f.dist && n !in done ==> near <= f.dist[n]
    ensures node in f.dist && node in NodeSet(nodes) - NodeSet(done) && NodeSet(done + [node]) == NodeSet(done) + {node}
    ensures Layered(nodes, links, start, f, done, [node] + queue, f.dist[node])
    ensures forall n :: n in done ==> f.dist[n] <= f.dist[node]
    ensures forall n :: n in f.dist && n !in done ==> f.dist[node] <= f.dist[n]
  {
    var k := |done|;
    assert f.order[k] == node && node in f.order;
    forall i | 0 <= i < |done| ensures done[i] != node { assert f.order[i] != f.order[k]; }
    forall n | n in f.dist && n !in done ensures f.dist[node] <= f.dist[n] {
      assert n in f.order;
      var j :| 0 <= j < |f.order| && f.order[j] == n;
      assert forall i :: 0 <= i < k ==> f.order[i] == done[i];
    }
  }

  /** Nodes nearer than `bound` are done: a shorter walk only meets done nodes. */
  lemma {:induction false} ShortWalkStays(links: seq<Link>, f: Front, done: seq<string>, bound: nat, w: seq<Hop>,
                                          u: string, v: string)
    requires Walk(links, w, u, v) && u in f.dist && f.dist[u] + |w| < bound
    requires forall n :: n in f.dist && n !in done ==> bound <= f.dist[n]
    requires forall n :: n in done ==> Relaxed(links, f, n)
    ensures v in f.dist && f.dist[v] <= f.dist[u] + |w|
    decreases |w|
  {
    if w != [] {
      var n := Head(links, w[0]);
      assert Relaxed(links, f, u);
      assert Joins(links, w[0].edge, u, n);
      ShortWalkStays(links, f, done, bound, w[1..], n, v);
    }
  }

  /** No walk from the start to a node about to be looked at is shorter than its distance. */
  lemma NoShorterWalk(nodes: seq<string>, links: seq<Link>, start: string, f: Front, done: seq<string>,
                      queue: seq<string>, near: nat, node: string, w: seq<Hop>)
    requires Layered(nodes, links, start, f, done, queue, near) && node in f.dist && Walk(links, w, start, node)
    requires forall n :: n in f.dist && n !in done ==> f.dist[node] <= f.dist[n]
    ensures f.dist[node] <= |w|
  {
    if |w| < f.dist[node] {
      ShortWalkStays(links, f, done, f.dist[node], w, start, node);
    }
  }

  /** When the queue is empty the visited nodes are all that can be reached. */
  lemma NothingBeyond(nodes: seq<string>, links: seq<Link>, start: string, f: Front, done: seq<string>, near: nat,
                      goal: string)
    requires Layered(nodes, links, start, f, done, [], near) && goal !in f.dist
    ensures !Reaches(links, start, goal)
  {
    assert forall n :: n in f.dist ==> n in done;
    forall e: nat, u, v | u in f.dist.Keys && Joins(links, e, u, v)
      ensures v in f.dist.Keys
    {
      assert Relaxed(links, f, u);
    }
    assert ClosedUnder(links, f.dist.Keys);
    if w :| Walk(links, w, start, goal) { WalkStaysInside(links, f.dist.Keys, w, start, goal); }
  }

  ghost predicate Shortest(links: seq<Link>, p: seq<Hop>, u: string, v: string) {
    Walk(links, p, u, v) && forall w :: Walk(links, w, u, v) ==> |p| <= |w|
  }

  /** Follows the arrivals back from `goal`, then reverses the list. */
  method TraceBack(links: seq<Link>, start: string, goal: string, f: Front) returns (path: seq<Hop>)
    requires goal in f.dist && f.parent.Keys == f.dist.Keys - {start} && start in f.dist && f.dist[start] == 0
    requires forall m :: m in f.parent ==> Arrived(links, f, m)
    ensures Walk(links, path, start, goal) && |path| == f.dist[goal]
  {
    path := [];
    var cur := goal;
    while cur != start
      invariant cur in f.dist && Walk(links, path, cur, goal) && |path| + f.dist[cur] == f.dist[goal]
      decreases f.dist[cur]
    {
      assert Arrived(links, f, cur);
      var x := f.parent[cur];
      assert ([x.hop] + path)[1..] == path;
      path := [x.hop] + path;
      cur := x.from;
    }
  }

  /** Facts about a layered search that do not need its definition. */
  lemma LayeredFacts(nodes: seq<string>, links: seq<Link>, start: string, f: Front, done: seq<string>,
                     queue: seq<string>, near: nat)
    requires Layered(nodes, links, start, f, done, queue, near)
    ensures f.parent.Keys == f.dist.Keys - {start} && start in f.dist && f.dist[start] == 0
    ensures forall m :: m in f.parent ==> Arrived(links, f, m)
    ensures forall m :: m in f.dist ==> m in nodes
    ensures forall m :: m in queue ==> m in f.dist
    ensures queue == [] ==> forall m :: m in f.dist ==> m in done
  {
    forall m | m in f.dist ensures m in nodes { assert m in NodeSet(f.order) && m in NodeSet(nodes); }
    forall m | m in queue ensures m in f.dist { assert m in f.order; }
  }

  /** Everything looked at is no further than `near`, everything else no nearer. */
  ghost predicate Frontline(f: Front, done: seq<string>, near: nat) {
    && (forall n :: n in done ==> n in f.dist && f.dist[n] <= near)
    && (forall n :: n in f.dist && n !in done ==> near <= f.dist[n])
  }

  lemma FrontlineAdvances(f: Front, done: seq<string>, node: string)
    requires node in f.dist && Frontline(f, done, f.dist[node])
    ensures Frontline(f, done + [node], f.dist[node])
  {
  }

  lemma FrontlineArrives(links: seq<Link>, f: Front, done: seq<string>, node: string, m: string, e: nat)
    requires node in f.dist && Frontline(f, done, f.dist[node]) && Joins(links, e, node, m) && m !in f.dist
    ensures Frontline(Arrive(links, f, node, m, e), done, f.dist[node])
  {
  }

  lemma RelaxedMore(entries: seq<Neighbour>, k: nat, f: Front, g: Front, node: string)
    requires RelaxedTo(entries, k, f, node) && k < |entries|
    requires forall n :: n in f.dist ==> n in g.dist && g.dist[n] == f.dist[n]
    requires entries[k].node in g.dist && g.dist[entries[k].node] <= f.dist[node] + 1
    ensures RelaxedTo(entries, k + 1, g, node)
  {
  }

  lemma WithinLayer(nodes: seq<string>, links: seq<Link>, start: string, f: Front, done: seq<string>,
                    queue: seq<string>,
                    near: nat, m: string)
    requires Layered(nodes, links, start, f, done, queue, near) && m in f.dist
    ensures f.dist[m] <= near + 1
  {
  }

  /** Looks at every neighbour of `node`. */
  method VisitNeighbours(nodes: seq<string>, links: seq<Link>, start: string, f: Front, ghost done: seq<string>,
                         node: string,
                         queue: seq<string>, entries: seq<Neighbour>) returns (g: Front, next: seq<string>)
    requires WfGraph(nodes, links) && node in f.dist &&
             Layered(nodes, links, start, f, done, [node] + queue, f.dist[node])
    requires Frontline(f, done, f.dist[node]) && entries == Entries(links, |links|, node)
    ensures node in g.dist && Layered(nodes, links, start, g, done + [node], next, g.dist[node])
    ensures Frontline(g, done + [node], g.dist[node])
  {
    hide Layered, Frontline, RelaxedTo, Entries, Joins, WfGraph;
    EntriesJoin(links, |links|, node);
    g, next := f, queue;
    RelaxedNone(entries, g, node);
    for k := 0 to |entries|
      invariant node in g.dist && g.dist[node] == f.dist[node]
      invariant Layered(nodes, links, start, g, done, [node] + next, g.dist[node])
      invariant Frontline(g, done, g.dist[node]) && RelaxedTo(entries, k, g, node)
    {
      var m, e := entries[k].node, entries[k].edge;
      if m !in g.dist {
        ArriveKeeps(nodes, links, start, g, done, [node] + next, node, m, e);
        FrontlineArrives(links, g, done, node, m, e);
        RelaxedMore(entries, k, g, Arrive(links, g, node, m, e), node);
        assert ([node] + next) + [m] == [node] + (next + [m]);
        g := Arrive(links, g, node, m, e);
        next := next + [m];
      } else {
        WithinLayer(nodes, links, start, g, done, [node] + next, g.dist[node], m);
        RelaxedMore(entries, k, g, g, node);
      }
    }
    FinishLayer(nodes, links, start, g, done, node, next, entries);
    FrontlineAdvances(g, done, node);
  }

  lemma RelaxedNone(entries: seq<Neighbour>, f: Front, node: string)
    requires node in f.dist
    ensures RelaxedTo(entries, 0, f, node)
  {
  }

  lemma StartFrontline(start: string)
    ensures Frontline(Front([start], map[], map[start := 0]), [], 0)
  {
  }

  lemma EmptyWalkShortest(links: seq<Link>, u: string)
    ensures Shortest(links, [], u, u)
  {
  }

  /** Breadth-first from `a` to `b`: a shortest walk when one exists, and an honest refusal otherwise. */
  method FindPathEdges(nodes: seq<string>, links: seq<Link>, a: string, b: string)
    returns (r: Result<seq<Hop>, NetError>)
    requires WfGraph(nodes, links)
    ensures match r
            case Ok(p) => a in nodes && b in nodes && Shortest(links, p, a, b)
            case Err(UnknownNode) => a !in nodes || b !in nodes
            case Err(DisconnectedQueryPath) => a in nodes && b in nodes && !Reaches(links, a, b)
            case Err(_) => false
  {
    hide Layered, Frontline, Shortest, Reaches, Walk, Arrived, WfGraph;
    if a !in nodes || b !in nodes {
      return Err(UnknownNode);
    }
    if a == b {
      EmptyWalkShortest(links, a);
      return Ok([]);
    }
    var adjacency := BuildAdjacency(nodes, links);
    var f := Front([a], map[], map[a := 0]);
    var queue := [a];
    ghost var done: seq<string> := [];
    ghost var near: nat := 0;
    StartLayers(nodes, links, a);
    StartFrontline(a);
    while queue != []
      invariant Layered(nodes, links, a, f, done, queue, near) && Frontline(f, done, near) && b !in done
      decreases NodeSet(nodes) - NodeSet(done)
    {
      var node := queue[0];
      assert queue == [node] + queue[1..];
      LayeredFacts(nodes, links, a, f, done, queue, near);
      AdvanceTo(nodes, links, a, f, done, node, queue[1..], near);
      queue := queue[1..];
      if node == b {
        var path := TraceBack(links, a, b, f);
        PathIsShortest(nodes, links, a, f, done, [node] + queue, f.dist[b], b, path);
        return Ok(path);
      }
      near := f.dist[node];
      f, queue := VisitNeighbours(nodes, links, a, f, done, node, queue, adjacency[node]);
      near := f.dist[node];
      done := done + [node];
    }
    LayeredFacts(nodes, links, a, f, done, queue, near);
    NothingBeyond(nodes, links, a, f, done, near, b);
    r := Err(DisconnectedQueryPath);
  }

  lemma AdvanceTo(nodes: seq<string>, links: seq<Link>, start: string, f: Front, done: seq<string>, node: string,
                  queue: seq<string>, near: nat)
    requires Layered(nodes, links, start, f, done, [node] + queue, near) && Frontline(f, done, near)
    ensures node in f.dist && node in NodeSet(nodes) - NodeSet(done) && NodeSet(done + [node]) == NodeSet(done) + {node}
    ensures Layered(nodes, links, start, f, done, [node] + queue, f.dist[node]) && Frontline(f, done, f.dist[node])
  {
    hide Layered, NodeSet;
    NextLayer(nodes, links, start, f, done, node, queue, near);
  }

  lemma PathIsShortest(nodes: seq<string>, links: seq<Link>, start: string, f: Front, done: seq<string>,
                       queue: seq<string>, near: nat, goal: string, path: seq<Hop>)
    requires Layered(nodes, links, start, f, done, queue, near) && goal in f.dist && near == f.dist[goal] &&
             Frontline(f, done, near)
    requires Walk(links, path, start, goal) && |path| == f.dist[goal]
    ensures Shortest(links, path, start, goal)
  {
    hide Layered, Walk;
    forall w | Walk(links, w, start, goal) ensures |path| <= |w| {
      NoShorterWalk(nodes, links, start, f, done, queue, near, goal, w);
    }
  }
}
