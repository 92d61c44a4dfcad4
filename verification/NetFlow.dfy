/** Flows on the network: node balances, the continuity-respecting seed, and loop correction. */
module NetFlow {
  import opened Wrappers
  import opened Reals
  import opened NetGraph
  import opened NetLoops
  import opened NetPaths
  import Names

  const CHORD_SEED := 0.0001
  const CONSERVATION_TOL := 0.000000001
  const HC_TOL := 0.000001
  const HC_MAX_ITER: nat := 100

  /** An edge with its mutable flow. */
  class Edge {
    const link: Link
    var flow: real

    constructor (link: Link, flow: real)
      ensures this.link == link && this.flow == flow
    {
      this.link, this.flow := link, flow;
    }
  }

  function LinksOf(edges: seq<Edge>): seq<Link> {
    seq(|edges|, e requires 0 <= e < |edges| => edges[e].link)
  }

  function Flows(edges: seq<Edge>): seq<real>
    reads edges
  {
    seq(|edges|, e requires 0 <= e < |edges| reads edges => edges[e].flow)
  }

  ghost predicate DistinctEdges(edges: seq<Edge>) {
    forall i, j :: 0 <= i < j < |edges| ==> edges[i] != edges[j]
  }

  // ----- balances -----

  /** Net inflow at `n` from the edges from position `i` on. */
  function BalanceFrom(links: seq<Link>, f: seq<real>, n: string, i: nat): real
    requires |f| == |links| && i <= |links|
    decreases |links| - i
  {
    if i == |links| then 0.0 else Inc(links[i], n) * f[i] + BalanceFrom(links, f, n, i + 1)
  }

  function Balance(links: seq<Link>, f: seq<real>, n: string): real
    requires |f| == |links|
  {
    BalanceFrom(links, f, n, 0)
  }

  lemma {:induction false} BalanceUpdateFrom(links: seq<Link>, f: seq<real>, n: string, e: nat, v: real, i: nat)
    requires |f| == |links| && e < |f| && i <= |links|
    ensures BalanceFrom(links, f[e := v], n, i) ==
            BalanceFrom(links, f, n, i) + if i <= e then Inc(links[e], n) * (v - f[e]) else 0.0
    decreases |links| - i
  {
    hide Inc;
    if i < |links| {
      BalanceUpdateFrom(links, f, n, e, v, i + 1);
      if i == e { Replaced(Inc(links[e], n), f[e], v); } else { assert f[e := v][i] == f[i]; }
    }
  }

  lemma Replaced(c: real, x: real, y: real)
    ensures c * y == c * x + c * (y - x)
  {
  }

  lemma BalanceUpdate(links: seq<Link>, f: seq<real>, n: string, e: nat, v: real)
    requires |f| == |links| && e < |f|
    ensures Balance(links, f[e := v], n) == Balance(links, f, n) + Inc(links[e], n) * (v - f[e])
  {
    BalanceUpdateFrom(links, f, n, e, v, 0);
  }

  /** Flows that agree on the edges of a node give it the same balance. */
  lemma {:induction false} BalanceAgreesFrom(links: seq<Link>, f: seq<real>, g: seq<real>, n: string, i: nat)
    requires |f| == |g| == |links| && i <= |links|
    requires forall e :: 0 <= e < |links| ==> Inc(links[e], n) == 0.0 || f[e] == g[e]
    ensures BalanceFrom(links, f, n, i) == BalanceFrom(links, g, n, i)
    decreases |links| - i
  {
    if i < |links| { BalanceAgreesFrom(links, f, g, n, i + 1); }
  }

  /** The incidence list of `n` over the first `i` edges: outflow at `a`, inflow at `b`. */
  function Incident(links: seq<Link>, i: nat, n: string): seq<Hop>
    requires i <= |links|
  {
    if i == 0 then []
    else
      Incident(links, i - 1, n) + (if links[i - 1].a == n then [Hop(i - 1, -1)] else [])
                                + (if links[i - 1].b == n then [Hop(i - 1, 1)] else [])
  }

  function Degree(links: seq<Link>, n: string): nat {
    |Incident(links, |links|, n)|
  }

  /** Balance of the first `i` edges. */
  function BalanceTo(links: seq<Link>, f: seq<real>, n: string, i: nat): real
    requires |f| == |links| && i <= |links|
  {
    if i == 0 then 0.0 else BalanceTo(links, f, n, i - 1) + Inc(links[i - 1], n) * f[i - 1]
  }

  lemma {:induction false} BalanceSplits(links: seq<Link>, f: seq<real>, n: string, i: nat)
    requires |f| == |links| && i <= |links|
    ensures Balance(links, f, n) == BalanceTo(links, f, n, i) + BalanceFrom(links, f, n, i)
  {
    hide Inc, Balance;
    if i > 0 { BalanceSplits(links, f, n, i - 1); } else { BalanceIs(links, f, n); }
  }

  lemma BalanceIs(links: seq<Link>, f: seq<real>, n: string)
    requires |f| == |links|
    ensures Balance(links, f, n) == BalanceFrom(links, f, n, 0)
  {
  }

  lemma {:induction false} IncidentSum(links: seq<Link>, f: seq<real>, n: string, i: nat)
    requires |f| == |links| && i <= |links|
    ensures HopSum(Incident(links, i, n), f) == BalanceTo(links, f, n, i)
  {
    hide *;
    if i > 0 {
      IncidentSum(links, f, n, i - 1);
      NextIncident(links, f, n, i - 1);
    } else {
      NoIncident(links, f, n);
    }
  }

  lemma NoIncident(links: seq<Link>, f: seq<real>, n: string)
    requires |f| == |links|
    ensures HopSum(Incident(links, 0, n), f) == BalanceTo(links, f, n, 0)
  {
  }

  /** The next edge adds to both sums alike. */
  lemma NextIncident(links: seq<Link>, f: seq<real>, n: string, i: nat)
    requires |f| == |links| && i < |links|
    ensures HopSum(Incident(links, i + 1, n), f) - HopSum(Incident(links, i, n), f) ==
            BalanceTo(links, f, n, i + 1) - BalanceTo(links, f, n, i)
  {
    hide *;
    var before := Incident(links, i, n);
    var out, into := NextHops(links, i, n);
    ThreeSums(before, out, into, f);
    EdgeSum(links[i], i, f, n, out, into);
    NextBalance(links, f, n, i);
  }

  lemma NextHops(links: seq<Link>, i: nat, n: string) returns (out: seq<Hop>, into: seq<Hop>)
    requires i < |links|
    ensures out == (if links[i].a == n then [Hop(i, -1)] else []) && into == if links[i].b == n then [Hop(i, 1)] else []
    ensures Incident(links, i + 1, n) == Incident(links, i, n) + out + into
  {
    out, into := if links[i].a == n then [Hop(i, -1)] else [], if links[i].b == n then [Hop(i, 1)] else [];
  }

  lemma NextBalance(links: seq<Link>, f: seq<real>, n: string, i: nat)
    requires |f| == |links| && i < |links|
    ensures BalanceTo(links, f, n, i + 1) == BalanceTo(links, f, n, i) + Inc(links[i], n) * f[i]
  {
  }

  lemma ThreeSums(a: seq<Hop>, b: seq<Hop>, c: seq<Hop>, f: seq<real>)
    ensures HopSum(a + b + c, f) == HopSum(a, f) + HopSum(b, f) + HopSum(c, f)
  {
    hide HopSum;
    HopSumAppend(a + b, c, f);
    HopSumAppend(a, b, f);
  }

  /** One edge's hops into and out of a node carry its part of the balance. */
  lemma EdgeSum(l: Link, e: nat, f: seq<real>, n: string, out: seq<Hop>, into: seq<Hop>)
    requires e < |f| && out == if l.a == n then [Hop(e, -1)] else []
    requires into == if l.b == n then [Hop(e, 1)] else []
    ensures HopSum(out, f) + HopSum(into, f) == Inc(l, n) * f[e]
  {
    OneHop(Hop(e, -1), f);
    OneHop(Hop(e, 1), f);
  }

  /** Leaving out one edge is the same as giving it no flow. */
  lemma {:induction false} SkipIsZero(hops: seq<Hop>, f: seq<real>, e: nat)
    requires e < |f|
    ensures HopSum(Outside(hops, {e}), f) == HopSum(hops, f[e := 0.0])
  {
    if hops != [] {
      SkipIsZero(hops[1..], f, e);
      var tail := Outside(hops[1..], {e});
      assert Outside(hops, {e}) == (if hops[0].edge == e then [] else [hops[0]]) + tail;
      assert [] + tail == tail;
      if hops[0].edge != e { assert ([hops[0]] + tail)[1..] == tail; }
    }
  }

  /** The sum over a node's incidence list without edge `e`. */
  lemma SkipSum(links: seq<Link>, f: seq<real>, n: string, e: nat)
    requires |f| == |links| && e < |f|
    ensures HopSum(Outside(Incident(links, |links|, n), {e}), f) == Balance(links, f, n) - Inc(links[e], n) * f[e]
  {
    SkipIsZero(Incident(links, |links|, n), f, e);
    IncidentSum(links, f[e := 0.0], n, |links|);
    BalanceSplits(links, f[e := 0.0], n, |links|);
    BalanceUpdate(links, f, n, e, 0.0);
  }

  lemma FullSum(links: seq<Link>, f: seq<real>, n: string)
    requires |f| == |links|
    ensures HopSum(Incident(links, |links|, n), f) == Balance(links, f, n)
  {
    IncidentSum(links, f, n, |links|);
    BalanceSplits(links, f, n, |links|);
  }

  // ----- what the seed has to satisfy -----

  /** Continuity at a node below the root: a dead end carries nothing, a junction balances, exactly when the edge to
      its parent is free and within tolerance when that edge is imposed. */
  ghost predicate NodeSettled(links: seq<Link>, t: Tree, f: seq<real>, n: string) {
    && |f| == |links| && n in t.parentEdge && t.parentEdge[n] < |links|
    && var p := t.parentEdge[n];
       if Degree(links, n) == 1 then links[p].Unknown() ==> f[p] == 0.0
       else if links[p].Unknown() then Balance(links, f, n) == 0.0
       else Abs(Balance(links, f, n)) <= CONSERVATION_TOL
  }

  /** Imposed flows as given, free chords at the seed value. */
  ghost predicate Pinned(links: seq<Link>, t: Tree, given: seq<real>, f: seq<real>) {
    |f| == |given| == |links| &&
    forall e :: 0 <= e < |links| ==>
      (!links[e].Unknown() ==> f[e] == given[e]) && (links[e].Unknown() && e !in t.treeEdges ==> f[e] == CHORD_SEED)
  }

  ghost predicate RootBalances(links: seq<Link>, f: seq<real>, root: string) {
    |f| == |links| && (Degree(links, root) > 1 ==> Abs(Balance(links, f, root)) <= CONSERVATION_TOL)
  }

  /** Continuity at every node below the root. */
  ghost predicate ContinuousBelow(links: seq<Link>, t: Tree, given: seq<real>, f: seq<real>) {
    Pinned(links, t, given, f) && forall j :: 0 < j < |t.order| ==> NodeSettled(links, t, f, t.order[j])
  }

  ghost predicate Seeded(root: string, links: seq<Link>, t: Tree, given: seq<real>, f: seq<real>) {
    ContinuousBelow(links, t, given, f) && RootBalances(links, f, root)
  }

  // ----- one node at a time, leaves first -----

  ghost predicate SettledFrom(links: seq<Link>, t: Tree, f: seq<real>, i: nat) {
    forall j :: i <= j < |t.order| && j > 0 ==> NodeSettled(links, t, f, t.order[j])
  }

  /** The edges already decided when the nodes from position `i` on are settled. */
  ghost predicate Decided(root: string, links: seq<Link>, t: Tree, i: nat, e: nat)
    requires TreeOk(root, links, t)
  {
    e < |links| && (e !in t.treeEdges || !links[e].Unknown() ||
                    exists j :: i <= j < |t.order| && j > 0 && e == ParentHop(root, links, t, j).edge)
  }

  ghost predicate AgreeFrom(root: string, links: seq<Link>, t: Tree, f: seq<real>, g: seq<real>, i: nat)
    requires TreeOk(root, links, t)
  {
    |f| == |g| == |links| && forall e: nat :: Decided(root, links, t, i, e) ==> f[e] == g[e]
  }

  /** Any assignment that is continuous below the root agrees with the flows decided so far. */
  ghost predicate Forced(root: string, links: seq<Link>, t: Tree, given: seq<real>, f: seq<real>, i: nat)
    requires TreeOk(root, links, t)
  {
    forall g :: ContinuousBelow(links, t, given, g) ==> AgreeFrom(root, links, t, f, g, i)
  }

  lemma IncEnds(links: seq<Link>, h: Hop, n: string)
    requires WfHop(links, h)
    ensures Inc(links[h.edge], n) != 0.0 ==> n == Tail(links, h) || n == Head(links, h)
    ensures Tail(links, h) != Head(links, h) && n == Head(links, h) ==> Inc(links[h.edge], n) == h.sign as real
  {
  }

  /** The parent edge of the node at `i` does not touch nodes after it. */
  lemma ParentEdgeAway(root: string, links: seq<Link>, t: Tree, i: nat, j: nat)
    requires TreeOk(root, links, t) && 0 < i < j < |t.order|
    ensures Inc(links[ParentHop(root, links, t, i).edge], t.order[j]) == 0.0
  {
    var h := ParentHop(root, links, t, i);
    ParentHopEnds(root, links, t, i);
    IncEnds(links, h, t.order[j]);
    assert t.order[ParentPosition(root, links, t, i)] != t.order[j] && t.order[i] != t.order[j];
  }

  /** Apart from its parent edge, a node only has edges decided before it. */
  lemma OthersDecided(root: string, links: seq<Link>, t: Tree, i: nat, e: nat)
    requires TreeOk(root, links, t) && i < |t.order| && e < |links| && Inc(links[e], t.order[i]) != 0.0
    requires i > 0 ==> e != ParentHop(root, links, t, i).edge
    ensures Decided(root, links, t, i + 1, e)
  {
    if e in t.treeEdges {
      TreeEdgesAre(root, links, t);
      hide PathFrom, EdgesUpTo;
      assert e in EdgesUpTo(root, links, t, |t.order| - 1);
      var k := WhoseEdge(root, links, t, e);
      if k < i { ParentEdgeAway(root, links, t, k, i); }
    }
  }

  lemma WhoseEdge(root: string, links: seq<Link>, t: Tree, e: nat) returns (k: nat)
    requires TreeOk(root, links, t) && e in t.treeEdges
    ensures 0 < k < |t.order| && e == ParentHop(root, links, t, k).edge && e < |links|
  {
    TreeEdgesAre(root, links, t);
    k :| 0 < k <= |t.order| - 1 && e == ParentHop(root, links, t, k).edge;
  }

  lemma DecidedStep(root: string, links: seq<Link>, t: Tree, i: nat, e: nat)
    requires TreeOk(root, links, t) && 0 < i < |t.order|
    ensures Decided(root, links, t, i, e) <==>
            Decided(root, links, t, i + 1, e) || e == ParentHop(root, links, t, i).edge
  {
  }

  /** Balance at node `i` after its parent edge is given flow `v`. */
  lemma OwnBalance(root: string, links: seq<Link>, t: Tree, i: nat, f: seq<real>, v: real)
    requires TreeOk(root, links, t) && 0 < i < |t.order| && |f| == |links|
    ensures var h := ParentHop(root, links, t, i);
            Balance(links, f[h.edge := v], t.order[i]) == Balance(links, f, t.order[i]) +
              h.sign as real * (v - f[h.edge])
  {
    var h := ParentHop(root, links, t, i);
    ParentHopEnds(root, links, t, i);
    IncEnds(links, h, t.order[i]);
    BalanceUpdate(links, f, t.order[i], h.edge, v);
  }

  lemma StaysSettled(root: string, links: seq<Link>, t: Tree, i: nat, f: seq<real>, v: real)
    requires TreeOk(root, links, t) && 0 < i < |t.order| && SettledFrom(links, t, f, i + 1) && |f| == |links|
    ensures SettledFrom(links, t, f[ParentHop(root, links, t, i).edge := v], i + 1)
  {
    hide TreeOk, NodeSettled, PathFrom;
    var p := ParentHop(root, links, t, i).edge;
    forall j | i + 1 <= j < |t.order| && j > 0 ensures NodeSettled(links, t, f[p := v], t.order[j]) {
      assert NodeSettled(links, t, f, t.order[j]);
      ParentEdgeAway(root, links, t, i, j);
      ParentEdgesDiffer(root, links, t, i, j);
      ParentHopEnds(root, links, t, j);
      NodeUnaffected(links, t, f, t.order[j], p, v);
    }
  }

  lemma NodeUnaffected(links: seq<Link>, t: Tree, f: seq<real>, n: string, p: nat, v: real)
    requires NodeSettled(links, t, f, n) && p < |links| && Inc(links[p], n) == 0.0 && p != t.parentEdge[n]
    ensures NodeSettled(links, t, f[p := v], n)
  {
    hide Balance, Abs;
    BalanceUpdate(links, f, n, p, v);
    assert Inc(links[p], n) * (v - f[p]) == 0.0;
    assert Balance(links, f[p := v], n) == Balance(links, f, n);
  }

  lemma StaysPinned(links: seq<Link>, t: Tree, given: seq<real>, f: seq<real>, p: nat, v: real)
    requires Pinned(links, t, given, f) && p < |links| && p in t.treeEdges && links[p].Unknown()
    ensures Pinned(links, t, given, f[p := v])
  {
  }

  /** Agreement off the parent edge makes the balances at node `i` differ only by that edge. */
  lemma BalanceGap(root: string, links: seq<Link>, t: Tree, i: nat, f: seq<real>, g: seq<real>)
    requires TreeOk(root, links, t) && 0 < i < |t.order| && AgreeFrom(root, links, t, f, g, i + 1)
    ensures var h := ParentHop(root, links, t, i);
            Balance(links, g, t.order[i]) == Balance(links, f, t.order[i]) + h.sign as real * (g[h.edge] - f[h.edge])
  {
    var h := ParentHop(root, links, t, i);
    var f' := f[h.edge := g[h.edge]];
    hide TreeOk, PathFrom;
    forall e | 0 <= e < |links| ensures Inc(links[e], t.order[i]) == 0.0 || f'[e] == g[e] {
      if Inc(links[e], t.order[i]) != 0.0 && e != h.edge { OthersDecided(root, links, t, i, e); }
    }
    BalanceAgreesFrom(links, f', g, t.order[i], 0);
    OwnBalance(root, links, t, i, f, g[h.edge]);
  }

  /** The only value the parent edge of node `i` can take. */
  ghost predicate Determines(root: string, links: seq<Link>, t: Tree, i: nat, f: seq<real>, v: real)
    requires TreeOk(root, links, t) && 0 < i < |t.order| && |f| == |links|
  {
    if Degree(links, t.order[i]) == 1 then v == 0.0
    else Balance(links, f[ParentHop(root, links, t, i).edge := v], t.order[i]) == 0.0
  }

  lemma SettleFree(root: string, links: seq<Link>, t: Tree, given: seq<real>, i: nat, f: seq<real>, v: real)
    requires TreeOk(root, links, t) && 0 < i < |t.order| && Pinned(links, t, given, f)
    requires SettledFrom(links, t, f, i + 1) && Forced(root, links, t, given, f, i + 1)
    requires links[ParentHop(root, links, t, i).edge].Unknown() && Determines(root, links, t, i, f, v)
    ensures var f' := f[ParentHop(root, links, t, i).edge := v];
            && Pinned(links, t, given, f') && SettledFrom(links, t, f', i) && Forced(root, links, t, given, f', i)
  {
    var p := ParentHop(root, links, t, i).edge;
    ParentHopEnds(root, links, t, i);
    StaysPinned(links, t, given, f, p, v);
    StaysSettled(root, links, t, i, f, v);
    OwnSettled(root, links, t, i, f, v);
    hide TreeOk, NodeSettled, ContinuousBelow, Determines, AgreeFrom, Pinned;
    forall g | ContinuousBelow(links, t, given, g) ensures AgreeFrom(root, links, t, f[p := v], g, i) {
      AgreesOneMore(root, links, t, given, i, f, g, v);
    }
  }

  lemma OwnSettled(root: string, links: seq<Link>, t: Tree, i: nat, f: seq<real>, v: real)
    requires TreeOk(root, links, t) && 0 < i < |t.order| && |f| == |links| && Determines(root, links, t, i, f, v)
    requires links[ParentHop(root, links, t, i).edge].Unknown()
    ensures NodeSettled(links, t, f[ParentHop(root, links, t, i).edge := v], t.order[i])
  {
    ParentHopEnds(root, links, t, i);
    assert HangsAt(links, t, i);
  }

  lemma AgreesOneMore(root: string, links: seq<Link>, t: Tree, given: seq<real>, i: nat, f: seq<real>, g: seq<real>,
                      v: real)
    requires TreeOk(root, links, t) && 0 < i < |t.order| && AgreeFrom(root, links, t, f, g, i + 1)
    requires ContinuousBelow(links, t, given, g) && Determines(root, links, t, i, f, v)
    requires links[ParentHop(root, links, t, i).edge].Unknown()
    ensures AgreeFrom(root, links, t, f[ParentHop(root, links, t, i).edge := v], g, i)
  {
    hide TreeOk, ContinuousBelow, Determines, PathFrom;
    var h := ParentHop(root, links, t, i);
    ForcedValue(root, links, t, given, i, f, g, v);
    forall e: nat | Decided(root, links, t, i, e)
      ensures f[h.edge := v][e] == g[e]
    {
      DecidedStep(root, links, t, i, e);
    }
  }

  lemma ContinuousNode(root: string, links: seq<Link>, t: Tree, given: seq<real>, g: seq<real>, i: nat)
    requires TreeOk(root, links, t) && ContinuousBelow(links, t, given, g) && 0 < i < |t.order|
    ensures var h := ParentHop(root, links, t, i);
            && NodeSettled(links, t, g, t.order[i]) && t.order[i] in t.parentEdge && t.parentEdge[t.order[i]] == h.edge
  {
    ParentHopEnds(root, links, t, i);
    assert HangsAt(links, t, i);
  }

  /** The free parent edge has the same flow in every assignment that is continuous below the root. */
  lemma ForcedValue(root: string, links: seq<Link>, t: Tree, given: seq<real>, i: nat, f: seq<real>, g: seq<real>,
                    v: real)
    requires TreeOk(root, links, t) && 0 < i < |t.order| && AgreeFrom(root, links, t, f, g, i + 1)
    requires ContinuousBelow(links, t, given, g) && Determines(root, links, t, i, f, v)
    requires links[ParentHop(root, links, t, i).edge].Unknown()
    ensures g[ParentHop(root, links, t, i).edge] == v
  {
    hide TreeOk, ContinuousBelow, PathFrom, Balance, Decided;
    ContinuousNode(root, links, t, given, g, i);
    BalanceGap(root, links, t, i, f, g);
    OwnBalance(root, links, t, i, f, v);
    var h := ParentHop(root, links, t, i);
    if Degree(links, t.order[i]) != 1 {
      SameGap(h.sign, Balance(links, f, t.order[i]), v - f[h.edge], g[h.edge] - f[h.edge]);
    }
  }

  lemma SameGap(sign: int, b: real, x: real, y: real)
    requires sign == 1 || sign == -1
    requires b + sign as real * x == 0.0 && b + sign as real * y == 0.0
    ensures x == y
  {
  }

  lemma SettleImposed(root: string, links: seq<Link>, t: Tree, given: seq<real>, i: nat, f: seq<real>)
    requires TreeOk(root, links, t) && 0 < i < |t.order| && Pinned(links, t, given, f)
    requires SettledFrom(links, t, f, i + 1) && Forced(root, links, t, given, f, i + 1)
    requires !links[ParentHop(root, links, t, i).edge].Unknown()
    requires Degree(links, t.order[i]) == 1 || Abs(Balance(links, f, t.order[i])) <= CONSERVATION_TOL
    ensures SettledFrom(links, t, f, i) && Forced(root, links, t, given, f, i)
  {
    ParentHopEnds(root, links, t, i);
    assert HangsAt(links, t, i);
    assert NodeSettled(links, t, f, t.order[i]);
    hide TreeOk, NodeSettled, ContinuousBelow;
    forall g | ContinuousBelow(links, t, given, g) ensures AgreeFrom(root, links, t, f, g, i) {
      forall e: nat | Decided(root, links, t, i, e) ensures f[e] == g[e] { DecidedStep(root, links, t, i, e); }
    }
  }

  /** An imposed parent edge that does not fit: no assignment at all is continuous below the root. */
  lemma Overconstrained(root: string, links: seq<Link>, t: Tree, given: seq<real>, i: nat, f: seq<real>)
    requires TreeOk(root, links, t) && 0 < i < |t.order| && Forced(root, links, t, given, f, i + 1)
    requires !links[ParentHop(root, links, t, i).edge].Unknown() && Degree(links, t.order[i]) != 1 && |f| == |links|
    requires Abs(Balance(links, f, t.order[i])) > CONSERVATION_TOL
    ensures !exists g :: ContinuousBelow(links, t, given, g)
  {
    if g :| ContinuousBelow(links, t, given, g) { ImposedMisfit(root, links, t, given, i, f, g); }
  }

  lemma ImposedMisfit(root: string, links: seq<Link>, t: Tree, given: seq<real>, i: nat, f: seq<real>, g: seq<real>)
    requires TreeOk(root, links, t) && 0 < i < |t.order| && AgreeFrom(root, links, t, f, g, i + 1)
    requires ContinuousBelow(links, t, given, g)
    requires !links[ParentHop(root, links, t, i).edge].Unknown() && Degree(links, t.order[i]) != 1
    ensures Abs(Balance(links, f, t.order[i])) <= CONSERVATION_TOL
  {
    var h := ParentHop(root, links, t, i);
    assert Decided(root, links, t, i + 1, h.edge);
    hide TreeOk, ContinuousBelow, PathFrom, Balance, Decided;
    ContinuousNode(root, links, t, given, g, i);
    BalanceGap(root, links, t, i, f, g);
    assert h.sign as real * (g[h.edge] - f[h.edge]) == 0.0;
    assert Balance(links, g, t.order[i]) == Balance(links, f, t.order[i]);
  }

  lemma RootAgrees(root: string, links: seq<Link>, t: Tree, f: seq<real>, g: seq<real>)
    requires TreeOk(root, links, t) && AgreeFrom(root, links, t, f, g, 1)
    ensures Balance(links, f, root) == Balance(links, g, root)
  {
    TreeRoot(root, links, t);
    hide TreeOk, PathFrom;
    forall e | 0 <= e < |links| ensures Inc(links[e], root) == 0.0 || f[e] == g[e] {
      if Inc(links[e], root) != 0.0 { OthersDecided(root, links, t, 0, e); }
    }
    BalanceAgreesFrom(links, f, g, root, 0);
  }

  lemma Unbalanced(root: string, links: seq<Link>, t: Tree, given: seq<real>, f: seq<real>)
    requires TreeOk(root, links, t) && Forced(root, links, t, given, f, 1) && |f| == |links|
    requires Degree(links, root) > 1 && Abs(Balance(links, f, root)) > CONSERVATION_TOL
    ensures !exists g :: Seeded(root, links, t, given, g)
  {
    if g :| Seeded(root, links, t, given, g) { RootMisfit(root, links, t, given, f, g); }
  }

  lemma RootMisfit(root: string, links: seq<Link>, t: Tree, given: seq<real>, f: seq<real>, g: seq<real>)
    requires TreeOk(root, links, t) && AgreeFrom(root, links, t, f, g, 1) && Seeded(root, links, t, given, g)
    requires Degree(links, root) > 1
    ensures Abs(Balance(links, f, root)) <= CONSERVATION_TOL
  {
    RootAgrees(root, links, t, f, g);
  }

  lemma NothingSettled(root: string, links: seq<Link>, t: Tree, given: seq<real>, f: seq<real>)
    requires TreeOk(root, links, t) && Pinned(links, t, given, f)
    ensures SettledFrom(links, t, f, |t.order|) && Forced(root, links, t, given, f, |t.order|)
  {
  }

  lemma AllSettled(root: string, links: seq<Link>, t: Tree, given: seq<real>, f: seq<real>)
    requires TreeOk(root, links, t) && Pinned(links, t, given, f) && SettledFrom(links, t, f, 1)
    ensures ContinuousBelow(links, t, given, f)
  {
  }

  // ----- one seed at most -----

  lemma PinnedAgree(root: string, links: seq<Link>, t: Tree, given: seq<real>, f: seq<real>, g: seq<real>)
    requires TreeOk(root, links, t) && Pinned(links, t, given, f) && Pinned(links, t, given, g)
    ensures AgreeFrom(root, links, t, f, g, |t.order|)
  {
    hide TreeOk, PathFrom;
  }

  lemma AgreeBelow(root: string, links: seq<Link>, t: Tree, given: seq<real>, i: nat, f: seq<real>, g: seq<real>)
    requires TreeOk(root, links, t) && 0 < i < |t.order| && AgreeFrom(root, links, t, f, g, i + 1)
    requires ContinuousBelow(links, t, given, f) && ContinuousBelow(links, t, given, g)
    ensures AgreeFrom(root, links, t, f, g, i)
  {
    var h := ParentHop(root, links, t, i);
    ContinuousNode(root, links, t, given, f, i);
    hide TreeOk, ContinuousBelow, PathFrom, Balance, Abs;
    if links[h.edge].Unknown() {
      assert f[h.edge := f[h.edge]] == f;
      assert Determines(root, links, t, i, f, f[h.edge]);
      AgreesOneMore(root, links, t, given, i, f, g, f[h.edge]);
    } else {
      forall e: nat | Decided(root, links, t, i, e) ensures f[e] == g[e] { DecidedStep(root, links, t, i, e); }
    }
  }

  lemma {:induction false} AgreeDownTo(root: string, links: seq<Link>, t: Tree, given: seq<real>, i: nat, f: seq<real>,
                                       g: seq<real>)
    requires TreeOk(root, links, t) && 0 < i <= |t.order|
    requires ContinuousBelow(links, t, given, f) && ContinuousBelow(links, t, given, g)
    ensures AgreeFrom(root, links, t, f, g, i)
    decreases |t.order| - i
  {
    hide TreeOk, AgreeFrom, NodeSettled, Pinned;
    if i == |t.order| {
      PinnedAgree(root, links, t, given, f, g);
    } else {
      AgreeDownTo(root, links, t, given, i + 1, f, g);
      AgreeBelow(root, links, t, given, i, f, g);
    }
  }

  /** At most one assignment is continuous below the root. */
  lemma ContinuousOnce(root: string, links: seq<Link>, t: Tree, given: seq<real>, f: seq<real>, g: seq<real>)
    requires TreeOk(root, links, t) && ContinuousBelow(links, t, given, f) && ContinuousBelow(links, t, given, g)
    ensures f == g
  {
    assert |t.order| > 0;
    AgreeDownTo(root, links, t, given, 1, f, g);
    forall e | 0 <= e < |links| ensures f[e] == g[e] {
      if e in t.treeEdges {
        var k := WhoseEdge(root, links, t, e);
        assert Decided(root, links, t, 1, e);
      } else {
        assert Decided(root, links, t, 1, e);
      }
    }
  }
}
