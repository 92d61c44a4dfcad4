/** Seeding and loop correction as they run on the edges, and what a whole run keeps. */
module NetSolve {
  import opened Wrappers
  import opened Reals
  import opened NetGraph
  import opened NetLoops
  import opened NetPaths
  import opened NetFlow
  import opened NetCorrection
  import Names

  // ----- writing one flow -----

  lemma OneFlowChanged(edges: seq<Edge>, f: seq<real>, e: nat, v: real)
    requires e < |edges| == |f| && edges[e].flow == v && forall i :: 0 <= i < |edges| && i != e ==>
             edges[i].flow == f[i]
    ensures Flows(edges) == f[e := v]
  {
  }

  method Assign(edges: seq<Edge>, e: nat, v: real)
    requires DistinctEdges(edges) && e < |edges|
    modifies edges[e]
    ensures Flows(edges) == old(Flows(edges))[e := v]
  {
    ghost var f := Flows(edges);
    edges[e].flow := v;
    OneFlowChanged(edges, f, e, v);
  }

  // ----- the seed -----

  /** The first `i` edges, with free chords at the seed value. */
  ghost predicate ChordsSeeded(links: seq<Link>, t: Tree, given: seq<real>, f: seq<real>, i: nat) {
    |f| == |given| == |links| && i <= |links| &&
    forall e :: 0 <= e < |links| ==> f[e] == if e < i && links[e].Unknown() && e !in t.treeEdges then CHORD_SEED
      else given[e]
  }

  method SeedChords(edges: seq<Edge>, links: seq<Link>, t: Tree)
    requires DistinctEdges(edges) && links == LinksOf(edges)
    modifies edges
    ensures Pinned(links, t, old(Flows(edges)), Flows(edges))
  {
    for e := 0 to |edges|
      invariant ChordsSeeded(links, t, old(Flows(edges)), Flows(edges), e)
    {
      if links[e].Unknown() && e !in t.treeEdges {
        Assign(edges, e, CHORD_SEED);
      }
    }
  }

  method BuildIncidence(nodes: seq<string>, links: seq<Link>) returns (incident: map<string, seq<Hop>>)
    requires WfGraph(nodes, links)
    ensures incident.Keys == NodeSet(nodes) && forall n :: n in nodes ==> incident[n] == Incident(links, |links|, n)
  {
    incident := map n | n in nodes :: [];
    for i := 0 to |links|
      invariant Indexed(nodes, links, incident, i)
    {
      hide Incident, NodeSet;
      GraphFacts(nodes, links);
      var l := links[i];
      ghost var before := incident;
      incident := incident[l.a := incident[l.a] + [Hop(i, -1)]];
      incident := incident[l.b := incident[l.b] + [Hop(i, 1)]];
      forall n | n in nodes ensures incident[n] == Incident(links, i + 1, n) { IncidentStep(links, i, n); }
    }
  }

  ghost predicate Indexed(nodes: seq<string>, links: seq<Link>, incident: map<string, seq<Hop>>, i: nat)
    requires i <= |links|
  {
    incident.Keys == NodeSet(nodes) && forall n :: n in nodes ==> n in incident && incident[n] == Incident(links, i, n)
  }

  lemma IncidentStep(links: seq<Link>, i: nat, n: string)
    requires i < |links|
    ensures Incident(links, i + 1, n) == Incident(links, i, n) + (if links[i].a == n then [Hop(i, -1)] else [])
                                                                + (if links[i].b == n then [Hop(i, 1)] else [])
  {
  }

  method SumHops(hops: seq<Hop>, edges: seq<Edge>) returns (sum: real)
    requires forall h :: h in hops ==> h.edge < |edges|
    ensures sum == HopSum(hops, Flows(edges))
  {
    sum := 0.0;
    assert hops[0..] == hops;
    for i := 0 to |hops|
      invariant sum + HopSum(hops[i..], Flows(edges)) == HopSum(hops, Flows(edges))
    {
      assert hops[i..][1..] == hops[i + 1..];
      assert hops[i] in hops;
      sum := sum + hops[i].sign as real * edges[hops[i].edge].flow;
    }
  }

  lemma {:induction false} IncidentEdges(links: seq<Link>, i: nat, n: string)
    requires i <= |links|
    ensures forall h :: h in Incident(links, i, n) ==> h.edge < i
  {
    if i > 0 { IncidentEdges(links, i - 1, n); }
  }

  lemma SkippedEdges(links: seq<Link>, n: string, e: nat)
    ensures forall h :: h in Outside(Incident(links, |links|, n), {e}) ==> h.edge < |links|
  {
    IncidentEdges(links, |links|, n);
    OutsideMembers(Incident(links, |links|, n), {e});
  }

  /** What the parent edge must carry for the node to balance, and what that means. */
  lemma RequiredFlow(root: string, links: seq<Link>, t: Tree, i: nat, f: seq<real>, balance: real, required: real)
    requires TreeOk(root, links, t) && 0 < i < |t.order| && |f| == |links|
    requires var h := ParentHop(root, links, t, i);
             && balance == HopSum(Outside(Incident(links, |links|, t.order[i]), {h.edge}), f)
             && required == -balance * h.sign as real
    ensures var h := ParentHop(root, links, t, i);
            && Balance(links, f[h.edge := required], t.order[i]) == 0.0
            && Abs(required - f[h.edge]) == Abs(Balance(links, f, t.order[i]))
  {
    var h := ParentHop(root, links, t, i);
    ParentHopEnds(root, links, t, i);
    IncEnds(links, h, t.order[i]);
    SkipSum(links, f, t.order[i], h.edge);
    OwnBalance(root, links, t, i, f, required);
  }

  lemma ParentSign(root: string, links: seq<Link>, t: Tree, i: nat)
    requires TreeOk(root, links, t) && 0 < i < |t.order|
    ensures t.order[i] in t.parentEdge && t.parentEdge[t.order[i]] < |links| && t.parentEdge[t.order[i]] in t.treeEdges
    ensures var h := ParentHop(root, links, t, i);
            h.edge == t.parentEdge[t.order[i]] && h.sign == if links[h.edge].a == t.order[i] then -1 else 1
  {
    assert HangsAt(links, t, i);
    ParentHopEnds(root, links, t, i);
  }

  /** Settles one node: `misfit` when its parent edge is imposed and does not balance it. */
  method SettleNode(root: string, edges: seq<Edge>, links: seq<Link>, t: Tree, ghost given: seq<real>, i: nat,
                    incident: seq<Hop>)
    returns (misfit: bool)
    requires DistinctEdges(edges) && links == LinksOf(edges) && TreeOk(root, links, t) && 0 < i < |t.order|
    requires incident == Incident(links, |links|, t.order[i])
    requires Pinned(links, t, given, Flows(edges)) && SettledFrom(links, t, Flows(edges), i + 1)
    requires Forced(root, links, t, given, Flows(edges), i + 1)
    modifies edges
    ensures misfit ==> !exists g :: ContinuousBelow(links, t, given, g)
    ensures !misfit ==> Pinned(links, t, given, Flows(edges)) && SettledFrom(links, t, Flows(edges), i)
    ensures !misfit ==> Forced(root, links, t, given, Flows(edges), i)
  {
    hide TreeOk, Seeded, ContinuousBelow, Pinned, SettledFrom, Forced, PathFrom, Incident, Abs;
    var node := t.order[i];
    ParentSign(root, links, t, i);
    var p := t.parentEdge[node];
    ghost var f := Flows(edges);
    if |incident| == 1 {
      if links[p].Unknown() {
        SettleFree(root, links, t, given, i, f, 0.0);
        Assign(edges, p, 0.0);
      } else {
        SettleImposed(root, links, t, given, i, f);
      }
      return false;
    }
    var others := KeepUncommon(incident, {p});
    SkippedEdges(links, node, p);
    var balance := SumHops(others, edges);
    var sign := if links[p].a == node then -1.0 else 1.0;
    var required := -balance * sign;
    RequiredFlow(root, links, t, i, f, balance, required);
    if links[p].Unknown() {
      SettleFree(root, links, t, given, i, f, required);
      Assign(edges, p, required);
      misfit := false;
    } else if Abs(required - edges[p].flow) > CONSERVATION_TOL {
      Overconstrained(root, links, t, given, i, f);
      misfit := true;
    } else {
      SettleImposed(root, links, t, given, i, f);
      misfit := false;
    }
  }

  /** Why no assignment meets continuity: some node below the root cannot be served, or all of them can and the root
      then does not balance. */
  ghost predicate Infeasible(root: string, links: seq<Link>, t: Tree, given: seq<real>, e: NetError) {
    match e
    case OverconstrainedDemand => !exists g :: ContinuousBelow(links, t, given, g)
    case UnbalancedDemand =>
      (exists g :: ContinuousBelow(links, t, given, g)) && !exists g :: Seeded(root, links, t, given, g)
    case _ => false
  }

  lemma InfeasibleIsUnseeded(root: string, links: seq<Link>, t: Tree, given: seq<real>, e: NetError)
    requires Infeasible(root, links, t, given, e)
    ensures !exists g :: Seeded(root, links, t, given, g)
  {
    hide ContinuousBelow;
  }

  /** Leaf to root, every free tree edge takes the flow its lower node needs. It succeeds exactly when some assignment
      meets continuity, and then it has found one. */
  method Seed(nodes: seq<string>, edges: seq<Edge>, links: seq<Link>, t: Tree) returns (r: Result<(), NetError>)
    requires DistinctEdges(edges) && links == LinksOf(edges) && WfGraph(nodes, links) && Spans(nodes, links, t)
    modifies edges
    ensures r.Ok? <==> exists g :: Seeded(nodes[0], links, t, old(Flows(edges)), g)
    ensures r.Ok? ==> forall e :: 0 <= e < |links| && links[e].Unknown() && e !in t.treeEdges ==>
                        edges[e].flow == 0.0001
    ensures r.Ok? ==> Seeded(nodes[0], links, t, old(Flows(edges)), Flows(edges))
    ensures r.Err? ==> Infeasible(nodes[0], links, t, old(Flows(edges)), r.error)
  {
    hide TreeOk, Seeded, ContinuousBelow, Pinned, SettledFrom, Forced, PathFrom, Incident, Abs, WfGraph, Spans, NodeSet;
    GraphFacts(nodes, links);
    SpansCovers(nodes, links, t);
    OrderListed(nodes, links, t);
    var root := nodes[0];
    ghost var given := Flows(edges);
    SeedChords(edges, links, t);
    var incident := BuildIncidence(nodes, links);
    NothingSettled(root, links, t, given, Flows(edges));
    for i := |t.order| downto 1
      invariant Pinned(links, t, given, Flows(edges)) && SettledFrom(links, t, Flows(edges), i)
      invariant Forced(root, links, t, given, Flows(edges), i)
    {
      var misfit := SettleNode(root, edges, links, t, given, i, incident[t.order[i]]);
      if misfit {
        InfeasibleIsUnseeded(root, links, t, given, OverconstrainedDemand);
        return Err(OverconstrainedDemand);
      }
    }
    r := CheckRoot(root, edges, links, t, given, incident[root]);
    if r.Ok? { ChordsAtSeed(root, links, t, given, Flows(edges)); }
  }

  lemma ChordsAtSeed(root: string, links: seq<Link>, t: Tree, given: seq<real>, f: seq<real>)
    requires Seeded(root, links, t, given, f)
    ensures |f| == |links| &&
            forall e :: 0 <= e < |links| && links[e].Unknown() && e !in t.treeEdges ==> f[e] == 0.0001
  {
  }

  lemma OrderListed(nodes: seq<string>, links: seq<Link>, t: Tree)
    requires Spans(nodes, links, t)
    ensures t.order != [] && t.order[0] == nodes[0] && forall i :: 0 <= i < |t.order| ==> t.order[i] in NodeSet(nodes)
    ensures forall n :: n in NodeSet(nodes) ==> n in nodes
  {
    forall i | 0 <= i < |t.order| ensures t.order[i] in NodeSet(nodes) { assert t.order[i] in NodeSet(t.order); }
  }

  method CheckRoot(root: string, edges: seq<Edge>, links: seq<Link>, t: Tree, ghost given: seq<real>,
                   incident: seq<Hop>)
    returns (r: Result<(), NetError>)
    requires links == LinksOf(edges) && TreeOk(root, links, t) && incident == Incident(links, |links|, root)
    requires Pinned(links, t, given, Flows(edges)) && SettledFrom(links, t, Flows(edges), 1)
    requires Forced(root, links, t, given, Flows(edges), 1)
    ensures r.Ok? ==> Seeded(root, links, t, given, Flows(edges))
    ensures r.Err? ==> r.error == UnbalancedDemand && Infeasible(root, links, t, given, r.error)
  {
    hide TreeOk, Seeded, ContinuousBelow, Pinned, SettledFrom, Forced, PathFrom, Incident, Abs;
    ghost var f := Flows(edges);
    AllSettled(root, links, t, given, f);
    if |incident| > 1 {
      IncidentEdges(links, |links|, root);
      var balance := SumHops(incident, edges);
      FullSum(links, f, root);
      if Abs(balance) > CONSERVATION_TOL {
        Unbalanced(root, links, t, given, f);
        return Err(UnbalancedDemand);
      }
    }
    RootSettled(root, links, t, given, f);
    r := Ok(());
  }

  lemma RootSettled(root: string, links: seq<Link>, t: Tree, given: seq<real>, f: seq<real>)
    requires ContinuousBelow(links, t, given, f) && RootBalances(links, f, root)
    ensures Seeded(root, links, t, given, f)
  {
  }

  // ----- loop correction -----

  /** Numerator and denominator of one loop, over the current flows. */
  method LoopTotals(edges: seq<Edge>, links: seq<Link>, law: Law, loop: seq<Hop>) returns (num: real, den: real)
    requires links == LinksOf(edges) && forall h :: h in loop ==> h.edge < |edges|
    ensures (num, den) == Totals(links, law, loop, Flows(edges), 0)
  {
    num, den := 0.0, 0.0;
    ghost var f := Flows(edges);
    for i := 0 to |loop|
      invariant num + Totals(links, law, loop, f, i).0 == Totals(links, law, loop, f, 0).0
      invariant den + Totals(links, law, loop, f, i).1 == Totals(links, law, loop, f, 0).1
    {
      hide Totals, SignedFlow;
      var h := loop[i];
      assert h in loop;
      var edge := edges[h.edge];
      assert links[h.edge] == edge.link && At(f, h.edge) == edge.flow;
      TotalsStep(links, law, loop, f, i);
      if edge.link.Unknown() {
        var signedFlow := SignedFlow(h, edge.flow);
        var (dp, k) := law(edge.link, signedFlow);
        num := num + dp;
        den := den + k;
      }
    }
  }

  lemma TotalsStep(links: seq<Link>, law: Law, loop: seq<Hop>, f: seq<real>, i: nat)
    requires i < |loop|
    ensures var h := loop[i];
            var (num, den) := Totals(links, law, loop, f, i + 1);
            Totals(links, law, loop, f, i) ==
            if h.edge < |links| && links[h.edge].Unknown() then
              (law(links[h.edge], SignedFlow(h, At(f, h.edge))).0 + num,
               law(links[h.edge], SignedFlow(h, At(f, h.edge))).1 + den)
            else (num, den)
  {
  }

  /** The correction, edge by edge, in place. */
  method ApplyCorrection(edges: seq<Edge>, links: seq<Link>, loop: seq<Hop>, dq: real)
    requires DistinctEdges(edges) && links == LinksOf(edges) && forall h :: h in loop ==> h.edge < |edges|
    modifies edges
    ensures Flows(edges) == Correct(links, loop, dq, old(Flows(edges)), 0)
  {
    for i := 0 to |loop|
      invariant Correct(links, loop, dq, Flows(edges), i) == Correct(links, loop, dq, old(Flows(edges)), 0)
    {
      var h := loop[i];
      assert h in loop;
      if links[h.edge].Unknown() {
        var next := Shift(edges[h.edge].flow, h.sign, dq);
        Assign(edges, h.edge, next);
      }
    }
  }

  ghost predicate InRange(loops: seq<seq<Hop>>, n: nat) {
    forall k, h :: 0 <= k < |loops| && h in loops[k] ==> h.edge < n
  }

  /** One sweep over all loops. */
  method SweepLoops(edges: seq<Edge>, links: seq<Link>, law: Law, loops: seq<seq<Hop>>)
    returns (r: Result<real, NetError>)
    requires DistinctEdges(edges) && links == LinksOf(edges) && InRange(loops, |edges|)
    modifies edges
    ensures SweepFrom(links, law, loops, 0, old(Flows(edges)), 0.0) ==
            match r case Ok(most) => Ok((Flows(edges), most)) case Err(e) => Err(e)
  {
    hide Totals, Correct, DistinctEdges, Abs;
    var most := 0.0;
    for i := 0 to |loops|
      invariant SweepFrom(links, law, loops, i, Flows(edges), most) ==
                SweepFrom(links, law, loops, 0, old(Flows(edges)), 0.0)
    {
      var num, den := LoopTotals(edges, links, law, loops[i]);
      if den == 0.0 {
        return Err(AllImposerLoop);
      }
      var dq := -num / den;
      most := Max(most, Abs(dq));
      ApplyCorrection(edges, links, loops[i], dq);
    }
    r := Ok(most);
  }

  /** The flows reached are the run of the correction from a seed that meets continuity. */
  ghost predicate Solved(nodes: seq<string>, links: seq<Link>, law: Law, given: seq<real>, t: Tree, seed: seq<real>,
                         f: seq<real>) {
    && Spans(nodes, links, t) && BreadthFirst(links, t) && TreeOk(nodes[0], links, t) && Covered(links, t)
    && Seeded(nodes[0], links, t, given, seed)
    && |seed| == |f| == |links| && Ends(links, law, Basis(nodes[0], links, t), seed, Ok(f))
  }

  /** Why a network is refused: it is not connected; no assignment at all meets continuity; or the correction itself
      stops, at a loop it cannot correct or after the last permitted sweep. */
  ghost predicate Refused(nodes: seq<string>, links: seq<Link>, law: Law, given: seq<real>, t: Tree, seed: seq<real>,
                          e: NetError)
  {
    nodes != [] &&
    if e == DisconnectedNetwork then !(Names.Distinct(nodes) && Connected(nodes, links))
    else if e == OverconstrainedDemand || e == UnbalancedDemand then
      Spans(nodes, links, t) && BreadthFirst(links, t) && Infeasible(nodes[0], links, t, given, e)
    else
      && Spans(nodes, links, t) && BreadthFirst(links, t) && TreeOk(nodes[0], links, t) && Covered(links, t)
      && Seeded(nodes[0], links, t, given, seed) && |seed| == |links|
      && Ends(links, law, Basis(nodes[0], links, t), seed, Err(e))
  }

  lemma BasisInRange(root: string, links: seq<Link>, t: Tree)
    requires TreeOk(root, links, t) && Covered(links, t)
    ensures InRange(Basis(root, links, t), |links|)
  {
    hide TreeOk, Covered, LoopOf, BasisFrom;
    forall k, h | 0 <= k < |Basis(root, links, t)| && h in Basis(root, links, t)[k] ensures h.edge < |links| {
      var e := BasisLoops(root, links, t, 0, k);
      LoopEdges(root, links, t, e);
    }
  }

  method HardyCrossSolve(nodes: seq<string>, edges: seq<Edge>, law: Law)
    returns (r: Result<(), NetError>, ghost t: Tree, ghost seed: seq<real>)
    requires DistinctEdges(edges) && WfGraph(nodes, LinksOf(edges))
    modifies edges
    ensures r.Ok? ==> Solved(nodes, LinksOf(edges), law, old(Flows(edges)), t, seed, Flows(edges))
    ensures r.Err? ==> Refused(nodes, LinksOf(edges), law, old(Flows(edges)), t, seed, r.error)
  {
    assert |LinksOf(edges)| == |edges|;
    hide *;
    var links := LinksOf(edges);
    t, seed := Tree([], map[], map[], {}), [];
    GraphFacts(nodes, links);
    var tree := SpanningTree(nodes, links);
    if tree.Err? {
      NotSpanned(nodes, links, law, Flows(edges), t, seed);
      return Err(DisconnectedNetwork), t, seed;
    }
    t := tree.value;
    var loops := BuildCycleBasis(nodes, links, tree.value);
    r, seed := SeedAndCorrect(nodes, edges, links, law, tree.value, loops);
  }

  method SeedAndCorrect(nodes: seq<string>, edges: seq<Edge>, links: seq<Link>, law: Law, t: Tree, loops: seq<seq<Hop>>)
    returns (r: Result<(), NetError>, ghost seed: seq<real>)
    requires DistinctEdges(edges) && links == LinksOf(edges) && |links| == |edges| && WfGraph(nodes, links) &&
             nodes != []
    requires Spans(nodes, links, t) && BreadthFirst(links, t) && TreeOk(nodes[0], links, t) && Covered(links, t) &&
             loops == Basis(nodes[0], links, t)
    modifies edges
    ensures r.Ok? ==> Solved(nodes, links, law, old(Flows(edges)), t, seed, Flows(edges))
    ensures r.Err? ==> Refused(nodes, links, law, old(Flows(edges)), t, seed, r.error)
  {
    assert |Flows(edges)| == |edges|;
    hide *;
    ghost var given := Flows(edges);
    seed := [];
    var seeded := Seed(nodes, edges, links, t);
    if seeded.Err? {
      NotSeeded(nodes, links, law, given, t, seed, seeded.error);
      return Err(seeded.error), seed;
    }
    seed := Flows(edges);
    BasisInRange(nodes[0], links, t);
    var done := IterateLoops(edges, links, law, loops);
    r := done;
    EndsIff(links, law, loops, seed, if r.Ok? then Ok(Flows(edges)) else Err(r.error));
    if r.Ok? {
      SolvedBy(nodes, links, law, given, t, seed, Flows(edges));
    } else {
      NotIterated(nodes, links, law, given, t, seed, r.error);
    }
  }

  lemma NotSpanned(nodes: seq<string>, links: seq<Link>, law: Law, given: seq<real>, t: Tree, seed: seq<real>)
    requires nodes != [] && !(Names.Distinct(nodes) && Connected(nodes, links))
    ensures Refused(nodes, links, law, given, t, seed, DisconnectedNetwork)
  {
  }

  lemma NotSeeded(nodes: seq<string>, links: seq<Link>, law: Law, given: seq<real>, t: Tree, seed: seq<real>,
                  e: NetError)
    requires nodes != [] && Spans(nodes, links, t) && BreadthFirst(links, t) && Infeasible(nodes[0], links, t, given, e)
    ensures Refused(nodes, links, law, given, t, seed, e)
  {
  }

  lemma NotIterated(nodes: seq<string>, links: seq<Link>, law: Law, given: seq<real>, t: Tree, seed: seq<real>,
                    e: NetError)
    requires Spans(nodes, links, t) && nodes != [] && BreadthFirst(links, t) && TreeOk(nodes[0], links, t) &&
             Covered(links, t)
    requires Seeded(nodes[0], links, t, given, seed) && |seed| == |links|
    requires e != DisconnectedNetwork && e != OverconstrainedDemand && e != UnbalancedDemand
    requires Ends(links, law, Basis(nodes[0], links, t), seed, Err(e))
    ensures Refused(nodes, links, law, given, t, seed, e)
  {
  }

  lemma SolvedBy(nodes: seq<string>, links: seq<Link>, law: Law, given: seq<real>, t: Tree, seed: seq<real>,
                 f: seq<real>)
    requires Spans(nodes, links, t) && nodes != [] && BreadthFirst(links, t) && TreeOk(nodes[0], links, t) &&
             Covered(links, t)
    requires Seeded(nodes[0], links, t, given, seed) && |seed| == |f| == |links|
    requires Ends(links, law, Basis(nodes[0], links, t), seed, Ok(f))
    ensures Solved(nodes, links, law, given, t, seed, f)
  {
  }

  /** Sweeps until the largest correction is below the tolerance, at most a fixed number of times. */
  method IterateLoops(edges: seq<Edge>, links: seq<Link>, law: Law, loops: seq<seq<Hop>>)
    returns (r: Result<(), NetError>)
    requires DistinctEdges(edges) && links == LinksOf(edges) && InRange(loops, |edges|)
    modifies edges
    ensures |old(Flows(edges))| == |links|
    ensures Iterate(links, law, loops, 1, old(Flows(edges)), 0.0) ==
            match r case Ok(_) => Ok(Flows(edges)) case Err(e) => Err(e)
    ensures r.Err? ==> r.error == AllImposerLoop || r.error.NoConvergence?
  {
    hide SweepFrom, DistinctEdges, InRange;
    var last := 0.0;
    for iter := 1 to HC_MAX_ITER + 1
      invariant Iterate(links, law, loops, iter, Flows(edges), last) ==
                Iterate(links, law, loops, 1, old(Flows(edges)), 0.0)
    {
      ghost var f := Flows(edges);
      var most := SweepLoops(edges, links, law, loops);
      if most.Err? {
        SweepError(links, law, loops, 0, f, 0.0);
        return Err(most.error);
      }
      if most.value < HC_TOL {
        return Ok(());
      }
      last := most.value;
    }
    r := Err(NoConvergence(HC_MAX_ITER, last));
  }

  lemma {:induction false} SweepError(links: seq<Link>, law: Law, loops: seq<seq<Hop>>, i: nat, f: seq<real>,
                                      most: real)
    requires |f| == |links| && i <= |loops| && SweepFrom(links, law, loops, i, f, most).Err?
    ensures SweepFrom(links, law, loops, i, f, most).error == AllImposerLoop
    decreases |loops| - i
  {
    hide Totals, Correct;
    if i < |loops| {
      var (num, den) := Totals(links, law, loops[i], f, 0);
      if den != 0.0 {
        var dq := -num / den;
        SweepError(links, law, loops, i + 1, Correct(links, loops[i], dq, f, 0), Max(most, Abs(dq)));
      }
    }
  }

  /** Continuity of the returned flows: when no loop contains an imposed edge, every junction below the root balances,
      exactly when the edge to its parent is free and within tolerance otherwise; the root balances within
      tolerance; and imposed flows are as given. */
  lemma SolutionIsContinuous(nodes: seq<string>, links: seq<Link>, law: Law, given: seq<real>, t: Tree, seed: seq<real>,
                             f: seq<real>)
    requires Solved(nodes, links, law, given, t, seed, f) && FreeLoops(links, Basis(nodes[0], links, t))
    ensures |f| == |given| == |links| && RootBalances(links, f, nodes[0])
    ensures Degree(links, nodes[0]) > 1 ==> Abs(Balance(links, f, nodes[0])) <= 0.000000001
    ensures forall e :: 0 <= e < |links| && !links[e].Unknown() ==> f[e] == given[e]
    ensures forall n :: n in nodes && n != nodes[0] && Degree(links, n) >= 2 ==>
              && n in t.parentEdge && t.parentEdge[n] < |links| && Abs(Balance(links, f, n)) <= 0.000000001
              && (links[t.parentEdge[n]].Unknown() ==> Balance(links, f, n) == 0.0)
  {
    var root := nodes[0];
    hide TreeOk, Covered, FreeLoops, Iterate, Ends, Basis, Balance, NodeSet;
    EndsIff(links, law, Basis(root, links, t), seed, Ok(f));
    RunKeeps(root, links, t, law, 1, seed, 0.0);
    forall n | n in nodes && n != root ensures NodeSettled(links, t, seed, n) {
      var j := PlaceOf(nodes, links, t, n);
      assert NodeSettled(links, t, seed, t.order[j]);
    }
  }

  lemma PlaceOf(nodes: seq<string>, links: seq<Link>, t: Tree, n: string) returns (j: nat)
    requires Spans(nodes, links, t) && n in nodes && n != nodes[0]
    ensures 0 < j < |t.order| && t.order[j] == n
  {
    assert n in NodeSet(nodes);
    j := Position(t.order, n);
  }

  /** A network has at most one solution: the tree, the seed and the flows reached are determined by it. */
  lemma SolvedOnce(nodes: seq<string>, links: seq<Link>, law: Law, given: seq<real>, t: Tree, seed: seq<real>,
                   f: seq<real>, u: Tree, other: seq<real>, g: seq<real>)
    requires Solved(nodes, links, law, given, t, seed, f) && Solved(nodes, links, law, given, u, other, g)
    ensures t == u && seed == other && f == g
  {
    BreadthFirstIsUnique(nodes, links, t, u);
    hide BreadthFirst, TreeOk, Covered, ContinuousBelow, RootBalances, Ends, BasisFrom;
    ContinuousOnce(nodes[0], links, t, given, seed, other);
    EndsIff(links, law, Basis(nodes[0], links, t), seed, Ok(f));
    EndsIff(links, law, Basis(nodes[0], links, t), seed, Ok(g));
  }

  /** A network that is refused is not one that is solved. */
  lemma RefusedIsNotSolved(nodes: seq<string>, links: seq<Link>, law: Law, given: seq<real>, t: Tree, seed: seq<real>,
                           e: NetError, u: Tree, other: seq<real>, g: seq<real>)
    requires WfGraph(nodes, links) && Refused(nodes, links, law, given, t, seed, e)
    ensures !Solved(nodes, links, law, given, u, other, g)
  {
    if Solved(nodes, links, law, given, u, other, g) {
      hide BreadthFirst, TreeOk, Covered, Ends, BasisFrom;
      if e == DisconnectedNetwork {
        SpannedIsConnected(nodes, links, u);
      } else {
        BreadthFirstIsUnique(nodes, links, t, u);
        if e != OverconstrainedDemand && e != UnbalancedDemand {
          ContinuousOnce(nodes[0], links, t, given, seed, other);
          EndsIff(links, law, Basis(nodes[0], links, t), seed, Err(e));
          EndsIff(links, law, Basis(nodes[0], links, t), seed, Ok(g));
        }
      }
    }
  }
}
