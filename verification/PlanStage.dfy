/** Requests over a given registry shape, chosen so that one solver has to be used. */
module PlanStage {
  import opened Wrappers
  import opened Intervals
  import opened Propagation
  import opened PlanModel
  import opened PlanLemmas
  import opened PlanOptimal
  import opened PlanRoute
  import opened PlanOrder
  import opened PlanTermination
  import opened CycleCheck
  import opened Planner
  import opened PlanFeeds
  import opened PlanArena
  import Names

  // ----- shapes -----

  ghost predicate SameSolver(s: Solver, r: Solver) {
    s.id == r.id && s.inputs == r.inputs && s.outputs == r.outputs && s.conservativeFor == r.conservativeFor
  }

  /** The same solvers by id, ports and sense, the same target and sense; everything else may differ. */
  ghost predicate SameShape(P: Problem, Q: Problem) {
    && |P.solvers| == |Q.solvers| && P.target == Q.target && P.sense == Q.sense
    && forall i :: 0 <= i < |P.solvers| ==> SameSolver(P.solvers[i], Q.solvers[i])
  }

  lemma SameMakes(P: Problem, Q: Problem, i: nat, p: string)
    requires SameShape(P, Q)
    ensures Makes(P, i, p) <==> Makes(Q, i, p)
  {
    if i < |P.solvers| { assert SameSolver(P.solvers[i], Q.solvers[i]); }
  }

  lemma SameHands(P: Problem, Q: Problem, i: nat, j: nat)
    requires SameShape(P, Q)
    ensures Hands(P, i, j) <==> Hands(Q, i, j)
  {
    if i < |P.solvers| && j < |P.solvers| {
      assert SameSolver(P.solvers[i], Q.solvers[i]) && SameSolver(P.solvers[j], Q.solvers[j]);
    }
  }

  lemma SameFeeds(P: Problem, Q: Problem, i: nat, p: string)
    requires SameShape(P, Q) && Feeds(P, i, p)
    ensures Feeds(Q, i, p)
  {
    hide Hands, Makes;
    var chain :| FeedChain(P, chain, p) && chain[0] == i;
    SameMakes(P, Q, chain[|chain| - 1], p);
    forall k | 0 <= k < |chain| ensures chain[k] < |Q.solvers| && Usable(Q, chain[k]) {
      assert SameSolver(P.solvers[chain[k]], Q.solvers[chain[k]]);
    }
    forall k | 0 < k < |chain| ensures Hands(Q, chain[k - 1], chain[k]) { SameHands(P, Q, chain[k - 1], chain[k]); }
    assert FeedChain(Q, chain, p);
  }

  lemma SameIds(P: Problem, Q: Problem)
    requires SameShape(P, Q) && UniqueIds(P)
    ensures UniqueIds(Q)
  {
    forall i, j | 0 <= i < j < |Q.solvers| ensures Q.solvers[i].id != Q.solvers[j].id {
      assert SameSolver(P.solvers[i], Q.solvers[i]) && SameSolver(P.solvers[j], Q.solvers[j]);
    }
  }

  lemma SameRanks(P: Problem, Q: Problem, rank: string -> nat)
    requires SameShape(P, Q) && Ranked(P, rank)
    ensures Ranked(Q, rank)
  {
    forall i, p, o | 0 <= i < |Q.solvers| && Usable(Q, i) && p in Q.solvers[i].inputs && o in Q.solvers[i].outputs
      ensures rank(p) < rank(o)
    {
      assert SameSolver(P.solvers[i], Q.solvers[i]);
      assert Usable(P, i);
    }
  }

  lemma SameCycles(P: Problem, Q: Problem)
    requires SameShape(P, Q) && HasCycle(Q.solvers)
    ensures HasCycle(P.solvers)
  {
    var path :| IsCycle(Q.solvers, path);
    forall k | 0 <= k < |path| - 1 ensures Renames(P.solvers, path[k], path[k + 1]) {
      assert Renames(Q.solvers, path[k], path[k + 1]);
      var s :| s in Q.solvers && |s.inputs| == 1 && |s.outputs| == 1 && s.inputs[0] == path[k] &&
        s.outputs[0] == path[k + 1];
      var i: nat :| i < |Q.solvers| && Q.solvers[i] == s;
      assert SameSolver(P.solvers[i], Q.solvers[i]);
      assert P.solvers[i] in P.solvers;
    }
    assert IsCycle(P.solvers, path);
  }

  // ----- the request -----

  const ORIGIN := Interval(0.0, 0.0)
  const LOOSE := Accuracy(10.0, 0.0)

  lemma OriginIsExact()
    ensures ORIGIN.HalfWidth() == 0.0
  {
    PointIsExact(ORIGIN);
  }

  lemma PointIsExact(iv: Interval)
    requires iv.lo == iv.hi
    ensures iv.HalfWidth() == 0.0
  {
    assert iv.Width() == 0.0;
  }

  /** The ports taken by some solver and not fed by `root`. */
  ghost function Sources(P: Problem, root: nat): set<string> {
    set i, p | 0 <= i < |P.solvers| && p in P.solvers[i].inputs && !Feeds(P, root, p) :: p
  }

  /** Solver `j` takes something that `root` feeds. */
  ghost predicate Below(P: Problem, root: nat, j: nat) {
    j < |P.solvers| && exists r :: r in P.solvers[j].inputs && Feeds(P, root, r)
  }

  /** Solver `s` at a chosen price, without a domain; exact, or off by ten at the target. */
  function Recast(s: Solver, price: real, exact: bool, target: string): Solver {
    Solver(s.id, s.inputs, s.outputs, Domain(map[], {}), price, if exact then map[] else map[target := LOOSE],
           s.conservativeFor)
  }

  /** `P`'s shape at chosen prices with known ports at zero; at the target only the solvers in `exact` are exact. */
  function Stage(P: Problem, known: set<string>, prices: seq<real>, exact: set<nat>): Problem
    requires |prices| == |P.solvers|
  {
    P.(solvers := seq(|P.solvers|, i requires 0 <= i < |P.solvers| =>
         Recast(P.solvers[i], prices[i], i in exact, P.target)),
       known := map p | p in known :: ORIGIN, tags := {}, budget := 1.0)
  }

  /** What the results below ask of a stage: `root` feeds the target, known are the ports it does not feed. */
  ghost predicate StageOk(P: Problem, rank: string -> nat, root: nat, prices: seq<real>) {
    && Ranked(P, rank) && UniqueIds(P) && !HasCycle(P.solvers) && Feeds(P, root, P.target)
    && |prices| == |P.solvers| && forall i :: 0 <= i < |prices| ==> prices[i] >= 0.0
  }

  lemma FeederMakes(P: Problem, i: nat, p: string)
    requires Feeds(P, i, p)
    ensures exists j: nat :: Makes(P, j, p)
  {
    var j := LastFeeder(P, i, p);
  }

  /** A stage is a request that gets past the guards. */
  lemma StageSearches(P: Problem, rank: string -> nat, root: nat, prices: seq<real>, exact: set<nat>)
    requires StageOk(P, rank, root, prices)
    ensures var Q := Stage(P, Sources(P, root), prices, exact);
            && SameShape(P, Q) && WfProblem(Q) && UniqueIds(Q) && Ranked(Q, rank) && Searches(Q)
  {
    var Q := Stage(P, Sources(P, root), prices, exact);
    StageShape(P, Sources(P, root), prices, exact);
    StageTarget(P, root, prices, exact);
    hide Ranked, UniqueIds, HasCycle, Stage, Feeds, SameShape, WfProblem, Producible;
    SameIds(P, Q);
    SameRanks(P, Q, rank);
    if HasCycle(Q.solvers) { SameCycles(P, Q); }
  }

  lemma StageShape(P: Problem, known: set<string>, prices: seq<real>, exact: set<nat>)
    requires |prices| == |P.solvers| && forall i :: 0 <= i < |prices| ==> prices[i] >= 0.0
    ensures SameShape(P, Stage(P, known, prices, exact)) && WfProblem(Stage(P, known, prices, exact))
  {
  }

  lemma StageTarget(P: Problem, root: nat, prices: seq<real>, exact: set<nat>)
    requires |prices| == |P.solvers| && Feeds(P, root, P.target)
    ensures var Q := Stage(P, Sources(P, root), prices, exact);
            Producible(Q) && Q.target !in Q.known && Q.budget == 1.0
  {
    var Q := Stage(P, Sources(P, root), prices, exact);
    hide Feeds;
    FeederMakes(P, root, P.target);
    var j: nat :| Makes(P, j, P.target);
    assert Q.target in Q.solvers[j].outputs;
  }

  // ----- exact steps -----

  lemma {:induction false} ZeroSum(ks: seq<string>, m: map<string, real>)
    requires forall k :: k in ks ==> k in m && m[k] == 0.0
    ensures Names.SumOver(ks, m) == 0.0
  {
    if ks != [] { ZeroSum(ks[1..], m); }
  }

  /** Exact inputs at zero add up to exactly zero. */
  lemma ZeroHull(box: Box)
    requires forall p :: p in box ==> box[p] == ORIGIN
    ensures SumHull(box) == ORIGIN
  {
    ZeroSum(Names.Sorted((map p | p in box :: box[p].lo).Keys), map p | p in box :: box[p].lo);
    ZeroSum(Names.Sorted((map p | p in box :: box[p].hi).Keys), map p | p in box :: box[p].hi);
  }

  /** Solver `i` of a stage is exact at `o`. */
  ghost predicate ExactAt(P: Problem, exact: set<nat>, i: nat, o: string) {
    o == P.target ==> i in exact
  }

  lemma StageSolver(P: Problem, known: set<string>, prices: seq<real>, exact: set<nat>, i: nat)
    requires |prices| == |P.solvers| && i < |P.solvers|
    ensures var Q := Stage(P, known, prices, exact);
            && i < |Q.solvers| && Q.solvers[i] == Recast(P.solvers[i], prices[i], i in exact, P.target)
            && (Usable(P, i) <==> Usable(Q, i))
  {
  }

  lemma RecastOut(s: Solver, price: real, exact: bool, target: string, o: string, tie: TieKey)
    requires forall q :: q in tie ==> tie[q].iv == ORIGIN
    requires o == target ==> exact
    ensures OutPart(Recast(s, price, exact, target), o, tie) == Part(ORIGIN, price + Names.Sum(Costs(tie)))
  {
    hide *;
    var r := Recast(s, price, exact, target);
    OnlyOrigin(tie);
    ZeroHull(Boxes(tie));
    NoEps(s, price, exact, target, o);
    OutPartParts(r, o, tie);
  }

  lemma OnlyOrigin(tie: TieKey)
    requires forall q :: q in tie ==> tie[q].iv == ORIGIN
    ensures forall p :: p in Boxes(tie) ==> Boxes(tie)[p] == ORIGIN
  {
  }

  lemma NoEps(s: Solver, price: real, exact: bool, target: string, o: string)
    requires o == target ==> exact
    ensures OutEps(Recast(s, price, exact, target), o, ORIGIN) == 0.0 && Recast(s, price, exact, target).cost == price
    ensures Inflate(ORIGIN, 0.0) == ORIGIN
  {
  }

  lemma OutPartParts(s: Solver, o: string, tie: TieKey)
    ensures var hull := SumHull(Boxes(tie));
            OutPart(s, o, tie) == Part(Inflate(hull, OutEps(s, o, hull)), s.cost + Names.Sum(Costs(tie)))
  {
  }

  lemma RecastAdmits(s: Solver, price: real, exact: bool, target: string, tie: TieKey)
    ensures Admitted(Recast(s, price, exact, target), tie, {})
  {
    assert InputDomain(Recast(s, price, exact, target)).portBox == map[];
    hide Boxes;
  }

  /** An exact solver fed with exact parts makes an exact part. */
  lemma MadeExactly(P: Problem, known: set<string>, prices: seq<real>, exact: set<nat>, i: nat, o: string, tie: TieKey)
    requires |prices| == |P.solvers| && Makes(P, i, o) && ExactAt(P, exact, i, o)
    requires tie.Keys == (set q | q in P.solvers[i].inputs)
    requires forall q :: q in tie ==> Derivable(Stage(P, known, prices, exact), q, tie[q]) && tie[q].iv == ORIGIN
    ensures Derivable(Stage(P, known, prices, exact), o, Part(ORIGIN, prices[i] + Names.Sum(Costs(tie))))
  {
    hide *;
    var Q := Stage(P, known, prices, exact);
    MakesMeans(P, i, o);
    StageSolver(P, known, prices, exact, i);
    RecastShape(P, known, prices, exact, i);
    if o == P.target { ExactMeans(P, exact, i, o); }
    RecastOut(P.solvers[i], prices[i], i in exact, P.target, o, tie);
    RecastAdmits(P.solvers[i], prices[i], i in exact, P.target, tie);
    ApplyDerives(Q, i, o, tie);
  }

  lemma ExactMeans(P: Problem, exact: set<nat>, i: nat, o: string)
    requires ExactAt(P, exact, i, o) && o == P.target
    ensures i in exact
  {
  }

  lemma RecastShape(P: Problem, known: set<string>, prices: seq<real>, exact: set<nat>, i: nat)
    requires |prices| == |P.solvers| && i < |P.solvers|
    ensures var s := Recast(P.solvers[i], prices[i], i in exact, P.target);
            s.inputs == P.solvers[i].inputs && s.outputs == P.solvers[i].outputs && s.cost == prices[i] &&
            s.id == P.solvers[i].id
    ensures Stage(P, known, prices, exact).tags == {} && Stage(P, known, prices, exact).target == P.target
  {
  }

  /** A solver that is not exact at the target misses the budget there. */
  lemma LooseMisses(P: Problem, known: set<string>, prices: seq<real>, exact: set<nat>, i: nat, iv: Interval)
    requires |prices| == |P.solvers| && i < |P.solvers| && i !in exact && iv.Valid()
    ensures var Q := Stage(P, known, prices, exact);
            TotalError(iv, OutEps(Q.solvers[i], P.target, iv)) > Q.budget
  {
    var acc := LOOSE;
    assert acc.WorstOver(iv) == 10.0;
  }

  lemma StageKnown(P: Problem, known: set<string>, prices: seq<real>, exact: set<nat>, p: string)
    requires |prices| == |P.solvers| && p in known
    ensures var Q := Stage(P, known, prices, exact);
            p in Q.known && Inflate(Q.known[p], 0.0) == ORIGIN && Derivable(Q, p, Part(ORIGIN, 0.0))
  {
    var Q := Stage(P, known, prices, exact);
    assert Derives(Q, Given(p), p, Part(ORIGIN, 0.0));
  }

  /** Every input of a solver is known or fed by the root. */
  lemma InputSource(P: Problem, root: nat, i: nat, q: string)
    requires i < |P.solvers| && q in P.solvers[i].inputs
    ensures q in Sources(P, root) <==> !Feeds(P, root, q)
  {
  }

  // ----- which solver wins -----

  lemma OutputHull(P: Problem, n: StepNode, i: nat, o: string)
    requires WfProblem(P) && Applies(P, n, i) && o in n.outputs
    requires forall p :: p in n.inputs ==> Derivable(P, p, n.inputs[p].Seen())
    ensures var hull := SumHull(Boxes(KeyOf(n.inputs)));
            hull.Valid() && n.outputs[o] == OutValue(hull, OutEps(P.solvers[i], o, hull))
  {
    var tie := KeyOf(n.inputs);
    forall p | p in tie ensures Boxes(tie)[p].Valid() { DerivableWf(P, p, tie[p]); }
    hide Derivable, WfProblem, Admitted, Usable, OutEps;
    SumHullValid(Boxes(tie));
  }

  /** The winner's step is made by a solver that is exact at the target. */
  lemma ExactWins(P: Problem, known: set<string>, prices: seq<real>, exact: set<nat>, arena: seq<StepNode>, id: nat,
                  i: nat)
    requires |prices| == |P.solvers| && id < |arena| && P.target in arena[id].outputs
    requires var Q := Stage(P, known, prices, exact);
             && WfProblem(Q) && ArenaOk(Q, arena) && Applies(Q, arena[id], i)
             && OutLabel(arena[id].outputs[P.target], NodeCost(arena[id]), id).Error() <= Q.budget
    ensures i in exact
  {
    var Q := Stage(P, known, prices, exact);
    assert |Q.solvers| == |P.solvers|;
    hide ArenaOk, Applies, Stage, SumHull, WfProblem, NodeCost;
    forall p | p in arena[id].inputs ensures Derivable(Q, p, arena[id].inputs[p].Seen()) {
      InputDerivable(Q, arena, id, p);
    }
    OutputHull(Q, arena[id], i, P.target);
    AppliesMakes(Q, arena[id], i, P.target);
    if i !in exact { LooseMisses(P, known, prices, exact, i, SumHull(Boxes(KeyOf(arena[id].inputs)))); }
  }
}
