/** One diamond: a request on which the shared solver is paid for twice by every derivation and once by a plan. */
module PlanDiamond {
  import opened Wrappers
  import opened Intervals
  import opened Propagation
  import opened PlanModel
  import opened PlanLemmas
  import opened PlanOptimal
  import opened PlanRoute
  import opened PlanOrder
  import opened PlanTermination
  import opened CycleCheck
  import opened Planner
  import opened PlanFeeds
  import opened PlanCost
  import opened PlanArena
  import opened PlanStage
  import Names

  // ----- a diamond: the request -----

  /** Solver `i` makes the target from `p` and `q`, both fed by `s`; solver `n` makes it from `k`, which no solver
      makes. */
  ghost predicate Diamond(R: Problem, rank: string -> nat, s: nat, i: nat, p: string, q: string, n: nat, k: string) {
    && Ranked(R, rank) && UniqueIds(R) && !HasCycle(R.solvers)
    && Makes(R, i, R.target) && p in R.solvers[i].inputs && q in R.solvers[i].inputs && p != q
    && Feeds(R, s, p) && Feeds(R, s, q)
    && Makes(R, n, R.target) && R.solvers[n].inputs == [k] && n != s
    && forall j :: 0 <= j < |R.solvers| ==> k !in R.solvers[j].outputs
  }

  /** The shared solver costs 2, what lies below it nothing, the direct solver 3, everything else 4. */
  ghost function DiamondPrices(R: Problem, s: nat, n: nat): (prices: seq<real>)
    ensures |prices| == |R.solvers|
  {
    seq(|R.solvers|, j requires 0 <= j < |R.solvers| =>
      if j == s then 2.0 else if Below(R, s, j) then 0.0 else if j == n then 3.0 else 4.0)
  }

  ghost function Pricing(R: Problem, s: nat, i: nat, n: nat): Problem {
    Stage(R, Sources(R, s), DiamondPrices(R, s, n), {i, n})
  }

  lemma NothingFeeds(R: Problem, s: nat, k: string)
    requires forall j :: 0 <= j < |R.solvers| ==> k !in R.solvers[j].outputs
    ensures !Feeds(R, s, k)
  {
    if Feeds(R, s, k) { FeederMakes(R, s, k); }
  }

  /** What each solver of the diamond costs. */
  lemma DiamondFacts(R: Problem, rank: string -> nat, s: nat, i: nat, p: string, q: string, n: nat, k: string)
    requires Diamond(R, rank, s, i, p, q, n, k)
    ensures StageOk(R, rank, s, DiamondPrices(R, s, n)) && i < |R.solvers| && n < |R.solvers| && s < |R.solvers|
    ensures i != n && i != s && n != s && Below(R, s, i) && !Below(R, s, n)
    ensures DiamondPrices(R, s, n)[i] == 0.0 && DiamondPrices(R, s, n)[n] == 3.0
  {
    hide Ranked, UniqueIds, HasCycle, Feeds;
    NothingFeeds(R, s, k);
    FeedsOn(R, s, p, i, R.target);
    InRegistry(R, s, p);
    if s == i { FeedsAbove(R, rank, s, p, p); }
  }

  lemma InRegistry(R: Problem, s: nat, p: string)
    requires Feeds(R, s, p)
    ensures s < |R.solvers|
  {
  }

  // ----- a diamond: every derivation is dear -----

  /** An application in the diamond costs at least 2; the join at least 4, the direct solver at least 3. */
  lemma ApplicationFloor(R: Problem, rank: string -> nat, s: nat, i: nat, p: string, q: string, n: nat, k: string,
                         j: nat, tie: TieKey)
    requires Diamond(R, rank, s, i, p, q, n, k) && j < |R.solvers| && tie.Keys == (set r | r in R.solvers[j].inputs)
    requires forall r :: r in tie ==> tie[r].cost >= 0.0 && (Feeds(R, s, r) ==> tie[r].cost >= 2.0)
    ensures var c := DiamondPrices(R, s, n)[j] + Names.Sum(Costs(tie));
            c >= 2.0 && (j == i ==> c >= 4.0) && (j == n ==> c >= 3.0)
    ensures j == n ==> tie.Keys == {k} && DiamondPrices(R, s, n)[j] + Names.Sum(Costs(tie)) == 3.0 + tie[k].cost
  {
    DiamondFacts(R, rank, s, i, p, q, n, k);
    var costs := Costs(tie);
    assert costs.Keys == tie.Keys && forall r :: r in tie ==> costs[r] == tie[r].cost;
    JoinPorts(R, rank, s, i, p, q, n, k);
    var price := DiamondPrices(R, s, n)[j];
    assert price >= 0.0 && (j == s || j == n || !Below(R, s, j) ==> price >= 2.0);
    hide DiamondPrices, Feeds, StageOk, Diamond, Costs, Names.Sum;
    Names.SumBounds(costs);
    if j == i { Names.SumAtLeastTwo(costs, p, q); }
    if j == n { Names.SumOne(k, costs); }
    if Below(R, s, j) {
      var r :| r in R.solvers[j].inputs && Feeds(R, s, r);
      assert r in costs && costs[r] >= 2.0;
    }
  }

  lemma JoinPorts(R: Problem, rank: string -> nat, s: nat, i: nat, p: string, q: string, n: nat, k: string)
    requires Diamond(R, rank, s, i, p, q, n, k)
    ensures i < |R.solvers| && p in R.solvers[i].inputs && q in R.solvers[i].inputs && p != q
    ensures Feeds(R, s, p) && Feeds(R, s, q)
    ensures n < |R.solvers| && (set r | r in R.solvers[n].inputs) == {k}
  {
    hide Feeds, Ranked, UniqueIds, HasCycle;
    assert (set r | r in [k]) == {k};
  }

  /** Whatever is derived from the shared solver costs at least 2. */
  lemma {:induction false} DerivationFloor(R: Problem, rank: string -> nat, s: nat, i: nat, p: string, q: string,
                                           n: nat, k: string, d: Deriv)
    requires Diamond(R, rank, s, i, p, q, n, k) && Admissible(Pricing(R, s, i, n), d)
    ensures Worth(Pricing(R, s, i, n), d).cost >= 0.0
    ensures Feeds(R, s, d.Port()) ==> Worth(Pricing(R, s, i, n), d).cost >= 2.0
    decreases d
  {
    hide *;
    var Q := Pricing(R, s, i, n);
    DiamondFacts(R, rank, s, i, p, q, n, k);
    StageSearches(R, rank, s, DiamondPrices(R, s, n), {i, n});
    PricingIs(R, s, i, n);
    WorthWf(Q, d);
    if d.Given? {
      GivenFloor(R, s, i, n, d);
    } else {
      ApplyFacts(Q, d);
      StageSolver(R, Sources(R, s), DiamondPrices(R, s, n), {i, n}, d.idx);
      RecastShape(R, Sources(R, s), DiamondPrices(R, s, n), {i, n}, d.idx);
      forall r | r in d.inputs
        ensures Worths(Q, d)[r].cost >= 0.0 && (Feeds(R, s, r) ==> Worths(Q, d)[r].cost >= 2.0)
      {
        DerivationFloor(R, rank, s, i, p, q, n, k, d.inputs[r]);
      }
      ApplicationFloor(R, rank, s, i, p, q, n, k, d.idx, Worths(Q, d));
      OutCostIs(Q.solvers[d.idx], Worths(Q, d));
    }
  }

  lemma PricingIs(R: Problem, s: nat, i: nat, n: nat)
    ensures Pricing(R, s, i, n) == Stage(R, Sources(R, s), DiamondPrices(R, s, n), {i, n})
    ensures |Pricing(R, s, i, n).solvers| == |R.solvers| && Pricing(R, s, i, n).target == R.target
    ensures Pricing(R, s, i, n).budget == 1.0
  {
  }

  lemma OutCostIs(s: Solver, tie: TieKey)
    ensures OutCost(s, tie) == s.cost + Names.Sum(Costs(tie))
  {
  }

  lemma GivenFloor(R: Problem, s: nat, i: nat, n: nat, d: Deriv)
    requires d.Given? && Admissible(Pricing(R, s, i, n), d)
    ensures Worth(Pricing(R, s, i, n), d).cost == 0.0 && !Feeds(R, s, d.Port())
  {
    hide Feeds, DiamondPrices;
  }

  lemma ApplyFacts(P: Problem, d: Deriv)
    requires WfProblem(P) && d.Apply? && Admissible(P, d)
    ensures d.idx < |P.solvers| && d.out in P.solvers[d.idx].outputs
    ensures Worths(P, d).Keys == d.inputs.Keys == (set p | p in P.solvers[d.idx].inputs)
    ensures forall p :: p in d.inputs ==>
                          Admissible(P, d.inputs[p]) && d.inputs[p].Port() == p &&
                            Worths(P, d)[p] == Worth(P, d.inputs[p])
    ensures Worth(P, d).cost == OutCost(P.solvers[d.idx], Worths(P, d))
  {
    WorthWf(P, d);
  }

  lemma PartFloor(R: Problem, rank: string -> nat, s: nat, i: nat, p: string, q: string, n: nat, k: string, r: string,
                  w: Part)
    requires Diamond(R, rank, s, i, p, q, n, k) && Derivable(Pricing(R, s, i, n), r, w)
    ensures w.cost >= 0.0 && (Feeds(R, s, r) ==> w.cost >= 2.0)
  {
    hide Diamond, Pricing, Feeds, Admissible, Worth;
    var d :| Derives(Pricing(R, s, i, n), d, r, w);
    DerivationFloor(R, rank, s, i, p, q, n, k, d);
  }

  // ----- a diamond: the direct solver wins -----

  /** The direct solver makes the target for 3. */
  lemma DirectPart(R: Problem, rank: string -> nat, s: nat, i: nat, p: string, q: string, n: nat, k: string)
    requires Diamond(R, rank, s, i, p, q, n, k)
    ensures Derivable(Pricing(R, s, i, n), R.target, Part(ORIGIN, 3.0))
  {
    var prices := DiamondPrices(R, s, n);
    var tie: TieKey := map[k := Part(ORIGIN, 0.0)];
    DiamondFacts(R, rank, s, i, p, q, n, k);
    DirectInput(R, rank, s, i, p, q, n, k);
    hide *;
    PricingIs(R, s, i, n);
    InputSource(R, s, n, k);
    StageKnown(R, Sources(R, s), prices, {i, n}, k);
    MadeExactly(R, Sources(R, s), prices, {i, n}, n, R.target, tie);
    CostsOfOne(k, Part(ORIGIN, 0.0));
  }

  lemma DirectInput(R: Problem, rank: string -> nat, s: nat, i: nat, p: string, q: string, n: nat, k: string)
    requires Diamond(R, rank, s, i, p, q, n, k)
    ensures n < |R.solvers| && k in R.solvers[n].inputs && (set r | r in R.solvers[n].inputs) == {k} && !Feeds(R, s, k)
    ensures Makes(R, n, R.target) && ExactAt(R, {i, n}, n, R.target)
  {
    NothingFeeds(R, s, k);
    assert (set r | r in [k]) == {k};
  }

  lemma CostsOfOne(k: string, w: Part)
    ensures Names.Sum(Costs(map[k := w])) == w.cost
  {
    assert Costs(map[k := w]).Keys == {k};
    Names.SumOne(k, Costs(map[k := w]));
  }

  /** The winning label costs 3: it was made by the direct solver, from the known port. */
  lemma WinnerIsDirect(R: Problem, rank: string -> nat, s: nat, i: nat, p: string, q: string, n: nat, k: string,
                       arena: seq<StepNode>, id: nat)
    requires Diamond(R, rank, s, i, p, q, n, k) && id < |arena| && R.target in arena[id].outputs
    requires var Q := Pricing(R, s, i, n);
             && WfProblem(Q) && ArenaOk(Q, arena) && NodeCost(arena[id]) <= 3.0
             && OutLabel(arena[id].outputs[R.target], NodeCost(arena[id]), id).Error() <= Q.budget
    ensures arena[id].ownCost == 3.0 && forall r :: r in arena[id].inputs ==> arena[id].inputs[r].node.None?
  {
    hide *;
    var Q := Pricing(R, s, i, n);
    DiamondFacts(R, rank, s, i, p, q, n, k);
    PricingIs(R, s, i, n);
    NodeIsOk(Q, arena, id);
    var j := NodeSolver(Q, arena[id]);
    ExactWins(R, Sources(R, s), DiamondPrices(R, s, n), {i, n}, arena, id, j);
    RecastShape(R, Sources(R, s), DiamondPrices(R, s, n), {i, n}, j);
    StageSolver(R, Sources(R, s), DiamondPrices(R, s, n), {i, n}, j);
    var tie := KeyOf(arena[id].inputs);
    forall r | r in tie ensures tie[r].cost >= 0.0 && (Feeds(R, s, r) ==> tie[r].cost >= 2.0) {
      SeenKeys(arena[id].inputs);
      SeenAt(arena[id].inputs, r);
      InputDerivable(Q, arena, id, r);
      PartFloor(R, rank, s, i, p, q, n, k, r, tie[r]);
    }
    ApplicationFloor(R, rank, s, i, p, q, n, k, j, tie);
    OutCostIs(Q.solvers[j], tie);
    SeenKeys(arena[id].inputs);
    forall r | r in arena[id].inputs ensures arena[id].inputs[r].node.None? {
      UnmadeInput(R, rank, s, i, p, q, n, k, arena, id);
    }
  }

  lemma SeenKeys(inputs: map<string, Label>)
    ensures KeyOf(inputs).Keys == inputs.Keys
  {
  }

  lemma NodeSolver(Q: Problem, node: StepNode) returns (j: nat)
    requires exists j: nat :: Applies(Q, node, j)
    ensures Applies(Q, node, j) && j < |Q.solvers| && node.ownCost == Q.solvers[j].cost
    ensures node.inputs.Keys == KeyOf(node.inputs).Keys == (set r | r in Q.solvers[j].inputs)
    ensures NodeCost(node) == OutCost(Q.solvers[j], KeyOf(node.inputs))
  {
    hide Usable, Admitted, Outputs;
    j :| Applies(Q, node, j);
  }

  lemma UnmadeInput(R: Problem, rank: string -> nat, s: nat, i: nat, p: string, q: string, n: nat, k: string,
                    arena: seq<StepNode>, id: nat)
    requires Diamond(R, rank, s, i, p, q, n, k) && ArenaOk(Pricing(R, s, i, n), arena) && id < |arena|
    requires k in arena[id].inputs
    ensures arena[id].inputs[k].node.None?
  {
    hide ArenaOk, Applies, NodeCost, Stage, Ranked, UniqueIds, HasCycle, Feeds;
    var Q := Pricing(R, s, i, n);
    PricingIs(R, s, i, n);
    NodeIsOk(Q, arena, id);
    assert Grounded(Q, arena, id, k, arena[id].inputs[k]);
    if arena[id].inputs[k].node.Some? {
      var m := arena[id].inputs[k].node.value;
      NodeIsOk(Q, arena, m);
      var j := NodeSolver(Q, arena[m]);
      AppliesMakes(Q, arena[m], j, k);
      RecastShape(R, Sources(R, s), DiamondPrices(R, s, n), {i, n}, j);
      StageSolver(R, Sources(R, s), DiamondPrices(R, s, n), {i, n}, j);
    }
  }

  /** Every answer on the diamond is a route of cost 3. */
  lemma DirectRoute(R: Problem, rank: string -> nat, s: nat, i: nat, p: string, q: string, n: nat, k: string,
                    limit: nat)
    requires Diamond(R, rank, s, i, p, q, n, k) && WfProblem(Pricing(R, s, i, n)) && Searches(Pricing(R, s, i, n))
    requires PlanAnswer(Pricing(R, s, i, n), limit).Answered?
    ensures PlanAnswer(Pricing(R, s, i, n), limit).result.Ok?
    ensures PlanAnswer(Pricing(R, s, i, n), limit).result.value.totalCost == 3.0
  {
    hide *;
    var Q := Pricing(R, s, i, n);
    PricingIs(R, s, i, n);
    DirectPart(R, rank, s, i, p, q, n, k);
    OriginIsExact();
    WithinBudget(Q, Part(ORIGIN, 3.0));
    SucceedsIff(Q, limit);
    AnswerOfRun(Q, limit);
    SearchingTarget(Q);
    InitialInRange(Q);
    var w, arena := Run(Q, Initial(Q), limit).winner, Run(Q, Initial(Q), limit).arena;
    CheapWinner(Q, limit, Part(ORIGIN, 3.0));
    var id := WinnerNode(Q, limit);
    LabelCost(arena[id].outputs[Q.target], NodeCost(arena[id]), id);
    WinnerIsDirect(R, rank, s, i, p, q, n, k, arena, id);
    ArenaPriced(Q, arena);
    LonelyWalk(arena, id);
    RouteCost(Q, w, arena);
    RouteOfIs(Q, limit);
  }

  lemma LabelCost(out: OutValue, cost: real, id: nat)
    ensures OutLabel(out, cost, id).cost == cost
  {
  }

  lemma WithinBudget(Q: Problem, w: Part)
    requires Derivable(Q, Q.target, w) && w.iv.HalfWidth() <= Q.budget
    ensures Reachable(Q)
  {
    hide Derivable;
  }

  lemma CheapWinner(Q: Problem, limit: nat, w: Part)
    requires WfProblem(Q) && Q.target !in Q.known && Derivable(Q, Q.target, w) && w.iv.HalfWidth() <= Q.budget
    requires Run(Q, Initial(Q), limit).Success?
    ensures Run(Q, Initial(Q), limit).winner.cost <= w.cost
  {
    hide Run, Initial, WfProblem, Worth, Admissible;
    InitialInRange(Q);
    var d :| Derives(Q, d, Q.target, w);
    SearchIsOptimal(Q, limit, d);
  }

  // ----- a diamond: a plan that makes the shared port once -----

  /** Some step of the list offers `p` exactly. */
  ghost predicate Offered(Q: Problem, steps: seq<RouteStep>, p: string) {
    exists m: nat :: m < |steps| && SomeProvides(Q, steps[m], p, ORIGIN)
  }

  /** Solver `j` finds each input known or offered. */
  ghost predicate Ready(Q: Problem, steps: seq<RouteStep>, j: nat) {
    j < |Q.solvers| && forall r :: r in Q.solvers[j].inputs ==> Offered(Q, steps, r) || KnownAtZero(Q, r)
  }

  ghost predicate KnownAtZero(Q: Problem, r: string) {
    r in Q.known && Inflate(Q.known[r], 0.0) == ORIGIN
  }

  function StepFor(s: Solver): RouteStep {
    RouteStep(s.id, Domain(map r | r in s.inputs :: ORIGIN, {}), 0.0, s.cost)
  }

  lemma OfferedGrows(Q: Problem, steps: seq<RouteStep>, step: RouteStep, p: string)
    requires Offered(Q, steps, p)
    ensures Offered(Q, steps + [step], p)
  {
    hide SomeProvides;
    var m: nat :| m < |steps| && SomeProvides(Q, steps[m], p, ORIGIN);
    assert (steps + [step])[m] == steps[m];
  }

  lemma SuppliedGrows(Q: Problem, steps: seq<RouteStep>, step: RouteStep, j: nat, p: string, iv: Interval)
    requires j <= |steps| && SuppliedBefore(Q, steps, j, p, iv)
    ensures SuppliedBefore(Q, steps + [step], j, p, iv)
  {
    hide SomeProvides;
    if m: nat :| m < j && SomeProvides(Q, steps[m], p, iv) { assert (steps + [step])[m] == steps[m]; }
  }

  lemma RunsGrows(Q: Problem, steps: seq<RouteStep>, step: RouteStep, j: nat)
    requires j < |steps| && Runs(Q, steps, j)
    ensures Runs(Q, steps + [step], j)
  {
    hide SuppliedBefore, Usable;
    var i: nat :| RunsAs(Q, steps, j, i);
    var box := steps[j].realized.portBox;
    assert (steps + [step])[j] == steps[j];
    forall r | r in box ensures SuppliedBefore(Q, steps + [step], j, r, box[r]) {
      SuppliedGrows(Q, steps, step, j, r, box[r]);
    }
    assert RunsAs(Q, steps + [step], j, i);
  }

  /** A ready solver without a domain can run next. */
  lemma NextRuns(Q: Problem, steps: seq<RouteStep>, j: nat)
    requires Ready(Q, steps, j) && Usable(Q, j) && Q.solvers[j].domain == Domain(map[], {})
    ensures Runs(Q, steps + [StepFor(Q.solvers[j])], |steps|)
  {
    hide SomeProvides, Usable;
    var longer := steps + [StepFor(Q.solvers[j])];
    forall r | r in Q.solvers[j].inputs ensures SuppliedBefore(Q, longer, |steps|, r, ORIGIN) {
      if Offered(Q, steps, r) {
        var m: nat :| m < |steps| && SomeProvides(Q, steps[m], r, ORIGIN);
        assert longer[m] == steps[m];
      }
    }
    assert InputDomain(Q.solvers[j]).portBox == map[];
    assert RunsAs(Q, longer, |steps|, j);
  }

  /** A solver that is exact at `o` offers it exactly. */
  lemma StepOffers(Q: Problem, j: nat, o: string)
    requires j < |Q.solvers| && o in Q.solvers[j].outputs && o !in Q.solvers[j].accuracy
    ensures SomeProvides(Q, StepFor(Q.solvers[j]), o, ORIGIN)
  {
    var step := StepFor(Q.solvers[j]);
    ZeroHull(step.realized.portBox);
    hide SumHull;
    assert Provides(Q, step, j, o, ORIGIN);
  }

  /** The solver has no domain, is exact everywhere but at the target, and is exact there if it is in `exact`. */
  ghost predicate Plain(Q: Problem, exact: set<nat>, j: nat) {
    && j < |Q.solvers| && Usable(Q, j) && Q.solvers[j].domain == Domain(map[], {})
    && (forall o :: o in Q.solvers[j].accuracy ==> o == Q.target && j !in exact)
  }

  /** The list `steps` runs, costs `c`, and offers whatever `before` offered. */
  ghost predicate Continues(Q: Problem, before: seq<RouteStep>, steps: seq<RouteStep>, c: real) {
    AllRun(Q, steps) && CostSum(steps) == c && forall r :: Offered(Q, before, r) ==> Offered(Q, steps, r)
  }

  /** One more ready solver. */
  lemma AppendStep(Q: Problem, exact: set<nat>, before: seq<RouteStep>, steps: seq<RouteStep>, c: real, j: nat)
    requires Continues(Q, before, steps, c) && Ready(Q, steps, j) && Plain(Q, exact, j)
    ensures var longer := steps + [StepFor(Q.solvers[j])];
            && Continues(Q, before, longer, c + Q.solvers[j].cost)
            && forall o :: o in Q.solvers[j].outputs && (o == Q.target ==> j in exact) ==>
                 SomeProvides(Q, longer[|steps|], o, ORIGIN) && Offered(Q, longer, o)
  {
    var step := StepFor(Q.solvers[j]);
    var longer := steps + [step];
    hide Runs, Usable, Ready, SomeProvides;
    NextRuns(Q, steps, j);
    forall m | 0 <= m < |longer| ensures Runs(Q, longer, m) { if m < |steps| { RunsGrows(Q, steps, step, m); } }
    assert longer[..|steps|] == steps;
    forall r | Offered(Q, before, r) ensures Offered(Q, longer, r) { OfferedGrows(Q, steps, step, r); }
    forall o | o in Q.solvers[j].outputs && (o == Q.target ==> j in exact)
      ensures SomeProvides(Q, longer[|steps|], o, ORIGIN)
    {
      StepOffers(Q, j, o);
    }
  }

  /** Every output of solver `j`, the target aside, is offered. */
  ghost predicate Done(Q: Problem, steps: seq<RouteStep>, j: nat)
    requires j < |Q.solvers|
  {
    forall o :: o in Q.solvers[j].outputs && o != Q.target ==> Offered(Q, steps, o)
  }

  /** Runs every ready solver of `free` among the first `n`. */
  lemma {:induction false} Round(Q: Problem, free: set<nat>, before: seq<RouteStep>, c: real, n: nat)
    returns (steps: seq<RouteStep>)
    requires AllRun(Q, before) && CostSum(before) == c && n <= |Q.solvers|
    requires forall j :: j in free ==> Plain(Q, {}, j) && Q.solvers[j].cost == 0.0
    ensures Continues(Q, before, steps, c)
    ensures forall j :: j < n && j in free && Ready(Q, before, j) ==> Done(Q, steps, j)
  {
    hide AllRun, CostSum, Offered, Plain;
    steps := before;
    if n > 0 {
      steps := Round(Q, free, before, c, n - 1);
      var j := n - 1;
      if j in free && Ready(Q, before, j) {
        StillReady(Q, before, steps, c, j);
        AppendStep(Q, {}, before, steps, c, j);
        var longer := steps + [StepFor(Q.solvers[j])];
        forall i | i < n && i in free && Ready(Q, before, i) ensures Done(Q, longer, i) {
          if i < j { DoneGrows(Q, steps, StepFor(Q.solvers[j]), i); }
        }
        steps := longer;
      }
    }
  }

  lemma StillReady(Q: Problem, before: seq<RouteStep>, steps: seq<RouteStep>, c: real, j: nat)
    requires Continues(Q, before, steps, c) && Ready(Q, before, j)
    ensures Ready(Q, steps, j)
  {
    hide Offered;
  }

  lemma DoneGrows(Q: Problem, steps: seq<RouteStep>, step: RouteStep, j: nat)
    requires j < |Q.solvers| && Done(Q, steps, j)
    ensures Done(Q, steps + [step], j)
  {
    hide Offered;
    forall o | o in Q.solvers[j].outputs && o != Q.target ensures Offered(Q, steps + [step], o) {
      OfferedGrows(Q, steps, step, o);
    }
  }

  // ----- a diamond: the plan -----

  /** The solvers below `s`. */
  ghost function Line(R: Problem, s: nat): set<nat> {
    set j | 0 <= j < |R.solvers| && Usable(R, j) && j != s && Below(R, s, j)
  }

  lemma StagePlain(R: Problem, s: nat, i: nat, n: nat, exact: set<nat>, j: nat)
    requires j < |R.solvers| && Usable(R, j) && exact <= {i, n}
    ensures Plain(Pricing(R, s, i, n), exact, j)
    ensures Pricing(R, s, i, n).solvers[j].cost == DiamondPrices(R, s, n)[j]
  {
    hide Below, Sources, Usable;
    StageSolver(R, Sources(R, s), DiamondPrices(R, s, n), {i, n}, j);
  }

  lemma LinePlain(R: Problem, s: nat, i: nat, n: nat)
    ensures forall j :: j in Line(R, s) ==>
                          Plain(Pricing(R, s, i, n), {}, j) && Pricing(R, s, i, n).solvers[j].cost == 0.0
  {
    hide Below, Pricing, Plain, Usable;
    forall j | j in Line(R, s)
      ensures Plain(Pricing(R, s, i, n), {}, j) && j < |Pricing(R, s, i, n).solvers|
      ensures Pricing(R, s, i, n).solvers[j].cost == 0.0
    {
      PricingIs(R, s, i, n);
      StagePlain(R, s, i, n, {}, j);
    }
  }

  /** A solver whose fed inputs are all offered is ready. */
  lemma ReadyOnLine(R: Problem, s: nat, i: nat, n: nat, steps: seq<RouteStep>, j: nat)
    requires j < |R.solvers|
    requires forall r :: r in R.solvers[j].inputs && Feeds(R, s, r) ==> Offered(Pricing(R, s, i, n), steps, r)
    ensures Ready(Pricing(R, s, i, n), steps, j)
  {
    var Q := Pricing(R, s, i, n);
    PricingIs(R, s, i, n);
    StageSolver(R, Sources(R, s), DiamondPrices(R, s, n), {i, n}, j);
    RecastShape(R, Sources(R, s), DiamondPrices(R, s, n), {i, n}, j);
    hide Pricing, Feeds, Offered, Stage, Sources;
    forall r | r in Q.solvers[j].inputs ensures Offered(Q, steps, r) || KnownAtZero(Q, r) {
      if !Feeds(R, s, r) {
        InputSource(R, s, j, r);
        StageKnown(R, Sources(R, s), DiamondPrices(R, s, n), {i, n}, r);
      }
    }
  }

  /** The shared solver runs first. */
  lemma FirstStep(R: Problem, rank: string -> nat, s: nat, i: nat, p: string, q: string, n: nat, k: string)
    returns (steps: seq<RouteStep>)
    requires Diamond(R, rank, s, i, p, q, n, k)
    ensures var Q := Pricing(R, s, i, n);
            s < |Q.solvers| && AllRun(Q, steps) && CostSum(steps) == 2.0 && Done(Q, steps, s)
  {
    var Q := Pricing(R, s, i, n);
    DiamondFacts(R, rank, s, i, p, q, n, k);
    PricingIs(R, s, i, n);
    UsableFeeder(R, s, p);
    hide Pricing, Feeds, Offered, Usable, StageOk, Below;
    forall r | r in R.solvers[s].inputs ensures !Feeds(R, s, r) {
      if Feeds(R, s, r) { FeedsAbove(R, rank, s, r, r); }
    }
    ReadyOnLine(R, s, i, n, [], s);
    StagePlain(R, s, i, n, {}, s);
    assert AllRun(Q, []) && Continues(Q, [], [], 0.0);
    AppendStep(Q, {}, [], [], 0.0, s);
    steps := [] + [StepFor(Q.solvers[s])];
  }

  lemma UsableFeeder(R: Problem, s: nat, p: string)
    requires Feeds(R, s, p)
    ensures s < |R.solvers| && Usable(R, s)
  {
  }

  /** A plan for everything the shared solver feeds that ranks below `h`; only the shared solver costs anything. */
  lemma {:induction false} PlanTo(R: Problem, rank: string -> nat, s: nat, i: nat, p: string, q: string, n: nat,
                                  k: string, h: nat) returns (steps: seq<RouteStep>)
    requires Diamond(R, rank, s, i, p, q, n, k) && h <= rank(R.target)
    ensures var Q := Pricing(R, s, i, n);
            && s < |Q.solvers| && AllRun(Q, steps) && CostSum(steps) == 2.0 && Done(Q, steps, s)
            && forall r :: Feeds(R, s, r) && rank(r) < h ==> Offered(Q, steps, r)
    decreases h
  {
    hide Diamond, Pricing, AllRun, CostSum, Done, Feeds, Offered;
    if h == 0 {
      steps := FirstStep(R, rank, s, i, p, q, n, k);
    } else {
      var Q := Pricing(R, s, i, n);
      var before := PlanTo(R, rank, s, i, p, q, n, k, h - 1);
      LinePlain(R, s, i, n);
      steps := Round(Q, Line(R, s), before, 2.0, |Q.solvers|);
      KeepsDone(Q, before, steps, s);
      forall r | Feeds(R, s, r) && rank(r) < h ensures Offered(Q, steps, r) {
        if rank(r) == h - 1 {
          NextRank(R, rank, s, i, p, q, n, k, h - 1, before, steps, r);
        } else {
          assert Offered(Q, before, r);
        }
      }
    }
  }

  lemma KeepsDone(Q: Problem, before: seq<RouteStep>, steps: seq<RouteStep>, s: nat)
    requires s < |Q.solvers| && Continues(Q, before, steps, 2.0) && Done(Q, before, s)
    ensures AllRun(Q, steps) && CostSum(steps) == 2.0 && Done(Q, steps, s)
  {
    hide AllRun, CostSum, Offered;
  }

  lemma NextRank(R: Problem, rank: string -> nat, s: nat, i: nat, p: string, q: string, n: nat, k: string,
                 h: nat, before: seq<RouteStep>, steps: seq<RouteStep>, r: string)
    requires Diamond(R, rank, s, i, p, q, n, k) && Feeds(R, s, r) && rank(r) == h < rank(R.target)
    requires var Q := Pricing(R, s, i, n);
             && s < |Q.solvers| && Done(Q, before, s) && Continues(Q, before, steps, 2.0)
             && (forall u :: Feeds(R, s, u) && rank(u) < h ==> Offered(Q, before, u))
             && forall j :: j < |Q.solvers| && j in Line(R, s) && Ready(Q, before, j) ==> Done(Q, steps, j)
    ensures Offered(Pricing(R, s, i, n), steps, r)
  {
    var Q := Pricing(R, s, i, n);
    hide Feeds, Offered, Pricing, AllRun, CostSum, UniqueIds, HasCycle, Ready, Usable;
    PricingIs(R, s, i, n);
    var j := LastFeeder(R, s, r);
    SameOutputs(R, s, i, n, j);
    if j == s {
      DoneOffers(Q, before, s, r);
    } else {
      assert Below(R, s, j) && j in Line(R, s);
      forall u | u in R.solvers[j].inputs && Feeds(R, s, u) ensures Offered(Q, before, u) { assert rank(u) < rank(r); }
      ReadyOnLine(R, s, i, n, before, j);
      DoneOffers(Q, steps, j, r);
    }
  }

  lemma SameOutputs(R: Problem, s: nat, i: nat, n: nat, j: nat)
    requires j < |R.solvers|
    ensures j < |Pricing(R, s, i, n).solvers| && Pricing(R, s, i, n).solvers[j].outputs == R.solvers[j].outputs
  {
  }

  lemma DoneOffers(Q: Problem, steps: seq<RouteStep>, j: nat, r: string)
    requires j < |Q.solvers| && Done(Q, steps, j) && r in Q.solvers[j].outputs && r != Q.target
    ensures Offered(Q, steps, r)
  {
  }

  /** An executable plan that costs 2. */
  lemma SharingPlan(R: Problem, rank: string -> nat, s: nat, i: nat, p: string, q: string, n: nat, k: string)
    returns (steps: seq<RouteStep>)
    requires Diamond(R, rank, s, i, p, q, n, k)
    ensures Executable(Pricing(R, s, i, n), steps) && CostSum(steps) == 2.0
  {
    hide *;
    var Q := Pricing(R, s, i, n);
    var before := PlanTo(R, rank, s, i, p, q, n, k, rank(R.target));
    DiamondFacts(R, rank, s, i, p, q, n, k);
    PricingIs(R, s, i, n);
    SameOutputs(R, s, i, n, i);
    JoinReady(R, rank, s, i, p, q, n, k, before);
    StagePlain(R, s, i, n, {i, n}, i);
    NoStep(Q, before, 2.0);
    AppendStep(Q, {i, n}, before, before, 2.0, i);
    steps := before + [StepFor(Q.solvers[i])];
    OriginIsExact();
    EndsInTarget(Q, before, steps, 2.0);
  }

  lemma NoStep(Q: Problem, steps: seq<RouteStep>, c: real)
    requires AllRun(Q, steps) && CostSum(steps) == c
    ensures Continues(Q, steps, steps, c)
  {
    hide AllRun, CostSum, Offered;
  }

  lemma EndsInTarget(Q: Problem, before: seq<RouteStep>, steps: seq<RouteStep>, c: real)
    requires Continues(Q, before, steps, c) && steps != [] && SomeProvides(Q, steps[|steps| - 1], Q.target, ORIGIN)
    requires ORIGIN.HalfWidth() <= Q.budget
    ensures Executable(Q, steps) && CostSum(steps) == c
  {
    hide AllRun, CostSum, Offered, SomeProvides;
  }

  lemma JoinReady(R: Problem, rank: string -> nat, s: nat, i: nat, p: string, q: string, n: nat, k: string,
                  before: seq<RouteStep>)
    requires Diamond(R, rank, s, i, p, q, n, k)
    requires forall r :: Feeds(R, s, r) && rank(r) < rank(R.target) ==> Offered(Pricing(R, s, i, n), before, r)
    ensures Ready(Pricing(R, s, i, n), before, i) && Usable(R, i) && R.target in R.solvers[i].outputs
  {
    hide Feeds, Offered, Pricing, UniqueIds, HasCycle, Ready;
    forall r | r in R.solvers[i].inputs && Feeds(R, s, r) ensures Offered(Pricing(R, s, i, n), before, r) {
      assert rank(r) < rank(R.target);
    }
    ReadyOnLine(R, s, i, n, before, i);
  }

  /** On this request the search ends, and every answer is a route of cost 3 although a plan of cost 2 is executable. */
  lemma DiamondIsDear(R: Problem, rank: string -> nat, s: nat, i: nat, p: string, q: string, n: nat, k: string)
    returns (steps: seq<RouteStep>, limit: nat)
    requires Diamond(R, rank, s, i, p, q, n, k)
    ensures var Q := Pricing(R, s, i, n);
            && SameShape(R, Q) && WfProblem(Q) && Searches(Q) && Executable(Q, steps) && CostSum(steps) == 2.0
            && PlanAnswer(Q, limit).Answered? && PlanAnswer(Q, limit).result.Ok?
            && PlanAnswer(Q, limit).result.value.totalCost == 3.0
  {
    hide *;
    var Q := Pricing(R, s, i, n);
    DiamondFacts(R, rank, s, i, p, q, n, k);
    StageSearches(R, rank, s, DiamondPrices(R, s, n), {i, n});
    PricingIs(R, s, i, n);
    steps := SharingPlan(R, rank, s, i, p, q, n, k);
    limit := SearchBound(Q) + 1;
    RankedRequestsAnswered(Q, rank, limit);
    DirectRoute(R, rank, s, i, p, q, n, k, limit);
  }
}
