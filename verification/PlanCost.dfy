/** Executable plans against derivations: what the route's total cost is minimal among, and what it is not. */
module PlanCost {
  import opened Wrappers
  import opened Intervals
  import opened Propagation
  import opened PlanModel
  import opened PlanLemmas
  import opened PlanOptimal
  import opened PlanRoute
  import opened PlanOrder
  import opened PlanTermination
  import opened CycleCheck
  import opened Planner
  import opened PlanFeeds
  import Names

  // ----- any executable list of steps yields derivations -----

  /** A list of steps that run one after the other and end in the target within the budget. */
  ghost predicate Executable(P: Problem, steps: seq<RouteStep>) {
    && steps != [] && AllRun(P, steps)
    && exists iv: Interval :: SomeProvides(P, steps[|steps| - 1], P.target, iv) && iv.HalfWidth() <= P.budget
  }

  ghost predicate AllRun(P: Problem, steps: seq<RouteStep>) {
    forall j :: 0 <= j < |steps| ==> Runs(P, steps, j)
  }

  /** A derivation of a port out of a list of steps: the steps it uses, and what it is worth. */
  datatype Trace = Trace(used: set<nat>, part: Part)

  ghost predicate StepFeeds(P: Problem, step: RouteStep, p: string) {
    exists i :: 0 <= i < |P.solvers| && step.solverId == P.solvers[i].id && Feeds(P, i, p)
  }

  /** Cost of the used steps among the first `n`. */
  function Spent(steps: seq<RouteStep>, used: set<nat>, n: nat): real
    requires n <= |steps|
  {
    if n == 0 then 0.0 else Spent(steps, used, n - 1) + if n - 1 in used then steps[n - 1].cost else 0.0
  }

  /** Every used step comes before step `j` and feeds `p`. */
  ghost predicate Uses(P: Problem, steps: seq<RouteStep>, j: nat, p: string, used: set<nat>)
    requires j <= |steps|
  {
    forall m :: m in used ==> m < j && StepFeeds(P, steps[m], p)
  }

  /** `t` derives `p` with interval `iv` from steps before step `j`; without diamonds it pays for each of them once. */
  ghost predicate Obtained(P: Problem, steps: seq<RouteStep>, j: nat, p: string, iv: Interval, t: Trace)
    requires j <= |steps|
  {
    && Derivable(P, p, t.part) && t.part.iv == iv && Uses(P, steps, j, p, t.used)
    && (DiamondFree(P) ==> t.part.cost <= Spent(steps, t.used, |steps|))
  }

  ghost predicate Obtainable(P: Problem, steps: seq<RouteStep>, j: nat, p: string, iv: Interval)
    requires j <= |steps|
  {
    exists t :: Obtained(P, steps, j, p, iv, t)
  }

  // ----- what a set of steps costs -----

  lemma {:induction false} SpentNothing(steps: seq<RouteStep>, n: nat)
    requires n <= |steps|
    ensures Spent(steps, {}, n) == 0.0
  {
    if n > 0 { SpentNothing(steps, n - 1); }
  }

  lemma {:induction false} SpentTogether(steps: seq<RouteStep>, a: set<nat>, b: set<nat>, n: nat)
    requires n <= |steps| && a !! b
    ensures Spent(steps, a + b, n) == Spent(steps, a, n) + Spent(steps, b, n)
  {
    if n > 0 { SpentTogether(steps, a, b, n - 1); }
  }

  lemma {:induction false} SpentOnce(steps: seq<RouteStep>, m: nat, n: nat)
    requires m < |steps| && n <= |steps|
    ensures Spent(steps, {m}, n) == if m < n then steps[m].cost else 0.0
  {
    if n > 0 { SpentOnce(steps, m, n - 1); }
  }

  lemma {:induction false} SpentAtMostAll(steps: seq<RouteStep>, used: set<nat>, n: nat)
    requires n <= |steps| && forall k :: 0 <= k < |steps| ==> steps[k].cost >= 0.0
    ensures Spent(steps, used, n) <= CostSum(steps[..n])
  {
    if n > 0 {
      SpentAtMostAll(steps, used, n - 1);
      assert steps[..n][..n - 1] == steps[..n - 1];
    }
  }

  lemma StepsCostNothingNegative(P: Problem, steps: seq<RouteStep>)
    requires WfProblem(P) && AllRun(P, steps)
    ensures forall k :: 0 <= k < |steps| ==> steps[k].cost >= 0.0
  {
    hide SuppliedBefore, Usable;
    forall k | 0 <= k < |steps| ensures steps[k].cost >= 0.0 {
      assert Runs(P, steps, k);
      var i: nat :| RunsAs(P, steps, k, i);
      assert WfSolver(P.solvers[i]);
    }
  }

  lemma KnownObtained(P: Problem, p: string)
    requires p in P.known
    ensures Derivable(P, p, Part(Inflate(P.known[p], 0.0), 0.0))
  {
    assert Derives(P, Given(p), p, Part(Inflate(P.known[p], 0.0), 0.0));
  }

  // ----- joining derivations -----

  function AllUsed(ks: seq<string>, pick: map<string, Trace>): set<nat>
    requires forall k :: k in ks ==> k in pick
  {
    if ks == [] then {} else pick[ks[0]].used + AllUsed(ks[1..], pick)
  }

  lemma {:induction false} UsedBySome(ks: seq<string>, pick: map<string, Trace>, m: nat)
    requires (forall k :: k in ks ==> k in pick) && m in AllUsed(ks, pick)
    ensures exists k :: k in ks && m in pick[k].used
  {
    if m !in pick[ks[0]].used {
      UsedBySome(ks[1..], pick, m);
      var k :| k in ks[1..] && m in pick[k].used;
      assert k in ks;
    }
  }

  ghost predicate Separate(pick: map<string, Trace>) {
    forall p, q :: p in pick && q in pick && p != q ==> pick[p].used !! pick[q].used
  }

  /** Derivations that use different steps cost at most what those steps cost together. */
  lemma {:induction false} JoinedCost(steps: seq<RouteStep>, ks: seq<string>, pick: map<string, Trace>,
                                      costs: map<string, real>)
    requires (forall k :: k in ks ==> k in pick && k in costs && costs[k] <= Spent(steps, pick[k].used, |steps|))
    requires Names.Distinct(ks) && Separate(pick)
    ensures Names.SumOver(ks, costs) <= Spent(steps, AllUsed(ks, pick), |steps|)
  {
    if ks == [] {
      SpentNothing(steps, |steps|);
    } else {
      hide Spent, Separate;
      JoinedCost(steps, ks[1..], pick, costs);
      FirstSeparate(ks, pick);
      SpentTogether(steps, pick[ks[0]].used, AllUsed(ks[1..], pick), |steps|);
    }
  }

  lemma FirstSeparate(ks: seq<string>, pick: map<string, Trace>)
    requires ks != [] && (forall k :: k in ks ==> k in pick) && Names.Distinct(ks) && Separate(pick)
    ensures pick[ks[0]].used !! AllUsed(ks[1..], pick)
  {
    forall m | m in AllUsed(ks[1..], pick) ensures m !in pick[ks[0]].used {
      UsedBySome(ks[1..], pick, m);
      var k :| k in ks[1..] && m in pick[k].used;
      assert k != ks[0];
    }
  }

  /** Where no solver joins ports with a common feeder, derivations of its inputs share no step. */
  lemma InputsSeparate(P: Problem, steps: seq<RouteStep>, j: nat, i: nat, pick: map<string, Trace>)
    requires UniqueIds(P) && DiamondFree(P) && j <= |steps| && i < |P.solvers| && Usable(P, i)
    requires P.solvers[i].outputs != [] && forall q :: q in pick ==> q in P.solvers[i].inputs
    requires forall q :: q in pick ==> Uses(P, steps, j, q, pick[q].used)
    ensures Separate(pick)
  {
    hide Usable, Feeds, DiamondFree;
    forall p, q, m | p in pick && q in pick && p != q && m in pick[p].used ensures m !in pick[q].used {
      if m in pick[q].used {
        assert StepFeeds(P, steps[m], p) && StepFeeds(P, steps[m], q);
        var s: nat :| s < |P.solvers| && steps[m].solverId == P.solvers[s].id && Feeds(P, s, p);
        var r: nat :| r < |P.solvers| && steps[m].solverId == P.solvers[r].id && Feeds(P, r, q);
        assert s == r;
        NoDiamond(P, i, p, q, s);
      }
    }
  }

  lemma NoDiamond(P: Problem, i: nat, p: string, q: string, s: nat)
    requires DiamondFree(P)
    ensures !SharesFeeder(P, i, p, q, s)
  {
  }

  // ----- any executable list of steps is a derivation of what it provides -----

  /** A port supplied before step `j` is derivable from the steps before `j`. */
  lemma {:induction false} SuppliedObtainable(P: Problem, steps: seq<RouteStep>, j: nat, p: string, iv: Interval)
    requires WfProblem(P) && UniqueIds(P) && AllRun(P, steps) && j <= |steps| && SuppliedBefore(P, steps, j, p, iv)
    ensures Obtainable(P, steps, j, p, iv)
    decreases j, 0
  {
    hide WfProblem, UniqueIds, AllRun, SomeProvides, Derivable, DiamondFree, Spent, StepFeeds;
    if p in P.known && iv == Inflate(P.known[p], 0.0) {
      KnownObtained(P, p);
      SpentNothing(steps, |steps|);
      assert Obtained(P, steps, j, p, iv, Trace({}, Part(iv, 0.0)));
    } else {
      var m: nat :| m < j && SomeProvides(P, steps[m], p, iv);
      StepObtainable(P, steps, m, p, iv);
      var t :| Obtained(P, steps, m + 1, p, iv, t);
      assert Obtained(P, steps, j, p, iv, t);
    }
  }

  /** What a step provides is derivable from it and the steps before it. */
  lemma {:induction false} StepObtainable(P: Problem, steps: seq<RouteStep>, j: nat, p: string, iv: Interval)
    requires WfProblem(P) && UniqueIds(P) && AllRun(P, steps) && j < |steps| && SomeProvides(P, steps[j], p, iv)
    ensures Obtainable(P, steps, j + 1, p, iv)
    decreases j, 1
  {
    hide WfProblem, Derivable, Obtained, Usable, SuppliedBefore;
    assert Runs(P, steps, j);
    var i: nat :| RunsAs(P, steps, j, i);
    var k: nat :| Provides(P, steps[j], k, p, iv);
    assert k == i;
    var box := steps[j].realized.portBox;
    forall q | q in box ensures Obtainable(P, steps, j, q, box[q]) { SuppliedObtainable(P, steps, j, q, box[q]); }
    var pick := ChooseTraces(P, steps, j, box);
    AppliedObtained(P, steps, j, i, p, pick, box, iv);
  }

  lemma ChooseTraces(P: Problem, steps: seq<RouteStep>, j: nat, box: Box) returns (pick: map<string, Trace>)
    requires j <= |steps| && forall q :: q in box ==> Obtainable(P, steps, j, q, box[q])
    ensures pick.Keys == box.Keys && forall q :: q in box ==> Obtained(P, steps, j, q, box[q], pick[q])
  {
    hide Obtained;
    pick := map q | q in box :: var t :| Obtained(P, steps, j, q, box[q], t); t;
  }

  function PartsOf(pick: map<string, Trace>): TieKey {
    map q | q in pick :: pick[q].part
  }

  lemma AppliedObtained(P: Problem, steps: seq<RouteStep>, j: nat, i: nat, p: string, pick: map<string, Trace>,
                        box: Box, iv: Interval)
    requires WfProblem(P) && UniqueIds(P) && j < |steps| && Makes(P, i, p)
    requires steps[j].solverId == P.solvers[i].id && steps[j].cost == P.solvers[i].cost
    requires pick.Keys == box.Keys == (set q | q in P.solvers[i].inputs) &&
             InputDomain(P.solvers[i]).Covers(box, P.tags)
    requires forall q :: q in box ==> Obtained(P, steps, j, q, box[q], pick[q])
    requires iv == Inflate(SumHull(box), OutEps(P.solvers[i], p, SumHull(box)))
    ensures Obtainable(P, steps, j + 1, p, iv)
  {
    hide *;
    MakesMeans(P, i, p);
    var s := P.solvers[i];
    var tie := PartsOf(pick);
    var used := AllUsed(Names.Sorted(pick.Keys), pick);
    TracesGive(P, steps, j, box, pick);
    AdmittedBox(s, tie, box, P.tags);
    OutPartOf(s, p, tie, box);
    ApplyDerives(P, i, p, tie);
    JoinUses(P, steps, j, i, p, pick);
    if DiamondFree(P) { JoinCost(P, steps, j, i, pick, used); }
    ObtainedBy(P, steps, j + 1, p, iv, Trace(used + {j}, OutPart(s, p, tie)));
  }

  lemma ObtainedBy(P: Problem, steps: seq<RouteStep>, j: nat, p: string, iv: Interval, t: Trace)
    requires j <= |steps| && Derivable(P, p, t.part) && t.part.iv == iv && Uses(P, steps, j, p, t.used)
    requires DiamondFree(P) ==> t.part.cost <= Spent(steps, t.used, |steps|)
    ensures Obtainable(P, steps, j, p, iv)
  {
    hide Derivable, DiamondFree, Spent, Uses;
    assert Obtained(P, steps, j, p, iv, t);
  }

  lemma TracesGive(P: Problem, steps: seq<RouteStep>, j: nat, box: Box, pick: map<string, Trace>)
    requires j <= |steps| && pick.Keys == box.Keys
    requires forall q :: q in box ==> Obtained(P, steps, j, q, box[q], pick[q])
    ensures PartsOf(pick).Keys == pick.Keys && Boxes(PartsOf(pick)) == box
    ensures forall q :: q in pick ==> Derivable(P, q, PartsOf(pick)[q]) && Uses(P, steps, j, q, pick[q].used)
    ensures DiamondFree(P) ==> forall q :: q in pick ==> pick[q].part.cost <= Spent(steps, pick[q].used, |steps|)
  {
    hide Derivable, DiamondFree, Spent, Uses;
  }

  lemma JoinUses(P: Problem, steps: seq<RouteStep>, j: nat, i: nat, p: string, pick: map<string, Trace>)
    requires j < |steps| && Makes(P, i, p) && steps[j].solverId == P.solvers[i].id
    requires forall q :: q in pick ==> q in P.solvers[i].inputs && Uses(P, steps, j, q, pick[q].used)
    ensures Uses(P, steps, j + 1, p, AllUsed(Names.Sorted(pick.Keys), pick) + {j})
  {
    var ks := Names.Sorted(pick.Keys);
    hide Feeds, Usable, Makes;
    MakesMeans(P, i, p);
    MakerFeeds(P, i, p);
    forall m | m in AllUsed(ks, pick) ensures m < j && StepFeeds(P, steps[m], p) {
      UsedBySome(ks, pick, m);
      var q :| q in ks && m in pick[q].used;
      var s: nat :| s < |P.solvers| && steps[m].solverId == P.solvers[s].id && Feeds(P, s, q);
      FeedsOn(P, s, q, i, p);
    }
  }

  lemma JoinCost(P: Problem, steps: seq<RouteStep>, j: nat, i: nat, pick: map<string, Trace>, used: set<nat>)
    requires UniqueIds(P) && DiamondFree(P) && j < |steps| && i < |P.solvers| && Usable(P, i)
    requires P.solvers[i].outputs != [] && pick.Keys == (set q | q in P.solvers[i].inputs)
    requires steps[j].cost == P.solvers[i].cost && used == AllUsed(Names.Sorted(pick.Keys), pick)
    requires forall q :: q in pick ==> Uses(P, steps, j, q, pick[q].used)
    requires forall q :: q in pick ==> pick[q].part.cost <= Spent(steps, pick[q].used, |steps|)
    ensures OutCost(P.solvers[i], PartsOf(pick)) <= Spent(steps, used + {j}, |steps|)
  {
    hide Spent, Uses, DiamondFree, UniqueIds, Usable, AllUsed, Separate, Names.SumOver, Names.Distinct;
    var ks, costs := Names.Sorted(pick.Keys), Costs(PartsOf(pick));
    assert costs.Keys == pick.Keys;
    UsedEarlier(P, steps, j, ks, pick);
    InputsSeparate(P, steps, j, i, pick);
    Names.SortedDistinct(pick.Keys);
    JoinedCost(steps, ks, pick, costs);
    SpentTogether(steps, used, {j}, |steps|);
    SpentOnce(steps, j, |steps|);
  }

  lemma UsedEarlier(P: Problem, steps: seq<RouteStep>, j: nat, ks: seq<string>, pick: map<string, Trace>)
    requires j < |steps| && forall q :: q in pick ==> Uses(P, steps, j, q, pick[q].used)
    requires forall k :: k in ks ==> k in pick
    ensures j !in AllUsed(ks, pick)
  {
    if j in AllUsed(ks, pick) { UsedBySome(ks, pick, j); }
  }

  lemma AdmittedBox(s: Solver, tie: TieKey, box: Box, tags: set<string>)
    requires Boxes(tie) == box && InputDomain(s).Covers(box, tags)
    ensures Admitted(s, tie, tags)
  {
  }

  lemma OutPartOf(s: Solver, p: string, tie: TieKey, box: Box)
    requires Boxes(tie) == box
    ensures OutPart(s, p, tie).iv == Inflate(SumHull(box), OutEps(s, p, SumHull(box)))
    ensures OutPart(s, p, tie).cost == OutCost(s, tie)
  {
  }

  /** Every executable list of steps shows that the target is reachable within the budget; and when no solver joins
      ports with a common feeder, it costs at least what the planner's route does. */
  lemma PlansAreDerivable(P: Problem, steps: seq<RouteStep>, limit: nat)
    requires WfProblem(P) && UniqueIds(P) && Searches(P) && Executable(P, steps)
    ensures Reachable(P)
    ensures DiamondFree(P) ==> match PlanAnswer(P, limit)
                               case Answered(Ok(r)) => r.totalCost <= CostSum(steps)
                               case Answered(Err(_)) => false
                               case Unfinished => true
  {
    hide WfProblem, UniqueIds, AllRun, SomeProvides, Derivable, Runs, PlanAnswer, HasCycle, Producible, LeastReachable,
      DiamondFree, Spent, CostSum, Uses;
    var iv: Interval :| SomeProvides(P, steps[|steps| - 1], P.target, iv) && iv.HalfWidth() <= P.budget;
    StepObtainable(P, steps, |steps| - 1, P.target, iv);
    var t :| Obtained(P, steps, |steps|, P.target, iv, t);
    StepsCostNothingNegative(P, steps);
    SpentAtMostAll(steps, t.used, |steps|);
    assert steps[..|steps|] == steps;
    AnswerIsExact(P, limit);
  }

  /** Every solver has at most one input port. */
  ghost predicate Unary(P: Problem) {
    forall i :: 0 <= i < |P.solvers| ==> |P.solvers[i].inputs| <= 1
  }

  /** Without joins nothing is shared. */
  lemma UnaryIsDiamondFree(P: Problem)
    requires Unary(P)
    ensures DiamondFree(P)
  {
    hide Feeds;
  }

  /** A search that ends succeeds exactly when some executable list of steps ends in the target within the budget. */
  lemma SucceedsIffExecutable(P: Problem, limit: nat)
    requires WfProblem(P) && UniqueIds(P) && Searches(P) && PlanAnswer(P, limit).Answered?
    ensures PlanAnswer(P, limit).result.Ok? <==> exists steps :: Executable(P, steps)
  {
    hide WfProblem, UniqueIds, Runs, SomeProvides, Derivable, PlanAnswer, HasCycle, Producible, LeastReachable,
      Searches;
    SucceedsIff(P, limit);
    if PlanAnswer(P, limit).result.Ok? {
      SearchingTarget(P);
      AnswerIsExact(P, limit);
      assert Executable(P, PlanAnswer(P, limit).result.value.steps);
    }
    if steps :| Executable(P, steps) { PlansAreDerivable(P, steps, limit); }
  }

  lemma SearchingTarget(P: Problem)
    requires Searches(P)
    ensures P.target !in P.known
  {
  }
}
