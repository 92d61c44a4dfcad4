/** `Plan` as a whole: its answer in terms of runs, the code that computes it, and what every answer means. */
module Planner {
  import opened Wrappers
  import opened Intervals
  import opened Propagation
  import opened PlanModel
  import opened PlanLemmas
  import opened PlanOptimal
  import opened PlanRoute
  import opened PlanSearch
  import opened PlanOrder
  import opened PlanTermination
  import opened CycleCheck
  import Names

  datatype PlanError =
    | InvalidBudget
    | UnknownTarget(port: string)
    | CyclicPortEquivalence
    | NoApplicableSolver
    | BudgetUnreachable(bestEps: real)

  /** `Unfinished` stands for a search still running after the given number of turns. */
  datatype Answer = Answered(result: Result<Route, PlanError>) | Unfinished

  predicate Producible(P: Problem) {
    exists i :: 0 <= i < |P.solvers| && P.target in P.solvers[i].outputs
  }

  /** The guards before the search let the request through. */
  ghost predicate Searches(P: Problem) {
    P.budget > 0.0 && P.target !in P.known && Producible(P) && !HasCycle(P.solvers)
  }

  ghost function RouteOf(P: Problem, limit: nat): Route
    requires WfProblem(P) && P.target !in P.known && Run(P, Initial(P), limit).Success?
  {
    RouteIsExecutable(P, limit);
    RouteFor(P, Run(P, Initial(P), limit).winner, Run(P, Initial(P), limit).arena)
  }

  ghost function PlanAnswer(P: Problem, limit: nat): Answer
    requires WfProblem(P)
  {
    if P.budget <= 0.0 then Answered(Err(InvalidBudget))
    else if P.target in P.known then Answered(Ok(Route(P.target, [], 0.0, 0.0)))
    else if !Producible(P) then Answered(Err(UnknownTarget(P.target)))
    else if HasCycle(P.solvers) then Answered(Err(CyclicPortEquivalence))
    else
      match Run(P, Initial(P), limit)
      case StillSearching => Unfinished
      case Success(_, _) => Answered(Ok(RouteOf(P, limit)))
      case Emptied(labels) => Answered(Err(FailureFor(P, labels)))
  }

  function FailureFor(P: Problem, labels: Labels): PlanError {
    if LabelsAt(labels, P.target) == [] then NoApplicableSolver
    else BudgetUnreachable(LeastError(LabelsAt(labels, P.target)))
  }

  // ----- building the route -----

  /** Visited steps and the route steps listed so far; `order` names the arena positions listed. */
  class RouteBuilder {
    var visited: set<nat>
    var steps: seq<RouteStep>
    ghost var order: seq<nat>

    ghost predicate Valid(arena: seq<StepNode>)
      reads this
    {
      (forall k :: k in order ==> k < |arena|) && steps == StepsOf(arena, order)
    }

    constructor (arena: seq<StepNode>)
      ensures Valid(arena) && visited == {} && order == []
    {
      visited, steps, order := {}, [], [];
    }

    /** Depth-first, inputs in port order, each step once, after everything that feeds it. */
    method WalkRoute(arena: seq<StepNode>, id: nat)
      requires Wired(arena) && id < |arena| && Valid(arena)
      modifies this
      ensures Valid(arena)
      ensures PlanRoute.Visit(visited, order) == WalkNode(arena, id, old(PlanRoute.Visit(visited, order)))
      decreases id
    {
      if id in visited {
        return;
      }
      visited := visited + {id};
      var ports := Names.Sorted(arena[id].inputs.Keys);
      ghost var start := PlanRoute.Visit(visited, order);
      for i := 0 to |ports|
        invariant Valid(arena)
        invariant WalkPorts(arena, id, ports, i, PlanRoute.Visit(visited, order)) ==
                  WalkPorts(arena, id, ports, 0, start)
      {
        assert ports[i] in ports;
        var child := arena[id].inputs[ports[i]].node;
        if child.Some? {
          WalkRoute(arena, child.value);
        }
      }
      var step := MakeStep(arena[id]);
      ListOne(arena, order, id);
      steps, order := steps + [step], order + [id];
    }

    static lemma ListOne(arena: seq<StepNode>, order: seq<nat>, id: nat)
      requires id < |arena| && forall k :: k in order ==> k < |arena|
      ensures StepsOf(arena, order + [id]) == StepsOf(arena, order) + [StepOf(arena[id])]
    {
    }

    static method MakeStep(n: StepNode) returns (step: RouteStep)
      ensures step == StepOf(n)
    {
      var most := 0.0;
      var ports := Names.Sorted(n.outputs.Keys);
      for i := 0 to |ports|
        invariant MaxEps(ports, n.outputs, i, most) == MaxEps(ports, n.outputs, 0, 0.0)
      {
        assert ports[i] in ports;
        if n.outputs[ports[i]].eps > most {
          most := n.outputs[ports[i]].eps;
        }
      }
      step := RouteStep(n.solverId, Domain(Boxes(KeyOf(n.inputs)), n.tags), most, n.ownCost);
    }
  }

  method BuildRoute(P: Problem, w: Label, arena: seq<StepNode>) returns (r: Route)
    requires w.node.Some? && w.node.value < |arena| && Wired(arena)
    requires forall k :: k in WalkFrom(arena, w.node.value) ==> k < |arena|
    ensures r == RouteFor(P, w, arena)
  {
    var builder := new RouteBuilder(arena);
    builder.WalkRoute(arena, w.node.value);
    var total := 0.0;
    for i := 0 to |builder.steps|
      invariant total == CostSum(builder.steps[..i])
    {
      assert builder.steps[..i + 1][..i] == builder.steps[..i];
      total := total + builder.steps[i].cost;
    }
    assert builder.steps[..|builder.steps|] == builder.steps;
    r := Route(P.target, builder.steps, w.Error(), total);
  }

  // ----- the planner -----

  /** The least total error over a label set, folded in order. */
  method FoldLeastError(ls: seq<Label>) returns (best: real)
    requires ls != []
    ensures best == LeastError(ls)
  {
    best := ls[0].Error();
    for i := 1 to |ls|
      invariant best == LeastError(ls[..i])
    {
      assert ls[..i + 1][..i] == ls[..i];
      if ls[i].Error() < best {
        best := ls[i].Error();
      }
    }
    assert ls[..|ls|] == ls;
  }

  method Failure(P: Problem, labels: Labels) returns (e: PlanError)
    ensures e == FailureFor(P, labels)
  {
    var ls := LabelsAt(labels, P.target);
    if ls == [] {
      return NoApplicableSolver;
    }
    var best := FoldLeastError(ls);
    e := BudgetUnreachable(best);
  }

  method Plan(P: Problem, limit: nat) returns (a: Answer)
    requires WfProblem(P)
    ensures a == PlanAnswer(P, limit)
  {
    if P.budget <= 0.0 {
      return Answered(Err(InvalidBudget));
    }
    if P.target in P.known {
      return Answered(Ok(Route(P.target, [], 0.0, 0.0)));
    }
    if !Producible(P) {
      return Answered(Err(UnknownTarget(P.target)));
    }
    var cyclic, _ := DetectPortEquivalenceCycle(P.solvers);
    if cyclic {
      return Answered(Err(CyclicPortEquivalence));
    }
    InitialInv(P);
    a := Search(P, limit);
  }

  method Search(P: Problem, limit: nat) returns (a: Answer)
    requires WfProblem(P) && Searches(P) && Inv(P, Initial(P), 0.0)
    ensures a == PlanAnswer(P, limit)
  {
    hide WfProblem, Inv, TakeTurn, Initial, HasCycle, Producible, RouteFor, FailureFor, Correct, Wired, WalkFrom;
    var search := new SearchState(P);
    ghost var clock := 0.0;
    InitialInRange(P);
    for n := 0 to limit
      invariant InRange(P, search.queue) && Inv(P, search.Snap(), clock)
      invariant Run(P, search.Snap(), limit - n) == Run(P, Initial(P), limit)
    {
      ghost var S := search.Snap();
      ghost var next := TurnCorrect(P, S, clock);
      TurnInRange(P, S);
      var exhausted, w := search.OneTurn(P, clock);
      if exhausted {
        var failure := Failure(P, search.labels);
        return Answered(Err(failure));
      }
      if w.Some? {
        RouteIsExecutable(P, limit);
        var r := BuildRoute(P, w.value, search.arena);
        return Answered(Ok(r));
      }
      clock := next;
    }
    a := Unfinished;
  }

  lemma InitialInRange(P: Problem)
    ensures InRange(P, Initial(P).frontier.queue)
  {
  }

  // ----- what an answer means -----

  /** Some admissible derivation of the target is within the budget. */
  ghost predicate Reachable(P: Problem) {
    exists w :: Derivable(P, P.target, w) && w.iv.HalfWidth() <= P.budget
  }

  /** A route that runs step by step, each step with its own error, ends in the target within the budget, and costs no
      more than any admissible derivation within the budget. */
  ghost predicate GoodRoute(P: Problem, r: Route) {
    && r.target == P.target && r.steps != [] && r.predictedEps <= P.budget
    && (forall j :: 0 <= j < |r.steps| ==> Runs(P, r.steps, j) && ReportsError(P, r.steps[j]))
    && (exists iv: Interval ::
          iv.HalfWidth() == r.predictedEps && SomeProvides(P, r.steps[|r.steps| - 1], P.target, iv))
    && (forall w :: Derivable(P, P.target, w) && w.iv.HalfWidth() <= P.budget ==> r.totalCost <= w.cost)
  }

  /** `best` is the least total error of any admissible derivation of the target. */
  ghost predicate LeastReachable(P: Problem, best: real) {
    && (exists w :: Derivable(P, P.target, w) && w.iv.HalfWidth() == best)
    && (forall w :: Derivable(P, P.target, w) ==> best <= w.iv.HalfWidth())
  }

  /** Every answer of a request that gets past the guards, measured against all admissible derivations. */
  lemma AnswerIsExact(P: Problem, limit: nat)
    requires WfProblem(P) && Searches(P)
    ensures match PlanAnswer(P, limit)
            case Unfinished => true
            case Answered(Ok(r)) => Reachable(P) && GoodRoute(P, r)
            case Answered(Err(NoApplicableSolver)) => !exists w :: Derivable(P, P.target, w)
            case Answered(Err(BudgetUnreachable(best))) => !Reachable(P) && best > P.budget && LeastReachable(P, best)
            case Answered(Err(_)) => false
  {
    InitialInv(P);
    hide Run, Inv, InvLabels, Initial, WfProblem, HasCycle, Producible, Complete, RouteOf, FailureFor, Reachable,
      GoodRoute, LeastReachable, Cheapest, Derivable;
    RunCorrect(P, Initial(P), 0.0, limit);
    match Run(P, Initial(P), limit)
    case StillSearching =>
    case Emptied(labels) => FailureMeans(P, labels);
    case Success(w, _) => RouteIsGood(P, limit);
  }

  lemma FailureMeans(P: Problem, labels: Labels)
    requires WfProblem(P) && Complete(P, labels)
    ensures match FailureFor(P, labels)
            case NoApplicableSolver => !exists w :: Derivable(P, P.target, w)
            case BudgetUnreachable(best) => !Reachable(P) && best > P.budget && LeastReachable(P, best)
            case _ => false
  {
    hide WfProblem, Complete, Derivable;
    FailureIsExact(P, labels);
  }

  lemma RouteIsGood(P: Problem, limit: nat)
    requires WfProblem(P) && P.target !in P.known && Run(P, Initial(P), limit).Success?
    ensures Reachable(P) && GoodRoute(P, RouteOf(P, limit))
  {
    RouteIsExecutable(P, limit);
    InitialInv(P);
    RunCorrect(P, Initial(P), 0.0, limit);
    hide Run, Inv, InvLabels, Initial, WfProblem, Runs, SomeProvides, WalkFrom, Worth, Admissible, RouteFor,
      ReportsError;
    var w, arena := Run(P, Initial(P), limit).winner, Run(P, Initial(P), limit).arena;
    WinnerReaches(P, w);
    RouteForTarget(P, w, arena);
    GoodByCost(P, RouteOf(P, limit), w.Inflated());
  }

  lemma RouteForTarget(P: Problem, w: Label, arena: seq<StepNode>)
    requires w.node.Some? && w.node.value < |arena| && Wired(arena)
    requires forall k :: k in WalkFrom(arena, w.node.value) ==> k < |arena|
    ensures RouteFor(P, w, arena).target == P.target
  {
  }

  lemma WinnerReaches(P: Problem, w: Label)
    requires Derivable(P, P.target, w.Seen()) && w.Error() <= P.budget
    ensures Reachable(P)
  {
    TotalErrorIsInflatedHalfWidth(w.interval, w.eps, w.interval, w.eps);
  }

  lemma GoodByCost(P: Problem, r: Route, iv: Interval)
    requires r.target == P.target && r.steps != [] && r.predictedEps <= P.budget
    requires forall j :: 0 <= j < |r.steps| ==> Runs(P, r.steps, j) && ReportsError(P, r.steps[j])
    requires iv.HalfWidth() == r.predictedEps && SomeProvides(P, r.steps[|r.steps| - 1], P.target, iv)
    requires forall t :: Admissible(P, t) && t.Port() == P.target && Worth(P, t).iv.HalfWidth() <= P.budget ==>
                           r.totalCost <= Worth(P, t).cost
    ensures GoodRoute(P, r)
  {
    hide Runs, SomeProvides, Worth, Admissible, ReportsError;
    forall w | Derivable(P, P.target, w) && w.iv.HalfWidth() <= P.budget ensures r.totalCost <= w.cost {
      var t :| Derives(P, t, P.target, w);
    }
  }

  /** A search that ends succeeds exactly when some admissible derivation meets the budget. */
  lemma SucceedsIff(P: Problem, limit: nat)
    requires WfProblem(P) && Searches(P) && PlanAnswer(P, limit).Answered?
    ensures PlanAnswer(P, limit).result.Ok? <==> Reachable(P)
  {
    hide GoodRoute, LeastReachable, PlanAnswer, Searches, WfProblem;
    AnswerIsExact(P, limit);
  }

  lemma DerivableIsProducible(P: Problem, w: Part)
    requires Derivable(P, P.target, w) && P.target !in P.known
    ensures Producible(P)
  {
    var t :| Derives(P, t, P.target, w);
    assert P.target in P.solvers[t.idx].outputs;
  }

  /** The early answers about the target are right too: a known target needs no step, and a target no solver
      produces has no derivation. */
  lemma GuardsAreSound(P: Problem, limit: nat)
    requires WfProblem(P) && P.budget > 0.0
    ensures PlanAnswer(P, limit) == Answered(Ok(Route(P.target, [], 0.0, 0.0))) <==> P.target in P.known
    ensures PlanAnswer(P, limit) == Answered(Err(UnknownTarget(P.target))) ==> !exists w :: Derivable(P, P.target, w)
  {
    if P.target !in P.known {
      if !Producible(P) {
        if w :| Derivable(P, P.target, w) { DerivableIsProducible(P, w); }
      } else if !HasCycle(P.solvers) && Run(P, Initial(P), limit).Success? {
        RouteIsGood(P, limit);
      }
    }
  }

  lemma SameRenames(P: Problem, Q: Problem, to: seq<nat>, a: string, b: string)
    requires Sends(P, Q, to) && Renames(P.solvers, a, b)
    ensures Renames(Q.solvers, a, b)
  {
    var s :| s in P.solvers && |s.inputs| == 1 && |s.outputs| == 1 && s.inputs[0] == a && s.outputs[0] == b;
    var i: nat :| i < |P.solvers| && P.solvers[i] == s;
    assert Q.solvers[to[i]] == s;
  }

  lemma SameGuards(P: Problem, Q: Problem, to: seq<nat>)
    requires Sends(P, Q, to) && P.target == Q.target
    ensures Producible(P) ==> Producible(Q)
    ensures HasCycle(P.solvers) ==> HasCycle(Q.solvers)
  {
    if Producible(P) {
      var i: nat :| i < |P.solvers| && P.target in P.solvers[i].outputs;
      assert Q.target in Q.solvers[to[i]].outputs;
    }
    if HasCycle(P.solvers) {
      var path :| IsCycle(P.solvers, path);
      forall i | 0 <= i < |path| - 1 ensures Renames(Q.solvers, path[i], path[i + 1]) {
        SameRenames(P, Q, to, path[i], path[i + 1]);
      }
      assert IsCycle(Q.solvers, path);
    }
  }

  lemma PermutedWf(P: Problem, Q: Problem, to: seq<nat>, back: seq<nat>)
    requires WfProblem(P) && Permuted(P, Q, to, back)
    ensures WfProblem(Q)
  {
    forall j | 0 <= j < |Q.solvers| ensures WfSolver(Q.solvers[j]) { assert P.solvers[back[j]] == Q.solvers[j]; }
  }

  /** The order of the solver list changes neither the route nor the error. */
  lemma AnswerIgnoresOrder(P: Problem, Q: Problem, to: seq<nat>, back: seq<nat>, limit: nat)
    requires WfProblem(P) && Permuted(P, Q, to, back) && StrictTotalOrder(P.before)
    ensures WfProblem(Q) && PlanAnswer(P, limit) == PlanAnswer(Q, limit)
  {
    PermutedWf(P, Q, to, back);
    SameGuards(P, Q, to);
    SameGuards(Q, P, back);
    hide Run, WfProblem, HasCycle, Producible, Initial, StrictTotalOrder, RouteFor;
    if P.target !in P.known {
      OrderDoesNotMatter(P, Q, to, back, limit);
      SameFinish(P, Q, limit);
    }
  }

  lemma SameFinish(P: Problem, Q: Problem, limit: nat)
    requires WfProblem(P) && WfProblem(Q) && Q == P.(solvers := Q.solvers) && P.target !in P.known
    requires Run(P, Initial(P), limit) == Run(Q, Initial(Q), limit)
    ensures Run(P, Initial(P), limit).Success? ==> RouteOf(P, limit) == RouteOf(Q, limit)
    ensures Run(P, Initial(P), limit).Emptied? ==>
              FailureFor(P, Run(P, Initial(P), limit).labels) == FailureFor(Q, Run(P, Initial(P), limit).labels)
  {
    if Run(P, Initial(P), limit).Success? {
      RouteIsExecutable(P, limit);
      RouteIsExecutable(Q, limit);
    }
  }

  /** With ranked ports every request is answered once the limit exceeds the number of keys there can be. */
  lemma RankedRequestsAnswered(P: Problem, rank: string -> nat, limit: nat)
    requires WfProblem(P) && Ranked(P, rank) && limit > SearchBound(P)
    ensures PlanAnswer(P, limit).Answered?
  {
    hide SearchBound, Run, Ranked;
    if P.target !in P.known { RankedSearchEnds(P, rank, limit); }
  }
}
