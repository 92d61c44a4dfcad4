/** What the planner's numbers mean: the values a derivation can give, and the true values along a route. */
module PlanSound {
  import opened Wrappers
  import opened Reals
  import opened Intervals
  import opened Propagation
  import opened PlanModel
  import opened PlanLemmas
  import opened PlanOptimal
  import opened PlanRoute
  import opened CycleCheck
  import opened Planner
  import Names

  // ----- the sum surrogate over a box -----

  lemma {:induction false} SumAgrees(ks: seq<string>, m: map<string, real>, n: map<string, real>)
    requires forall k :: k in ks ==> k in m && k in n && m[k] == n[k]
    ensures Names.SumOver(ks, m) == Names.SumOver(ks, n)
  {
    if ks != [] { SumAgrees(ks[1..], m, n); }
  }

  function Lows(box: Box): map<string, real> {
    map p | p in box :: box[p].lo
  }

  function Highs(box: Box): map<string, real> {
    map p | p in box :: box[p].hi
  }

  /** Every value between the two end sums is the sum of some point. */
  lemma {:induction false} SumReaches(ks: seq<string>, box: Box, v: real) returns (x: Point)
    requires Names.Distinct(ks) && forall k :: k in ks ==> k in box && box[k].Valid()
    requires Names.SumOver(ks, Lows(box)) <= v <= Names.SumOver(ks, Highs(box))
    ensures x.Keys == (set k | k in ks) && (forall k :: k in x ==> k in box && box[k].Contains(x[k]))
    ensures Names.SumOver(ks, x) == v
  {
    if ks == [] {
      x := map[];
    } else {
      var k, rest := ks[0], ks[1..];
      DistinctTail(ks);
      Names.SumOverMonotone(rest, Lows(box), Highs(box));
      var first := FirstPart(box[k], Names.SumOver(rest, Lows(box)), Names.SumOver(rest, Highs(box)), v);
      var y := SumReaches(rest, box, v - first);
      x := y[k := first];
      hide Names.SumOver, Names.Distinct, Lows, Highs;
      SumOfOneMore(ks, x, y);
      assert forall q :: q in ks <==> q == k || q in rest by { assert ks == [k] + rest; }
    }
  }

  lemma DistinctTail(ks: seq<string>)
    requires ks != [] && Names.Distinct(ks)
    ensures Names.Distinct(ks[1..]) && ks[0] !in ks[1..]
  {
    assert forall i :: 0 <= i < |ks[1..]| ==> ks[1..][i] == ks[i + 1];
  }

  /** How much of `v` the first port takes, so that the others can make up the rest. */
  lemma FirstPart(iv: Interval, least: real, most: real, v: real) returns (first: real)
    requires iv.Valid() && least <= most && iv.lo + least <= v <= iv.hi + most
    ensures iv.Contains(first) && least <= v - first <= most
  {
    first := if v - most > iv.lo then v - most else iv.lo;
  }

  lemma SumOfOneMore(ks: seq<string>, x: Point, y: Point)
    requires ks != [] && ks[0] !in ks[1..] && (forall q :: q in ks[1..] ==> q in y)
    requires ks[0] in x && x == y[ks[0] := x[ks[0]]]
    ensures (forall q :: q in ks ==> q in x) && Names.SumOver(ks, x) == x[ks[0]] + Names.SumOver(ks[1..], y)
  {
    SumAgrees(ks[1..], x, y);
  }

  /** The surrogate's hull holds exactly the sums of the points of the box. */
  lemma SumHullIsExact(box: Box, v: real)
    requires forall p :: p in box ==> box[p].Valid()
    ensures SumHull(box).Contains(v) <==> exists x :: InBox(x, box) && Names.Sum(x) == v
  {
    if SumHull(box).Contains(v) { var x := PointOfSum(box, v); }
    hide SumHull, Names.Sum, InBox;
    if x :| InBox(x, box) && Names.Sum(x) == v { SumInHull(box, x); }
  }

  lemma SumInHull(box: Box, x: Point)
    requires InBox(x, box)
    ensures SumHull(box).Contains(Names.Sum(x))
  {
    assert Lows(box).Keys == box.Keys && Highs(box).Keys == box.Keys;
    hide Names.Sum;
    Names.SumMonotone(Lows(box), x);
    Names.SumMonotone(x, Highs(box));
  }

  lemma PointOfSum(box: Box, v: real) returns (x: Point)
    requires (forall p :: p in box ==> box[p].Valid()) && SumHull(box).Contains(v)
    ensures InBox(x, box) && Names.Sum(x) == v
  {
    Names.SortedDistinct(box.Keys);
    assert Lows(box).Keys == box.Keys && Highs(box).Keys == box.Keys;
    hide Names.SumOver;
    x := SumReaches(Names.Sorted(box.Keys), box, v);
    assert x.Keys == box.Keys;
  }

  // ----- what one application can give -----

  /** The error that the solver declares for output `o` where its inputs sum to `v`; an undeclared output is exact. */
  function Declared(s: Solver, o: string, v: real): real {
    if o in s.accuracy then s.accuracy[o].epsAbs + s.accuracy[o].epsRel * Abs(v) else 0.0
  }

  /** `y` is an output for the inputs `x`, up to the error declared for inputs `z`. */
  ghost predicate Gives(s: Solver, o: string, x: Point, z: Point, y: real) {
    Abs(y - Names.Sum(x)) <= Declared(s, o, Names.Sum(z))
  }

  /** The largest declared error over an interval, and that it is reached. */
  lemma WorstIsMaximum(s: Solver, o: string, iv: Interval) returns (worst: real)
    requires WfSolver(s) && iv.Valid()
    ensures iv.Contains(worst) && Declared(s, o, worst) == OutEps(s, o, iv)
    ensures forall v :: iv.Contains(v) ==> 0.0 <= Declared(s, o, v) <= OutEps(s, o, iv)
  {
    worst := iv.lo;
    if o in s.accuracy {
      var acc := s.accuracy[o];
      WorstOverIsMaximum(acc, iv);
      hide Abs, WfSolver;
      assert forall v :: Declared(s, o, v) == acc.Eps(v);
      hide Declared, Accuracy.Eps, Accuracy.WorstOver;
      worst :| iv.Contains(worst) && acc.Eps(worst) == acc.WorstOver(iv);
      forall v | iv.Contains(v) ensures 0.0 <= acc.Eps(v) { EpsMonotone(acc, v, v); }
    }
  }

  lemma GivenIsNear(s: Solver, o: string, box: Box, x: Point, z: Point, y: real)
    requires WfSolver(s) && (forall p :: p in box ==> box[p].Valid())
    requires InBox(x, box) && InBox(z, box) && Gives(s, o, x, z, y)
    ensures Near(SumHull(box), OutEps(s, o, SumHull(box)), y)
  {
    var iv := SumHull(box);
    SumHullValid(box);
    SumHullIsExact(box, Names.Sum(x));
    SumHullIsExact(box, Names.Sum(z));
    hide *;
    var worst := WorstIsMaximum(s, o, iv);
    NearBy(s, o, iv, x, z, y);
  }

  lemma NearBy(s: Solver, o: string, iv: Interval, x: Point, z: Point, y: real)
    requires Gives(s, o, x, z, y) && iv.Contains(Names.Sum(x)) && Declared(s, o, Names.Sum(z)) <= OutEps(s, o, iv)
    ensures Near(iv, OutEps(s, o, iv), y)
  {
    hide Declared, OutEps, Names.Sum;
  }

  lemma NearIsGiven(s: Solver, o: string, box: Box, y: real) returns (x: Point, z: Point)
    requires WfSolver(s) && (forall p :: p in box ==> box[p].Valid())
    requires Near(SumHull(box), OutEps(s, o, SumHull(box)), y)
    ensures InBox(x, box) && InBox(z, box) && Gives(s, o, x, z, y)
  {
    SumHullValid(box);
    hide *;
    var worst := WorstIsMaximum(s, o, SumHull(box));
    var v := PointNear(SumHull(box), OutEps(s, o, SumHull(box)), y);
    x := PointOfSum(box, v);
    z := PointOfSum(box, worst);
    GivesAt(s, o, x, z, y);
  }

  lemma PointNear(iv: Interval, eps: real, y: real) returns (x: real)
    requires Near(iv, eps, y)
    ensures iv.Contains(x) && Abs(y - x) <= eps
  {
    x :| iv.Contains(x) && Abs(y - x) <= eps;
  }

  lemma GivesAt(s: Solver, o: string, x: Point, z: Point, y: real)
    requires Abs(y - Names.Sum(x)) <= Declared(s, o, Names.Sum(z))
    ensures Gives(s, o, x, z, y)
  {
  }

  /** A consumer of output `o` sees exactly the values that the solver can give, over all inputs in the box and with
      the declared error at its largest there. */
  lemma OutPartIsExact(s: Solver, o: string, tie: TieKey, y: real)
    requires WfSolver(s) && WfKey(tie)
    ensures OutPart(s, o, tie).iv.Contains(y) <==>
            exists x, z :: InBox(x, Boxes(tie)) && InBox(z, Boxes(tie)) && Gives(s, o, x, z, y)
  {
    var box := Boxes(tie);
    var iv := SumHull(box);
    SumHullValid(box);
    assert OutPart(s, o, tie).iv == Inflate(iv, OutEps(s, o, iv));
    hide SumHull, OutEps, InBox, Inflate, Declared, OutPart, WfSolver, Gives, Near;
    var worst := WorstIsMaximum(s, o, iv);
    InflateIsLeast(iv, OutEps(s, o, iv), iv);
    if OutPart(s, o, tie).iv.Contains(y) {
      var x, z := NearIsGiven(s, o, box, y);
    }
    if x, z :| InBox(x, box) && InBox(z, box) && Gives(s, o, x, z, y) {
      GivenIsNear(s, o, box, x, z, y);
    }
  }

  // ----- what a derivation can give -----

  /** `y` is a value that derivation `t` can give its port. */
  ghost predicate Attains(P: Problem, t: Deriv, y: real)
    decreases t, 1
  {
    match t
    case Given(p) => p in P.known && P.known[p].lo <= y <= P.known[p].hi
    case Apply(idx, out, _) =>
      idx < |P.solvers| &&
      exists x, z :: AttainsAll(P, t, x) && AttainsAll(P, t, z) && Gives(P.solvers[idx], out, x, z, y)
  }

  /** Every input of `t` can have its value in `x`. */
  ghost predicate AttainsAll(P: Problem, t: Deriv, x: Point)
    requires t.Apply?
    decreases t, 0
  {
    x.Keys == t.inputs.Keys && forall p :: p in t.inputs ==> Attains(P, t.inputs[p], x[p])
  }

  /** Own cost and that of every input, a shared ancestor once per use. */
  ghost function TreeCost(P: Problem, t: Deriv): real {
    match t
    case Given(_) => 0.0
    case Apply(idx, _, inputs) =>
      (if idx < |P.solvers| then P.solvers[idx].cost else 0.0) +
      Names.Sum(map p | p in inputs :: TreeCost(P, inputs[p]))
  }

  /** A solver takes part in a request: two-sided, or conservative for the sense asked and giving the target itself. */
  ghost predicate TakesPart(P: Problem, s: Solver) {
    s.conservativeFor == Both || (s.conservativeFor == P.sense && P.target in s.outputs)
  }

  /** Every given port is known; every solver takes part, has all its inputs and its tags, and is declared for every
      value that its inputs can have. */
  ghost predicate Fits(P: Problem, t: Deriv) {
    match t
    case Given(p) => p in P.known
    case Apply(idx, out, inputs) =>
      && idx < |P.solvers| && TakesPart(P, P.solvers[idx]) && out in P.solvers[idx].outputs
      && inputs.Keys == (set p | p in P.solvers[idx].inputs)
      && (forall p :: p in inputs ==> Fits(P, inputs[p]) && inputs[p].Port() == p)
      && P.solvers[idx].domain.tags <= P.tags
      && forall p :: p in inputs && p in P.solvers[idx].domain.portBox ==>
           KeepsTo(P, inputs[p], P.solvers[idx].domain.portBox[p])
  }

  /** Every value that `t` can give is in the range. */
  ghost predicate KeepsTo(P: Problem, t: Deriv, range: Interval) {
    forall y :: Attains(P, t, y) ==> range.lo <= y <= range.hi
  }

  /** The planner's interval for a derivation holds exactly the values it can give, and its cost is the tree cost. */
  lemma {:induction false} WorthIsExact(P: Problem, t: Deriv)
    requires WfProblem(P) && Admissible(P, t)
    ensures Worth(P, t).iv.Valid() && forall y :: Worth(P, t).iv.Contains(y) <==> Attains(P, t, y)
    ensures Worth(P, t).cost == TreeCost(P, t)
    decreases t
  {
    WorthWf(P, t);
    match t
    case Given(p) =>
    case Apply(idx, out, inputs) =>
      forall p | p in inputs
        ensures Worth(P, inputs[p]).iv.Valid() && forall y :: Worth(P, inputs[p]).iv.Contains(y) <==>
                                                              Attains(P, inputs[p], y)
        ensures Worth(P, inputs[p]).cost == TreeCost(P, inputs[p])
      {
        WorthIsExact(P, inputs[p]);
      }
      hide Admissible, Attains, Worth, OutPart;
      ApplicationIsExact(P, t);
  }

  lemma ApplicationIsExact(P: Problem, t: Deriv)
    requires WfProblem(P) && t.Apply? && t.idx < |P.solvers| && WfKey(Worths(P, t))
    requires Worth(P, t) == OutPart(P.solvers[t.idx], t.out, Worths(P, t))
    requires forall p :: p in t.inputs ==> Worth(P, t.inputs[p]).cost == TreeCost(P, t.inputs[p])
    requires forall p :: p in t.inputs ==> forall y :: Worth(P, t.inputs[p]).iv.Contains(y) <==>
                                                       Attains(P, t.inputs[p], y)
    ensures forall y :: Worth(P, t).iv.Contains(y) <==> Attains(P, t, y)
    ensures Worth(P, t).cost == TreeCost(P, t)
  {
    var s, tie := P.solvers[t.idx], Worths(P, t);
    ApplicationCost(P, t);
    hide OutPart, Worth, OutCost, Names.Sum, TreeCost, WfKey;
    forall x ensures InBox(x, Boxes(tie)) <==> AttainsAll(P, t, x) { InputsAttained(P, t, x); }
    assert WfSolver(s);
    hide WfProblem, InBox, Gives, AttainsAll, Worths, WfSolver;
    forall y ensures Worth(P, t).iv.Contains(y) <==> Attains(P, t, y) { OutPartIsExact(s, t.out, tie, y); }
  }

  lemma ApplicationCost(P: Problem, t: Deriv)
    requires t.Apply? && t.idx < |P.solvers|
    requires Worth(P, t) == OutPart(P.solvers[t.idx], t.out, Worths(P, t))
    requires forall p :: p in t.inputs ==> Worth(P, t.inputs[p]).cost == TreeCost(P, t.inputs[p])
    ensures Worth(P, t).cost == TreeCost(P, t)
  {
    hide Names.Sum, SumHull, OutEps;
    assert Costs(Worths(P, t)) == map p | p in t.inputs :: TreeCost(P, t.inputs[p]);
  }

  lemma InputsAttained(P: Problem, t: Deriv, x: Point)
    requires t.Apply? && forall p :: p in t.inputs ==> forall y :: Worth(P, t.inputs[p]).iv.Contains(y) <==>
                                                                   Attains(P, t.inputs[p], y)
    ensures InBox(x, Boxes(Worths(P, t))) <==> AttainsAll(P, t, x)
  {
    hide Worth, Attains;
    var box := Boxes(Worths(P, t));
    assert box.Keys == t.inputs.Keys && forall p :: p in t.inputs ==> box[p] == Worth(P, t.inputs[p]).iv;
  }

  // ----- the same derivations, without the planner's intervals -----

  /** Planning admits exactly the derivations that fit. */
  lemma {:induction false} AdmissibleIffFits(P: Problem, t: Deriv)
    requires WfProblem(P)
    ensures Admissible(P, t) <==> Fits(P, t)
    decreases t
  {
    hide Attains, Worth, Worths, Admitted, KeepsTo, WfProblem;
    if t.Apply? && t.idx < |P.solvers| && t.inputs.Keys == (set p | p in P.solvers[t.idx].inputs) {
      forall p | p in t.inputs ensures Admissible(P, t.inputs[p]) <==> Fits(P, t.inputs[p]) {
        AdmissibleIffFits(P, t.inputs[p]);
      }
      if forall p :: p in t.inputs ==> Admissible(P, t.inputs[p]) { AdmittedIff(P, t); }
    }
  }

  /** A solver is admitted when its tags are met and each input it declares a range for keeps to that range. */
  lemma AdmittedIff(P: Problem, t: Deriv)
    requires WfProblem(P) && t.Apply? && t.idx < |P.solvers|
    requires t.inputs.Keys == (set p | p in P.solvers[t.idx].inputs)
    requires forall p :: p in t.inputs ==> Admissible(P, t.inputs[p])
    ensures var d := P.solvers[t.idx].domain;
            Admitted(P.solvers[t.idx], Worths(P, t), P.tags) <==>
            d.tags <= P.tags &&
            forall p :: p in t.inputs && p in d.portBox ==> KeepsTo(P, t.inputs[p], d.portBox[p])
  {
    hide Attains, Worth, Admissible, KeepsTo, Admitted, WfProblem, Interval.IsSubset;
    var s, tie := P.solvers[t.idx], Worths(P, t);
    assert tie.Keys == t.inputs.Keys;
    forall p | p in t.inputs && p in s.domain.portBox
      ensures tie[p].iv.IsSubset(s.domain.portBox[p]) <==> KeepsTo(P, t.inputs[p], s.domain.portBox[p])
    {
      KeepsToIff(P, t.inputs[p], s.domain.portBox[p]);
    }
    RangesKept(s, tie, P.tags);
  }

  lemma KeepsToIff(P: Problem, t: Deriv, range: Interval)
    requires WfProblem(P) && Admissible(P, t)
    ensures Worth(P, t).iv.IsSubset(range) <==> KeepsTo(P, t, range)
  {
    WorthIsExact(P, t);
    hide Attains, Worth, Admissible;
    SubsetIsPointwise(Worth(P, t).iv, range);
  }

  lemma RangesKept(s: Solver, tie: TieKey, tags: set<string>)
    requires tie.Keys == (set p | p in s.inputs)
    ensures Admitted(s, tie, tags) <==>
            s.domain.tags <= tags &&
            forall p :: p in tie && p in s.domain.portBox ==> tie[p].iv.IsSubset(s.domain.portBox[p])
  {
    hide Interval.IsSubset;
    var d := InputDomain(s);
    assert d.tags == s.domain.tags && forall p :: p in d.portBox <==> p in tie && p in s.domain.portBox;
    assert forall p :: p in tie ==> Boxes(tie)[p] == tie[p].iv;
  }

  /** All values that `t` can give are within `r` of one another's middle. */
  ghost predicate Within(P: Problem, t: Deriv, r: real) {
    forall y, z :: Attains(P, t, y) && Attains(P, t, z) ==> z - y <= 2.0 * r
  }

  lemma WithinIff(P: Problem, t: Deriv, r: real)
    requires WfProblem(P) && Admissible(P, t)
    ensures Worth(P, t).iv.HalfWidth() <= r <==> Within(P, t, r)
  {
    WorthIsExact(P, t);
    var iv := Worth(P, t).iv;
    hide Worth, Admissible, WfProblem, Attains;
    assert iv.Contains(iv.lo) && iv.Contains(iv.hi);
    assert iv.HalfWidth() <= r <==> iv.hi - iv.lo <= 2.0 * r;
    hide Interval.HalfWidth;
    if Within(P, t, r) {
      assert Attains(P, t, iv.lo) && Attains(P, t, iv.hi);
    } else {
      var y, z :| Attains(P, t, y) && Attains(P, t, z) && z - y > 2.0 * r;
      assert iv.Contains(y) && iv.Contains(z);
    }
  }

  /** `t` derives the target with an error of at most `r`. */
  ghost predicate Meets(P: Problem, t: Deriv, r: real) {
    Fits(P, t) && t.Port() == P.target && Within(P, t, r)
  }

  lemma MeetsIff(P: Problem, t: Deriv, r: real)
    requires WfProblem(P)
    ensures Meets(P, t, r) <==> Admissible(P, t) && t.Port() == P.target && Worth(P, t).iv.HalfWidth() <= r
    ensures Meets(P, t, r) ==> Worth(P, t).cost == TreeCost(P, t)
  {
    AdmissibleIffFits(P, t);
    if Admissible(P, t) {
      WithinIff(P, t, r);
      WorthIsExact(P, t);
    }
  }

  /** A cheapest derivation of the target within the budget, at an error of exactly `eps`. */
  ghost predicate BestPlan(P: Problem, t: Deriv, eps: real) {
    && Meets(P, t, P.budget) && (forall u :: Meets(P, u, P.budget) ==> TreeCost(P, t) <= TreeCost(P, u))
    && Meets(P, t, eps) && forall e :: Meets(P, t, e) ==> eps <= e
  }

  ghost predicate Unproduced(P: Problem) {
    P.target !in P.known && forall i :: 0 <= i < |P.solvers| ==> P.target !in P.solvers[i].outputs
  }

  /** What each answer says of the request, in terms of the values that derivations can give. No two of these
      conditions hold together, so each also decides the answer of a search that has ended. */
  ghost predicate AnswerMeans(P: Problem, a: Answer) {
    match a
    case Answered(Err(InvalidBudget)) => P.budget <= 0.0
    case Answered(Err(UnknownTarget(q))) => P.budget > 0.0 && Unproduced(P) && q == P.target
    case Answered(Err(CyclicPortEquivalence)) =>
      P.budget > 0.0 && P.target !in P.known && !Unproduced(P) && HasCycle(P.solvers)
    case Answered(Err(NoApplicableSolver)) => Searches(P) && !exists t :: Fits(P, t) && t.Port() == P.target
    case Answered(Err(BudgetUnreachable(best))) =>
      Searches(P) && best > P.budget && (exists t :: Meets(P, t, best)) && forall t, e :: Meets(P, t, e) ==> best <= e
    case Answered(Ok(r)) =>
      && P.budget > 0.0 && r.target == P.target
      && if P.target in P.known then r.steps == [] && r.predictedEps == 0.0 && r.totalCost == 0.0
         else
           && !HasCycle(P.solvers) && r.steps != [] && r.totalCost == CostSum(r.steps)
           && exists t :: BestPlan(P, t, r.predictedEps) && r.totalCost <= TreeCost(P, t)
    case Unfinished => Searches(P)
  }

  /** Every answer of the planner is the one its request calls for. */
  lemma PlanMeans(P: Problem, limit: nat)
    requires WfProblem(P)
    ensures AnswerMeans(P, PlanAnswer(P, limit))
  {
    hide WfProblem, HasCycle, Meets, Fits, Run, Initial, RouteOf, FailureFor, BestPlan;
    if Searches(P) {
      InitialInRange(P);
      match Run(P, Initial(P), limit)
      case StillSearching =>
      case Emptied(labels) => FailureSaid(P, limit, labels);
      case Success(_, _) => SuccessSaid(P, limit);
    }
  }

  lemma FailureSaid(P: Problem, limit: nat, labels: Labels)
    requires WfProblem(P) && Searches(P) && Run(P, Initial(P), limit) == Emptied(labels)
    ensures AnswerMeans(P, Answered(Err(FailureFor(P, labels))))
  {
    InitialInv(P);
    RunCorrect(P, Initial(P), 0.0, limit);
    assert Complete(P, labels);
    hide *;
    FailureMeans(P, labels);
    match FailureFor(P, labels)
    case NoApplicableSolver => NothingFits(P);
    case BudgetUnreachable(best) => LeastOfAll(P, best);
    case _ =>
  }

  lemma NothingFits(P: Problem)
    requires WfProblem(P) && Searches(P) && !exists w :: Derivable(P, P.target, w)
    ensures AnswerMeans(P, Answered(Err(NoApplicableSolver)))
  {
    hide WfProblem, Searches, Admissible, Worth, Fits;
    forall t | Fits(P, t) ensures t.Port() != P.target { FittingDerives(P, t); }
  }

  lemma FittingDerives(P: Problem, t: Deriv)
    requires WfProblem(P) && Fits(P, t)
    ensures Derivable(P, t.Port(), Worth(P, t))
  {
    AdmissibleIffFits(P, t);
    assert Derives(P, t, t.Port(), Worth(P, t));
  }

  lemma LeastOfAll(P: Problem, best: real)
    requires WfProblem(P) && Searches(P) && best > P.budget && LeastReachable(P, best)
    ensures AnswerMeans(P, Answered(Err(BudgetUnreachable(best))))
  {
    hide WfProblem, Searches, Admissible, Worth, Meets;
    var w :| Derivable(P, P.target, w) && w.iv.HalfWidth() == best;
    var t :| Derives(P, t, P.target, w);
    MeetsIff(P, t, best);
    forall u, e | Meets(P, u, e) ensures best <= e {
      MeetsIff(P, u, e);
      assert Derives(P, u, P.target, Worth(P, u));
    }
  }

  lemma SuccessSaid(P: Problem, limit: nat)
    requires WfProblem(P) && Searches(P) && Run(P, Initial(P), limit).Success?
    ensures AnswerMeans(P, Answered(Ok(RouteOf(P, limit))))
  {
    RouteIsExecutable(P, limit);
    InitialInv(P);
    RunCorrect(P, Initial(P), 0.0, limit);
    var w, arena := Run(P, Initial(P), limit).winner, Run(P, Initial(P), limit).arena;
    var r := RouteOf(P, limit);
    assert r == RouteFor(P, w, arena) && P.budget > 0.0 && P.target !in P.known && !HasCycle(P.solvers);
    hide Run, Inv, InvLabels, Initial, WfProblem, Runs, SomeProvides, WalkFrom, Worth, Admissible, Searches, HasCycle;
    var t := WinnerIsBest(P, w);
  }

  lemma WinnerIsBest(P: Problem, w: Label) returns (t: Deriv)
    requires WfProblem(P) && w.Error() <= P.budget && Derivable(P, P.target, w.Seen()) && Cheapest(P, w)
    ensures BestPlan(P, t, w.Error()) && TreeCost(P, t) == w.cost
  {
    hide WfProblem, Admissible, Worth, Meets, TreeCost;
    t :| Derives(P, t, P.target, w.Seen());
    TotalErrorIsInflatedHalfWidth(w.interval, w.eps, w.interval, w.eps);
    assert Worth(P, t).iv.HalfWidth() == w.Error();
    MeetsIff(P, t, P.budget);
    MeetsIff(P, t, w.Error());
    forall u | Meets(P, u, P.budget) ensures TreeCost(P, t) <= TreeCost(P, u) { MeetsIff(P, u, P.budget); }
    forall e | Meets(P, t, e) ensures w.Error() <= e { MeetsIff(P, t, e); }
  }

  // ----- true values along a route -----

  /** A state of the world: the true value of every port. */
  type World = string -> real

  ghost predicate KnownTrue(P: Problem, world: World) {
    forall p :: p in P.known ==> P.known[p].lo <= world(p) <= P.known[p].hi
  }

  function TrueInputs(step: RouteStep, world: World): Point {
    map p | p in step.realized.portBox :: world(p)
  }

  /** The step's law: each true output is within the declared error of the sum of the true inputs. */
  ghost predicate StepTrue(P: Problem, step: RouteStep, world: World) {
    forall i: nat, o :: i < |P.solvers| && P.solvers[i].id == step.solverId && o in P.solvers[i].outputs ==>
      Gives(P.solvers[i], o, TrueInputs(step, world), TrueInputs(step, world), world(o))
  }

  ghost predicate AllTrue(P: Problem, steps: seq<RouteStep>, world: World) {
    KnownTrue(P, world) && forall j :: 0 <= j < |steps| ==> StepTrue(P, steps[j], world)
  }

  /** Whatever a step of an executable plan offers holds the true value. */
  lemma {:induction false} StepHoldsTruth(P: Problem, steps: seq<RouteStep>, world: World, j: nat, q: string,
                                          iv: Interval)
    requires WfProblem(P) && AllTrue(P, steps, world) && forall k :: 0 <= k < |steps| ==> Runs(P, steps, k)
    requires j < |steps| && SomeProvides(P, steps[j], q, iv)
    ensures iv.Valid() && iv.Contains(world(q))
    decreases j
  {
    var step := steps[j];
    var box := step.realized.portBox;
    assert Runs(P, steps, j);
    var k: nat :| RunsAs(P, steps, j, k);
    hide WfProblem, AllTrue, Runs, SomeProvides, Provides;
    forall p | p in box ensures box[p].Valid() && box[p].Contains(world(p)) {
      assert SuppliedBefore(P, steps, j, p, box[p]);
      if m: nat :| m < j && SomeProvides(P, steps[m], p, box[p]) {
        StepHoldsTruth(P, steps, world, m, p, box[p]);
      } else {
        KnownHoldsTruth(P, steps, world, p);
      }
    }
    hide RunsAs;
    OfferHoldsTruth(P, steps, world, j, q, iv);
  }

  lemma KnownHoldsTruth(P: Problem, steps: seq<RouteStep>, world: World, p: string)
    requires WfProblem(P) && AllTrue(P, steps, world) && p in P.known
    ensures var iv := Inflate(P.known[p], 0.0); iv.Valid() && iv.Contains(world(p))
  {
  }

  lemma OfferHoldsTruth(P: Problem, steps: seq<RouteStep>, world: World, j: nat, q: string, iv: Interval)
    requires WfProblem(P) && AllTrue(P, steps, world) && j < |steps| && SomeProvides(P, steps[j], q, iv)
    requires var box := steps[j].realized.portBox;
             forall p :: p in box ==> box[p].Valid() && box[p].Contains(world(p))
    ensures iv.Valid() && iv.Contains(world(q))
  {
    var step := steps[j];
    var box := step.realized.portBox;
    var i: nat :| Provides(P, step, i, q, iv);
    var s, hull, x := P.solvers[i], SumHull(box), TrueInputs(step, world);
    assert WfSolver(s) && iv == Inflate(hull, OutEps(s, q, hull));
    assert StepTrue(P, step, world);
    assert Gives(s, q, x, x, world(q));
    assert InBox(x, box);
    SumHullValid(box);
    hide *;
    GivenIsNear(s, q, box, x, x, world(q));
    var worst := WorstIsMaximum(s, q, hull);
    assert OutEps(s, q, hull) >= 0.0;
    InflateIsLeast(hull, OutEps(s, q, hull), hull);
  }

  /** Some value that does not depend on the state of the world is within `r.predictedEps` of the target's true value in
      every state in which the known ports and the steps of the route are true. */
  ghost predicate Predicts(P: Problem, r: Route) {
    exists center :: PredictsFrom(P, r, center)
  }

  ghost predicate TruthNear(P: Problem, r: Route, center: real, world: World) {
    Abs(world(P.target) - center) <= r.predictedEps
  }

  ghost predicate PredictsFrom(P: Problem, r: Route, center: real) {
    forall world :: AllTrue(P, r.steps, world) ==> TruthNear(P, r, center, world)
  }

  lemma KnownPredictsIff(P: Problem, r: Route)
    requires WfProblem(P) && P.target in P.known && r.steps == [] && r.predictedEps == 0.0
    ensures Predicts(P, r) <==> P.known[P.target].lo == P.known[P.target].hi
  {
    var iv := P.known[P.target];
    if Predicts(P, r) {
      var center :| PredictsFrom(P, r, center);
      var low: World := p => if p in P.known then P.known[p].lo else 0.0;
      var high: World := p => if p in P.known then P.known[p].hi else 0.0;
      assert AllTrue(P, r.steps, low) && AllTrue(P, r.steps, high);
      assert low(P.target) == center == high(P.target);
    }
    if iv.lo == iv.hi {
      assert PredictsFrom(P, r, iv.lo);
    }
  }

  lemma RoutePredicts(P: Problem, r: Route)
    requires WfProblem(P) && GoodRoute(P, r)
    ensures Predicts(P, r)
  {
    hide *;
    var iv := LastInterval(P, r);
    var center := iv.Midpoint();
    forall world | AllTrue(P, r.steps, world) ensures TruthNear(P, r, center, world) {
      LastHoldsTruth(P, r, iv, world);
    }
    PredictsBy(P, r, center);
  }

  lemma LastHoldsTruth(P: Problem, r: Route, iv: Interval, world: World)
    requires WfProblem(P) && AllTrue(P, r.steps, world) && r.steps != [] && iv.HalfWidth() == r.predictedEps
    requires SomeProvides(P, r.steps[|r.steps| - 1], P.target, iv)
    requires forall k :: 0 <= k < |r.steps| ==> Runs(P, r.steps, k)
    ensures TruthNear(P, r, iv.Midpoint(), world)
  {
    hide *;
    StepHoldsTruth(P, r.steps, world, |r.steps| - 1, P.target, iv);
    NearMidpoint(iv, world(P.target));
    TruthNearBy(P, r, iv, world);
  }

  lemma TruthNearBy(P: Problem, r: Route, iv: Interval, world: World)
    requires Abs(world(P.target) - iv.Midpoint()) <= iv.HalfWidth() == r.predictedEps
    ensures TruthNear(P, r, iv.Midpoint(), world)
  {
  }

  lemma LastInterval(P: Problem, r: Route) returns (iv: Interval)
    requires GoodRoute(P, r)
    ensures r.steps != [] && iv.HalfWidth() == r.predictedEps
    ensures SomeProvides(P, r.steps[|r.steps| - 1], P.target, iv)
    ensures forall k :: 0 <= k < |r.steps| ==> Runs(P, r.steps, k)
  {
    hide Runs, SomeProvides, ReportsError, Derivable;
    iv :| iv.HalfWidth() == r.predictedEps && SomeProvides(P, r.steps[|r.steps| - 1], P.target, iv);
  }

  lemma PredictsBy(P: Problem, r: Route, center: real)
    requires forall world :: AllTrue(P, r.steps, world) ==> TruthNear(P, r, center, world)
    ensures Predicts(P, r)
  {
    hide AllTrue, TruthNear;
    assert PredictsFrom(P, r, center);
  }

  lemma NearMidpoint(iv: Interval, x: real)
    requires iv.Contains(x)
    ensures Abs(x - iv.Midpoint()) <= iv.HalfWidth()
  {
  }

  /** The predicted error of a route with steps is kept in every such state. The route without steps, for a target that
      is known already, claims an error of zero, which is right exactly when the known interval is a point. */
  lemma AnswerPredictsIff(P: Problem, limit: nat)
    requires WfProblem(P) && PlanAnswer(P, limit).Answered? && PlanAnswer(P, limit).result.Ok?
    ensures Predicts(P, PlanAnswer(P, limit).result.value) <==>
            P.target !in P.known || P.known[P.target].lo == P.known[P.target].hi
  {
    var r := PlanAnswer(P, limit).result.value;
    if P.target in P.known {
      KnownPredictsIff(P, r);
    } else {
      AnswerIsExact(P, limit);
      hide *;
      assert GoodRoute(P, r);
      RoutePredicts(P, r);
    }
  }
}
