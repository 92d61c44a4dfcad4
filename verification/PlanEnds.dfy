/** Exactly which registries let the search run for ever, and what the renaming check refuses. */
module PlanEnds {
  import opened Wrappers
  import opened Intervals
  import opened Propagation
  import opened PlanModel
  import opened PlanLemmas
  import opened PlanOptimal
  import opened PlanTermination
  import opened CycleCheck
  import opened Planner
  import opened PlanFeeds
  import opened PlanStage
  import opened PlanShared
  import Names

  // ----- values that grow without end -----

  /** Port `p` can be had exactly, at `v`. */
  ghost predicate PointAt(Q: Problem, p: string, v: real) {
    exists w :: Derivable(Q, p, w) && w.iv == Interval(v, v)
  }

  ghost predicate AtLeast(Q: Problem, p: string, v: real) {
    exists u :: u >= v && PointAt(Q, p, u)
  }

  /** A solver without a domain, exact but at the target, which it does not take; each port it takes can be had at one
      or more. */
  ghost predicate SteadySolver(Q: Problem, s: Solver) {
    && s.domain == Domain(map[], {})
    && (forall p :: p in s.inputs ==> p != Q.target && AtLeast(Q, p, 1.0))
    && (forall o :: o in s.outputs && o != Q.target ==> o !in s.accuracy)
    && (Q.target in s.outputs ==> Q.target in s.accuracy && s.accuracy[Q.target] == LOOSE)
  }

  /** All participating solvers are such, and the target is off by more than the budget. */
  ghost predicate Steady(Q: Problem) {
    && WfProblem(Q) && Q.target !in Q.known && Q.budget < 10.0
    && forall i :: 0 <= i < |Q.solvers| && Usable(Q, i) ==> SteadySolver(Q, Q.solvers[i])
  }

  function Points(vals: map<string, real>): Box {
    map p | p in vals :: Interval(vals[p], vals[p])
  }

  lemma PointHull(vals: map<string, real>)
    ensures SumHull(Points(vals)) == Interval(Names.Sum(vals), Names.Sum(vals))
  {
    var box := Points(vals);
    assert (map p | p in box :: box[p].lo) == vals && (map p | p in box :: box[p].hi) == vals;
  }

  lemma ExactOut(s: Solver, o: string, tie: TieKey, vals: map<string, real>)
    requires o !in s.accuracy && s.domain == Domain(map[], {}) && Boxes(tie) == Points(vals)
    ensures OutPart(s, o, tie).iv == Interval(Names.Sum(vals), Names.Sum(vals))
  {
    PointHull(vals);
    hide SumHull, Points, Boxes, Names.Sum;
  }

  lemma FreeAdmits(s: Solver, tie: TieKey, tags: set<string>)
    requires s.domain == Domain(map[], {})
    ensures Admitted(s, tie, tags)
  {
    assert InputDomain(s).portBox == map[];
    hide Boxes;
  }

  /** An exact solver applied to points gives the point of their sum. */
  lemma PointApplied(Q: Problem, i: nat, o: string, vals: map<string, real>)
    requires Makes(Q, i, o) && o !in Q.solvers[i].accuracy && Q.solvers[i].domain == Domain(map[], {})
    requires vals.Keys == (set p | p in Q.solvers[i].inputs) && forall p :: p in vals ==> PointAt(Q, p, vals[p])
    ensures PointAt(Q, o, Names.Sum(vals))
  {
    hide *;
    MakesMeans(Q, i, o);
    var tie := PointParts(Q, vals);
    FreeAdmits(Q.solvers[i], tie, Q.tags);
    ExactOut(Q.solvers[i], o, tie, vals);
    ApplyDerives(Q, i, o, tie);
    PointBy(Q, o, OutPart(Q.solvers[i], o, tie), Names.Sum(vals));
  }

  lemma PointParts(Q: Problem, vals: map<string, real>) returns (tie: TieKey)
    requires forall p :: p in vals ==> PointAt(Q, p, vals[p])
    ensures tie.Keys == vals.Keys && Boxes(tie) == Points(vals) && forall p :: p in tie ==> Derivable(Q, p, tie[p])
  {
    hide Derivable;
    tie := map p | p in vals :: var w :| Derivable(Q, p, w) && w.iv == Interval(vals[p], vals[p]); w;
  }

  lemma PointBy(Q: Problem, p: string, w: Part, v: real)
    requires Derivable(Q, p, w) && w.iv == Interval(v, v)
    ensures PointAt(Q, p, v)
  {
    hide Derivable;
  }

  /** A value of at least `v` at one input gives at least that, and one more if there is another input. */
  lemma AppliedAtLeast(Q: Problem, i: nat, o: string, r: string, v: real)
    requires Steady(Q) && Makes(Q, i, o) && o != Q.target && r in Q.solvers[i].inputs && AtLeast(Q, r, v)
    ensures AtLeast(Q, o, v) && (Joins(Q, i) ==> AtLeast(Q, o, v + 1.0))
  {
    hide *;
    MakesMeans(Q, i, o);
    SteadyMeans(Q, i);
    var vals := ChooseValues(Q, i, r, v);
    PointApplied(Q, i, o, vals);
    Names.SumBounds(vals[r := 0.0]);
    SumWithout(vals, r);
    AtLeastBy(Q, o, Names.Sum(vals), v);
    if Joins(Q, i) {
      var q := AnotherInput(Q, i, r);
      assert q in vals[r := 0.0] && vals[r := 0.0][q] >= 1.0;
      AtLeastBy(Q, o, Names.Sum(vals), v + 1.0);
    }
  }

  lemma SteadyMeans(Q: Problem, i: nat)
    requires Steady(Q) && i < |Q.solvers| && Usable(Q, i)
    ensures Q.solvers[i].domain == Domain(map[], {})
    ensures forall p :: p in Q.solvers[i].inputs ==> p != Q.target && AtLeast(Q, p, 1.0)
    ensures forall o :: o in Q.solvers[i].outputs && o != Q.target ==> o !in Q.solvers[i].accuracy
  {
    hide AtLeast, WfProblem;
    assert SteadySolver(Q, Q.solvers[i]);
  }

  lemma ChooseValues(Q: Problem, i: nat, r: string, v: real) returns (vals: map<string, real>)
    requires i < |Q.solvers| && AtLeast(Q, r, v)
    requires forall p :: p in Q.solvers[i].inputs ==> AtLeast(Q, p, 1.0)
    ensures vals.Keys == set p | p in Q.solvers[i].inputs
    ensures forall p :: p in vals ==> PointAt(Q, p, vals[p]) && vals[p] >= if p == r then v else 1.0
  {
    hide PointAt;
    vals := map p | p in Q.solvers[i].inputs :: var x: real :| x >= (if p == r then v else 1.0) && PointAt(Q, p, x); x;
  }

  lemma AnotherInput(Q: Problem, i: nat, r: string) returns (q: string)
    requires Joins(Q, i)
    ensures q in Q.solvers[i].inputs && q != r
  {
    q :| q in Q.solvers[i].inputs && q != r;
  }

  lemma AtLeastBy(Q: Problem, p: string, u: real, v: real)
    requires PointAt(Q, p, u) && u >= v
    ensures AtLeast(Q, p, v)
  {
    hide PointAt;
  }

  lemma SumWithout(m: map<string, real>, r: string)
    requires r in m
    ensures Names.Sum(m) == m[r] + Names.Sum(m[r := 0.0])
  {
    assert m[r := 0.0].Keys == m.Keys;
    Names.SortedDistinct(m.Keys);
    SumOverWithout(Names.Sorted(m.Keys), m, r);
  }

  lemma {:induction false} SumOverWithout(ks: seq<string>, m: map<string, real>, r: string)
    requires r in m && Names.Distinct(ks) && forall k :: k in ks ==> k in m
    ensures Names.SumOver(ks, m) == (if r in ks then m[r] else 0.0) + Names.SumOver(ks, m[r := 0.0])
  {
    if ks != [] {
      SumOverWithout(ks[1..], m, r);
      assert ks[0] == r ==> r !in ks[1..];
      assert r in ks <==> r == ks[0] || r in ks[1..];
    }
  }

  /** Whatever a join feeds can be had at one more than its inputs. */
  lemma {:induction false} ChainAdds(Q: Problem, chain: seq<nat>, p: string, v: real, x: string)
    requires Steady(Q) && FeedChain(Q, chain, x) && x != Q.target && Joins(Q, chain[0])
    requires p in Q.solvers[chain[0]].inputs && AtLeast(Q, p, v)
    ensures AtLeast(Q, x, v + 1.0)
    decreases |chain|
  {
    var n := |chain| - 1;
    assert Makes(Q, chain[n], x);
    hide AtLeast, Joins, WfProblem;
    if n == 0 {
      AppliedAtLeast(Q, chain[0], x, p, v);
    } else {
      var r := ShorterChain(Q, chain, x);
      assert SteadySolver(Q, Q.solvers[chain[n]]);
      ChainAdds(Q, chain[..n], p, v, r);
      AppliedAtLeast(Q, chain[n], x, r, v + 1.0);
    }
  }

  /** After `n` trips round, the port a join takes from itself can be had at more than `n`. */
  lemma {:induction false} Trips(Q: Problem, i: nat, p: string, n: nat)
    requires Steady(Q) && FeedsItself(Q, i, p)
    ensures AtLeast(Q, p, n as real + 1.0)
    decreases n
  {
    var chain :| FeedChain(Q, chain, p) && chain[0] == i;
    assert SteadySolver(Q, Q.solvers[i]);
    hide FeedChain, Steady, AtLeast, Joins;
    if n > 0 {
      Trips(Q, i, p, n - 1);
      ChainAdds(Q, chain, p, n as real, p);
    }
  }

  function HighestLo(ls: seq<Label>): (h: real)
    ensures forall l :: l in ls ==> l.Inflated().lo <= h
  {
    if ls == [] then 0.0
    else
      var h := HighestLo(ls[1..]);
      if ls[0].Inflated().lo > h then ls[0].Inflated().lo else h
  }

  /** So no finite label set covers all its derivations. */
  lemma NeverComplete(Q: Problem, labels: Labels)
    requires Steady(Q) && SelfFed(Q)
    ensures !Complete(Q, labels)
  {
    hide Complete, FeedsItself, Steady;
    if Complete(Q, labels) {
      var i, p :| FeedsItself(Q, i, p);
      var h := HighestLo(LabelsAt(labels, p));
      FarLabel(Q, labels, i, p, if h < 0.0 then 0 else h.Floor + 1);
    }
  }

  lemma FarLabel(Q: Problem, labels: Labels, i: nat, p: string, n: nat)
    requires Steady(Q) && FeedsItself(Q, i, p) && Complete(Q, labels)
    ensures exists l :: l in LabelsAt(labels, p) && l.Inflated().lo >= n as real + 1.0
  {
    hide Steady, FeedsItself, Admissible, Worth;
    Trips(Q, i, p, n);
    var v: real :| v >= n as real + 1.0 && PointAt(Q, p, v);
    var w :| Derivable(Q, p, w) && w.iv == Interval(v, v);
    var t :| Derives(Q, t, p, w);
    assert Covered(labels, p, w);
  }

  lemma LooseOutput(s: Solver, o: string, tie: TieKey)
    requires o in s.accuracy && s.accuracy[o] == LOOSE && WfKey(tie)
    ensures OutPart(s, o, tie).iv.HalfWidth() >= 10.0
  {
    SumHullValid(Boxes(tie));
    LooseEverywhere(SumHull(Boxes(tie)));
    hide SumHull;
  }

  lemma LooseEverywhere(iv: Interval)
    requires iv.Valid()
    ensures Inflate(iv, LOOSE.WorstOver(iv)).HalfWidth() >= 10.0
  {
    var acc := LOOSE;
    assert acc.WorstOver(iv) == 10.0;
  }

  lemma TargetLoose(Q: Problem, w: Part)
    requires Steady(Q) && Derivable(Q, Q.target, w)
    ensures w.iv.HalfWidth() >= 10.0
  {
    var t :| Derives(Q, t, Q.target, w);
    WorthWf(Q, t);
    assert SteadySolver(Q, Q.solvers[t.idx]);
    hide Admissible, Worth, OutPart, WfProblem;
    LooseOutput(Q.solvers[t.idx], Q.target, Worths(Q, t));
  }

  /** On such a request no number of turns is enough. */
  lemma NeverEnds(Q: Problem, limit: nat)
    requires Steady(Q) && SelfFed(Q)
    ensures Run(Q, Initial(Q), limit).StillSearching?
  {
    InitialInv(Q);
    RunCorrect(Q, Initial(Q), 0.0, limit);
    hide Run, Inv, Initial, SelfFed, Complete, Cheapest, Derivable;
    match Run(Q, Initial(Q), limit)
    case StillSearching =>
    case Emptied(labels) => NeverComplete(Q, labels);
    case Success(w, _) =>
      TargetLoose(Q, w.Seen());
      TotalErrorIsInflatedHalfWidth(w.interval, w.eps, w.interval, w.eps);
  }

  lemma NeverAnswered(Q: Problem, limit: nat)
    requires Steady(Q) && SelfFed(Q) && Searches(Q)
    ensures PlanAnswer(Q, limit) == Unfinished
  {
    NeverEnds(Q, limit);
    hide Run, SelfFed, SteadySolver;
  }

  // ----- exactly when the search always ends -----

  /** `P`'s registry with a direct solver from a new port `k` to a new port `t`, under `Q`'s target and sense. */
  function Extended(P: Problem, Q: Problem, k: string, id: string, t: string): Problem {
    WithDirect(P, k, id, t).(target := Q.target, sense := Q.sense)
  }

  /** A request that gets past the guards, over `P`'s solvers and the direct one; costs, accuracies, domains, known
      ports, target and budget are free. */
  ghost predicate Adds(P: Problem, Q: Problem, k: string, id: string, t: string) {
    WfProblem(Q) && Searches(Q) && SameShape(Extended(P, Q, k, id, t), Q)
  }

  ghost predicate NewNames(P: Problem, k: string, id: string, t: string) {
    Fresh(P, k, id) && Fresh(P, t, id) && k != t
  }

  ghost predicate Answers(Q: Problem, limit: nat)
    requires WfProblem(Q)
  {
    PlanAnswer(Q, limit).Answered?
  }

  /** A chain that ends in an old solver holds old solvers only. */
  lemma OldChain(P: Problem, Q: Problem, k: string, id: string, t: string, chain: seq<nat>, p: string)
    requires TwoSided(P) && NewNames(P, k, id, t) && SameShape(Extended(P, Q, k, id, t), Q)
    requires FeedChain(Q, chain, p) && chain[0] < |P.solvers|
    ensures FeedChain(P, chain, p)
  {
    forall n | 0 < n < |chain| ensures chain[n] < |P.solvers| { DirectOnlyFirst(P, Q, k, id, t, chain, p, n); }
    hide SameShape, NewNames;
    forall n | 0 <= n < |chain| ensures chain[n] < |P.solvers| && Usable(P, chain[n]) {
      OldSolver(P, Q, k, id, t, chain[n]);
    }
    forall n | 0 < n < |chain| ensures Hands(P, chain[n - 1], chain[n]) {
      assert Hands(Q, chain[n - 1], chain[n]);
      OldSolver(P, Q, k, id, t, chain[n - 1]);
      OldSolver(P, Q, k, id, t, chain[n]);
    }
    OldSolver(P, Q, k, id, t, chain[|chain| - 1]);
  }

  /** The direct solver makes no join feed itself. */
  lemma StillNotSelfFed(P: Problem, Q: Problem, k: string, id: string, t: string)
    requires TwoSided(P) && NewNames(P, k, id, t) && SameShape(Extended(P, Q, k, id, t), Q) && SelfFed(Q)
    ensures SelfFed(P)
  {
    var i, p :| FeedsItself(Q, i, p);
    var chain :| FeedChain(Q, chain, p) && chain[0] == i;
    OldSize(P, Q, k, id, t);
    OldSolver(P, Q, k, id, t, i);
    OldChain(P, Q, k, id, t, chain, p);
    assert FeedsItself(P, i, p);
  }

  // ----- the request that never ends -----

  /** Every port that `P`'s solvers take is known to be one; `t` is made from `k`, too loosely. */
  function Unending(P: Problem, k: string, id: string, t: string): Problem {
    var free := Domain(map[], {});
    P.(solvers := seq(|P.solvers|, i requires 0 <= i < |P.solvers| => Recast(P.solvers[i], 0.0, true, t)) +
                  [Recast(Direct(k, id, t), 0.0, false, t)],
       known := map p | p in Taken(P) + {k} :: Interval(1.0, 1.0), tags := {}, target := t, budget := 1.0)
  }

  /** The ports that some solver takes. */
  function Taken(P: Problem): set<string> {
    set i, p | 0 <= i < |P.solvers| && p in P.solvers[i].inputs :: p
  }

  lemma UnendingShape(P: Problem, k: string, id: string, t: string)
    ensures var Q := Unending(P, k, id, t); SameShape(Extended(P, Q, k, id, t), Q)
  {
  }

  lemma KnownAtOne(Q: Problem, p: string)
    requires p in Q.known && Q.known[p] == Interval(1.0, 1.0)
    ensures AtLeast(Q, p, 1.0)
  {
    assert Derives(Q, Given(p), p, Part(Interval(1.0, 1.0), 0.0));
    assert Derivable(Q, p, Part(Interval(1.0, 1.0), 0.0));
    assert PointAt(Q, p, 1.0);
  }

  lemma UnendingSteady(P: Problem, k: string, id: string, t: string)
    requires NewNames(P, k, id, t)
    ensures Steady(Unending(P, k, id, t))
  {
    var Q := Unending(P, k, id, t);
    hide AtLeast;
    forall i | 0 <= i < |Q.solvers| && Usable(Q, i) ensures SteadySolver(Q, Q.solvers[i]) {
      forall p | p in Q.solvers[i].inputs ensures p != t && AtLeast(Q, p, 1.0) {
        assert i < |P.solvers| ==> p in P.solvers[i].inputs;
        KnownAtOne(Q, p);
      }
    }
  }

  lemma UnendingSelfFed(P: Problem, k: string, id: string, t: string)
    requires TwoSided(P) && SelfFed(P)
    ensures SelfFed(Unending(P, k, id, t))
  {
    var Q := Unending(P, k, id, t);
    var i, p :| FeedsItself(P, i, p);
    UnendingShape(P, k, id, t);
    hide Feeds;
    KeptFeeder(P, k, id, t, i, p);
    assert WithDirect(P, k, id, t).sense == Extended(P, Q, k, id, t).sense;
    assert WithDirect(P, k, id, t) == Extended(P, Q, k, id, t);
    SameFeeds(Extended(P, Q, k, id, t), Q, i, p);
    assert FeedsItself(Q, i, p);
  }

  /** The direct solver is on no renaming cycle: nothing takes what it makes. */
  lemma DirectNotOnCycle(P: Problem, Q: Problem, k: string, id: string, t: string)
    requires NewNames(P, k, id, t) && SameShape(Extended(P, Q, k, id, t), Q) && HasCycle(Q.solvers)
    ensures HasCycle(P.solvers)
  {
    var path :| IsCycle(Q.solvers, path);
    forall m | 0 <= m < |path| - 1 ensures Renames(P.solvers, path[m], path[m + 1]) {
      assert Renames(Q.solvers, path[m], path[m + 1]);
      assert Renames(Q.solvers, path[0], path[1]);
      if m + 2 < |path| { assert Renames(Q.solvers, path[m + 1], path[m + 2]); }
      var next := if m + 2 < |path| then path[m + 2] else path[1];
      assert Renames(Q.solvers, path[m + 1], next);
      NothingRenamesT(P, Q, k, id, t, path[m + 1], next);
      OldRenaming(P, Q, k, id, t, path[m], path[m + 1]);
    }
    assert IsCycle(P.solvers, path);
  }

  lemma NothingRenamesT(P: Problem, Q: Problem, k: string, id: string, t: string, a: string, b: string)
    requires NewNames(P, k, id, t) && SameShape(Extended(P, Q, k, id, t), Q) && Renames(Q.solvers, a, b)
    ensures a != t
  {
    var R := Extended(P, Q, k, id, t);
    var s :| s in Q.solvers && |s.inputs| == 1 && |s.outputs| == 1 && s.inputs[0] == a && s.outputs[0] == b;
    var i: nat :| i < |Q.solvers| && Q.solvers[i] == s;
    assert SameSolver(R.solvers[i], Q.solvers[i]);
    assert R.solvers[i] == if i < |P.solvers| then P.solvers[i] else Direct(k, id, t);
    assert a in s.inputs;
  }

  lemma OldRenaming(P: Problem, Q: Problem, k: string, id: string, t: string, a: string, b: string)
    requires SameShape(Extended(P, Q, k, id, t), Q) && Renames(Q.solvers, a, b) && b != t
    ensures Renames(P.solvers, a, b)
  {
    var R := Extended(P, Q, k, id, t);
    var s :| s in Q.solvers && |s.inputs| == 1 && |s.outputs| == 1 && s.inputs[0] == a && s.outputs[0] == b;
    var i: nat :| i < |Q.solvers| && Q.solvers[i] == s;
    assert SameSolver(R.solvers[i], Q.solvers[i]);
    assert R.solvers[i] == if i < |P.solvers| then P.solvers[i] else Direct(k, id, t);
    assert i < |P.solvers| && P.solvers[i] in P.solvers;
  }

  lemma UnendingSearches(P: Problem, k: string, id: string, t: string)
    requires NewNames(P, k, id, t) && !HasCycle(P.solvers)
    ensures Searches(Unending(P, k, id, t))
  {
    var Q := Unending(P, k, id, t);
    UnendingShape(P, k, id, t);
    assert Q.target in Q.solvers[|P.solvers|].outputs;
    assert t !in Taken(P) + {k};
    hide HasCycle, SameShape;
    if HasCycle(Q.solvers) { DirectNotOnCycle(P, Q, k, id, t); }
  }

  /** Where a join feeds itself there is a request that is never answered. */
  lemma SomeRequestUnanswered(P: Problem, k: string, id: string, t: string, limit: nat)
    requires TwoSided(P) && !HasCycle(P.solvers) && NewNames(P, k, id, t) && SelfFed(P)
    ensures Adds(P, Unending(P, k, id, t), k, id, t) && PlanAnswer(Unending(P, k, id, t), limit) == Unfinished
  {
    UnendingShape(P, k, id, t);
    UnendingSteady(P, k, id, t);
    UnendingSelfFed(P, k, id, t);
    UnendingSearches(P, k, id, t);
    hide Unending, SelfFed, HasCycle, SameShape, SteadySolver, PlanAnswer;
    NeverAnswered(Unending(P, k, id, t), limit);
  }

  /** Where none does, every request is answered once the limit exceeds the number of keys there can be. */
  lemma AnsweredInTime(Q: Problem, limit: nat)
    requires WfProblem(Q) && !SelfFed(Q) && limit > SearchBound(Q)
    ensures PlanAnswer(Q, limit).Answered?
  {
    hide SearchBound, Run, SelfFed;
    if Q.target !in Q.known { SearchEnds(Q, limit); }
  }

  /** Over a registry of two-sided solvers without renaming cycles, every request with one more direct solver that gets
      past the guards is answered if and only if no join feeds one of its own inputs. */
  lemma AlwaysAnsweredIff(P: Problem, k: string, id: string, t: string)
    requires TwoSided(P) && !HasCycle(P.solvers) && NewNames(P, k, id, t)
    ensures !SelfFed(P) <==> forall Q :: Adds(P, Q, k, id, t) ==> exists limit :: Answers(Q, limit)
  {
    hide TwoSided, HasCycle, NewNames, SelfFed, WfProblem, Searches, SameShape, PlanAnswer, SearchBound;
    if !SelfFed(P) {
      forall Q | Adds(P, Q, k, id, t) ensures exists limit :: Answers(Q, limit) {
        if SelfFed(Q) { StillNotSelfFed(P, Q, k, id, t); }
        AnsweredInTime(Q, SearchBound(Q) + 1);
        assert Answers(Q, SearchBound(Q) + 1);
      }
    } else {
      var Q := Unending(P, k, id, t);
      SomeRequestUnanswered(P, k, id, t, 0);
      forall limit ensures !Answers(Q, limit) { SomeRequestUnanswered(P, k, id, t, limit); }
    }
  }

  // ----- two solvers that feed each other -----

  /** Two two-input solvers in a loop with no box on those ports, and a target that is never tight enough. */
  function Loop(before: (TieKey, TieKey) -> bool): Problem {
    var free := Domain(map[], {});
    Problem([Solver("a", ["x", "z"], ["y"], free, 1.0, map[], Both),
             Solver("b", ["y", "z"], ["x"], free, 1.0, map[], Both),
             Solver("c", ["x"], ["t"], free, 1.0, map["t" := LOOSE], Both)],
            map["x" := Interval(1.0, 1.0), "z" := Interval(1.0, 1.0)], {}, "t", 1.0, Both, before)
  }

  /** The request gets past the guards, and no number of turns answers it. */
  lemma LoopNeverEnds(before: (TieKey, TieKey) -> bool)
    ensures Searches(Loop(before)) && Endless(Loop(before))
  {
    LoopSteady(before);
    LoopSelfFed(before);
    LoopSearches(before);
    var Q := Loop(before);
    hide *;
    SteadyEndless(Q);
  }

  /** However many turns it is given, the search goes on and the planner has no answer. */
  ghost predicate Endless(Q: Problem) {
    && WfProblem(Q) && InRange(Q, Initial(Q).frontier.queue)
    && (forall limit :: Run(Q, Initial(Q), limit).StillSearching?)
    && (forall limit :: PlanAnswer(Q, limit) == Unfinished)
  }

  lemma SteadyEndless(Q: Problem)
    requires Steady(Q) && SelfFed(Q) && Searches(Q)
    ensures Endless(Q)
  {
    hide SteadySolver, SelfFed, Run, PlanAnswer, Searches;
    InitialInRange(Q);
    forall limit ensures Run(Q, Initial(Q), limit).StillSearching? { NeverEnds(Q, limit); }
    forall limit ensures PlanAnswer(Q, limit) == Unfinished { NeverAnswered(Q, limit); }
  }

  lemma LoopSteady(before: (TieKey, TieKey) -> bool)
    ensures Steady(Loop(before))
  {
    var Q := Loop(before);
    KnownAtOne(Q, "x");
    KnownAtOne(Q, "z");
    YAtTwo(before);
    LoopSolvers(before);
    hide AtLeast, Loop;
    forall i | 0 <= i < |Q.solvers| && Usable(Q, i) ensures SteadySolver(Q, Q.solvers[i]) {
      if i < 2 { SteadyInside(Q, Q.solvers[i]); } else { SteadyLast(Q, Q.solvers[i]); }
    }
  }

  lemma LoopSolvers(before: (TieKey, TieKey) -> bool)
    ensures var Q := Loop(before);
            && WfProblem(Q) && Q.target == "t" && Q.target !in Q.known && Q.budget == 1.0 && |Q.solvers| == 3
            && (forall i :: 0 <= i < 3 ==> Q.solvers[i].domain == Domain(map[], {}))
            && (forall i, p :: 0 <= i < 3 && p in Q.solvers[i].inputs ==> p == "x" || p == "y" || p == "z")
            && (forall i :: 0 <= i < 2 ==> Q.solvers[i].accuracy == map[] && "t" !in Q.solvers[i].outputs)
            && Q.solvers[2].outputs == ["t"] && Q.solvers[2].accuracy == map["t" := LOOSE]
  {
  }

  lemma SteadyInside(Q: Problem, s: Solver)
    requires Q.target == "t" && AtLeast(Q, "x", 1.0) && AtLeast(Q, "y", 1.0) && AtLeast(Q, "z", 1.0)
    requires s.domain == Domain(map[], {}) && s.accuracy == map[] && "t" !in s.outputs
    requires forall p :: p in s.inputs ==> p == "x" || p == "y" || p == "z"
    ensures SteadySolver(Q, s)
  {
    hide AtLeast;
  }

  lemma SteadyLast(Q: Problem, s: Solver)
    requires Q.target == "t" && AtLeast(Q, "x", 1.0) && AtLeast(Q, "y", 1.0) && AtLeast(Q, "z", 1.0)
    requires s.domain == Domain(map[], {}) && s.accuracy == map["t" := LOOSE] && s.outputs == ["t"]
    requires forall p :: p in s.inputs ==> p == "x" || p == "y" || p == "z"
    ensures SteadySolver(Q, s)
  {
    hide AtLeast;
  }

  lemma YAtTwo(before: (TieKey, TieKey) -> bool)
    ensures AtLeast(Loop(before), "y", 1.0)
  {
    var Q := Loop(before);
    LoopMakes(before);
    OneAt(Q, "x");
    OneAt(Q, "z");
    hide *;
    OnesApplied(Q, 0, "y", "x");
  }

  /** An exact solver that can be had all its inputs at one gives at least one. */
  lemma OnesApplied(Q: Problem, i: nat, o: string, r: string)
    requires Makes(Q, i, o) && o !in Q.solvers[i].accuracy && Q.solvers[i].domain == Domain(map[], {})
    requires r in Q.solvers[i].inputs && forall p :: p in Q.solvers[i].inputs ==> PointAt(Q, p, 1.0)
    ensures AtLeast(Q, o, 1.0)
  {
    hide PointAt, Names.Sum;
    var vals := map p | p in Q.solvers[i].inputs :: 1.0;
    PointApplied(Q, i, o, vals);
    Names.SumBounds(vals);
    assert vals[r] == 1.0;
    AtLeastBy(Q, o, Names.Sum(vals), 1.0);
  }

  lemma OneAt(Q: Problem, p: string)
    requires p in Q.known && Q.known[p] == Interval(1.0, 1.0)
    ensures PointAt(Q, p, 1.0)
  {
    assert Derives(Q, Given(p), p, Part(Interval(1.0, 1.0), 0.0));
    assert Derivable(Q, p, Part(Interval(1.0, 1.0), 0.0));
  }

  lemma LoopMakes(before: (TieKey, TieKey) -> bool)
    ensures var Q := Loop(before);
            && Makes(Q, 0, "y") && Makes(Q, 1, "x") && Q.solvers[0].accuracy == map[]
            && Q.solvers[0].domain == Domain(map[], {})
            && (forall p :: p in Q.solvers[0].inputs ==> p == "x" || p == "z")
            && "x" in Q.solvers[0].inputs && "y" in Q.solvers[1].inputs && Joins(Q, 0)
            && (forall p :: p == "x" || p == "z" ==> p in Q.known && Q.known[p] == Interval(1.0, 1.0))
  {
    assert "x" in ["x", "z"] && "z" in ["x", "z"] && "x" != "z";
  }

  lemma LoopSelfFed(before: (TieKey, TieKey) -> bool)
    ensures SelfFed(Loop(before))
  {
    var Q := Loop(before);
    LoopMakes(before);
    hide Loop, Feeds, Makes, Joins;
    MakerFeeds(Q, 0, "y");
    FeedsOn(Q, 0, "y", 1, "x");
    assert FeedsItself(Q, 0, "x");
  }

  lemma LoopSearches(before: (TieKey, TieKey) -> bool)
    ensures Searches(Loop(before))
  {
    var Q := Loop(before);
    assert Q.target in Q.solvers[2].outputs;
    assert Topological(Q.solvers, map["x" := 1, "t" := 0]);
    TopologicalIsAcyclic(Q.solvers, map["x" := 1, "t" := 0]);
  }

  // ----- what the renaming check refuses -----

  /** A search that ends succeeds exactly when some admissible derivation meets the budget, whatever the guards say. */
  lemma RunSucceedsIff(P: Problem, limit: nat)
    requires WfProblem(P) && P.target !in P.known && !Run(P, Initial(P), limit).StillSearching?
    ensures Run(P, Initial(P), limit).Success? <==> Reachable(P)
  {
    InitialInv(P);
    RunCorrect(P, Initial(P), 0.0, limit);
    hide Run, Inv, Initial, WfProblem, Complete, Cheapest, Derivable;
    match Run(P, Initial(P), limit)
    case Success(w, _) => TotalErrorIsInflatedHalfWidth(w.interval, w.eps, w.interval, w.eps);
    case Emptied(labels) => EmptiedMisses(P, labels);
  }

  lemma EmptiedMisses(P: Problem, labels: Labels)
    requires WfProblem(P) && Complete(P, labels)
    ensures !Reachable(P)
  {
    hide WfProblem, Complete, Derivable;
    FailureIsExact(P, labels);
  }

  /** Renamings are always dominated by what they rename, so a cycle of them does not keep the search from ending: where
      no join feeds itself the refused search would end, and find a route exactly when some derivation meets the
      budget. */
  lemma RefusedSearchEnds(P: Problem, limit: nat)
    requires WfProblem(P) && !SelfFed(P) && P.budget > 0.0 && P.target !in P.known && Producible(P)
    requires HasCycle(P.solvers) && limit > SearchBound(P)
    ensures PlanAnswer(P, limit) == Answered(Err(CyclicPortEquivalence))
    ensures !Run(P, Initial(P), limit).StillSearching?
    ensures Run(P, Initial(P), limit).Success? <==> Reachable(P)
  {
    hide Run, SelfFed, SearchBound, HasCycle, Reachable;
    SearchEnds(P, limit);
    RunSucceedsIff(P, limit);
  }

  /** Two solvers that rename `x` to `y` and back. */
  function Renamer(x: string, y: string, before: (TieKey, TieKey) -> bool): Problem {
    var free := Domain(map[], {});
    Problem([Solver(x, [x], [y], free, 0.0, map[], Both), Solver(y, [y], [x], free, 0.0, map[], Both)],
            map[x := ORIGIN], {}, y, 1.0, Both, before)
  }

  /** The check refuses this request although one step makes the target within the budget. */
  lemma RenamerRefused(x: string, y: string, before: (TieKey, TieKey) -> bool, limit: nat)
    requires x != y
    ensures var P := Renamer(x, y, before);
            && WfProblem(P) && !SelfFed(P) && Reachable(P)
            && PlanAnswer(P, limit) == Answered(Err(CyclicPortEquivalence))
            && (limit > SearchBound(P) ==> Run(P, Initial(P), limit).Success?)
  {
    hide *;
    var P := Renamer(x, y, before);
    RenamerCycle(x, y, before);
    RenamerReaches(x, y, before);
    RenamerPlain(x, y, before);
    RefusedAnswer(P, limit);
    if limit > SearchBound(P) { RefusedSearchEnds(P, limit); }
  }

  lemma RefusedAnswer(P: Problem, limit: nat)
    requires WfProblem(P) && P.budget > 0.0 && P.target !in P.known && Producible(P) && HasCycle(P.solvers)
    ensures PlanAnswer(P, limit) == Answered(Err(CyclicPortEquivalence))
    ensures InRange(P, Initial(P).frontier.queue)
  {
    InitialInRange(P);
    hide Run, HasCycle;
  }

  lemma RenamerPlain(x: string, y: string, before: (TieKey, TieKey) -> bool)
    requires x != y
    ensures var P := Renamer(x, y, before);
            WfProblem(P) && !SelfFed(P) && P.budget > 0.0 && P.target !in P.known && Producible(P)
  {
    var P := Renamer(x, y, before);
    assert P.target in P.solvers[0].outputs;
    hide Feeds;
    if i, p :| FeedsItself(P, i, p) { OneTaken(P, i); }
  }

  lemma OneTaken(P: Problem, i: nat)
    requires i < |P.solvers| && |P.solvers[i].inputs| == 1
    ensures !Joins(P, i)
  {
  }

  lemma RenamerCycle(x: string, y: string, before: (TieKey, TieKey) -> bool)
    ensures HasCycle(Renamer(x, y, before).solvers)
  {
    var solvers := Renamer(x, y, before).solvers;
    assert solvers[0] in solvers && solvers[1] in solvers;
    assert Renames(solvers, x, y) && Renames(solvers, y, x);
    var path := [x, y, x];
    forall m | 0 <= m < 2 ensures Renames(solvers, path[m], path[m + 1]) {}
    assert IsCycle(solvers, path);
  }

  lemma RenamerReaches(x: string, y: string, before: (TieKey, TieKey) -> bool)
    requires x != y
    ensures Reachable(Renamer(x, y, before))
  {
    var P := Renamer(x, y, before);
    var tie: TieKey := map[x := Part(ORIGIN, 0.0)];
    assert Derives(P, Given(x), x, tie[x]);
    assert (set p | p in [x]) == {x} == tie.Keys;
    FreeAdmits(P.solvers[0], tie, {});
    ApplyDerives(P, 0, y, tie);
    OutOfOrigin(P.solvers[0], y, x, tie);
    OriginIsExact();
  }

  lemma OutOfOrigin(s: Solver, o: string, p: string, tie: TieKey)
    requires s.accuracy == map[] && tie.Keys == {p} && tie[p].iv == ORIGIN
    ensures OutPart(s, o, tie).iv == ORIGIN
  {
    ZeroHull(Boxes(tie));
  }
}
