/** The planner as it runs: the mutable search state, the route walk, and `Plan`. */
module PlanSearch {
  import opened Wrappers
  import opened Intervals
  import opened Propagation
  import opened PlanModel
  import opened PlanLemmas
  import opened PlanOptimal
  import opened PlanRoute
  import CycleCheck
  import Names

  // ----- the sum surrogate through the corner sweep -----

  function Surrogate(outputs: seq<string>): Point -> Result<Point, ()> {
    (corner: Point) => Ok(map o | o in outputs :: Names.Sum(corner))
  }

  lemma CornerSumBounds(box: Box, c: Point)
    requires IsCorner(c, box) && forall p :: p in box ==> box[p].Valid()
    ensures SumHull(box).Contains(Names.Sum(c))
  {
    Names.SumMonotone(map p | p in box :: box[p].lo, c);
    Names.SumMonotone(c, map p | p in box :: box[p].hi);
  }

  /** `cs` lists exactly the corners of `box`. */
  ghost predicate ListsCorners(cs: seq<Point>, box: Box) {
    forall c :: c in cs <==> IsCorner(c, box)
  }

  /** Sweeping the sum surrogate over a box gives the sum of the lower ends and the sum of the upper ends. */
  lemma SweptSum(box: Box, outputs: seq<string>, r: Result<Box, ()>, o: string)
    requires (forall p :: p in box ==> box[p].Valid()) && o in outputs
    requires SweepOutcome(Corners(Names.Sorted(box.Keys), box), Surrogate(outputs), r)
    ensures r.Ok? && o in r.value && r.value[o] == SumHull(box)
  {
    hide Corners, IsCorner, HullFold, SumHull, Values;
    SweepFailsIff(box, Surrogate(outputs), r);
    CornersOfBox(box);
    SweptCorners(Corners(Names.Sorted(box.Keys), box), box, outputs, r.value, o);
  }

  lemma SweptCorners(cs: seq<Point>, box: Box, outputs: seq<string>, hull: Box, o: string)
    requires ListsCorners(cs, box) && o in outputs && (forall d :: d in cs ==> Surrogate(outputs)(d).Ok?)
    requires (forall p :: p in box ==> box[p].Valid()) && hull == HullFold(Values(cs, Surrogate(outputs)))
    ensures o in hull && hull[o] == SumHull(box)
  {
    hide ListsCorners, HullFold, SumHull, Values, Surrogate, Reported;
    HullFoldIsHull(Values(cs, Surrogate(outputs)));
    EndReported(cs, box, outputs, o, map p | p in box :: box[p].lo);
    EndReported(cs, box, outputs, o, map p | p in box :: box[p].hi);
    SumHullEnds(box);
    ReportedInSum(cs, box, outputs, o, hull[o].lo);
    ReportedInSum(cs, box, outputs, o, hull[o].hi);
  }

  lemma SumHullEnds(box: Box)
    requires forall p :: p in box ==> box[p].Valid()
    ensures IsCorner(map p | p in box :: box[p].lo, box) && IsCorner(map p | p in box :: box[p].hi, box)
    ensures SumHull(box).lo == Names.Sum(map p | p in box :: box[p].lo)
    ensures SumHull(box).hi == Names.Sum(map p | p in box :: box[p].hi)
  {
  }

  lemma EndReported(cs: seq<Point>, box: Box, outputs: seq<string>, o: string, c: Point)
    requires ListsCorners(cs, box) && o in outputs && (forall d :: d in cs ==> Surrogate(outputs)(d).Ok?)
    requires forall p :: p in box ==> box[p].Valid()
    requires c == (map p | p in box :: box[p].lo) || c == map p | p in box :: box[p].hi
    ensures Reported(Values(cs, Surrogate(outputs)), o, Names.Sum(c))
  {
    SumHullEnds(box);
    var vs := Values(cs, Surrogate(outputs));
    assert c in cs;
    var i: nat :| i < |cs| && cs[i] == c;
    assert vs[i] in vs && Reports(vs[i], o, Names.Sum(c));
  }

  /** Every reported value of the surrogate is the sum of some corner. */
  lemma ReportedInSum(cs: seq<Point>, box: Box, outputs: seq<string>, o: string, v: real)
    requires ListsCorners(cs, box) && (forall d :: d in cs ==> Surrogate(outputs)(d).Ok?)
    requires forall p :: p in box ==> box[p].Valid()
    requires Reported(Values(cs, Surrogate(outputs)), o, v)
    ensures SumHull(box).Contains(v)
  {
    hide IsCorner, SumHull;
    var vs := Values(cs, Surrogate(outputs));
    var r :| r in vs && Reports(r, o, v);
    var i: nat :| i < |vs| && vs[i] == r;
    assert cs[i] in cs;
    CornerSumBounds(box, cs[i]);
  }

  // ----- the search state -----

  /** Every queued candidate is well formed once the frontier is refilled. */
  lemma RefilledWf(P: Problem, S: State, clock: real)
    requires WfProblem(P) && Inv(P, S, clock)
    ensures forall c :: c in Regenerate(P, S.labels, S.frontier).queue ==> WfKey(c.tie)
  {
    RefillKeepsInv(P, S, clock);
    forall c | c in Regenerate(P, S.labels, S.frontier).queue ensures WfKey(c.tie) {
      assert WfCandidate(P, c);
      forall p | p in c.tie ensures WfPart(c.tie[p]) { DerivableWf(P, p, c.inputs[p].Seen()); }
    }
  }

  class SearchState {
    var labels: Labels
    var queue: seq<Candidate>
    var pushed: set<Key>
    var arena: seq<StepNode>

    /** The state as a value. */
    function Snap(): State
      reads this
    {
      State(labels, Frontier(queue, pushed), arena)
    }

    /** Known ports start with one label each. */
    constructor (P: Problem)
      ensures Snap() == Initial(P)
    {
      labels := map p | p in P.known :: [KnownLabel(P.known[p])];
      queue, pushed, arena := [], {}, [];
    }

    /** The product of the current label sets over a solver's inputs. */
    method CombosFor(inputs: seq<string>) returns (acc: seq<map<string, Label>>)
      ensures acc == Combos(inputs, labels)
    {
      acc := [map[]];
      for i := 0 to |inputs|
        invariant CombosFrom(acc, inputs, i, labels) == Combos(inputs, labels)
      {
        if inputs[i] !in labels || labels[inputs[i]] == [] {
          return [];
        }
        var choices := labels[inputs[i]];
        var next: seq<map<string, Label>> := [];
        for k := 0 to |acc|
          invariant next + ExtendChoice(acc, k, inputs[i], choices) == ExtendChoice(acc, 0, inputs[i], choices)
        {
          var row := ExtendCombo(acc[k], inputs[i], choices);
          assert (next + row) + ExtendChoice(acc, k + 1, inputs[i], choices) ==
                 next + (row + ExtendChoice(acc, k + 1, inputs[i], choices));
          next := next + row;
        }
        assert next == next + ExtendChoice(acc, |acc|, inputs[i], choices);
        assert CombosFrom(acc, inputs, i, labels) == CombosFrom(next, inputs, i + 1, labels);
        acc := next;
      }
    }

    static method ExtendCombo(combo: map<string, Label>, port: string, choices: seq<Label>)
      returns (row: seq<map<string, Label>>)
      ensures row == ChoiceRow(combo, port, choices)
    {
      row := [];
      for i := 0 to |choices|
        invariant |row| == i && forall j :: 0 <= j < i ==> row[j] == combo[port := choices[j]]
      {
        row := row + [combo[port := choices[i]]];
      }
    }

    /** Pushes a candidate for every choice of every usable solver not pushed before. */
    method RegenerateCandidates(P: Problem)
      modifies this`queue, this`pushed
      ensures Frontier(queue, pushed) == Regenerate(P, labels, old(Frontier(queue, pushed)))
    {
      hide CandidateFor;
      for idx := 0 to |P.solvers|
        invariant RegenFrom(P, labels, idx, Frontier(queue, pushed)) ==
                  Regenerate(P, labels, old(Frontier(queue, pushed)))
      {
        var s := P.solvers[idx];
        if s.conservativeFor != Both && s.conservativeFor != P.sense {
          continue;
        }
        if s.conservativeFor != Both && P.target !in s.outputs {
          continue;
        }
        ghost var start := Frontier(queue, pushed);
        var combos := CombosFor(s.inputs);
        for k := 0 to |combos|
          invariant PushCombos(P, idx, combos, k, Frontier(queue, pushed)) == PushCombos(P, idx, combos, 0, start)
        {
          var c := CandidateFor(P, idx, combos[k]);
          if c.Id() in pushed {
            continue;
          }
          pushed := pushed + {c.Id()};
          queue := queue + [c];
        }
      }
    }

    /** Removes the first candidate in (cost, solver id, tie key) order. */
    method PopBest(P: Problem) returns (c: Candidate)
      requires queue != [] && InRange(P, queue)
      modifies this`queue
      ensures var best := BestFrom(P, old(queue), 1, 0);
              c == old(queue)[best] && queue == RemoveAt(old(queue), best)
    {
      var best := 0;
      for i := 1 to |queue|
        invariant best < |queue| && BestFrom(P, queue, i, best) == BestFrom(P, queue, 1, 0)
      {
        if Better(P, queue[i], queue[best]) {
          best := i;
        }
      }
      c := queue[best];
      queue := queue[..best] + queue[best + 1..];
    }

    /** Offers one label to its port's set; an offer that some member dominates changes nothing. */
    method InsertWithDominance(port: string, l: Label) returns (committed: bool)
      modifies this`labels
      ensures committed == !AnyDominates(LabelsAt(old(labels), port), l)
      ensures labels == old(labels)[port := InsertLabel(LabelsAt(old(labels), port), l)]
    {
      hide Dominates, Retain;
      var ls := LabelsAt(labels, port);
      for i := 0 to |ls|
        invariant forall j :: 0 <= j < i ==> !Dominates(ls[j], l)
      {
        if Dominates(ls[i], l) {
          assert ls[i] in ls;
          labels := labels[port := ls];
          return false;
        }
      }
      var kept := Undominated(ls, l);
      labels := labels[port := kept + [l]];
      committed := true;
    }

    static method Undominated(ls: seq<Label>, l: Label) returns (kept: seq<Label>)
      ensures kept == Retain(ls, l)
    {
      hide Dominates;
      kept := [];
      for i := 0 to |ls|
        invariant kept + Retain(ls[i..], l) == Retain(ls, l)
      {
        RetainNext(ls, l, i, kept);
        if !Dominates(l, ls[i]) {
          kept := kept + [ls[i]];
        }
      }
    }

    static lemma RetainNext(ls: seq<Label>, l: Label, i: nat, kept: seq<Label>)
      requires i < |ls|
      ensures kept + Retain(ls[i..], l) == (if Dominates(l, ls[i]) then kept else kept + [ls[i]]) +
              Retain(ls[i + 1..], l)
    {
      hide Dominates;
      assert ls[i..][0] == ls[i] && ls[i..][1..] == ls[i + 1..];
    }

    /** Offers every output of one step. */
    method CommitOutputs(outputs: map<string, OutValue>, cost: real, id: nat) returns (any: bool)
      modifies this`labels
      ensures labels == Commit(old(labels), outputs, cost, id)
      ensures any == AnyCommitted(old(labels), outputs, cost, id)
    {
      hide InsertLabel, OutLabel, AnyDominates, Commit, AnyCommitted;
      any := false;
      var ports := Names.Sorted(outputs.Keys);
      Names.SortedDistinct(outputs.Keys);
      CommitNone(labels, outputs, cost, id, ports);
      hide CommittedUpTo, FreshUpTo;
      for i := 0 to |ports|
        invariant CommittedUpTo(old(labels), labels, outputs, cost, id, ports, i)
        invariant any == FreshUpTo(old(labels), outputs, cost, id, ports, i)
      {
        CommitOne(old(labels), labels, outputs, cost, id, ports, i);
        var committed := InsertWithDominance(ports[i], OutLabel(outputs[ports[i]], cost, id));
        FreshOneMore(old(labels), outputs, cost, id, ports, i);
        any := any || committed;
      }
      CommittedAll(old(labels), labels, outputs, cost, id, ports);
      AnyFresh(old(labels), outputs, cost, id, ports);
    }

    /** The first cheapest target label within the budget. */
    method PickWinner(P: Problem) returns (w: Option<Label>)
      ensures w == Winner(P, labels)
    {
      var ls := LabelsAt(labels, P.target);
      w := None;
      for i := 0 to |ls|
        invariant BestWithin(ls, P.budget, i, w) == Winner(P, labels)
      {
        if ls[i].Error() <= P.budget && (w.None? || ls[i].cost < w.value.cost) {
          w := Some(ls[i]);
        }
      }
    }

    /** Interval and model error of every output, from a corner sweep of the sum surrogate. */
    static method EstimateOutputs(s: Solver, tie: TieKey) returns (outputs: map<string, OutValue>)
      requires WfKey(tie)
      ensures outputs == Outputs(s, tie)
    {
      BoxesValid(tie);
      hide *;
      var swept := CornerSweep(Boxes(tie), Surrogate(s.outputs));
      EstimateIs(s, tie, swept);
      outputs := map o | o in s.outputs :: OutValue(swept.value[o], OutEps(s, o, swept.value[o]));
    }

    static lemma BoxesValid(tie: TieKey)
      requires WfKey(tie)
      ensures forall p :: p in Boxes(tie) ==> Boxes(tie)[p].Valid()
    {
    }

    static lemma EstimateIs(s: Solver, tie: TieKey, swept: Result<Box, ()>)
      requires forall p :: p in Boxes(tie) ==> Boxes(tie)[p].Valid()
      requires SweepOutcome(Corners(Names.Sorted(Boxes(tie).Keys), Boxes(tie)), Surrogate(s.outputs), swept)
      ensures swept.Ok? && forall o :: o in s.outputs ==> o in swept.value
      ensures (map o | o in s.outputs :: OutValue(swept.value[o], OutEps(s, o, swept.value[o]))) == Outputs(s, tie)
    {
      hide SumHull, OutEps, SweepOutcome, Boxes, Surrogate, Corners;
      SweptOk(Boxes(tie), s.outputs, swept);
      forall o | o in s.outputs ensures o in swept.value && swept.value[o] == SumHull(Boxes(tie)) {
        SweptSum(Boxes(tie), s.outputs, swept, o);
      }
    }

    /** One popped candidate: admission, estimate, commit, and the winner if the target is now within budget. */
    method ExpandCandidate(P: Problem, c: Candidate) returns (w: Option<Label>)
      requires c.idx < |P.solvers| && WfKey(c.tie)
      modifies this`labels, this`arena
      ensures Expand(P, old(Snap()), c) == if w.Some? then Found(w.value, arena) else Continue(Snap())
    {
      hide Commit, AnyCommitted, Outputs, Winner, WfKey;
      var s := P.solvers[c.idx];
      if InputDomain(s).Admits(Boxes(c.tie), P.tags).Some? {
        return None;
      }
      var outputs := EstimateOutputs(s, c.tie);
      var id := |arena|;
      arena := arena + [StepNode(s.id, s.cost, s.domain.tags, c.inputs, outputs)];
      var any := CommitOutputs(outputs, c.cost, id);
      if !any {
        return None;
      }
      w := PickWinner(P);
    }

    /** One turn of the loop: refill, pop, expand. */
    method OneTurn(P: Problem, ghost clock: real) returns (exhausted: bool, w: Option<Label>)
      requires WfProblem(P) && Inv(P, Snap(), clock) && InRange(P, queue)
      modifies this
      ensures exhausted ==> labels == old(labels)
      ensures TakeTurn(P, old(Snap())) ==
              if exhausted then Exhausted else if w.Some? then Found(w.value, arena) else Continue(Snap())
    {
      hide WfProblem, Inv, Expand, Regenerate, WfKey, BestFrom;
      RefilledWf(P, Snap(), clock);
      RegenerateInRange(P, labels, 0, Frontier(queue, pushed));
      RefillUnfolds(P, labels, Frontier(queue, pushed));
      RegenerateCandidates(P);
      if queue == [] {
        return true, None;
      }
      var c := PopBest(P);
      w := ExpandCandidate(P, c);
      exhausted := false;
    }
  }

  lemma RefillUnfolds(P: Problem, labels: Labels, f: Frontier)
    ensures Regenerate(P, labels, f) == RegenFrom(P, labels, 0, f)
  {
  }

  lemma SweptOk(box: Box, outputs: seq<string>, r: Result<Box, ()>)
    requires SweepOutcome(Corners(Names.Sorted(box.Keys), box), Surrogate(outputs), r)
    ensures r.Ok?
  {
    SweepFailsIff(box, Surrogate(outputs), r);
  }

  ghost predicate Fresh(labels: Labels, outputs: map<string, OutValue>, cost: real, id: nat, p: string) {
    p in outputs && !AnyDominates(LabelsAt(labels, p), OutLabel(outputs[p], cost, id))
  }

  ghost predicate FreshUpTo(labels: Labels, outputs: map<string, OutValue>, cost: real, id: nat, ports: seq<string>,
                            i: nat)
    requires i <= |ports|
  {
    exists j :: 0 <= j < i && Fresh(labels, outputs, cost, id, ports[j])
  }

  lemma FreshOneMore(labels: Labels, outputs: map<string, OutValue>, cost: real, id: nat, ports: seq<string>, i: nat)
    requires i < |ports| && ports[i] in outputs
    ensures FreshUpTo(labels, outputs, cost, id, ports, i + 1) <==>
            FreshUpTo(labels, outputs, cost, id, ports, i) ||
            !AnyDominates(LabelsAt(labels, ports[i]), OutLabel(outputs[ports[i]], cost, id))
  {
    hide AnyDominates, OutLabel;
    assert Fresh(labels, outputs, cost, id, ports[i]) ==> FreshUpTo(labels, outputs, cost, id, ports, i + 1);
  }

  ghost predicate Offered(before: Labels, labels: Labels, outputs: map<string, OutValue>, cost: real, id: nat,
                          p: string) {
    p in labels && p in outputs && labels[p] == InsertLabel(LabelsAt(before, p), OutLabel(outputs[p], cost, id))
  }

  lemma CommitOne(before: Labels, labels: Labels, outputs: map<string, OutValue>, cost: real, id: nat,
                  ports: seq<string>, i: nat)
    requires i < |ports| && ports[i] in outputs && Names.Distinct(ports)
    requires CommittedUpTo(before, labels, outputs, cost, id, ports, i)
    ensures LabelsAt(labels, ports[i]) == LabelsAt(before, ports[i])
    ensures var p := ports[i];
            CommittedUpTo(before, labels[p := InsertLabel(LabelsAt(before, p), OutLabel(outputs[p], cost, id))],
                          outputs, cost, id, ports, i + 1)
  {
    hide InsertLabel, OutLabel;
    assert ports[..i + 1] == ports[..i] + [ports[i]];
    assert ports[i] !in ports[..i];
  }

  /** The first `i` ports have been offered their outputs, the others are untouched. */
  ghost predicate CommittedUpTo(before: Labels, labels: Labels, outputs: map<string, OutValue>, cost: real, id: nat,
                                ports: seq<string>, i: nat)
    requires i <= |ports|
  {
    && labels.Keys == before.Keys + (set p | p in ports[..i])
    && (forall j :: 0 <= j < i ==> Offered(before, labels, outputs, cost, id, ports[j]))
    && (forall p :: p in before && p !in ports[..i] ==> p in labels && labels[p] == before[p])
  }

  lemma CommitNone(labels: Labels, outputs: map<string, OutValue>, cost: real, id: nat, ports: seq<string>)
    ensures CommittedUpTo(labels, labels, outputs, cost, id, ports, 0)
    ensures !FreshUpTo(labels, outputs, cost, id, ports, 0)
  {
  }

  lemma CommittedAll(before: Labels, labels: Labels, outputs: map<string, OutValue>, cost: real, id: nat,
                     ports: seq<string>)
    requires CommittedUpTo(before, labels, outputs, cost, id, ports, |ports|) && forall p :: p in ports <==>
             p in outputs
    ensures labels == Commit(before, outputs, cost, id)
  {
    hide InsertLabel;
    assert ports[..|ports|] == ports;
    forall p | p in labels
      ensures p in Commit(before, outputs, cost, id) && labels[p] == Commit(before, outputs, cost, id)[p]
    {
      if p in outputs {
        assert p in ports;
        var j :| 0 <= j < |ports| && ports[j] == p;
        assert Offered(before, labels, outputs, cost, id, ports[j]);
      }
    }
    assert labels.Keys == Commit(before, outputs, cost, id).Keys;
  }

  lemma AnyFresh(labels: Labels, outputs: map<string, OutValue>, cost: real, id: nat, ports: seq<string>)
    requires forall p :: p in ports <==> p in outputs
    ensures AnyCommitted(labels, outputs, cost, id) <==>
            FreshUpTo(labels, outputs, cost, id, ports, |ports|)
  {
    hide AnyDominates;
    if AnyCommitted(labels, outputs, cost, id) {
      var o :| o in outputs && !AnyDominates(LabelsAt(labels, o), OutLabel(outputs[o], cost, id));
      assert o in ports;
      var j :| 0 <= j < |ports| && ports[j] == o;
      assert Fresh(labels, outputs, cost, id, ports[j]);
    }
  }
}
