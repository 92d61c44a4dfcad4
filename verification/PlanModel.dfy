/** The route planner's data and the pure meaning of every step of its search loop. */
module PlanModel {
  import opened Wrappers
  import opened Intervals
  import opened Propagation
  import Names

  datatype Sense = Upper | Lower | Both

  datatype Solver = Solver(id: string, inputs: seq<string>, outputs: seq<string>, domain: Domain, cost: real,
                           accuracy: map<string, Accuracy>, conservativeFor: Sense)

  /** An achieved port label; `node` names the producing step in the arena, none for a known port. */
  datatype Label = Label(interval: Interval, eps: real, cost: real, node: Option<nat>) {
    function Inflated(): Interval {
      Inflate(interval, eps)
    }

    function Error(): real {
      TotalError(interval, eps)
    }

    /** What dominance, tie keys and consumers see of a label. */
    function Seen(): Part {
      Part(Inflated(), cost)
    }
  }

  datatype OutValue = OutValue(interval: Interval, eps: real)

  datatype StepNode = StepNode(solverId: string, ownCost: real, tags: set<string>,
                               inputs: map<string, Label>, outputs: map<string, OutValue>)

  /** Inflated bounds and cost. */
  datatype Part = Part(iv: Interval, cost: real)

  /** Stands for the tie-key text: the part of every chosen label, by port. */
  type TieKey = map<string, Part>

  datatype Key = Key(idx: nat, tie: TieKey)

  datatype Candidate = Candidate(idx: nat, cost: real, tie: TieKey, inputs: map<string, Label>) {
    function Id(): Key {
      Key(idx, tie)
    }
  }

  type Labels = map<string, seq<Label>>

  datatype Frontier = Frontier(queue: seq<Candidate>, pushed: set<Key>)

  datatype State = State(labels: Labels, frontier: Frontier, arena: seq<StepNode>)

  /** A request against a frozen registry; `before` orders the tie keys of one solver. */
  datatype Problem = Problem(solvers: seq<Solver>, known: map<string, Interval>, tags: set<string>, target: string,
                             budget: real, sense: Sense, before: (TieKey, TieKey) -> bool)

  // ----- applying a solver -----

  function KeyOf(inputs: map<string, Label>): TieKey {
    map p | p in inputs :: inputs[p].Seen()
  }

  function Boxes(tie: TieKey): Box {
    map p | p in tie :: tie[p].iv
  }

  function Costs(tie: TieKey): map<string, real> {
    map p | p in tie :: tie[p].cost
  }

  /** The hull of the sum surrogate over a box. */
  function SumHull(box: Box): Interval {
    Interval(Names.Sum(map p | p in box :: box[p].lo), Names.Sum(map p | p in box :: box[p].hi))
  }

  /** The admission domain: the declared box on the solver's input ports only, and its tags. */
  function InputDomain(s: Solver): Domain {
    Domain(map p | p in s.domain.portBox && p in s.inputs :: s.domain.portBox[p], s.domain.tags)
  }

  predicate Admitted(s: Solver, tie: TieKey, tags: set<string>) {
    InputDomain(s).Admits(Boxes(tie), tags).None?
  }

  function OutEps(s: Solver, o: string, iv: Interval): real {
    if o in s.accuracy then s.accuracy[o].WorstOver(iv) else 0.0
  }

  function Outputs(s: Solver, tie: TieKey): map<string, OutValue> {
    map o | o in s.outputs :: OutValue(SumHull(Boxes(tie)), OutEps(s, o, SumHull(Boxes(tie))))
  }

  function OutCost(s: Solver, tie: TieKey): real {
    s.cost + Names.Sum(Costs(tie))
  }

  /** What a consumer of output `o` sees of one application of `s`. */
  function OutPart(s: Solver, o: string, tie: TieKey): Part {
    Part(Inflate(SumHull(Boxes(tie)), OutEps(s, o, SumHull(Boxes(tie)))), OutCost(s, tie))
  }

  // ----- dominance -----

  predicate Dom(a: Part, b: Part) {
    a.cost <= b.cost && a.iv.IsSubset(b.iv)
  }

  predicate Dominates(a: Label, b: Label) {
    a.cost <= b.cost && a.Inflated().IsSubset(b.Inflated())
  }

  predicate AnyDominates(ls: seq<Label>, l: Label) {
    exists m :: m in ls && Dominates(m, l)
  }

  /** The members of `ls` that `l` does not dominate, in order. */
  function Retain(ls: seq<Label>, l: Label): seq<Label> {
    if ls == [] then []
    else (if Dominates(l, ls[0]) then [] else [ls[0]]) + Retain(ls[1..], l)
  }

  function InsertLabel(ls: seq<Label>, l: Label): seq<Label> {
    if AnyDominates(ls, l) then ls else Retain(ls, l) + [l]
  }

  function LabelsAt(labels: Labels, p: string): seq<Label> {
    if p in labels then labels[p] else []
  }

  function OutLabel(out: OutValue, cost: real, id: nat): Label {
    Label(out.interval, out.eps, cost, Some(id))
  }

  /** Every output offered to its port's label set. */
  function Commit(labels: Labels, outputs: map<string, OutValue>, cost: real, id: nat): Labels {
    labels + map o | o in outputs :: InsertLabel(LabelsAt(labels, o), OutLabel(outputs[o], cost, id))
  }

  predicate AnyCommitted(labels: Labels, outputs: map<string, OutValue>, cost: real, id: nat) {
    exists o :: o in outputs && !AnyDominates(LabelsAt(labels, o), OutLabel(outputs[o], cost, id))
  }

  // ----- candidate generation -----

  /** One partial choice extended by every choice at a port. */
  function ChoiceRow<T>(combo: map<string, T>, port: string, choices: seq<T>): seq<map<string, T>> {
    seq(|choices|, i requires 0 <= i < |choices| => combo[port := choices[i]])
  }

  function ExtendChoice<T>(acc: seq<map<string, T>>, k: nat, port: string, choices: seq<T>): seq<map<string, T>>
    requires k <= |acc|
    decreases |acc| - k
  {
    if k == |acc| then []
    else ChoiceRow(acc[k], port, choices) + ExtendChoice(acc, k + 1, port, choices)
  }

  /** The cartesian product of the label sets of the ports from position `i` on, over the partial choices `acc`. */
  function CombosFrom<T>(acc: seq<map<string, T>>, inputs: seq<string>, i: nat, labels: map<string, seq<T>>):
    seq<map<string, T>>
    requires i <= |inputs|
    decreases |inputs| - i
  {
    if i == |inputs| then acc
    else if inputs[i] !in labels || labels[inputs[i]] == [] then []
    else CombosFrom(ExtendChoice(acc, 0, inputs[i], labels[inputs[i]]), inputs, i + 1, labels)
  }

  function Combos<T>(inputs: seq<string>, labels: map<string, seq<T>>): seq<map<string, T>> {
    CombosFrom([map[]], inputs, 0, labels)
  }

  /** A solver takes part when it is two-sided, or when its sense matches and the target is among its outputs. */
  predicate Usable(P: Problem, idx: nat)
    requires idx < |P.solvers|
  {
    var s := P.solvers[idx];
    s.conservativeFor == Both || (s.conservativeFor == P.sense && P.target in s.outputs)
  }

  function CandidateFor(P: Problem, idx: nat, combo: map<string, Label>): Candidate
    requires idx < |P.solvers|
  {
    Candidate(idx, OutCost(P.solvers[idx], KeyOf(combo)), KeyOf(combo), combo)
  }

  function PushOne(P: Problem, idx: nat, combo: map<string, Label>, f: Frontier): Frontier
    requires idx < |P.solvers|
  {
    var c := CandidateFor(P, idx, combo);
    if c.Id() in f.pushed then f else Frontier(f.queue + [c], f.pushed + {c.Id()})
  }

  function PushCombos(P: Problem, idx: nat, combos: seq<map<string, Label>>, k: nat, f: Frontier): Frontier
    requires idx < |P.solvers| && k <= |combos|
    decreases |combos| - k
  {
    if k == |combos| then f else PushCombos(P, idx, combos, k + 1, PushOne(P, idx, combos[k], f))
  }

  function RegenSolver(P: Problem, labels: Labels, i: nat, f: Frontier): Frontier
    requires i < |P.solvers|
  {
    if Usable(P, i) then PushCombos(P, i, Combos(P.solvers[i].inputs, labels), 0, f) else f
  }

  function RegenFrom(P: Problem, labels: Labels, i: nat, f: Frontier): Frontier
    requires i <= |P.solvers|
    decreases |P.solvers| - i
  {
    if i == |P.solvers| then f else RegenFrom(P, labels, i + 1, RegenSolver(P, labels, i, f))
  }

  function Regenerate(P: Problem, labels: Labels, f: Frontier): Frontier {
    RegenFrom(P, labels, 0, f)
  }

  // ----- the pop -----

  predicate InRange(P: Problem, queue: seq<Candidate>) {
    forall c :: c in queue ==> c.idx < |P.solvers|
  }

  /** Frontier order: cost, then solver id, then tie key. */
  predicate Better(P: Problem, a: Candidate, b: Candidate)
    requires a.idx < |P.solvers| && b.idx < |P.solvers|
  {
    var sa, sb := P.solvers[a.idx].id, P.solvers[b.idx].id;
    a.cost < b.cost ||
    (a.cost == b.cost && (Names.Before(sa, sb) || (sa == sb && P.before(a.tie, b.tie))))
  }

  function BestFrom(P: Problem, queue: seq<Candidate>, i: nat, best: nat): (r: nat)
    requires InRange(P, queue) && i <= |queue| && best < |queue|
    ensures r < |queue|
    decreases |queue| - i
  {
    if i == |queue| then best
    else BestFrom(P, queue, i + 1, if Better(P, queue[i], queue[best]) then i else best)
  }

  function RemoveAt<T>(s: seq<T>, i: nat): seq<T>
    requires i < |s|
  {
    s[..i] + s[i + 1..]
  }

  // ----- one turn of the loop -----

  /** The first label of least cost among those within the budget. */
  function BestWithin(ls: seq<Label>, budget: real, i: nat, best: Option<Label>): (w: Option<Label>)
    requires i <= |ls|
    decreases |ls| - i
  {
    if i == |ls| then best
    else if ls[i].Error() <= budget && (best.Some? ==> ls[i].cost < best.value.cost) then
      BestWithin(ls, budget, i + 1, Some(ls[i]))
    else BestWithin(ls, budget, i + 1, best)
  }

  function Winner(P: Problem, labels: Labels): Option<Label> {
    BestWithin(LabelsAt(labels, P.target), P.budget, 0, None)
  }

  datatype Turn =
    | Exhausted
    | Found(winner: Label, arena: seq<StepNode>)
    | Continue(next: State)

  function Expand(P: Problem, S: State, c: Candidate): Turn
    requires c.idx < |P.solvers|
  {
    var s := P.solvers[c.idx];
    if !Admitted(s, c.tie, P.tags) then Continue(S)
    else
      var outputs := Outputs(s, c.tie);
      var arena := S.arena + [StepNode(s.id, s.cost, s.domain.tags, c.inputs, outputs)];
      var labels := Commit(S.labels, outputs, c.cost, |S.arena|);
      if AnyCommitted(S.labels, outputs, c.cost, |S.arena|) && Winner(P, labels).Some? then
        Found(Winner(P, labels).value, arena)
      else Continue(State(labels, S.frontier, arena))
  }

  function TakeTurn(P: Problem, S: State): Turn
    requires InRange(P, S.frontier.queue)
  {
    var f := Regenerate(P, S.labels, S.frontier);
    RegenerateInRange(P, S.labels, 0, S.frontier);
    if f.queue == [] then Exhausted
    else
      var best := BestFrom(P, f.queue, 1, 0);
      var rest := Frontier(RemoveAt(f.queue, best), f.pushed);
      Expand(P, State(S.labels, rest, S.arena), f.queue[best])
  }

  lemma {:induction false} PushCombosInRange(P: Problem, idx: nat, combos: seq<map<string, Label>>, k: nat, f: Frontier)
    requires idx < |P.solvers| && k <= |combos| && InRange(P, f.queue)
    ensures InRange(P, PushCombos(P, idx, combos, k, f).queue)
    decreases |combos| - k
  {
    if k < |combos| {
      PushOneInRange(P, idx, combos[k], f);
      hide PushOne, InRange;
      PushCombosInRange(P, idx, combos, k + 1, PushOne(P, idx, combos[k], f));
    }
  }

  lemma PushOneInRange(P: Problem, idx: nat, combo: map<string, Label>, f: Frontier)
    requires idx < |P.solvers| && InRange(P, f.queue)
    ensures InRange(P, PushOne(P, idx, combo, f).queue)
  {
    assert CandidateFor(P, idx, combo).idx == idx;
  }

  lemma {:induction false} RegenerateInRange(P: Problem, labels: Labels, i: nat, f: Frontier)
    requires i <= |P.solvers| && InRange(P, f.queue)
    ensures InRange(P, RegenFrom(P, labels, i, f).queue)
    decreases |P.solvers| - i
  {
    if i < |P.solvers| {
      if Usable(P, i) { PushCombosInRange(P, i, Combos(P.solvers[i].inputs, labels), 0, f); }
      RegenerateInRange(P, labels, i + 1, RegenSolver(P, labels, i, f));
    }
  }

  // ----- whole runs -----

  datatype Outcome =
    | Success(winner: Label, arena: seq<StepNode>)
    | Emptied(labels: Labels)
    | StillSearching

  function Initial(P: Problem): State {
    State(map p | p in P.known :: [KnownLabel(P.known[p])], Frontier([], {}), [])
  }

  function KnownLabel(iv: Interval): Label {
    Label(iv, 0.0, 0.0, None)
  }

  /** At most `limit` turns of the loop from `S`. */
  function Run(P: Problem, S: State, limit: nat): Outcome
    requires InRange(P, S.frontier.queue)
    decreases limit
  {
    if limit == 0 then StillSearching
    else
      TurnInRange(P, S);
      match TakeTurn(P, S)
      case Exhausted => Emptied(S.labels)
      case Found(w, arena) => Success(w, arena)
      case Continue(next) => Run(P, next, limit - 1)
  }

  lemma TurnInRange(P: Problem, S: State)
    requires InRange(P, S.frontier.queue)
    ensures TakeTurn(P, S).Continue? ==> InRange(P, TakeTurn(P, S).next.frontier.queue)
  {
    RegenerateInRange(P, S.labels, 0, S.frontier);
  }
}
