/** Termination of the search: guaranteed when no join feeds itself. */
module PlanTermination {
  import opened Wrappers
  import opened Intervals
  import opened Propagation
  import opened PlanModel
  import opened PlanLemmas
  import opened PlanOptimal
  import opened PlanFeeds
  import Names

  // ----- the measure -----

  /** Number of keys pushed and no longer queued. */
  function Retired(f: Frontier): int {
    |f.pushed| - |f.queue|
  }

  lemma PushOneBalanced(P: Problem, idx: nat, combo: map<string, Label>, f: Frontier)
    requires idx < |P.solvers|
    ensures Retired(PushOne(P, idx, combo, f)) == Retired(f)
  {
  }

  lemma {:induction false} PushCombosBalanced(P: Problem, idx: nat, combos: seq<map<string, Label>>, k: nat,
                                              f: Frontier)
    requires idx < |P.solvers| && k <= |combos|
    ensures Retired(PushCombos(P, idx, combos, k, f)) == Retired(f)
    decreases |combos| - k
  {
    hide PushOne, Retired;
    if k < |combos| {
      PushOneBalanced(P, idx, combos[k], f);
      PushCombosBalanced(P, idx, combos, k + 1, PushOne(P, idx, combos[k], f));
    }
  }

  lemma {:induction false} RegenerateBalanced(P: Problem, labels: Labels, i: nat, f: Frontier)
    requires i <= |P.solvers|
    ensures Retired(RegenFrom(P, labels, i, f)) == Retired(f)
    decreases |P.solvers| - i
  {
    if i < |P.solvers| {
      if Usable(P, i) { PushCombosBalanced(P, i, Combos(P.solvers[i].inputs, labels), 0, f); }
      RegenerateBalanced(P, labels, i + 1, RegenSolver(P, labels, i, f));
    }
  }

  /** Each turn that goes on retires exactly one key, and pushes none beyond the refill. */
  lemma TurnRetiresOne(P: Problem, S: State)
    requires InRange(P, S.frontier.queue) && TakeTurn(P, S).Continue?
    ensures Retired(TakeTurn(P, S).next.frontier) == Retired(S.frontier) + 1
    ensures TakeTurn(P, S).next.frontier.pushed == Regenerate(P, S.labels, S.frontier).pushed
  {
    RegenerateBalanced(P, S.labels, 0, S.frontier);
    RegenerateInRange(P, S.labels, 0, S.frontier);
  }

  /** A longer limit changes nothing once a run has ended. */
  lemma {:induction false} RunStable(P: Problem, S: State, limit: nat, more: nat)
    requires InRange(P, S.frontier.queue) && limit <= more && !Run(P, S, limit).StillSearching?
    ensures Run(P, S, more) == Run(P, S, limit)
    decreases limit
  {
    hide TakeTurn;
    TurnInRange(P, S);
    if TakeTurn(P, S).Continue? { RunStable(P, TakeTurn(P, S).next, limit - 1, more - 1); }
  }

  // ----- joins that feed themselves -----

  /** Solver `i` takes at least two different ports. */
  ghost predicate Joins(P: Problem, i: nat) {
    i < |P.solvers| && exists p, q :: p in P.solvers[i].inputs && q in P.solvers[i].inputs && p != q
  }

  /** Participating solver `i` joins ports and feeds one of them, `p`. */
  ghost predicate FeedsItself(P: Problem, i: nat, p: string) {
    Joins(P, i) && p in P.solvers[i].inputs && Feeds(P, i, p)
  }

  ghost predicate SelfFed(P: Problem) {
    exists i, p :: FeedsItself(P, i, p)
  }

  /** Whatever feeds `p` feeds `o`. */
  ghost predicate LeadsTo(P: Problem, p: string, o: string) {
    forall s :: Feeds(P, s, p) ==> Feeds(P, s, o)
  }

  lemma InputLeads(P: Problem, j: nat, p: string, r: string)
    requires Makes(P, j, r) && p in P.solvers[j].inputs
    ensures LeadsTo(P, p, r)
  {
    hide Feeds, Makes;
    forall s | Feeds(P, s, p) ensures Feeds(P, s, r) { FeedsOn(P, s, p, j, r); }
  }

  // ----- derivations without repetitions -----

  /** `t` or a derivation it is built from is of port `o`. */
  ghost predicate Passes(t: Deriv, o: string)
    decreases t
  {
    t.Port() == o || (t.Apply? && exists p :: p in t.inputs && Passes(t.inputs[p], o))
  }

  /** Along every path down `t` the made ports are among `ports`, each at most once. */
  ghost predicate Straight(t: Deriv, ports: set<string>)
    decreases t
  {
    match t
    case Given(_) => true
    case Apply(_, out, inputs) => out in ports && forall p :: p in inputs ==> Straight(inputs[p], ports - {out})
  }

  /** A retained label covers `t`, and every derivation it is built from. */
  ghost predicate Backed(P: Problem, labels: Labels, t: Deriv)
    decreases t
  {
    && Covered(labels, t.Port(), Worth(P, t))
    && (t.Apply? ==> forall p :: p in t.inputs ==> Backed(P, labels, t.inputs[p]))
  }

  lemma {:induction false} StraightNarrows(t: Deriv, ports: set<string>, o: string)
    requires Straight(t, ports) && !Passes(t, o)
    ensures Straight(t, ports - {o})
    decreases t
  {
    if t.Apply? {
      forall p | p in t.inputs ensures Straight(t.inputs[p], ports - {o} - {t.out}) {
        StraightNarrows(t.inputs[p], ports - {t.out}, o);
        assert ports - {t.out} - {o} == ports - {o} - {t.out};
      }
    }
  }

  lemma {:induction false} StraightInLevel(P: Problem, n: nat, t: Deriv, ports: set<string>)
    requires WfProblem(P) && Admissible(P, t) && Straight(t, ports) && |ports| <= n
    ensures Worth(P, t) in PartsAt(Level(P, n), t.Port())
    decreases t
  {
    hide Level, PartsAt, OutPart, Admitted, WfProblem;
    match t
    case Given(p) => KnownInLevel(P, n, p);
    case Apply(idx, out, inputs) =>
      WorthWf(P, t);
      assert |ports - {out}| == |ports| - 1;
      forall p | p in Worths(P, t) ensures Worths(P, t)[p] in PartsAt(Level(P, n - 1), p) {
        StraightInLevel(P, n - 1, inputs[p], ports - {out});
      }
      ApplicationInLevel(P, n - 1, idx, out, Worths(P, t));
  }

  ghost predicate StillCovered(labels: Labels, later: Labels) {
    forall p, w :: Covered(labels, p, w) ==> Covered(later, p, w)
  }

  lemma {:induction false} BackedStays(P: Problem, labels: Labels, later: Labels, t: Deriv)
    requires Backed(P, labels, t) && StillCovered(labels, later)
    ensures Backed(P, later, t)
    decreases t
  {
    hide Covered;
    if t.Apply? {
      forall p | p in t.inputs ensures Backed(P, later, t.inputs[p]) { BackedStays(P, labels, later, t.inputs[p]); }
    }
  }

  // ----- a port repeated on a path is dominated -----

  lemma {:induction false} PassesLeads(P: Problem, t: Deriv, o: string)
    requires Admissible(P, t) && Passes(t, o)
    ensures LeadsTo(P, o, t.Port())
    decreases t
  {
    hide Feeds, Worth, Admitted, LeadsTo;
    if t.Port() == o {
      LeadsItself(P, o);
    } else {
      var p :| p in t.inputs && Passes(t.inputs[p], o);
      PassesLeads(P, t.inputs[p], o);
      InputLeads(P, t.idx, p, t.out);
      LeadsOn(P, o, p, t.out);
    }
  }

  lemma LeadsItself(P: Problem, o: string)
    ensures LeadsTo(P, o, o)
  {
  }

  lemma LeadsOn(P: Problem, p: string, q: string, r: string)
    requires LeadsTo(P, p, q) && LeadsTo(P, q, r)
    ensures LeadsTo(P, p, r)
  {
    hide Feeds;
  }

  /** Applying a solver to one port never improves on what came in: the hull is that of the input, the error and the
      cost are not negative. */
  lemma OneInputDominated(s: Solver, o: string, p: string, tie: TieKey)
    requires WfSolver(s) && tie.Keys == {p} && WfPart(tie[p])
    ensures Dom(tie[p], OutPart(s, o, tie))
  {
    var box := Boxes(tie);
    Names.SumOne(p, map q | q in box :: box[q].lo);
    Names.SumOne(p, map q | q in box :: box[q].hi);
    Names.SumOne(p, Costs(tie));
    assert SumHull(box) == tie[p].iv;
    OutEpsMonotone(s, o, tie[p].iv, tie[p].iv);
    hide SumHull, OutEps;
  }

  /** A solver that feeds the port it takes takes no other. */
  lemma OnlyInput(P: Problem, j: nat, p: string, q: string)
    requires !SelfFed(P) && Feeds(P, j, p) && j < |P.solvers| && p in P.solvers[j].inputs && q in P.solvers[j].inputs
    ensures q == p
  {
    hide Feeds;
    assert !FeedsItself(P, j, p);
  }

  /** One application on such a path: what it is applied to dominates it. */
  lemma LineStep(P: Problem, t: Deriv, p: string, o: string)
    requires WfProblem(P) && !SelfFed(P) && Admissible(P, t) && t.Apply? && p in t.inputs
    requires Passes(t.inputs[p], o) && LeadsTo(P, t.Port(), o)
    ensures Dom(Worth(P, t.inputs[p]), Worth(P, t)) && LeadsTo(P, p, o)
  {
    WorthWf(P, t);
    var tie := Worths(P, t);
    assert WfSolver(P.solvers[t.idx]) && WfPart(tie[p]) && Makes(P, t.idx, t.out);
    hide Worth, WfProblem, Admitted, Feeds, OutPart, SelfFed;
    MakerFeeds(P, t.idx, t.out);
    PassesLeads(P, t.inputs[p], o);
    InputLeads(P, t.idx, p, t.out);
    LeadsOn(P, p, t.out, o);
    forall q | q in t.inputs ensures q == p { OnlyInput(P, t.idx, p, q); }
    assert tie.Keys == {p};
    OneInputDominated(P.solvers[t.idx], t.out, p, tie);
  }

  /** Where no join feeds itself, a derivation from whose port one gets back to a port `o` inside it offers `o`
      nothing. */
  lemma {:induction false} RepeatCovered(P: Problem, labels: Labels, t: Deriv, o: string)
    requires WfProblem(P) && !SelfFed(P) && Admissible(P, t) && Passes(t, o) && Backed(P, labels, t)
    requires LeadsTo(P, t.Port(), o)
    ensures Covered(labels, o, Worth(P, t))
    decreases t
  {
    hide WfProblem, SelfFed, LeadsTo, Worth, Covered, Admitted, Dom;
    if t.Port() != o {
      var p :| p in t.inputs && Passes(t.inputs[p], o);
      LineStep(P, t, p, o);
      RepeatCovered(P, labels, t.inputs[p], o);
      CoveredTransitive(labels, o, Worth(P, t.inputs[p]), Worth(P, t));
    }
  }

  // ----- retained labels have such derivations -----

  ghost predicate TameBy(P: Problem, labels: Labels, t: Deriv, p: string, w: Part) {
    Derives(P, t, p, w) && Straight(t, AllOutputs(P)) && Backed(P, labels, t)
  }

  ghost predicate Tame(P: Problem, labels: Labels, p: string, w: Part) {
    exists t :: TameBy(P, labels, t, p, w)
  }

  ghost predicate TameLabels(P: Problem, labels: Labels) {
    forall p, l :: l in LabelsAt(labels, p) ==> Tame(P, labels, p, l.Seen())
  }

  ghost predicate TameInputs(P: Problem, labels: Labels, inputs: map<string, Label>) {
    forall p :: p in inputs ==> Tame(P, labels, p, inputs[p].Seen())
  }

  ghost predicate TameQueue(P: Problem, labels: Labels, queue: seq<Candidate>) {
    forall c :: c in queue ==> TameInputs(P, labels, c.inputs)
  }

  ghost predicate TameState(P: Problem, S: State) {
    TameLabels(P, S.labels) && TameQueue(P, S.labels, S.frontier.queue)
  }

  lemma TameStays(P: Problem, labels: Labels, later: Labels, p: string, w: Part)
    requires Tame(P, labels, p, w) && StillCovered(labels, later)
    ensures Tame(P, later, p, w)
  {
    hide Derives, Straight, Backed, StillCovered;
    var t :| TameBy(P, labels, t, p, w);
    BackedStays(P, labels, later, t);
    assert TameBy(P, later, t, p, w);
  }

  lemma TameQueueStays(P: Problem, labels: Labels, later: Labels, queue: seq<Candidate>)
    requires TameQueue(P, labels, queue) && StillCovered(labels, later)
    ensures TameQueue(P, later, queue)
  {
    hide Tame, StillCovered;
    forall c, p | c in queue && p in c.inputs ensures Tame(P, later, p, c.inputs[p].Seen()) {
      assert TameInputs(P, labels, c.inputs);
      TameStays(P, labels, later, p, c.inputs[p].Seen());
    }
  }

  lemma ChooseTame(P: Problem, labels: Labels, c: Candidate) returns (pick: map<string, Deriv>)
    requires TameInputs(P, labels, c.inputs)
    ensures pick.Keys == c.inputs.Keys
    ensures forall p :: p in pick ==> TameBy(P, labels, pick[p], p, c.inputs[p].Seen())
  {
    hide TameBy;
    pick := map p | p in c.inputs :: var t :| TameBy(P, labels, t, p, c.inputs[p].Seen()); t;
  }

  lemma TameMeans(P: Problem, labels: Labels, t: Deriv, p: string, w: Part)
    requires TameBy(P, labels, t, p, w)
    ensures Derives(P, t, p, w) && Straight(t, AllOutputs(P)) && Backed(P, labels, t)
    ensures Admissible(P, t) && t.Port() == p && Worth(P, t) == w
  {
  }

  /** What a candidate with tame inputs offers is covered, or has such a derivation itself. */
  lemma OfferTame(P: Problem, labels: Labels, later: Labels, c: Candidate, o: string)
    requires WfProblem(P) && !SelfFed(P) && WfCandidate(P, c) && TameInputs(P, labels, c.inputs)
    requires Admitted(P.solvers[c.idx], c.tie, P.tags) && o in P.solvers[c.idx].outputs && StillCovered(labels, later)
    requires Covered(later, o, OutPart(P.solvers[c.idx], o, c.tie))
    ensures Covered(labels, o, OutPart(P.solvers[c.idx], o, c.tie)) ||
            Tame(P, later, o, OutPart(P.solvers[c.idx], o, c.tie))
  {
    assert c.idx < |P.solvers|;
    hide *;
    var pick := ChooseTame(P, labels, c);
    var t := Apply(c.idx, o, pick);
    CandidateDerives(P, labels, c, o, pick);
    if p :| p in pick && Passes(pick[p], o) {
      TameMeans(P, labels, pick[p], p, c.inputs[p].Seen());
      RepeatOffered(P, labels, t, p, o);
    } else {
      forall p | p in pick ensures Straight(pick[p], AllOutputs(P) - {o}) && Backed(P, later, pick[p]) {
        TameMeans(P, labels, pick[p], p, c.inputs[p].Seen());
        StraightNarrows(pick[p], AllOutputs(P), o);
        BackedStays(P, labels, later, pick[p]);
      }
      NewTame(P, later, t, OutPart(P.solvers[c.idx], o, c.tie));
    }
  }

  lemma CandidateDerives(P: Problem, labels: Labels, c: Candidate, o: string, pick: map<string, Deriv>)
    requires WfCandidate(P, c) && Admitted(P.solvers[c.idx], c.tie, P.tags) && o in P.solvers[c.idx].outputs
    requires pick.Keys == c.inputs.Keys && forall p :: p in pick ==> TameBy(P, labels, pick[p], p, c.inputs[p].Seen())
    ensures Admissible(P, Apply(c.idx, o, pick))
    ensures Worth(P, Apply(c.idx, o, pick)) == OutPart(P.solvers[c.idx], o, c.tie)
  {
    assert c.tie.Keys == pick.Keys && forall p :: p in pick ==> c.tie[p] == c.inputs[p].Seen();
    hide Derives, Straight, Backed, Usable, Admitted, OutPart, Derivable;
    forall p | p in pick ensures Derives(P, pick[p], p, c.tie[p]) { TameMeans(P, labels, pick[p], p, c.tie[p]); }
    assert c.tie.Keys == (set p | p in P.solvers[c.idx].inputs) && Usable(P, c.idx);
    hide WfCandidate, TameBy;
    ApplyWorth(P, c.idx, o, c.tie, pick);
    ApplyAdmissible(P, c.idx, o, c.tie, pick);
  }

  lemma RepeatOffered(P: Problem, labels: Labels, t: Deriv, p: string, o: string)
    requires WfProblem(P) && !SelfFed(P) && Admissible(P, t) && t.Apply? && t.out == o && p in t.inputs
    requires Passes(t.inputs[p], o) && Backed(P, labels, t.inputs[p]) && t.inputs[p].Port() == p
    ensures Covered(labels, o, Worth(P, t))
  {
    hide WfProblem, SelfFed, Worth, Covered, Admitted, Backed, Dom, LeadsTo;
    LeadsItself(P, o);
    LineStep(P, t, p, o);
    RepeatCovered(P, labels, t.inputs[p], o);
    CoveredTransitive(labels, o, Worth(P, t.inputs[p]), Worth(P, t));
  }

  lemma NewTame(P: Problem, labels: Labels, t: Deriv, w: Part)
    requires t.Apply? && Admissible(P, t) && Worth(P, t) == w && Covered(labels, t.out, w)
    requires forall p :: p in t.inputs ==>
                           Straight(t.inputs[p], AllOutputs(P) - {t.out}) && Backed(P, labels, t.inputs[p])
    ensures Tame(P, labels, t.out, w)
  {
    hide Worth, Covered, Admitted;
    assert t.out in AllOutputs(P);
    assert TameBy(P, labels, t, t.out, w);
  }

  lemma CommitStillCovers(labels: Labels, outputs: map<string, OutValue>, cost: real, id: nat)
    ensures StillCovered(labels, Commit(labels, outputs, cost, id))
  {
    hide Covered, Commit;
    forall p, w | Covered(labels, p, w) ensures Covered(Commit(labels, outputs, cost, id), p, w) {
      CommitCovers(labels, outputs, cost, id, p, w);
    }
  }

  /** A covered offer is not kept. */
  lemma CoveredNotKept(labels: Labels, outputs: map<string, OutValue>, cost: real, id: nat, p: string, l: Label)
    requires p in outputs && l == OutLabel(outputs[p], cost, id) && Covered(labels, p, l.Seen())
    requires l in LabelsAt(Commit(labels, outputs, cost, id), p)
    ensures l in LabelsAt(labels, p)
  {
    var m :| m in LabelsAt(labels, p) && Dom(m.Seen(), l.Seen());
    assert Dominates(m, l);
  }

  lemma CommitTame(P: Problem, S: State, c: Candidate)
    requires WfProblem(P) && !SelfFed(P) && WfCandidate(P, c) && TameState(P, S) && TameInputs(P, S.labels, c.inputs)
    requires Admitted(P.solvers[c.idx], c.tie, P.tags)
    ensures TameLabels(P, Commit(S.labels, Outputs(P.solvers[c.idx], c.tie), c.cost, |S.arena|))
  {
    var s, id := P.solvers[c.idx], |S.arena|;
    var outputs := Outputs(s, c.tie);
    assert c.cost == OutCost(s, c.tie) && forall o :: o in outputs ==> o in s.outputs;
    hide Commit, Tame, WfProblem, SelfFed, WfCandidate, Admitted, Covered, OutPart, StillCovered, Outputs, TameInputs;
    var labels := Commit(S.labels, outputs, c.cost, id);
    CommitStillCovers(S.labels, outputs, c.cost, id);
    forall p, l | l in LabelsAt(labels, p) ensures Tame(P, labels, p, l.Seen()) {
      if l in LabelsAt(S.labels, p) {
        TameStays(P, S.labels, labels, p, l.Seen());
      } else {
        CommitMembers(S.labels, outputs, c.cost, id, p, l);
        OutLabelSeen(s, c.tie, p, c.cost, id);
        CommitCovers(S.labels, outputs, c.cost, id, p, l.Seen());
        OfferTame(P, S.labels, labels, c, p);
        if Covered(S.labels, p, l.Seen()) { CoveredNotKept(S.labels, outputs, c.cost, id, p, l); }
      }
    }
  }

  lemma ExpandTame(P: Problem, S: State, c: Candidate)
    requires WfProblem(P) && !SelfFed(P) && WfCandidate(P, c) && TameState(P, S) && TameInputs(P, S.labels, c.inputs)
    ensures Expand(P, S, c).Continue? ==> TameState(P, Expand(P, S, c).next)
  {
    var s := P.solvers[c.idx];
    hide WfProblem, SelfFed, WfCandidate, Admitted, TameLabels, TameQueue, Commit, Outputs, AnyCommitted, TameInputs,
      StillCovered, Winner;
    if Admitted(s, c.tie, P.tags) {
      CommitTame(P, S, c);
      CommitStillCovers(S.labels, Outputs(s, c.tie), c.cost, |S.arena|);
      TameQueueStays(P, S.labels, Commit(S.labels, Outputs(s, c.tie), c.cost, |S.arena|), S.frontier.queue);
    }
  }

  lemma RefillTame(P: Problem, S: State)
    requires TameState(P, S)
    ensures TameState(P, Refilled(P, S))
  {
    var g := Regenerate(P, S.labels, S.frontier);
    RegenerateSpec(P, S.labels, S.frontier);
    hide Tame;
    forall c | c in g.queue ensures TameInputs(P, S.labels, c.inputs) {
      if c !in S.frontier.queue {
        assert IsNew(P, S.labels, S.frontier, c);
        forall p | p in c.inputs ensures Tame(P, S.labels, p, c.inputs[p].Seen()) {
          assert c.inputs[p] in LabelsAt(S.labels, p);
        }
      }
    }
  }

  lemma TurnTame(P: Problem, S: State, clock: real)
    requires WfProblem(P) && !SelfFed(P) && Inv(P, S, clock) && InRange(P, S.frontier.queue) && TameState(P, S)
    ensures TakeTurn(P, S).Continue? ==> TameState(P, TakeTurn(P, S).next)
  {
    var R := Refilled(P, S);
    RefillKeepsInv(P, S, clock);
    RefillTame(P, S);
    RegenerateInRange(P, S.labels, 0, S.frontier);
    if R.frontier.queue != [] {
      var b := BestFrom(P, R.frontier.queue, 1, 0);
      var c := R.frontier.queue[b];
      assert c in R.frontier.queue;
      hide Tame, Expand, Inv, InvLabels, WfFrontier, Regenerate, SelfFed, WfProblem;
      assert WfCandidate(P, c) && TameInputs(P, R.labels, c.inputs);
      hide WfCandidate, TameInputs;
      PoppedTame(P, R, b);
      ExpandTame(P, Popped(R, b), c);
    }
  }

  lemma PoppedTame(P: Problem, S: State, b: nat)
    requires TameState(P, S) && b < |S.frontier.queue|
    ensures TameState(P, Popped(S, b))
  {
    hide TameInputs, TameLabels;
    forall d | d in RemoveAt(S.frontier.queue, b) ensures TameInputs(P, S.labels, d.inputs) {
      RemoveMembers(S.frontier.queue, b, d);
    }
  }

  lemma InitialTame(P: Problem)
    ensures TameState(P, Initial(P))
  {
    var S := Initial(P);
    forall p, l | l in LabelsAt(S.labels, p) ensures Tame(P, S.labels, p, l.Seen()) {
      assert Covered(S.labels, p, l.Seen());
      assert TameBy(P, S.labels, Given(p), p, l.Seen());
    }
  }

  // ----- the keys there can be -----

  type Parts = map<string, seq<Part>>

  function PartsAt(L: Parts, p: string): seq<Part> {
    if p in L then L[p] else []
  }

  function Offers(P: Problem, L: Parts, o: string, i: nat): seq<Part>
    requires i <= |P.solvers|
    decreases |P.solvers| - i
  {
    if i == |P.solvers| then []
    else
      var combos := Combos(P.solvers[i].inputs, L);
      (if o in P.solvers[i].outputs
       then seq(|combos|, k requires 0 <= k < |combos| => OutPart(P.solvers[i], o, combos[k])) else []) +
      Offers(P, L, o, i + 1)
  }

  function AllOutputs(P: Problem): set<string> {
    set i, o | 0 <= i < |P.solvers| && o in P.solvers[i].outputs :: o
  }

  /** Every part obtainable with at most `n` nested applications, nothing pruned. */
  function Level(P: Problem, n: nat): Parts {
    if n == 0 then map p | p in P.known :: [Part(Inflate(P.known[p], 0.0), 0.0)]
    else
      var L := Level(P, n - 1);
      map p | p in L.Keys + AllOutputs(P) :: PartsAt(L, p) + Offers(P, L, p, 0)
  }

  lemma {:induction false} OfferedBy(P: Problem, L: Parts, o: string, i: nat, j: nat, tie: TieKey)
    requires i <= j < |P.solvers| && o in P.solvers[j].outputs && tie in Combos(P.solvers[j].inputs, L)
    ensures OutPart(P.solvers[j], o, tie) in Offers(P, L, o, i)
    decreases j - i
  {
    if i == j {
      var combos := Combos(P.solvers[i].inputs, L);
      var k :| 0 <= k < |combos| && combos[k] == tie;
      var head := seq(|combos|, k requires 0 <= k < |combos| => OutPart(P.solvers[i], o, combos[k]));
      assert head[k] == OutPart(P.solvers[j], o, tie);
      assert Offers(P, L, o, i) == head + Offers(P, L, o, i + 1);
    } else {
      OfferedBy(P, L, o, i + 1, j, tie);
    }
  }

  lemma {:induction false} KnownInLevel(P: Problem, n: nat, p: string)
    requires p in P.known
    ensures Part(Inflate(P.known[p], 0.0), 0.0) in PartsAt(Level(P, n), p)
  {
    hide Offers;
    if n > 0 { KnownInLevel(P, n - 1, p); }
  }

  lemma PartsChoice(L: Parts, inputs: seq<string>, tie: TieKey)
    requires tie.Keys == (set p | p in inputs) && forall p :: p in tie ==> tie[p] in PartsAt(L, p)
    ensures tie in Combos(inputs, L)
  {
    hide Combos;
    CombosAreChoices(inputs, L, tie);
  }

  lemma ApplicationInLevel(P: Problem, n: nat, idx: nat, out: string, tie: TieKey)
    requires idx < |P.solvers| && out in P.solvers[idx].outputs
    requires tie.Keys == (set p | p in P.solvers[idx].inputs) && forall p :: p in tie ==>
             tie[p] in PartsAt(Level(P, n), p)
    ensures OutPart(P.solvers[idx], out, tie) in PartsAt(Level(P, n + 1), out)
  {
    hide Combos, Offers, OutPart;
    PartsChoice(Level(P, n), P.solvers[idx].inputs, tie);
    OfferedBy(P, Level(P, n), out, 0, idx, tie);
    assert out in AllOutputs(P);
  }

  /** All keys that can ever be pushed. */
  function KeyUniverse(P: Problem, n: nat): set<Key> {
    set i, tie | 0 <= i < |P.solvers| && tie in Combos(P.solvers[i].inputs, Level(P, n)) :: Key(i, tie)
  }

  /** How many turns a search can take in which no join feeds itself. */
  function SearchBound(P: Problem): nat {
    |KeyUniverse(P, |AllOutputs(P)|)|
  }

  lemma TameInLevel(P: Problem, labels: Labels, p: string, w: Part)
    requires WfProblem(P) && Tame(P, labels, p, w)
    ensures w in PartsAt(Level(P, |AllOutputs(P)|), p)
  {
    hide Admissible, Worth, Straight, Backed, Level, WfProblem, PartsAt;
    var t :| TameBy(P, labels, t, p, w);
    StraightInLevel(P, |AllOutputs(P)|, t, AllOutputs(P));
  }

  lemma ChoiceInUniverse(P: Problem, labels: Labels, i: nat, c: map<string, Label>)
    requires WfProblem(P) && TameLabels(P, labels) && i < |P.solvers| && IsChoice(c, P.solvers[i].inputs, labels)
    ensures Key(i, KeyOf(c)) in KeyUniverse(P, |AllOutputs(P)|)
  {
    hide Level, Tame, Combos, PartsAt, WfProblem;
    var n := |AllOutputs(P)|;
    forall p | p in c ensures KeyOf(c)[p] in PartsAt(Level(P, n), p) {
      assert c[p] in LabelsAt(labels, p);
      TameInLevel(P, labels, p, c[p].Seen());
    }
    PartsChoice(Level(P, n), P.solvers[i].inputs, KeyOf(c));
  }

  lemma RefillInUniverse(P: Problem, S: State)
    requires WfProblem(P) && TameLabels(P, S.labels) && WfFrontier(S.frontier)
    requires S.frontier.pushed <= KeyUniverse(P, |AllOutputs(P)|)
    ensures Regenerate(P, S.labels, S.frontier).pushed <= KeyUniverse(P, |AllOutputs(P)|)
  {
    hide KeyUniverse, IsChoice, TameLabels, Regenerate, WfProblem;
    var f, g := S.frontier, Regenerate(P, S.labels, S.frontier);
    RegenerateSpec(P, S.labels, f);
    forall k | k in g.pushed ensures k in KeyUniverse(P, |AllOutputs(P)|) {
      if k !in f.pushed {
        var c :| c in g.queue && c.Id() == k;
        assert c !in f.queue;
        assert IsNew(P, S.labels, f, c);
        ChoiceInUniverse(P, S.labels, c.idx, c.inputs);
      }
    }
  }

  lemma TurnInUniverse(P: Problem, S: State, clock: real)
    requires WfProblem(P) && Inv(P, S, clock) && TameState(P, S) && S.frontier.pushed <= KeyUniverse(P, |AllOutputs(P)|)
    ensures Regenerate(P, S.labels, S.frontier).pushed <= KeyUniverse(P, |AllOutputs(P)|)
  {
    hide KeyUniverse, TameLabels, Regenerate, WfProblem;
    RefillInUniverse(P, S);
  }

  /** Where no join feeds itself a run cannot outlast its finite key universe. */
  lemma {:induction false} RunEnds(P: Problem, S: State, clock: real, limit: nat)
    requires WfProblem(P) && !SelfFed(P) && Inv(P, S, clock) && InRange(P, S.frontier.queue) && TameState(P, S)
    requires S.frontier.pushed <= KeyUniverse(P, |AllOutputs(P)|) && SearchBound(P) < limit + Retired(S.frontier)
    ensures !Run(P, S, limit).StillSearching?
    decreases limit
  {
    hide TakeTurn, Inv, KeyUniverse, WfProblem, InRange, Correct, SelfFed, TameLabels, TameQueue, AllOutputs;
    SubsetSize(S.frontier.pushed, KeyUniverse(P, |AllOutputs(P)|));
    if limit > 0 {
      var next := TurnCorrect(P, S, clock);
      TurnInRange(P, S);
      match TakeTurn(P, S)
      case Exhausted =>
      case Found(_, _) =>
      case Continue(T) =>
        TurnRetiresOne(P, S);
        TurnTame(P, S, clock);
        TurnInUniverse(P, S, clock);
        RunEnds(P, T, next, limit - 1);
    }
  }

  lemma {:induction false} SubsetSize<T>(a: set<T>, b: set<T>)
    requires a <= b
    ensures |a| <= |b|
  {
    if a != {} {
      var x :| x in a;
      SubsetSize(a - {x}, b - {x});
    }
  }

  /** Termination: where no join feeds itself the search ends within one turn more than the number of keys that exist,
      and any larger limit gives the same outcome. */
  lemma SearchEnds(P: Problem, limit: nat)
    requires WfProblem(P) && !SelfFed(P) && P.target !in P.known && limit > SearchBound(P)
    ensures !Run(P, Initial(P), limit).StillSearching?
    ensures Run(P, Initial(P), limit) == Run(P, Initial(P), SearchBound(P) + 1)
  {
    hide KeyUniverse, Inv, Run, SelfFed, TameState, AllOutputs;
    InitialInv(P);
    InitialTame(P);
    RunEnds(P, Initial(P), 0.0, SearchBound(P) + 1);
    RunStable(P, Initial(P), SearchBound(P) + 1, limit);
  }

  // ----- ranked ports -----

  /** Every output of a participating solver ranks above each of its inputs. */
  ghost predicate Ranked(P: Problem, rank: string -> nat) {
    forall i, p, o :: 0 <= i < |P.solvers| && Usable(P, i) && p in P.solvers[i].inputs && o in P.solvers[i].outputs ==>
      rank(p) < rank(o)
  }

  /** In a ranked registry no solver feeds its own inputs: they lie below everything it feeds. */
  lemma {:induction false} FeedsAbove(P: Problem, rank: string -> nat, i: nat, p: string, r: string)
    requires Ranked(P, rank) && Feeds(P, i, p) && i < |P.solvers| && r in P.solvers[i].inputs
    ensures rank(r) < rank(p)
    decreases rank(p)
  {
    hide Feeds;
    var j := LastFeeder(P, i, p);
    if j != i {
      var q :| q in P.solvers[j].inputs && Feeds(P, i, q);
      FeedsAbove(P, rank, i, q, r);
    }
  }

  lemma RankedFeedsNone(P: Problem, rank: string -> nat)
    requires Ranked(P, rank)
    ensures !SelfFed(P)
  {
    hide Feeds, Ranked;
    if i, p :| FeedsItself(P, i, p) { FeedsAbove(P, rank, i, p, p); }
  }

  /** In particular the search ends when every solver's outputs rank above its inputs. */
  lemma RankedSearchEnds(P: Problem, rank: string -> nat, limit: nat)
    requires WfProblem(P) && Ranked(P, rank) && P.target !in P.known && limit > SearchBound(P)
    ensures !Run(P, Initial(P), limit).StillSearching?
    ensures Run(P, Initial(P), limit) == Run(P, Initial(P), SearchBound(P) + 1)
  {
    hide Run, SelfFed, Ranked, SearchBound;
    RankedFeedsNone(P, rank);
    SearchEnds(P, limit);
  }
}
