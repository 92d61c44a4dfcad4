/** Partial correctness of the search: what a run that ends has found, against all admissible derivations. */
module PlanOptimal {
  import opened Wrappers
  import opened Intervals
  import opened Propagation
  import opened PlanModel
  import opened PlanLemmas
  import Names

  // ----- derivation trees: the reference the search is measured against -----

  /** A way to obtain a port: it is given, or a solver is applied to derivations of its inputs. */
  datatype Deriv = Given(port: string) | Apply(idx: nat, out: string, inputs: map<string, Deriv>) {
    function Port(): string {
      if Given? then port else out
    }
  }

  /** Every given port is known; every application is usable, fully supplied and inside its domain. */
  ghost predicate Admissible(P: Problem, t: Deriv) {
    match t
    case Given(p) => p in P.known
    case Apply(idx, out, inputs) =>
      && idx < |P.solvers| && Usable(P, idx) && out in P.solvers[idx].outputs
      && inputs.Keys == (set p | p in P.solvers[idx].inputs)
      && (forall p :: p in inputs ==> Admissible(P, inputs[p]) && inputs[p].Port() == p)
      && Admitted(P.solvers[idx], Worths(P, t), P.tags)
  }

  /** Inflated interval and additive cost of a derivation; a shared ancestor counts once per use. */
  ghost function Worth(P: Problem, t: Deriv): Part {
    match t
    case Given(p) => if p in P.known then Part(Inflate(P.known[p], 0.0), 0.0) else Part(Interval(0.0, 0.0), 0.0)
    case Apply(idx, out, inputs) =>
      if idx < |P.solvers| then OutPart(P.solvers[idx], out, map p | p in inputs :: Worth(P, inputs[p]))
      else Part(Interval(0.0, 0.0), 0.0)
  }

  ghost function Worths(P: Problem, t: Deriv): TieKey
    requires t.Apply?
  {
    map p | p in t.inputs :: Worth(P, t.inputs[p])
  }

  /** Some admissible derivation of `p` is worth exactly `w`. */
  ghost predicate Derivable(P: Problem, p: string, w: Part) {
    exists t :: Derives(P, t, p, w)
  }

  ghost predicate Derives(P: Problem, t: Deriv, p: string, w: Part) {
    Admissible(P, t) && t.Port() == p && Worth(P, t) == w
  }

  lemma {:induction false} WorthWf(P: Problem, t: Deriv)
    requires WfProblem(P) && Admissible(P, t)
    ensures WfPart(Worth(P, t))
    ensures t.Apply? ==> WfKey(Worths(P, t)) && Worth(P, t) == OutPart(P.solvers[t.idx], t.out, Worths(P, t))
    ensures t.Apply? ==> forall p :: p in t.inputs ==> Worth(P, t.inputs[p]).cost <= Worth(P, t).cost
    decreases t
  {
    match t
    case Given(p) =>
    case Apply(idx, out, inputs) =>
      forall p | p in inputs ensures WfPart(Worth(P, inputs[p])) { WorthWf(P, inputs[p]); }
      hide Admissible, WfPart, OutPart;
      ApplicationWf(P, t);
  }

  /** What `WorthWf` says of one application, given it of the inputs. */
  lemma ApplicationWf(P: Problem, t: Deriv)
    requires WfProblem(P) && t.Apply? && t.idx < |P.solvers|
    requires forall p :: p in t.inputs ==> WfPart(Worth(P, t.inputs[p]))
    ensures WfKey(Worths(P, t)) && Worth(P, t) == OutPart(P.solvers[t.idx], t.out, Worths(P, t)) && WfPart(Worth(P, t))
    ensures forall p :: p in t.inputs ==> Worth(P, t.inputs[p]).cost <= Worth(P, t).cost
  {
    var tie, s := Worths(P, t), P.solvers[t.idx];
    assert Worth(P, t) == OutPart(s, t.out, tie);
    assert forall p :: p in t.inputs ==> p in tie && tie[p] == Worth(P, t.inputs[p]);
    assert OutPart(s, t.out, tie).cost == OutCost(s, tie);
    hide Worth, Worths, OutPart, OutCost, WfPart;
    OutPartWf(s, t.out, tie);
  }

  lemma ApplyWorth(P: Problem, idx: nat, out: string, tie: TieKey, pick: map<string, Deriv>)
    requires idx < |P.solvers| && pick.Keys == tie.Keys
    requires forall p :: p in tie ==> Derives(P, pick[p], p, tie[p])
    ensures Worths(P, Apply(idx, out, pick)) == tie
    ensures Worth(P, Apply(idx, out, pick)) == OutPart(P.solvers[idx], out, tie)
  {
    hide OutPart, Admissible;
    var t := Apply(idx, out, pick);
    assert (map p | p in t.inputs :: Worth(P, t.inputs[p])) == tie;
  }

  lemma ApplyAdmissible(P: Problem, idx: nat, out: string, tie: TieKey, pick: map<string, Deriv>)
    requires idx < |P.solvers| && Usable(P, idx) && out in P.solvers[idx].outputs
    requires tie.Keys == (set p | p in P.solvers[idx].inputs) && Admitted(P.solvers[idx], tie, P.tags)
    requires pick.Keys == tie.Keys && forall p :: p in tie ==> Derives(P, pick[p], p, tie[p])
    ensures Admissible(P, Apply(idx, out, pick))
  {
    ApplyWorth(P, idx, out, tie, pick);
    forall p | p in pick ensures Admissible(P, pick[p]) && pick[p].Port() == p {
      assert Derives(P, pick[p], p, tie[p]);
    }
  }

  /** Applying a solver to derivable parts derives its outputs. */
  lemma ApplyDerives(P: Problem, idx: nat, out: string, tie: TieKey)
    requires idx < |P.solvers| && Usable(P, idx) && out in P.solvers[idx].outputs
    requires tie.Keys == (set p | p in P.solvers[idx].inputs) && Admitted(P.solvers[idx], tie, P.tags)
    requires forall p :: p in tie ==> Derivable(P, p, tie[p])
    ensures Derivable(P, out, OutPart(P.solvers[idx], out, tie))
  {
    hide Admissible, Worth, Admitted, OutPart;
    var pick := map p | p in tie :: var t :| Derives(P, t, p, tie[p]); t;
    ApplyWorth(P, idx, out, tie, pick);
    ApplyAdmissible(P, idx, out, tie, pick);
    assert Derives(P, Apply(idx, out, pick), out, OutPart(P.solvers[idx], out, tie));
  }

  // ----- the loop invariant -----

  /** A popped candidate is settled when each of its outputs was offered: a retained label covers it. */
  ghost predicate Settled(P: Problem, labels: Labels, key: Key) {
    key.idx < |P.solvers| && Admitted(P.solvers[key.idx], key.tie, P.tags) ==>
      forall o :: o in P.solvers[key.idx].outputs ==> Covered(labels, o, OutPart(P.solvers[key.idx], o, key.tie))
  }

  ghost predicate WfCandidate(P: Problem, c: Candidate) {
    && c.idx < |P.solvers| && Usable(P, c.idx)
    && c.inputs.Keys == (set p | p in P.solvers[c.idx].inputs)
    && c == CandidateFor(P, c.idx, c.inputs)
    && forall p :: p in c.inputs ==> Derivable(P, p, c.inputs[p].Seen())
  }

  ghost predicate LabelsSound(P: Problem, labels: Labels, clock: real) {
    forall p, l :: l in LabelsAt(labels, p) ==> l.cost <= clock && Derivable(P, p, l.Seen())
  }

  ghost predicate LabelsThin(labels: Labels) {
    forall p :: Antichain(LabelsAt(labels, p))
  }

  ghost predicate QueueSound(P: Problem, queue: seq<Candidate>, clock: real) {
    forall c :: c in queue ==> WfCandidate(P, c) && clock <= c.cost
  }

  ghost predicate KnownCovered(P: Problem, labels: Labels) {
    forall p :: p in P.known ==> Covered(labels, p, Part(Inflate(P.known[p], 0.0), 0.0))
  }

  ghost predicate PoppedSettled(P: Problem, labels: Labels, f: Frontier) {
    forall k :: k in f.pushed ==> Queued(f.queue, k) || Settled(P, labels, k)
  }

  /** Every choice whose candidate would cost less than the clock has been pushed. */
  ghost predicate CheapPushed(P: Problem, S: State, clock: real) {
    forall i, c :: (0 <= i < |P.solvers| && Usable(P, i) && IsChoice(c, P.solvers[i].inputs, S.labels) &&
                    OutCost(P.solvers[i], KeyOf(c)) < clock) ==> Key(i, KeyOf(c)) in S.frontier.pushed
  }

  ghost predicate OverBudget(P: Problem, labels: Labels) {
    forall l :: l in LabelsAt(labels, P.target) ==> l.Error() > P.budget
  }

  /** The parts of the invariant that the refill of the frontier does not touch. */
  ghost predicate InvLabels(P: Problem, S: State, clock: real) {
    && LabelsSound(P, S.labels, clock) && LabelsThin(S.labels)
    && KnownCovered(P, S.labels) && OverBudget(P, S.labels)
  }

  ghost predicate InvFrontier(P: Problem, S: State, clock: real) {
    WfFrontier(S.frontier) && QueueSound(P, S.frontier.queue, clock) && PoppedSettled(P, S.labels, S.frontier)
  }

  /** What holds at the head of the loop; `clock` is the cost of the last popped candidate. */
  ghost predicate Inv(P: Problem, S: State, clock: real) {
    InvLabels(P, S, clock) && InvFrontier(P, S, clock) && CheapPushed(P, S, clock)
  }

  ghost predicate Saturated(P: Problem, S: State) {
    forall i :: 0 <= i < |P.solvers| ==> AllPushed(P, S.labels, i, S.frontier.pushed)
  }

  lemma DerivableWf(P: Problem, p: string, w: Part)
    requires WfProblem(P) && Derivable(P, p, w)
    ensures WfPart(w)
  {
    var t :| Derives(P, t, p, w);
    WorthWf(P, t);
  }

  /** A choice of sound labels has a well-formed key, and no chosen label costs more than the candidate. */
  lemma ChoiceWf(P: Problem, labels: Labels, clock: real, i: nat, c: map<string, Label>)
    requires WfProblem(P) && LabelsSound(P, labels, clock) && i < |P.solvers|
    requires IsChoice(c, P.solvers[i].inputs, labels)
    ensures WfKey(KeyOf(c)) && OutCost(P.solvers[i], KeyOf(c)) >= 0.0
    ensures forall p :: p in c ==> Derivable(P, p, c[p].Seen()) && c[p].cost <= OutCost(P.solvers[i], KeyOf(c))
  {
    forall p | p in c ensures Derivable(P, p, c[p].Seen()) && WfPart(KeyOf(c)[p]) {
      assert c[p] in LabelsAt(labels, p);
      DerivableWf(P, p, c[p].Seen());
    }
    OutPartWf(P.solvers[i], "", KeyOf(c));
    forall p | p in c ensures c[p].cost <= OutCost(P.solvers[i], KeyOf(c)) {
      assert KeyOf(c)[p].cost == c[p].cost;
    }
  }

  lemma InitialInv(P: Problem)
    requires WfProblem(P) && P.target !in P.known
    ensures Inv(P, Initial(P), 0.0)
  {
    var S := Initial(P);
    forall p | p in P.known
      ensures Derivable(P, p, KnownLabel(P.known[p]).Seen())
      ensures Covered(S.labels, p, Part(Inflate(P.known[p], 0.0), 0.0))
    {
      assert Derives(P, Given(p), p, KnownLabel(P.known[p]).Seen());
      assert KnownLabel(P.known[p]) in LabelsAt(S.labels, p);
    }
    assert LabelsSound(P, S.labels, 0.0);
    forall i, c | 0 <= i < |P.solvers| && IsChoice(c, P.solvers[i].inputs, S.labels)
      ensures OutCost(P.solvers[i], KeyOf(c)) >= 0.0
    {
      ChoiceWf(P, S.labels, 0.0, i, c);
    }
  }

  // ----- refill -----

  function Refilled(P: Problem, S: State): State {
    S.(frontier := Regenerate(P, S.labels, S.frontier))
  }

  lemma RefillKeepsInv(P: Problem, S: State, clock: real)
    requires WfProblem(P) && Inv(P, S, clock)
    ensures InvLabels(P, Refilled(P, S), clock) && InvFrontier(P, Refilled(P, S), clock)
    ensures Saturated(P, Refilled(P, S))
  {
    var f, g := S.frontier, Regenerate(P, S.labels, S.frontier);
    RegenerateSpec(P, S.labels, f);
    forall c | c in g.queue ensures WfCandidate(P, c) && clock <= c.cost {
      if c !in f.queue {
        assert IsNew(P, S.labels, f, c);
        ChoiceWf(P, S.labels, clock, c.idx, c.inputs);
      }
    }
    forall k | k in g.pushed ensures Queued(g.queue, k) || Settled(P, S.labels, k) {
      if k in f.pushed && Queued(f.queue, k) { QueueGrows(f, g, k); }
    }
  }

  // ----- coverage of derivations -----

  /** Covers for every input of an application, taken together, are a choice that dominates its key. */
  lemma ChooseCovers(P: Problem, labels: Labels, idx: nat, worths: TieKey) returns (c: map<string, Label>)
    requires idx < |P.solvers| && worths.Keys == set p | p in P.solvers[idx].inputs
    requires forall p :: p in worths ==> Covered(labels, p, worths[p])
    ensures IsChoice(c, P.solvers[idx].inputs, labels) && DomKey(KeyOf(c), worths)
  {
    c := map p | p in worths :: var l :| l in LabelsAt(labels, p) && Dom(l.Seen(), worths[p]); l;
    forall p | p in c ensures p in labels && c[p] in labels[p] && Dom(KeyOf(c)[p], worths[p]) {
      assert c[p] in LabelsAt(labels, p);
    }
  }

  /** Every pushed application cheaper than `bound` has been popped and settled. */
  ghost predicate CheapSettled(P: Problem, S: State, bound: real) {
    forall k :: k in S.frontier.pushed && k.idx < |P.solvers| && OutCost(P.solvers[k.idx], k.tie) < bound ==>
      Settled(P, S.labels, k)
  }

  /** Once the frontier is full, every admissible derivation cheaper than everything still open is covered
      by a retained label: dominance pruning loses none of them. */
  lemma {:induction false} DerivationCovered(P: Problem, S: State, clock: real, bound: real, t: Deriv)
    requires WfProblem(P) && InvLabels(P, S, clock) && Saturated(P, S) && CheapSettled(P, S, bound)
    requires Admissible(P, t) && Worth(P, t).cost < bound
    ensures Covered(S.labels, t.Port(), Worth(P, t))
    decreases t
  {
    if t.Apply? {
      WorthWf(P, t);
      ApplicationParts(P, t);
      hide *;
      forall p | p in Worths(P, t) ensures Covered(S.labels, p, Worths(P, t)[p]) {
        DerivationCovered(P, S, clock, bound, t.inputs[p]);
      }
      ApplicationCovered(P, S, clock, bound, t.idx, t.out, Worths(P, t));
    }
  }

  lemma ApplicationParts(P: Problem, t: Deriv)
    requires Admissible(P, t) && t.Apply?
    ensures t.idx < |P.solvers| && Usable(P, t.idx) && t.out in P.solvers[t.idx].outputs
    ensures Worths(P, t).Keys == t.inputs.Keys == (set p | p in P.solvers[t.idx].inputs)
    ensures Admitted(P.solvers[t.idx], Worths(P, t), P.tags)
    ensures forall p :: p in t.inputs ==>
              Admissible(P, t.inputs[p]) && t.inputs[p].Port() == p && Worths(P, t)[p] == Worth(P, t.inputs[p])
  {
    hide Worth, Usable, Admitted;
  }

  lemma ApplicationCovered(P: Problem, S: State, clock: real, bound: real, idx: nat, out: string, worths: TieKey)
    requires WfProblem(P) && LabelsSound(P, S.labels, clock) && Saturated(P, S) && CheapSettled(P, S, bound)
    requires idx < |P.solvers| && Usable(P, idx) && out in P.solvers[idx].outputs
    requires worths.Keys == (set p | p in P.solvers[idx].inputs) && Admitted(P.solvers[idx], worths, P.tags)
    requires forall p :: p in worths ==> Covered(S.labels, p, worths[p])
    requires OutCost(P.solvers[idx], worths) < bound
    ensures Covered(S.labels, out, OutPart(P.solvers[idx], out, worths))
  {
    var c := ChooseCovers(P, S.labels, idx, worths);
    ChoiceWf(P, S.labels, clock, idx, c);
    ApplyMonotone(P.solvers[idx], out, KeyOf(c), worths, P.tags);
    assert AllPushed(P, S.labels, idx, S.frontier.pushed);
    assert Settled(P, S.labels, Key(idx, KeyOf(c)));
    CoveredTransitive(S.labels, out, OutPart(P.solvers[idx], out, KeyOf(c)), OutPart(P.solvers[idx], out, worths));
  }

  // ----- one expansion -----

  function Popped(S: State, b: nat): State
    requires b < |S.frontier.queue|
  {
    S.(frontier := Frontier(RemoveAt(S.frontier.queue, b), S.frontier.pushed))
  }

  /** The state right after the pop of a cheapest candidate. */
  ghost predicate AfterPop(P: Problem, S: State, c: Candidate) {
    && WfProblem(P) && InvLabels(P, S, c.cost) && WfFrontier(S.frontier) && QueueSound(P, S.frontier.queue, c.cost)
    && (forall k :: k in S.frontier.pushed ==> k == c.Id() || Queued(S.frontier.queue, k) || Settled(P, S.labels, k))
    && Saturated(P, S) && WfCandidate(P, c)
  }

  lemma PopEstablishes(P: Problem, S: State, clock: real, b: nat)
    requires WfProblem(P) && InvLabels(P, S, clock) && InvFrontier(P, S, clock) && Saturated(P, S)
    requires b < |S.frontier.queue| && forall j :: 0 <= j < |S.frontier.queue| ==>
                                         S.frontier.queue[b].cost <= S.frontier.queue[j].cost
    ensures AfterPop(P, Popped(S, b), S.frontier.queue[b])
  {
    var c, R := S.frontier.queue[b], Popped(S, b);
    assert c in S.frontier.queue;
    RemoveKeepsDistinct(S.frontier, b);
    forall d | d in R.frontier.queue ensures WfCandidate(P, d) && c.cost <= d.cost {
      RemoveMembers(S.frontier.queue, b, d);
    }
    forall k | k in R.frontier.pushed ensures k == c.Id() || Queued(R.frontier.queue, k) || Settled(P, R.labels, k) {
      RemoveQueued(S.frontier, b, k);
    }
  }

  lemma OutLabelSeen(s: Solver, tie: TieKey, o: string, cost: real, id: nat)
    requires o in s.outputs && cost == OutCost(s, tie)
    ensures o in Outputs(s, tie) && OutLabel(Outputs(s, tie)[o], cost, id).Seen() == OutPart(s, o, tie)
  {
  }

  lemma OutputDerivable(P: Problem, c: Candidate, o: string, id: nat)
    requires WfCandidate(P, c) && Admitted(P.solvers[c.idx], c.tie, P.tags) && o in P.solvers[c.idx].outputs
    ensures Derivable(P, o, OutLabel(Outputs(P.solvers[c.idx], c.tie)[o], c.cost, id).Seen())
  {
    hide Derivable, Usable, Admitted, OutPart, OutCost;
    assert c.tie == KeyOf(c.inputs) && forall p :: p in c.tie ==> c.tie[p] == c.inputs[p].Seen();
    hide WfCandidate, Outputs, OutLabel;
    OutLabelSeen(P.solvers[c.idx], c.tie, o, c.cost, id);
    ApplyDerives(P, c.idx, o, c.tie);
  }

  lemma CommitSound(P: Problem, S: State, c: Candidate, id: nat)
    requires LabelsSound(P, S.labels, c.cost) && WfCandidate(P, c) && Admitted(P.solvers[c.idx], c.tie, P.tags)
    ensures LabelsSound(P, Commit(S.labels, Outputs(P.solvers[c.idx], c.tie), c.cost, id), c.cost)
  {
    hide Derivable, Commit, Admitted, Usable, AnyCommitted;
    var outputs := Outputs(P.solvers[c.idx], c.tie);
    forall p, l | l in LabelsAt(Commit(S.labels, outputs, c.cost, id), p)
      ensures l.cost <= c.cost && Derivable(P, p, l.Seen())
    {
      CommitMembers(S.labels, outputs, c.cost, id, p, l);
      if l !in LabelsAt(S.labels, p) { OutputDerivable(P, c, p, id); }
    }
  }

  lemma CommitKeepsThin(P: Problem, labels: Labels, outputs: map<string, OutValue>, cost: real, id: nat)
    requires LabelsThin(labels)
    ensures LabelsThin(Commit(labels, outputs, cost, id))
  {
    forall p ensures Antichain(LabelsAt(Commit(labels, outputs, cost, id), p)) {
      assert Antichain(LabelsAt(labels, p));
      if p in outputs {
        InsertAntichain(LabelsAt(labels, p), OutLabel(outputs[p], cost, id));
      } else {
        assert LabelsAt(Commit(labels, outputs, cost, id), p) == LabelsAt(labels, p);
      }
    }
  }

  lemma CommitSettles(P: Problem, S: State, c: Candidate, id: nat, k: Key)
    requires AfterPop(P, S, c) && k.idx < |P.solvers| && Admitted(P.solvers[c.idx], c.tie, P.tags)
    requires k == c.Id() || Settled(P, S.labels, k)
    ensures Settled(P, Commit(S.labels, Outputs(P.solvers[c.idx], c.tie), c.cost, id), k)
  {
    var s := P.solvers[c.idx];
    var outputs := Outputs(s, c.tie);
    if Admitted(P.solvers[k.idx], k.tie, P.tags) {
      forall o | o in P.solvers[k.idx].outputs
        ensures Covered(Commit(S.labels, outputs, c.cost, id), o, OutPart(P.solvers[k.idx], o, k.tie))
      {
        CommitCovers(S.labels, outputs, c.cost, id, o, OutPart(P.solvers[k.idx], o, k.tie));
        if k == c.Id() { OutLabelSeen(s, c.tie, o, c.cost, id); }
      }
    }
  }

  lemma CommitKeepsCheap(P: Problem, S: State, c: Candidate, id: nat, arena: seq<StepNode>)
    requires AfterPop(P, S, c) && Admitted(P.solvers[c.idx], c.tie, P.tags)
    ensures CheapPushed(P, State(Commit(S.labels, Outputs(P.solvers[c.idx], c.tie), c.cost, id), S.frontier, arena),
                        c.cost)
  {
    var outputs := Outputs(P.solvers[c.idx], c.tie);
    var labels := Commit(S.labels, outputs, c.cost, id);
    CommitSound(P, S, c, id);
    forall i, d | 0 <= i < |P.solvers| && Usable(P, i) && IsChoice(d, P.solvers[i].inputs, labels) &&
                  OutCost(P.solvers[i], KeyOf(d)) < c.cost
      ensures Key(i, KeyOf(d)) in S.frontier.pushed
    {
      ChoiceWf(P, labels, c.cost, i, d);
      forall p | p in d ensures p in S.labels && d[p] in S.labels[p] {
        assert d[p] in LabelsAt(labels, p);
        CommitMembers(S.labels, outputs, c.cost, id, p, d[p]);
        assert d[p] in LabelsAt(S.labels, p);
      }
      assert IsChoice(d, P.solvers[i].inputs, S.labels);
      assert AllPushed(P, S.labels, i, S.frontier.pushed);
    }
  }

  /** A turn that neither ends the search nor finds a winner restores the invariant at the popped cost. */
  lemma ExpandKeepsInv(P: Problem, S: State, c: Candidate)
    requires AfterPop(P, S, c) && Expand(P, S, c).Continue?
    ensures Inv(P, Expand(P, S, c).next, c.cost)
  {
    var s := P.solvers[c.idx];
    if Admitted(s, c.tie, P.tags) {
      var outputs, id := Outputs(s, c.tie), |S.arena|;
      var T := Expand(P, S, c).next;
      CommitSound(P, S, c, id);
      CommitKeepsThin(P, S.labels, outputs, c.cost, id);
      CommitKeepsCheap(P, S, c, id, T.arena);
      forall p | p in P.known ensures Covered(T.labels, p, Part(Inflate(P.known[p], 0.0), 0.0)) {
        CommitCovers(S.labels, outputs, c.cost, id, p, Part(Inflate(P.known[p], 0.0), 0.0));
      }
      forall k | k in T.frontier.pushed ensures Queued(T.frontier.queue, k) || Settled(P, T.labels, k) {
        if !Queued(T.frontier.queue, k) && k.idx < |P.solvers| { CommitSettles(P, S, c, id, k); }
      }
      forall l | l in LabelsAt(T.labels, P.target) ensures l.Error() > P.budget {
        CommitMembers(S.labels, outputs, c.cost, id, P.target, l);
        BestWithinSpec(LabelsAt(T.labels, P.target), P.budget, 0, None);
      }
    } else {
      forall i, d | 0 <= i < |P.solvers| && Usable(P, i) && IsChoice(d, P.solvers[i].inputs, S.labels)
        ensures Key(i, KeyOf(d)) in S.frontier.pushed
      {
        assert AllPushed(P, S.labels, i, S.frontier.pushed);
      }
    }
  }

  /** The label of a derivation of the target within the budget costs at least as much as `w`. */
  ghost predicate Cheapest(P: Problem, w: Label) {
    forall t :: Admissible(P, t) && t.Port() == P.target && Worth(P, t).iv.HalfWidth() <= P.budget ==>
      w.cost <= Worth(P, t).cost
  }

  lemma WinnerFound(P: Problem, S: State, c: Candidate)
    requires c.idx < |P.solvers| && Expand(P, S, c).Found?
    ensures var labels := Commit(S.labels, Outputs(P.solvers[c.idx], c.tie), c.cost, |S.arena|);
            var w := Expand(P, S, c).winner;
            Admitted(P.solvers[c.idx], c.tie, P.tags) && w in LabelsAt(labels, P.target) && w.Error() <= P.budget
  {
    hide Outputs, Admitted, Commit, AnyCommitted;
    var labels := Commit(S.labels, Outputs(P.solvers[c.idx], c.tie), c.cost, |S.arena|);
    BestWithinSpec(LabelsAt(labels, P.target), P.budget, 0, None);
  }

  lemma WinnerIsCheapest(P: Problem, S: State, c: Candidate)
    requires AfterPop(P, S, c) && Expand(P, S, c).Found?
    ensures var w := Expand(P, S, c).winner; w.Error() <= P.budget && Derivable(P, P.target, w.Seen()) && Cheapest(P, w)
  {
    hide Expand, Commit, Admitted, Derivable, Admissible, Worth;
    var w := Expand(P, S, c).winner;
    WinnerFound(P, S, c);
    CommitSound(P, S, c, |S.arena|);
    forall t | Admissible(P, t) && t.Port() == P.target && Worth(P, t).iv.HalfWidth() <= P.budget
      ensures w.cost <= Worth(P, t).cost
    {
      if Worth(P, t).cost < c.cost { CheaperImpossible(P, S, c, t); }
    }
  }

  lemma QueuedCost(P: Problem, queue: seq<Candidate>, clock: real, k: Key)
    requires QueueSound(P, queue, clock) && Queued(queue, k)
    ensures k.idx < |P.solvers| && clock <= OutCost(P.solvers[k.idx], k.tie)
  {
    var d :| d in queue && d.Id() == k;
    assert WfCandidate(P, d);
  }

  /** Nothing cheaper than the popped candidate reaches the target within the budget. */
  lemma CheaperImpossible(P: Problem, S: State, c: Candidate, t: Deriv)
    requires AfterPop(P, S, c) && Admissible(P, t) && t.Port() == P.target
    requires Worth(P, t).cost < c.cost
    ensures Worth(P, t).iv.HalfWidth() > P.budget
  {
    forall k | k in S.frontier.pushed && k.idx < |P.solvers| && OutCost(P.solvers[k.idx], k.tie) < c.cost
      ensures Settled(P, S.labels, k)
    {
      if Queued(S.frontier.queue, k) { QueuedCost(P, S.frontier.queue, c.cost, k); }
    }
    DerivationCovered(P, S, c.cost, c.cost, t);
    var l :| l in LabelsAt(S.labels, P.target) && Dom(l.Seen(), Worth(P, t));
    TotalErrorIsInflatedHalfWidth(l.interval, l.eps, Worth(P, t).iv, 0.0);
  }

  // ----- whole runs -----

  /** What an emptied frontier leaves behind: labels that are derivable, over budget, and cover everything. */
  ghost predicate Complete(P: Problem, labels: Labels) {
    && (forall p, l :: l in LabelsAt(labels, p) ==> Derivable(P, p, l.Seen()))
    && (forall t :: Admissible(P, t) ==> Covered(labels, t.Port(), Worth(P, t)))
    && LabelsThin(labels) && OverBudget(P, labels)
  }

  lemma EmptyQueueIsComplete(P: Problem, S: State, clock: real)
    requires WfProblem(P) && InvLabels(P, S, clock) && InvFrontier(P, S, clock) && Saturated(P, S)
    requires S.frontier.queue == []
    ensures Complete(P, S.labels)
  {
    forall t | Admissible(P, t) ensures Covered(S.labels, t.Port(), Worth(P, t)) {
      assert forall k :: k in S.frontier.pushed ==> Settled(P, S.labels, k) by {
        forall k | k in S.frontier.pushed ensures Settled(P, S.labels, k) { assert !Queued(S.frontier.queue, k); }
      }
      DerivationCovered(P, S, clock, Worth(P, t).cost + 1.0, t);
    }
  }

  /** What every run that ends has established. */
  ghost predicate Correct(P: Problem, r: Outcome) {
    match r
    case Success(w, _) => w.Error() <= P.budget && Derivable(P, P.target, w.Seen()) && Cheapest(P, w)
    case Emptied(labels) => Complete(P, labels)
    case StillSearching => true
  }

  lemma TurnCorrect(P: Problem, S: State, clock: real) returns (next: real)
    requires WfProblem(P) && Inv(P, S, clock) && InRange(P, S.frontier.queue)
    ensures match TakeTurn(P, S)
            case Exhausted => Correct(P, Emptied(S.labels))
            case Found(w, arena) => Correct(P, Success(w, arena))
            case Continue(T) => Inv(P, T, next)
  {
    var R := Refilled(P, S);
    RefillKeepsInv(P, S, clock);
    RegenerateInRange(P, S.labels, 0, S.frontier);
    next := clock;
    if R.frontier.queue == [] {
      EmptyQueueIsComplete(P, R, clock);
    } else {
      var b := BestFrom(P, R.frontier.queue, 1, 0);
      BestIsCheapest(P, R.frontier.queue, 1, 0);
      PopEstablishes(P, R, clock, b);
      var c := R.frontier.queue[b];
      next := c.cost;
      match Expand(P, Popped(R, b), c)
      case Exhausted =>
      case Found(_, _) => WinnerIsCheapest(P, Popped(R, b), c);
      case Continue(_) => ExpandKeepsInv(P, Popped(R, b), c);
    }
  }

  lemma StillSearchingIsCorrect(P: Problem)
    ensures Correct(P, StillSearching)
  {
  }

  /** Every run that ends is correct, however many turns it takes and whatever was pruned on the way. */
  lemma {:induction false} RunCorrect(P: Problem, S: State, clock: real, limit: nat)
    requires WfProblem(P) && Inv(P, S, clock) && InRange(P, S.frontier.queue)
    ensures Correct(P, Run(P, S, limit))
    decreases limit
  {
    hide TakeTurn, Correct, Inv;
    StillSearchingIsCorrect(P);
    if limit > 0 {
      var next := TurnCorrect(P, S, clock);
      TurnInRange(P, S);
      match TakeTurn(P, S)
      case Exhausted =>
      case Found(_, _) =>
      case Continue(T) => RunCorrect(P, T, next, limit - 1);
    }
  }

  /** Optimality: a search that succeeds returns a label within the budget that some admissible derivation
      attains, and no admissible derivation within the budget is cheaper. */
  lemma SearchIsOptimal(P: Problem, limit: nat, t: Deriv)
    requires WfProblem(P) && P.target !in P.known && Run(P, Initial(P), limit).Success?
    requires Admissible(P, t) && t.Port() == P.target && Worth(P, t).iv.HalfWidth() <= P.budget
    ensures var w := Run(P, Initial(P), limit).winner;
            w.cost <= Worth(P, t).cost && w.Error() <= P.budget && Derivable(P, P.target, w.Seen())
  {
    InitialInv(P);
    RunCorrect(P, Initial(P), 0.0, limit);
  }

  // ----- failure values -----

  /** The least total error in a label set, as the source folds it. */
  function LeastError(ls: seq<Label>): real
    requires ls != []
  {
    if |ls| == 1 then ls[0].Error()
    else
      var rest := LeastError(ls[..|ls| - 1]);
      if ls[|ls| - 1].Error() < rest then ls[|ls| - 1].Error() else rest
  }

  lemma {:induction false} LeastErrorIsLeast(ls: seq<Label>)
    requires ls != []
    ensures exists l :: l in ls && l.Error() == LeastError(ls)
    ensures forall l :: l in ls ==> LeastError(ls) <= l.Error()
  {
    var n := |ls| - 1;
    assert ls[n] in ls;
    if n > 0 {
      LeastErrorIsLeast(ls[..n]);
      var l :| l in ls[..n] && l.Error() == LeastError(ls[..n]);
      assert l in ls;
    }
  }

  /** When the frontier empties, the target has a label exactly when some admissible derivation reaches it; then
      the least total error over the retained labels is the least over all admissible derivations, is attained
      by one, and exceeds the budget. */
  lemma FailureIsExact(P: Problem, labels: Labels)
    requires WfProblem(P) && Complete(P, labels)
    ensures LabelsAt(labels, P.target) == [] <==> !exists w :: Derivable(P, P.target, w)
    ensures LabelsAt(labels, P.target) != [] ==>
              var best := LeastError(LabelsAt(labels, P.target));
              && best > P.budget
              && (exists w :: Derivable(P, P.target, w) && w.iv.HalfWidth() == best)
              && (forall w :: Derivable(P, P.target, w) ==> best <= w.iv.HalfWidth())
  {
    var ls := LabelsAt(labels, P.target);
    forall w | Derivable(P, P.target, w) ensures ls != [] && LeastError(ls) <= w.iv.HalfWidth() {
      var t :| Derives(P, t, P.target, w);
      assert Covered(labels, P.target, w);
      var l :| l in ls && Dom(l.Seen(), w);
      LeastErrorIsLeast(ls);
      TotalErrorIsInflatedHalfWidth(l.interval, l.eps, w.iv, 0.0);
    }
    if ls != [] {
      LeastErrorIsLeast(ls);
      var l :| l in ls && l.Error() == LeastError(ls);
      assert Derivable(P, P.target, l.Seen());
      TotalErrorIsInflatedHalfWidth(l.interval, l.eps, l.interval, l.eps);
    }
  }
}
