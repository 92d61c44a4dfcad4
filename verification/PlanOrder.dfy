/** The order of the solver list does not matter: permuted registries run in lockstep. */
module PlanOrder {
  import opened Wrappers
  import opened Intervals
  import opened Propagation
  import opened PlanModel
  import opened PlanLemmas
  import opened PlanOptimal
  import Names

  ghost predicate StrictTotalOrder(before: (TieKey, TieKey) -> bool) {
    && (forall a :: !before(a, a))
    && (forall a, b, c :: before(a, b) && before(b, c) ==> before(a, c))
    && (forall a, b :: before(a, b) || a == b || before(b, a))
  }

  ghost predicate UniqueIds(P: Problem) {
    forall i, j :: 0 <= i < j < |P.solvers| ==> P.solvers[i].id != P.solvers[j].id
  }

  /** `to` sends positions of `P`'s solver list to positions of `Q`'s holding the same solver. */
  ghost predicate Sends(P: Problem, Q: Problem, to: seq<nat>) {
    |to| == |P.solvers| && forall i :: 0 <= i < |to| ==> to[i] < |Q.solvers| && Q.solvers[to[i]] == P.solvers[i]
  }

  /** The same request over the same solvers in another order. */
  ghost predicate Permuted(P: Problem, Q: Problem, to: seq<nat>, back: seq<nat>) {
    && Q == P.(solvers := Q.solvers)
    && Sends(P, Q, to) && Sends(Q, P, back)
    && UniqueIds(P) && UniqueIds(Q)
  }

  lemma PermutedBack(P: Problem, Q: Problem, to: seq<nat>, back: seq<nat>)
    requires Permuted(P, Q, to, back)
    ensures Permuted(Q, P, back, to)
    ensures forall i :: 0 <= i < |to| ==> back[to[i]] == i
    ensures forall i :: 0 <= i < |back| ==> to[back[i]] == i
  {
    forall i | 0 <= i < |to| ensures back[to[i]] == i { assert P.solvers[back[to[i]]] == P.solvers[i]; }
    forall i | 0 <= i < |back| ensures to[back[i]] == i { assert Q.solvers[to[back[i]]] == Q.solvers[i]; }
  }

  // ----- the unique minimum -----

  lemma BetterTransitive(P: Problem, a: Candidate, b: Candidate, c: Candidate)
    requires StrictTotalOrder(P.before) && a.idx < |P.solvers| && b.idx < |P.solvers| && c.idx < |P.solvers|
    requires Better(P, a, b) && Better(P, b, c)
    ensures Better(P, a, c)
  {
    var sa, sb, sc := P.solvers[a.idx].id, P.solvers[b.idx].id, P.solvers[c.idx].id;
    if a.cost == c.cost && Names.Before(sa, sb) && Names.Before(sb, sc) { Names.BeforeTransitive(sa, sb, sc); }
  }

  /** Incomparable candidates have the same key. */
  lemma BetterTotal(P: Problem, a: Candidate, b: Candidate)
    requires StrictTotalOrder(P.before) && UniqueIds(P) && a.idx < |P.solvers| && b.idx < |P.solvers|
    requires !Better(P, a, b) && !Better(P, b, a)
    ensures a.Id() == b.Id()
  {
    Names.BeforeTotal(P.solvers[a.idx].id, P.solvers[b.idx].id);
  }

  lemma {:induction false} BestIsLeast(P: Problem, queue: seq<Candidate>, i: nat, best: nat)
    requires StrictTotalOrder(P.before) && InRange(P, queue) && best < i <= |queue|
    requires forall j :: 0 <= j < i ==> !Better(P, queue[j], queue[best])
    ensures forall j :: 0 <= j < |queue| ==> !Better(P, queue[j], queue[BestFrom(P, queue, i, best)])
    decreases |queue| - i
  {
    if i < |queue| {
      if Better(P, queue[i], queue[best]) {
        BetterIrreflexive(P, queue[i]);
        forall j | 0 <= j <= i ensures !Better(P, queue[j], queue[i]) {
          if j < i && Better(P, queue[j], queue[i]) { BetterTransitive(P, queue[j], queue[i], queue[best]); }
        }
        BestIsLeast(P, queue, i + 1, i);
      } else {
        BestIsLeast(P, queue, i + 1, best);
      }
    }
  }

  lemma BetterIrreflexive(P: Problem, a: Candidate)
    requires StrictTotalOrder(P.before) && a.idx < |P.solvers|
    ensures !Better(P, a, a)
  {
    Names.BeforeIrreflexive(P.solvers[a.idx].id);
  }

  // ----- lockstep -----

  function Moved(c: Candidate, to: seq<nat>): Candidate
    requires c.idx < |to|
  {
    c.(idx := to[c.idx])
  }

  /** Everything pushed or queued on one side is pushed or queued, renumbered, on the other. */
  ghost predicate Includes(f: Frontier, g: Frontier, to: seq<nat>) {
    && (forall k :: k in f.pushed ==> k.idx < |to| && Key(to[k.idx], k.tie) in g.pushed)
    && (forall c :: c in f.queue ==> c.idx < |to| && Moved(c, to) in g.queue)
  }

  ghost predicate Mirrors(f: Frontier, g: Frontier, to: seq<nat>, back: seq<nat>) {
    Includes(f, g, to) && Includes(g, f, back)
  }

  /** Thin label sets tell labels apart by what consumers see. */
  lemma SeenDetermines(ls: seq<Label>, a: Label, b: Label)
    requires Antichain(ls) && a in ls && b in ls && a.Seen() == b.Seen()
    ensures a == b
  {
    var i :| 0 <= i < |ls| && ls[i] == a;
    var j :| 0 <= j < |ls| && ls[j] == b;
    if i != j { assert Dominates(ls[i], ls[j]); }
  }

  lemma KeyDetermines(P: Problem, labels: Labels, inputs: seq<string>, c: map<string, Label>, d: map<string, Label>)
    requires LabelsThin(labels) && IsChoice(c, inputs, labels) && IsChoice(d, inputs, labels) && KeyOf(c) == KeyOf(d)
    ensures c == d
  {
    forall p | p in c ensures p in d && c[p] == d[p] {
      assert p in KeyOf(c) && KeyOf(c)[p] == KeyOf(d)[p];
      assert Antichain(LabelsAt(labels, p));
      SeenDetermines(labels[p], c[p], d[p]);
    }
    assert c.Keys == d.Keys;
  }

  /** The refill adds exactly the new candidates. */
  lemma RefillIsNew(P: Problem, labels: Labels, f: Frontier, c: Candidate)
    requires LabelsThin(labels) && WfFrontier(f)
    ensures c in Regenerate(P, labels, f).queue <==> c in f.queue || IsNew(P, labels, f, c)
  {
    var g := Regenerate(P, labels, f);
    RegenerateSpec(P, labels, f);
    if c in f.queue {
      assert g.queue[..|f.queue|] == f.queue;
      assert c in g.queue;
    }
    if IsNew(P, labels, f, c) {
      assert AllPushed(P, labels, c.idx, g.pushed);
      assert Queued(g.queue, c.Id());
      var d :| d in g.queue && d.Id() == c.Id();
      assert d !in f.queue;
      assert IsNew(P, labels, f, d);
      KeyDetermines(P, labels, P.solvers[c.idx].inputs, c.inputs, d.inputs);
    }
  }

  lemma NewMoves(P: Problem, Q: Problem, to: seq<nat>, back: seq<nat>, labels: Labels, f: Frontier, g: Frontier,
                 c: Candidate)
    requires Permuted(P, Q, to, back) && Includes(g, f, back) && IsNew(P, labels, f, c)
    ensures IsNew(Q, labels, g, Moved(c, to))
  {
    PermutedBack(P, Q, to, back);
    assert back[to[c.idx]] == c.idx;
  }

  lemma RefillQueueIncludes(P: Problem, Q: Problem, to: seq<nat>, back: seq<nat>, labels: Labels, f: Frontier,
                            g: Frontier, c: Candidate)
    requires Permuted(P, Q, to, back) && Mirrors(f, g, to, back) && LabelsThin(labels)
    requires WfFrontier(f) && WfFrontier(g) && c in Regenerate(P, labels, f).queue
    ensures c.idx < |to| && Moved(c, to) in Regenerate(Q, labels, g).queue
  {
    hide Regenerate, WfFrontier, LabelsThin;
    RefillIsNew(P, labels, f, c);
    if IsNew(P, labels, f, c) { NewMoves(P, Q, to, back, labels, f, g, c); }
    RefillIsNew(Q, labels, g, Moved(c, to));
  }

  lemma RefillPushedIncludes(P: Problem, labels: Labels, f: Frontier, f': Frontier, g: Frontier, g': Frontier,
                             to: seq<nat>)
    requires Includes(f, g, to) && Grows(P, labels, f, f') && g.pushed <= g'.pushed && WfFrontier(g')
    requires forall c :: c in f'.queue ==> c.idx < |to| && Moved(c, to) in g'.queue
    ensures Includes(f', g', to)
  {
    forall k | k in f'.pushed ensures k.idx < |to| && Key(to[k.idx], k.tie) in g'.pushed {
      if k !in f.pushed {
        var c :| c in f'.queue && c.Id() == k;
        assert Moved(c, to) in g'.queue && Moved(c, to).Id() == Key(to[k.idx], k.tie);
      }
    }
  }

  lemma RefillIncludes(P: Problem, Q: Problem, to: seq<nat>, back: seq<nat>, labels: Labels, f: Frontier, g: Frontier)
    requires Permuted(P, Q, to, back) && Mirrors(f, g, to, back) && LabelsThin(labels)
    requires WfFrontier(f) && WfFrontier(g)
    ensures Includes(Regenerate(P, labels, f), Regenerate(Q, labels, g), to)
  {
    var f', g' := Regenerate(P, labels, f), Regenerate(Q, labels, g);
    hide Regenerate, Permuted, LabelsThin;
    forall c | c in f'.queue ensures c.idx < |to| && Moved(c, to) in g'.queue {
      RefillQueueIncludes(P, Q, to, back, labels, f, g, c);
    }
    GrowsKeeps(P, labels, f);
    GrowsKeeps(Q, labels, g);
    hide Grows, WfFrontier;
    RefillPushedIncludes(P, labels, f, f', g, g', to);
  }

  lemma GrowsKeeps(P: Problem, labels: Labels, f: Frontier)
    requires WfFrontier(f)
    ensures var g := Regenerate(P, labels, f); Grows(P, labels, f, g) && f.pushed <= g.pushed && WfFrontier(g)
  {
    RegenerateSpec(P, labels, f);
  }

  lemma RefillMirrors(P: Problem, Q: Problem, to: seq<nat>, back: seq<nat>, labels: Labels, f: Frontier, g: Frontier)
    requires Permuted(P, Q, to, back) && Mirrors(f, g, to, back) && LabelsThin(labels)
    requires WfFrontier(f) && WfFrontier(g)
    ensures Mirrors(Regenerate(P, labels, f), Regenerate(Q, labels, g), to, back)
  {
    hide Regenerate, Includes;
    RefillIncludes(P, Q, to, back, labels, f, g);
    PermutedBack(P, Q, to, back);
    RefillIncludes(Q, P, back, to, labels, g, f);
  }

  ghost predicate Least(P: Problem, queue: seq<Candidate>, c: Candidate) {
    InRange(P, queue) && c in queue && forall d :: d in queue ==> !Better(P, d, c)
  }

  /** The popped candidate has the least cost; among those of that cost the first solver id; and among those of that
      id the least tie key. */
  lemma PopIsLeast(P: Problem, queue: seq<Candidate>)
    requires StrictTotalOrder(P.before) && InRange(P, queue) && queue != []
    ensures Least(P, queue, queue[BestFrom(P, queue, 1, 0)])
    ensures var b := queue[BestFrom(P, queue, 1, 0)];
            forall c :: c in queue ==>
              && b.cost <= c.cost
              && (b.cost == c.cost ==> P.solvers[b.idx].id == P.solvers[c.idx].id ||
                                       Names.Before(P.solvers[b.idx].id, P.solvers[c.idx].id))
              && (b.cost == c.cost && P.solvers[b.idx].id == P.solvers[c.idx].id ==> !P.before(c.tie, b.tie))
  {
    var b := queue[BestFrom(P, queue, 1, 0)];
    BetterIrreflexive(P, queue[0]);
    BestIsLeast(P, queue, 1, 0);
    forall c | c in queue
      ensures !Better(P, c, b) && (b.cost == c.cost ==> P.solvers[b.idx].id == P.solvers[c.idx].id ||
                                                        Names.Before(P.solvers[b.idx].id, P.solvers[c.idx].id))
    {
      Names.BeforeTotal(P.solvers[b.idx].id, P.solvers[c.idx].id);
    }
  }

  lemma BetterMoves(P: Problem, Q: Problem, to: seq<nat>, a: Candidate, b: Candidate)
    requires Sends(P, Q, to) && Q == P.(solvers := Q.solvers) && a.idx < |to| && b.idx < |to|
    ensures Better(Q, Moved(a, to), Moved(b, to)) == Better(P, a, b)
  {
  }

  lemma LeastMirrors(P: Problem, Q: Problem, to: seq<nat>, back: seq<nat>, f: Frontier, g: Frontier,
                     c: Candidate, d: Candidate)
    requires Permuted(P, Q, to, back) && StrictTotalOrder(P.before) && Mirrors(f, g, to, back) && WfFrontier(g)
    requires Least(P, f.queue, c) && Least(Q, g.queue, d)
    ensures c.idx < |to| == |P.solvers| && d == Moved(c, to) && d.idx < |Q.solvers|
  {
    hide StrictTotalOrder, WfFrontier;
    PermutedBack(P, Q, to, back);
    var e := Moved(d, back);
    assert e in f.queue && Moved(c, to) in g.queue;
    assert Moved(e, to) == d;
    BetterMoves(P, Q, to, e, c);
    BetterTotal(Q, d, Moved(c, to));
    SameKeySameCandidate(g, d, Moved(c, to));
  }

  lemma SameKeySameCandidate(g: Frontier, c: Candidate, d: Candidate)
    requires WfFrontier(g) && c in g.queue && d in g.queue && c.Id() == d.Id()
    ensures c == d
  {
    var i :| 0 <= i < |g.queue| && g.queue[i] == c;
    var j :| 0 <= j < |g.queue| && g.queue[j] == d;
  }

  lemma RemoveIncludes(P: Problem, Q: Problem, to: seq<nat>, back: seq<nat>, f: Frontier, g: Frontier, i: nat, j: nat)
    requires Permuted(P, Q, to, back) && Includes(f, g, to) && WfFrontier(f)
    requires i < |f.queue| && j < |g.queue| && f.queue[i].idx < |to| && g.queue[j] == Moved(f.queue[i], to)
    ensures Includes(Frontier(RemoveAt(f.queue, i), f.pushed), Frontier(RemoveAt(g.queue, j), g.pushed), to)
  {
    var rest := RemoveAt(f.queue, i);
    forall c | c in rest ensures c.idx < |to| && Moved(c, to) in RemoveAt(g.queue, j) {
      RemoveMembers(f.queue, i, c);
      RemoveMembers(g.queue, j, Moved(c, to));
      if Moved(c, to) == g.queue[j] {
        MovedInjective(P, Q, to, back, c, f.queue[i]);
        assert Queued(rest, c.Id());
        RemoveQueued(f, i, c.Id());
      }
    }
  }

  lemma MovedInjective(P: Problem, Q: Problem, to: seq<nat>, back: seq<nat>, c: Candidate, d: Candidate)
    requires Permuted(P, Q, to, back) && c.idx < |to| && d.idx < |to| && Moved(c, to) == Moved(d, to)
    ensures c == d
  {
    PermutedBack(P, Q, to, back);
    assert back[to[c.idx]] == c.idx && back[to[d.idx]] == d.idx;
  }

  lemma RemoveMirrors(P: Problem, Q: Problem, to: seq<nat>, back: seq<nat>, f: Frontier, g: Frontier, i: nat, j: nat)
    requires Permuted(P, Q, to, back) && Mirrors(f, g, to, back) && WfFrontier(f) && WfFrontier(g)
    requires i < |f.queue| && j < |g.queue| && f.queue[i].idx < |to| && g.queue[j] == Moved(f.queue[i], to)
    ensures Mirrors(Frontier(RemoveAt(f.queue, i), f.pushed), Frontier(RemoveAt(g.queue, j), g.pushed), to, back)
  {
    RemoveIncludes(P, Q, to, back, f, g, i, j);
    PermutedBack(P, Q, to, back);
    assert back[to[f.queue[i].idx]] == f.queue[i].idx;
    RemoveIncludes(Q, P, back, to, g, f, j, i);
  }

  /** Two states that agree on labels and arena, and on the frontier up to numbering. */
  ghost predicate Lockstep(P: Problem, Q: Problem, to: seq<nat>, back: seq<nat>, S: State, T: State) {
    && S.labels == T.labels && S.arena == T.arena && Mirrors(S.frontier, T.frontier, to, back)
    && InRange(P, S.frontier.queue) && InRange(Q, T.frontier.queue)
  }

  lemma ExpandLockstep(P: Problem, Q: Problem, to: seq<nat>, back: seq<nat>, S: State, T: State, c: Candidate)
    requires Permuted(P, Q, to, back) && Lockstep(P, Q, to, back, S, T) && c.idx < |to|
    ensures match Expand(P, S, c)
            case Exhausted => false
            case Found(w, arena) => Expand(Q, T, Moved(c, to)) == Found(w, arena)
            case Continue(S') => Expand(Q, T, Moved(c, to)).Continue? &&
                                 Lockstep(P, Q, to, back, S', Expand(Q, T, Moved(c, to)).next)
  {
    hide Mirrors, Commit, Admitted, Outputs, AnyCommitted, InRange;
    assert Winner(P, Commit(S.labels, Outputs(P.solvers[c.idx], c.tie), c.cost, |S.arena|)) ==
           Winner(Q, Commit(S.labels, Outputs(P.solvers[c.idx], c.tie), c.cost, |S.arena|));
  }

  lemma TurnUnfolds(P: Problem, S: State)
    requires InRange(P, S.frontier.queue)
    ensures var f := Regenerate(P, S.labels, S.frontier);
            InRange(P, f.queue) &&
            if f.queue == [] then TakeTurn(P, S) == Exhausted
            else var b := BestFrom(P, f.queue, 1, 0);
                 TakeTurn(P, S) == Expand(P, State(S.labels, Frontier(RemoveAt(f.queue, b), f.pushed), S.arena),
                                          f.queue[b])
  {
    RegenerateInRange(P, S.labels, 0, S.frontier);
  }

  lemma TurnLockstep(P: Problem, Q: Problem, to: seq<nat>, back: seq<nat>, S: State, T: State, clock: real, tick: real)
    requires WfProblem(P) && WfProblem(Q) && Permuted(P, Q, to, back) && StrictTotalOrder(P.before)
    requires Lockstep(P, Q, to, back, S, T) && Inv(P, S, clock) && Inv(Q, T, tick)
    ensures match TakeTurn(P, S)
            case Exhausted => TakeTurn(Q, T).Exhausted?
            case Found(w, arena) => TakeTurn(Q, T) == Found(w, arena)
            case Continue(S') => TakeTurn(Q, T).Continue? && Lockstep(P, Q, to, back, S', TakeTurn(Q, T).next)
  {
    var f, g := Regenerate(P, S.labels, S.frontier), Regenerate(Q, T.labels, T.frontier);
    hide Inv, Expand, Regenerate, WfProblem, StrictTotalOrder, TakeTurn, Permuted, LabelsThin, Mirrors, BestFrom,
         WfFrontier, Least;
    RefillFacts(P, S, clock);
    RefillFacts(Q, T, tick);
    TurnUnfolds(P, S);
    TurnUnfolds(Q, T);
    RefillMirrors(P, Q, to, back, S.labels, S.frontier, T.frontier);
    MirrorsEmpty(f, g, to, back);
    SameOrder(P, Q, to, back);
    if f.queue != [] {
      PopIsLeast(P, f.queue);
      PopIsLeast(Q, g.queue);
      var i, j := BestFrom(P, f.queue, 1, 0), BestFrom(Q, g.queue, 1, 0);
      LeastMirrors(P, Q, to, back, f, g, f.queue[i], g.queue[j]);
      PoppedLockstep(P, Q, to, back, S, T, f, g, i, j);
    }
  }

  lemma SameOrder(P: Problem, Q: Problem, to: seq<nat>, back: seq<nat>)
    requires Permuted(P, Q, to, back)
    ensures P.before == Q.before
  {
  }

  lemma MirrorsEmpty(f: Frontier, g: Frontier, to: seq<nat>, back: seq<nat>)
    requires Mirrors(f, g, to, back)
    ensures f.queue == [] <==> g.queue == []
  {
    if f.queue != [] { assert f.queue[0] in f.queue; }
    if g.queue != [] { assert g.queue[0] in g.queue; }
  }

  lemma PoppedLockstep(P: Problem, Q: Problem, to: seq<nat>, back: seq<nat>, S: State, T: State, f: Frontier,
                       g: Frontier, i: nat, j: nat)
    requires Permuted(P, Q, to, back) && Mirrors(f, g, to, back) && InRange(P, f.queue) && InRange(Q, g.queue)
    requires WfFrontier(f) && WfFrontier(g) && i < |f.queue| && j < |g.queue|
    requires f.queue[i].idx < |to| == |P.solvers| && g.queue[j] == Moved(f.queue[i], to) && g.queue[j].idx < |Q.solvers|
    requires S.labels == T.labels && S.arena == T.arena
    ensures var E := Expand(P, State(S.labels, Frontier(RemoveAt(f.queue, i), f.pushed), S.arena), f.queue[i]);
            var F := Expand(Q, State(T.labels, Frontier(RemoveAt(g.queue, j), g.pushed), T.arena), g.queue[j]);
            match E
            case Exhausted => false
            case Found(w, arena) => F == Found(w, arena)
            case Continue(S') => F.Continue? && Lockstep(P, Q, to, back, S', F.next)
  {
    RemoveMirrors(P, Q, to, back, f, g, i, j);
    RestInRange(P, f.queue, i);
    RestInRange(Q, g.queue, j);
    hide Mirrors, RemoveAt, WfFrontier, Expand, Permuted, InRange;
    ExpandLockstep(P, Q, to, back, State(S.labels, Frontier(RemoveAt(f.queue, i), f.pushed), S.arena),
                   State(T.labels, Frontier(RemoveAt(g.queue, j), g.pushed), T.arena), f.queue[i]);
  }

  lemma RestInRange(P: Problem, queue: seq<Candidate>, i: nat)
    requires InRange(P, queue) && i < |queue|
    ensures InRange(P, RemoveAt(queue, i))
  {
    forall c | c in RemoveAt(queue, i) ensures c.idx < |P.solvers| { RemoveMembers(queue, i, c); }
  }

  lemma RefillFacts(P: Problem, S: State, clock: real)
    requires WfProblem(P) && Inv(P, S, clock) && InRange(P, S.frontier.queue)
    ensures LabelsThin(S.labels) && WfFrontier(S.frontier) && WfFrontier(Regenerate(P, S.labels, S.frontier))
    ensures InRange(P, Regenerate(P, S.labels, S.frontier).queue)
  {
    RefillKeepsInv(P, S, clock);
    RegenerateInRange(P, S.labels, 0, S.frontier);
  }

  lemma {:induction false} RunLockstep(P: Problem, Q: Problem, to: seq<nat>, back: seq<nat>, S: State, T: State,
                                       clock: real, tick: real, limit: nat)
    requires WfProblem(P) && WfProblem(Q) && Permuted(P, Q, to, back) && StrictTotalOrder(P.before)
    requires Lockstep(P, Q, to, back, S, T) && Inv(P, S, clock) && Inv(Q, T, tick)
    ensures Run(P, S, limit) == Run(Q, T, limit)
    decreases limit
  {
    hide TakeTurn, Inv, WfProblem, Permuted, StrictTotalOrder, Mirrors, Correct;
    if limit > 0 {
      TurnLockstep(P, Q, to, back, S, T, clock, tick);
      var c := TurnCorrect(P, S, clock);
      var t := TurnCorrect(Q, T, tick);
      TurnInRange(P, S);
      TurnInRange(Q, T);
      match TakeTurn(P, S)
      case Exhausted =>
      case Found(_, _) =>
      case Continue(S') => RunLockstep(P, Q, to, back, S', TakeTurn(Q, T).next, c, t, limit - 1);
    }
  }

  /** Order independence: permuting a solver list with unique ids changes no outcome, down to the labels left in
      every set and the arena of steps. */
  lemma OrderDoesNotMatter(P: Problem, Q: Problem, to: seq<nat>, back: seq<nat>, limit: nat)
    requires WfProblem(P) && Permuted(P, Q, to, back) && StrictTotalOrder(P.before) && P.target !in P.known
    ensures Run(P, Initial(P), limit) == Run(Q, Initial(Q), limit)
  {
    forall j | 0 <= j < |Q.solvers| ensures WfSolver(Q.solvers[j]) { assert P.solvers[back[j]] == Q.solvers[j]; }
    InitialInv(P);
    InitialInv(Q);
    RunLockstep(P, Q, to, back, Initial(P), Initial(Q), 0.0, 0.0, limit);
  }
}
