/** Facts about single operations of the planner: dominance, label insertion, candidate generation, the pop. */
module PlanLemmas {
  import opened Wrappers
  import opened Intervals
  import opened Propagation
  import opened PlanModel
  import Names

  // ----- monotonicity of one solver application -----

  ghost predicate WfProblem(P: Problem) {
    && (forall i :: 0 <= i < |P.solvers| ==> WfSolver(P.solvers[i]))
    && (forall p :: p in P.known ==> P.known[p].Valid())
  }

  ghost predicate WfSolver(s: Solver) {
    s.cost >= 0.0 && forall o :: o in s.accuracy ==> s.accuracy[o].Valid()
  }

  ghost predicate WfPart(a: Part) {
    a.iv.Valid() && a.cost >= 0.0
  }

  ghost predicate WfKey(tie: TieKey) {
    forall p :: p in tie ==> WfPart(tie[p])
  }

  /** Port by port, `a` is at most as expensive and at most as wide as `b`. */
  ghost predicate DomKey(a: TieKey, b: TieKey) {
    a.Keys == b.Keys && forall p :: p in a ==> Dom(a[p], b[p])
  }

  lemma SumHullMonotone(a: Box, b: Box)
    requires a.Keys == b.Keys && forall p :: p in a ==> a[p].IsSubset(b[p])
    ensures SumHull(a).IsSubset(SumHull(b))
  {
    Names.SumMonotone(map p | p in b :: b[p].lo, map p | p in a :: a[p].lo);
    Names.SumMonotone(map p | p in a :: a[p].hi, map p | p in b :: b[p].hi);
  }

  lemma SumHullValid(a: Box)
    requires forall p :: p in a ==> a[p].Valid()
    ensures SumHull(a).Valid()
  {
    Names.SumMonotone(map p | p in a :: a[p].lo, map p | p in a :: a[p].hi);
  }

  lemma OutEpsMonotone(s: Solver, o: string, a: Interval, b: Interval)
    requires WfSolver(s) && a.Valid() && a.IsSubset(b)
    ensures 0.0 <= OutEps(s, o, a) <= OutEps(s, o, b)
  {
    if o in s.accuracy { WorstOverMonotone(s.accuracy[o], a, b); }
  }

  lemma OutPartWf(s: Solver, o: string, tie: TieKey)
    requires WfSolver(s) && WfKey(tie)
    ensures WfPart(OutPart(s, o, tie))
    ensures forall p :: p in tie ==> tie[p].cost <= OutCost(s, tie)
  {
    SumHullValid(Boxes(tie));
    OutEpsMonotone(s, o, SumHull(Boxes(tie)), SumHull(Boxes(tie)));
    Names.SumBounds(Costs(tie));
    forall p | p in tie ensures tie[p].cost <= OutCost(s, tie) { assert Costs(tie)[p] == tie[p].cost; }
  }

  /** Tighter and cheaper inputs stay admitted and give tighter and cheaper outputs. */
  lemma ApplyMonotone(s: Solver, o: string, a: TieKey, b: TieKey, tags: set<string>)
    requires WfSolver(s) && WfKey(a) && DomKey(a, b)
    ensures Admitted(s, b, tags) ==> Admitted(s, a, tags)
    ensures Dom(OutPart(s, o, a), OutPart(s, o, b))
  {
    if Admitted(s, b, tags) { AdmitsAntitone(InputDomain(s), Boxes(b), Boxes(a), tags); }
    hide Admitted;
    OutPartMonotone(s, o, a, b);
  }

  lemma OutPartMonotone(s: Solver, o: string, a: TieKey, b: TieKey)
    requires WfSolver(s) && WfKey(a) && DomKey(a, b)
    ensures Dom(OutPart(s, o, a), OutPart(s, o, b))
  {
    SumHullMonotone(Boxes(a), Boxes(b));
    SumHullValid(Boxes(a));
    Names.SumMonotone(Costs(a), Costs(b));
    hide SumHull, OutEps, WfKey, DomKey, Boxes, Costs, Names.Sum;
    OutEpsMonotone(s, o, SumHull(Boxes(a)), SumHull(Boxes(b)));
  }

  // ----- label sets -----

  lemma DomTransitive(a: Part, b: Part, c: Part)
    requires Dom(a, b) && Dom(b, c)
    ensures Dom(a, c)
  {
  }

  ghost predicate CoveredIn(ls: seq<Label>, w: Part) {
    exists l :: l in ls && Dom(l.Seen(), w)
  }

  ghost predicate Covered(labels: Labels, p: string, w: Part) {
    CoveredIn(LabelsAt(labels, p), w)
  }

  lemma CoveredTransitive(labels: Labels, p: string, v: Part, w: Part)
    requires Covered(labels, p, v) && Dom(v, w)
    ensures Covered(labels, p, w)
  {
    var l :| l in LabelsAt(labels, p) && Dom(l.Seen(), v);
    DomTransitive(l.Seen(), v, w);
  }

  /** No member dominates another. */
  ghost predicate Antichain(ls: seq<Label>) {
    forall i, j :: 0 <= i < |ls| && 0 <= j < |ls| && i != j ==> !Dominates(ls[i], ls[j])
  }

  lemma {:induction false} RetainMembers(ls: seq<Label>, l: Label, m: Label)
    ensures m in Retain(ls, l) <==> m in ls && !Dominates(l, m)
  {
    if ls != [] {
      RetainMembers(ls[1..], l, m);
      assert ls == [ls[0]] + ls[1..];
    }
  }

  lemma {:induction false} RetainAntichain(ls: seq<Label>, l: Label)
    requires Antichain(ls)
    ensures Antichain(Retain(ls, l))
  {
    if ls != [] {
      RetainAntichain(ls[1..], l);
      if !Dominates(l, ls[0]) {
        var rest := Retain(ls[1..], l);
        forall j | 0 <= j < |rest| ensures !Dominates(ls[0], rest[j]) && !Dominates(rest[j], ls[0]) {
          assert rest[j] in rest;
          RetainMembers(ls[1..], l, rest[j]);
          var k :| 0 <= k < |ls[1..]| && ls[1..][k] == rest[j];
          assert ls[k + 1] == rest[j];
        }
      }
    }
  }

  /** Insertion covers the offer, never uncovers anything, invents nothing, and keeps the antichain. */
  lemma InsertCovers(ls: seq<Label>, l: Label, w: Part)
    ensures CoveredIn(InsertLabel(ls, l), l.Seen())
    ensures CoveredIn(ls, w) ==> CoveredIn(InsertLabel(ls, l), w)
  {
    var r := InsertLabel(ls, l);
    if AnyDominates(ls, l) {
      var m :| m in ls && Dominates(m, l);
      assert Dom(m.Seen(), l.Seen());
    } else {
      assert l in r && Dom(l.Seen(), l.Seen());
      if CoveredIn(ls, w) {
        var m :| m in ls && Dom(m.Seen(), w);
        RetainMembers(ls, l, m);
        if Dominates(l, m) { DomTransitive(l.Seen(), m.Seen(), w); } else { assert m in r; }
      }
    }
  }

  lemma InsertMembers(ls: seq<Label>, l: Label, m: Label)
    requires m in InsertLabel(ls, l)
    ensures m in ls || (m == l && !AnyDominates(ls, l))
  {
    if !AnyDominates(ls, l) { RetainMembers(ls, l, m); }
  }

  lemma InsertAntichain(ls: seq<Label>, l: Label)
    requires Antichain(ls)
    ensures Antichain(InsertLabel(ls, l))
  {
    if !AnyDominates(ls, l) {
      RetainAntichain(ls, l);
      var kept := Retain(ls, l);
      forall i | 0 <= i < |kept| ensures !Dominates(kept[i], l) && !Dominates(l, kept[i]) {
        assert kept[i] in kept;
        RetainMembers(ls, l, kept[i]);
      }
    }
  }

  lemma CommitCovers(labels: Labels, outputs: map<string, OutValue>, cost: real, id: nat, p: string, w: Part)
    ensures Covered(labels, p, w) ==> Covered(Commit(labels, outputs, cost, id), p, w)
    ensures p in outputs ==> Covered(Commit(labels, outputs, cost, id), p, OutLabel(outputs[p], cost, id).Seen())
  {
    if p in outputs { InsertCovers(LabelsAt(labels, p), OutLabel(outputs[p], cost, id), w); }
  }

  lemma CommitMembers(labels: Labels, outputs: map<string, OutValue>, cost: real, id: nat, p: string, m: Label)
    requires m in LabelsAt(Commit(labels, outputs, cost, id), p)
    ensures m in LabelsAt(labels, p) ||
            (p in outputs && m == OutLabel(outputs[p], cost, id) && AnyCommitted(labels, outputs, cost, id))
  {
    if p in outputs {
      InsertMembers(LabelsAt(labels, p), OutLabel(outputs[p], cost, id), m);
    }
  }

  // ----- candidate generation -----

  /** `c` picks one member of every input port's set. */
  ghost predicate IsChoice<T>(c: map<string, T>, inputs: seq<string>, labels: map<string, seq<T>>) {
    c.Keys == (set p | p in inputs) && forall p :: p in c ==> p in labels && c[p] in labels[p]
  }

  ghost predicate PartialChoice<T>(c: map<string, T>, inputs: seq<string>, i: nat, labels: map<string, seq<T>>)
    requires i <= |inputs|
  {
    c.Keys == (set k | 0 <= k < i :: inputs[k]) && forall p :: p in c ==> p in labels && c[p] in labels[p]
  }

  lemma {:induction false} ExtendChoiceMembers<T>(acc: seq<map<string, T>>, k: nat, port: string, choices: seq<T>,
                                                  c: map<string, T>)
    requires k <= |acc| && c in ExtendChoice(acc, k, port, choices)
    ensures exists j, v :: k <= j < |acc| && v in choices && c == acc[j][port := v]
    decreases |acc| - k
  {
    if k < |acc| {
      var head := seq(|choices|, i requires 0 <= i < |choices| => acc[k][port := choices[i]]);
      if c in head {
        var i :| 0 <= i < |head| && head[i] == c;
        var j, v := k, choices[i];
        assert k <= j < |acc| && v in choices && c == acc[j][port := v];
      } else {
        ExtendChoiceMembers(acc, k + 1, port, choices, c);
      }
    }
  }

  lemma {:induction false} ExtendChoiceHas<T>(acc: seq<map<string, T>>, k: nat, port: string, choices: seq<T>,
                                              j: nat, v: T)
    requires k <= j < |acc| && v in choices
    ensures acc[j][port := v] in ExtendChoice(acc, k, port, choices)
    decreases |acc| - k
  {
    var head := seq(|choices|, i requires 0 <= i < |choices| => acc[k][port := choices[i]]);
    if j == k {
      var i :| 0 <= i < |choices| && choices[i] == v;
      assert head[i] in head;
    } else {
      ExtendChoiceHas(acc, k + 1, port, choices, j, v);
    }
  }

  lemma ExtendKeepsPartial<T>(acc: seq<map<string, T>>, inputs: seq<string>, i: nat, labels: map<string, seq<T>>)
    requires i < |inputs| && inputs[i] in labels
    requires forall b :: b in acc ==> PartialChoice(b, inputs, i, labels)
    ensures forall b :: b in ExtendChoice(acc, 0, inputs[i], labels[inputs[i]]) ==>
            PartialChoice(b, inputs, i + 1, labels)
  {
    forall b | b in ExtendChoice(acc, 0, inputs[i], labels[inputs[i]]) ensures PartialChoice(b, inputs, i + 1, labels) {
      ExtendChoiceMembers(acc, 0, inputs[i], labels[inputs[i]], b);
      var j, v :| 0 <= j < |acc| && v in labels[inputs[i]] && b == acc[j][inputs[i] := v];
      assert PartialChoice(acc[j], inputs, i, labels);
      assert b.Keys == set k | 0 <= k < i + 1 :: inputs[k];
    }
  }

  lemma {:induction false} CombosFromSound<T>(acc: seq<map<string, T>>, inputs: seq<string>, i: nat,
                                              labels: map<string, seq<T>>, c: map<string, T>)
    requires i <= |inputs| && c in CombosFrom(acc, inputs, i, labels)
    requires forall b :: b in acc ==> PartialChoice(b, inputs, i, labels)
    ensures IsChoice(c, inputs, labels)
    decreases |inputs| - i
  {
    if i == |inputs| {
      assert PartialChoice(c, inputs, i, labels);
      assert (set p | p in inputs) == set k | 0 <= k < |inputs| :: inputs[k];
    } else {
      ExtendKeepsPartial(acc, inputs, i, labels);
      CombosFromSound(ExtendChoice(acc, 0, inputs[i], labels[inputs[i]]), inputs, i + 1, labels, c);
    }
  }

  function Prefix<T>(c: map<string, T>, inputs: seq<string>, i: nat): map<string, T>
    requires i <= |inputs| && forall p :: p in inputs ==> p in c
  {
    map k | 0 <= k < i :: inputs[k] := c[inputs[k]]
  }

  lemma {:induction false} CombosFromComplete<T>(acc: seq<map<string, T>>, inputs: seq<string>, i: nat,
                                                 labels: map<string, seq<T>>, c: map<string, T>)
    requires i <= |inputs| && IsChoice(c, inputs, labels)
    requires Prefix(c, inputs, i) in acc
    ensures c in CombosFrom(acc, inputs, i, labels)
    decreases |inputs| - i
  {
    if i == |inputs| {
      assert forall p :: p in c ==> exists k :: 0 <= k < |inputs| && inputs[k] == p;
      assert Prefix(c, inputs, i) == c;
    } else {
      var p := inputs[i];
      assert p in c;
      var j :| 0 <= j < |acc| && acc[j] == Prefix(c, inputs, i);
      ExtendChoiceHas(acc, 0, p, labels[p], j, c[p]);
      assert Prefix(c, inputs, i)[p := c[p]] == Prefix(c, inputs, i + 1);
      CombosFromComplete(ExtendChoice(acc, 0, p, labels[p]), inputs, i + 1, labels, c);
    }
  }

  /** The product lists exactly the choices. */
  lemma CombosAreChoices<T>(inputs: seq<string>, labels: map<string, seq<T>>, c: map<string, T>)
    ensures c in Combos(inputs, labels) <==> IsChoice(c, inputs, labels)
  {
    var acc: seq<map<string, T>> := [map[]];
    if c in Combos(inputs, labels) {
      assert forall b :: b in acc ==> PartialChoice(b, inputs, 0, labels);
      CombosFromSound(acc, inputs, 0, labels, c);
    }
    if IsChoice(c, inputs, labels) {
      assert Prefix(c, inputs, 0) == map[];
      CombosFromComplete(acc, inputs, 0, labels, c);
    }
  }

  ghost predicate Queued(queue: seq<Candidate>, key: Key) {
    exists c :: c in queue && c.Id() == key
  }

  /** Queued candidates have pairwise different keys, all of them pushed. */
  ghost predicate WfFrontier(f: Frontier) {
    && (forall i, j :: 0 <= i < j < |f.queue| ==> f.queue[i].Id() != f.queue[j].Id())
    && (forall c :: c in f.queue ==> c.Id() in f.pushed)
  }

  /** A candidate made from the current labels whose key was not pushed before. */
  ghost predicate IsNew(P: Problem, labels: Labels, f: Frontier, c: Candidate) {
    && c.idx < |P.solvers| && Usable(P, c.idx) && c == CandidateFor(P, c.idx, c.inputs)
    && IsChoice(c.inputs, P.solvers[c.idx].inputs, labels) && c.Id() !in f.pushed
  }

  /** `g` extends `f` by new candidates only, one for every newly pushed key. */
  ghost predicate Grows(P: Problem, labels: Labels, f: Frontier, g: Frontier) {
    && f.pushed <= g.pushed
    && |f.queue| <= |g.queue| && g.queue[..|f.queue|] == f.queue
    && (forall c :: c in g.queue ==> c in f.queue || IsNew(P, labels, f, c))
    && (forall k :: k in g.pushed ==> k in f.pushed || Queued(g.queue, k))
    && (WfFrontier(f) ==> WfFrontier(g))
  }

  lemma QueueGrows(f: Frontier, g: Frontier, k: Key)
    requires |f.queue| <= |g.queue| && g.queue[..|f.queue|] == f.queue && Queued(f.queue, k)
    ensures Queued(g.queue, k)
  {
    var c :| c in f.queue && c.Id() == k;
    assert c in g.queue;
  }

  lemma GrowsTransitive(P: Problem, labels: Labels, f: Frontier, g: Frontier, h: Frontier)
    requires Grows(P, labels, f, g) && Grows(P, labels, g, h)
    ensures Grows(P, labels, f, h)
  {
    assert h.queue[..|f.queue|] == g.queue[..|f.queue|];
    forall k | k in h.pushed ensures k in f.pushed || Queued(h.queue, k) {
      if k in g.pushed && k !in f.pushed { QueueGrows(g, h, k); }
    }
  }

  lemma PushOneGrows(P: Problem, labels: Labels, idx: nat, combo: map<string, Label>, f: Frontier)
    requires idx < |P.solvers| && Usable(P, idx) && IsChoice(combo, P.solvers[idx].inputs, labels)
    ensures Grows(P, labels, f, PushOne(P, idx, combo, f))
    ensures Key(idx, KeyOf(combo)) in PushOne(P, idx, combo, f).pushed
  {
    var g := PushOne(P, idx, combo, f);
    if g != f {
      var c := g.queue[|f.queue|];
      assert c in g.queue && g.queue[..|f.queue|] == f.queue;
      forall k | k in g.pushed ensures k in f.pushed || Queued(g.queue, k) {}
      forall d | d in g.queue ensures d in f.queue || IsNew(P, labels, f, d) {
        if d !in f.queue { assert d == c; }
      }
    }
  }

  lemma {:induction false} PushCombosGrows(P: Problem, labels: Labels, idx: nat, combos: seq<map<string, Label>>,
                                           k: nat, f: Frontier)
    requires idx < |P.solvers| && k <= |combos| && Usable(P, idx)
    requires forall c :: c in combos ==> IsChoice(c, P.solvers[idx].inputs, labels)
    ensures Grows(P, labels, f, PushCombos(P, idx, combos, k, f))
    decreases |combos| - k
  {
    if k < |combos| {
      var g := PushOne(P, idx, combos[k], f);
      PushOneGrows(P, labels, idx, combos[k], f);
      PushCombosGrows(P, labels, idx, combos, k + 1, g);
      GrowsTransitive(P, labels, f, g, PushCombos(P, idx, combos, k, f));
    }
  }

  lemma {:induction false} PushCombosAll(P: Problem, idx: nat, combos: seq<map<string, Label>>, k: nat, f: Frontier,
                                         j: nat, key: Key)
    requires idx < |P.solvers| && k <= |combos|
    requires key in f.pushed || (k <= j < |combos| && key == Key(idx, KeyOf(combos[j])))
    ensures key in PushCombos(P, idx, combos, k, f).pushed
    decreases |combos| - k
  {
    if k < |combos| {
      var g := PushOne(P, idx, combos[k], f);
      assert key in g.pushed || (k + 1 <= j < |combos| && key == Key(idx, KeyOf(combos[j])));
      PushCombosAll(P, idx, combos, k + 1, g, j, key);
    }
  }

  /** Every choice of solver `i` has been pushed. */
  ghost predicate AllPushed(P: Problem, labels: Labels, i: nat, pushed: set<Key>)
    requires i < |P.solvers|
  {
    Usable(P, i) ==> forall c :: IsChoice(c, P.solvers[i].inputs, labels) ==> Key(i, KeyOf(c)) in pushed
  }

  lemma RegenSolverGrows(P: Problem, labels: Labels, i: nat, f: Frontier)
    requires i < |P.solvers|
    ensures Grows(P, labels, f, RegenSolver(P, labels, i, f))
    ensures AllPushed(P, labels, i, RegenSolver(P, labels, i, f).pushed)
  {
    if Usable(P, i) {
      var combos := Combos(P.solvers[i].inputs, labels);
      forall c ensures c in combos <==> IsChoice(c, P.solvers[i].inputs, labels) {
        CombosAreChoices(P.solvers[i].inputs, labels, c);
      }
      PushCombosGrows(P, labels, i, combos, 0, f);
      forall c | IsChoice(c, P.solvers[i].inputs, labels)
        ensures Key(i, KeyOf(c)) in RegenSolver(P, labels, i, f).pushed
      {
        assert c in combos;
        var j :| 0 <= j < |combos| && combos[j] == c;
        PushCombosAll(P, i, combos, 0, f, j, Key(i, KeyOf(c)));
      }
    }
  }

  lemma {:induction false} RegenFromGrows(P: Problem, labels: Labels, i: nat, f: Frontier)
    requires i <= |P.solvers|
    ensures Grows(P, labels, f, RegenFrom(P, labels, i, f))
    ensures forall j :: i <= j < |P.solvers| ==> AllPushed(P, labels, j, RegenFrom(P, labels, i, f).pushed)
    decreases |P.solvers| - i
  {
    if i < |P.solvers| {
      var g := RegenSolver(P, labels, i, f);
      RegenSolverGrows(P, labels, i, f);
      RegenFromGrows(P, labels, i + 1, g);
      GrowsTransitive(P, labels, f, g, RegenFrom(P, labels, i, f));
    }
  }

  /** Regeneration pushes every choice of every usable solver exactly once. */
  lemma RegenerateSpec(P: Problem, labels: Labels, f: Frontier)
    ensures Grows(P, labels, f, Regenerate(P, labels, f))
    ensures forall j :: 0 <= j < |P.solvers| ==> AllPushed(P, labels, j, Regenerate(P, labels, f).pushed)
  {
    RegenFromGrows(P, labels, 0, f);
  }

  // ----- the pop -----

  lemma {:induction false} BestIsCheapest(P: Problem, queue: seq<Candidate>, i: nat, best: nat)
    requires InRange(P, queue) && i <= |queue| && best < |queue|
    requires forall j :: 0 <= j < i ==> queue[best].cost <= queue[j].cost
    ensures forall j :: 0 <= j < |queue| ==> queue[BestFrom(P, queue, i, best)].cost <= queue[j].cost
    decreases |queue| - i
  {
    if i < |queue| {
      BestIsCheapest(P, queue, i + 1, if Better(P, queue[i], queue[best]) then i else best);
    }
  }

  lemma RemoveIndex<T>(s: seq<T>, i: nat)
    requires i < |s|
    ensures |RemoveAt(s, i)| == |s| - 1
    ensures forall j :: 0 <= j < |s| - 1 ==> RemoveAt(s, i)[j] == s[if j < i then j else j + 1]
    ensures forall j :: 0 <= j < |s| && j != i ==> s[j] == RemoveAt(s, i)[if j < i then j else j - 1]
  {
  }

  lemma RemoveMembers(queue: seq<Candidate>, i: nat, c: Candidate)
    requires i < |queue|
    ensures c in RemoveAt(queue, i) ==> c in queue
    ensures c in queue ==> c in RemoveAt(queue, i) || c == queue[i]
  {
    RemoveIndex(queue, i);
  }

  lemma RemoveKeepsDistinct(f: Frontier, i: nat)
    requires WfFrontier(f) && i < |f.queue|
    ensures WfFrontier(Frontier(RemoveAt(f.queue, i), f.pushed))
  {
    RemoveIndex(f.queue, i);
    var rest := RemoveAt(f.queue, i);
    forall c | c in rest ensures c.Id() in f.pushed { RemoveMembers(f.queue, i, c); }
  }

  /** After the pop the popped key is the only one that left the queue. */
  lemma RemoveQueued(f: Frontier, i: nat, k: Key)
    requires WfFrontier(f) && i < |f.queue|
    ensures Queued(RemoveAt(f.queue, i), k) <==> Queued(f.queue, k) && k != f.queue[i].Id()
  {
    var rest := RemoveAt(f.queue, i);
    if Queued(rest, k) {
      var j :| 0 <= j < |rest| && rest[j].Id() == k;
      var m := if j < i then j else j + 1;
      assert rest[j] == f.queue[m] && f.queue[m] in f.queue;
      assert f.queue[m].Id() != f.queue[i].Id();
    }
    if Queued(f.queue, k) && k != f.queue[i].Id() {
      var c :| c in f.queue && c.Id() == k;
      RemoveMembers(f.queue, i, c);
    }
  }

  // ----- the winner -----

  lemma {:induction false} BestWithinSpec(ls: seq<Label>, budget: real, i: nat, best: Option<Label>)
    requires i <= |ls|
    requires best.Some? ==> best.value in ls && best.value.Error() <= budget
    requires best.None? ==> forall j :: 0 <= j < i ==> ls[j].Error() > budget
    requires best.Some? ==> forall j :: 0 <= j < i && ls[j].Error() <= budget ==> best.value.cost <= ls[j].cost
    ensures var w := BestWithin(ls, budget, i, best);
            match w
            case None => forall l :: l in ls ==> l.Error() > budget
            case Some(l) => l in ls && l.Error() <= budget &&
                            forall m :: m in ls && m.Error() <= budget ==> l.cost <= m.cost
    decreases |ls| - i
  {
    if i < |ls| {
      if ls[i].Error() <= budget && (best.Some? ==> ls[i].cost < best.value.cost) {
        BestWithinSpec(ls, budget, i + 1, Some(ls[i]));
      } else {
        BestWithinSpec(ls, budget, i + 1, best);
      }
    }
  }

  /** `w` is the earliest of the cheapest labels within the budget among the first `n`, if any is within it. */
  ghost predicate FirstCheapest(ls: seq<Label>, budget: real, n: nat, w: Option<Label>)
    requires n <= |ls|
  {
    match w
    case None => forall j :: 0 <= j < n ==> ls[j].Error() > budget
    case Some(l) => exists k: nat :: k < n && ls[k] == l && l.Error() <= budget && CheapestFrom(ls, budget, n, k)
  }

  ghost predicate CheapestFrom(ls: seq<Label>, budget: real, n: nat, k: nat)
    requires k < n <= |ls|
  {
    forall j :: 0 <= j < n && ls[j].Error() <= budget ==>
      ls[k].cost <= ls[j].cost && (j < k ==> ls[k].cost < ls[j].cost)
  }

  /** Among equally cheap labels within the budget the one committed first wins. */
  lemma {:induction false} BestWithinIsFirst(ls: seq<Label>, budget: real, i: nat, best: Option<Label>)
    requires i <= |ls| && FirstCheapest(ls, budget, i, best)
    ensures FirstCheapest(ls, budget, |ls|, BestWithin(ls, budget, i, best))
    decreases |ls| - i
  {
    if i < |ls| {
      hide Label.Error;
      if ls[i].Error() <= budget && (best.Some? ==> ls[i].cost < best.value.cost) {
        assert CheapestFrom(ls, budget, i + 1, i);
        BestWithinIsFirst(ls, budget, i + 1, Some(ls[i]));
      } else {
        if best.Some? {
          var k: nat :| k < i && ls[k] == best.value && best.value.Error() <= budget && CheapestFrom(ls, budget, i, k);
          assert CheapestFrom(ls, budget, i + 1, k);
        }
        BestWithinIsFirst(ls, budget, i + 1, best);
      }
    }
  }

  lemma {:induction false} RetainSplits(a: seq<Label>, b: seq<Label>, l: Label)
    ensures Retain(a + b, l) == Retain(a, l) + Retain(b, l)
  {
    hide Dominates;
    if a == [] {
      assert a + b == b;
    } else {
      assert (a + b)[0] == a[0] && (a + b)[1..] == a[1..] + b;
      RetainSplits(a[1..], b, l);
    }
  }

  /** An offer that is kept comes last; a label that it does not dominate stays between those kept of the labels before
      it and those kept of the labels after it; one that it dominates goes. */
  lemma InsertInOrder(a: seq<Label>, x: Label, b: seq<Label>, l: Label)
    ensures var ls := a + [x] + b;
            InsertLabel(ls, l) ==
            if AnyDominates(ls, l) then ls
            else Retain(a, l) + (if Dominates(l, x) then [] else [x]) + Retain(b, l) + [l]
  {
    hide Dominates, AnyDominates, Retain;
    RetainSplits(a + [x], b, l);
    RetainSplits(a, [x], l);
    RetainOne(x, l);
  }

  lemma RetainOne(x: Label, l: Label)
    ensures Retain([x], l) == if Dominates(l, x) then [] else [x]
  {
    assert [x][1..] == [] && Retain([], l) == [];
    assert Retain([x], l) == (if Dominates(l, x) then [] else [x]) + Retain([x][1..], l);
  }
}
