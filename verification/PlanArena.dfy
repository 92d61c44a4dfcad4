/** The arena a search leaves behind, read as derivations and as a route. */
module PlanArena {
  import opened Wrappers
  import opened Intervals
  import opened Propagation
  import opened PlanModel
  import opened PlanLemmas
  import opened PlanOptimal
  import opened PlanRoute
  import opened Planner
  import opened PlanCost
  import opened PlanFeeds
  import Names

  // ----- every step of the arena is a derivation -----

  /** Every output of a recorded step is derivable, at the step's tree cost. */
  lemma {:induction false} NodeDerivable(P: Problem, arena: seq<StepNode>, id: nat, o: string)
    requires WfProblem(P) && ArenaOk(P, arena) && id < |arena| && o in arena[id].outputs
    ensures Derivable(P, o, OutLabel(arena[id].outputs[o], NodeCost(arena[id]), id).Seen())
    decreases id, 1
  {
    hide Derivable, ArenaOk, WfProblem, Applies, NodeCost, OutLabel;
    NodeIsOk(P, arena, id);
    var n := arena[id];
    var i: nat :| Applies(P, n, i);
    forall p | p in n.inputs ensures Derivable(P, p, n.inputs[p].Seen()) { InputDerivable(P, arena, id, p); }
    StepOutputDerivable(P, n, i, o, id);
  }

  lemma StepOutputDerivable(P: Problem, n: StepNode, i: nat, o: string, id: nat)
    requires Applies(P, n, i) && o in n.outputs && forall p :: p in n.inputs ==> Derivable(P, p, n.inputs[p].Seen())
    ensures Derivable(P, o, OutLabel(n.outputs[o], NodeCost(n), id).Seen())
  {
    hide Derivable, Usable, Admitted, SumHull, OutEps;
    OutputSeen(P, n, i, o, id);
    ApplyDerives(P, i, o, KeyOf(n.inputs));
  }

  lemma OutputSeen(P: Problem, n: StepNode, i: nat, o: string, id: nat)
    requires Applies(P, n, i) && o in n.outputs
    ensures OutLabel(n.outputs[o], NodeCost(n), id).Seen() == OutPart(P.solvers[i], o, KeyOf(n.inputs))
    ensures o in P.solvers[i].outputs
  {
    hide Usable, Admitted, SumHull, OutEps;
  }

  lemma NodeIsOk(P: Problem, arena: seq<StepNode>, id: nat)
    requires ArenaOk(P, arena) && id < |arena|
    ensures NodeOk(P, arena, id)
  {
  }

  lemma {:induction false} InputDerivable(P: Problem, arena: seq<StepNode>, id: nat, p: string)
    requires WfProblem(P) && ArenaOk(P, arena) && id < |arena| && p in arena[id].inputs
    ensures Derivable(P, p, arena[id].inputs[p].Seen())
    decreases id, 0
  {
    hide ArenaOk, WfProblem, Applies, NodeCost;
    NodeIsOk(P, arena, id);
    var l := arena[id].inputs[p];
    assert Grounded(P, arena, id, p, l);
    if l.node.Some? {
      NodeDerivable(P, arena, l.node.value, p);
    } else {
      KnownObtained(P, p);
    }
  }

  lemma SeenAt(inputs: map<string, Label>, p: string)
    requires p in inputs
    ensures p in KeyOf(inputs) && KeyOf(inputs)[p] == inputs[p].Seen()
  {
  }

  /** What feeds a step feeds one of its inputs. */
  lemma {:induction false} FeederFeeds(P: Problem, arena: seq<StepNode>, id: nat, k: nat, i: nat) returns (u: string)
    requires ArenaOk(P, arena) && Wired(arena) && id < |arena| && k < |arena| && k in Feeders(arena, id) && k != id
    requires Applies(P, arena[k], i)
    ensures u in arena[id].inputs && Feeds(P, i, u)
    decreases id
  {
    hide ArenaOk, Applies, Feeds, Usable, NodeCost;
    NodeIsOk(P, arena, id);
    u :| u in arena[id].inputs && arena[id].inputs[u].node.Some? && k in Feeders(arena, arena[id].inputs[u].node.value);
    var m := arena[id].inputs[u].node.value;
    assert Grounded(P, arena, id, u, arena[id].inputs[u]);
    NodeIsOk(P, arena, m);
    if m == k {
      AppliesMakes(P, arena[k], i, u);
      MakerFeeds(P, i, u);
    } else {
      var j: nat :| Applies(P, arena[m], j);
      AppliesMakes(P, arena[m], j, u);
      var v := FeederFeeds(P, arena, m, k, i);
      FeedsOn(P, i, v, j, u);
    }
  }

  lemma AppliesMakes(P: Problem, n: StepNode, i: nat, p: string)
    requires Applies(P, n, i) && p in n.outputs
    ensures Makes(P, i, p) && forall q :: q in n.inputs <==> q in P.solvers[i].inputs
  {
    hide Usable, Admitted;
  }

  /** The step that made the winning label. */
  lemma WinnerNode(P: Problem, limit: nat) returns (id: nat)
    requires WfProblem(P) && P.target !in P.known && Run(P, Initial(P), limit).Success?
    ensures var w, arena := Run(P, Initial(P), limit).winner, Run(P, Initial(P), limit).arena;
            && ArenaOk(P, arena) && w.node == Some(id) && id < |arena| && P.target in arena[id].outputs
            && w == OutLabel(arena[id].outputs[P.target], NodeCost(arena[id]), id) && w.Error() <= P.budget
  {
    InitialInv(P);
    InitialGrounded(P);
    RunGrounded(P, Initial(P), 0.0, limit);
    RunCorrect(P, Initial(P), 0.0, limit);
    hide Run, Inv, StateGrounded, WfProblem, Initial, ArenaOk, NodeCost, Derivable, Cheapest;
    var w, arena := Run(P, Initial(P), limit).winner, Run(P, Initial(P), limit).arena;
    assert Grounded(P, arena, |arena|, P.target, w);
    id := w.node.value;
  }

  /** A step fed by known ports only is walked alone. */
  lemma LonelyWalk(arena: seq<StepNode>, id: nat)
    requires Priced(arena) && id < |arena| && forall p :: p in arena[id].inputs ==> arena[id].inputs[p].node.None?
    ensures Wired(arena) && WalkFrom(arena, id) == [id]
  {
    WalkIsExact(arena, id);
    var order := WalkFrom(arena, id);
    assert Feeders(arena, id) == {id};
    hide WalkFrom, Feeders;
    assert order[0] in order;
    assert order[0] == id == order[|order| - 1];
    assert |order| == 1;
  }

  lemma RouteCost(P: Problem, w: Label, arena: seq<StepNode>)
    requires w.node.Some? && w.node.value < |arena| && Wired(arena) && WalkFrom(arena, w.node.value) == [w.node.value]
    ensures forall k :: k in WalkFrom(arena, w.node.value) ==> k < |arena|
    ensures RouteFor(P, w, arena).totalCost == arena[w.node.value].ownCost
  {
    var id := w.node.value;
    var steps := StepsOf(arena, [id]);
    assert steps == [StepOf(arena[id])] && steps[..0] == [];
    assert CostSum(steps) == CostSum(steps[..0]) + steps[0].cost;
  }

  lemma RouteOfIs(P: Problem, limit: nat)
    requires WfProblem(P) && P.target !in P.known && Run(P, Initial(P), limit).Success?
    ensures var w, arena := Run(P, Initial(P), limit).winner, Run(P, Initial(P), limit).arena;
            && w.node.Some? && w.node.value < |arena| && Wired(arena)
            && (forall k :: k in WalkFrom(arena, w.node.value) ==> k < |arena|)
            && RouteOf(P, limit) == RouteFor(P, w, arena)
  {
    RouteIsExecutable(P, limit);
  }

  lemma AnswerOfRun(P: Problem, limit: nat)
    requires WfProblem(P) && Searches(P) && PlanAnswer(P, limit).Answered? && PlanAnswer(P, limit).result.Ok?
    ensures P.target !in P.known && Run(P, Initial(P), limit).Success? &&
            PlanAnswer(P, limit).result.value == RouteOf(P, limit)
  {
  }
}
