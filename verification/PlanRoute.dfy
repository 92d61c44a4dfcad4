/** From a winning label to a route: the arena of steps, the deduplicating walk, and what a route guarantees. */
module PlanRoute {
  import opened Wrappers
  import opened Intervals
  import opened Propagation
  import opened PlanModel
  import opened PlanLemmas
  import opened PlanOptimal
  import Names

  // ----- the arena -----

  function NodeCost(n: StepNode): real {
    n.ownCost + Names.Sum(Costs(KeyOf(n.inputs)))
  }

  /** A label of port `p` is the known value of `p` or an output of an arena step before `bound`. */
  ghost predicate Grounded(P: Problem, arena: seq<StepNode>, bound: nat, p: string, l: Label) {
    match l.node
    case None => p in P.known && l == KnownLabel(P.known[p])
    case Some(j) => j < bound && j < |arena| && p in arena[j].outputs &&
                    l == OutLabel(arena[j].outputs[p], NodeCost(arena[j]), j)
  }

  /** Step `n` is an admitted application of the usable solver at `i`. */
  ghost predicate Applies(P: Problem, n: StepNode, i: nat) {
    && i < |P.solvers| && Usable(P, i)
    && var s := P.solvers[i];
       && n.solverId == s.id && n.ownCost == s.cost && n.tags == s.domain.tags
       && n.inputs.Keys == (set p | p in s.inputs) && n.outputs == Outputs(s, KeyOf(n.inputs))
       && Admitted(s, KeyOf(n.inputs), P.tags)
  }

  ghost predicate NodeOk(P: Problem, arena: seq<StepNode>, k: nat)
    requires k < |arena|
  {
    (exists i: nat :: Applies(P, arena[k], i)) &&
    forall p :: p in arena[k].inputs ==> Grounded(P, arena, k, p, arena[k].inputs[p])
  }

  ghost predicate ArenaOk(P: Problem, arena: seq<StepNode>) {
    forall k :: 0 <= k < |arena| ==> NodeOk(P, arena, k)
  }

  ghost predicate LabelsGrounded(P: Problem, labels: Labels, arena: seq<StepNode>) {
    forall p, l :: l in LabelsAt(labels, p) ==> Grounded(P, arena, |arena|, p, l)
  }

  ghost predicate InputsGrounded(P: Problem, inputs: map<string, Label>, arena: seq<StepNode>) {
    forall p :: p in inputs ==> Grounded(P, arena, |arena|, p, inputs[p])
  }

  ghost predicate QueueGrounded(P: Problem, queue: seq<Candidate>, arena: seq<StepNode>) {
    forall c :: c in queue ==> InputsGrounded(P, c.inputs, arena)
  }

  ghost predicate StateGrounded(P: Problem, S: State) {
    ArenaOk(P, S.arena) && LabelsGrounded(P, S.labels, S.arena) && QueueGrounded(P, S.frontier.queue, S.arena)
  }

  lemma GroundedGrows(P: Problem, arena: seq<StepNode>, n: StepNode, bound: nat, p: string, l: Label)
    requires Grounded(P, arena, bound, p, l)
    ensures Grounded(P, arena + [n], bound + 1, p, l)
    ensures bound <= |arena| ==> Grounded(P, arena + [n], bound, p, l)
  {
  }

  lemma ArenaGrows(P: Problem, arena: seq<StepNode>, n: StepNode)
    requires ArenaOk(P, arena) && (exists i: nat :: Applies(P, n, i)) && InputsGrounded(P, n.inputs, arena)
    ensures ArenaOk(P, arena + [n])
  {
    var grown := arena + [n];
    hide Applies, Grounded;
    forall k | 0 <= k < |grown| ensures NodeOk(P, grown, k) {
      if k < |arena| {
        assert NodeOk(P, arena, k) && grown[k] == arena[k];
        forall p | p in grown[k].inputs ensures Grounded(P, grown, k, p, grown[k].inputs[p]) {
          GroundedGrows(P, arena, n, k, p, grown[k].inputs[p]);
        }
      } else {
        forall p | p in grown[k].inputs ensures Grounded(P, grown, k, p, grown[k].inputs[p]) {
          GroundedGrows(P, arena, n, k, p, grown[k].inputs[p]);
        }
      }
    }
  }

  lemma ExpandGrounded(P: Problem, S: State, c: Candidate)
    requires StateGrounded(P, S) && WfCandidate(P, c) && InputsGrounded(P, c.inputs, S.arena)
    ensures match Expand(P, S, c)
            case Exhausted => false
            case Found(w, arena) => ArenaOk(P, arena) && Grounded(P, arena, |arena|, P.target, w)
            case Continue(T) => StateGrounded(P, T)
  {
    var s := P.solvers[c.idx];
    if Admitted(s, c.tie, P.tags) {
      var outputs := Outputs(s, c.tie);
      var arena := S.arena + [StepNode(s.id, s.cost, s.domain.tags, c.inputs, outputs)];
      var labels := Commit(S.labels, outputs, c.cost, |S.arena|);
      StepGrounded(P, S, c, arena, labels);
      hide Grounded, Commit, NodeOk, Outputs, Admitted, WfCandidate, AnyCommitted, InputsGrounded, ArenaOk,
        LabelsGrounded, QueueGrounded, BestWithin, LabelsAt;
      BestWithinSpec(LabelsAt(labels, P.target), P.budget, 0, None);
      if Winner(P, labels).Some? { LabelGrounded(P, labels, arena, Winner(P, labels).value); }
    }
  }

  /** The state after an admitted step is grounded in the longer arena. */
  lemma StepGrounded(P: Problem, S: State, c: Candidate, arena: seq<StepNode>, labels: Labels)
    requires StateGrounded(P, S) && WfCandidate(P, c) && InputsGrounded(P, c.inputs, S.arena)
    requires var s := P.solvers[c.idx];
             && Admitted(s, c.tie, P.tags)
             && arena == S.arena + [StepNode(s.id, s.cost, s.domain.tags, c.inputs, Outputs(s, c.tie))]
             && labels == Commit(S.labels, Outputs(s, c.tie), c.cost, |S.arena|)
    ensures ArenaOk(P, arena) && LabelsGrounded(P, labels, arena) && QueueGrounded(P, S.frontier.queue, arena)
  {
    var s := P.solvers[c.idx];
    var n := StepNode(s.id, s.cost, s.domain.tags, c.inputs, Outputs(s, c.tie));
    NewNodeApplies(P, c);
    assert ArenaOk(P, S.arena) && LabelsGrounded(P, S.labels, S.arena) && QueueGrounded(P, S.frontier.queue, S.arena);
    hide *;
    ArenaGrows(P, S.arena, n);
    CommitGrounded(P, S, n, c.cost);
    QueueGroundedGrows(P, S.frontier.queue, S.arena, n);
  }

  lemma LabelGrounded(P: Problem, labels: Labels, arena: seq<StepNode>, w: Label)
    requires LabelsGrounded(P, labels, arena) && w in LabelsAt(labels, P.target)
    ensures Grounded(P, arena, |arena|, P.target, w)
  {
  }

  lemma NewNodeApplies(P: Problem, c: Candidate)
    requires WfCandidate(P, c) && Admitted(P.solvers[c.idx], c.tie, P.tags)
    ensures var s := P.solvers[c.idx];
            var n := StepNode(s.id, s.cost, s.domain.tags, c.inputs, Outputs(s, c.tie));
            (exists i: nat :: Applies(P, n, i)) && c.cost == NodeCost(n)
  {
    hide Outputs, Admitted;
    var s := P.solvers[c.idx];
    assert Applies(P, StepNode(s.id, s.cost, s.domain.tags, c.inputs, Outputs(s, c.tie)), c.idx);
  }

  lemma CommitGrounded(P: Problem, S: State, n: StepNode, cost: real)
    requires LabelsGrounded(P, S.labels, S.arena) && cost == NodeCost(n)
    ensures LabelsGrounded(P, Commit(S.labels, n.outputs, cost, |S.arena|), S.arena + [n])
  {
    hide Commit;
    forall p, l | l in LabelsAt(Commit(S.labels, n.outputs, cost, |S.arena|), p)
      ensures Grounded(P, S.arena + [n], |S.arena| + 1, p, l)
    {
      CommitMembers(S.labels, n.outputs, cost, |S.arena|, p, l);
      if l in LabelsAt(S.labels, p) { GroundedGrows(P, S.arena, n, |S.arena|, p, l); }
    }
  }

  lemma QueueGroundedGrows(P: Problem, queue: seq<Candidate>, arena: seq<StepNode>, n: StepNode)
    requires QueueGrounded(P, queue, arena)
    ensures QueueGrounded(P, queue, arena + [n])
  {
    hide Grounded;
    forall c, p | c in queue && p in c.inputs ensures Grounded(P, arena + [n], |arena + [n]|, p, c.inputs[p]) {
      assert InputsGrounded(P, c.inputs, arena);
      GroundedGrows(P, arena, n, |arena|, p, c.inputs[p]);
    }
  }

  lemma RefillGrounded(P: Problem, S: State)
    requires StateGrounded(P, S)
    ensures StateGrounded(P, Refilled(P, S))
  {
    var g := Regenerate(P, S.labels, S.frontier);
    RegenerateSpec(P, S.labels, S.frontier);
    hide Grounded, ArenaOk;
    forall c | c in g.queue ensures InputsGrounded(P, c.inputs, S.arena) {
      if c !in S.frontier.queue {
        assert IsNew(P, S.labels, S.frontier, c);
        forall p | p in c.inputs ensures Grounded(P, S.arena, |S.arena|, p, c.inputs[p]) {
          assert c.inputs[p] in LabelsAt(S.labels, p);
        }
      }
    }
  }

  lemma TurnGrounded(P: Problem, S: State, clock: real)
    requires WfProblem(P) && Inv(P, S, clock) && InRange(P, S.frontier.queue) && StateGrounded(P, S)
    ensures match TakeTurn(P, S)
            case Exhausted => true
            case Found(w, arena) => ArenaOk(P, arena) && Grounded(P, arena, |arena|, P.target, w)
            case Continue(T) => StateGrounded(P, T)
  {
    var R := Refilled(P, S);
    RefillKeepsInv(P, S, clock);
    RefillGrounded(P, S);
    RegenerateInRange(P, S.labels, 0, S.frontier);
    if R.frontier.queue != [] {
      var b := BestFrom(P, R.frontier.queue, 1, 0);
      var c := R.frontier.queue[b];
      assert c in R.frontier.queue;
      PoppedGrounded(P, R, b);
      hide Grounded, ArenaOk, Expand, Inv, InvLabels, WfFrontier, Refilled, Regenerate;
      assert WfCandidate(P, c) && InputsGrounded(P, c.inputs, R.arena);
      ExpandGrounded(P, Popped(R, b), c);
    }
  }

  lemma PoppedGrounded(P: Problem, S: State, b: nat)
    requires StateGrounded(P, S) && b < |S.frontier.queue|
    ensures StateGrounded(P, Popped(S, b))
  {
    forall d | d in RemoveAt(S.frontier.queue, b) ensures InputsGrounded(P, d.inputs, S.arena) {
      RemoveMembers(S.frontier.queue, b, d);
    }
  }

  lemma {:induction false} RunGrounded(P: Problem, S: State, clock: real, limit: nat)
    requires WfProblem(P) && Inv(P, S, clock) && InRange(P, S.frontier.queue) && StateGrounded(P, S)
    ensures match Run(P, S, limit)
            case Success(w, arena) => ArenaOk(P, arena) && Grounded(P, arena, |arena|, P.target, w)
            case _ => true
    decreases limit
  {
    hide TakeTurn, Inv, StateGrounded, ArenaOk, Grounded, Correct, WfProblem;
    if limit > 0 {
      TurnGrounded(P, S, clock);
      var next := TurnCorrect(P, S, clock);
      TurnInRange(P, S);
      match TakeTurn(P, S)
      case Exhausted =>
      case Found(_, _) =>
      case Continue(T) => RunGrounded(P, T, next, limit - 1);
    }
  }

  // ----- the walk -----

  /** Every step's inputs come from earlier arena positions. */
  predicate Wired(arena: seq<StepNode>) {
    forall k, p :: 0 <= k < |arena| && p in arena[k].inputs && arena[k].inputs[p].node.Some? ==>
      arena[k].inputs[p].node.value < k
  }

  datatype Visit = Visit(seen: set<nat>, order: seq<nat>)

  /** Post-order walk from step `id`, skipping steps already seen. */
  function WalkNode(arena: seq<StepNode>, id: nat, v: Visit): Visit
    requires Wired(arena) && id < |arena|
    decreases id, 1, 0
  {
    if id in v.seen then v
    else
      var w := WalkPorts(arena, id, Names.Sorted(arena[id].inputs.Keys), 0, v.(seen := v.seen + {id}));
      w.(order := w.order + [id])
  }

  function WalkPorts(arena: seq<StepNode>, id: nat, ports: seq<string>, i: nat, v: Visit): Visit
    requires Wired(arena) && id < |arena| && i <= |ports| && forall p :: p in ports ==> p in arena[id].inputs
    decreases id, 0, |ports| - i
  {
    if i == |ports| then v
    else
      var child := arena[id].inputs[ports[i]].node;
      WalkPorts(arena, id, ports, i + 1, if child.Some? then WalkNode(arena, child.value, v) else v)
  }

  /** Step `k` is `id` or feeds it, directly or through other steps. */
  function Feeders(arena: seq<StepNode>, id: nat): set<nat>
    requires Wired(arena) && id < |arena|
    decreases id
  {
    {id} + set p, k | p in arena[id].inputs && arena[id].inputs[p].node.Some? &&
                      k in Feeders(arena, arena[id].inputs[p].node.value) :: k
  }

  /** Every step listed has all the steps that feed it listed before it. */
  ghost predicate Supplied(arena: seq<StepNode>, order: seq<nat>) {
    forall j, p :: (0 <= j < |order| && order[j] < |arena| && p in arena[order[j]].inputs &&
                    arena[order[j]].inputs[p].node.Some?) ==> arena[order[j]].inputs[p].node.value in order[..j]
  }

  /** The walk's invariant: `open` are the steps entered and not yet listed. */
  ghost predicate WalkOk(arena: seq<StepNode>, v: Visit, open: set<nat>) {
    && (forall i, j :: 0 <= i < j < |v.order| ==> v.order[i] != v.order[j])
    && (forall k :: k in v.order ==> k < |arena| && k !in open)
    && v.seen == open + (set k | k in v.order)
    && Supplied(arena, v.order)
  }

  function Own(arena: seq<StepNode>, k: nat): real {
    if k < |arena| then arena[k].ownCost else 0.0
  }

  /** Each listed step's own cost, once per listing. */
  function OwnSum(arena: seq<StepNode>, order: seq<nat>): real {
    if order == [] then 0.0 else OwnSum(arena, order[..|order| - 1]) + Own(arena, order[|order| - 1])
  }

  /** Costs are non-negative and every label fed in is priced at its step's tree cost. */
  ghost predicate Priced(arena: seq<StepNode>) {
    && Wired(arena)
    && (forall k :: 0 <= k < |arena| ==> arena[k].ownCost >= 0.0)
    && (forall k, p :: 0 <= k < |arena| && p in arena[k].inputs ==>
          arena[k].inputs[p].cost >= 0.0 &&
          (arena[k].inputs[p].node.Some? ==>
             arena[k].inputs[p].node.value < k &&
             arena[k].inputs[p].cost == NodeCost(arena[arena[k].inputs[p].node.value])))
  }

  /** `w` is `v` after listing more steps, costing at most `budget` together, all of them feeders of `id`. */
  ghost predicate Lists(arena: seq<StepNode>, v: Visit, w: Visit, feeders: set<nat>, budget: real) {
    && |v.order| <= |w.order| && w.order[..|v.order|] == v.order
    && (forall k :: k in w.order ==> k in v.order || k in feeders)
    && OwnSum(arena, w.order) <= OwnSum(arena, v.order) + budget
  }

  /** Cost of the labels at the ports from position `i` on. */
  function PortCosts(n: StepNode, ports: seq<string>, i: nat): real
    requires i <= |ports| && forall p :: p in ports ==> p in n.inputs
    decreases |ports| - i
  {
    if i == |ports| then 0.0 else n.inputs[ports[i]].cost + PortCosts(n, ports, i + 1)
  }

  lemma {:induction false} PortCostsSum(n: StepNode, ports: seq<string>, i: nat)
    requires i <= |ports| && forall p :: p in ports ==> p in n.inputs
    ensures PortCosts(n, ports, i) == Names.SumOver(ports[i..], Costs(KeyOf(n.inputs)))
    decreases |ports| - i
  {
    if i < |ports| {
      PortCostsSum(n, ports, i + 1);
      assert ports[i..][1..] == ports[i + 1..];
    }
  }

  lemma AllPortCosts(n: StepNode)
    ensures n.ownCost + PortCosts(n, Names.Sorted(n.inputs.Keys), 0) == NodeCost(n)
  {
    var ports := Names.Sorted(n.inputs.Keys);
    PortCostsSum(n, ports, 0);
    assert ports[0..] == ports && Costs(KeyOf(n.inputs)).Keys == n.inputs.Keys;
  }

  lemma NodeCostNonNegative(arena: seq<StepNode>, id: nat)
    requires Priced(arena) && id < |arena|
    ensures NodeCost(arena[id]) >= 0.0
  {
    var costs := Costs(KeyOf(arena[id].inputs));
    forall p | p in costs ensures costs[p] >= 0.0 { assert costs[p] == arena[id].inputs[p].cost; }
    Names.SumBounds(costs);
  }

  lemma ListsTransitive(arena: seq<StepNode>, v: Visit, u: Visit, w: Visit, feeders: set<nat>, a: real, b: real)
    requires Lists(arena, v, u, feeders, a) && Lists(arena, u, w, feeders, b)
    ensures Lists(arena, v, w, feeders, a + b)
  {
    assert w.order[..|v.order|] == u.order[..|v.order|];
  }

  lemma StillListed(arena: seq<StepNode>, u: Visit, w: Visit, feeders: set<nat>, b: real, k: nat)
    requires Lists(arena, u, w, feeders, b) && k in u.order
    ensures k in w.order
  {
    assert k in w.order[..|u.order|];
  }

  lemma ListsWidens(arena: seq<StepNode>, v: Visit, w: Visit, fewer: set<nat>, more: set<nat>, a: real, b: real)
    requires Lists(arena, v, w, fewer, a) && fewer <= more && a <= b
    ensures Lists(arena, v, w, more, b)
  {
  }

  lemma ChildFeeders(arena: seq<StepNode>, id: nat, p: string)
    requires Wired(arena) && id < |arena| && p in arena[id].inputs && arena[id].inputs[p].node.Some?
    ensures Feeders(arena, arena[id].inputs[p].node.value) <= Feeders(arena, id)
  {
  }

  /** The walk of one step lists it and everything that feeds it, for no more than the step's tree cost. */
  lemma {:induction false} WalkNodeOk(arena: seq<StepNode>, id: nat, v: Visit, open: set<nat>)
    requires Priced(arena) && id < |arena| && WalkOk(arena, v, open) && forall k :: k in open ==> id < k
    ensures var w := WalkNode(arena, id, v);
            WalkOk(arena, w, open) && id in w.order && Lists(arena, v, w, Feeders(arena, id), NodeCost(arena[id]))
    decreases id, 1, 0
  {
    if id in v.seen {
      AlreadyListed(arena, id, v, open);
    } else {
      hide Priced, WalkOk, Lists, Feeders, NodeCost, PortCosts;
      var ports := Names.Sorted(arena[id].inputs.Keys);
      var u := v.(seen := v.seen + {id});
      Enter(arena, id, v, open);
      WalkPortsOk(arena, id, ports, 0, u, open + {id});
      var w := WalkPorts(arena, id, ports, 0, u);
      forall p | p in arena[id].inputs && arena[id].inputs[p].node.Some?
        ensures arena[id].inputs[p].node.value in w.order
      {
        var j :| 0 <= j < |ports| && ports[j] == p;
        WalkPortsHas(arena, id, ports, 0, u, open + {id}, j);
      }
      AllPortCosts(arena[id]);
      ListNode(arena, id, v, u, w, open, PortCosts(arena[id], ports, 0));
    }
  }

  lemma AlreadyListed(arena: seq<StepNode>, id: nat, v: Visit, open: set<nat>)
    requires Priced(arena) && id < |arena| && WalkOk(arena, v, open) && id in v.seen && forall k :: k in open ==> id < k
    ensures id in v.order && Lists(arena, v, v, Feeders(arena, id), NodeCost(arena[id]))
  {
    NodeCostNonNegative(arena, id);
  }

  lemma Enter(arena: seq<StepNode>, id: nat, v: Visit, open: set<nat>)
    requires Priced(arena) && WalkOk(arena, v, open) && id !in v.seen
    ensures Wired(arena) && WalkOk(arena, v.(seen := v.seen + {id}), open + {id}) && id !in open
  {
  }

  lemma ListNode(arena: seq<StepNode>, id: nat, v: Visit, u: Visit, w: Visit, open: set<nat>, b: real)
    requires Priced(arena) && id < |arena| && id !in open && WalkOk(arena, w, open + {id}) && u.order == v.order
    requires Lists(arena, u, w, Feeders(arena, id), b) && arena[id].ownCost + b == NodeCost(arena[id])
    requires forall p :: p in arena[id].inputs && arena[id].inputs[p].node.Some? ==>
             arena[id].inputs[p].node.value in w.order
    ensures var x := w.(order := w.order + [id]);
            WalkOk(arena, x, open) && Lists(arena, v, x, Feeders(arena, id), NodeCost(arena[id]))
  {
    assert Wired(arena);
    hide Priced, WalkOk, Lists, NodeCost;
    ListNodeKeeps(arena, id, w, open);
    ListOne(arena, id, v, u, w, Feeders(arena, id), b);
  }

  lemma ListOne(arena: seq<StepNode>, id: nat, v: Visit, u: Visit, w: Visit, feeders: set<nat>, b: real)
    requires id < |arena| && id in feeders && u.order == v.order && Lists(arena, u, w, feeders, b)
    ensures Lists(arena, v, w.(order := w.order + [id]), feeders, arena[id].ownCost + b)
  {
    var x := w.(order := w.order + [id]);
    assert x.order[..|v.order|] == w.order[..|v.order|];
    assert x.order[..|x.order| - 1] == w.order;
  }

  lemma ListNodeKeeps(arena: seq<StepNode>, id: nat, w: Visit, open: set<nat>)
    requires id < |arena| && id !in open && WalkOk(arena, w, open + {id})
    requires forall p :: p in arena[id].inputs && arena[id].inputs[p].node.Some? ==>
             arena[id].inputs[p].node.value in w.order
    ensures WalkOk(arena, w.(order := w.order + [id]), open)
  {
    assert (set k | k in w.order + [id]) == (set k | k in w.order) + {id};
    SuppliedAppend(arena, w.order, id);
    hide Supplied;
  }

  lemma SuppliedAppend(arena: seq<StepNode>, order: seq<nat>, id: nat)
    requires id < |arena| && Supplied(arena, order)
    requires forall p :: p in arena[id].inputs && arena[id].inputs[p].node.Some? ==>
             arena[id].inputs[p].node.value in order
    ensures Supplied(arena, order + [id])
  {
    var longer := order + [id];
    forall j | 0 <= j < |longer| ensures longer[..j] == order[..j] {}
  }

  lemma {:induction false} WalkPortsOk(arena: seq<StepNode>, id: nat, ports: seq<string>, i: nat, v: Visit,
                                       open: set<nat>)
    requires Priced(arena) && id < |arena| && WalkOk(arena, v, open) && (forall k :: k in open ==> id <= k)
    requires i <= |ports| && forall p :: p in ports ==> p in arena[id].inputs
    ensures var w := WalkPorts(arena, id, ports, i, v);
            && WalkOk(arena, w, open)
            && Lists(arena, v, w, Feeders(arena, id), PortCosts(arena[id], ports, i))
    decreases id, 0, |ports| - i
  {
    assert Wired(arena);
    hide WalkOk, Feeders, Lists, Priced, NodeCost;
    if i == |ports| {
      ListsNothing(arena, v, Feeders(arena, id));
    } else {
      var l := arena[id].inputs[ports[i]];
      var u := if l.node.Some? then WalkNode(arena, l.node.value, v) else v;
      OnePortOk(arena, id, ports[i], v, open);
      WalkPortsOk(arena, id, ports, i + 1, u, open);
      ListsTransitive(arena, v, u, WalkPorts(arena, id, ports, i + 1, u), Feeders(arena, id), l.cost,
                      PortCosts(arena[id], ports, i + 1));
    }
  }

  /** The steps feeding the ports from position `i` on are listed by their walk. */
  lemma {:induction false} WalkPortsHas(arena: seq<StepNode>, id: nat, ports: seq<string>, i: nat, v: Visit,
                                        open: set<nat>, j: nat)
    requires Priced(arena) && id < |arena| && WalkOk(arena, v, open) && (forall k :: k in open ==> id <= k)
    requires i <= j < |ports| && (forall p :: p in ports ==> p in arena[id].inputs)
    requires arena[id].inputs[ports[j]].node.Some?
    ensures arena[id].inputs[ports[j]].node.value in WalkPorts(arena, id, ports, i, v).order
    decreases id, 0, |ports| - i
  {
    assert Wired(arena);
    hide WalkOk, Feeders, Lists, Priced, NodeCost;
    var l := arena[id].inputs[ports[i]];
    var u := if l.node.Some? then WalkNode(arena, l.node.value, v) else v;
    OnePortOk(arena, id, ports[i], v, open);
    if i == j {
      WalkPortsOk(arena, id, ports, i + 1, u, open);
      StillListed(arena, u, WalkPorts(arena, id, ports, i + 1, u), Feeders(arena, id),
                  PortCosts(arena[id], ports, i + 1), l.node.value);
    } else {
      WalkPortsHas(arena, id, ports, i + 1, u, open, j);
    }
  }

  lemma ListsNothing(arena: seq<StepNode>, v: Visit, feeders: set<nat>)
    ensures Lists(arena, v, v, feeders, 0.0)
  {
  }

  lemma {:induction false} OnePortOk(arena: seq<StepNode>, id: nat, p: string, v: Visit, open: set<nat>)
    requires Priced(arena) && id < |arena| && WalkOk(arena, v, open) && (forall k :: k in open ==> id <= k)
    requires p in arena[id].inputs
    ensures var l := arena[id].inputs[p];
            var u := if l.node.Some? then WalkNode(arena, l.node.value, v) else v;
            && WalkOk(arena, u, open) && Lists(arena, v, u, Feeders(arena, id), l.cost)
            && (l.node.Some? ==> l.node.value in u.order)
    decreases id, 0, 0
  {
    var l := arena[id].inputs[p];
    if l.node.Some? {
      WalkNodeOk(arena, l.node.value, v, open);
      ChildFeeders(arena, id, p);
      ListsWidens(arena, v, WalkNode(arena, l.node.value, v), Feeders(arena, l.node.value), Feeders(arena, id), l.cost,
                  l.cost);
    }
  }

  /** Whatever feeds a listed step is listed. */
  lemma {:induction false} FeedersListed(arena: seq<StepNode>, order: seq<nat>, id: nat)
    requires Wired(arena) && Supplied(arena, order) && id < |arena| && id in order
    ensures forall k :: k in Feeders(arena, id) ==> k in order
    decreases id
  {
    forall p | p in arena[id].inputs && arena[id].inputs[p].node.Some?
      ensures forall k :: k in Feeders(arena, arena[id].inputs[p].node.value) ==> k in order
    {
      var j :| 0 <= j < |order| && order[j] == id;
      assert arena[id].inputs[p].node.value in order[..j];
      FeedersListed(arena, order, arena[id].inputs[p].node.value);
    }
  }

  function WalkFrom(arena: seq<StepNode>, id: nat): seq<nat>
    requires Wired(arena) && id < |arena|
  {
    WalkNode(arena, id, Visit({}, [])).order
  }

  /** The walk lists each step that feeds the root exactly once, each after the steps that feed it, the root last,
      at a total cost of at most the root's tree cost. */
  lemma WalkIsExact(arena: seq<StepNode>, id: nat)
    requires Priced(arena) && id < |arena|
    ensures var order := WalkFrom(arena, id);
            && (forall k :: k in order <==> k in Feeders(arena, id))
            && (forall i, j :: 0 <= i < j < |order| ==> order[i] != order[j])
            && Supplied(arena, order) && order != [] && order[|order| - 1] == id
            && (forall k :: k in order ==> k < |arena|)
            && OwnSum(arena, order) <= NodeCost(arena[id])
  {
    WalkNodeOk(arena, id, Visit({}, []), {});
    FeedersListed(arena, WalkFrom(arena, id), id);
  }

  // ----- routes -----

  /** Each committed step of a route: its solver, the inflated inputs it is swept over with its tags, the largest
      model error among its outputs, and its own cost. */
  datatype RouteStep = RouteStep(solverId: string, realized: Domain, predictedEps: real, cost: real)

  datatype Route = Route(target: string, steps: seq<RouteStep>, predictedEps: real, totalCost: real)

  function MaxEps(ports: seq<string>, outputs: map<string, OutValue>, i: nat, most: real): real
    requires i <= |ports| && forall p :: p in ports ==> p in outputs
    decreases |ports| - i
  {
    if i == |ports| then most
    else MaxEps(ports, outputs, i + 1, if outputs[ports[i]].eps > most then outputs[ports[i]].eps else most)
  }

  function StepOf(n: StepNode): RouteStep {
    RouteStep(n.solverId, Domain(Boxes(KeyOf(n.inputs)), n.tags),
              MaxEps(Names.Sorted(n.outputs.Keys), n.outputs, 0, 0.0), n.ownCost)
  }

  function StepsOf(arena: seq<StepNode>, order: seq<nat>): seq<RouteStep>
    requires forall k :: k in order ==> k < |arena|
  {
    seq(|order|, j requires 0 <= j < |order| => assert order[j] in order; StepOf(arena[order[j]]))
  }

  function CostSum(steps: seq<RouteStep>): real {
    if steps == [] then 0.0 else CostSum(steps[..|steps| - 1]) + steps[|steps| - 1].cost
  }

  lemma {:induction false} CostSumIsOwnSum(arena: seq<StepNode>, order: seq<nat>)
    requires forall k :: k in order ==> k < |arena|
    ensures CostSum(StepsOf(arena, order)) == OwnSum(arena, order)
  {
    if order != [] {
      var n := |order| - 1;
      assert forall k :: k in order[..n] ==> k in order;
      CostSumIsOwnSum(arena, order[..n]);
      assert order[n] in order;
      assert StepsOf(arena, order)[..n] == StepsOf(arena, order[..n]);
    }
  }

  function RouteFor(P: Problem, w: Label, arena: seq<StepNode>): Route
    requires w.node.Some? && w.node.value < |arena| && Wired(arena)
    requires forall k :: k in WalkFrom(arena, w.node.value) ==> k < |arena|
  {
    var steps := StepsOf(arena, WalkFrom(arena, w.node.value));
    Route(P.target, steps, w.Error(), CostSum(steps))
  }

  lemma {:induction false} ArenaCosts(P: Problem, arena: seq<StepNode>, k: nat)
    requires WfProblem(P) && ArenaOk(P, arena) && k < |arena|
    ensures arena[k].ownCost >= 0.0 && NodeCost(arena[k]) >= 0.0
    ensures forall p :: p in arena[k].inputs ==> arena[k].inputs[p].cost >= 0.0
    decreases k
  {
    assert NodeOk(P, arena, k);
    var i: nat :| Applies(P, arena[k], i);
    assert WfSolver(P.solvers[i]);
    forall p | p in arena[k].inputs ensures arena[k].inputs[p].cost >= 0.0 {
      assert Grounded(P, arena, k, p, arena[k].inputs[p]);
      if arena[k].inputs[p].node.Some? { ArenaCosts(P, arena, arena[k].inputs[p].node.value); }
    }
    var costs := Costs(KeyOf(arena[k].inputs));
    forall p | p in costs ensures costs[p] >= 0.0 { assert costs[p] == arena[k].inputs[p].cost; }
    Names.SumBounds(costs);
  }

  lemma ArenaPriced(P: Problem, arena: seq<StepNode>)
    requires WfProblem(P) && ArenaOk(P, arena)
    ensures Priced(arena)
  {
    hide NodeCost, Applies, WfProblem;
    forall k, p | 0 <= k < |arena| && p in arena[k].inputs
      ensures arena[k].inputs[p].cost >= 0.0
      ensures arena[k].inputs[p].node.Some? ==>
                arena[k].inputs[p].node.value < k &&
                arena[k].inputs[p].cost == NodeCost(arena[arena[k].inputs[p].node.value])
    {
      ArenaCosts(P, arena, k);
      assert NodeOk(P, arena, k);
      assert Grounded(P, arena, k, p, arena[k].inputs[p]);
    }
    forall k | 0 <= k < |arena| ensures arena[k].ownCost >= 0.0 { ArenaCosts(P, arena, k); }
  }

  /** A step of solver `i` over its realized box offers exactly `iv` at port `p`. */
  ghost predicate Provides(P: Problem, step: RouteStep, i: nat, p: string, iv: Interval) {
    && i < |P.solvers| && step.solverId == P.solvers[i].id && p in P.solvers[i].outputs
    && var hull := SumHull(step.realized.portBox);
       iv == Inflate(hull, OutEps(P.solvers[i], p, hull))
  }

  ghost predicate SomeProvides(P: Problem, step: RouteStep, p: string, iv: Interval) {
    exists i: nat :: Provides(P, step, i, p, iv)
  }

  /** Port `p` carries `iv` before step `j`: it is known, or an earlier step provides it. */
  ghost predicate SuppliedBefore(P: Problem, steps: seq<RouteStep>, j: nat, p: string, iv: Interval)
    requires j <= |steps|
  {
    (p in P.known && iv == Inflate(P.known[p], 0.0)) ||
    exists m: nat :: m < j && SomeProvides(P, steps[m], p, iv)
  }

  /** The step's own error is the largest its solver declares for any output over the realized box. */
  ghost predicate ReportsWorst(s: Solver, step: RouteStep) {
    var hull := SumHull(step.realized.portBox);
    && step.predictedEps >= 0.0 && (forall o :: o in s.outputs ==> OutEps(s, o, hull) <= step.predictedEps)
    && (step.predictedEps > 0.0 ==> exists o :: o in s.outputs && OutEps(s, o, hull) == step.predictedEps)
  }

  ghost predicate ReportsError(P: Problem, step: RouteStep) {
    exists i: nat :: i < |P.solvers| && P.solvers[i].id == step.solverId && ReportsWorst(P.solvers[i], step)
  }

  /** Step `j` can run as solver `i`: it is admitted on its realized box and finds every input before it. */
  ghost predicate RunsAs(P: Problem, steps: seq<RouteStep>, j: nat, i: nat)
    requires j < |steps|
  {
    && i < |P.solvers| && Usable(P, i)
    && var s, r := P.solvers[i], steps[j].realized;
       && steps[j].solverId == s.id && steps[j].cost == s.cost
       && r.portBox.Keys == (set p | p in s.inputs)
       && r.tags == s.domain.tags && InputDomain(s).Covers(r.portBox, P.tags)
       && forall p :: p in r.portBox ==> SuppliedBefore(P, steps, j, p, r.portBox[p])
  }

  ghost predicate Runs(P: Problem, steps: seq<RouteStep>, j: nat)
    requires j < |steps|
  {
    exists i: nat :: RunsAs(P, steps, j, i)
  }

  lemma NodeProvides(P: Problem, arena: seq<StepNode>, k: nat, p: string)
    requires ArenaOk(P, arena) && k < |arena| && p in arena[k].outputs
    ensures SomeProvides(P, StepOf(arena[k]), p, OutLabel(arena[k].outputs[p], NodeCost(arena[k]), k).Inflated())
  {
    assert NodeOk(P, arena, k);
    var i: nat :| Applies(P, arena[k], i);
    hide Usable, Admitted, NodeCost, OutEps, SumHull;
    assert Provides(P, StepOf(arena[k]), i, p, OutLabel(arena[k].outputs[p], NodeCost(arena[k]), k).Inflated());
  }

  lemma FedBefore(P: Problem, arena: seq<StepNode>, order: seq<nat>, j: nat, p: string, k: nat)
    requires ArenaOk(P, arena) && j <= |order| && (forall k :: k in order ==> k < |arena|)
    requires k in order[..j] && k < |arena| && p in arena[k].outputs
    ensures SuppliedBefore(P, StepsOf(arena, order), j, p,
                           OutLabel(arena[k].outputs[p], NodeCost(arena[k]), k).Inflated())
  {
    hide ArenaOk, SomeProvides, NodeCost, StepOf;
    var m: nat :| m < j && order[m] == k;
    NodeProvides(P, arena, k, p);
    assert StepsOf(arena, order)[m] == StepOf(arena[k]);
  }

  lemma InputSupplied(P: Problem, arena: seq<StepNode>, order: seq<nat>, j: nat, p: string)
    requires ArenaOk(P, arena) && Supplied(arena, order) && j < |order| && (forall k :: k in order ==> k < |arena|)
    requires order[j] < |arena| && p in arena[order[j]].inputs
    ensures SuppliedBefore(P, StepsOf(arena, order), j, p, arena[order[j]].inputs[p].Inflated())
  {
    var l := arena[order[j]].inputs[p];
    assert NodeOk(P, arena, order[j]);
    assert Grounded(P, arena, order[j], p, l);
    hide Applies, NodeOk, ArenaOk, SomeProvides, NodeCost, StepOf;
    if l.node.Some? { FedBefore(P, arena, order, j, p, l.node.value); }
  }

  lemma ListedStepRuns(P: Problem, arena: seq<StepNode>, order: seq<nat>, j: nat)
    requires ArenaOk(P, arena) && Supplied(arena, order) && j < |order| && (forall k :: k in order ==> k < |arena|)
    ensures Runs(P, StepsOf(arena, order), j)
  {
    assert order[j] in order;
    assert NodeOk(P, arena, order[j]);
    hide Supplied, ArenaOk, Applies;
    var i: nat :| Applies(P, arena[order[j]], i);
    forall p | p in arena[order[j]].inputs
      ensures SuppliedBefore(P, StepsOf(arena, order), j, p, arena[order[j]].inputs[p].Inflated())
    {
      InputSupplied(P, arena, order, j, p);
    }
    AppliesRuns(P, arena[order[j]], StepsOf(arena, order), j, i);
  }

  lemma {:induction false} MaxEpsIsMax(ports: seq<string>, outputs: map<string, OutValue>, i: nat, most: real)
    requires i <= |ports| && forall p :: p in ports ==> p in outputs
    ensures var m := MaxEps(ports, outputs, i, most);
            && m >= most && (forall j :: i <= j < |ports| ==> outputs[ports[j]].eps <= m)
            && (m == most || exists j :: i <= j < |ports| && outputs[ports[j]].eps == m)
    decreases |ports| - i
  {
    if i < |ports| {
      assert ports[i] in ports;
      MaxEpsIsMax(ports, outputs, i + 1, if outputs[ports[i]].eps > most then outputs[ports[i]].eps else most);
    }
  }

  lemma WorstReported(P: Problem, n: StepNode, i: nat)
    requires Applies(P, n, i)
    ensures ReportsWorst(P.solvers[i], StepOf(n))
  {
    var s := P.solvers[i];
    var hull := SumHull(Boxes(KeyOf(n.inputs)));
    assert n.outputs.Keys == (set o | o in s.outputs) && StepOf(n).realized.portBox == Boxes(KeyOf(n.inputs));
    assert forall o :: o in n.outputs ==> n.outputs[o].eps == OutEps(s, o, hull);
    hide Applies, OutEps, SumHull;
    MostIsMax(n);
  }

  lemma MostIsMax(n: StepNode)
    ensures var most := StepOf(n).predictedEps;
            && most >= 0.0 && (forall o :: o in n.outputs ==> n.outputs[o].eps <= most)
            && (most > 0.0 ==> exists o :: o in n.outputs && n.outputs[o].eps == most)
  {
    var ports := Names.Sorted(n.outputs.Keys);
    MaxEpsIsMax(ports, n.outputs, 0, 0.0);
    assert StepOf(n).predictedEps == MaxEps(ports, n.outputs, 0, 0.0);
    hide MaxEps, StepOf;
    forall o | o in n.outputs ensures n.outputs[o].eps <= MaxEps(ports, n.outputs, 0, 0.0) {
      var j :| 0 <= j < |ports| && ports[j] == o;
    }
    if MaxEps(ports, n.outputs, 0, 0.0) > 0.0 {
      var j :| 0 <= j < |ports| && n.outputs[ports[j]].eps == MaxEps(ports, n.outputs, 0, 0.0);
      assert ports[j] in n.outputs;
    }
  }

  lemma ListedStepReports(P: Problem, arena: seq<StepNode>, order: seq<nat>, j: nat)
    requires ArenaOk(P, arena) && j < |order| && forall k :: k in order ==> k < |arena|
    ensures ReportsError(P, StepsOf(arena, order)[j])
  {
    assert order[j] in order;
    assert NodeOk(P, arena, order[j]);
    hide ArenaOk, ReportsWorst;
    var i: nat :| Applies(P, arena[order[j]], i);
    WorstReported(P, arena[order[j]], i);
  }

  lemma AppliesRuns(P: Problem, n: StepNode, steps: seq<RouteStep>, j: nat, i: nat)
    requires j < |steps| && steps[j] == StepOf(n) && Applies(P, n, i)
    requires forall p :: p in n.inputs ==> SuppliedBefore(P, steps, j, p, n.inputs[p].Inflated())
    ensures Runs(P, steps, j)
  {
    hide SuppliedBefore, MaxEps, Usable;
    assert steps[j].realized.portBox == Boxes(KeyOf(n.inputs));
    assert RunsAs(P, steps, j, i);
  }

  /** Every route the search returns can be executed: each step finds its inputs among the known ports and the
      outputs of earlier steps, inside its admission box and with its tags met; the last step provides the target
      within the budget; and the total over the distinct steps never exceeds the tree cost of any admissible
      derivation within the budget. */
  lemma RouteIsExecutable(P: Problem, limit: nat)
    requires WfProblem(P) && P.target !in P.known && Run(P, Initial(P), limit).Success?
    ensures var w, arena := Run(P, Initial(P), limit).winner, Run(P, Initial(P), limit).arena;
            && w.node.Some? && w.node.value < |arena| && Wired(arena)
            && (forall k :: k in WalkFrom(arena, w.node.value) ==> k < |arena|)
            && var r := RouteFor(P, w, arena);
               && r.steps != [] && r.predictedEps <= P.budget
               && (forall j :: 0 <= j < |r.steps| ==> Runs(P, r.steps, j) && ReportsError(P, r.steps[j]))
               && SomeProvides(P, r.steps[|r.steps| - 1], P.target, w.Inflated())
               && w.Inflated().HalfWidth() == r.predictedEps
               && r.totalCost <= w.cost
               && (forall t :: Admissible(P, t) && t.Port() == P.target && Worth(P, t).iv.HalfWidth() <= P.budget ==>
                     r.totalCost <= Worth(P, t).cost)
  {
    InitialInv(P);
    InitialGrounded(P);
    RunGrounded(P, Initial(P), 0.0, limit);
    RunCorrect(P, Initial(P), 0.0, limit);
    hide Run, Inv, InvLabels, StateGrounded, WfProblem, Initial;
    var w, arena := Run(P, Initial(P), limit).winner, Run(P, Initial(P), limit).arena;
    ArenaPriced(P, arena);
    RouteOfWinner(P, w, arena);
  }

  lemma InitialGrounded(P: Problem)
    ensures StateGrounded(P, Initial(P))
  {
  }

  lemma RouteOfWinner(P: Problem, w: Label, arena: seq<StepNode>)
    requires ArenaOk(P, arena) && Grounded(P, arena, |arena|, P.target, w) && Priced(arena) && P.target !in P.known
    ensures w.node.Some? && w.node.value < |arena|
    ensures forall k :: k in WalkFrom(arena, w.node.value) ==> k < |arena|
    ensures var r := RouteFor(P, w, arena);
            && r.steps != [] && r.predictedEps == w.Error() == w.Inflated().HalfWidth() && r.totalCost <= w.cost
            && (forall j :: 0 <= j < |r.steps| ==> Runs(P, r.steps, j) && ReportsError(P, r.steps[j]))
            && SomeProvides(P, r.steps[|r.steps| - 1], P.target, w.Inflated())
  {
    var id := w.node.value;
    WalkIsExact(arena, id);
    var order := WalkFrom(arena, id);
    CostSumIsOwnSum(arena, order);
    NodeProvides(P, arena, id, P.target);
    TotalErrorIsInflatedHalfWidth(w.interval, w.eps, w.interval, w.eps);
    hide Runs, SomeProvides, WalkFrom, Priced, Feeders, ReportsError;
    forall j | 0 <= j < |order|
      ensures Runs(P, StepsOf(arena, order), j) && ReportsError(P, StepsOf(arena, order)[j])
    {
      ListedStepRuns(P, arena, order, j);
      ListedStepReports(P, arena, order, j);
    }
  }
}
