/** In which order the steps of a route are listed: the derivation in post-order, repetitions left out. */
module PlanWalk {
  import opened Wrappers
  import opened PlanModel
  import opened PlanRoute
  import Names

  /** The step and, before it, all that its inputs need, in port order; a shared step as often as it is used. */
  function PostOrder(arena: seq<StepNode>, id: nat): seq<nat>
    requires Wired(arena) && id < |arena|
    decreases id, 1, 0
  {
    PostPorts(arena, id, Names.Sorted(arena[id].inputs.Keys), 0) + [id]
  }

  function PostPorts(arena: seq<StepNode>, id: nat, ports: seq<string>, i: nat): seq<nat>
    requires Wired(arena) && id < |arena| && i <= |ports| && forall p :: p in ports ==> p in arena[id].inputs
    decreases id, 0, |ports| - i
  {
    if i == |ports| then []
    else
      var child := arena[id].inputs[ports[i]].node;
      (if child.Some? then PostOrder(arena, child.value) else []) + PostPorts(arena, id, ports, i + 1)
  }

  function Members(order: seq<nat>): set<nat> {
    set k | k in order
  }

  /** Each step where it first occurs, but for those in `seen`. */
  function Firsts(order: seq<nat>, seen: set<nat>): seq<nat> {
    if order == [] then []
    else if order[0] in seen then Firsts(order[1..], seen)
    else [order[0]] + Firsts(order[1..], seen + {order[0]})
  }

  lemma {:induction false} FirstsMembers(order: seq<nat>, seen: set<nat>)
    ensures Members(Firsts(order, seen)) == Members(order) - seen
  {
    if order != [] {
      FirstsMembers(order[1..], seen);
      FirstsMembers(order[1..], seen + {order[0]});
      assert order == [order[0]] + order[1..];
      assert Members(order) == {order[0]} + Members(order[1..]);
      MembersOfTwo([order[0]], Firsts(order[1..], seen + {order[0]}));
    }
  }

  lemma MembersOfTwo(a: seq<nat>, b: seq<nat>)
    ensures Members(a + b) == Members(a) + Members(b)
  {
  }

  lemma {:induction false} FirstsAppend(a: seq<nat>, b: seq<nat>, seen: set<nat>)
    ensures Firsts(a + b, seen) == Firsts(a, seen) + Firsts(b, seen + Members(a))
  {
    if a == [] {
      assert a + b == b && seen + Members(a) == seen;
    } else {
      assert (a + b)[0] == a[0] && (a + b)[1..] == a[1..] + b;
      assert a == [a[0]] + a[1..];
      var more := if a[0] in seen then seen else seen + {a[0]};
      FirstsAppend(a[1..], b, more);
      assert more + Members(a[1..]) == seen + Members(a);
    }
  }

  lemma {:induction false} FirstsNone(order: seq<nat>, seen: set<nat>)
    requires Members(order) <= seen
    ensures Firsts(order, seen) == []
  {
    if order != [] {
      assert order[0] in Members(order);
      assert Members(order[1..]) <= Members(order);
      FirstsNone(order[1..], seen);
    }
  }

  /** Nothing but the step and what feeds it is in its post-order. */
  lemma {:induction false} PostOrderFeeds(arena: seq<StepNode>, id: nat)
    requires Wired(arena) && id < |arena|
    ensures Members(PostOrder(arena, id)) <= Feeders(arena, id)
    decreases id, 1, 0
  {
    var ports := Names.Sorted(arena[id].inputs.Keys);
    PostPortsFeed(arena, id, ports, 0);
    MembersOfTwo(PostPorts(arena, id, ports, 0), [id]);
    assert id in Feeders(arena, id);
    hide Feeders;
  }

  lemma {:induction false} PostPortsFeed(arena: seq<StepNode>, id: nat, ports: seq<string>, i: nat)
    requires Wired(arena) && id < |arena| && i <= |ports| && forall p :: p in ports ==> p in arena[id].inputs
    ensures Members(PostPorts(arena, id, ports, i)) <= Feeders(arena, id)
    decreases id, 0, |ports| - i
  {
    hide Feeders, Members;
    if i < |ports| {
      PostPortsFeed(arena, id, ports, i + 1);
      var child := arena[id].inputs[ports[i]].node;
      if child.Some? {
        PostOrderFeeds(arena, child.value);
        ChildFeeders(arena, id, ports[i]);
        MembersOfTwo(PostOrder(arena, child.value), PostPorts(arena, id, ports, i + 1));
      } else {
        assert [] + PostPorts(arena, id, ports, i + 1) == PostPorts(arena, id, ports, i + 1);
      }
    } else {
      NoMembers(Feeders(arena, id));
    }
  }

  lemma NoMembers(s: set<nat>)
    ensures Members([]) <= s
  {
  }

  /** The walk adds the post-order's steps that are not listed yet, each where it first occurs. */
  lemma {:induction false} WalkNodeIs(arena: seq<StepNode>, id: nat, v: Visit, open: set<nat>)
    requires Priced(arena) && id < |arena| && WalkOk(arena, v, open) && forall k :: k in open ==> id < k
    ensures WalkNode(arena, id, v).order == v.order + Firsts(PostOrder(arena, id), Members(v.order))
    decreases id, 1, 0
  {
    hide Feeders, Lists, NodeCost, PortCosts, Firsts;
    if id in v.seen {
      AlreadyListed(arena, id, v, open);
      FeedersListed(arena, v.order, id);
      PostOrderFeeds(arena, id);
      FirstsNone(PostOrder(arena, id), Members(v.order));
    } else {
      assert id !in v.order;
      var ports := Names.Sorted(arena[id].inputs.Keys);
      var u := v.(seen := v.seen + {id});
      Enter(arena, id, v, open);
      hide WalkOk, Priced;
      WalkPortsIs(arena, id, ports, 0, u, open + {id});
      var before := PostPorts(arena, id, ports, 0);
      PortsAreBefore(arena, id, ports, 0);
      FirstsAppend(before, [id], Members(v.order));
      OneFirst(id, Members(v.order) + Members(before));
      TwoParts(v.order, Firsts(before, Members(v.order)), [id]);
    }
  }

  lemma OneFirst(id: nat, seen: set<nat>)
    requires id !in seen
    ensures Firsts([id], seen) == [id]
  {
    assert [id][1..] == [];
    assert Firsts([], seen + {id}) == [];
    assert Firsts([id], seen) == [id] + Firsts([id][1..], seen + {id});
  }

  /** What feeds a step comes before it in the arena. */
  lemma {:induction false} PortsAreBefore(arena: seq<StepNode>, id: nat, ports: seq<string>, i: nat)
    requires Wired(arena) && id < |arena| && i <= |ports| && forall p :: p in ports ==> p in arena[id].inputs
    ensures forall k :: k in PostPorts(arena, id, ports, i) ==> k < id
    decreases id, 0, |ports| - i
  {
    if i < |ports| {
      PortsAreBefore(arena, id, ports, i + 1);
      var child := arena[id].inputs[ports[i]].node;
      if child.Some? { NodesAreBefore(arena, child.value); }
    }
  }

  lemma {:induction false} NodesAreBefore(arena: seq<StepNode>, id: nat)
    requires Wired(arena) && id < |arena|
    ensures forall k :: k in PostOrder(arena, id) ==> k <= id
    decreases id, 1, 0
  {
    PortsAreBefore(arena, id, Names.Sorted(arena[id].inputs.Keys), 0);
  }

  lemma {:induction false} WalkPortsIs(arena: seq<StepNode>, id: nat, ports: seq<string>, i: nat, v: Visit,
                                       open: set<nat>)
    requires Priced(arena) && id < |arena| && WalkOk(arena, v, open) && (forall k :: k in open ==> id <= k)
    requires i <= |ports| && forall p :: p in ports ==> p in arena[id].inputs
    ensures WalkPorts(arena, id, ports, i, v).order ==
            v.order + Firsts(PostPorts(arena, id, ports, i), Members(v.order))
    decreases id, 0, |ports| - i
  {
    assert Wired(arena);
    hide WalkOk, Feeders, Lists, NodeCost, Firsts, Members, Priced, Wired;
    if i == |ports| {
      FirstsOfNone(Members(v.order));
    } else {
      var child := arena[id].inputs[ports[i]].node;
      var rest := PostPorts(arena, id, ports, i + 1);
      OnePortOk(arena, id, ports[i], v, open);
      assert ports[i] in ports && (child.Some? ==> child.value < id) by { WiredChild(arena, id, ports[i]); }
      if child.Some? {
        WalkNodeIs(arena, child.value, v, open);
        var u, first := WalkNode(arena, child.value, v), PostOrder(arena, child.value);
        WalkPortsIs(arena, id, ports, i + 1, u, open);
        FirstsAppend(first, rest, Members(v.order));
        ListedAfter(v.order, first);
        assert WalkPorts(arena, id, ports, i, v) == WalkPorts(arena, id, ports, i + 1, u);
        assert PostPorts(arena, id, ports, i) == first + rest;
        hide *;
        TwoParts(v.order, Firsts(first, Members(v.order)), Firsts(rest, Members(v.order) + Members(first)));
      } else {
        WalkPortsIs(arena, id, ports, i + 1, v, open);
        assert [] + rest == rest;
      }
    }
  }

  lemma WiredChild(arena: seq<StepNode>, id: nat, p: string)
    requires Wired(arena) && id < |arena| && p in arena[id].inputs
    ensures arena[id].inputs[p].node.Some? ==> arena[id].inputs[p].node.value < id
  {
  }

  lemma TwoParts(a: seq<nat>, b: seq<nat>, c: seq<nat>)
    ensures (a + b) + c == a + (b + c)
  {
  }

  lemma FirstsOfNone(seen: set<nat>)
    ensures Firsts([], seen) == []
  {
  }

  lemma ListedAfter(order: seq<nat>, more: seq<nat>)
    ensures Members(order + Firsts(more, Members(order))) == Members(order) + Members(more)
  {
    FirstsMembers(more, Members(order));
    MembersOfTwo(order, Firsts(more, Members(order)));
  }

  /** A route lists its steps in the order in which the derivation first needs them: inputs by port name, each step
      after all that feeds it, repetitions left out. */
  lemma WalkIsPostOrder(arena: seq<StepNode>, id: nat)
    requires Priced(arena) && id < |arena|
    ensures WalkFrom(arena, id) == Firsts(PostOrder(arena, id), {})
  {
    WalkNodeIs(arena, id, Visit({}, []), {});
    assert Members([]) == {};
  }
}
