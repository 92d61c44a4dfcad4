/** The pre-search check for solvers that only rename ports into each other: a three-colour depth-first search. */
module CycleCheck {
  import opened PlanModel
  import Names

  datatype Color = White | Gray | Black

  type Graph = map<string, seq<string>>

  /** Some one-input, one-output solver takes `a` to `b`. */
  ghost predicate Renames(solvers: seq<Solver>, a: string, b: string) {
    exists s :: s in solvers && |s.inputs| == 1 && |s.outputs| == 1 && s.inputs[0] == a && s.outputs[0] == b
  }

  /** A closed path of renamings. */
  ghost predicate IsCycle(solvers: seq<Solver>, path: seq<string>) {
    |path| >= 2 && path[0] == path[|path| - 1] &&
    forall i :: 0 <= i < |path| - 1 ==> Renames(solvers, path[i], path[i + 1])
  }

  ghost predicate HasCycle(solvers: seq<Solver>) {
    exists path :: IsCycle(solvers, path)
  }

  /** Every renaming goes strictly down in `rank`. */
  ghost predicate Topological(solvers: seq<Solver>, rank: map<string, nat>) {
    forall a, b :: Renames(solvers, a, b) ==> a in rank && b in rank && rank[b] < rank[a]
  }

  function Children(adj: Graph, a: string): seq<string> {
    if a in adj then adj[a] else []
  }

  function ColorOf(color: map<string, Color>, a: string): Color {
    if a in color then color[a] else White
  }

  ghost predicate IsGraphOf(adj: Graph, solvers: seq<Solver>) {
    forall a, b :: b in Children(adj, a) <==> Renames(solvers, a, b)
  }

  method BuildGraph(solvers: seq<Solver>) returns (adj: Graph)
    ensures IsGraphOf(adj, solvers)
  {
    adj := map[];
    for i := 0 to |solvers|
      invariant IsGraphOf(adj, solvers[..i])
    {
      var s := solvers[i];
      ghost var before := adj;
      if |s.inputs| == 1 && |s.outputs| == 1 {
        adj := adj[s.inputs[0] := Children(adj, s.inputs[0]) + [s.outputs[0]]];
      }
      assert solvers[..i + 1] == solvers[..i] + [s];
      forall a, b ensures b in Children(adj, a) <==> Renames(solvers[..i + 1], a, b) {
        RenamesOneMore(solvers[..i], s, a, b);
        assert b in Children(before, a) <==> Renames(solvers[..i], a, b);
      }
    }
    assert solvers[..|solvers|] == solvers;
  }

  lemma RenamesOneMore(solvers: seq<Solver>, s: Solver, a: string, b: string)
    ensures Renames(solvers + [s], a, b) <==>
            Renames(solvers, a, b) || (|s.inputs| == 1 && |s.outputs| == 1 && s.inputs[0] == a && s.outputs[0] == b)
  {
    if Renames(solvers, a, b) {
      var r :| r in solvers && |r.inputs| == 1 && |r.outputs| == 1 && r.inputs[0] == a && r.outputs[0] == b;
      assert r in solvers + [s];
    }
    assert s in solvers + [s];
  }

  // ----- the depth-first search -----

  ghost function Nodes(adj: Graph): set<string> {
    adj.Keys + set a, b | a in adj && b in adj[a] :: b
  }

  ghost function Whites(adj: Graph, color: map<string, Color>): set<string> {
    set a | a in Nodes(adj) && ColorOf(color, a) == White
  }

  /** The grey nodes are exactly those on the stack, and the stack is a path. */
  ghost predicate OnStack(adj: Graph, color: map<string, Color>, stack: seq<string>) {
    && (forall a :: ColorOf(color, a) == Gray <==> a in stack)
    && forall i :: 0 <= i < |stack| - 1 ==> stack[i + 1] in Children(adj, stack[i])
  }

  /** The black nodes are closed under edges, and `rank` goes strictly down along every edge among them. */
  ghost predicate Finished(adj: Graph, color: map<string, Color>, rank: map<string, nat>) {
    && (forall a :: a in rank <==> ColorOf(color, a) == Black)
    && (forall a :: a in rank ==> rank[a] < |rank|)
    && forall a, b :: a in rank && b in Children(adj, a) ==> b in rank && rank[b] < rank[a]
  }

  ghost predicate ClosedPath(adj: Graph, path: seq<string>) {
    |path| >= 2 && path[0] == path[|path| - 1] &&
    forall i :: 0 <= i < |path| - 1 ==> path[i + 1] in Children(adj, path[i])
  }

  ghost predicate Includes(rank: map<string, nat>, ranked: map<string, nat>) {
    forall a :: a in rank ==> a in ranked
  }

  ghost predicate AllIn(nodes: seq<string>, n: nat, rank: map<string, nat>) {
    n <= |nodes| && forall k :: 0 <= k < n ==> nodes[k] in rank
  }

  lemma IncludesTransitive(a: map<string, nat>, b: map<string, nat>, c: map<string, nat>)
    requires Includes(a, b) && Includes(b, c)
    ensures Includes(a, c)
  {
  }

  lemma OneMoreIn(nodes: seq<string>, n: nat, rank: map<string, nat>, ranked: map<string, nat>)
    requires AllIn(nodes, n, rank) && Includes(rank, ranked) && n < |nodes| && nodes[n] in ranked
    ensures AllIn(nodes, n + 1, ranked)
  {
  }

  lemma StackCloses(adj: Graph, color: map<string, Color>, stack: seq<string>, node: string)
    requires OnStack(adj, color, stack) && ColorOf(color, node) == Gray
    requires stack != [] ==> node in Children(adj, stack[|stack| - 1])
    ensures exists path :: ClosedPath(adj, path)
  {
    assert node in stack;
    var k :| 0 <= k < |stack| && stack[k] == node;
    assert ClosedPath(adj, stack[k..] + [node]);
  }

  lemma ColorMeans(adj: Graph, color: map<string, Color>, stack: seq<string>, rank: map<string, nat>, node: string)
    requires OnStack(adj, color, stack) && Finished(adj, color, rank)
    ensures ColorOf(color, node) == Black ==> node in rank
    ensures Includes(rank, rank)
  {
  }

  lemma EnterNode(adj: Graph, color: map<string, Color>, stack: seq<string>, rank: map<string, nat>, node: string)
    requires OnStack(adj, color, stack) && Finished(adj, color, rank) && node in Nodes(adj) &&
             ColorOf(color, node) == White
    requires stack != [] ==> node in Children(adj, stack[|stack| - 1])
    ensures OnStack(adj, color[node := Gray], stack + [node]) && Finished(adj, color[node := Gray], rank)
    ensures node !in stack && node in Whites(adj, color)
    ensures Whites(adj, color[node := Gray]) <= Whites(adj, color) - {node}
    ensures AllIn(Children(adj, node), 0, rank)
  {
    EnterOnStack(adj, color, stack, node);
    hide OnStack;
  }

  lemma EnterOnStack(adj: Graph, color: map<string, Color>, stack: seq<string>, node: string)
    requires OnStack(adj, color, stack) && ColorOf(color, node) == White
    requires stack != [] ==> node in Children(adj, stack[|stack| - 1])
    ensures OnStack(adj, color[node := Gray], stack + [node]) && node !in stack
  {
    forall a ensures ColorOf(color[node := Gray], a) == Gray <==> a in stack + [node] {
      assert a in stack + [node] <==> a in stack || a == node;
    }
  }

  lemma ChildIsNode(adj: Graph, node: string, i: nat)
    requires i < |Children(adj, node)|
    ensures Children(adj, node)[i] in Children(adj, node) && Children(adj, node)[i] in Nodes(adj)
  {
  }

  lemma Blacken(adj: Graph, color: map<string, Color>, rank: map<string, nat>, node: string)
    requires Finished(adj, color, rank) && ColorOf(color, node) != Black
    requires forall b :: b in Children(adj, node) ==> b in rank
    ensures Finished(adj, color[node := Black], rank[node := |rank|])
  {
    assert |rank[node := |rank|]| == |rank| + 1;
  }

  /** Explores `node`. A `true` answer exhibits a cycle; a `false` answer leaves `node` black, the grey nodes as
      they were, and the black nodes ranked. */
  method Visit(node: string, adj: Graph, color: map<string, Color>, ghost stack: seq<string>,
               ghost rank: map<string, nat>)
    returns (found: bool, colored: map<string, Color>, ghost ranked: map<string, nat>)
    requires node in Nodes(adj) && OnStack(adj, color, stack) && Finished(adj, color, rank)
    requires stack != [] ==> node in Children(adj, stack[|stack| - 1])
    ensures found ==> exists path :: ClosedPath(adj, path)
    ensures !found ==> OnStack(adj, colored, stack) && Finished(adj, colored, ranked)
    ensures !found ==> node in ranked && Includes(rank, ranked)
    decreases Whites(adj, color)
  {
    hide Finished, OnStack, Whites, Includes, AllIn, Nodes, Children, ClosedPath;
    ColorMeans(adj, color, stack, rank, node);
    ranked := rank;
    match ColorOf(color, node) {
      case Black => return false, color, rank;
      case Gray =>
        StackCloses(adj, color, stack, node);
        return true, color, rank;
      case White =>
    }
    EnterNode(adj, color, stack, rank, node);
    colored := color[node := Gray];
    ghost var path := stack + [node];
    var children := Children(adj, node);
    for i := 0 to |children|
      invariant OnStack(adj, colored, path) && Finished(adj, colored, ranked) && Includes(rank, ranked)
      invariant Whites(adj, colored) <= Whites(adj, color) - {node}
      invariant AllIn(children, i, ranked)
    {
      var cyclic, next;
      ghost var wider;
      ChildIsNode(adj, node, i);
      cyclic, next, wider := Visit(children[i], adj, colored, path, ranked);
      if cyclic {
        return true, next, wider;
      }
      WhitesShrink(adj, colored, next, path, ranked, wider);
      OneMoreIn(children, i, ranked, wider);
      IncludesTransitive(rank, ranked, wider);
      colored, ranked := next, wider;
    }
    FinishNode(adj, colored, ranked, rank, stack, path, node);
    colored, ranked := colored[node := Black], ranked[node := |ranked|];
    found := false;
  }

  lemma WhitesShrink(adj: Graph, color: map<string, Color>, next: map<string, Color>, stack: seq<string>,
                     rank: map<string, nat>, ranked: map<string, nat>)
    requires OnStack(adj, color, stack) && OnStack(adj, next, stack)
    requires Finished(adj, color, rank) && Finished(adj, next, ranked) && Includes(rank, ranked)
    ensures Whites(adj, next) <= Whites(adj, color)
  {
  }

  lemma StackPops(adj: Graph, color: map<string, Color>, stack: seq<string>, node: string, path: seq<string>)
    requires OnStack(adj, color, path) && path == stack + [node] && node !in stack
    ensures OnStack(adj, color[node := Black], stack)
  {
    forall a ensures ColorOf(color[node := Black], a) == Gray <==> a in stack {
      assert ColorOf(color, a) == Gray <==> a in path;
      assert a in path <==> a in stack || a == node;
    }
    forall i | 0 <= i < |stack| - 1 ensures stack[i + 1] in Children(adj, stack[i]) {
      assert path[i + 1] in Children(adj, path[i]);
    }
  }

  /** All children ranked: the node leaves the stack and takes the next rank. */
  lemma FinishNode(adj: Graph, color: map<string, Color>, ranked: map<string, nat>, rank: map<string, nat>,
                   stack: seq<string>, path: seq<string>, node: string)
    requires OnStack(adj, color, path) && Finished(adj, color, ranked) && Includes(rank, ranked)
    requires path == stack + [node] && node !in stack
    requires AllIn(Children(adj, node), |Children(adj, node)|, ranked)
    ensures OnStack(adj, color[node := Black], stack)
    ensures Finished(adj, color[node := Black], ranked[node := |ranked|])
    ensures Includes(rank, ranked[node := |ranked|])
  {
    var children := Children(adj, node);
    forall b | b in children ensures b in ranked {
      var k :| 0 <= k < |children| && children[k] == b;
    }
    assert node in path;
    Blacken(adj, color, ranked, node);
    StackPops(adj, color, stack, node, path);
  }

  lemma PathIsCycle(solvers: seq<Solver>, adj: Graph, path: seq<string>)
    requires IsGraphOf(adj, solvers)
    ensures ClosedPath(adj, path) <==> IsCycle(solvers, path)
  {
    if ClosedPath(adj, path) {
      forall i | 0 <= i < |path| - 1 ensures Renames(solvers, path[i], path[i + 1]) {
        assert path[i + 1] in Children(adj, path[i]);
      }
    }
    if IsCycle(solvers, path) {
      forall i | 0 <= i < |path| - 1 ensures path[i + 1] in Children(adj, path[i]) {
        assert Renames(solvers, path[i], path[i + 1]);
      }
    }
  }

  /** Along a path the rank only falls, so a ranked graph has no closed path. */
  lemma {:induction false} RankFalls(solvers: seq<Solver>, rank: map<string, nat>, path: seq<string>, i: nat)
    requires Topological(solvers, rank) && IsCycle(solvers, path) && 1 <= i < |path|
    ensures path[0] in rank && path[i] in rank && rank[path[i]] < rank[path[0]]
  {
    assert Renames(solvers, path[i - 1], path[i]);
    if i > 1 { RankFalls(solvers, rank, path, i - 1); }
  }

  lemma TopologicalIsAcyclic(solvers: seq<Solver>, rank: map<string, nat>)
    requires Topological(solvers, rank)
    ensures !HasCycle(solvers)
  {
    forall path | IsCycle(solvers, path) ensures false {
      RankFalls(solvers, rank, path, |path| - 1);
    }
  }

  /** The check answers `true` exactly when one-input, one-output solvers form a directed cycle; on `false` it has
      a topological rank of their graph. */
  method DetectPortEquivalenceCycle(solvers: seq<Solver>) returns (cyclic: bool, ghost rank: map<string, nat>)
    ensures cyclic <==> HasCycle(solvers)
    ensures !cyclic ==> Topological(solvers, rank)
  {
    var adj := BuildGraph(solvers);
    var color: map<string, Color> := map a | a in adj :: White;
    rank := map[];
    var nodes := Names.Sorted(adj.Keys);
    for i := 0 to |nodes|
      invariant OnStack(adj, color, []) && Finished(adj, color, rank)
      invariant AllIn(nodes, i, rank)
    {
      assert nodes[i] in nodes;
      var found, next;
      ghost var wider;
      found, next, wider := Visit(nodes[i], adj, color, [], rank);
      if found {
        ghost var path :| ClosedPath(adj, path);
        PathIsCycle(solvers, adj, path);
        return true, wider;
      }
      OneMoreIn(nodes, i, rank, wider);
      color, rank := next, wider;
    }
    AllRanked(solvers, adj, color, rank, nodes);
    TopologicalIsAcyclic(solvers, rank);
    return false, rank;
  }

  lemma AllRanked(solvers: seq<Solver>, adj: Graph, color: map<string, Color>, rank: map<string, nat>,
                  nodes: seq<string>)
    requires IsGraphOf(adj, solvers) && Finished(adj, color, rank) && forall a :: a in adj ==> a in nodes
    requires AllIn(nodes, |nodes|, rank)
    ensures Topological(solvers, rank)
  {
    hide Renames;
    forall a, b | Renames(solvers, a, b) ensures a in rank && b in rank && rank[b] < rank[a] {
      EdgeRanked(adj, color, rank, nodes, a, b);
    }
  }

  lemma EdgeRanked(adj: Graph, color: map<string, Color>, rank: map<string, nat>, nodes: seq<string>, a: string,
                   b: string)
    requires Finished(adj, color, rank) && (forall a :: a in adj ==> a in nodes) && AllIn(nodes, |nodes|, rank)
    requires b in Children(adj, a)
    ensures a in rank && b in rank && rank[b] < rank[a]
  {
    assert a in nodes;
    var k :| 0 <= k < |nodes| && nodes[k] == a;
  }
}
