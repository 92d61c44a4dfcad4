/** Which solvers can feed which ports, and the registries in which no step is ever shared. */
module PlanFeeds {
  import opened Wrappers
  import opened Intervals
  import opened Propagation
  import opened PlanModel
  import opened PlanLemmas
  import Names

  /** Solver `j` takes an output of solver `i`. */
  ghost predicate Hands(P: Problem, i: nat, j: nat) {
    i < |P.solvers| && j < |P.solvers| && exists r :: r in P.solvers[i].outputs && r in P.solvers[j].inputs
  }

  ghost predicate Makes(P: Problem, i: nat, p: string) {
    i < |P.solvers| && Usable(P, i) && p in P.solvers[i].outputs
  }

  ghost predicate AllUsable(P: Problem, chain: seq<nat>) {
    forall k :: 0 <= k < |chain| ==> chain[k] < |P.solvers| && Usable(P, chain[k])
  }

  /** Usable solvers, each handing an output to the next, the last making `p`. */
  ghost predicate FeedChain(P: Problem, chain: seq<nat>, p: string) {
    && chain != [] && AllUsable(P, chain) && Makes(P, chain[|chain| - 1], p)
    && forall k :: 0 < k < |chain| ==> Hands(P, chain[k - 1], chain[k])
  }

  /** Solver `i` makes `p`, or an ancestor of it. */
  ghost predicate Feeds(P: Problem, i: nat, p: string) {
    exists chain :: FeedChain(P, chain, p) && chain[0] == i
  }

  /** Solver `i` joins two ports that solver `s` feeds both. */
  ghost predicate SharesFeeder(P: Problem, i: nat, p: string, q: string, s: nat) {
    && i < |P.solvers| && Usable(P, i) && P.solvers[i].outputs != []
    && p in P.solvers[i].inputs && q in P.solvers[i].inputs && p != q
    && Feeds(P, s, p) && Feeds(P, s, q)
  }

  /** No solver joins two ports with a common feeder. */
  ghost predicate DiamondFree(P: Problem) {
    forall i, p, q, s :: !SharesFeeder(P, i, p, q, s)
  }

  lemma MakesMeans(P: Problem, i: nat, p: string)
    ensures Makes(P, i, p) <==> i < |P.solvers| && Usable(P, i) && p in P.solvers[i].outputs
  {
  }

  lemma MakerFeeds(P: Problem, i: nat, p: string)
    requires Makes(P, i, p)
    ensures Feeds(P, i, p)
  {
    assert FeedChain(P, [i], p) && [i][0] == i;
  }

  /** What feeds an input feeds the output. */
  lemma FeedsOn(P: Problem, i: nat, r: string, j: nat, p: string)
    requires Feeds(P, i, r) && Makes(P, j, p) && r in P.solvers[j].inputs
    ensures Feeds(P, i, p)
  {
    var chain :| FeedChain(P, chain, r) && chain[0] == i;
    var longer := chain + [j];
    assert Hands(P, chain[|chain| - 1], j);
    forall k | 0 < k < |longer| ensures Hands(P, longer[k - 1], longer[k]) {
      if k < |chain| { assert Hands(P, chain[k - 1], chain[k]); }
    }
    assert FeedChain(P, longer, p) && longer[0] == i;
  }

  /** A feeder of `p` makes it, or feeds an input of a maker. */
  lemma LastFeeder(P: Problem, i: nat, p: string) returns (j: nat)
    requires Feeds(P, i, p)
    ensures Makes(P, j, p) && (j == i || exists r :: r in P.solvers[j].inputs && Feeds(P, i, r))
  {
    var chain :| FeedChain(P, chain, p) && chain[0] == i;
    j := chain[|chain| - 1];
    if |chain| > 1 {
      var r := ShorterChain(P, chain, p);
      assert chain[..|chain| - 1][0] == i;
    }
  }

  /** A chain without its last solver feeds an input of that solver. */
  lemma ShorterChain(P: Problem, chain: seq<nat>, p: string) returns (r: string)
    requires FeedChain(P, chain, p) && |chain| > 1
    ensures FeedChain(P, chain[..|chain| - 1], r) && r in P.solvers[chain[|chain| - 1]].inputs
  {
    var n := |chain| - 1;
    assert Hands(P, chain[n - 1], chain[n]);
    r :| r in P.solvers[chain[n - 1]].outputs && r in P.solvers[chain[n]].inputs;
    forall k | 0 < k < |chain[..n]| ensures Hands(P, chain[..n][k - 1], chain[..n][k]) {
      assert Hands(P, chain[k - 1], chain[k]);
    }
  }
}
