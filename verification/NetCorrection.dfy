/** Loop correction as a function on flows, and what it keeps over a whole run. */
module NetCorrection {
  import opened Wrappers
  import opened Reals
  import opened NetGraph
  import opened NetLoops
  import opened NetPaths
  import opened NetFlow
  import Names

  /** Signed drop and slope of an edge at a signed flow. */
  type Law = (Link, real) -> (real, real)

  function SignedFlow(h: Hop, flow: real): real {
    h.sign as real * flow
  }

  /** Numerator and denominator of a loop's correction, from hop `i` on; imposed edges contribute nothing. */
  function Totals(links: seq<Link>, law: Law, loop: seq<Hop>, f: seq<real>, i: nat): (real, real)
    requires i <= |loop|
    decreases |loop| - i
  {
    if i == |loop| then (0.0, 0.0)
    else
      var (num, den) := Totals(links, law, loop, f, i + 1);
      var h := loop[i];
      if h.edge < |links| && links[h.edge].Unknown() then
        var (dp, k) := law(links[h.edge], SignedFlow(h, At(f, h.edge)));
        (dp + num, k + den)
      else (num, den)
  }

  function Shift(flow: real, sign: int, dq: real): real {
    flow + sign as real * dq
  }

  /** `dq` added to one hop's edge, in the hop's sense, if the edge is free. */
  function CorrectHop(links: seq<Link>, h: Hop, dq: real, f: seq<real>): (g: seq<real>)
    requires |f| == |links|
    ensures |g| == |f|
  {
    if h.edge < |links| && links[h.edge].Unknown() then f[h.edge := Shift(f[h.edge], h.sign, dq)] else f
  }

  /** `dq` added along the loop, from hop `i` on. */
  function Correct(links: seq<Link>, loop: seq<Hop>, dq: real, f: seq<real>, i: nat): (g: seq<real>)
    requires |f| == |links| && i <= |loop|
    ensures |g| == |f|
    decreases |loop| - i
  {
    if i == |loop| then f else Correct(links, loop, dq, CorrectHop(links, loop[i], dq, f), i + 1)
  }

  function Max(a: real, b: real): real {
    if b > a then b else a
  }

  /** One sweep over the loops from loop `i` on: the corrected flows and the largest correction so far. */
  function SweepFrom(links: seq<Link>, law: Law, loops: seq<seq<Hop>>, i: nat, f: seq<real>,
                     most: real): (r: Result<(seq<real>, real), NetError>)
    requires |f| == |links| && i <= |loops|
    ensures r.Ok? ==> |r.value.0| == |links|
    decreases |loops| - i
  {
    if i == |loops| then Ok((f, most))
    else
      var (num, den) := Totals(links, law, loops[i], f, 0);
      if den == 0.0 then Err(AllImposerLoop)
      else
        var dq := -num / den;
        SweepFrom(links, law, loops, i + 1, Correct(links, loops[i], dq, f, 0), Max(most, Abs(dq)))
  }

  /** Sweeps from iteration `iter` on, until the largest correction of one is below the tolerance. */
  function Iterate(links: seq<Link>, law: Law, loops: seq<seq<Hop>>, iter: nat, f: seq<real>,
                   last: real): (r: Result<seq<real>, NetError>)
    requires |f| == |links| && 1 <= iter <= HC_MAX_ITER + 1
    ensures r.Ok? ==> |r.value| == |links|
    decreases HC_MAX_ITER + 1 - iter
  {
    if iter == HC_MAX_ITER + 1 then Err(NoConvergence(HC_MAX_ITER, last))
    else
      var (g, most) :- SweepFrom(links, law, loops, 0, f, 0.0);
      if most < HC_TOL then Ok(g) else Iterate(links, law, loops, iter + 1, g, most)
  }

  // ----- what a sweep and a run are, loop by loop and sweep by sweep -----

  /** Loop by loop, `dqs` are the corrections made in turn and `gs` the flows between them: each correction is the one
      that the loop's sums call for at the flows it finds. */
  ghost predicate Corrections(links: seq<Link>, law: Law, loops: seq<seq<Hop>>, gs: seq<seq<real>>, dqs: seq<real>) {
    |gs| == |dqs| + 1 && |dqs| <= |loops| && |gs[0]| == |links| &&
    forall k :: 0 <= k < |dqs| ==> |gs[k]| == |links| && Corrected(links, law, loops[k], gs[k], dqs[k], gs[k + 1])
  }

  ghost predicate Corrected(links: seq<Link>, law: Law, loop: seq<Hop>, f: seq<real>, dq: real, g: seq<real>)
    requires |f| == |links|
  {
    var (num, den) := Totals(links, law, loop, f, 0);
    den != 0.0 && dq == -num / den && g == Correct(links, loop, dq, f, 0)
  }

  /** `most` is the largest size among the corrections; zero when there is none. */
  ghost predicate Largest(dqs: seq<real>, most: real) {
    && most >= 0.0 && (forall k :: 0 <= k < |dqs| ==> Abs(dqs[k]) <= most)
    && (most > 0.0 ==> exists k :: 0 <= k < |dqs| && Abs(dqs[k]) == most)
  }

  /** One whole sweep: every loop is corrected in turn, or the first that has no slope stops it. */
  ghost predicate Sweeps(links: seq<Link>, law: Law, loops: seq<seq<Hop>>, f: seq<real>,
                         r: Result<(seq<real>, real), NetError>) {
    exists gs, dqs :: SweptBy(links, law, loops, f, r, gs, dqs)
  }

  ghost predicate SweptBy(links: seq<Link>, law: Law, loops: seq<seq<Hop>>, f: seq<real>,
                          r: Result<(seq<real>, real), NetError>, gs: seq<seq<real>>, dqs: seq<real>) {
    Corrections(links, law, loops, gs, dqs) && gs[0] == f &&
    match r
    case Ok((g, most)) => |dqs| == |loops| && g == gs[|dqs|] && Largest(dqs, most)
    case Err(e) => e == AllImposerLoop && |dqs| < |loops| && Totals(links, law, loops[|dqs|], gs[|dqs|], 0).1 == 0.0
  }

  lemma SweepIs(links: seq<Link>, law: Law, loops: seq<seq<Hop>>, f: seq<real>)
    requires |f| == |links|
    ensures Sweeps(links, law, loops, f, SweepFrom(links, law, loops, 0, f, 0.0))
  {
    hide Correct, Totals;
    assert Corrections(links, law, loops, [f], []);
    var gs, dqs := SweepOn(links, law, loops, f, 0.0, [f], []);
    assert SweptBy(links, law, loops, f, SweepFrom(links, law, loops, 0, f, 0.0), gs, dqs);
  }

  /** The rest of a sweep that has made the corrections `dqs`. */
  lemma {:induction false} SweepOn(links: seq<Link>, law: Law, loops: seq<seq<Hop>>, f: seq<real>, most: real,
                                   gs: seq<seq<real>>, dqs: seq<real>)
    returns (allGs: seq<seq<real>>, allDqs: seq<real>)
    requires Corrections(links, law, loops, gs, dqs) && |gs[|dqs|]| == |links| && Largest(dqs, most) && gs[0] == f
    ensures |gs[|dqs|]| == |links|
    ensures SweptBy(links, law, loops, f, SweepFrom(links, law, loops, |dqs|, gs[|dqs|], most), allGs, allDqs)
    decreases |loops| - |dqs|
  {
    hide Correct, Totals, Abs;
    var i := |dqs|;
    allGs, allDqs := gs, dqs;
    if i < |loops| {
      var (num, den) := Totals(links, law, loops[i], gs[i], 0);
      if den != 0.0 {
        var dq := -num / den;
        var next := Correct(links, loops[i], dq, gs[i], 0);
        OneMoreCorrection(links, law, loops, gs, dqs, dq, next);
        OneMoreLargest(dqs, most, dq);
        allGs, allDqs := SweepOn(links, law, loops, f, Max(most, Abs(dq)), gs + [next], dqs + [dq]);
      }
    }
  }

  lemma OneMoreCorrection(links: seq<Link>, law: Law, loops: seq<seq<Hop>>, gs: seq<seq<real>>, dqs: seq<real>,
                          dq: real, next: seq<real>)
    requires Corrections(links, law, loops, gs, dqs) && |dqs| < |loops| && |gs[|dqs|]| == |links|
    requires Corrected(links, law, loops[|dqs|], gs[|dqs|], dq, next)
    ensures Corrections(links, law, loops, gs + [next], dqs + [dq])
  {
    hide Corrected;
    var hs, es := gs + [next], dqs + [dq];
    forall k | 0 <= k < |es| ensures |hs[k]| == |links| && Corrected(links, law, loops[k], hs[k], es[k], hs[k + 1]) {
      if k < |dqs| { assert hs[k] == gs[k] && hs[k + 1] == gs[k + 1]; }
    }
  }

  lemma OneMoreLargest(dqs: seq<real>, most: real, dq: real)
    requires Largest(dqs, most)
    ensures Largest(dqs + [dq], Max(most, Abs(dq)))
  {
    var es := dqs + [dq];
    assert es[|dqs|] == dq;
    if most > 0.0 {
      var k :| 0 <= k < |dqs| && Abs(dqs[k]) == most;
      assert es[k] == dqs[k];
    }
  }

  /** A run of whole sweeps: `fs` are the flows between them and `ms` their largest corrections, none of them below the
      tolerance before the last. */
  ghost predicate Swept(links: seq<Link>, law: Law, loops: seq<seq<Hop>>, fs: seq<seq<real>>, ms: seq<real>) {
    |fs| == |ms| + 1 &&
    forall k :: 0 <= k < |ms| ==> Sweeps(links, law, loops, fs[k], Ok((fs[k + 1], ms[k]))) &&
                                  (k < |ms| - 1 ==> ms[k] >= 0.000001)
  }

  /** How a run from `f` ends: at the first sweep below the tolerance, within a hundred; at the first sweep that cannot
      be made, before any below the tolerance; or after a hundred that are not, reporting the last. */
  ghost predicate Ends(links: seq<Link>, law: Law, loops: seq<seq<Hop>>, f: seq<real>, r: Result<seq<real>, NetError>) {
    exists fs, ms :: EndsBy(links, law, loops, f, r, fs, ms)
  }

  ghost predicate EndsBy(links: seq<Link>, law: Law, loops: seq<seq<Hop>>, f: seq<real>,
                         r: Result<seq<real>, NetError>, fs: seq<seq<real>>, ms: seq<real>) {
    Swept(links, law, loops, fs, ms) && fs[0] == f && |ms| <= 100 &&
    match r
    case Ok(g) => ms != [] && ms[|ms| - 1] < 0.000001 && g == fs[|ms|]
    case Err(AllImposerLoop) =>
      |ms| < 100 && Unfinished(ms) && Sweeps(links, law, loops, fs[|ms|], Err(AllImposerLoop))
    case Err(NoConvergence(n, last)) => n == 100 == |ms| && Unfinished(ms) && last == ms[99]
    case Err(_) => false
  }

  /** The last sweep made, if any, is not below the tolerance. */
  predicate Unfinished(ms: seq<real>) {
    ms != [] ==> ms[|ms| - 1] >= 0.000001
  }

  /** The run ends as specified. */
  lemma RunEnds(links: seq<Link>, law: Law, loops: seq<seq<Hop>>, f: seq<real>)
    requires |f| == |links|
    ensures Ends(links, law, loops, f, Iterate(links, law, loops, 1, f, 0.0))
  {
    hide Iterate;
    assert Swept(links, law, loops, [f], []);
    var fs, ms := RunOn(links, law, loops, f, 0.0, [f], []);
    assert EndsBy(links, law, loops, f, Iterate(links, law, loops, 1, f, 0.0), fs, ms);
  }

  /** The rest of a run that has made the sweeps `ms`. */
  lemma {:induction false} RunOn(links: seq<Link>, law: Law, loops: seq<seq<Hop>>, f: seq<real>, last: real,
                                 fs: seq<seq<real>>, ms: seq<real>)
    returns (allFs: seq<seq<real>>, allMs: seq<real>)
    requires Swept(links, law, loops, fs, ms) && fs[0] == f && |ms| <= 100 && Unfinished(ms)
    requires |fs[|ms|]| == |links| && (ms != [] ==> last == ms[|ms| - 1])
    ensures EndsBy(links, law, loops, f, Iterate(links, law, loops, |ms| + 1, fs[|ms|], last), allFs, allMs)
    decreases 100 - |ms|
  {
    hide SweepFrom, Sweeps;
    allFs, allMs := fs, ms;
    if |ms| < 100 {
      var g := fs[|ms|];
      SweepIs(links, law, loops, g);
      match SweepFrom(links, law, loops, 0, g, 0.0)
      case Err(e) => SweptError(links, law, loops, g, e);
      case Ok((next, most)) =>
        OneMoreSweep(links, law, loops, fs, ms, next, most);
        allFs, allMs := fs + [next], ms + [most];
        if most >= 0.000001 {
          allFs, allMs := RunOn(links, law, loops, f, most, fs + [next], ms + [most]);
        }
    }
  }

  lemma SweptError(links: seq<Link>, law: Law, loops: seq<seq<Hop>>, f: seq<real>, e: NetError)
    requires Sweeps(links, law, loops, f, Err(e))
    ensures e == AllImposerLoop
  {
  }

  lemma OneMoreSweep(links: seq<Link>, law: Law, loops: seq<seq<Hop>>, fs: seq<seq<real>>, ms: seq<real>,
                     next: seq<real>, most: real)
    requires Swept(links, law, loops, fs, ms) && Unfinished(ms)
    requires Sweeps(links, law, loops, fs[|ms|], Ok((next, most)))
    ensures Swept(links, law, loops, fs + [next], ms + [most])
  {
    hide Sweeps;
    var hs, ns := fs + [next], ms + [most];
    forall k | 0 <= k < |ns|
      ensures Sweeps(links, law, loops, hs[k], Ok((hs[k + 1], ns[k]))) && (k < |ns| - 1 ==> ns[k] >= 0.000001)
    {
      if k < |ms| { assert hs[k] == fs[k] && hs[k + 1] == fs[k + 1]; }
    }
  }

  /** The first `k` corrections of a sweep, made again. */
  lemma {:induction false} SweepReplayed(links: seq<Link>, law: Law, loops: seq<seq<Hop>>, gs: seq<seq<real>>,
                                         dqs: seq<real>, k: nat)
    returns (most: real)
    requires Corrections(links, law, loops, gs, dqs) && k <= |dqs|
    ensures |gs[k]| == |links| && Largest(dqs[..k], most)
    ensures SweepFrom(links, law, loops, 0, gs[0], 0.0) == SweepFrom(links, law, loops, k, gs[k], most)
  {
    hide Totals, Correct, Abs;
    if k == 0 {
      most := 0.0;
    } else {
      var before := SweepReplayed(links, law, loops, gs, dqs, k - 1);
      assert Corrected(links, law, loops[k - 1], gs[k - 1], dqs[k - 1], gs[k]);
      most := Max(before, Abs(dqs[k - 1]));
      OneMoreLargest(dqs[..k - 1], before, dqs[k - 1]);
      assert dqs[..k] == dqs[..k - 1] + [dqs[k - 1]];
    }
  }

  lemma LargestOnce(dqs: seq<real>, a: real, b: real)
    requires Largest(dqs, a) && Largest(dqs, b)
    ensures a == b
  {
  }

  /** There is one way to sweep. */
  lemma SweepOnce(links: seq<Link>, law: Law, loops: seq<seq<Hop>>, f: seq<real>,
                  r: Result<(seq<real>, real), NetError>)
    requires |f| == |links| && Sweeps(links, law, loops, f, r)
    ensures SweepFrom(links, law, loops, 0, f, 0.0) == r
  {
    hide Totals, Correct, Largest, Corrections;
    var gs, dqs :| SweptBy(links, law, loops, f, r, gs, dqs);
    var most := SweepReplayed(links, law, loops, gs, dqs, |dqs|);
    assert dqs[..|dqs|] == dqs;
    if r.Ok? { LargestOnce(dqs, most, r.value.1); }
  }

  /** The first `k` sweeps of a run, made again. */
  lemma {:induction false} RunReplayed(links: seq<Link>, law: Law, loops: seq<seq<Hop>>, fs: seq<seq<real>>,
                                       ms: seq<real>, k: nat)
    returns (last: real)
    requires Swept(links, law, loops, fs, ms) && |fs[0]| == |links| && |ms| <= 100 && k <= |ms|
    requires forall j :: 0 <= j < k ==> ms[j] >= 0.000001
    ensures |fs[k]| == |links| && (k > 0 ==> last == ms[k - 1])
    ensures Iterate(links, law, loops, 1, fs[0], 0.0) == Iterate(links, law, loops, k + 1, fs[k], last)
  {
    hide SweepFrom, Sweeps;
    last := 0.0;
    if k > 0 {
      var before := RunReplayed(links, law, loops, fs, ms, k - 1);
      last := ms[k - 1];
      SweepOnce(links, law, loops, fs[k - 1], Ok((fs[k], last)));
    }
  }

  /** There is one way for a run to end, and the correction ends so. */
  lemma EndsIff(links: seq<Link>, law: Law, loops: seq<seq<Hop>>, f: seq<real>, r: Result<seq<real>, NetError>)
    requires |f| == |links|
    ensures Ends(links, law, loops, f, r) <==> Iterate(links, law, loops, 1, f, 0.0) == r
  {
    RunEnds(links, law, loops, f);
    if Ends(links, law, loops, f, r) {
      hide Iterate, EndsBy;
      var fs, ms :| EndsBy(links, law, loops, f, r, fs, ms);
      EndsOnce(links, law, loops, f, r, fs, ms);
    }
  }

  lemma EndsOnce(links: seq<Link>, law: Law, loops: seq<seq<Hop>>, f: seq<real>, r: Result<seq<real>, NetError>,
                 fs: seq<seq<real>>, ms: seq<real>)
    requires |f| == |links| && EndsBy(links, law, loops, f, r, fs, ms)
    ensures Iterate(links, law, loops, 1, f, 0.0) == r
  {
    hide SweepFrom, Sweeps;
    var k := if r.Ok? then |ms| - 1 else |ms|;
    var last := RunReplayed(links, law, loops, fs, ms, k);
    if r.Ok? {
      SweepOnce(links, law, loops, fs[k], Ok((fs[k + 1], ms[k])));
    } else if r.error == AllImposerLoop {
      SweepOnce(links, law, loops, fs[k], Err(AllImposerLoop));
    }
  }

  // ----- balances are kept -----

  function FreeHop(links: seq<Link>, h: Hop): seq<Hop> {
    if h.edge < |links| && links[h.edge].Unknown() then [h] else []
  }

  /** The free part of a loop. */
  function FreePart(links: seq<Link>, loop: seq<Hop>, i: nat): seq<Hop>
    requires i <= |loop|
    decreases |loop| - i
  {
    if i == |loop| then [] else FreeHop(links, loop[i]) + FreePart(links, loop, i + 1)
  }

  lemma HopChanges(links: seq<Link>, h: Hop, dq: real, f: seq<real>, n: string)
    requires |f| == |links|
    ensures Balance(links, CorrectHop(links, h, dq, f), n) ==
            Balance(links, f, n) + dq * HopSum(FreeHop(links, h), IncRow(links, n))
  {
    hide Balance, HopSum, IncRow, Shift;
    if h.edge < |links| && links[h.edge].Unknown() {
      FreeHopChanges(links, h, dq, f, n, Shift(f[h.edge], h.sign, dq));
    } else {
      NoHops(IncRow(links, n));
    }
  }

  lemma FreeHopChanges(links: seq<Link>, h: Hop, dq: real, f: seq<real>, n: string, v: real)
    requires |f| == |links| && h.edge < |links| && v == Shift(f[h.edge], h.sign, dq)
    ensures Balance(links, f[h.edge := v], n) == Balance(links, f, n) + dq * HopSum([h], IncRow(links, n))
  {
    hide Balance;
    BalanceUpdate(links, f, n, h.edge, v);
    OneHop(h, IncRow(links, n));
    assert At(IncRow(links, n), h.edge) == Inc(links[h.edge], n);
    HopAlgebra(Balance(links, f, n), Balance(links, f[h.edge := v], n), f[h.edge], v, dq, h.sign as real,
               Inc(links[h.edge], n),
               HopSum([h], IncRow(links, n)));
  }

  lemma HopAlgebra(b0: real, b1: real, f: real, v: real, dq: real, s: real, inc: real, sum: real)
    requires v == f + s * dq && b1 == b0 + inc * (v - f) && sum == s * inc
    ensures b1 == b0 + dq * sum
  {
    assert v - f == s * dq;
    assert inc * (s * dq) == dq * (s * inc);
  }

  lemma NoHops(w: seq<real>)
    ensures HopSum([], w) == 0.0
  {
  }

  /** A correction changes a node's balance by `dq` for every free hop into it, less those out of it. */
  lemma {:induction false} CorrectChanges(links: seq<Link>, loop: seq<Hop>, dq: real, f: seq<real>, i: nat, n: string)
    requires |f| == |links| && i <= |loop|
    ensures Balance(links, Correct(links, loop, dq, f, i), n) ==
            Balance(links, f, n) + dq * HopSum(FreePart(links, loop, i), IncRow(links, n))
    decreases |loop| - i
  {
    hide Balance, CorrectHop, FreeHop, HopSum;
    NoHops(IncRow(links, n));
    if i < |loop| {
      HopChanges(links, loop[i], dq, f, n);
      CorrectChanges(links, loop, dq, CorrectHop(links, loop[i], dq, f), i + 1, n);
      HopSumAppend(FreeHop(links, loop[i]), FreePart(links, loop, i + 1), IncRow(links, n));
      TwoChanges(Balance(links, f, n), Balance(links, CorrectHop(links, loop[i], dq, f), n),
                 Balance(links, Correct(links, loop, dq, f, i), n), dq,
                 HopSum(FreeHop(links, loop[i]), IncRow(links, n)),
                 HopSum(FreePart(links, loop, i + 1), IncRow(links, n)),
                 HopSum(FreePart(links, loop, i), IncRow(links, n)));
    }
  }

  lemma TwoChanges(b0: real, b1: real, b2: real, dq: real, x: real, y: real, z: real)
    requires b1 == b0 + dq * x && b2 == b1 + dq * y && z == x + y
    ensures b2 == b0 + dq * z
  {
    assert dq * (x + y) == dq * x + dq * y;
  }

  /** No hop of the loop is over an imposed edge. */
  predicate AllFree(links: seq<Link>, loop: seq<Hop>) {
    forall h :: h in loop ==> h.edge < |links| && links[h.edge].Unknown()
  }

  lemma {:induction false} FreeIsWhole(links: seq<Link>, loop: seq<Hop>, i: nat)
    requires AllFree(links, loop) && i <= |loop|
    ensures FreePart(links, loop, i) == loop[i..]
    decreases |loop| - i
  {
    if i < |loop| {
      FreeIsWhole(links, loop, i + 1);
      assert loop[i] in loop;
      assert loop[i..] == [loop[i]] + loop[i + 1..];
    }
  }

  /** Correcting a basis loop without imposed edges leaves every node balance as it was. */
  lemma CorrectKeepsBalance(root: string, links: seq<Link>, t: Tree, e: nat, dq: real, f: seq<real>, n: string)
    requires TreeOk(root, links, t) && Covered(links, t) && e < |links| && |f| == |links|
    requires AllFree(links, LoopOf(root, links, t, e))
    ensures Balance(links, Correct(links, LoopOf(root, links, t, e), dq, f, 0), n) == Balance(links, f, n)
  {
    var loop := LoopOf(root, links, t, e);
    hide LoopOf, Correct, Balance, TreeOk, Covered;
    CorrectChanges(links, loop, dq, f, 0, n);
    FreeIsWhole(links, loop, 0);
    assert loop[0..] == loop;
    LoopOfPaths(root, links, t, e);
    LoopIsCirculation(root, links, t, e, n);
  }

  lemma {:induction false} CorrectKeepsImposed(links: seq<Link>, loop: seq<Hop>, dq: real, f: seq<real>, i: nat, e: nat)
    requires |f| == |links| && i <= |loop| && e < |links| && !links[e].Unknown()
    ensures Correct(links, loop, dq, f, i)[e] == f[e]
    decreases |loop| - i
  {
    if i < |loop| { CorrectKeepsImposed(links, loop, dq, CorrectHop(links, loop[i], dq, f), i + 1, e); }
  }

  /** No loop of the basis contains an imposed edge. */
  predicate FreeLoops(links: seq<Link>, loops: seq<seq<Hop>>) {
    forall k :: 0 <= k < |loops| ==> AllFree(links, loops[k])
  }

  /** Same balance at every node, same imposed flows. */
  ghost predicate SameBalances(links: seq<Link>, f: seq<real>, g: seq<real>) {
    && |f| == |g| == |links| && (forall n :: Balance(links, g, n) == Balance(links, f, n))
    && (forall e :: 0 <= e < |links| && !links[e].Unknown() ==> g[e] == f[e])
  }

  lemma OneCorrection(root: string, links: seq<Link>, t: Tree, k: nat, dq: real, f: seq<real>)
    requires TreeOk(root, links, t) && Covered(links, t) && k < |Basis(root, links, t)| && |f| == |links|
    requires FreeLoops(links, Basis(root, links, t))
    ensures SameBalances(links, f, Correct(links, Basis(root, links, t)[k], dq, f, 0))
  {
    var e := BasisLoops(root, links, t, 0, k);
    var loop := Basis(root, links, t)[k];
    hide TreeOk, Covered, LoopOf, BasisFrom, Balance, Correct;
    var g := Correct(links, loop, dq, f, 0);
    forall n ensures Balance(links, g, n) == Balance(links, f, n) { CorrectKeepsBalance(root, links, t, e, dq, f, n); }
    forall i | 0 <= i < |links| && !links[i].Unknown()
      ensures g[i] == f[i]
    {
      CorrectKeepsImposed(links, loop, dq, f, 0, i);
    }
  }

  lemma {:induction false} SweepKeeps(root: string, links: seq<Link>, t: Tree, law: Law, i: nat, f: seq<real>,
                                      most: real)
    requires TreeOk(root, links, t) && Covered(links, t) && i <= |Basis(root, links, t)| && |f| == |links|
    requires FreeLoops(links, Basis(root, links, t)) && SweepFrom(links, law, Basis(root, links, t), i, f, most).Ok?
    ensures SameBalances(links, f, SweepFrom(links, law, Basis(root, links, t), i, f, most).value.0)
    decreases |Basis(root, links, t)| - i
  {
    hide TreeOk, Covered, FreeLoops, Correct, Totals, Basis, Balance;
    var loops := Basis(root, links, t);
    if i < |loops| {
      var (num, den) := Totals(links, law, loops[i], f, 0);
      var dq := -num / den;
      OneCorrection(root, links, t, i, dq, f);
      SweepKeeps(root, links, t, law, i + 1, Correct(links, loops[i], dq, f, 0), Max(most, Abs(dq)));
    }
  }

  /** Every sweep of a whole run leaves all node balances and all imposed flows as they were. */
  lemma {:induction false} RunKeeps(root: string, links: seq<Link>, t: Tree, law: Law, iter: nat, f: seq<real>,
                                    last: real)
    requires TreeOk(root, links, t) && Covered(links, t) && |f| == |links| && 1 <= iter <= HC_MAX_ITER + 1
    requires FreeLoops(links, Basis(root, links, t)) && Iterate(links, law, Basis(root, links, t), iter, f, last).Ok?
    ensures SameBalances(links, f, Iterate(links, law, Basis(root, links, t), iter, f, last).value)
    decreases HC_MAX_ITER + 1 - iter
  {
    hide TreeOk, Covered, FreeLoops, SweepFrom, Basis, Balance;
    var loops := Basis(root, links, t);
    SweepKeeps(root, links, t, law, 0, f, 0.0);
    var (g, most) := SweepFrom(links, law, loops, 0, f, 0.0).value;
    if most >= HC_TOL { RunKeeps(root, links, t, law, iter + 1, g, most); }
  }

  // ----- exactly when a correction keeps them -----

  /** Flows on tree edges only, balancing at every node, are all zero: leaf by leaf. */
  lemma {:induction false} TreeCarriesNothing(root: string, links: seq<Link>, t: Tree, f: seq<real>, i: nat)
    requires TreeOk(root, links, t) && |f| == |links| && 0 < i <= |t.order|
    requires (forall e :: 0 <= e < |links| && e !in t.treeEdges ==> f[e] == 0.0) &&
             forall n :: Balance(links, f, n) == 0.0
    ensures forall j :: i <= j < |t.order| ==> f[ParentHop(root, links, t, j).edge] == 0.0
    decreases |t.order| - i
  {
    hide TreeOk, PathFrom, Balance;
    if i < |t.order| {
      TreeCarriesNothing(root, links, t, f, i + 1);
      LeafCarriesNothing(root, links, t, f, i);
    }
  }

  lemma LeafCarriesNothing(root: string, links: seq<Link>, t: Tree, f: seq<real>, i: nat)
    requires TreeOk(root, links, t) && |f| == |links| && 0 < i < |t.order|
    requires (forall e :: 0 <= e < |links| && e !in t.treeEdges ==> f[e] == 0.0) && Balance(links, f, t.order[i]) == 0.0
    requires forall j :: i + 1 <= j < |t.order| ==> f[ParentHop(root, links, t, j).edge] == 0.0
    ensures f[ParentHop(root, links, t, i).edge] == 0.0
  {
    hide TreeOk, PathFrom;
    var h := ParentHop(root, links, t, i);
    var zero := f[h.edge := 0.0];
    var none := seq(|links|, e requires 0 <= e < |links| => 0.0);
    forall e | 0 <= e < |links| ensures Inc(links[e], t.order[i]) == 0.0 || zero[e] == none[e] {
      if Inc(links[e], t.order[i]) != 0.0 && e != h.edge && e in t.treeEdges {
        var k := WhoseEdge(root, links, t, e);
        if k < i { ParentEdgeAway(root, links, t, k, i); }
      }
    }
    BalanceAgreesFrom(links, zero, none, t.order[i], 0);
    NoFlowBalances(links, none, t.order[i], 0);
    OwnBalance(root, links, t, i, f, 0.0);
  }

  lemma {:induction false} NoFlowBalances(links: seq<Link>, f: seq<real>, n: string, i: nat)
    requires |f| == |links| && i <= |links| && forall e :: 0 <= e < |f| ==> f[e] == 0.0
    ensures BalanceFrom(links, f, n, i) == 0.0
    decreases |links| - i
  {
    if i < |links| { NoFlowBalances(links, f, n, i + 1); }
  }

  ghost predicate DistinctHops(hops: seq<Hop>) {
    forall i, j :: 0 <= i < j < |hops| ==> hops[i].edge != hops[j].edge
  }

  lemma {:induction false} PathDistinct(root: string, links: seq<Link>, t: Tree, i: nat)
    requires TreeOk(root, links, t) && i < |t.order|
    ensures DistinctHops(PathFrom(root, links, t, i))
    decreases i
  {
    hide TreeOk;
    if i > 0 {
      var p := ParentPosition(root, links, t, i);
      PathDistinct(root, links, t, p);
      NotOnShorterPath(root, links, t, i, p);
      ConsDistinct(ParentHop(root, links, t, i), PathFrom(root, links, t, p));
    }
  }

  lemma ConsDistinct(h: Hop, hops: seq<Hop>)
    requires DistinctHops(hops) && h.edge !in EdgesOf(hops)
    ensures DistinctHops([h] + hops)
  {
    forall k | 0 <= k < |hops| ensures hops[k].edge != h.edge { assert hops[k] in hops; }
  }

  lemma {:induction false} OutsideDistinct(hops: seq<Hop>, common: set<nat>)
    requires DistinctHops(hops)
    ensures DistinctHops(Outside(hops, common))
  {
    if hops != [] {
      OutsideDistinct(hops[1..], common);
      OutsideMembers(hops[1..], common);
      if hops[0].edge !in common { ConsDistinct(hops[0], Outside(hops[1..], common)); }
    }
  }

  lemma {:induction false} ReverseDistinct(hops: seq<Hop>)
    requires DistinctHops(hops)
    ensures DistinctHops(ReverseAll(hops)) && EdgesOf(ReverseAll(hops)) == EdgesOf(hops)
  {
    if hops != [] {
      ReverseDistinct(hops[1..]);
      var tail := ReverseAll(hops[1..]);
      assert hops == [hops[0]] + hops[1..];
      forall k | 0 <= k < |hops[1..]|
        ensures hops[1..][k].edge != hops[0].edge
      {
        assert hops[k + 1].edge != hops[0].edge;
      }
      EdgesOfCons(hops[0], hops[1..]);
      EdgesOfCons(Reversed(hops[0]), tail);
      ConsDistinct(Reversed(hops[0]), tail);
    }
  }

  lemma EdgesOfCons(h: Hop, hops: seq<Hop>)
    ensures EdgesOf([h] + hops) == {h.edge} + EdgesOf(hops)
  {
    assert forall x :: x in [h] + hops <==> x == h || x in hops;
  }

  lemma JoinDistinct(a: seq<Hop>, b: seq<Hop>)
    requires DistinctHops(a) && DistinctHops(b) && EdgesOf(a) !! EdgesOf(b)
    ensures DistinctHops(a + b)
  {
    forall i, j | 0 <= i < |a| && 0 <= j < |b| ensures a[i].edge != b[j].edge {
      assert a[i] in a && b[j] in b;
      assert a[i].edge in EdgesOf(a) && b[j].edge in EdgesOf(b);
    }
  }

  /** No loop uses an edge twice. */
  lemma LoopDistinct(root: string, links: seq<Link>, t: Tree, e: nat)
    requires TreeOk(root, links, t) && Covered(links, t) && e < |links| && e !in t.treeEdges
    ensures DistinctHops(LoopOf(root, links, t, e))
  {
    LoopOfPaths(root, links, t, e);
    LoopEdges(root, links, t, e);
    hide TreeOk, Covered, PathFrom;
    var a, b := PathOf(root, links, t, links[e].a), PathOf(root, links, t, links[e].b);
    PathDistinct(root, links, t, Position(t.order, links[e].a));
    PathDistinct(root, links, t, Position(t.order, links[e].b));
    UncommonDistinct(a, b);
    var loop := LoopOf(root, links, t, e);
    assert loop == [loop[0]] + loop[1..];
    hide PathOf, LoopOf;
    ConsDistinct(loop[0], loop[1..]);
  }

  lemma UncommonDistinct(a: seq<Hop>, b: seq<Hop>)
    requires DistinctHops(a) && DistinctHops(b)
    ensures var common := EdgesOf(a) * EdgesOf(b); DistinctHops(Outside(a, common) + ReverseAll(Outside(b, common)))
  {
    var common := EdgesOf(a) * EdgesOf(b);
    OutsideDistinct(a, common);
    OutsideDistinct(b, common);
    ReverseDistinct(Outside(b, common));
    OutsideMembers(a, common);
    OutsideMembers(b, common);
    JoinDistinct(Outside(a, common), ReverseAll(Outside(b, common)));
  }

  /** The flow that sends one unit along each hop. */
  function UnitFlow(links: seq<Link>, hops: seq<Hop>): (f: seq<real>)
    ensures |f| == |links|
  {
    if hops == [] then seq(|links|, e requires 0 <= e < |links| => 0.0)
    else CorrectAt(UnitFlow(links, hops[1..]), hops[0].edge, hops[0].sign as real)
  }

  function CorrectAt(f: seq<real>, e: nat, v: real): (g: seq<real>)
    ensures |g| == |f|
  {
    if e < |f| then f[e := f[e] + v] else f
  }

  lemma {:induction false} UnitBalance(links: seq<Link>, hops: seq<Hop>, n: string)
    requires forall h :: h in hops ==> h.edge < |links|
    ensures Balance(links, UnitFlow(links, hops), n) == HopSum(hops, IncRow(links, n))
  {
    if hops == [] {
      NoFlowBalances(links, UnitFlow(links, hops), n, 0);
    } else {
      hide Balance;
      var rest := UnitFlow(links, hops[1..]);
      var h := hops[0];
      assert h in hops;
      UnitBalance(links, hops[1..], n);
      BalanceUpdate(links, rest, n, h.edge, rest[h.edge] + h.sign as real);
      assert At(IncRow(links, n), h.edge) == Inc(links[h.edge], n);
    }
  }

  lemma {:induction false} UnitAt(links: seq<Link>, hops: seq<Hop>, e: nat)
    requires DistinctHops(hops) && e < |links|
    ensures e !in EdgesOf(hops) ==> UnitFlow(links, hops)[e] == 0.0
    ensures forall h :: h in hops && h.edge == e ==> UnitFlow(links, hops)[e] == h.sign as real
  {
    if hops != [] {
      var rest := hops[1..];
      assert hops == [hops[0]] + rest;
      assert forall k :: 0 <= k < |rest| ==> rest[k] == hops[k + 1];
      UnitAt(links, rest, e);
      EdgesOfCons(hops[0], rest);
      forall h | h in rest ensures h.edge != hops[0].edge {
        var k :| 0 <= k < |rest| && rest[k] == h;
      }
    }
  }

  /** Hops over distinct tree edges that balance at every node: there are none. */
  lemma TreeHopsVanish(root: string, links: seq<Link>, t: Tree, hops: seq<Hop>)
    requires TreeOk(root, links, t) && DistinctHops(hops)
    requires forall h :: h in hops ==> WfHop(links, h) && h.edge in t.treeEdges
    requires forall n :: HopSum(hops, IncRow(links, n)) == 0.0
    ensures hops == []
  {
    var f := UnitFlow(links, hops);
    hide TreeOk, Balance, HopSum, UnitFlow, IncRow;
    forall e | 0 <= e < |links| && e !in t.treeEdges ensures f[e] == 0.0 { UnitAt(links, hops, e); }
    forall n ensures Balance(links, f, n) == 0.0 { UnitBalance(links, hops, n); }
    TreeSize(root, links, t);
    TreeCarriesNothing(root, links, t, f, 1);
    if hops != [] {
      var h := hops[0];
      assert h in hops;
      UnitAt(links, hops, h.edge);
      var k := WhoseEdge(root, links, t, h.edge);
    }
  }

  lemma TreeSize(root: string, links: seq<Link>, t: Tree)
    requires TreeOk(root, links, t)
    ensures |t.order| >= 1
  {
  }

  function EdgesWhere(links: seq<Link>, free: bool): set<nat> {
    set e | 0 <= e < |links| && links[e].Unknown() == free
  }

  lemma {:induction false} PartsSum(links: seq<Link>, hops: seq<Hop>, w: seq<real>)
    requires forall h :: h in hops ==> h.edge < |links|
    ensures HopSum(Outside(hops, EdgesWhere(links, true)), w) + HopSum(Outside(hops, EdgesWhere(links, false)), w) ==
            HopSum(hops, w)
  {
    if hops != [] {
      var h, rest := hops[0], hops[1..];
      assert h in hops;
      PartsSum(links, rest, w);
      var free := links[h.edge].Unknown();
      assert h.edge in EdgesWhere(links, free) && h.edge !in EdgesWhere(links, !free);
      OutsideStep(h, rest, EdgesWhere(links, !free), w);
      OutsideSkip(h, rest, EdgesWhere(links, free));
      assert hops == [h] + rest;
    }
  }

  lemma OutsideSkip(h: Hop, rest: seq<Hop>, common: set<nat>)
    requires h.edge in common
    ensures Outside([h] + rest, common) == Outside(rest, common)
  {
    assert ([h] + rest)[1..] == rest;
    assert Outside([h] + rest, common) == [] + Outside(rest, common);
  }

  lemma {:induction false} FreePartIs(links: seq<Link>, loop: seq<Hop>, i: nat)
    requires i <= |loop| && forall h :: h in loop ==> h.edge < |links|
    ensures FreePart(links, loop, i) == Outside(loop[i..], EdgesWhere(links, false))
    decreases |loop| - i
  {
    if i < |loop| {
      FreePartIs(links, loop, i + 1);
      assert loop[i] in loop;
      assert loop[i..] == [loop[i]] + loop[i + 1..];
      assert loop[i..][1..] == loop[i + 1..];
    }
  }

  /** One non-zero correction of a basis loop with a free edge leaves all balances as they were if and only if the
      loop contains no imposed edge. */
  lemma CorrectionIsExact(root: string, links: seq<Link>, t: Tree, e: nat, dq: real, f: seq<real>)
    requires TreeOk(root, links, t) && Covered(links, t) && e < |links| && e !in t.treeEdges && |f| == |links| &&
             dq != 0.0
    requires exists h :: h in LoopOf(root, links, t, e) && h.edge < |links| && links[h.edge].Unknown()
    ensures AllFree(links, LoopOf(root, links, t, e)) <==>
            forall n :: Balance(links, Correct(links, LoopOf(root, links, t, e), dq, f, 0), n) == Balance(links, f, n)
  {
    var loop := LoopOf(root, links, t, e);
    LoopEdges(root, links, t, e);
    hide TreeOk, Covered, LoopOf, Correct, Balance, AllFree;
    if AllFree(links, loop) {
      forall n ensures Balance(links, Correct(links, loop, dq, f, 0), n) == Balance(links, f, n) {
        CorrectKeepsBalance(root, links, t, e, dq, f, n);
      }
    }
    if forall n :: Balance(links, Correct(links, loop, dq, f, 0), n) == Balance(links, f, n) {
      forall n ensures HopSum(Outside(loop, EdgesWhere(links, false)), IncRow(links, n)) == 0.0 {
        FreeSumZero(links, loop, dq, f, n);
      }
      BalancedMeansFree(root, links, t, e, loop);
    }
  }

  lemma FreeSumZero(links: seq<Link>, loop: seq<Hop>, dq: real, f: seq<real>, n: string)
    requires |f| == |links| && dq != 0.0 && forall h :: h in loop ==> h.edge < |links|
    requires Balance(links, Correct(links, loop, dq, f, 0), n) == Balance(links, f, n)
    ensures HopSum(Outside(loop, EdgesWhere(links, false)), IncRow(links, n)) == 0.0
  {
    hide Balance, Correct, HopSum, IncRow;
    CorrectChanges(links, loop, dq, f, 0, n);
    FreePartIs(links, loop, 0);
    assert loop[0..] == loop;
    ZeroFactor(dq, HopSum(FreePart(links, loop, 0), IncRow(links, n)));
  }

  lemma ZeroFactor(x: real, y: real)
    requires x != 0.0 && x * y == 0.0
    ensures y == 0.0
  {
  }

  lemma BalancedMeansFree(root: string, links: seq<Link>, t: Tree, e: nat, loop: seq<Hop>)
    requires TreeOk(root, links, t) && Covered(links, t) && e < |links| && e !in t.treeEdges
    requires loop == LoopOf(root, links, t, e)
    requires exists h :: h in loop && h.edge < |links| && links[h.edge].Unknown()
    requires forall n :: HopSum(Outside(loop, EdgesWhere(links, false)), IncRow(links, n)) == 0.0
    ensures AllFree(links, loop)
  {
    LoopEdges(root, links, t, e);
    LoopDistinct(root, links, t, e);
    LoopOfPaths(root, links, t, e);
    hide TreeOk, Covered, LoopOf, HopSum, IncRow;
    assert loop == [loop[0]] + loop[1..];
    var free, imposed := Outside(loop, EdgesWhere(links, false)), Outside(loop, EdgesWhere(links, true));
    OutsideDistinct(loop, EdgesWhere(links, false));
    OutsideDistinct(loop, EdgesWhere(links, true));
    OutsideMembers(loop, EdgesWhere(links, false));
    OutsideMembers(loop, EdgesWhere(links, true));
    if links[e].Unknown() {
      forall n ensures HopSum(imposed, IncRow(links, n)) == 0.0 {
        PartsSum(links, loop, IncRow(links, n));
        LoopIsCirculation(root, links, t, e, n);
      }
      TreeHopsVanish(root, links, t, imposed);
    } else {
      var h :| h in loop && h.edge < |links| && links[h.edge].Unknown();
      assert h in free;
      TreeHopsVanish(root, links, t, free);
    }
  }

  // ----- when a loop is refused -----

  /** Slopes are never negative. */
  ghost predicate RisingLaw(links: seq<Link>, law: Law) {
    forall l, q :: l in links ==> law(l, q).1 >= 0.0
  }

  /** At the flows `f` no free hop of the loop, taken from hop `i` on, has any slope. */
  ghost predicate Flat(links: seq<Link>, law: Law, loop: seq<Hop>, f: seq<real>, i: nat)
    requires |f| == |links|
  {
    forall j :: i <= j < |loop| && loop[j].edge < |links| && links[loop[j].edge].Unknown() ==>
      law(links[loop[j].edge], SignedFlow(loop[j], f[loop[j].edge])).1 == 0.0
  }

  /** A loop is refused exactly when no free hop of it has any slope at its flow: besides loops of imposed edges only,
      these are loops at rest, and loops of free edges without resistance at any flow. */
  lemma {:induction false} RefusedIffFlat(links: seq<Link>, law: Law, loop: seq<Hop>, f: seq<real>, i: nat)
    requires |f| == |links| && i <= |loop| && RisingLaw(links, law)
    ensures Totals(links, law, loop, f, i).1 >= 0.0
    ensures Totals(links, law, loop, f, i).1 == 0.0 <==> Flat(links, law, loop, f, i)
    decreases |loop| - i
  {
    if i < |loop| {
      RefusedIffFlat(links, law, loop, f, i + 1);
      var h := loop[i];
      var k := if h.edge < |links| then law(links[h.edge], SignedFlow(h, At(f, h.edge))).1 else 0.0;
    }
  }

  /** The slope at an edge vanishes exactly at zero flow. */
  ghost predicate Resists(law: Law, l: Link) {
    forall q :: law(l, q).1 == 0.0 <==> q == 0.0
  }

  ghost predicate Still(links: seq<Link>, loop: seq<Hop>, f: seq<real>, i: nat)
    requires |f| == |links|
  {
    forall j :: i <= j < |loop| && loop[j].edge < |links| && links[loop[j].edge].Unknown() ==> f[loop[j].edge] == 0.0
  }

  /** Where every free edge of the loop has resistance, it is refused exactly when none of them carries any flow. */
  lemma RefusedIffStill(links: seq<Link>, law: Law, loop: seq<Hop>, f: seq<real>)
    requires |f| == |links| && RisingLaw(links, law) && forall h :: h in loop ==> WfHop(links, h)
    requires forall h :: h in loop && h.edge < |links| && links[h.edge].Unknown() ==> Resists(law, links[h.edge])
    ensures Totals(links, law, loop, f, 0).1 == 0.0 <==> Still(links, loop, f, 0)
  {
    RefusedIffFlat(links, law, loop, f, 0);
    forall j | 0 <= j < |loop| && loop[j].edge < |links| && links[loop[j].edge].Unknown()
      ensures law(links[loop[j].edge], SignedFlow(loop[j], f[loop[j].edge])).1 == 0.0 <==> f[loop[j].edge] == 0.0
    {
      var h := loop[j];
      assert h in loop && Resists(law, links[h.edge]);
      assert SignedFlow(h, f[h.edge]) == 0.0 <==> f[h.edge] == 0.0;
    }
  }

  /** Drop `r` times the flow times its magnitude, with the slope to match: the law of a fixed resistance. */
  function Quadratic(r: real, q: real): (real, real) {
    (r * q * Abs(q), 2.0 * r * Abs(q))
  }

  /** Edge `l` follows that law with resistance `r`. */
  ghost predicate FixedResistance(law: Law, l: Link, r: real) {
    forall q :: law(l, q) == Quadratic(r, q)
  }

  /** A loop whose free edges have resistance zero is refused whatever flows through it. */
  lemma NoResistanceRefused(links: seq<Link>, law: Law, loop: seq<Hop>, f: seq<real>)
    requires |f| == |links| && RisingLaw(links, law)
    requires forall h :: h in loop && h.edge < |links| && links[h.edge].Unknown() ==>
                           FixedResistance(law, links[h.edge], 0.0)
    ensures Totals(links, law, loop, f, 0).1 == 0.0
  {
    RefusedIffFlat(links, law, loop, f, 0);
    forall j | 0 <= j < |loop| && loop[j].edge < |links| && links[loop[j].edge].Unknown()
      ensures law(links[loop[j].edge], SignedFlow(loop[j], f[loop[j].edge])).1 == 0.0
    {
      assert loop[j] in loop;
      NoSlope(law, links[loop[j].edge], SignedFlow(loop[j], f[loop[j].edge]));
    }
  }

  lemma NoSlope(law: Law, l: Link, q: real)
    requires FixedResistance(law, l, 0.0)
    ensures law(l, q).1 == 0.0
  {
    assert law(l, q) == Quadratic(0.0, q);
  }

  // ----- fixed points -----

  /** Reversing the flow reverses the drop. */
  ghost predicate OddLaw(links: seq<Link>, law: Law) {
    forall l, q :: l in links ==> law(l, -q).0 == -law(l, q).0
  }

  /** Every edge's drop in its own sense; an imposed edge has no head-loss model and counts as zero. */
  function Drops(links: seq<Link>, law: Law, f: seq<real>): seq<real>
    requires |f| == |links|
  {
    seq(|links|, e requires 0 <= e < |links| => if links[e].Unknown() then law(links[e], f[e]).0 else 0.0)
  }

  lemma {:induction false} NumeratorIsDrop(links: seq<Link>, law: Law, loop: seq<Hop>, f: seq<real>, i: nat)
    requires |f| == |links| && i <= |loop| && OddLaw(links, law) && forall h :: h in loop ==> WfHop(links, h)
    ensures Totals(links, law, loop, f, i).0 == HopSum(loop[i..], Drops(links, law, f))
    decreases |loop| - i
  {
    if i < |loop| {
      NumeratorIsDrop(links, law, loop, f, i + 1);
      var h := loop[i];
      assert h in loop;
      assert loop[i..][0] == h && loop[i..][1..] == loop[i + 1..];
      HopDropIs(links, law, h, f);
    }
  }

  lemma HopDropIs(links: seq<Link>, law: Law, h: Hop, f: seq<real>)
    requires |f| == |links| && OddLaw(links, law) && WfHop(links, h)
    ensures HopValue(h, Drops(links, law, f)) == if links[h.edge].Unknown()
            then law(links[h.edge], SignedFlow(h, At(f, h.edge))).0 else 0.0
  {
    if h.sign == -1 {
      assert h.sign as real * At(f, h.edge) == -f[h.edge];
    } else {
      assert h.sign as real * At(f, h.edge) == f[h.edge];
    }
  }

  lemma {:induction false} NoCorrection(links: seq<Link>, loop: seq<Hop>, f: seq<real>, i: nat)
    requires |f| == |links| && i <= |loop|
    ensures Correct(links, loop, 0.0, f, i) == f
    decreases |loop| - i
  {
    if i < |loop| {
      assert CorrectHop(links, loop[i], 0.0, f) == f;
      NoCorrection(links, loop, f, i + 1);
    }
  }

  lemma {:induction false} MostGrows(links: seq<Link>, law: Law, loops: seq<seq<Hop>>, i: nat, f: seq<real>, most: real)
    requires |f| == |links| && i <= |loops| && SweepFrom(links, law, loops, i, f, most).Ok?
    ensures SweepFrom(links, law, loops, i, f, most).value.1 >= most
    decreases |loops| - i
  {
    hide Totals, Correct;
    if i < |loops| {
      var (num, den) := Totals(links, law, loops[i], f, 0);
      var dq := -num / den;
      MostGrows(links, law, loops, i + 1, Correct(links, loops[i], dq, f, 0), Max(most, Abs(dq)));
    }
  }

  ghost predicate HasSlope(links: seq<Link>, law: Law, loops: seq<seq<Hop>>, f: seq<real>) {
    forall k :: 0 <= k < |loops| ==> Totals(links, law, loops[k], f, 0).1 != 0.0
  }

  ghost predicate NoHeads(links: seq<Link>, law: Law, loops: seq<seq<Hop>>, f: seq<real>, i: nat) {
    forall k :: i <= k < |loops| ==> Totals(links, law, loops[k], f, 0).0 == 0.0
  }

  lemma {:induction false} StillSweep(links: seq<Link>, law: Law, loops: seq<seq<Hop>>, i: nat, f: seq<real>)
    requires |f| == |links| && i <= |loops| && HasSlope(links, law, loops, f)
    ensures SweepFrom(links, law, loops, i, f, 0.0) == Ok((f, 0.0)) <==> NoHeads(links, law, loops, f, i)
    ensures SweepFrom(links, law, loops, i, f, 0.0).Ok? && SweepFrom(links, law, loops, i, f, 0.0).value.1 == 0.0 ==>
              NoHeads(links, law, loops, f, i)
    decreases |loops| - i
  {
    hide Totals, Correct;
    if i < |loops| {
      var (num, den) := Totals(links, law, loops[i], f, 0);
      NoCorrection(links, loops[i], f, 0);
      StillSweep(links, law, loops, i + 1, f);
      if num == 0.0 {
        assert -num / den == 0.0;
      } else {
        var dq := -num / den;
        NonZeroQuotient(num, den);
        var r := SweepFrom(links, law, loops, i + 1, Correct(links, loops[i], dq, f, 0), Max(0.0, Abs(dq)));
        if r.Ok? { MostGrows(links, law, loops, i + 1, Correct(links, loops[i], dq, f, 0), Max(0.0, Abs(dq))); }
      }
    }
  }

  lemma NonZeroQuotient(num: real, den: real)
    requires num != 0.0 && den != 0.0
    ensures -num / den != 0.0
  {
    assert -num / den * den == -num;
  }

  /** The flows a sweep leaves alone are exactly those whose drops form a potential field. */
  lemma FixedPointIsField(root: string, links: seq<Link>, t: Tree, law: Law, f: seq<real>)
    requires TreeOk(root, links, t) && Covered(links, t) && |f| == |links| && OddLaw(links, law)
    requires HasSlope(links, law, Basis(root, links, t), f)
    ensures SweepFrom(links, law, Basis(root, links, t), 0, f, 0.0) == Ok((f, 0.0)) <==>
            IsPotentialField(links, t, Drops(links, law, f))
  {
    var loops := Basis(root, links, t);
    hide TreeOk, Covered, Totals, Correct, LoopOf, BasisFrom, IsPotentialField, SweepFrom, OddLaw;
    FieldIffLoopsClose(root, links, t, Drops(links, law, f));
    StillSweep(links, law, loops, 0, f);
    forall k | 0 <= k < |loops| ensures Totals(links, law, loops[k], f, 0).0 == HopSum(loops[k], Drops(links, law, f)) {
      var e := BasisLoops(root, links, t, 0, k);
      LoopEdges(root, links, t, e);
      NumeratorIsDrop(links, law, loops[k], f, 0);
      assert loops[k][0..] == loops[k];
    }
  }

  // ----- when a run stops -----

  /** The sweep from `f` ends in `g`, and its largest correction is below the tolerance. */
  ghost predicate Converges(links: seq<Link>, law: Law, loops: seq<seq<Hop>>, f: seq<real>, g: seq<real>) {
    |f| == |links| && exists most :: SweepFrom(links, law, loops, 0, f, 0.0) == Ok((g, most)) && most < HC_TOL
  }

  /** A run that succeeds ends with a sweep none of whose corrections reaches the tolerance. */
  lemma {:induction false} RunConverges(links: seq<Link>, law: Law, loops: seq<seq<Hop>>, iter: nat, f: seq<real>,
                                        last: real)
    requires |f| == |links| && 1 <= iter <= HC_MAX_ITER + 1 && Iterate(links, law, loops, iter, f, last).Ok?
    ensures exists g :: Converges(links, law, loops, g, Iterate(links, law, loops, iter, f, last).value)
    decreases HC_MAX_ITER + 1 - iter
  {
    hide SweepFrom;
    var (g, most) := SweepFrom(links, law, loops, 0, f, 0.0).value;
    if most < HC_TOL {
      assert Converges(links, law, loops, f, g);
    } else {
      RunConverges(links, law, loops, iter + 1, g, most);
    }
  }
}
