/** What the loop correction converges to: drops that nearly close around every loop. */
module NetConverge {
  import opened Wrappers
  import opened Reals
  import opened NetGraph
  import opened NetLoops
  import opened NetPaths
  import opened NetFlow
  import opened NetCorrection
  import opened NetSolve
  import Names

  // ----- laws with a slope -----

  /** How far a drop may be from its tangent, by the size of the step in flow. */
  type Gauge = real -> real

  ghost predicate Growing(gauge: Gauge) {
    && (forall x: real :: x >= 0.0 ==> gauge(x) >= 0.0)
    && (forall x: real, y: real :: 0.0 <= x <= y ==> gauge(x) <= gauge(y))
  }

  function Scaled(c: real, x: real): real {
    c * x
  }

  /** A step `d` from flow `q` changes the drop by the slope at `q` times `d`, up to the gauge of the step. */
  ghost predicate Near(law: Law, gauge: Gauge, l: Link, q: real, d: real) {
    Abs(law(l, q + d).0 - law(l, q).0 - Scaled(d, law(l, q).1)) <= gauge(Abs(d))
  }

  /** Slopes are never negative and describe the drops up to the gauge. */
  ghost predicate TangentLaw(links: seq<Link>, law: Law, gauge: Gauge) {
    RisingLaw(links, law) && Growing(gauge) && forall l, q, d :: l in links ==> Near(law, gauge, l, q, d)
  }

  /** Drops proportional to the flow, with the factor as slope. */
  ghost predicate LinearLaw(links: seq<Link>, law: Law, factor: Link -> real) {
    forall l, q :: l in links ==> law(l, q) == (factor(l) * q, factor(l))
  }

  function Exactly(): Gauge {
    (x: real) => 0.0
  }

  /** A linear law equals its tangent. */
  lemma LinearIsTangent(links: seq<Link>, law: Law, factor: Link -> real)
    requires LinearLaw(links, law, factor) && forall l :: l in links ==> factor(l) >= 0.0
    ensures TangentLaw(links, law, Exactly())
  {
    forall l, q, d | l in links ensures Near(law, Exactly(), l, q, d) {
      assert factor(l) * (q + d) == factor(l) * q + d * factor(l);
    }
  }

  function Squared(bend: real): Gauge {
    (x: real) => bend * x * x
  }

  lemma SquaresGrow(bend: real)
    requires bend >= 0.0
    ensures Growing(Squared(bend))
  {
    forall x: real | x >= 0.0 ensures Squared(bend)(x) >= 0.0 { assert bend * x >= 0.0; }
    forall x: real, y: real | 0.0 <= x <= y ensures Squared(bend)(x) <= Squared(bend)(y) {
      assert bend * x <= bend * y;
      ProductGrows(bend * x, bend * y, x, y);
    }
  }

  lemma ProductGrows(a: real, b: real, x: real, y: real)
    requires 0.0 <= a <= b && 0.0 <= x <= y
    ensures a * x <= b * y
  {
    assert a * x <= b * x;
    assert b * x <= b * y;
  }

  /** Every edge has a fixed resistance, at most `bend`. */
  ghost predicate ResistanceLaw(links: seq<Link>, law: Law, resistance: Link -> real, bend: real) {
    forall l :: l in links ==> 0.0 <= resistance(l) <= bend && FixedResistance(law, l, resistance(l))
  }

  /** So does the law of fixed resistances, up to the largest resistance times the square of the step. */
  lemma ResistanceIsTangent(links: seq<Link>, law: Law, resistance: Link -> real, bend: real)
    requires bend >= 0.0 && ResistanceLaw(links, law, resistance, bend)
    ensures TangentLaw(links, law, Squared(bend))
  {
    SquaresGrow(bend);
    forall l, q | l in links ensures law(l, q).1 >= 0.0 {
      assert FixedResistance(law, l, resistance(l)) && law(l, q) == Quadratic(resistance(l), q);
      assert 2.0 * resistance(l) * Abs(q) >= 0.0;
    }
    forall l, q, d | l in links ensures Near(law, Squared(bend), l, q, d) {
      assert FixedResistance(law, l, resistance(l));
      QuadraticNear(resistance(l), bend, q, d);
    }
  }

  lemma QuadraticNear(r: real, bend: real, q: real, d: real)
    requires 0.0 <= r <= bend
    ensures Abs(Quadratic(r, q + d).0 - Quadratic(r, q).0 - Scaled(d, Quadratic(r, q).1)) <= Squared(bend)(Abs(d))
  {
    hide *;
    var x, y, z := Scaled(q + d, Abs(q + d)), Scaled(q, Abs(q)), Scaled(d, Scaled(2.0, Abs(q)));
    SquareGap(q, d);
    SizeOf(d);
    QuadraticTerms(r, q, d, x, y, z);
    Bounded(r, bend, x - y - z, Abs(d));
  }

  lemma SizeOf(d: real)
    ensures Abs(d) >= 0.0
  {
  }

  lemma QuadraticTerms(r: real, q: real, d: real, x: real, y: real, z: real)
    requires x == Scaled(q + d, Abs(q + d)) && y == Scaled(q, Abs(q)) && z == Scaled(d, Scaled(2.0, Abs(q)))
    ensures Quadratic(r, q + d).0 - Quadratic(r, q).0 - Scaled(d, Quadratic(r, q).1) == Scaled(r, x - y - z)
  {
    hide Abs;
    ScaleGap(r, x, y, z);
    Regroup(r, q + d, Abs(q + d));
    Regroup(r, q, Abs(q));
    assert d * (2.0 * r * Abs(q)) == r * z;
  }

  lemma Regroup(r: real, a: real, b: real)
    ensures r * a * b == r * (a * b)
  {
  }

  lemma Bounded(r: real, bend: real, gap: real, size: real)
    requires 0.0 <= r <= bend && Abs(gap) <= Scaled(size, size) && size >= 0.0
    ensures Abs(Scaled(r, gap)) <= Squared(bend)(size)
  {
    SizeOf(gap);
    hide Abs;
    ScaledAbs(r, gap);
    ProductGrows(r, bend, Abs(gap), size * size);
    Regroup(bend, size, size);
  }

  lemma ScaleGap(r: real, x: real, y: real, z: real)
    ensures r * (x - y - z) == r * x - r * y - r * z
  {
  }

  lemma ScaledAbs(r: real, x: real)
    requires r >= 0.0
    ensures Abs(r * x) == r * Abs(x)
  {
  }

  /** `q |q|` stays within `d` squared of its tangent. */
  lemma SquareGap(q: real, d: real)
    ensures Abs(Scaled(q + d, Abs(q + d)) - Scaled(q, Abs(q)) -
                Scaled(d, Scaled(2.0, Abs(q)))) <= Scaled(Abs(d), Abs(d))
  {
    var s, gap := q + d, Scaled(q + d, Abs(q + d)) - Scaled(q, Abs(q)) - Scaled(d, Scaled(2.0, Abs(q)));
    if q >= 0.0 && s >= 0.0 {
      SquareOfSum(q, d, s * s, q * q, d * d, q * d);
    } else if q < 0.0 && s < 0.0 {
      SquareOfSum(q, d, s * s, q * q, d * d, q * d);
    } else {
      SquareOfSum(q, d, s * s, q * q, d * d, q * d);
      Between(s, d);
    }
    SquareOfAbs(d);
  }

  lemma SquareOfSum(q: real, d: real, ss: real, qq: real, dd: real, qd: real)
    requires ss == (q + d) * (q + d) && qq == q * q && dd == d * d && qd == q * d
    ensures ss == qq + 2.0 * qd + dd
    ensures Scaled(d, Scaled(2.0, q)) == 2.0 * qd && Scaled(d, Scaled(2.0, -q)) == -(2.0 * qd)
    ensures Scaled(q + d, q + d) == ss && Scaled(q + d, -(q + d)) == -ss && Scaled(q, q) == qq && Scaled(q, -q) == -qq
  {
  }

  lemma SquareOfAbs(d: real)
    ensures Scaled(Abs(d), Abs(d)) == d * d
  {
  }

  lemma Between(x: real, d: real)
    requires d <= x <= 0.0 || 0.0 <= x <= d
    ensures 0.0 <= x * x <= d * d
  {
    if 0.0 <= x <= d { ProductGrows(x, d, x, d); } else { ProductGrows(-x, -d, -x, -d); }
  }

  // ----- one correction -----

  /** Every free hop's edge, taken from hop `i` on, has been moved by `dq` in the hop's sense. */
  ghost predicate Moved(links: seq<Link>, loop: seq<Hop>, dq: real, f: seq<real>, g: seq<real>, i: nat)
    requires |f| == |g| == |links|
  {
    forall j :: i <= j < |loop| && loop[j].edge < |links| && links[loop[j].edge].Unknown() ==>
      g[loop[j].edge] == Shift(f[loop[j].edge], loop[j].sign, dq)
  }

  lemma {:induction false} CorrectLeavesOthers(links: seq<Link>, loop: seq<Hop>, dq: real, f: seq<real>, i: nat, e: nat)
    requires |f| == |links| && i <= |loop| && e < |f| && forall j :: i <= j < |loop| ==> loop[j].edge != e
    ensures Correct(links, loop, dq, f, i)[e] == f[e]
    decreases |loop| - i
  {
    if i < |loop| { CorrectLeavesOthers(links, loop, dq, CorrectHop(links, loop[i], dq, f), i + 1, e); }
  }

  lemma {:induction false} CorrectMoves(links: seq<Link>, loop: seq<Hop>, dq: real, f: seq<real>, i: nat)
    requires |f| == |links| && i <= |loop| && DistinctHops(loop)
    ensures Moved(links, loop, dq, f, Correct(links, loop, dq, f, i), i)
    decreases |loop| - i
  {
    hide Shift;
    if i < |loop| {
      var h := loop[i];
      var g := CorrectHop(links, h, dq, f);
      CorrectMoves(links, loop, dq, g, i + 1);
      if h.edge < |links| { CorrectLeavesOthers(links, loop, dq, g, i + 1, h.edge); }
      assert forall j :: i + 1 <= j < |loop| && loop[j].edge < |links| ==> g[loop[j].edge] == f[loop[j].edge];
    }
  }

  function Times(n: nat, x: real): real {
    n as real * x
  }

  lemma OneMoreTime(n: nat, x: real)
    ensures Times(n + 1, x) == Times(n, x) + x
  {
  }

  lemma AddScaled(dq: real, x: real, y: real)
    ensures Scaled(dq, y + x) == Scaled(dq, x) + Scaled(dq, y)
  {
  }

  /** A hop moved by `dq` in its own sense. */
  lemma HopShift(law: Law, gauge: Gauge, links: seq<Link>, h: Hop, dq: real, f: seq<real>, g: seq<real>)
    requires |f| == |g| == |links| && WfHop(links, h) && TangentLaw(links, law, gauge)
    requires g[h.edge] == Shift(f[h.edge], h.sign, dq)
    ensures var before := law(links[h.edge], SignedFlow(h, At(f, h.edge)));
            Abs(law(links[h.edge], SignedFlow(h, At(g, h.edge))).0 - before.0 - Scaled(dq, before.1)) <= gauge(Abs(dq))
  {
    assert SignedFlow(h, At(g, h.edge)) == SignedFlow(h, At(f, h.edge)) + dq;
    assert Near(law, gauge, links[h.edge], SignedFlow(h, At(f, h.edge)), dq);
  }

  /** Moving every free hop of a loop by `dq` changes the loop's sum by `dq` times its slope, up to a gauge per hop. */
  lemma {:induction false} TangentShift(links: seq<Link>, law: Law, gauge: Gauge, loop: seq<Hop>, dq: real,
                                        f: seq<real>, g: seq<real>, i: nat)
    requires |f| == |g| == |links| && i <= |loop| && TangentLaw(links, law, gauge) && Moved(links, loop, dq, f, g, i)
    requires forall h :: h in loop ==> WfHop(links, h)
    ensures Abs(Totals(links, law, loop, g, i).0 - Totals(links, law, loop, f, i).0 -
                Scaled(dq, Totals(links, law, loop, f, i).1)) <= Times(|loop| - i, gauge(Abs(dq)))
    decreases |loop| - i
  {
    var s := gauge(Abs(dq));
    assert s >= 0.0;
    hide TangentLaw, Shift, SignedFlow, Times, Abs, Scaled;
    if i < |loop| {
      var h := loop[i];
      assert h in loop;
      TangentShift(links, law, gauge, loop, dq, f, g, i + 1);
      OneMoreTime(|loop| - i - 1, s);
      var (num, den) := Totals(links, law, loop, f, i + 1);
      var after := Totals(links, law, loop, g, i + 1).0;
      if links[h.edge].Unknown() {
        HopShift(law, gauge, links, h, dq, f, g);
        var (dp, k) := law(links[h.edge], SignedFlow(h, At(f, h.edge)));
        AddScaled(dq, den, k);
        NearSum(num, after, Scaled(dq, den), Times(|loop| - i - 1, s), dp,
                law(links[h.edge], SignedFlow(h, At(g, h.edge))).0, Scaled(dq, k), s, Scaled(dq, k + den));
      }
    } else {
      NoTimes(s);
      NothingNear(dq);
    }
  }

  lemma NothingNear(dq: real)
    ensures Abs(0.0 - 0.0 - Scaled(dq, 0.0)) == 0.0 && Scaled(dq, 0.0) == 0.0 && Abs(0.0 - 0.0) == 0.0
  {
  }

  /** Two sums, each near its predecessor plus a part, are so together. */
  lemma NearSum(a0: real, a1: real, x: real, c: real, b0: real, b1: real, y: real, d: real, z: real)
    requires Abs(a1 - a0 - x) <= c && Abs(b1 - b0 - y) <= d && z == x + y
    ensures Abs(b1 + a1 - (b0 + a0) - z) <= c + d
  {
  }

  lemma NoTimes(x: real)
    ensures Times(0, x) == 0.0
  {
  }

  lemma Cancels(num: real, den: real, dq: real)
    requires den != 0.0 && dq == -num / den
    ensures num + Scaled(dq, den) == 0.0
  {
  }

  /** One correction closes its loop up to a gauge of the correction per hop. */
  lemma CorrectionNearlyCloses(links: seq<Link>, law: Law, gauge: Gauge, loop: seq<Hop>, f: seq<real>)
    requires |f| == |links| && TangentLaw(links, law, gauge) && DistinctHops(loop) && forall h :: h in loop ==>
             WfHop(links, h)
    requires Totals(links, law, loop, f, 0).1 != 0.0
    ensures var (num, den) := Totals(links, law, loop, f, 0);
            Abs(Totals(links, law, loop, Correct(links, loop, -num / den, f, 0), 0).0)
              <= Times(|loop|, gauge(Abs(-num / den)))
  {
    hide TangentLaw, Totals, Correct, Times, Scaled, Abs;
    var (num, den) := Totals(links, law, loop, f, 0);
    CorrectMoves(links, loop, -num / den, f, 0);
    var after := Totals(links, law, loop, Correct(links, loop, -num / den, f, 0), 0).0;
    TangentShift(links, law, gauge, loop, -num / den, f, Correct(links, loop, -num / den, f, 0), 0);
    Cancels(num, den, -num / den);
    assert after == after - num - Scaled(-num / den, den);
  }

  /** For a law linear in the flow, one correction closes its loop exactly: the drops around it sum to zero. */
  lemma CorrectionClosesLinearLoop(links: seq<Link>, law: Law, factor: Link -> real, loop: seq<Hop>, f: seq<real>)
    requires |f| == |links| && LinearLaw(links, law, factor) && (forall l :: l in links ==> factor(l) >= 0.0)
    requires DistinctHops(loop) && (forall h :: h in loop ==> WfHop(links, h)) &&
             Totals(links, law, loop, f, 0).1 != 0.0
    ensures var (num, den) := Totals(links, law, loop, f, 0);
            Totals(links, law, loop, Correct(links, loop, -num / den, f, 0), 0).0 == 0.0
  {
    hide LinearLaw, TangentLaw, Totals, Correct;
    LinearIsTangent(links, law, factor);
    CorrectionNearlyCloses(links, law, Exactly(), loop, f);
  }

  // ----- a sweep moves flows little -----

  /** No flow differs by more than `d`. */
  ghost predicate Within(f: seq<real>, g: seq<real>, d: real) {
    |f| == |g| && forall e :: 0 <= e < |f| ==> Abs(g[e] - f[e]) <= d
  }

  lemma WithinAdds(f: seq<real>, g: seq<real>, h: seq<real>, c: real, d: real)
    requires Within(f, g, c) && Within(g, h, d)
    ensures Within(f, h, c + d)
  {
  }

  /** A correction moves no flow by more than its size. */
  lemma {:induction false} CorrectWithin(links: seq<Link>, loop: seq<Hop>, dq: real, f: seq<real>, i: nat)
    requires |f| == |links| && i <= |loop| && DistinctHops(loop) && forall h :: h in loop ==> WfHop(links, h)
    ensures Within(f, Correct(links, loop, dq, f, i), Abs(dq))
    decreases |loop| - i
  {
    if i < |loop| {
      var h := loop[i];
      assert h in loop;
      var g := CorrectHop(links, h, dq, f);
      CorrectWithin(links, loop, dq, g, i + 1);
      CorrectLeavesOthers(links, loop, dq, g, i + 1, h.edge);
      var c := Correct(links, loop, dq, g, i + 1);
      HopWithin(links, h, dq, f);
      forall e | 0 <= e < |f| ensures Abs(c[e] - f[e]) <= Abs(dq) { if e != h.edge { assert g[e] == f[e]; } }
    }
  }

  lemma HopWithin(links: seq<Link>, h: Hop, dq: real, f: seq<real>)
    requires |f| == |links| && WfHop(links, h)
    ensures Abs(CorrectHop(links, h, dq, f)[h.edge] - f[h.edge]) <= Abs(dq)
  {
  }

  /** Loops whose hops exist and are over distinct edges. */
  ghost predicate Proper(links: seq<Link>, loops: seq<seq<Hop>>) {
    forall k :: 0 <= k < |loops| ==> DistinctHops(loops[k]) && forall h :: h in loops[k] ==> WfHop(links, h)
  }

  /** Every correction made in a sweep is at most the largest it reports. */
  lemma {:induction false} SweepBounds(links: seq<Link>, law: Law, loops: seq<seq<Hop>>, i: nat, f: seq<real>,
                                       most: real)
    requires |f| == |links| && i < |loops| && SweepFrom(links, law, loops, i, f, most).Ok?
    ensures var (num, den) := Totals(links, law, loops[i], f, 0);
            && den != 0.0 && Abs(-num / den) <= SweepFrom(links, law, loops, i, f, most).value.1
            && SweepFrom(links, law, loops, i, f, most) ==
               SweepFrom(links, law, loops, i + 1, Correct(links, loops[i], -num / den, f, 0),
                         Max(most, Abs(-num / den)))
  {
    hide Totals, Correct;
    var (num, den) := Totals(links, law, loops[i], f, 0);
    MostGrows(links, law, loops, i + 1, Correct(links, loops[i], -num / den, f, 0), Max(most, Abs(-num / den)));
  }

  /** The sweep over the loops from loop `i` on moves no flow by more than its largest correction per loop. */
  lemma {:induction false} SweepWithin(links: seq<Link>, law: Law, loops: seq<seq<Hop>>, i: nat, f: seq<real>,
                                       most: real)
    requires |f| == |links| && i <= |loops| && Proper(links, loops) && SweepFrom(links, law, loops, i, f, most).Ok?
    ensures var (g, last) := SweepFrom(links, law, loops, i, f, most).value; Within(f, g, Times(|loops| - i, last))
    decreases |loops| - i
  {
    hide Totals, Correct, Times, Within;
    var (g, last) := SweepFrom(links, law, loops, i, f, most).value;
    if i < |loops| {
      var (num, den) := Totals(links, law, loops[i], f, 0);
      var dq := -num / den;
      var c := Correct(links, loops[i], dq, f, 0);
      SweepBounds(links, law, loops, i, f, most);
      CorrectWithin(links, loops[i], dq, f, 0);
      SweepWithin(links, law, loops, i + 1, c, Max(most, Abs(dq)));
      OneMoreTime(|loops| - i - 1, last);
      WithinAdds(f, c, g, Abs(dq), Times(|loops| - i - 1, last));
      WithinWidens(f, g, Abs(dq) + Times(|loops| - i - 1, last), Times(|loops| - i, last));
    } else {
      NoTimes(last);
      StaysWithin(f, g);
    }
  }

  lemma StaysWithin(f: seq<real>, g: seq<real>)
    requires f == g
    ensures Within(f, g, 0.0)
  {
  }

  lemma WithinWidens(f: seq<real>, g: seq<real>, c: real, d: real)
    requires Within(f, g, c) && c <= d
    ensures Within(f, g, d)
  {
  }

  // ----- later corrections disturb a closed loop little -----

  lemma HopDisturbed(law: Law, gauge: Gauge, links: seq<Link>, h: Hop, d: real, f: seq<real>, g: seq<real>)
    requires |f| == |g| == |links| && WfHop(links, h) && TangentLaw(links, law, gauge) && Within(f, g, d)
    ensures var after := law(links[h.edge], SignedFlow(h, At(g, h.edge)));
            Abs(after.0 - law(links[h.edge], SignedFlow(h, At(f, h.edge))).0) <= Scaled(d, after.1) + gauge(d)
  {
    var x, y := SignedFlow(h, At(f, h.edge)), SignedFlow(h, At(g, h.edge));
    assert Abs(g[h.edge] - f[h.edge]) <= d && Abs(x - y) <= d;
    assert law(links[h.edge], y).1 >= 0.0 && gauge(Abs(x - y)) <= gauge(d);
    assert Near(law, gauge, links[h.edge], y, x - y);
    assert y + (x - y) == x;
    hide TangentLaw, SignedFlow, Scaled;
    Steeper(x - y, d, law(links[h.edge], y).1);
  }

  lemma Steeper(step: real, d: real, k: real)
    requires Abs(step) <= d && k >= 0.0
    ensures Abs(Scaled(step, k)) <= Scaled(d, k)
  {
    if step >= 0.0 {
      ProductGrows(step, d, k, k);
      assert step * k >= 0.0;
    } else {
      ProductGrows(-step, d, k, k);
      Negated(step, k);
    }
  }

  lemma Negated(x: real, k: real)
    requires x <= 0.0 && k >= 0.0
    ensures -x * k == -(x * k) && x * k <= 0.0
  {
  }

  /** Flows within `d` of each other have loop sums within `d` times the slope, and a gauge per hop. */
  lemma {:induction false} LoopDisturbed(links: seq<Link>, law: Law, gauge: Gauge, loop: seq<Hop>, d: real,
                                         f: seq<real>, g: seq<real>, i: nat)
    requires |f| == |g| == |links| && i <= |loop| && TangentLaw(links, law, gauge) && Within(f, g, d) && d >= 0.0
    requires forall h :: h in loop ==> WfHop(links, h)
    ensures Abs(Totals(links, law, loop, g, i).0 - Totals(links, law, loop, f, i).0)
              <= Scaled(d, Totals(links, law, loop, g, i).1) + Times(|loop| - i, gauge(d))
    decreases |loop| - i
  {
    var s := gauge(d);
    assert s >= 0.0;
    hide TangentLaw, SignedFlow, Times, Within, Abs, Scaled;
    if i < |loop| {
      var h := loop[i];
      assert h in loop;
      LoopDisturbed(links, law, gauge, loop, d, f, g, i + 1);
      OneMoreTime(|loop| - i - 1, s);
      var (num, den) := Totals(links, law, loop, g, i + 1);
      if links[h.edge].Unknown() {
        HopDisturbed(law, gauge, links, h, d, f, g);
        var (dp, k) := law(links[h.edge], SignedFlow(h, At(g, h.edge)));
        AddScaled(d, den, k);
        TwoGaps(Totals(links, law, loop, f, i + 1).0, num, law(links[h.edge], SignedFlow(h, At(f, h.edge))).0, dp,
                Scaled(d, den) + Times(|loop| - i - 1, s), Scaled(d, k) + s);
      }
    } else {
      NoTimes(s);
      NothingNear(d);
    }
  }

  lemma TwoGaps(a0: real, a1: real, b0: real, b1: real, c: real, d: real)
    requires Abs(a1 - a0) <= c && Abs(b1 - b0) <= d
    ensures Abs(b1 + a1 - (b0 + a0)) <= c + d
  {
  }

  // ----- a run that succeeds -----

  /** What may be left of a loop's sum: the tolerance once per other loop times its slope, and two gauges per hop. */
  function Leftover(links: seq<Link>, law: Law, gauge: Gauge, loops: seq<seq<Hop>>, k: nat, g: seq<real>): real
    requires k < |loops|
  {
    var d := Times(|loops|, HC_TOL);
    Scaled(d, Totals(links, law, loops[k], g, 0).1) + Times(|loops[k]|, gauge(HC_TOL) + gauge(d))
  }

  lemma TimesGrow(m: nat, n: nat, x: real, y: real)
    requires m <= n && 0.0 <= x <= y
    ensures 0.0 <= Times(m, x) <= Times(n, y)
  {
    ProductGrows(m as real, n as real, x, y);
  }

  lemma TimesSum(n: nat, x: real, y: real)
    ensures Times(n, x + y) == Times(n, x) + Times(n, y)
  {
  }

  /** In a sweep that stays below the tolerance, loop `k` ends with no more than that. */
  lemma SweepCloses(links: seq<Link>, law: Law, gauge: Gauge, loops: seq<seq<Hop>>, k: nat, f: seq<real>, most: real)
    requires |f| == |links| && k < |loops| && Proper(links, loops) && TangentLaw(links, law, gauge)
    requires SweepFrom(links, law, loops, k, f, most).Ok? && SweepFrom(links, law, loops, k, f, most).value.1 <= HC_TOL
    ensures var g := SweepFrom(links, law, loops, k, f, most).value.0;
            Abs(Totals(links, law, loops[k], g, 0).0) <= Leftover(links, law, gauge, loops, k, g)
  {
    hide Totals, Correct, Times, Within, SweepFrom, TangentLaw, Scaled;
    var (g, last) := SweepFrom(links, law, loops, k, f, most).value;
    var (num, den) := Totals(links, law, loops[k], f, 0);
    SweepBounds(links, law, loops, k, f, most);
    var dq := -num / den;
    var c := Correct(links, loops[k], dq, f, 0);
    CorrectionNearlyCloses(links, law, gauge, loops[k], f);
    SweepWithin(links, law, loops, k + 1, c, Max(most, Abs(dq)));
    TimesGrow(|loops| - k - 1, |loops|, last, HC_TOL);
    var d := Times(|loops|, HC_TOL);
    WithinWidens(c, g, Times(|loops| - k - 1, last), d);
    LoopDisturbed(links, law, gauge, loops[k], d, c, g, 0);
    GaugeGrows(links, law, gauge, Abs(dq), HC_TOL);
    TimesGrow(|loops[k]|, |loops[k]|, gauge(Abs(dq)), gauge(HC_TOL));
    TimesSum(|loops[k]|, gauge(HC_TOL), gauge(d));
  }

  lemma GaugeGrows(links: seq<Link>, law: Law, gauge: Gauge, x: real, y: real)
    requires TangentLaw(links, law, gauge) && 0.0 <= x <= y
    ensures 0.0 <= gauge(x) <= gauge(y)
  {
  }

  /** The same for every loop, wherever the sweep starts. */
  lemma {:induction false} SweepClosesAll(links: seq<Link>, law: Law, gauge: Gauge, loops: seq<seq<Hop>>, i: nat,
                                          k: nat, f: seq<real>, most: real)
    requires |f| == |links| && i <= k < |loops| && Proper(links, loops) && TangentLaw(links, law, gauge)
    requires SweepFrom(links, law, loops, i, f, most).Ok? && SweepFrom(links, law, loops, i, f, most).value.1 <= HC_TOL
    ensures var g := SweepFrom(links, law, loops, i, f, most).value.0;
            Abs(Totals(links, law, loops[k], g, 0).0) <= Leftover(links, law, gauge, loops, k, g)
    decreases k - i
  {
    hide Totals, Correct, Leftover, TangentLaw, SweepFrom, Proper;
    if i == k {
      SweepCloses(links, law, gauge, loops, k, f, most);
    } else {
      var (num, den) := Totals(links, law, loops[i], f, 0);
      SweepBounds(links, law, loops, i, f, most);
      var dq := -num / den;
      SweepClosesAll(links, law, gauge, loops, i + 1, k, Correct(links, loops[i], dq, f, 0), Max(most, Abs(dq)));
    }
  }

  lemma BasisIsProper(root: string, links: seq<Link>, t: Tree)
    requires TreeOk(root, links, t) && Covered(links, t)
    ensures Proper(links, Basis(root, links, t))
  {
    var loops := Basis(root, links, t);
    hide LoopOf, BasisFrom, TreeOk, Covered;
    forall k | 0 <= k < |loops| ensures DistinctHops(loops[k]) && forall h :: h in loops[k] ==> WfHop(links, h) {
      var e := BasisLoops(root, links, t, 0, k);
      LoopEdges(root, links, t, e);
      LoopDistinct(root, links, t, e);
    }
  }

  /** `delta` is at least what may be left of any loop. */
  ghost predicate Allows(links: seq<Link>, law: Law, gauge: Gauge, loops: seq<seq<Hop>>, g: seq<real>, delta: real) {
    forall k :: 0 <= k < |loops| ==> Leftover(links, law, gauge, loops, k, g) <= delta
  }

  /** A run that succeeds ends with flows whose drops nearly close around every loop of the basis. */
  lemma RunClosesLoops(root: string, links: seq<Link>, t: Tree, law: Law, gauge: Gauge, f: seq<real>, g: seq<real>,
                       delta: real)
    requires TreeOk(root, links, t) && Covered(links, t) && |f| == |links| && TangentLaw(links, law, gauge) &&
             OddLaw(links, law)
    requires Ends(links, law, Basis(root, links, t), f, Ok(g))
    requires Allows(links, law, gauge, Basis(root, links, t), g, delta)
    ensures |g| == |links| && LoopsClose(root, links, t, Drops(links, law, g), delta)
  {
    var loops := Basis(root, links, t);
    hide TreeOk, Covered, TangentLaw, OddLaw, Iterate, Ends, SweepFrom, Leftover, Totals, BasisFrom, LoopOf, Drops,
      HopSum, Proper;
    EndsIff(links, law, loops, f, Ok(g));
    RunConverges(links, law, loops, 1, f, 0.0);
    var s :| Converges(links, law, loops, s, g);
    BasisIsProper(root, links, t);
    forall k | 0 <= k < |loops| ensures Abs(HopSum(loops[k], Drops(links, law, g))) <= delta {
      SweepClosesAll(links, law, gauge, loops, 0, k, s, 0.0);
      ProperLoop(links, loops, k);
      NumeratorIsDrop(links, law, loops[k], g, 0);
      assert loops[k][0..] == loops[k];
    }
  }

  lemma ProperLoop(links: seq<Link>, loops: seq<seq<Hop>>, k: nat)
    requires Proper(links, loops) && k < |loops|
    ensures DistinctHops(loops[k]) && forall h :: h in loops[k] ==> WfHop(links, h)
  {
  }

  /** After a solve that succeeded, the shortest walk between two nodes and any other walk drop alike, up to `delta` per
      hop. */
  lemma SolvedDropsAgree(nodes: seq<string>, links: seq<Link>, law: Law, gauge: Gauge, given: seq<real>, t: Tree,
                         seed: seq<real>, f: seq<real>, p: seq<Hop>, q: seq<Hop>, u: string, v: string, delta: real)
    requires nodes != [] && Solved(nodes, links, law, given, t, seed, f) && TangentLaw(links, law, gauge) &&
             OddLaw(links, law)
    requires delta >= 0.0 && Allows(links, law, gauge, Basis(nodes[0], links, t), f, delta)
    requires u in nodes && Shortest(links, p, u, v) && Walk(links, q, u, v)
    ensures Abs(HopSum(p, Drops(links, law, f)) - HopSum(q, Drops(links, law, f))) <= Slack(delta, |p| + |q|)
  {
    hide TreeOk, Covered, TangentLaw, OddLaw, Ends, Spans, Drops, HopSum, Walk, Slack, Allows, LoopsClose, Seeded,
      BasisFrom, Leftover;
    SpannedNode(nodes, links, t, u);
    RunClosesLoops(nodes[0], links, t, law, gauge, seed, f, delta);
    DropsAgree(nodes[0], links, t, p, q, u, v, Drops(links, law, f), delta);
  }

  lemma SpannedNode(nodes: seq<string>, links: seq<Link>, t: Tree, u: string)
    requires Spans(nodes, links, t) && u in nodes
    ensures u in t.order
  {
    assert u in NodeSet(nodes);
  }

  /** What is left in the linear case is the tolerance once per loop, times the loop's factors. */
  lemma LinearLeftover(links: seq<Link>, law: Law, factor: Link -> real, loops: seq<seq<Hop>>, k: nat, g: seq<real>)
    requires k < |loops| && LinearLaw(links, law, factor)
    ensures Leftover(links, law, Exactly(), loops, k, g) ==
            Scaled(Times(|loops|, HC_TOL), FactorSum(links, factor, loops[k], 0))
  {
    hide Times, Scaled, Totals;
    LinearSlope(links, law, factor, loops[k], g, 0);
    TimesSum(|loops[k]|, 0.0, 0.0);
  }

  /** The factors of the free hops from hop `i` on, added up. */
  function FactorSum(links: seq<Link>, factor: Link -> real, loop: seq<Hop>, i: nat): real
    requires i <= |loop|
    decreases |loop| - i
  {
    if i == |loop| then 0.0
    else
      var h := loop[i];
      FactorSum(links, factor, loop, i + 1) + if h.edge < |links| && links[h.edge].Unknown() then factor(links[h.edge])
        else 0.0
  }

  lemma {:induction false} LinearSlope(links: seq<Link>, law: Law, factor: Link -> real, loop: seq<Hop>, g: seq<real>,
                                       i: nat)
    requires i <= |loop| && LinearLaw(links, law, factor)
    ensures Totals(links, law, loop, g, i).1 == FactorSum(links, factor, loop, i)
    decreases |loop| - i
  {
    if i < |loop| { LinearSlope(links, law, factor, loop, g, i + 1); }
  }
}
