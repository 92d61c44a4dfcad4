/** Second-order approximation of real functions: sums, products, powers, reciprocals and composition. */
module SymNear {
  import opened Wrappers
  import opened Reals
  import opened SymEval

  /** `f1` is `f0 + h * d` up to `b * h * h`. */
  predicate Near(f0: real, f1: real, d: real, b: real, h: real) {
    b >= 0.0 && Abs(f1 - f0 - h * d) <= b * h * h
  }

  lemma AbsSum(a: real, b: real)
    ensures Abs(a + b) <= Abs(a) + Abs(b)
  {
  }

  lemma AbsProduct(a: real, b: real)
    ensures Abs(a * b) == Abs(a) * Abs(b)
  {
    if a < 0.0 && b < 0.0 { assert a * b == (-a) * (-b); }
    if a < 0.0 && b >= 0.0 { assert a * b == -((-a) * b); MulNonNegative(-a, b); }
    if a >= 0.0 && b < 0.0 { assert a * b == -(a * (-b)); MulNonNegative(a, -b); }
    if a >= 0.0 && b >= 0.0 { MulNonNegative(a, b); }
  }

  lemma MulNonNegative(a: real, b: real)
    requires a >= 0.0 && b >= 0.0
    ensures a * b >= 0.0
  {
  }

  lemma MulMonotone(a: real, b: real, c: real, d: real)
    requires 0.0 <= a <= b && 0.0 <= c <= d
    ensures 0.0 <= a * c <= b * d
  {
    MulNonNegative(a, c);
    MulNonNegative(b - a, c);
    MulNonNegative(b, d - c);
    assert (b - a) * c == b * c - a * c;
    assert b * (d - c) == b * d - b * c;
  }

  lemma NearSum(f0: real, f1: real, d: real, b: real, g0: real, g1: real, e: real, c: real, h: real)
    requires Near(f0, f1, d, b, h) && Near(g0, g1, e, c, h)
    ensures Near(f0 + g0, f1 + g1, d + e, b + c, h)
  {
    AbsSum(f1 - f0 - h * d, g1 - g0 - h * e);
    assert (f1 + g1) - (f0 + g0) - h * (d + e) == (f1 - f0 - h * d) + (g1 - g0 - h * e);
    assert (b + c) * h * h == b * h * h + c * h * h;
  }

  lemma NearNeg(f0: real, f1: real, d: real, b: real, h: real)
    requires Near(f0, f1, d, b, h)
    ensures Near(-f0, -f1, -d, b, h)
  {
    assert (-f1) - (-f0) - h * (-d) == -(f1 - f0 - h * d);
  }

  lemma NearConstant(f: real, h: real)
    ensures Near(f, f, 0.0, 0.0, h)
  {
  }

  /** The change itself is at most first order when `|h| <= 1`. */
  lemma ChangeBounded(f0: real, f1: real, d: real, b: real, h: real)
    requires Near(f0, f1, d, b, h) && -1.0 <= h <= 1.0
    ensures Abs(f1 - f0) <= (Abs(d) + b) * Abs(h)
  {
    AbsSum(f1 - f0 - h * d, h * d);
    AbsProduct(h, d);
    SquareIsAbs(h);
    assert b * h * h == b * (h * h) == b * (Abs(h) * Abs(h));
    MulMonotone(Abs(h) * Abs(h), Abs(h), b, b);
    assert (Abs(d) + b) * Abs(h) == Abs(d) * Abs(h) + b * Abs(h);
  }

  lemma SquareIsAbs(h: real)
    requires -1.0 <= h <= 1.0
    ensures h * h == Abs(h) * Abs(h) && 0.0 <= Abs(h) * Abs(h) <= Abs(h)
  {
    AbsProduct(h, h);
    MulNonNegative(Abs(h), Abs(h));
    MulNonNegative(Abs(h), 1.0 - Abs(h));
    assert Abs(h) * (1.0 - Abs(h)) == Abs(h) - Abs(h) * Abs(h);
  }

  function ProductBound(f0: real, d: real, b: real, g0: real, e: real, c: real): real {
    Abs(f0) * c + Abs(g0) * b + (Abs(d) + b) * (Abs(e) + c)
  }

  lemma NearProduct(f0: real, f1: real, d: real, b: real, g0: real, g1: real, e: real, c: real, h: real)
    requires Near(f0, f1, d, b, h) && Near(g0, g1, e, c, h) && -1.0 <= h <= 1.0
    ensures Near(f0 * g0, f1 * g1, d * g0 + f0 * e, ProductBound(f0, d, b, g0, e, c), h)
  {
    var p, q := f1 - f0, g1 - g0;
    ChangeBounded(f0, f1, d, b, h);
    ChangeBounded(g0, g1, e, c, h);
    NearProductParts(f0, f1, d, b, g0, g1, e, c, h, p, q, p - h * d, q - h * e);
  }

  lemma NearProductParts(f0: real, f1: real, d: real, b: real, g0: real, g1: real, e: real, c: real, h: real,
                         p: real, q: real, r: real, s: real)
    requires b >= 0.0 && c >= 0.0 && Abs(r) <= b * h * h && Abs(s) <= c * h * h && -1.0 <= h <= 1.0
    requires Abs(p) <= (Abs(d) + b) * Abs(h) && Abs(q) <= (Abs(e) + c) * Abs(h)
    requires p == f1 - f0 && q == g1 - g0 && r == p - h * d && s == q - h * e
    ensures Near(f0 * g0, f1 * g1, d * g0 + f0 * e, ProductBound(f0, d, b, g0, e, c), h)
  {
    hide Abs, Near, ProductBound;
    ProductBoundNonNegative(f0, d, b, g0, e, c);
    RemainderBound(f0, g0, p, q, r, s, Abs(d) + b, Abs(e) + c, b, c, h);
    ProductBoundIs(f0, d, b, g0, e, c, Abs(d) + b, Abs(e) + c);
    ProductSplits(f0, f1, g0, g1, p, q, r, s, d, e, h);
    NearOf(f0 * g0, f1 * g1, d * g0 + f0 * e, ProductBound(f0, d, b, g0, e, c), h, f0 * s + g0 * r + p * q);
  }

  lemma NearOf(f0: real, f1: real, d: real, b: real, h: real, t: real)
    requires b >= 0.0 && Abs(t) <= b * h * h && f1 - f0 - h * d == t
    ensures Near(f0, f1, d, b, h)
  {
  }

  lemma RemainderBound(f0: real, g0: real, p: real, q: real, r: real, s: real, x: real, y: real, b: real, c: real,
                       h: real)
    requires b >= 0.0 && c >= 0.0 && Abs(r) <= b * h * h && Abs(s) <= c * h * h
    requires Abs(p) <= x * Abs(h) && Abs(q) <= y * Abs(h) && -1.0 <= h <= 1.0
    ensures Abs(f0 * s + g0 * r + p * q) <= (Abs(f0) * c + Abs(g0) * b + x * y) * h * h
  {
    hide Abs;
    Scaled(f0, s, c, h);
    Scaled(g0, r, b, h);
    CrossTerm(p, q, x, y, h);
    ThreeParts(f0 * s, g0 * r, p * q, Abs(f0) * c, Abs(g0) * b, x * y, h);
  }

  lemma ProductBoundIs(f0: real, d: real, b: real, g0: real, e: real, c: real, x: real, y: real)
    requires x == Abs(d) + b && y == Abs(e) + c
    ensures ProductBound(f0, d, b, g0, e, c) == Abs(f0) * c + Abs(g0) * b + x * y
  {
  }

  lemma ProductBoundNonNegative(f0: real, d: real, b: real, g0: real, e: real, c: real)
    requires b >= 0.0 && c >= 0.0
    ensures ProductBound(f0, d, b, g0, e, c) >= 0.0
  {
    MulNonNegative(Abs(f0), c);
    MulNonNegative(Abs(g0), b);
    MulNonNegative(Abs(d) + b, Abs(e) + c);
  }

  lemma ThreeParts(u: real, v: real, w: real, x: real, y: real, z: real, h: real)
    requires Abs(u) <= x * (h * h) && Abs(v) <= y * (h * h) && Abs(w) <= z * (h * h)
    ensures Abs(u + v + w) <= (x + y + z) * h * h
  {
    AbsSum(u + v, w);
    AbsSum(u, v);
    Distribute(x, y, z, h);
  }

  lemma ProductSplits(f0: real, f1: real, g0: real, g1: real, p: real, q: real, r: real, s: real, d: real, e: real,
                      h: real)
    requires p == f1 - f0 && q == g1 - g0 && r == p - h * d && s == q - h * e
    ensures f1 * g1 - f0 * g0 - h * (d * g0 + f0 * e) == f0 * s + g0 * r + p * q
  {
  }

  lemma Distribute(x: real, y: real, z: real, h: real)
    ensures (x + y + z) * h * h == x * (h * h) + y * (h * h) + z * (h * h)
  {
  }

  lemma Scaled(f: real, s: real, c: real, h: real)
    requires Abs(s) <= c * h * h && c >= 0.0
    ensures Abs(f * s) <= Abs(f) * c * (h * h)
  {
    AbsProduct(f, s);
    MulMonotone(Abs(f), Abs(f), Abs(s), c * h * h);
    assert Abs(f) * (c * h * h) == Abs(f) * c * (h * h);
  }

  lemma CrossTerm(p: real, q: real, x: real, y: real, h: real)
    requires Abs(p) <= x * Abs(h) && Abs(q) <= y * Abs(h) && -1.0 <= h <= 1.0
    ensures Abs(p * q) <= x * y * (h * h)
  {
    AbsProduct(p, q);
    MulMonotone(Abs(p), x * Abs(h), Abs(q), y * Abs(h));
    SquareIsAbs(h);
    assert (x * Abs(h)) * (y * Abs(h)) == x * y * (Abs(h) * Abs(h));
  }

  function PowerSlope(f0: real, d: real, n: nat): real {
    if n == 0 then 0.0 else n as real * (NatPow(f0, n - 1) * d)
  }

  function PowerBound(f0: real, d: real, b: real, n: nat): real {
    if n == 0 then 0.0
    else ProductBound(f0, d, b, NatPow(f0, n - 1), PowerSlope(f0, d, n - 1), PowerBound(f0, d, b, n - 1))
  }

  lemma {:induction false} NearPower(f0: real, f1: real, d: real, b: real, n: nat, h: real)
    requires Near(f0, f1, d, b, h) && -1.0 <= h <= 1.0
    ensures Near(NatPow(f0, n), NatPow(f1, n), PowerSlope(f0, d, n), PowerBound(f0, d, b, n), h)
  {
    hide Near, ProductBound;
    if n == 0 {
      NearConstant(1.0, h);
    } else {
      NearPower(f0, f1, d, b, n - 1, h);
      SlopeStep(f0, d, n);
      NearProductAs(f0, f1, d, b, NatPow(f0, n - 1), NatPow(f1, n - 1), PowerSlope(f0, d, n - 1),
                    PowerBound(f0, d, b, n - 1), h,
                    NatPow(f0, n), NatPow(f1, n), PowerSlope(f0, d, n), PowerBound(f0, d, b, n));
    }
  }

  lemma NearProductAs(f0: real, f1: real, d: real, b: real, g0: real, g1: real, e: real, c: real, h: real,
                      p0: real, p1: real, s: real, k: real)
    requires Near(f0, f1, d, b, h) && Near(g0, g1, e, c, h) && -1.0 <= h <= 1.0
    requires p0 == f0 * g0 && p1 == f1 * g1 && s == d * g0 + f0 * e && k == ProductBound(f0, d, b, g0, e, c)
    ensures Near(p0, p1, s, k, h)
  {
    hide Near, ProductBound;
    NearProduct(f0, f1, d, b, g0, g1, e, c, h);
    NearSame(f0 * g0, f1 * g1, d * g0 + f0 * e, ProductBound(f0, d, b, g0, e, c), h, p0, p1, s, k);
  }

  lemma NearSame(f0: real, f1: real, d: real, b: real, h: real, g0: real, g1: real, e: real, c: real)
    requires Near(f0, f1, d, b, h) && f0 == g0 && f1 == g1 && d == e && b == c
    ensures Near(g0, g1, e, c, h)
  {
  }

  lemma SlopeStep(f0: real, d: real, n: nat)
    requires n > 0
    ensures d * NatPow(f0, n - 1) + f0 * PowerSlope(f0, d, n - 1) == PowerSlope(f0, d, n)
  {
    if n > 1 {
      var p, k := NatPow(f0, n - 2), (n - 1) as real;
      assert NatPow(f0, n - 1) == f0 * p;
      assert f0 * (k * (p * d)) == k * ((f0 * p) * d);
      assert n as real == k + 1.0;
      assert (k + 1.0) * ((f0 * p) * d) == k * ((f0 * p) * d) + (f0 * p) * d;
    }
  }

  // ----- composition -----

  function ChainBound(d: real, b: real, s: real, c: real): real {
    c * ((Abs(d) + b) * (Abs(d) + b)) + Abs(s) * b
  }

  /** A function followed along another: slopes multiply. */
  lemma NearChain(g0: real, g1: real, d: real, b: real, f0: real, f1: real, s: real, c: real, h: real)
    requires Near(g0, g1, d, b, h) && Near(f0, f1, s, c, g1 - g0) && -1.0 <= h <= 1.0
    ensures Near(f0, f1, s * d, ChainBound(d, b, s, c), h)
  {
    hide Near, Abs, ChainBound;
    ChangeBounded(g0, g1, d, b, h);
    var u := NearRest(g0, g1, d, b, h);
    var v := NearRest(f0, f1, s, c, g1 - g0);
    NearChainFrom(g1 - g0, u, d, b, f0, f1, v, s, c, h);
  }

  /** What a tangent leaves over. */
  lemma NearRest(f0: real, f1: real, d: real, b: real, h: real) returns (u: real)
    requires Near(f0, f1, d, b, h)
    ensures b >= 0.0 && u == f1 - f0 - h * d && Abs(u) <= b * h * h
  {
    u := f1 - f0 - h * d;
  }

  lemma NearChainFrom(t: real, u: real, d: real, b: real, f0: real, f1: real, v: real, s: real, c: real, h: real)
    requires b >= 0.0 && c >= 0.0 && -1.0 <= h <= 1.0 && Abs(t) <= (Abs(d) + b) * Abs(h)
    requires u == t - h * d && Abs(u) <= b * h * h && v == f1 - f0 - t * s && Abs(v) <= c * t * t
    ensures Near(f0, f1, s * d, ChainBound(d, b, s, c), h)
  {
    hide Near, Abs, ChainBound;
    SizeOf(d);
    ChainParts(v, u, t, s, c, Abs(d) + b, b, h);
    ChainSplits(f0, f1, t, s, d, h, u, v);
    ChainBoundNonNegative(d, b, s, c);
    ChainBoundIs(d, b, s, c, Abs(d) + b);
    NearOf(f0, f1, s * d, ChainBound(d, b, s, c), h, v + s * u);
  }

  lemma SizeOf(v: real)
    ensures Abs(v) >= 0.0
  {
  }

  lemma ChainBoundIs(d: real, b: real, s: real, c: real, x: real)
    requires x == Abs(d) + b
    ensures ChainBound(d, b, s, c) == c * (x * x) + Abs(s) * b
  {
  }

  lemma ChainSplits(f0: real, f1: real, t: real, s: real, d: real, h: real, u: real, v: real)
    requires u == t - h * d && v == f1 - f0 - t * s
    ensures f1 - f0 - h * (s * d) == v + s * u
  {
    assert s * (t - h * d) == s * t - s * (h * d);
    assert s * (h * d) == h * (s * d);
  }

  lemma ChainBoundNonNegative(d: real, b: real, s: real, c: real)
    requires b >= 0.0 && c >= 0.0
    ensures ChainBound(d, b, s, c) >= 0.0
  {
    MulNonNegative(Abs(d) + b, Abs(d) + b);
    MulNonNegative(c, (Abs(d) + b) * (Abs(d) + b));
    MulNonNegative(Abs(s), b);
  }

  lemma ChainParts(u: real, v: real, t: real, s: real, c: real, x: real, b: real, h: real)
    requires c >= 0.0 && b >= 0.0 && x >= 0.0 && Abs(u) <= c * t * t && Abs(v) <= b * h * h && Abs(t) <= x * Abs(h)
    requires -1.0 <= h <= 1.0
    ensures Abs(u + s * v) <= (c * (x * x) + Abs(s) * b) * h * h
  {
    hide Abs;
    Scaled(s, v, b, h);
    SquaredStep(t, x, h);
    CappedSquare(u, c, t * t, x * x, h);
    assert c * t * t == c * (t * t);
    TwoParts(u, s * v, c * (x * x), Abs(s) * b, h);
  }

  lemma CappedSquare(u: real, c: real, tt: real, xx: real, h: real)
    requires c >= 0.0 && Abs(u) <= c * tt && 0.0 <= tt <= xx * (h * h)
    ensures Abs(u) <= c * xx * (h * h)
  {
    hide Abs;
    MulMonotone(c, c, tt, xx * (h * h));
    assert c * (xx * (h * h)) == c * xx * (h * h);
  }

  lemma Square(x: real)
    ensures x * x >= 0.0 && Abs(x * x) == x * x && Abs(x) >= 0.0
  {
    if x >= 0.0 { MulNonNegative(x, x); } else { MulNonNegative(-x, -x); assert -x * -x == x * x; }
  }

  lemma SquaredStep(t: real, x: real, h: real)
    requires Abs(t) <= x * Abs(h) && -1.0 <= h <= 1.0
    ensures 0.0 <= t * t <= x * x * (h * h)
  {
    CrossTerm(t, t, x, x, h);
    Square(t);
  }

  lemma TwoParts(u: real, v: real, x: real, y: real, h: real)
    requires Abs(u) <= x * (h * h) && Abs(v) <= y * (h * h)
    ensures Abs(u + v) <= (x + y) * h * h
  {
    AbsSum(u, v);
    Distribute(x, y, 0.0, h);
  }

  // ----- functions with a slope -----

  /** Near `v` the function exists and is within `c` times the square of the step of its tangent of slope `s`. */
  ghost predicate NearAround(f: real -> Option<real>, v: real, s: real, c: real, reach: real) {
    && 0.0 < reach <= 1.0 && c >= 0.0 && f(v).Some?
    && forall t :: -reach <= t <= reach ==> NearStep(f, v, s, c, t)
  }

  ghost predicate NearStep(f: real -> Option<real>, v: real, s: real, c: real, t: real) {
    f(v + t).Some? && f(v).Some? && Near(f(v).value, f(v + t).value, s, c, t)
  }

  ghost predicate HasSlope(f: real -> Option<real>, v: real, s: real) {
    exists c, reach :: NearAround(f, v, s, c, reach)
  }

  // ----- reciprocals and negative powers -----

  lemma InverseStep(v: real, t: real, i: real, w: real, ii: real, tt: real)
    requires i * v == 1.0 && w * (v + t) == 1.0 && ii == i * i && tt == t * t
    ensures w - i - t * -ii == w * ii * tt
  {
    InverseGap(v, t, i, w);
    var g := w * i * t;
    assert w * ii * tt == t * i * g;
    assert t * i * (i - w) == t * ii - t * i * w;
    assert t * -ii == -(t * ii);
    assert t * i * w == g;
  }

  lemma InverseGap(v: real, t: real, i: real, w: real)
    requires i * v == 1.0 && w * (v + t) == 1.0
    ensures i - w == w * i * t
  {
    assert i * (w * (v + t)) == i && w * (i * v) == w;
    assert i * (w * (v + t)) == w * (i * v) + w * i * t;
  }

  /** Half of a number away from it the reciprocal is at most twice as large. */
  lemma InverseBounded(v: real, t: real, i: real, w: real)
    requires i * v == 1.0 && w * (v + t) == 1.0 && Abs(t) <= Abs(v) / 2.0
    ensures Abs(w) <= 2.0 * Abs(i)
  {
    AbsProduct(i, v);
    AbsProduct(w, v + t);
    AbsSum(v + t, -t);
    assert Abs(v + t) >= Abs(v) / 2.0;
    var half := Abs(v) / 2.0;
    assert Abs(v) == 2.0 * half && v != 0.0;
    TooLarge(Abs(w), Abs(i), half, Abs(v + t));
  }

  lemma TooLarge(w: real, i: real, half: real, u: real)
    requires i >= 0.0 && i * (2.0 * half) == 1.0 && w * u == 1.0 && u >= half && half > 0.0 && w >= 0.0
    ensures w <= 2.0 * i
  {
    if w > 2.0 * i {
      MulPositive(w - 2.0 * i, half);
      MulMonotone(w, w, half, u);
      Spread(w, i, half);
    }
  }

  lemma Spread(w: real, i: real, half: real)
    ensures (w - 2.0 * i) * half == w * half - i * (2.0 * half)
  {
  }

  lemma MulPositive(a: real, b: real)
    requires a > 0.0 && b > 0.0
    ensures a * b > 0.0
  {
  }

  function InverseSlope(i: real): real {
    -(i * i)
  }

  function InverseBound(i: real): real {
    2.0 * Abs(i) * (i * i)
  }

  lemma NearInverse(v: real, t: real, i: real, w: real)
    requires i * v == 1.0 && w * (v + t) == 1.0 && Abs(t) <= Abs(v) / 2.0
    ensures Near(i, w, InverseSlope(i), InverseBound(i), t)
  {
    var ii, tt, bound := i * i, t * t, InverseBound(i);
    assert bound == 2.0 * Abs(i) * ii && InverseSlope(i) == -ii;
    hide *;
    InverseStep(v, t, i, w, ii, tt);
    InverseBounded(v, t, i, w);
    Square(i);
    Square(t);
    InverseRest(i, w, t, ii, tt, Abs(i), bound, InverseSlope(i));
  }

  lemma InverseRest(i: real, w: real, t: real, ii: real, tt: real, size: real, bound: real, slope: real)
    requires ii >= 0.0 && tt == t * t && tt >= 0.0 && size >= 0.0 && Abs(w) <= 2.0 * size
    requires w - i - t * -ii == w * ii * tt && bound == 2.0 * size * ii && slope == -ii
    ensures Near(i, w, slope, bound, t)
  {
    hide Abs, Near;
    CappedProduct(w, 2.0 * size, ii, tt);
    Reassociate(bound, t);
    MulNonNegative(2.0 * size, ii);
    NearOf(i, w, slope, bound, t, w * ii * tt);
  }

  lemma Reassociate(b: real, t: real)
    ensures b * (t * t) == b * t * t
  {
  }

  lemma CappedProduct(w: real, k: real, x: real, y: real)
    requires Abs(w) <= k && x >= 0.0 && y >= 0.0
    ensures Abs(w * x * y) <= k * x * y
  {
    AbsProduct(w, x);
    AbsProduct(w * x, y);
    assert Abs(x) == x && Abs(y) == y;
    SizeOf(w);
    hide Abs;
    MulMonotone(Abs(w), k, x, x);
    MulMonotone(Abs(w) * x, k * x, y, y);
  }

  lemma {:induction false} PowerOfInverse(v: real, i: real, n: nat)
    requires i * v == 1.0
    ensures NatPow(i, n) * NatPow(v, n) == 1.0
  {
    if n > 0 {
      PowerOfInverse(v, i, n - 1);
      Rearrange(i, v, NatPow(i, n - 1), NatPow(v, n - 1));
    }
  }

  lemma Rearrange(a: real, b: real, c: real, d: real)
    requires a * b == 1.0 && c * d == 1.0
    ensures (a * c) * (b * d) == 1.0
  {
    assert (a * c) * (b * d) == (a * b) * (c * d);
  }

  lemma InverseOf(v: real) returns (i: real)
    requires v != 0.0
    ensures i * v == 1.0
  {
    i := 1.0 / v;
  }

  /** A power with a negative integer exponent is the power of the reciprocal. */
  lemma NegativePowerIs(m: Math, v: real, i: real, q: real)
    requires i * v == 1.0 && IsInteger(q) && q < 0.0
    ensures -q.Floor > 0 && PowValue(m, v, q) == Some(NatPow(i, -q.Floor))
  {
    var n := -q.Floor;
    PowerOfInverse(v, i, n);
    var p, u := NatPow(i, n), NatPow(v, n);
    assert u != 0.0;
    assert 1.0 / u == p by { assert (1.0 / u) * u == 1.0; SameInverse(1.0 / u, p, u); }
  }

  lemma SameInverse(a: real, b: real, u: real)
    requires a * u == 1.0 && b * u == 1.0
    ensures a == b
  {
    assert a * (b * u) == b * (a * u);
  }

  function Power(m: Math, q: real): real -> Option<real> {
    (v: real) => PowValue(m, v, q)
  }

  /** The slope of a power with exponent `q`, by the power rule. */
  function PowerRule(m: Math, v: real, q: real): real {
    if q == 0.0 then 0.0
    else q * match PowValue(m, v, q - 1.0) case Some(p) => p case None => 0.0
  }

  /** Away from zero a negative integer power has the slope of the power rule. */
  lemma NegativePowerSlope(m: Math, v: real, q: real)
    requires v != 0.0 && IsInteger(q) && q < 0.0
    ensures PowValue(m, v, q - 1.0).Some? && HasSlope(Power(m, q), v, PowerRule(m, v, q))
  {
    var n := -q.Floor;
    var i := InverseOf(v);
    NegativeRule(m, v, i, q);
    var reach := if Abs(v) / 2.0 < 1.0 then Abs(v) / 2.0 else 1.0;
    var c := PowerBound(i, InverseSlope(i), InverseBound(i), n);
    assert 0.0 < reach <= 1.0 && reach <= Abs(v) / 2.0;
    hide PowValue, Near, PowerBound, PowerSlope, NatPow, PowerRule, NearStep, Abs, IsInteger, Power;
    forall t | -reach <= t <= reach ensures NearStep(Power(m, q), v, PowerRule(m, v, q), c, t) {
      AtMost(t, reach, Abs(v) / 2.0);
      NegativeStep(m, v, i, q, n, t);
    }
    assert NearStep(Power(m, q), v, PowerRule(m, v, q), c, 0.0);
    NearNonNegative(Power(m, q), v, PowerRule(m, v, q), c, 0.0);
    assert NearAround(Power(m, q), v, PowerRule(m, v, q), c, reach);
  }

  lemma AtMost(t: real, reach: real, bound: real)
    requires -reach <= t <= reach && reach <= bound
    ensures Abs(t) <= bound
  {
  }

  lemma NegativeRule(m: Math, v: real, i: real, q: real)
    requires i * v == 1.0 && IsInteger(q) && q < 0.0
    ensures -q.Floor > 0 && PowValue(m, v, q - 1.0).Some? &&
            PowerRule(m, v, q) == PowerSlope(i, InverseSlope(i), -q.Floor)
  {
    NegativePowerIs(m, v, i, q);
    OneBelow(q);
    NegativePowerIs(m, v, i, q - 1.0);
    NegativeSlope(i, -q.Floor, q);
    hide PowValue, PowerSlope, NatPow;
  }

  lemma NegativeStep(m: Math, v: real, i: real, q: real, n: nat, t: real)
    requires i * v == 1.0 && IsInteger(q) && q < 0.0 && n == -q.Floor && Abs(t) <= Abs(v) / 2.0 && -1.0 <= t <= 1.0
    requires PowerRule(m, v, q) == PowerSlope(i, InverseSlope(i), n)
    ensures NearStep(Power(m, q), v, PowerRule(m, v, q), PowerBound(i, InverseSlope(i), InverseBound(i), n), t)
  {
    hide *;
    InverseExists(v, i, t);
    var w := InverseOf(v + t);
    NegativePowerIs(m, v, i, q);
    NegativePowerIs(m, v + t, w, q);
    NearInverse(v, t, i, w);
    NearPower(i, w, InverseSlope(i), InverseBound(i), n, t);
    StepBy(m, q, v, t, PowerRule(m, v, q), PowerBound(i, InverseSlope(i), InverseBound(i), n));
  }

  lemma StepBy(m: Math, q: real, v: real, t: real, s: real, c: real)
    requires PowValue(m, v, q).Some? && PowValue(m, v + t, q).Some?
    requires Near(PowValue(m, v, q).value, PowValue(m, v + t, q).value, s, c, t)
    ensures NearStep(Power(m, q), v, s, c, t)
  {
    hide PowValue, Near;
  }

  lemma NearNonNegative(f: real -> Option<real>, v: real, s: real, c: real, t: real)
    requires NearStep(f, v, s, c, t)
    ensures c >= 0.0 && f(v).Some?
  {
  }

  lemma InverseExists(v: real, i: real, t: real)
    requires i * v == 1.0 && Abs(t) <= Abs(v) / 2.0
    ensures v + t != 0.0
  {
    assert v != 0.0 by { if v == 0.0 { ZeroTimes(i, v); } }
  }

  lemma ZeroTimes(i: real, v: real)
    requires v == 0.0
    ensures i * v == 0.0
  {
  }

  lemma OneBelow(q: real)
    requires IsInteger(q)
    ensures IsInteger(q - 1.0) && (q - 1.0).Floor == q.Floor - 1
  {
  }

  lemma NegativeSlope(i: real, n: nat, q: real)
    requires n > 0 && q == -(n as real)
    ensures PowerSlope(i, InverseSlope(i), n) == q * NatPow(i, n + 1)
  {
    var p, d := NatPow(i, n - 1), InverseSlope(i);
    assert NatPow(i, n) == i * p && NatPow(i, n + 1) == i * NatPow(i, n);
    SignsMove(i, p, n as real, q, NatPow(i, n), NatPow(i, n + 1), d, PowerSlope(i, d, n));
  }

  lemma SignsMove(i: real, p: real, n: real, q: real, w: real, x: real, d: real, r: real)
    requires q == -n && w == i * p && x == i * w && d == -(i * i) && r == n * (p * d)
    ensures r == q * x
  {
    assert p * d == -x;
  }

  // ----- square roots -----

  function RootBound(i: real): real {
    i / 2.0 * (i * i)
  }

  /** Two square roots are the step over their sum apart, which is within a square of the step of the tangent. */
  lemma NearRoot(s: real, w: real, t: real, i: real, half: real)
    requires s > 0.0 && w >= 0.0 && i > 0.0 && i * s == 1.0 && w * w == s * s + t && half == i / 2.0
    ensures Near(s, w, half, RootBound(i), t)
  {
    hide Near, RootBound, Abs;
    var r := w - s;
    RootGap(s, w, t, i, half, r, r * r);
    RootStep(s, w, t, i);
    RootRest(s, w, r, t, i, half, i * i, r * r);
  }

  lemma RootRest(s: real, w: real, r: real, t: real, i: real, half: real, ii: real, rr: real)
    requires i > 0.0 && half == i / 2.0 && ii == i * i && rr == r * r && Abs(r) <= i * Abs(t)
    requires w - s - t * half == -(half * rr)
    ensures Near(s, w, half, RootBound(i), t)
  {
    var bound := RootBound(i);
    assert bound == half * ii;
    RootSquares(r, t, i, rr, ii);
    Square(i);
    hide *;
    MulNonNegative(half, ii);
    RootCap(half, rr, ii, t, bound);
    NearOf(s, w, half, bound, t, -(half * rr));
  }

  lemma RootGap(s: real, w: real, t: real, i: real, half: real, r: real, rr: real)
    requires i * s == 1.0 && w * w == s * s + t && half == i / 2.0 && r == w - s && rr == r * r
    ensures w - s - t * half == -(half * rr)
  {
    assert t == 2.0 * (r * s) + rr;
    assert half * (2.0 * (r * s)) == r * (i * s);
    assert t * half == half * (2.0 * (r * s)) + half * rr;
  }

  lemma RootStep(s: real, w: real, t: real, i: real)
    requires s > 0.0 && w >= 0.0 && i > 0.0 && i * s == 1.0 && w * w == s * s + t
    ensures Abs(w - s) <= i * Abs(t)
  {
    DifferenceOfSquares(w, s, t);
    AbsProduct(w - s, w + s);
    MulMonotone(Abs(w - s), Abs(w - s), s, w + s);
    UndoScale(Abs(w - s), s, Abs(t), i);
  }

  lemma DifferenceOfSquares(w: real, s: real, t: real)
    requires w * w == s * s + t
    ensures t == (w - s) * (w + s)
  {
  }

  lemma UndoScale(r: real, s: real, t: real, i: real)
    requires r >= 0.0 && s > 0.0 && r * s <= t && i > 0.0 && i * s == 1.0
    ensures r <= i * t
  {
    var rs := r * s;
    MulNonNegative(r, s);
    assert i * rs == r * (i * s);
    MulMonotone(i, i, rs, t);
  }

  lemma RootSquares(r: real, t: real, i: real, rr: real, ii: real)
    requires Abs(r) <= i * Abs(t) && i > 0.0 && rr == r * r && ii == i * i
    ensures 0.0 <= rr <= ii * (t * t)
  {
    Square(r);
    AbsProduct(r, r);
    AbsProduct(t, t);
    Square(t);
    MulMonotone(Abs(r), i * Abs(t), Abs(r), i * Abs(t));
    assert (i * Abs(t)) * (i * Abs(t)) == ii * (Abs(t) * Abs(t));
  }

  lemma RootCap(half: real, rr: real, ii: real, t: real, bound: real)
    requires half >= 0.0 && 0.0 <= rr <= ii * (t * t) && bound == half * ii
    ensures Abs(-(half * rr)) <= bound * t * t
  {
    MulMonotone(half, half, rr, ii * (t * t));
    assert half * (ii * (t * t)) == bound * t * t;
  }
}
