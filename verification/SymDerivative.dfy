/** Differentiation, and why its result is the real derivative. */
module SymDerivative {
  import opened Wrappers
  import opened Reals
  import opened SymExpr
  import opened SymCanon
  import opened SymConfluence
  import opened SymEval
  import opened SymInvert
  import opened SymSolve
  import opened SymRoots
  import opened SymNear

  function Differentiate(e: Expr, x: string): Expr
    decreases e, 2, 0
  {
    if CountVar(e, x) == 0 then Lit(0.0) else Canon(RawDerivative(e, x))
  }

  /** The sum, product, chain and power rules, before canonicalising. */
  function RawDerivative(e: Expr, x: string): Expr
    decreases e, 1, 0
  {
    match e
    case Var(name) => if name == x then Lit(1.0) else Lit(0.0)
    case Lit(_) => Lit(0.0)
    case Neg(a) => Neg(Differentiate(a, x))
    case Add(ts) => Add(DiffFrom(ts, 0, x))
    case Mul(fs) => Add(ProductTerms(fs, 0, x))
    case Pow(b, n) =>
      if n.Lit? then Mul([Lit(n.value), Pow(b, Lit(n.value - 1.0)), Differentiate(b, x)]) else Lit(0.0)
    case Unary(Sqrt, a) => Mul([Differentiate(a, x), Pow(Mul([Lit(2.0), Unary(Sqrt, a)]), Lit(-1.0))])
    case Unary(Sin, a) => Mul([Unary(Cos, a), Differentiate(a, x)])
    case Unary(Cos, a) => Neg(Mul([Unary(Sin, a), Differentiate(a, x)]))
    case Unary(Exp, a) => Mul([Unary(Exp, a), Differentiate(a, x)])
    case Unary(Ln, a) => Mul([Differentiate(a, x), Pow(a, Lit(-1.0))])
  }

  function DiffFrom(ts: seq<Expr>, i: nat, x: string): seq<Expr>
    requires i <= |ts|
    decreases ts, 0, |ts| - i
  {
    if i == |ts| then [] else [Differentiate(ts[i], x)] + DiffFrom(ts, i + 1, x)
  }

  /** One term per factor: its derivative times all the other factors. */
  function ProductTerms(fs: seq<Expr>, i: nat, x: string): seq<Expr>
    requires i <= |fs|
    decreases fs, 0, |fs| - i
  {
    if i == |fs| then []
    else
      var d := Differentiate(fs[i], x);
      [if |fs| == 1 then d else Mul([d] + Others(fs, i))] + ProductTerms(fs, i + 1, x)
  }

  // ----- where the rules apply -----

  function Fn(m: Math, f: UnaryFn): real -> Option<real> {
    (v: real) => UnaryValue(m, f, v)
  }

  function Inverse(v: real): real {
    if v == 0.0 then 0.0 else 1.0 / v
  }

  /** The slope that the rule for a named function gives at argument `v`. */
  function FnSlope(m: Math, f: UnaryFn, v: real): real {
    match f
    case Sqrt => Inverse(2.0 * m.sqrt(v))
    case Sin => m.cos(v)
    case Cos => -m.sin(v)
    case Exp => (match m.exp(v) case Some(y) => y case None => 0.0)
    case Ln => Inverse(v)
  }

  /** At argument `v` the named function has that slope; for square roots of positive numbers this is proved. */
  ghost predicate FnRule(m: Math, f: UnaryFn, v: real) {
    if f == Sqrt then SqrtLaw(m) && v > 0.0 else HasSlope(Fn(m, f), v, FnSlope(m, f, v))
  }

  /** At base `v` the power with exponent `q` has the slope of the power rule; for integers this is proved. */
  ghost predicate PowRule(m: Math, v: real, q: real) {
    if IsInteger(q) then q >= 0.0 || v != 0.0
    else PowValue(m, v, q - 1.0).Some? && HasSlope(Power(m, q), v, PowerRule(m, v, q))
  }

  /** Parts that omit `x` evaluate; on the paths to `x` exponents are literal and every function has its textbook slope
      at its argument. */
  ghost predicate Smooth(m: Math, e: Expr, x: string, env: Env)
    decreases e
  {
    if CountVar(e, x) == 0 then Defined(m, e, env)
    else
      match e
      case Var(_) => x in env
      case Lit(_) => true
      case Neg(a) => Smooth(m, a, x, env)
      case Add(ts) => forall t :: t in ts ==> Smooth(m, t, x, env)
      case Mul(fs) => forall f :: f in fs ==> Smooth(m, f, x, env)
      case Pow(b, n) => n.Lit? && Smooth(m, b, x, env) && PowRule(m, Val(m, b, env), n.value)
      case Unary(f, a) => Smooth(m, a, x, env) && FnRule(m, f, Val(m, a, env))
  }

  /** On the paths to `x` there are only negations, sums, products and literal natural powers. */
  predicate Polynomial(e: Expr, x: string)
    decreases e
  {
    CountVar(e, x) == 0 ||
    match e
    case Var(_) => true
    case Lit(_) => true
    case Neg(a) => Polynomial(a, x)
    case Add(ts) => forall t :: t in ts ==> Polynomial(t, x)
    case Mul(fs) => forall f :: f in fs ==> Polynomial(f, x)
    case Pow(b, n) => n.Lit? && IsInteger(n.value) && n.value >= 0.0 && Polynomial(b, x)
    case Unary(_, _) => false
  }

  /** The parts that omit `x` evaluate. */
  predicate RestDefined(m: Math, e: Expr, x: string, env: Env)
    decreases e
  {
    if CountVar(e, x) == 0 then Defined(m, e, env)
    else
      match e
      case Var(_) => x in env
      case Lit(_) => true
      case Neg(a) => RestDefined(m, a, x, env)
      case Unary(_, a) => RestDefined(m, a, x, env)
      case Add(ts) => forall t :: t in ts ==> RestDefined(m, t, x, env)
      case Mul(fs) => forall f :: f in fs ==> RestDefined(m, f, x, env)
      case Pow(b, n) => RestDefined(m, b, x, env)
  }

  lemma {:induction false} PolynomialSmooth(m: Math, e: Expr, x: string, env: Env)
    requires Polynomial(e, x) && RestDefined(m, e, x, env)
    ensures Smooth(m, e, x, env)
    decreases e
  {
    hide Defined, Val;
    if CountVar(e, x) > 0 {
      match e
      case Var(_) =>
      case Neg(a) => PolynomialSmooth(m, a, x, env);
      case Add(ts) => forall t | t in ts ensures Smooth(m, t, x, env) { PolynomialSmooth(m, t, x, env); }
      case Mul(fs) => forall f | f in fs ensures Smooth(m, f, x, env) { PolynomialSmooth(m, f, x, env); }
      case Pow(b, n) => PolynomialSmooth(m, b, x, env);
    }
  }

  // ----- slopes -----

  /** The value of the derivative expression. */
  function Slope(m: Math, e: Expr, x: string, env: Env): real {
    Val(m, Differentiate(e, x), env)
  }

  /** Slope of the product of the factors from position `i` on, by the two-factor rule. */
  function ProductSlope(m: Math, fs: seq<Expr>, i: nat, x: string, env: Env): real
    requires i <= |fs|
    decreases |fs| - i
  {
    if i == |fs| then 0.0
    else
      Slope(m, fs[i], x, env) * Fold(m, Prod, fs[i + 1..], env) +
        Val(m, fs[i], env) * ProductSlope(m, fs, i + 1, x, env)
  }

  /** The general product rule: the terms the code writes down sum to the slope of the product. */
  lemma {:induction false} ProductTermsValue(m: Math, fs: seq<Expr>, i: nat, x: string, env: Env)
    requires i <= |fs| && AllDefined(m, fs, env) && forall f :: f in fs ==> Defined(m, Differentiate(f, x), env)
    ensures AllDefined(m, ProductTerms(fs, i, x), env)
    ensures Fold(m, Sum, ProductTerms(fs, i, x), env) == Fold(m, Prod, fs[..i], env) * ProductSlope(m, fs, i, x, env)
    decreases |fs| - i
  {
    hide Defined, Val, Differentiate, Fold;
    if i == |fs| {
      FoldNone(m, Sum, env);
    } else {
      ProductTermsValue(m, fs, i + 1, x, env);
      assert fs[i] in fs;
      var d := Differentiate(fs[i], x);
      var term := if |fs| == 1 then d else Mul([d] + Others(fs, i));
      OneTerm(m, fs, i, d, env);
      SumStep(m, term, ProductTerms(fs, i + 1, x), env);
      OneMoreFactor(m, fs, i, env);
      Regroup(Fold(m, Prod, fs[..i], env), Val(m, d, env), Val(m, fs[i], env), Fold(m, Prod, fs[i + 1..], env),
              ProductSlope(m, fs, i + 1, x, env));
    }
  }

  lemma OneMoreFactor(m: Math, fs: seq<Expr>, i: nat, env: Env)
    requires i < |fs|
    ensures Fold(m, Prod, fs[..i + 1], env) == Fold(m, Prod, fs[..i], env) * Val(m, fs[i], env)
  {
    hide Fold, Val;
    assert fs[..i + 1] == fs[..i] + [fs[i]];
    FoldAppend(m, Prod, fs[..i], [fs[i]], env);
    FoldOne(m, Prod, fs[i], env);
  }

  lemma Regroup(p: real, d: real, f: real, q: real, s: real)
    ensures d * (p * q) + (p * f) * s == p * (d * q + f * s)
  {
    assert d * (p * q) == p * (d * q);
    assert (p * f) * s == p * (f * s);
  }

  lemma SumStep(m: Math, e: Expr, es: seq<Expr>, env: Env)
    ensures Fold(m, Sum, [e] + es, env) == Val(m, e, env) + Fold(m, Sum, es, env)
    ensures AllDefined(m, [e] + es, env) <==> Defined(m, e, env) && AllDefined(m, es, env)
  {
    hide Defined, Val;
    assert ([e] + es)[1..] == es;
    assert forall t :: t in [e] + es <==> t == e || t in es;
  }

  /** The term of one factor: the derivative times the product of the others. */
  lemma OneTerm(m: Math, fs: seq<Expr>, i: nat, d: Expr, env: Env)
    requires i < |fs| && AllDefined(m, fs, env) && Defined(m, d, env)
    ensures var term := if |fs| == 1 then d else Mul([d] + Others(fs, i));
            && Defined(m, term, env)
            && Val(m, term, env) == Val(m, d, env) * (Fold(m, Prod, fs[..i], env) * Fold(m, Prod, fs[i + 1..], env))
  {
    hide Defined, Val, Fold;
    FoldAppend(m, Prod, fs[..i], fs[i + 1..], env);
    if |fs| == 1 {
      FoldNone(m, Prod, env);
      assert fs[..i] == [] && fs[i + 1..] == [];
    } else {
      var es := [d] + Others(fs, i);
      forall e | e in es ensures Defined(m, e, env) { assert e == d || e in fs; }
      NodeValue(m, Prod, Mul(es), env);
      FoldAppend(m, Prod, [d], Others(fs, i), env);
      FoldOne(m, Prod, d, env);
    }
  }

  // ----- tracking a value -----

  /** At step `h` the expression evaluates, to its value at `env` plus `h * d`, up to `k * h * h`. */
  predicate TracksAt(m: Math, e: Expr, x: string, env: Env, d: real, k: real, h: real)
    requires x in env
  {
    Defined(m, e, env[x := env[x] + h]) && Near(Val(m, e, env), Val(m, e, env[x := env[x] + h]), d, k, h)
  }

  /** It does so for all steps of at most `r`. */
  ghost predicate Tracks(m: Math, e: Expr, x: string, env: Env, d: real, k: real, r: real)
    requires x in env
  {
    0.0 < r <= 1.0 && k >= 0.0 && forall h :: -r <= h <= r ==> TracksAt(m, e, x, env, d, k, h)
  }

  predicate FoldAt(m: Math, op: Op, es: seq<Expr>, x: string, env: Env, d: real, k: real, h: real)
    requires x in env
  {
    AllDefined(m, es, env[x := env[x] + h]) &&
      Near(Fold(m, op, es, env), Fold(m, op, es, env[x := env[x] + h]), d, k, h)
  }

  /** The same for the sum or product of a list. */
  ghost predicate FoldTracks(m: Math, op: Op, es: seq<Expr>, x: string, env: Env, d: real, k: real, r: real)
    requires x in env
  {
    0.0 < r <= 1.0 && k >= 0.0 && forall h :: -r <= h <= r ==> FoldAt(m, op, es, x, env, d, k, h)
  }

  lemma NoStep(env: Env, x: string)
    requires x in env
    ensures env[x := env[x] + 0.0] == env
  {
  }

  lemma TracksHere(m: Math, e: Expr, x: string, env: Env, d: real, k: real, r: real)
    requires x in env && Tracks(m, e, x, env, d, k, r)
    ensures Defined(m, e, env)
  {
    hide Defined, Val, Near;
    NoStep(env, x);
    assert TracksAt(m, e, x, env, d, k, 0.0);
  }

  function Least(a: real, b: real): real {
    if a < b then a else b
  }

  // ----- leaves -----

  lemma ConstantTracks(m: Math, e: Expr, x: string, env: Env)
    requires CountVar(e, x) == 0 && Defined(m, e, env) && x in env
    ensures Defined(m, Differentiate(e, x), env) && Tracks(m, e, x, env, Slope(m, e, x, env), 0.0, 1.0)
  {
    LitValue(m, Lit(0.0), env);
    forall h | -1.0 <= h <= 1.0 ensures TracksAt(m, e, x, env, Slope(m, e, x, env), 0.0, h) {
      EvalIgnores(m, e, x, env, env[x] + h);
      NearConstant(Val(m, e, env), h);
    }
  }

  /** Canonicalising the raw derivative keeps its value. */
  lemma SlopeOfRaw(m: Math, e: Expr, x: string, env: Env)
    requires CountVar(e, x) > 0 && Defined(m, RawDerivative(e, x), env)
    ensures Defined(m, Differentiate(e, x), env) && Slope(m, e, x, env) == Val(m, RawDerivative(e, x), env)
  {
    CanonMeans(m, RawDerivative(e, x), env);
  }

  lemma VarTracks(m: Math, x: string, env: Env)
    requires x in env
    ensures Defined(m, Differentiate(Var(x), x), env)
    ensures Tracks(m, Var(x), x, env, Slope(m, Var(x), x, env), 0.0, 1.0)
  {
    LitValue(m, Lit(1.0), env);
    SlopeOfRaw(m, Var(x), x, env);
    hide Slope, Differentiate;
    forall h | -1.0 <= h <= 1.0 ensures TracksAt(m, Var(x), x, env, Slope(m, Var(x), x, env), 0.0, h) {}
  }

  // ----- sums and products -----

  lemma NegTracks(m: Math, a: Expr, x: string, env: Env, k: real, r: real)
    requires x in env && CountVar(a, x) > 0 && Defined(m, Differentiate(a, x), env)
    requires Tracks(m, a, x, env, Slope(m, a, x, env), k, r)
    ensures Defined(m, Differentiate(Neg(a), x), env) && Tracks(m, Neg(a), x, env, Slope(m, Neg(a), x, env), k, r)
  {
    hide Defined, Val, Near, Differentiate, Canon;
    TracksHere(m, a, x, env, Slope(m, a, x, env), k, r);
    NegDefined(m, a, env);
    NegDefined(m, Differentiate(a, x), env);
    SlopeOfRaw(m, Neg(a), x, env);
    forall h | -r <= h <= r ensures TracksAt(m, Neg(a), x, env, Slope(m, Neg(a), x, env), k, h) {
      assert TracksAt(m, a, x, env, Slope(m, a, x, env), k, h);
      NegDefined(m, a, env[x := env[x] + h]);
      NearNeg(Val(m, a, env), Val(m, a, env[x := env[x] + h]), Slope(m, a, x, env), k, h);
    }
  }

  lemma NoTerms(m: Math, op: Op, x: string, env: Env)
    requires x in env
    ensures FoldTracks(m, op, [], x, env, 0.0, 0.0, 1.0)
  {
    forall h | -1.0 <= h <= 1.0 ensures FoldAt(m, op, [], x, env, 0.0, 0.0, h) { NearConstant(Unit(op), h); }
  }

  /** One more term in front of a sum. */
  lemma SumGrows(m: Math, e: Expr, es: seq<Expr>, x: string, env: Env, d: real, k: real, r: real, d': real, k': real,
                 r': real)
    requires x in env && Tracks(m, e, x, env, d, k, r) && FoldTracks(m, Sum, es, x, env, d', k', r')
    ensures FoldTracks(m, Sum, [e] + es, x, env, d + d', k + k', Least(r, r'))
  {
    hide Defined, Val, Near, Fold;
    SumStep(m, e, es, env);
    var slope, bound := d + d', k + k';
    forall h | -Least(r, r') <= h <= Least(r, r') ensures FoldAt(m, Sum, [e] + es, x, env, slope, bound, h) {
      var there := env[x := env[x] + h];
      assert TracksAt(m, e, x, env, d, k, h) && FoldAt(m, Sum, es, x, env, d', k', h);
      SumStep(m, e, es, there);
      NearSum(Val(m, e, env), Val(m, e, there), d, k, Fold(m, Sum, es, env), Fold(m, Sum, es, there), d', k', h);
    }
  }

  /** One more factor in front of a product. */
  lemma ProductGrows(m: Math, e: Expr, es: seq<Expr>, x: string, env: Env, d: real, k: real, r: real, d': real,
                     k': real, r': real, s: real)
    requires x in env && Tracks(m, e, x, env, d, k, r) && FoldTracks(m, Prod, es, x, env, d', k', r')
    requires s == d * Fold(m, Prod, es, env) + Val(m, e, env) * d'
    ensures FoldTracks(m, Prod, [e] + es, x, env, s, ProductBound(Val(m, e, env), d, k, Fold(m, Prod, es, env), d', k'),
                       Least(r, r'))
  {
    hide Defined, Val, Near, Fold, ProductBound;
    var bound := ProductBound(Val(m, e, env), d, k, Fold(m, Prod, es, env), d', k');
    ProductBoundNonNegative(Val(m, e, env), d, k, Fold(m, Prod, es, env), d', k');
    ProductStep(m, e, es, env);
    forall h | -Least(r, r') <= h <= Least(r, r') ensures FoldAt(m, Prod, [e] + es, x, env, s, bound, h) {
      var there := env[x := env[x] + h];
      assert TracksAt(m, e, x, env, d, k, h) && FoldAt(m, Prod, es, x, env, d', k', h);
      AllWith(m, e, es, there);
      ProductStep(m, e, es, there);
      NearProductAs(Val(m, e, env), Val(m, e, there), d, k, Fold(m, Prod, es, env), Fold(m, Prod, es, there), d', k', h,
                    Fold(m, Prod, [e] + es, env), Fold(m, Prod, [e] + es, there), s, bound);
    }
  }

  lemma AllWith(m: Math, e: Expr, es: seq<Expr>, env: Env)
    ensures AllDefined(m, [e] + es, env) <==> Defined(m, e, env) && AllDefined(m, es, env)
  {
    hide Defined;
    assert forall t :: t in [e] + es <==> t == e || t in es;
  }

  lemma ProductStep(m: Math, e: Expr, es: seq<Expr>, env: Env)
    ensures Fold(m, Prod, [e] + es, env) == Val(m, e, env) * Fold(m, Prod, es, env)
  {
    assert ([e] + es)[1..] == es;
  }

  /** A list that tracks makes a node that tracks. */
  lemma NodeTracks(m: Math, op: Op, e: Expr, x: string, env: Env, d: real, k: real, r: real)
    requires x in env && IsNode(op, e) && FoldTracks(m, op, Operands(op, e), x, env, d, k, r)
    ensures Defined(m, e, env) && Tracks(m, e, x, env, d, k, r)
  {
    hide Defined, Val, Near, Fold, Operands;
    var es := Operands(op, e);
    NoStep(env, x);
    assert FoldAt(m, op, es, x, env, d, k, 0.0);
    NodeValue(m, op, e, env);
    forall h | -r <= h <= r ensures TracksAt(m, e, x, env, d, k, h) {
      assert FoldAt(m, op, es, x, env, d, k, h);
      NodeValue(m, op, e, env[x := env[x] + h]);
    }
  }

  /** The sum rule. */
  lemma {:induction false} SumTracks(m: Math, ts: seq<Expr>, i: nat, x: string, env: Env) returns (k: real, r: real)
    requires (forall t :: t in ts ==> Smooth(m, t, x, env)) && x in env && i <= |ts|
    ensures AllDefined(m, DiffFrom(ts, i, x), env)
    ensures FoldTracks(m, Sum, ts[i..], x, env, Fold(m, Sum, DiffFrom(ts, i, x), env), k, r)
    ensures (forall t :: t in ts ==> Polynomial(t, x)) ==> r == 1.0
    decreases ts, 0, |ts| - i
  {
    hide Defined, Val, Differentiate, Polynomial, Smooth, Fold, Tracks, FoldTracks;
    if i == |ts| {
      k, r := 0.0, 1.0;
      NoTerms(m, Sum, x, env);
      FoldNone(m, Sum, env);
    } else {
      assert ts[i] in ts;
      var k1, r1 := ExprTracks(m, ts[i], x, env);
      var k2, r2 := SumTracks(m, ts, i + 1, x, env);
      k, r := k1 + k2, Least(r1, r2);
      assert ts[i..] == [ts[i]] + ts[i + 1..];
      SumStep(m, Differentiate(ts[i], x), DiffFrom(ts, i + 1, x), env);
      SumGrows(m, ts[i], ts[i + 1..], x, env, Slope(m, ts[i], x, env), k1, r1,
               Fold(m, Sum, DiffFrom(ts, i + 1, x), env), k2, r2);
    }
  }

  /** The product rule, factor by factor. */
  lemma {:induction false} ProductTracks(m: Math, fs: seq<Expr>, i: nat, x: string, env: Env) returns (k: real, r: real)
    requires (forall f :: f in fs ==> Smooth(m, f, x, env)) && x in env && i <= |fs|
    ensures forall j :: i <= j < |fs| ==> Defined(m, Differentiate(fs[j], x), env)
    ensures FoldTracks(m, Prod, fs[i..], x, env, ProductSlope(m, fs, i, x, env), k, r)
    ensures (forall f :: f in fs ==> Polynomial(f, x)) ==> r == 1.0
    decreases fs, 0, |fs| - i
  {
    hide Defined, Val, Differentiate, Polynomial, Smooth, Fold, Tracks, FoldTracks, Slope;
    if i == |fs| {
      k, r := 0.0, 1.0;
      NoTerms(m, Prod, x, env);
    } else {
      assert fs[i] in fs;
      var k1, r1 := ExprTracks(m, fs[i], x, env);
      var k2, r2 := ProductTracks(m, fs, i + 1, x, env);
      k := ProductBound(Val(m, fs[i], env), Slope(m, fs[i], x, env), k1, Fold(m, Prod, fs[i + 1..], env),
                        ProductSlope(m, fs, i + 1, x, env), k2);
      r := Least(r1, r2);
      assert fs[i..] == [fs[i]] + fs[i + 1..];
      ProductGrows(m, fs[i], fs[i + 1..], x, env, Slope(m, fs[i], x, env), k1, r1, ProductSlope(m, fs, i + 1, x, env),
                   k2,
                   r2, ProductSlope(m, fs, i, x, env));
    }
  }

  lemma AddTracks(m: Math, e: Expr, x: string, env: Env, k: real, r: real)
    requires e.Add? && CountVar(e, x) > 0 && x in env && AllDefined(m, DiffFrom(e.terms, 0, x), env)
    requires FoldTracks(m, Sum, e.terms[0..], x, env, Fold(m, Sum, DiffFrom(e.terms, 0, x), env), k, r)
    ensures Defined(m, Differentiate(e, x), env) && Tracks(m, e, x, env, Slope(m, e, x, env), k, r)
  {
    hide Defined, Val, Differentiate, Canon, DiffFrom, Fold, FoldTracks, Tracks;
    assert e.terms[0..] == e.terms;
    NodeTracks(m, Sum, e, x, env, Fold(m, Sum, DiffFrom(e.terms, 0, x), env), k, r);
    NodeValue(m, Sum, Add(DiffFrom(e.terms, 0, x)), env);
    SlopeOfRaw(m, e, x, env);
  }

  lemma MulTracks(m: Math, e: Expr, x: string, env: Env, k: real, r: real)
    requires e.Mul? && CountVar(e, x) > 0 && x in env && FoldTracks(m, Prod, e.factors[0..], x, env,
                                                                   ProductSlope(m, e.factors, 0, x, env), k, r)
    requires forall j :: 0 <= j < |e.factors| ==> Defined(m, Differentiate(e.factors[j], x), env)
    ensures Defined(m, Differentiate(e, x), env) && Tracks(m, e, x, env, Slope(m, e, x, env), k, r)
  {
    hide Defined, Val, Differentiate, Canon, ProductTerms, ProductSlope, Fold, FoldTracks, Tracks;
    var fs := e.factors;
    assert fs[0..] == fs && fs[..0] == [];
    NodeTracks(m, Prod, e, x, env, ProductSlope(m, fs, 0, x, env), k, r);
    NodeValue(m, Prod, e, env);
    ProductTermsValue(m, fs, 0, x, env);
    FoldNone(m, Prod, env);
    NodeValue(m, Sum, Add(ProductTerms(fs, 0, x)), env);
    SlopeOfRaw(m, e, x, env);
  }

  // ----- the chain rule -----

  /** Wherever `x` may move, expression `e` applies `f` to the value of `a`. */
  ghost predicate AppliesTo(m: Math, e: Expr, f: real -> Option<real>, a: Expr, x: string, env: Env) {
    forall v :: AppliesAt(m, e, f, a, x, env, v)
  }

  predicate AppliesAt(m: Math, e: Expr, f: real -> Option<real>, a: Expr, x: string, env: Env, v: real) {
    var there := env[x := v];
    && (Defined(m, e, there) <==> Defined(m, a, there) && f(Val(m, a, there)).Some?)
    && (Defined(m, e, there) ==> Some(Val(m, e, there)) == f(Val(m, a, there)))
  }

  /** How small a step of `x` must be for the argument to stay within `reach`. */
  function ChainReach(d: real, k: real, reach: real): (r: real)
    requires k >= 0.0 && reach > 0.0
    ensures r > 0.0
  {
    PositiveDenominator(d, k);
    QuotientPositive(reach, Abs(d) + k + 1.0);
    reach / (Abs(d) + k + 1.0)
  }

  lemma PositiveDenominator(d: real, k: real)
    requires k >= 0.0
    ensures Abs(d) + k + 1.0 > 0.0
  {
  }

  lemma QuotientPositive(a: real, b: real)
    requires a > 0.0 && b > 0.0
    ensures a / b > 0.0
  {
  }

  lemma ArgumentStays(g0: real, g1: real, d: real, k: real, reach: real, h: real)
    requires Near(g0, g1, d, k, h) && -1.0 <= h <= 1.0 && reach > 0.0 && k >= 0.0
    requires -ChainReach(d, k, reach) <= h <= ChainReach(d, k, reach)
    ensures -reach <= g1 - g0 <= reach
  {
    ChangeBounded(g0, g1, d, k, h);
    hide Near;
    PositiveDenominator(d, k);
    AbsNonNegative(d);
    StaysWithin(Abs(h), Abs(d) + k, reach, ChainReach(d, k, reach));
  }

  lemma StaysWithin(h: real, x: real, reach: real, r: real)
    requires x >= 0.0 && reach > 0.0 && r == reach / (x + 1.0) && 0.0 <= h <= r
    ensures x * h <= reach
  {
    assert r * (x + 1.0) == reach;
    MulMonotone(h, r, x, x + 1.0);
    assert x * h == h * x;
  }

  /** The chain rule: slopes multiply. */
  lemma ChainTracks(m: Math, e: Expr, f: real -> Option<real>, a: Expr, x: string, env: Env, d: real, k: real, r: real,
                    s: real, slope: real) returns (k': real, r': real)
    requires x in env && AppliesTo(m, e, f, a, x, env) && Tracks(m, a, x, env, d, k, r)
    requires HasSlope(f, Val(m, a, env), s) && slope == s * d
    ensures Tracks(m, e, x, env, slope, k', r')
  {
    var v := Val(m, a, env);
    var c, reach :| NearAround(f, v, s, c, reach);
    ChainBoundNonNegative(d, k, s, c);
    k', r' := ChainBound(d, k, s, c), Least(r, ChainReach(d, k, reach));
    hide Defined, Val, Near, ChainBound, ChainReach;
    TracksHere(m, a, x, env, d, k, r);
    NoStep(env, x);
    assert AppliesAt(m, e, f, a, x, env, env[x] + 0.0);
    forall h | -r' <= h <= r' ensures TracksAt(m, e, x, env, slope, k', h) {
      var there := env[x := env[x] + h];
      assert TracksAt(m, a, x, env, d, k, h) && AppliesAt(m, e, f, a, x, env, env[x] + h);
      var t := Val(m, a, there) - v;
      ArgumentStays(v, Val(m, a, there), d, k, reach, h);
      assert NearStep(f, v, s, c, t) && v + t == Val(m, a, there);
      NearChain(v, Val(m, a, there), d, k, f(v).value, f(v + t).value, s, c, h);
    }
  }

  lemma PowApplies(m: Math, b: Expr, n: real, x: string, env: Env)
    ensures AppliesTo(m, Pow(b, Lit(n)), Power(m, n), b, x, env)
  {
    hide Defined, Val, PowValue;
    forall v ensures AppliesAt(m, Pow(b, Lit(n)), Power(m, n), b, x, env, v) {
      PowDefined(m, b, n, env[x := v]);
    }
  }

  lemma FnApplies(m: Math, f: UnaryFn, a: Expr, x: string, env: Env)
    ensures AppliesTo(m, Unary(f, a), Fn(m, f), a, x, env)
  {
    hide Defined, Val, UnaryValue;
    forall v ensures AppliesAt(m, Unary(f, a), Fn(m, f), a, x, env, v) { UnaryDefined(m, f, a, env[x := v]); }
  }

  // ----- powers -----

  /** Natural powers, for all steps for which the base is tracked. */
  lemma NaturalTracks(m: Math, b: Expr, n: real, x: string, env: Env, k: real, r: real)
    requires x in env && IsInteger(n) && n >= 0.0 && CountVar(Pow(b, Lit(n)), x) > 0
    requires Defined(m, Differentiate(b, x), env) && Tracks(m, b, x, env, Slope(m, b, x, env), k, r)
    ensures Defined(m, Differentiate(Pow(b, Lit(n)), x), env)
    ensures Tracks(m, Pow(b, Lit(n)), x, env, Slope(m, Pow(b, Lit(n)), x, env),
                   PowerBound(Val(m, b, env), Slope(m, b, x, env), k, n.Floor), r)
  {
    hide Defined, Val, Near, Differentiate, Canon, PowerBound, PowerSlope, Slope;
    var e, d := Pow(b, Lit(n)), Slope(m, b, x, env);
    TracksHere(m, b, x, env, d, k, r);
    PowDefined(m, b, n, env);
    PowSlope(m, b, n, x, env);
    var c := PowerBound(Val(m, b, env), d, k, n.Floor);
    forall h | -r <= h <= r ensures TracksAt(m, e, x, env, Slope(m, e, x, env), c, h) {
      assert TracksAt(m, b, x, env, d, k, h);
      PowDefined(m, b, n, env[x := env[x] + h]);
      NearPower(Val(m, b, env), Val(m, b, env[x := env[x] + h]), d, k, n.Floor, h);
    }
    assert TracksAt(m, e, x, env, Slope(m, e, x, env), c, 0.0);
    BoundOf(m, e, x, env, Slope(m, e, x, env), c, 0.0);
  }

  lemma BoundOf(m: Math, e: Expr, x: string, env: Env, d: real, k: real, h: real)
    requires x in env && TracksAt(m, e, x, env, d, k, h)
    ensures k >= 0.0
  {
  }

  /** All other literal powers. */
  lemma OtherPowerTracks(m: Math, b: Expr, n: real, x: string, env: Env, k: real, r: real) returns (k': real, r': real)
    requires x in env && !(IsInteger(n) && n >= 0.0) && CountVar(Pow(b, Lit(n)), x) > 0 && PowRule(m, Val(m, b, env), n)
    requires Defined(m, Differentiate(b, x), env) && Tracks(m, b, x, env, Slope(m, b, x, env), k, r)
    ensures Defined(m, Differentiate(Pow(b, Lit(n)), x), env)
    ensures Tracks(m, Pow(b, Lit(n)), x, env, Slope(m, Pow(b, Lit(n)), x, env), k', r')
  {
    hide *;
    var v, d := Val(m, b, env), Slope(m, b, x, env);
    OtherRule(m, v, n);
    TracksHere(m, b, x, env, d, k, r);
    PowApplies(m, b, n, x, env);
    OtherSlope(m, b, n, x, env);
    k', r' := ChainTracks(m, Pow(b, Lit(n)), Power(m, n), b, x, env, d, k, r, PowerRule(m, v, n),
                          Slope(m, Pow(b, Lit(n)), x, env));
  }

  lemma OtherRule(m: Math, v: real, n: real)
    requires PowRule(m, v, n) && !(IsInteger(n) && n >= 0.0)
    ensures HasSlope(Power(m, n), v, PowerRule(m, v, n)) && PowValue(m, v, n - 1.0).Some?
  {
    hide HasSlope;
    if IsInteger(n) { NegativePowerSlope(m, v, n); }
  }

  lemma OtherSlope(m: Math, b: Expr, n: real, x: string, env: Env)
    requires CountVar(Pow(b, Lit(n)), x) > 0 && !(IsInteger(n) && n >= 0.0)
    requires Defined(m, b, env) && Defined(m, Differentiate(b, x), env) && PowValue(m, Val(m, b, env), n - 1.0).Some?
    ensures Defined(m, Differentiate(Pow(b, Lit(n)), x), env)
    ensures Slope(m, Pow(b, Lit(n)), x, env) == PowerRule(m, Val(m, b, env), n) * Slope(m, b, x, env)
  {
    hide *;
    var v := Val(m, b, env);
    RuleValue(m, v, n);
    PowDefined(m, b, n - 1.0, env);
    RawPow(b, n, x);
    RawPowValue(m, b, n, Differentiate(b, x), env);
    SlopeOfRaw(m, Pow(b, Lit(n)), x, env);
    SlopeIs(m, b, x, env);
    PowerRuleValue(n, Val(m, Pow(b, Lit(n - 1.0)), env), Slope(m, b, x, env), PowerRule(m, v, n),
                   Slope(m, Pow(b, Lit(n)), x, env));
  }

  lemma SlopeIs(m: Math, e: Expr, x: string, env: Env)
    ensures Slope(m, e, x, env) == Val(m, Differentiate(e, x), env)
  {
  }

  lemma RuleValue(m: Math, v: real, n: real)
    requires PowValue(m, v, n - 1.0).Some? && !(IsInteger(n) && n >= 0.0)
    ensures PowerRule(m, v, n) == n * PowValue(m, v, n - 1.0).value
  {
    var zero := 0.0;
    assert IsInteger(zero);
    hide PowValue;
  }

  lemma PowerRuleValue(n: real, p: real, d: real, rule: real, slope: real)
    requires rule == n * p && slope == n * (p * d)
    ensures slope == rule * d
  {
  }

  lemma PowSlope(m: Math, b: Expr, n: real, x: string, env: Env)
    requires IsInteger(n) && n >= 0.0 && CountVar(Pow(b, Lit(n)), x) > 0
    requires Defined(m, b, env) && Defined(m, Differentiate(b, x), env)
    ensures Defined(m, Differentiate(Pow(b, Lit(n)), x), env)
    ensures Slope(m, Pow(b, Lit(n)), x, env) == PowerSlope(Val(m, b, env), Slope(m, b, x, env), n.Floor)
  {
    hide Defined, Val, Differentiate;
    if n == 0.0 {
      ZeroPower(Pow(b, Lit(n)), b, x);
      LitValue(m, Lit(0.0), env);
    } else {
      PositivePower(m, b, n, x, env);
    }
  }

  lemma PositivePower(m: Math, b: Expr, n: real, x: string, env: Env)
    requires IsInteger(n) && n > 0.0 && CountVar(Pow(b, Lit(n)), x) > 0
    requires Defined(m, b, env) && Defined(m, Differentiate(b, x), env)
    ensures Defined(m, Differentiate(Pow(b, Lit(n)), x), env)
    ensures Slope(m, Pow(b, Lit(n)), x, env) == PowerSlope(Val(m, b, env), Slope(m, b, x, env), n.Floor)
  {
    hide Defined, Val, Differentiate, RawDerivative, CountVar, PowerSlope, NatPow, IsInteger;
    RawPow(b, n, x);
    LowerValue(m, b, n, env);
    RawPowValue(m, b, n, Differentiate(b, x), env);
    SlopeOfRaw(m, Pow(b, Lit(n)), x, env);
    PowerSlopeIs(Val(m, b, env), Slope(m, b, x, env), n);
  }

  lemma RawPowValue(m: Math, b: Expr, n: real, d: Expr, env: Env)
    requires Defined(m, Pow(b, Lit(n - 1.0)), env) && Defined(m, d, env)
    ensures var raw := Mul([Lit(n), Pow(b, Lit(n - 1.0)), d]);
            Defined(m, raw, env) && Val(m, raw, env) == n * (Val(m, Pow(b, Lit(n - 1.0)), env) * Val(m, d, env))
  {
    LitValue(m, Lit(n), env);
    hide Defined, Val;
    TripleValue(m, Lit(n), Pow(b, Lit(n - 1.0)), d, env);
  }

  lemma LowerValue(m: Math, b: Expr, n: real, env: Env)
    requires IsInteger(n) && n > 0.0 && Defined(m, b, env)
    ensures var e := Pow(b, Lit(n - 1.0));
            n.Floor > 0 && Defined(m, e, env) && Val(m, e, env) == NatPow(Val(m, b, env), n.Floor - 1)
  {
    hide Defined, Val;
    PowDefined(m, b, n - 1.0, env);
    LowerPower(m, Val(m, b, env), n);
    OneLess(n);
  }

  lemma PowerSlopeIs(v: real, d: real, n: real)
    requires IsInteger(n) && n > 0.0
    ensures n.Floor > 0 && PowerSlope(v, d, n.Floor) == n * (NatPow(v, n.Floor - 1) * d)
  {
  }

  lemma OneLess(n: real)
    requires IsInteger(n) && n > 0.0
    ensures IsInteger(n - 1.0) && (n - 1.0).Floor == n.Floor - 1 && n.Floor > 0
  {
  }

  lemma LowerPower(m: Math, v: real, n: real)
    requires IsInteger(n) && n > 0.0
    ensures PowValue(m, v, n - 1.0) == Some(NatPow(v, n.Floor - 1))
  {
    OneLess(n);
  }

  lemma RawPow(b: Expr, n: real, x: string)
    ensures RawDerivative(Pow(b, Lit(n)), x) == Mul([Lit(n), Pow(b, Lit(n - 1.0)), Differentiate(b, x)])
  {
    hide Differentiate, CountVar;
  }

  /** A power with exponent zero differentiates to a product that collapses. */
  lemma ZeroPower(e: Expr, b: Expr, x: string)
    requires e == Pow(b, Lit(0.0)) && CountVar(e, x) > 0
    ensures Differentiate(e, x) == Lit(0.0)
  {
    var fs := [Lit(0.0), Pow(b, Lit(-1.0)), Differentiate(b, x)];
    assert RawDerivative(e, x) == Mul(fs);
    ZeroFactor(fs);
  }

  lemma ZeroFactor(fs: seq<Expr>)
    requires fs != [] && fs[0] == Lit(0.0)
    ensures Canon(Mul(fs)) == Lit(0.0)
  {
    var cs := CanonAll(fs);
    assert Splice(Prod, cs)[0] == Lit(0.0);
  }

  lemma TripleValue(m: Math, a: Expr, b: Expr, c: Expr, env: Env)
    requires Defined(m, a, env) && Defined(m, b, env) && Defined(m, c, env)
    ensures Defined(m, Mul([a, b, c]), env)
    ensures Val(m, Mul([a, b, c]), env) == Val(m, a, env) * (Val(m, b, env) * Val(m, c, env))
  {
    hide Defined, Val, Fold;
    NodeValue(m, Prod, Mul([a, b, c]), env);
    assert [a, b, c] == [a] + [b, c] && [b, c] == [b] + [c];
    ProductStep(m, a, [b, c], env);
    ProductStep(m, b, [c], env);
    FoldOne(m, Prod, c, env);
  }

  // ----- named functions -----

  lemma FnTracks(m: Math, f: UnaryFn, a: Expr, x: string, env: Env, k: real, r: real) returns (k': real, r': real)
    requires x in env && CountVar(a, x) > 0 && FnRule(m, f, Val(m, a, env))
    requires Defined(m, Differentiate(a, x), env) && Tracks(m, a, x, env, Slope(m, a, x, env), k, r)
    ensures Defined(m, Differentiate(Unary(f, a), x), env)
    ensures Tracks(m, Unary(f, a), x, env, Slope(m, Unary(f, a), x, env), k', r')
  {
    hide *;
    var v, d := Val(m, a, env), Slope(m, a, x, env);
    TracksHere(m, a, x, env, d, k, r);
    FnRuleMeans(m, f, v);
    FnApplies(m, f, a, x, env);
    RawFnValue(m, f, a, x, env);
    FnCounts(f, a, x);
    SlopeOfRaw(m, Unary(f, a), x, env);
    SlopeIs(m, a, x, env);
    k', r' := ChainTracks(m, Unary(f, a), Fn(m, f), a, x, env, d, k, r, FnSlope(m, f, v),
                          Slope(m, Unary(f, a), x, env));
  }

  lemma FnCounts(f: UnaryFn, a: Expr, x: string)
    ensures CountVar(Unary(f, a), x) == CountVar(a, x)
  {
  }

  lemma FnRuleMeans(m: Math, f: UnaryFn, v: real)
    requires FnRule(m, f, v)
    ensures HasSlope(Fn(m, f), v, FnSlope(m, f, v)) && UnaryValue(m, f, v).Some?
    ensures f == Sqrt ==> m.sqrt(v) != 0.0
  {
    if f == Sqrt { SqrtSlope(m, v); }
    hide FnSlope;
    SlopeExists(Fn(m, f), v, FnSlope(m, f, v));
  }

  /** At a positive argument the square root has the slope one over twice its value. */
  lemma SqrtSlope(m: Math, v: real)
    requires SqrtLaw(m) && v > 0.0
    ensures m.sqrt(v) > 0.0 && HasSlope(Fn(m, Sqrt), v, FnSlope(m, Sqrt, v))
  {
    var s, reach := m.sqrt(v), Least(v, 1.0);
    assert s >= 0.0 && s * s == v;
    assert s != 0.0;
    var i := InverseOf(s);
    var half, c := i / 2.0, RootBound(i);
    assert FnSlope(m, Sqrt, v) == half by { HalfInverse(s, i); }
    InversePositive(s, i);
    forall t | -reach <= t <= reach ensures NearStep(Fn(m, Sqrt), v, half, c, t) {
      var w := m.sqrt(v + t);
      assert w >= 0.0 && w * w == v + t;
      NearRoot(s, w, t, i, half);
    }
    assert NearAround(Fn(m, Sqrt), v, half, c, reach);
  }

  lemma HalfInverse(s: real, i: real)
    requires s != 0.0 && i * s == 1.0
    ensures Inverse(2.0 * s) == i / 2.0
  {
    var q := 1.0 / (2.0 * s);
    assert q * (2.0 * s) == 1.0;
    assert (i / 2.0) * (2.0 * s) == 1.0;
    SameInverse(q, i / 2.0, 2.0 * s);
  }

  lemma InversePositive(s: real, i: real)
    requires s > 0.0 && i * s == 1.0
    ensures i > 0.0
  {
    if i <= 0.0 { MulNonNegative(-i, s); }
  }

  lemma SlopeExists(f: real -> Option<real>, v: real, s: real)
    requires HasSlope(f, v, s)
    ensures f(v).Some?
  {
  }

  /** The derivative that the code writes down for a named function. */
  lemma RawFnValue(m: Math, f: UnaryFn, a: Expr, x: string, env: Env)
    requires Defined(m, a, env) && Defined(m, Differentiate(a, x), env) && UnaryValue(m, f, Val(m, a, env)).Some?
    requires f == Sqrt ==> m.sqrt(Val(m, a, env)) != 0.0
    ensures var raw := RawDerivative(Unary(f, a), x);
            && Defined(m, raw, env)
            && Val(m, raw, env) == FnSlope(m, f, Val(m, a, env)) * Val(m, Differentiate(a, x), env)
  {
    var d := Differentiate(a, x);
    hide Defined, Val, Differentiate, PowValue;
    match f
    case Sqrt => SqrtRule(m, a, d, env);
    case Sin =>
      UnaryDefined(m, Cos, a, env);
      PairValue(m, Prod, Unary(Cos, a), d, env);
    case Cos =>
      UnaryDefined(m, Sin, a, env);
      PairValue(m, Prod, Unary(Sin, a), d, env);
      NegDefined(m, Mul([Unary(Sin, a), d]), env);
    case Exp =>
      UnaryDefined(m, Exp, a, env);
      PairValue(m, Prod, Unary(Exp, a), d, env);
    case Ln =>
      InverseValue(m, a, env);
      PairValue(m, Prod, d, Pow(a, Lit(-1.0)), env);
  }

  lemma InverseValue(m: Math, a: Expr, env: Env)
    requires Defined(m, a, env) && Val(m, a, env) != 0.0
    ensures Defined(m, Pow(a, Lit(-1.0)), env) && Val(m, Pow(a, Lit(-1.0)), env) == Inverse(Val(m, a, env))
  {
    var v, minus := Val(m, a, env), -1.0;
    assert IsInteger(minus) && minus.Floor == -1;
    assert NatPow(v, 1) == v * NatPow(v, 0);
    assert PowValue(m, v, minus) == Some(1.0 / v);
    hide Defined, Val;
    PowDefined(m, a, minus, env);
  }

  lemma SqrtRule(m: Math, a: Expr, d: Expr, env: Env)
    requires Defined(m, a, env) && Defined(m, d, env) && UnaryValue(m, Sqrt, Val(m, a, env)).Some?
    requires m.sqrt(Val(m, a, env)) != 0.0
    ensures var raw := Mul([d, Pow(Mul([Lit(2.0), Unary(Sqrt, a)]), Lit(-1.0))]);
            && Defined(m, raw, env)
            && Val(m, raw, env) == Inverse(2.0 * m.sqrt(Val(m, a, env))) * Val(m, d, env)
  {
    var twice := Mul([Lit(2.0), Unary(Sqrt, a)]);
    LitValue(m, Lit(2.0), env);
    hide Defined, Val;
    UnaryDefined(m, Sqrt, a, env);
    PairValue(m, Prod, Lit(2.0), Unary(Sqrt, a), env);
    InverseValue(m, twice, env);
    PairValue(m, Prod, d, Pow(twice, Lit(-1.0)), env);
  }

  // ----- the theorem -----

  lemma {:induction false} ExprTracks(m: Math, e: Expr, x: string, env: Env) returns (k: real, r: real)
    requires Smooth(m, e, x, env) && x in env
    ensures Defined(m, Differentiate(e, x), env) && Tracks(m, e, x, env, Slope(m, e, x, env), k, r)
    ensures Polynomial(e, x) ==> r == 1.0
    decreases e, 1, 0
  {
    hide Defined, Val, Slope, Differentiate, Canon, Tracks, FoldTracks, FnRule, PowRule;
    if CountVar(e, x) == 0 {
      k, r := 0.0, 1.0;
      ConstantTracks(m, e, x, env);
    } else {
      match e
      case Var(_) =>
        k, r := 0.0, 1.0;
        VarTracks(m, x, env);
      case Neg(a) =>
        k, r := ExprTracks(m, a, x, env);
        NegTracks(m, a, x, env, k, r);
      case Add(ts) =>
        k, r := SumTracks(m, ts, 0, x, env);
        AddTracks(m, e, x, env, k, r);
      case Mul(fs) =>
        k, r := ProductTracks(m, fs, 0, x, env);
        MulTracks(m, e, x, env, k, r);
      case Pow(b, n) =>
        k, r := ExprTracks(m, b, x, env);
        if IsInteger(n.value) && n.value >= 0.0 {
          NaturalTracks(m, b, n.value, x, env, k, r);
          k := PowerBound(Val(m, b, env), Slope(m, b, x, env), k, n.value.Floor);
        } else {
          k, r := OtherPowerTracks(m, b, n.value, x, env, k, r);
        }
      case Unary(f, a) =>
        k, r := ExprTracks(m, a, x, env);
        k, r := FnTracks(m, f, a, x, env, k, r);
    }
  }

  /** Near `env` the value of `e` is its value there plus the step times `d`, up to a constant times the step
      squared. */
  ghost predicate HasDerivative(m: Math, e: Expr, x: string, env: Env, d: real) {
    x in env && exists k, r :: Tracks(m, e, x, env, d, k, r)
  }

  /** The derivative is the real one, wherever exponents over `x` are literal and the functions on the way to `x` have
      their textbook slopes at their arguments. */
  lemma DerivativeIsReal(m: Math, e: Expr, x: string, env: Env)
    requires Smooth(m, e, x, env) && x in env
    ensures Eval(m, Differentiate(e, x), env).Ok?
    ensures HasDerivative(m, e, x, env, Eval(m, Differentiate(e, x), env).value)
  {
    hide Smooth, Differentiate, Tracks, Eval;
    var k, r := ExprTracks(m, e, x, env);
  }

  /** For expressions polynomial in `x` it holds everywhere, and for all steps up to one. */
  lemma PolynomialDerivativeIsReal(m: Math, e: Expr, x: string, env: Env)
    requires Polynomial(e, x) && RestDefined(m, e, x, env) && x in env
    ensures Eval(m, Differentiate(e, x), env).Ok?
    ensures exists k :: Tracks(m, e, x, env, Eval(m, Differentiate(e, x), env).value, k, 1.0)
  {
    PolynomialSmooth(m, e, x, env);
    hide Smooth, Differentiate, Tracks, Eval, Polynomial, RestDefined;
    var k, r := ExprTracks(m, e, x, env);
  }

  // ----- uniqueness -----

  /** No other number tracks the value that well. */
  lemma SlopeIsUnique(m: Math, e: Expr, x: string, env: Env, d: real, d': real)
    requires HasDerivative(m, e, x, env, d) && HasDerivative(m, e, x, env, d')
    ensures d == d'
  {
    hide Tracks;
    var k, r :| Tracks(m, e, x, env, d, k, r);
    var k', r' :| Tracks(m, e, x, env, d', k', r');
    if d != d' { GapShows(m, e, x, env, d, k, r, d', k', r'); }
  }

  lemma GapShows(m: Math, e: Expr, x: string, env: Env, d: real, k: real, r: real, d': real, k': real, r': real)
    requires x in env && Tracks(m, e, x, env, d, k, r) && Tracks(m, e, x, env, d', k', r')
    ensures d == d'
  {
    hide TracksAt, Abs;
    if d != d' {
      GapPositive(d, d');
      var h := SmallStep(Abs(d - d'), k + k' + Abs(d - d') + 1.0, Least(r, r'));
      assert TracksAt(m, e, x, env, d, k, h) && TracksAt(m, e, x, env, d', k', h);
      Spread(h, k + k' + Abs(d - d'), 1.0);
      NoGap(m, e, x, env, d, k, d', k', h);
    }
  }

  lemma GapPositive(d: real, d': real)
    requires d != d'
    ensures Abs(d - d') > 0.0
  {
  }

  /** At a step small enough the gap between two slopes would show. */
  lemma NoGap(m: Math, e: Expr, x: string, env: Env, d: real, k: real, d': real, k': real, h: real)
    requires x in env && TracksAt(m, e, x, env, d, k, h) && TracksAt(m, e, x, env, d', k', h)
    requires h > 0.0 && h * (k + k' + Abs(d - d')) <= 0.5 * Abs(d - d')
    ensures d == d'
  {
    hide *;
    BoundOf(m, e, x, env, d, k, h);
    BoundOf(m, e, x, env, d', k', h);
    AbsNonNegative(d - d');
    var t := TracksMeans(m, e, x, env, d, k, h);
    var t' := TracksMeans(m, e, x, env, d', k', h);
    GapBound(t, d, k, d', k', h);
    GapClosed(Abs(d - d'), h, k + k');
    AbsZero(d - d');
  }

  lemma AbsNonNegative(v: real)
    ensures Abs(v) >= 0.0
  {
  }

  lemma AbsZero(v: real)
    requires Abs(v) == 0.0
    ensures v == 0.0
  {
  }

  lemma TracksMeans(m: Math, e: Expr, x: string, env: Env, d: real, k: real, h: real) returns (t: real)
    requires x in env && TracksAt(m, e, x, env, d, k, h)
    ensures k >= 0.0 && t == Val(m, e, env[x := env[x] + h]) - Val(m, e, env) && Abs(t - h * d) <= k * h * h
  {
    t := Val(m, e, env[x := env[x] + h]) - Val(m, e, env);
  }

  lemma SmallStep(gap: real, c: real, r: real) returns (h: real)
    requires gap > 0.0 && c >= 1.0 && r > 0.0
    ensures 0.0 < h <= r && h * c <= 0.5 * gap
  {
    var full := 0.5 * gap / c;
    assert full * c == 0.5 * gap;
    QuotientPositive(0.5 * gap, c);
    h := Least(full, r);
    MulMonotone(h, full, c, c);
  }

  lemma GapBound(t: real, d: real, k: real, d': real, k': real, h: real)
    requires k >= 0.0 && k' >= 0.0 && h >= 0.0 && Abs(t - h * d) <= k * h * h && Abs(t - h * d') <= k' * h * h
    ensures h * Abs(d - d') <= (k + k') * (h * h)
  {
    AbsProduct(h, d - d');
    DifferenceScales(t, h, d, d');
    AbsSum(t - h * d', -(t - h * d));
    assert k * h * h == k * (h * h) && k' * h * h == k' * (h * h);
  }

  lemma DifferenceScales(t: real, h: real, d: real, d': real)
    ensures h * (d - d') == (t - h * d') - (t - h * d)
  {
  }

  lemma GapClosed(gap: real, h: real, k: real)
    requires gap >= 0.0 && h * gap <= k * (h * h) && k >= 0.0 && h > 0.0 && h * (k + gap) <= 0.5 * gap
    ensures gap == 0.0
  {
    Reorder(k, h);
    Cancel(h, gap, h * k);
    Spread(h, k, gap);
    MulNonNegative(h, gap);
  }

  lemma Reorder(k: real, h: real)
    ensures k * (h * h) == h * (h * k)
  {
  }

  lemma Spread(h: real, k: real, g: real)
    ensures h * (k + g) == h * k + h * g
  {
  }

  lemma Cancel(h: real, a: real, b: real)
    requires h > 0.0 && h * a <= h * b
    ensures a <= b
  {
    if a > b { MulPositive(h, a - b); }
  }

  // ----- exponents that are not literal -----

  /** A power whose exponent is not a literal is differentiated to zero. */
  lemma NonLiteralIgnored(b: Expr, n: Expr, x: string)
    requires !n.Lit?
    ensures Differentiate(Pow(b, n), x) == Lit(0.0)
  {
  }

  /** Where the exponent omits `x`, its value may be written for it. */
  lemma SamePower(m: Math, b: Expr, n: Expr, q: real, x: string, env: Env, d: real)
    requires CountVar(n, x) == 0 && Eval(m, n, env) == Ok(q) && x in env
    ensures HasDerivative(m, Pow(b, n), x, env, d) <==> HasDerivative(m, Pow(b, Lit(q)), x, env, d)
  {
    forall k, h ensures TracksAt(m, Pow(b, n), x, env, d, k, h) <==> TracksAt(m, Pow(b, Lit(q)), x, env, d, k, h) {
      PowerAt(m, b, n, q, x, env, env[x] + h);
      NoStep(env, x);
      PowerAt(m, b, n, q, x, env, env[x] + 0.0);
    }
    hide TracksAt, Eval;
    if k, r :| Tracks(m, Pow(b, n), x, env, d, k, r) { assert Tracks(m, Pow(b, Lit(q)), x, env, d, k, r); }
    if k, r :| Tracks(m, Pow(b, Lit(q)), x, env, d, k, r) { assert Tracks(m, Pow(b, n), x, env, d, k, r); }
  }

  lemma PowerAt(m: Math, b: Expr, n: Expr, q: real, x: string, env: Env, v: real)
    requires CountVar(n, x) == 0 && Eval(m, n, env) == Ok(q) && x in env
    ensures Eval(m, Pow(b, n), env[x := v]) == Eval(m, Pow(b, Lit(q)), env[x := v])
  {
    EvalIgnores(m, n, x, env, v);
    assert Eval(m, Lit(q), env[x := v]) == Ok(q);
  }

  /** A non-integer power is taken of a positive base, and the next lower one does not vanish. */
  ghost predicate RootsPositive(m: Math, v: real, q: real) {
    IsInteger(q) || (v > 0.0 && PowValue(m, v, q - 1.0).Some? && PowValue(m, v, q - 1.0).value != 0.0)
  }

  /** The zero that the code gives for a non-literal exponent is the derivative exactly when the exponent is zero, the
      base does not move, or the base is zero and the exponent at least two. */
  lemma NonLiteralExponentIff(m: Math, b: Expr, n: Expr, q: real, x: string, env: Env)
    requires !n.Lit? && CountVar(n, x) == 0 && Eval(m, n, env) == Ok(q) && CountVar(b, x) > 0 && x in env
    requires Smooth(m, b, x, env) && PowRule(m, Val(m, b, env), q) && RootsPositive(m, Val(m, b, env), q)
    ensures Differentiate(Pow(b, n), x) == Lit(0.0)
    ensures HasDerivative(m, Pow(b, n), x, env, 0.0) <==>
            q == 0.0 || Slope(m, b, x, env) == 0.0 || (Val(m, b, env) == 0.0 && q >= 2.0)
  {
    hide *;
    var e := Pow(b, Lit(q));
    LiteralSmooth(m, b, q, x, env);
    NonLiteralIgnored(b, n, x);
    SamePower(m, b, n, q, x, env, 0.0);
    DerivativeIsReal(m, e, x, env);
    DefinedSlope(m, e, x, env);
    LiteralSlope(m, b, q, x, env);
    PowerRuleZero(m, Val(m, b, env), q);
    ZeroProduct(PowerRule(m, Val(m, b, env), q), Slope(m, b, x, env));
    if HasDerivative(m, e, x, env, 0.0) { SlopeIsUnique(m, e, x, env, 0.0, Slope(m, e, x, env)); }
  }

  lemma LiteralSmooth(m: Math, b: Expr, q: real, x: string, env: Env)
    requires Smooth(m, b, x, env) && PowRule(m, Val(m, b, env), q) && CountVar(b, x) > 0
    ensures Smooth(m, Pow(b, Lit(q)), x, env)
  {
    hide PowRule, Val;
    PowCounts(b, q, x);
  }

  lemma DefinedSlope(m: Math, e: Expr, x: string, env: Env)
    requires Eval(m, Differentiate(e, x), env).Ok?
    ensures Slope(m, e, x, env) == Eval(m, Differentiate(e, x), env).value
  {
    hide Eval, Differentiate;
  }

  lemma ZeroProduct(a: real, b: real)
    ensures a * b == 0.0 <==> a == 0.0 || b == 0.0
  {
  }

  /** The slope of a literal power is the power rule's, times the slope of the base. */
  lemma LiteralSlope(m: Math, b: Expr, q: real, x: string, env: Env)
    requires x in env && CountVar(b, x) > 0 && Smooth(m, b, x, env) && PowRule(m, Val(m, b, env), q)
    ensures Slope(m, Pow(b, Lit(q)), x, env) == PowerRule(m, Val(m, b, env), q) * Slope(m, b, x, env)
  {
    hide *;
    var k, r := ExprTracks(m, b, x, env);
    TracksHere(m, b, x, env, Slope(m, b, x, env), k, r);
    PowCounts(b, q, x);
    if IsInteger(q) && q >= 0.0 {
      PowSlope(m, b, q, x, env);
      NaturalRule(m, Val(m, b, env), Slope(m, b, x, env), q);
    } else {
      OtherRule(m, Val(m, b, env), q);
      OtherSlope(m, b, q, x, env);
    }
  }

  lemma PowCounts(b: Expr, q: real, x: string)
    ensures CountVar(Pow(b, Lit(q)), x) == CountVar(b, x)
  {
    assert CountVar(Lit(q), x) == 0;
  }

  lemma NaturalRule(m: Math, v: real, d: real, q: real)
    requires IsInteger(q) && q >= 0.0
    ensures PowerSlope(v, d, q.Floor) == PowerRule(m, v, q) * d
  {
    if q > 0.0 {
      LowerPower(m, v, q);
      PowerSlopeIs(v, d, q);
      hide PowerSlope, PowValue, NatPow;
      PowerRuleValue(q, NatPow(v, q.Floor - 1), d, PowerRule(m, v, q), PowerSlope(v, d, q.Floor));
    }
  }

  /** The power rule gives zero only for exponent zero, or at zero for exponents of at least two. */
  lemma PowerRuleZero(m: Math, v: real, q: real)
    requires PowRule(m, v, q) && RootsPositive(m, v, q)
    ensures PowerRule(m, v, q) == 0.0 <==> q == 0.0 || (v == 0.0 && q >= 2.0)
  {
    if IsInteger(q) && q > 0.0 {
      LowerPower(m, v, q);
      NatPowZero(v, q.Floor - 1);
      ZeroProduct(q, NatPow(v, q.Floor - 1));
    } else if IsInteger(q) && q < 0.0 {
      var i := InverseOf(v);
      OneBelow(q);
      NegativePowerIs(m, v, i, q - 1.0);
      NatPowZero(i, -(q - 1.0).Floor);
      ZeroProduct(q, NatPow(i, -(q - 1.0).Floor));
    } else if q != 0.0 {
      ZeroProduct(q, PowValue(m, v, q - 1.0).value);
    }
  }

  /** The power of a fixed base, as a function of the exponent. */
  function Exponential(m: Math, b: real): real -> Option<real> {
    (q: real) => PowValue(m, b, q)
  }

  /** Where the exponent moves and the base does not, that zero is the derivative exactly when the exponential has slope
      zero at the exponent, or the exponent's own slope is zero. */
  lemma MovingExponentIff(m: Math, b: Expr, n: Expr, s: real, x: string, env: Env)
    requires CountVar(b, x) == 0 && Defined(m, b, env) && CountVar(n, x) > 0 && Smooth(m, n, x, env) && x in env
    requires HasSlope(Exponential(m, Val(m, b, env)), Val(m, n, env), s)
    ensures Differentiate(Pow(b, n), x) == Lit(0.0)
    ensures HasDerivative(m, Pow(b, n), x, env, 0.0) <==> s == 0.0 || Slope(m, n, x, env) == 0.0
  {
    var e := Pow(b, n);
    NonLiteralMoves(b, n, x);
    hide *;
    var d := MovingExponent(m, b, n, s, x, env);
    if HasDerivative(m, e, x, env, 0.0) { SlopeIsUnique(m, e, x, env, 0.0, d); }
  }

  lemma ProductOf(a: real, b: real) returns (p: real)
    ensures p == a * b && (p == 0.0 <==> a == 0.0 || b == 0.0)
  {
    p := a * b;
  }

  lemma MovingExponent(m: Math, b: Expr, n: Expr, s: real, x: string, env: Env) returns (d: real)
    requires CountVar(b, x) == 0 && Defined(m, b, env) && Smooth(m, n, x, env) && x in env
    requires HasSlope(Exponential(m, Val(m, b, env)), Val(m, n, env), s)
    ensures HasDerivative(m, Pow(b, n), x, env, d) && (d == 0.0 <==> s == 0.0 || Slope(m, n, x, env) == 0.0)
  {
    hide *;
    d := ProductOf(s, Slope(m, n, x, env));
    var k, r := ExprTracks(m, n, x, env);
    ExponentialApplies(m, b, n, x, env);
    var k', r' := ChainTracks(m, Pow(b, n), Exponential(m, Val(m, b, env)), n, x, env, Slope(m, n, x, env), k, r, s, d);
    TracksDerivative(m, Pow(b, n), x, env, d, k', r');
  }

  lemma NonLiteralMoves(b: Expr, n: Expr, x: string)
    requires CountVar(n, x) > 0
    ensures Differentiate(Pow(b, n), x) == Lit(0.0)
  {
    NonLiteralIgnored(b, n, x);
  }

  lemma TracksDerivative(m: Math, e: Expr, x: string, env: Env, d: real, k: real, r: real)
    requires x in env && Tracks(m, e, x, env, d, k, r)
    ensures HasDerivative(m, e, x, env, d)
  {
    hide Tracks;
  }

  lemma ExponentialApplies(m: Math, b: Expr, n: Expr, x: string, env: Env)
    requires CountVar(b, x) == 0 && Defined(m, b, env)
    ensures AppliesTo(m, Pow(b, n), Exponential(m, Val(m, b, env)), n, x, env)
  {
    hide PowValue;
    forall v ensures AppliesAt(m, Pow(b, n), Exponential(m, Val(m, b, env)), n, x, env, v) {
      EvalIgnores(m, b, x, env, v);
    }
  }

  /** The smallest case: with exponent one held in a port the value moves with the base. */
  lemma NonLiteralExponentIsIgnored(m: Math, x: string, y: string, v: real, h: real)
    requires x != y
    ensures var e, env: Env := Pow(Var(x), Var(y)), map[x := v, y := 1.0];
            Differentiate(e, x) == Lit(0.0) && Eval(m, e, env) == Ok(v) && Eval(m, e, env[x := v + h]) == Ok(v + h)
  {
    PowOne(m, v);
    PowOne(m, v + h);
  }
}
