/** Where inversion is not exact: negative bases of odd roots, exponent zero, and divisors that may vanish. */
module SymLimits {
  import opened Wrappers
  import opened SymExpr
  import opened SymCanon
  import opened SymConfluence
  import opened SymEval
  import opened SymInvert
  import opened SymSolve
  import opened SymRoots

  // ----- equations whose right side is a port -----

  /** The port `y`, as it reaches the peel of such an equation. */
  function Peeled(y: string): Expr {
    Neg(Neg(Var(y)))
  }

  /** The equation `lhs = y` for a power or a product. */
  predicate Simple(lhs: Expr, x: string, y: string) {
    (lhs.Pow? || lhs.Mul?) && Canon(lhs) == lhs && x != y && CountVar(lhs, x) == 1
  }

  lemma SortPair(e: Expr, f: Expr)
    requires KindRank(e) > KindRank(f)
    ensures Sort([e, f]) == [f, e]
  {
    assert [e, f][1..] == [f] && [f][1..] == [];
    assert Sort([f]) == [f] && Insert(e, []) == [e];
    assert Cmp(e, f) == Greater;
    assert Insert(e, [f]) == [f] + Insert(e, []);
  }

  lemma PairNode(op: Op, e: Expr, f: Expr)
    requires !e.Lit? && !f.Lit? && !IsNode(op, e) && !IsNode(op, f)
    ensures Splice(op, [e, f]) == [e, f] && Build(op, [e, f]) == Node(op, Sort([e, f]))
  {
    assert [e, f][1..] == [f] && [f][1..] == [];
    assert Splice(op, [f]) == [f] + Splice(op, []);
    assert NonLits([f]) == [f] + NonLits([]);
    assert NonLits([e, f]) == [e] + NonLits([f]);
    assert Lits(op, [f]) == Unit(op);
    assert Remaining(op, [e, f]) == [e, f];
  }

  lemma SingleNode(op: Op, e: Expr)
    requires !e.Lit? && !IsNode(op, e)
    ensures Splice(op, [e]) == [e] && Build(op, [e]) == e
  {
    assert [e][1..] == [];
    assert NonLits([e]) == [e] + NonLits([]);
    assert Lits(op, [e]) == Unit(op);
  }

  lemma ZeroedSimple(lhs: Expr, x: string, y: string)
    requires Simple(lhs, x, y)
    ensures Zeroed(lhs, Var(y)) == Add([Neg(Var(y)), lhs])
  {
    assert Canon(Var(y)) == Var(y) && Canon(Neg(Var(y))) == Neg(Var(y));
    assert CanonAll([lhs, Neg(Var(y))]) == [lhs, Neg(Var(y))];
    hide Sort, Build, Splice;
    PairNode(Sum, lhs, Neg(Var(y)));
    SortPair(lhs, Neg(Var(y)));
  }

  /** What the peel of the sum sets the left side equal to. */
  lemma AccSimple(y: string)
    ensures Canon(WithoutSum(Lit(0.0), [Neg(Var(y))])) == Peeled(y)
  {
    var inner := Add([Neg(Var(y))]);
    assert Canon(Var(y)) == Var(y) && Canon(Neg(Var(y))) == Neg(Var(y));
    assert CanonAll([Neg(Var(y))]) == [Neg(Var(y))];
    SingleNode(Sum, Neg(Var(y)));
    assert Canon(inner) == Neg(Var(y));
    var outer := [Lit(0.0), Neg(inner)];
    assert CanonAll(outer) == [Lit(0.0), Peeled(y)];
    DropZero(Peeled(y));
  }

  lemma DropZero(e: Expr)
    requires e.Neg?
    ensures Build(Sum, Splice(Sum, [Lit(0.0), e])) == e
  {
    var es := [Lit(0.0), e];
    assert es[1..] == [e] && [e][1..] == [];
    assert Splice(Sum, [e]) == [e];
    assert Splice(Sum, es) == es;
    assert NonLits([e]) == [e] + NonLits([]);
    assert NonLits(es) == [] + NonLits([e]);
    assert Lits(Sum, [e]) == 0.0;
  }

  lemma PathSimple(lhs: Expr, x: string, y: string)
    requires x != y && CountVar(lhs, x) == 1
    ensures var ts := [Neg(Var(y)), lhs];
            CountFrom(ts, 0, x) == 1 && FirstWith(ts, x, 0) == 1 && Others(ts, 1) == [Neg(Var(y))]
  {
    var ts := [Neg(Var(y)), lhs];
    assert CountVar(ts[0], x) == 0;
    assert CountFrom(ts, 2, x) == 0 && CountFrom(ts, 1, x) == 1;
  }

  /** Inverting such an equation peels its left side off the port. */
  lemma InvertSimple(lhs: Expr, x: string, y: string, branch: Option<Branch>, inf: real)
    requires Simple(lhs, x, y) && Peel(lhs, x, Peeled(y), branch, Record([], None), inf).Ok?
    ensures InvertFor(lhs, Var(y), x, branch, inf).Ok?
    ensures var (r, log) := Peel(lhs, x, Peeled(y), branch, Record([], None), inf).value;
            && InvertFor(lhs, Var(y), x, branch, inf).value.rhs == Canon(r)
            && InvertFor(lhs, Var(y), x, branch, inf).value.admission == log.admission
  {
    ZeroedSimple(lhs, x, y);
    AccSimple(y);
    PathSimple(lhs, x, y);
    var zero := Add([Neg(Var(y)), lhs]);
    assert CountVar(zero, x) == 1;
    hide Canon, Zeroed, WithoutSum, Others, FirstWith;
    assert Peel(zero, x, Lit(0.0), branch, Record([], None), inf) ==
           Peel(lhs, x, Peeled(y), branch, Record([], None), inf);
  }

  lemma PeeledValue(m: Math, y: string, env: Env)
    requires y in env
    ensures Eval(m, Peeled(y), env) == Ok(env[y]) && Eval(m, Var(y), env) == Ok(env[y])
  {
    assert Eval(m, Neg(Var(y)), env) == Ok(-env[y]);
  }

  lemma PeeledCanonical(y: string)
    ensures Canonical(Peeled(y)) && Canon(Peeled(y)) == Peeled(y)
  {
    assert Canonical(Var(y)) && Canonical(Neg(Var(y)));
    CanonFixes(Peeled(y));
  }

  // ----- powers -----

  lemma PowOfVar(m: Math, y: string, n: real, env: Env)
    requires y in env
    ensures Eval(m, Pow(Var(y), Lit(n)), env) == OrFault(PowValue(m, env[y], n)) && Eval(m, Var(y), env) == Ok(env[y])
  {
    assert Eval(m, Lit(n), env) == Ok(n);
  }

  lemma {:induction false} NatPowPositive(b: real, n: nat)
    requires b > 0.0
    ensures NatPow(b, n) > 0.0
  {
    if n > 0 { NatPowPositive(b, n - 1); }
  }

  lemma OddPowerNegative(m: Math, v: real, n: real, inf: real)
    requires (forall c, q :: c < 0.0 ==> m.root(c, q).None?) && IsOdd(n) && n >= 3.0 && v < 0.0
    requires PowValue(m, v, n).Some?
    ensures PowValue(m, PowValue(m, v, n).value, RootExponent(n, inf)) == None
  {
    NatPowEven(-v, n.Floor);
    NatPowPositive(-v, n.Floor);
    ReciprocalNotInteger(n.Floor);
  }

  lemma PowerSimple(x: string, y: string, n: real)
    requires x != y
    ensures Simple(Pow(Var(x), Lit(n)), x, y)
  {
    assert CountVar(Lit(n), x) == 0;
  }

  lemma PeelPower(x: string, y: string, n: real, branch: Option<Branch>, inf: real)
    requires x != y && IsInteger(n) && (IsOdd(n) || branch == Some(Positive))
    ensures CountVar(Pow(Var(x), Lit(n)), x) == 1
    ensures var r := Peel(Pow(Var(x), Lit(n)), x, Peeled(y), branch, Record([], None), inf);
            && r.Ok? && r.value.0 == Pow(Peeled(y), Lit(RootExponent(n, inf))) == Canon(r.value.0)
            && r.value.1.admission == []
  {
    assert CountVar(Lit(n), x) == 0 && CountVar(Var(x), x) == 1;
    PeeledCanonical(y);
    CanonPow(Peeled(y), RootExponent(n, inf));
    hide Canon;
  }

  /** The value of the solved form of `x ^ n = y`. */
  lemma PowerInverse(m: Math, x: string, y: string, n: real, branch: Option<Branch>, inf: real, env: Env)
    requires x != y && IsInteger(n) && (IsOdd(n) || branch == Some(Positive)) && y in env
    ensures InvertFor(Pow(Var(x), Lit(n)), Var(y), x, branch, inf).Ok?
    ensures var inv := InvertFor(Pow(Var(x), Lit(n)), Var(y), x, branch, inf).value;
            && inv.admission == [] && inv.rhs == Pow(Peeled(y), Lit(RootExponent(n, inf)))
            && Eval(m, inv.rhs, env) == OrFault(PowValue(m, env[y], RootExponent(n, inf)))
  {
    hide Simple, Peel, Canon, InvertFor, IsOdd, PowValue, RootExponent;
    PowerSimple(x, y, n);
    PeelPower(x, y, n, branch, inf);
    InvertSimple(Pow(Var(x), Lit(n)), x, y, branch, inf);
    PeeledValue(m, y, env);
    assert Eval(m, Lit(RootExponent(n, inf)), env) == Ok(RootExponent(n, inf));
  }

  /** An odd power of order three or more is inverted through a non-integer power, which has no value at a negative
      number: wherever the base is negative the equation holds and yet the solved form faults. */
  lemma NegativeBaseFaults(m: Math, x: string, y: string, n: real, v: real, w: real, inf: real)
    requires (forall c, q :: c < 0.0 ==> m.root(c, q).None?) && IsOdd(n) && n >= 3.0 && v < 0.0
    requires PowValue(m, v, n) == Some(w) && x != y
    ensures var env: Env := map[x := v, y := w];
            var inverted := InvertFor(Pow(Var(x), Lit(n)), Var(y), x, None, inf);
            && Satisfies(m, Pow(Var(x), Lit(n)), Var(y), env) && inverted.Ok?
            && AllHold(m, inverted.value.admission, env) && Eval(m, inverted.value.rhs, env) == Err(DomainFault)
  {
    assert IsInteger(n);
    hide Eval, PowValue, InvertFor, IsOdd;
    var env: Env := map[x := v, y := w];
    PowOfVar(m, x, n, env);
    PowOfVar(m, y, n, env);
    OddPowerNegative(m, v, n, inf);
    PowerInverse(m, x, y, n, None, inf, env);
  }

  /** Exponent zero counts as even: inversion succeeds once a sign is declared, although the equation `x ^ 0 = y` holds
      for every target where `y` is 1. The solved form raises `y` to the infinity that one over zero gives, and is wrong
      for all targets but at most one. */
  lemma ZeroExponentAccepted(m: Math, x: string, y: string, inf: real, v: real, w: real)
    requires x != y && v != w
    ensures var lhs, at, also := Pow(Var(x), Lit(0.0)), map[x := v, y := 1.0], map[x := w, y := 1.0];
            var inverted := InvertFor(lhs, Var(y), x, Some(Positive), inf);
            && inverted.Ok? && inverted.value.admission == [] && inverted.value.rhs == Pow(Peeled(y), Lit(inf))
            && Satisfies(m, lhs, Var(y), at) && Satisfies(m, lhs, Var(y), also)
            && !(Eval(m, inverted.value.rhs, at) == Ok(v) && Eval(m, inverted.value.rhs, also) == Ok(w))
  {
    var zero := 0.0;
    assert zero.Floor == 0 && IsInteger(zero);
    var at, also: Env := map[x := v, y := 1.0], map[x := w, y := 1.0];
    assert NatPow(v, 0) == 1.0 && NatPow(w, 0) == 1.0;
    PowOfVar(m, x, zero, at);
    PowOfVar(m, x, zero, also);
    PowOfVar(m, y, zero, at);
    PowOfVar(m, y, zero, also);
    hide Eval, InvertFor;
    PowerInverse(m, x, y, zero, Some(Positive), inf, at);
    PowerInverse(m, x, y, zero, Some(Positive), inf, also);
  }

  // ----- divisors -----

  /** The canonical product of two ports. */
  function Product(a: string, x: string): Expr {
    Mul(Sort([Var(a), Var(x)]))
  }

  lemma SortedVars(a: string, x: string)
    ensures Sort([Var(a), Var(x)]) == [Var(a), Var(x)] || Sort([Var(a), Var(x)]) == [Var(x), Var(a)]
  {
    SortOne(Var(x));
    assert [Var(a), Var(x)][1..] == [Var(x)];
    assert Sort([Var(a), Var(x)]) == Insert(Var(a), [Var(x)]);
    InsertOne(Var(a), Var(x));
  }

  lemma SortOne(e: Expr)
    ensures Sort([e]) == [e]
  {
    assert [e][1..] == [];
    assert Sort([]) == [];
    assert Insert(e, []) == [e] + [];
  }

  lemma InsertOne(e: Expr, f: Expr)
    ensures Insert(e, [f]) == [e, f] || Insert(e, [f]) == [f, e]
  {
    assert [f][1..] == [] && Insert(e, []) == [e] + [];
    assert Insert(e, [f]) == if LessEq(e, f) then [e] + [f] else [f] + Insert(e, []);
  }

  lemma ProductCanonical(a: string, x: string)
    ensures Canon(Mul([Var(a), Var(x)])) == Product(a, x) && Canon(Product(a, x)) == Product(a, x)
  {
    assert CanonAll([Var(a), Var(x)]) == [Var(a), Var(x)];
    PairNode(Prod, Var(a), Var(x));
    hide Sort, Build, Splice;
    CanonIsFixedPoint(Mul([Var(a), Var(x)]));
  }

  lemma ZeroedProduct(a: string, x: string, y: string)
    requires a != x && a != y && x != y
    ensures Simple(Product(a, x), x, y)
    ensures Zeroed(Mul([Var(a), Var(x)]), Var(y)) == Zeroed(Product(a, x), Var(y))
  {
    ProductCanonical(a, x);
    SortedVars(a, x);
    ProductPath(a, x);
    assert CanonAll([Mul([Var(a), Var(x)]), Neg(Var(y))]) == CanonAll([Product(a, x), Neg(Var(y))]);
    hide Canon, Build, Splice, Sort;
  }

  lemma ProductPath(a: string, x: string)
    requires a != x
    ensures var fs := Sort([Var(a), Var(x)]);
            CountFrom(fs, 0, x) == 1 && fs[FirstWith(fs, x, 0)] == Var(x) && Others(fs, FirstWith(fs, x, 0)) == [Var(a)]
  {
    SortedVars(a, x);
    var fs := Sort([Var(a), Var(x)]);
    assert CountFrom(fs, 2, x) == 0;
    if fs == [Var(a), Var(x)] {
      assert CountVar(fs[0], x) == 0 && CountFrom(fs, 1, x) == 1;
      assert Others(fs, 1) == [Var(a)];
    } else {
      assert CountVar(fs[0], x) == 1 && CountFrom(fs, 1, x) == 0;
      assert Others(fs, 0) == [Var(a)];
    }
  }

  function Quotient(a: string, y: string): Expr {
    Mul([Peeled(y), Pow(Var(a), Lit(-1.0))])
  }

  lemma QuotientCanonical(a: string, y: string)
    ensures Canon(WithoutProduct(Peeled(y), [Var(a)])) == Quotient(a, y) && Canon(Quotient(a, y)) == Quotient(a, y)
  {
    var inverse := Pow(Var(a), Lit(-1.0));
    assert CanonAll([Var(a)]) == [Var(a)];
    SingleNode(Prod, Var(a));
    assert Canon(Mul([Var(a)])) == Var(a);
    var plain := [Peeled(y), Pow(Mul([Var(a)]), Lit(-1.0))];
    PeeledCanonical(y);
    assert Canon(plain[1]) == inverse;
    assert CanonAll(plain) == [Peeled(y), inverse];
    PairNode(Prod, Peeled(y), inverse);
    SortedQuotient(a, y);
    hide Sort, Build, Splice;
    CanonIsFixedPoint(Mul(plain));
  }

  lemma SortedQuotient(a: string, y: string)
    ensures Sort([Peeled(y), Pow(Var(a), Lit(-1.0))]) == [Peeled(y), Pow(Var(a), Lit(-1.0))]
  {
    var es := [Peeled(y), Pow(Var(a), Lit(-1.0))];
    assert es[1..] == [es[1]] && [es[1]][1..] == [];
    assert Sort([es[1]]) == [es[1]];
  }

  lemma PeelProduct(a: string, x: string, y: string, branch: Option<Branch>, inf: real)
    requires a != x && a != y && x != y
    ensures CountVar(Product(a, x), x) == 1
    ensures Peel(Product(a, x), x, Peeled(y), branch, Record([], None), inf) == Ok((Quotient(a, y), Record([], None)))
  {
    ProductPath(a, x);
    QuotientCanonical(a, y);
    hide Canon, FirstWith, Others, Sort, WithoutProduct;
  }

  lemma QuotientFaults(m: Math, a: string, y: string, env: Env)
    requires a in env && y in env && env[a] == 0.0
    ensures Eval(m, Quotient(a, y), env) == Err(DomainFault)
  {
    var inverse := Pow(Var(a), Lit(-1.0));
    var minus := -1.0;
    assert minus.Floor == -1;
    assert NatPow(0.0, 1) == 0.0 * NatPow(0.0, 0);
    assert PowValue(m, 0.0, minus) == None;
    assert Eval(m, Lit(minus), env) == Ok(minus) && Eval(m, Var(a), env) == Ok(0.0);
    assert Eval(m, inverse, env) == Err(DomainFault);
    PeeledValue(m, y, env);
    var es := [Peeled(y), inverse];
    assert EvalFrom(m, Prod, es, 1, env[y], env) == Err(DomainFault);
    assert EvalFrom(m, Prod, es, 0, 1.0, env) == EvalFrom(m, Prod, es, 1, Combine(Prod, 1.0, env[y]), env);
  }

  /** A factor divided out leaves no admission predicate: `a x = y` is inverted without any, and where `a` and `y` are
      zero every target satisfies the equation while the solved form faults. */
  lemma DivisorNotAdmitted(m: Math, a: string, x: string, y: string, branch: Option<Branch>, inf: real, v: real)
    requires a != x && a != y && x != y
    ensures var lhs, env: Env := Mul([Var(a), Var(x)]), map[a := 0.0, x := v, y := 0.0];
            var inverted := InvertFor(lhs, Var(y), x, branch, inf);
            && inverted.Ok? && inverted.value.admission == [] && Satisfies(m, lhs, Var(y), env)
            && Eval(m, inverted.value.rhs, env) == Err(DomainFault)
  {
    hide *;
    var lhs, env: Env := Mul([Var(a), Var(x)]), map[a := 0.0, x := v, y := 0.0];
    ZeroedProduct(a, x, y);
    PeelProduct(a, x, y, branch, inf);
    QuotientCanonical(a, y);
    QuotientFaults(m, a, y, env);
    ProductValue(m, a, x, env);
    PeeledValue(m, y, env);
    InvertSimple(Product(a, x), x, y, branch, inf);
    SameInverse(lhs, Product(a, x), y, x, branch, inf);
    SatisfiesBy(m, lhs, Var(y), env, 0.0);
  }

  /** Inversion looks at the zeroed equation only. */
  lemma SameInverse(lhs: Expr, other: Expr, y: string, x: string, branch: Option<Branch>, inf: real)
    requires Zeroed(lhs, Var(y)) == Zeroed(other, Var(y))
    ensures InvertFor(lhs, Var(y), x, branch, inf) == InvertFor(other, Var(y), x, branch, inf)
  {
    hide Peel, Canon, Zeroed;
  }

  lemma SatisfiesBy(m: Math, lhs: Expr, rhs: Expr, env: Env, v: real)
    requires Eval(m, lhs, env) == Ok(v) && Eval(m, rhs, env) == Ok(v)
    ensures Satisfies(m, lhs, rhs, env)
  {
  }

  lemma ProductValue(m: Math, a: string, x: string, env: Env)
    requires a in env && x in env
    ensures Eval(m, Mul([Var(a), Var(x)]), env) == Ok(env[a] * env[x])
  {
    var es := [Var(a), Var(x)];
    assert Eval(m, es[0], env) == Ok(env[a]) && Eval(m, es[1], env) == Ok(env[x]);
    assert EvalFrom(m, Prod, es, 2, env[a] * env[x], env) == Ok(env[a] * env[x]);
    assert Combine(Prod, env[a], env[x]) == env[a] * env[x];
    assert EvalFrom(m, Prod, es, 1, env[a], env) == Ok(env[a] * env[x]);
    assert Combine(Prod, 1.0, env[a]) == env[a];
  }

  // ----- a vanishing divisor anywhere on the path -----

  /** On the path to `x` the other factors of some product multiply to zero, or an exponent is zero. */
  ghost predicate Stuck(m: Math, node: Expr, x: string, env: Env)
    requires CountVar(node, x) == 1
    decreases node
  {
    match node
    case Var(_) => false
    case Add(ts) => Stuck(m, ts[FirstWith(ts, x, 0)], x, env)
    case Mul(fs) => var k := FirstWith(fs, x, 0); Fold(m, Prod, Others(fs, k), env) == 0.0 || Stuck(m, fs[k], x, env)
    case Neg(a) => Stuck(m, a, x, env)
    case Unary(_, a) => Stuck(m, a, x, env)
    case Pow(b, e) => e == Lit(0.0) || (CountVar(b, x) == 1 && Stuck(m, b, x, env))
  }

  lemma {:induction false} FoldSame(m: Math, op: Op, es: seq<Expr>, at: Env, also: Env)
    requires forall e :: e in es ==> Val(m, e, at) == Val(m, e, also)
    ensures Fold(m, op, es, at) == Fold(m, op, es, also)
  {
    hide Val, Combine;
    if es != [] {
      assert es[0] in es;
      FoldSame(m, op, es[1..], at, also);
    }
  }

  /** An expression that omits `x` does not notice its value. */
  lemma SameWithout(m: Math, e: Expr, x: string, env: Env, v: real, w: real)
    requires CountVar(e, x) == 0
    ensures Val(m, e, env[x := v]) == Val(m, e, env) == Val(m, e, env[x := w])
  {
    EvalIgnores(m, e, x, env, v);
    EvalIgnores(m, e, x, env, w);
  }

  lemma OperandSame(m: Math, es: seq<Expr>, x: string, env: Env, v: real, w: real)
    requires CountFrom(es, 0, x) == 1
    requires Val(m, es[FirstWith(es, x, 0)], env[x := v]) == Val(m, es[FirstWith(es, x, 0)], env[x := w])
    ensures forall e :: e in es ==> Val(m, e, env[x := v]) == Val(m, e, env[x := w])
  {
    var k := FirstWith(es, x, 0);
    OthersOmit(es, x);
    hide Val;
    forall e | e in es ensures Val(m, e, env[x := v]) == Val(m, e, env[x := w]) {
      if e != es[k] {
        var j :| 0 <= j < |es| && es[j] == e;
        assert e in Others(es, k) by {
          if j < k { assert es[..k][j] == e; } else { assert es[k + 1..][j - k - 1] == e; }
        }
        SameWithout(m, e, x, env, v, w);
      }
    }
  }

  /** A product with a zero among its other factors is zero. */
  lemma ZeroProductValue(m: Math, fs: seq<Expr>, x: string, env: Env, v: real)
    requires CountFrom(fs, 0, x) == 1 && Fold(m, Prod, Others(fs, FirstWith(fs, x, 0)), env) == 0.0
    ensures Fold(m, Prod, fs, env[x := v]) == 0.0
  {
    var k, there := FirstWith(fs, x, 0), env[x := v];
    OthersOmit(fs, x);
    forall e | e in Others(fs, k) ensures Val(m, e, env) == Val(m, e, there) { SameWithout(m, e, x, env, v, v); }
    hide Val, Fold, CountVar, CountFrom, FirstWith;
    FoldSame(m, Prod, Others(fs, k), env, there);
    assert Others(fs, k) == fs[..k] + fs[k + 1..];
    FoldAround(m, fs, k, there);
  }

  lemma FoldAround(m: Math, fs: seq<Expr>, k: nat, env: Env)
    requires k < |fs| && Fold(m, Prod, fs[..k] + fs[k + 1..], env) == 0.0
    ensures Fold(m, Prod, fs, env) == 0.0
  {
    hide Val, Fold;
    assert fs == fs[..k] + ([fs[k]] + fs[k + 1..]);
    FoldAppend(m, Prod, fs[..k], [fs[k]] + fs[k + 1..], env);
    FoldAppend(m, Prod, [fs[k]], fs[k + 1..], env);
    FoldAppend(m, Prod, fs[..k], fs[k + 1..], env);
    ZeroOfThree(Fold(m, Prod, fs[..k], env), Fold(m, Prod, [fs[k]], env), Fold(m, Prod, fs[k + 1..], env));
  }

  lemma ZeroOfThree(a: real, b: real, c: real)
    requires a * c == 0.0
    ensures a * (b * c) == 0.0
  {
  }

  /** Below such a place the target has no influence. */
  lemma {:induction false} StuckIsConstant(m: Math, node: Expr, x: string, env: Env, v: real, w: real)
    requires CountVar(node, x) == 1 && Stuck(m, node, x, env)
    requires Defined(m, node, env[x := v]) && Defined(m, node, env[x := w])
    ensures Val(m, node, env[x := v]) == Val(m, node, env[x := w])
    decreases node
  {
    var at, also := env[x := v], env[x := w];
    hide Fold, Val, Defined, PowValue;
    match node
    case Add(ts) =>
      NodeValue(m, Sum, node, at);
      NodeValue(m, Sum, node, also);
      StuckIsConstant(m, ts[FirstWith(ts, x, 0)], x, env, v, w);
      OperandSame(m, ts, x, env, v, w);
      FoldSame(m, Sum, ts, at, also);
    case Mul(fs) =>
      NodeValue(m, Prod, node, at);
      NodeValue(m, Prod, node, also);
      if Fold(m, Prod, Others(fs, FirstWith(fs, x, 0)), env) == 0.0 {
        ZeroProductValue(m, fs, x, env, v);
        ZeroProductValue(m, fs, x, env, w);
      } else {
        StuckIsConstant(m, fs[FirstWith(fs, x, 0)], x, env, v, w);
        OperandSame(m, fs, x, env, v, w);
        FoldSame(m, Prod, fs, at, also);
      }
    case Neg(a) =>
      NegDefined(m, a, at);
      NegDefined(m, a, also);
      StuckIsConstant(m, a, x, env, v, w);
    case Unary(f, a) =>
      UnaryDefined(m, f, a, at);
      UnaryDefined(m, f, a, also);
      StuckIsConstant(m, a, x, env, v, w);
    case Pow(b, e) =>
      if e == Lit(0.0) {
        PowerZero(m, b, at);
        PowerZero(m, b, also);
      } else {
        PowOperands(m, b, e, at);
        PowOperands(m, b, e, also);
        StuckIsConstant(m, b, x, env, v, w);
        SameWithout(m, e, x, env, v, w);
      }
  }

  lemma PowerZero(m: Math, b: Expr, env: Env)
    requires Defined(m, Pow(b, Lit(0.0)), env)
    ensures Val(m, Pow(b, Lit(0.0)), env) == 1.0
  {
    var zero := 0.0;
    assert IsInteger(zero) && zero.Floor == 0;
    PowDefined(m, b, zero, env);
    assert NatPow(Val(m, b, env), 0) == 1.0;
  }

  lemma PowOperands(m: Math, b: Expr, e: Expr, env: Env)
    requires Defined(m, Pow(b, e), env)
    ensures Defined(m, b, env) && Defined(m, e, env)
    ensures Some(Val(m, Pow(b, e), env)) == PowValue(m, Val(m, b, env), Val(m, e, env))
  {
  }

  lemma OthersDefined(m: Math, es: seq<Expr>, x: string, env: Env, v: real)
    requires CountFrom(es, 0, x) == 1 && AllDefined(m, es, env[x := v])
    ensures AllDefined(m, Others(es, FirstWith(es, x, 0)), env)
  {
    OthersOmit(es, x);
    hide Defined, CountVar, CountFrom;
    forall e | e in Others(es, FirstWith(es, x, 0)) ensures Defined(m, e, env) {
      assert e in es;
      DefinedWithout(m, e, x, env, v);
    }
  }

  lemma DefinedWithout(m: Math, e: Expr, x: string, env: Env, v: real)
    requires CountVar(e, x) == 0 && Defined(m, e, env[x := v])
    ensures Defined(m, e, env)
  {
    EvalIgnores(m, e, x, env, v);
  }

  /** Where the equation evaluates at all, what exactness asks beside the path fails only at such a place. */
  lemma {:induction false} NotBesideIsStuck(m: Math, node: Expr, x: string, branch: Option<Branch>, env: Env, v: real)
    requires CountVar(node, x) == 1 && Peelable(node, x, branch) && Defined(m, node, env[x := v])
    requires !Beside(m, node, x, branch, env)
    ensures Stuck(m, node, x, env)
    decreases node
  {
    var there := env[x := v];
    hide Defined, Val, Fold;
    match node
    case Var(_) =>
    case Add(ts) =>
      NodeValue(m, Sum, node, there);
      OthersDefined(m, ts, x, env, v);
      NotBesideIsStuck(m, ts[FirstWith(ts, x, 0)], x, branch, env, v);
    case Mul(fs) =>
      NodeValue(m, Prod, node, there);
      OthersDefined(m, fs, x, env, v);
      if Fold(m, Prod, Others(fs, FirstWith(fs, x, 0)), env) != 0.0 {
        NotBesideIsStuck(m, fs[FirstWith(fs, x, 0)], x, branch, env, v);
      }
    case Neg(a) =>
      NegDefined(m, a, there);
      NotBesideIsStuck(m, a, x, branch, env, v);
    case Unary(f, a) =>
      UnaryDefined(m, f, a, there);
      NotBesideIsStuck(m, a, x, branch, env, v);
    case Pow(b, e) =>
      PowOperands(m, b, e, there);
      if e != Lit(0.0) { NotBesideIsStuck(m, b, x, branch, env, v); }
  }

  /** So exactness needs what it asks beside the path: where that fails, the equation holds for every target at which it
      evaluates or for none; and if it holds for two, the solved form is wrong for one of them. */
  lemma VanishingDivisorMisleads(m: Math, lhs: Expr, rhs: Expr, x: string, branch: Option<Branch>, inf: real, env: Env,
                                 v: real, w: real)
    requires InvertFor(lhs, rhs, x, branch, inf).Ok?
    requires var zero := Zeroed(lhs, rhs);
             CountVar(zero, x) == 1 && Peelable(zero, x, branch) && !Beside(m, zero, x, branch, env)
    requires Defined(m, lhs, env[x := v]) && Defined(m, rhs, env[x := v])
    requires Defined(m, lhs, env[x := w]) && Defined(m, rhs, env[x := w])
    ensures Satisfies(m, lhs, rhs, env[x := v]) <==> Satisfies(m, lhs, rhs, env[x := w])
    ensures var solved := InvertFor(lhs, rhs, x, branch, inf).value.rhs;
            v != w ==> !(Eval(m, solved, env[x := v]) == Ok(v) && Eval(m, solved, env[x := w]) == Ok(w))
  {
    InversionOfPeel(lhs, rhs, x, branch, inf);
    var solved := InvertFor(lhs, rhs, x, branch, inf).value.rhs;
    hide InvertFor, Peel, Peelable, Eval, Stuck, Beside, Zeroed;
    EvalIgnores(m, solved, x, env, v);
    EvalIgnores(m, solved, x, env, w);
    ZeroedValue(m, lhs, rhs, env[x := v]);
    ZeroedValue(m, lhs, rhs, env[x := w]);
    NotBesideIsStuck(m, Zeroed(lhs, rhs), x, branch, env, v);
    StuckIsConstant(m, Zeroed(lhs, rhs), x, env, v, w);
  }

  lemma ZeroedValue(m: Math, lhs: Expr, rhs: Expr, env: Env)
    requires Defined(m, lhs, env) && Defined(m, rhs, env)
    ensures Defined(m, Zeroed(lhs, rhs), env) && Val(m, Zeroed(lhs, rhs), env) == Val(m, lhs, env) - Val(m, rhs, env)
  {
    hide Defined, Val, Canon;
    NegDefined(m, rhs, env);
    PairValue(m, Sum, lhs, Neg(rhs), env);
    CanonMeans(m, Add([lhs, Neg(rhs)]), env);
  }
}
