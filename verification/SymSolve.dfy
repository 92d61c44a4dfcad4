/** Inversion is correct: the closed form is the target's value, and its value solves the equation. */
module SymSolve {
  import opened Wrappers
  import opened SymExpr
  import opened SymCanon
  import opened SymConfluence
  import opened SymEval
  import opened SymInvert

  // ----- what the inverse functions must satisfy -----

  /** The square root of a non-negative number is non-negative and squares to it. */
  ghost predicate SqrtLaw(m: Math) {
    forall v :: v >= 0.0 ==> m.sqrt(v) >= 0.0 && m.sqrt(v) * m.sqrt(v) == v
  }

  ghost predicate RootLaws(m: Math) {
    && SqrtLaw(m)
    && (forall v :: m.exp(v).Some? ==> m.exp(v).value > 0.0 && m.ln(m.exp(v).value) == v)
    && (forall v :: v > 0.0 ==> m.exp(m.ln(v)) == Some(v))
  }

  /** A root of order at least two undoes the power of a non-negative base, and yields one. */
  ghost predicate PowerLaws(m: Math) {
    forall c: real, n: int :: n <= -2 || n >= 2 ==> RootOf(m, c, n)
  }

  ghost predicate RootOf(m: Math, c: real, n: int)
    requires n != 0
  {
    && (forall b :: b >= 0.0 && PowValue(m, b, n as real) == Some(c) ==> m.root(c, 1.0 / n as real) == Some(b))
    && (m.root(c, 1.0 / n as real).Some? ==>
          m.root(c, 1.0 / n as real).value >= 0.0 &&
            PowValue(m, m.root(c, 1.0 / n as real).value, n as real) == Some(c))
  }

  ghost predicate Laws(m: Math) {
    RootLaws(m) && PowerLaws(m)
  }

  // ----- expressions that do not mention the target -----

  lemma {:induction false} EvalIgnores(m: Math, e: Expr, x: string, env: Env, v: real)
    requires CountVar(e, x) == 0
    ensures Eval(m, e, env[x := v]) == Eval(m, e, env)
    decreases e, 1, 0
  {
    match e
    case Var(_) =>
    case Lit(_) =>
    case Neg(a) => EvalIgnores(m, a, x, env, v);
    case Unary(_, a) => EvalIgnores(m, a, x, env, v);
    case Pow(b, n) => EvalIgnores(m, b, x, env, v); EvalIgnores(m, n, x, env, v);
    case Add(ts) => EvalFromIgnores(m, Sum, ts, 0, 0.0, x, env, v);
    case Mul(fs) => EvalFromIgnores(m, Prod, fs, 0, 1.0, x, env, v);
  }

  lemma {:induction false} EvalFromIgnores(m: Math, op: Op, es: seq<Expr>, i: nat, acc: real, x: string, env: Env,
                                           v: real)
    requires i <= |es| && CountFrom(es, i, x) == 0
    ensures EvalFrom(m, op, es, i, acc, env[x := v]) == EvalFrom(m, op, es, i, acc, env)
    decreases es, 0, |es| - i
  {
    if i < |es| {
      EvalIgnores(m, es[i], x, env, v);
      var w := Eval(m, es[i], env);
      if w.Ok? { EvalFromIgnores(m, op, es, i + 1, Combine(op, acc, w.value), x, env, v); }
    }
  }

  predicate Omits(es: seq<Expr>, x: string) {
    forall e :: e in es ==> CountVar(e, x) == 0
  }

  lemma {:induction false} CountOmits(es: seq<Expr>, i: nat, x: string)
    requires i <= |es|
    ensures CountFrom(es, i, x) == 0 <==> Omits(es[i..], x)
    decreases |es| - i
  {
    if i < |es| {
      CountOmits(es, i + 1, x);
      assert es[i..] == [es[i]] + es[i + 1..];
    }
  }

  lemma NodeOmits(op: Op, e: Expr, x: string)
    requires IsNode(op, e)
    ensures CountVar(e, x) == 0 <==> Omits(Operands(op, e), x)
  {
    CountOmits(Operands(op, e), 0, x);
    assert Operands(op, e)[0..] == Operands(op, e);
  }

  lemma {:induction false} SpliceOmits(op: Op, es: seq<Expr>, x: string)
    requires Omits(es, x)
    ensures Omits(Splice(op, es), x)
  {
    if es != [] {
      SpliceOmits(op, es[1..], x);
      assert es[0] in es;
      if IsNode(op, es[0]) { NodeOmits(op, es[0], x); }
    }
  }

  lemma BuildOmits(op: Op, es: seq<Expr>, x: string)
    requires Omits(es, x)
    ensures CountVar(Build(op, es), x) == 0
  {
    var rest := Remaining(op, es);
    RemainingParts(op, es);
    SortParts(op, rest);
    hide Remaining, Lits, NonLits, Sort;
    assert Omits(rest, x);
    if |rest| == 1 {
      assert rest[0] in rest;
    } else if |rest| > 1 {
      NodeOmits(op, Node(op, Sort(rest)), x);
    }
  }

  /** Canonicalising introduces no variable. */
  lemma {:induction false} CanonOmits(e: Expr, x: string)
    requires CountVar(e, x) == 0
    ensures CountVar(Canon(e), x) == 0
    decreases e
  {
    match e
    case Var(_) =>
    case Lit(_) =>
    case Neg(a) => CanonOmits(a, x);
    case Unary(_, a) => CanonOmits(a, x);
    case Pow(b, n) => CanonOmits(b, x); CanonOmits(n, x);
    case Add(ts) =>
      NodeOmits(Sum, e, x);
      forall i | 0 <= i < |ts| ensures CountVar(CanonAll(ts)[i], x) == 0 { assert ts[i] in ts; CanonOmits(ts[i], x); }
      SpliceOmits(Sum, CanonAll(ts), x);
      BuildOmits(Sum, Splice(Sum, CanonAll(ts)), x);
    case Mul(fs) =>
      NodeOmits(Prod, e, x);
      forall i | 0 <= i < |fs| ensures CountVar(CanonAll(fs)[i], x) == 0 { assert fs[i] in fs; CanonOmits(fs[i], x); }
      SpliceOmits(Prod, CanonAll(fs), x);
      BuildOmits(Prod, Splice(Prod, CanonAll(fs)), x);
  }

  lemma WithoutOmits(acc: Expr, others: seq<Expr>, x: string)
    requires CountVar(acc, x) == 0 && Omits(others, x)
    ensures CountVar(Canon(WithoutSum(acc, others)), x) == 0
    ensures CountVar(Canon(WithoutProduct(acc, others)), x) == 0
  {
    NodeOmits(Sum, Add(others), x);
    NodeOmits(Prod, Mul(others), x);
    NodeOmits(Sum, WithoutSum(acc, others), x);
    assert CountVar(Pow(Mul(others), Lit(-1.0)), x) == 0;
    NodeOmits(Prod, WithoutProduct(acc, others), x);
    CanonOmits(WithoutSum(acc, others), x);
    CanonOmits(WithoutProduct(acc, others), x);
  }

  /** The solved form does not mention the target. */
  lemma {:induction false} PeelOmits(node: Expr, x: string, acc: Expr, branch: Option<Branch>, log: Record, inf: real)
    requires CountVar(node, x) == 1 && CountVar(acc, x) == 0
    ensures match Peel(node, x, acc, branch, log, inf)
            case Ok((r, _)) => CountVar(r, x) == 0
            case Err(_) => true
    decreases node
  {
    hide Canon, WithoutSum, WithoutProduct;
    match node
    case Var(_) =>
    case Add(ts) =>
      var k := FirstWith(ts, x, 0);
      OthersOmit(ts, x);
      WithoutOmits(acc, Others(ts, k), x);
      PeelOmits(ts[k], x, Canon(WithoutSum(acc, Others(ts, k))), branch, log, inf);
    case Mul(fs) =>
      var k := FirstWith(fs, x, 0);
      OthersOmit(fs, x);
      WithoutOmits(acc, Others(fs, k), x);
      PeelOmits(fs[k], x, Canon(WithoutProduct(acc, Others(fs, k))), branch, log, inf);
    case Neg(a) => CanonOmits(Neg(acc), x); PeelOmits(a, x, Canon(Neg(acc)), branch, log, inf);
    case Unary(f, a) =>
      CanonOmits(Pow(acc, Lit(2.0)), x);
      CanonOmits(Unary(Ln, acc), x);
      CanonOmits(Unary(Exp, acc), x);
      if f == Sqrt {
        PeelOmits(a, x, Canon(Pow(acc, Lit(2.0))), branch,
                  Record(log.admission + [Predicate(acc, Ge, Lit(0.0))], Some(Principal)), inf);
      } else if f == Exp {
        PeelOmits(a, x, Canon(Unary(Ln, acc)), branch,
                  Record(log.admission + [Predicate(acc, Gt, Lit(0.0))], Some(Principal)), inf);
      } else if f == Ln {
        PeelOmits(a, x, Canon(Unary(Exp, acc)), branch, log.(taken := Some(Principal)), inf);
      }
    case Pow(b, e) =>
      if e.Lit? {
        var root := Canon(Pow(acc, Lit(RootExponent(e.value, inf))));
        CanonOmits(Pow(acc, Lit(RootExponent(e.value, inf))), x);
        CanonOmits(Neg(root), x);
        PeelOmits(b, x, root, branch, log.(taken := Some(Principal)), inf);
        if branch.Some? {
          PeelOmits(b, x, EvenRoot(acc, e.value, branch.value, inf), branch, log.(taken := branch), inf);
        }
      }
  }

  // ----- powers and roots -----

  lemma {:induction false} NatPowEven(b: real, n: nat)
    ensures NatPow(-b, n) == if n % 2 == 0 then NatPow(b, n) else -NatPow(b, n)
  {
    if n > 0 { NatPowEven(b, n - 1); }
  }

  lemma PowEven(m: Math, b: real, n: real)
    requires IsEven(n)
    ensures PowValue(m, -b, n) == PowValue(m, b, n)
  {
    if n.Floor >= 0 { NatPowEven(b, n.Floor); } else { NatPowEven(b, -n.Floor); }
  }

  lemma ReciprocalNotInteger(n: int)
    requires n <= -2 || n >= 2
    ensures !IsInteger(1.0 / n as real)
  {
    var q := 1.0 / n as real;
    if n >= 2 {
      assert 0.0 < q < 1.0;
    } else {
      assert q == -(1.0 / (-n) as real);
      assert -1.0 < q < 0.0;
    }
  }

  lemma PowOne(m: Math, b: real)
    ensures PowValue(m, b, 1.0) == Some(b) && PowValue(m, b, -1.0) == Reciprocal(b)
  {
    assert NatPow(b, 1) == b * NatPow(b, 0);
  }

  lemma ReciprocalTwice(b: real)
    requires b != 0.0
    ensures Reciprocal(b).Some? && Reciprocal(b).value != 0.0 && Reciprocal(Reciprocal(b).value) == Some(b)
  {
    var q := 1.0 / b;
    var r := 1.0 / q;
    assert q * b == 1.0 && r * q == 1.0;
    assert (r - b) * q == 0.0;
    ProductZero(r - b, q);
  }

  /** Taking the root of a power gives the base back, on the chosen branch. */
  lemma RootUndoesPower(m: Math, b: real, n: real, inf: real)
    requires Laws(m) && IsInteger(n) && n != 0.0 && PowValue(m, b, n).Some? && (b >= 0.0 || n == 1.0 || n == -1.0)
    ensures PowValue(m, PowValue(m, b, n).value, RootExponent(n, inf)) == Some(b)
  {
    PowOne(m, b);
    PowOne(m, PowValue(m, b, n).value);
    if n == -1.0 {
      ReciprocalTwice(b);
      assert RootExponent(n, inf) == -1.0;
    } else if n == 1.0 {
      assert RootExponent(n, inf) == 1.0;
    } else {
      ReciprocalNotInteger(n.Floor);
      assert RootOf(m, PowValue(m, b, n).value, n.Floor);
    }
  }

  /** And the power of a root is the number it was taken of. */
  lemma PowerUndoesRoot(m: Math, c: real, n: real, inf: real)
    requires Laws(m) && IsInteger(n) && n != 0.0 && PowValue(m, c, RootExponent(n, inf)).Some?
    ensures var r := PowValue(m, c, RootExponent(n, inf)).value;
            PowValue(m, r, n) == Some(c) && (r >= 0.0 || n == 1.0 || n == -1.0)
  {
    PowOne(m, c);
    PowOne(m, PowValue(m, c, RootExponent(n, inf)).value);
    if n == -1.0 {
      assert RootExponent(n, inf) == -1.0;
      ReciprocalTwice(c);
    } else if n == 1.0 {
      assert RootExponent(n, inf) == 1.0;
    } else {
      ReciprocalNotInteger(n.Floor);
      assert RootOf(m, c, n.Floor);
    }
  }

  lemma Square(m: Math, v: real)
    ensures PowValue(m, v, 2.0) == Some(v * v)
  {
    assert NatPow(v, 0) == 1.0;
    assert NatPow(v, 1) == v * 1.0;
    assert NatPow(v, 2) == v * NatPow(v, 1);
    var two := 2.0;
    assert two.Floor == 2 && IsInteger(two);
    assert PowValue(m, v, two) == Some(NatPow(v, 2));
    assert NatPow(v, 2) == v * v;
  }

  lemma SqrtOfSquare(m: Math, v: real)
    requires Laws(m) && v >= 0.0
    ensures m.sqrt(v * v) == v
  {
    var s := m.sqrt(v * v);
    assert v * v >= 0.0;
    assert s >= 0.0 && s * s == v * v;
    assert (s - v) * (s + v) == 0.0;
    ProductZero(s - v, s + v);
  }

  lemma ProductZero(x: real, y: real)
    requires x * y == 0.0
    ensures x == 0.0 || y == 0.0
  {
  }

  // ----- the operands beside the path -----

  lemma FoldOthers(m: Math, op: Op, es: seq<Expr>, k: nat, env: Env)
    requires k < |es|
    ensures Fold(m, op, es, env) == Combine(op, Fold(m, op, Others(es, k), env), Val(m, es[k], env))
    ensures AllDefined(m, es, env) <==> AllDefined(m, Others(es, k), env) && Defined(m, es[k], env)
  {
    var p, q := es[..k], es[k + 1..];
    DropAt(es, k);
    hide Fold, Val, Defined, Combine;
    FoldAppend(m, op, p, [es[k]] + q, env);
    FoldAppend(m, op, [es[k]], q, env);
    FoldAppend(m, op, p, q, env);
    FoldOne(m, op, es[k], env);
    var x, y, z := Fold(m, op, p, env), Val(m, es[k], env), Fold(m, op, q, env);
    CombineAssociates(op, x, y, z);
    CombineAssociates(op, y, z, z);
    CombineAssociates(op, x, z, y);
    forall e ensures e in es <==> e in Others(es, k) || e == es[k] {
      assert e in es <==> e in p || e == es[k] || e in q;
    }
  }

  /** Moving the other addends across. */
  lemma SumAcross(m: Math, acc: Expr, others: seq<Expr>, env: Env)
    requires AllDefined(m, others, env) && Defined(m, acc, env)
    ensures var r := Canon(WithoutSum(acc, others));
            Defined(m, r, env) && Val(m, r, env) == Val(m, acc, env) - Fold(m, Sum, others, env)
  {
    NodeValue(m, Sum, Add(others), env);
    var minus := Neg(Add(others));
    assert Defined(m, minus, env) && Val(m, minus, env) == -Fold(m, Sum, others, env);
    PairValue(m, Sum, acc, minus, env);
    CanonMeans(m, WithoutSum(acc, others), env);
  }

  lemma PairValue(m: Math, op: Op, a: Expr, b: Expr, env: Env)
    ensures Defined(m, Node(op, [a, b]), env) <==> Defined(m, a, env) && Defined(m, b, env)
    ensures Defined(m, Node(op, [a, b]), env) ==>
              Val(m, Node(op, [a, b]), env) == Combine(op, Val(m, a, env), Val(m, b, env))
  {
    hide Defined, Val, Fold, Combine;
    NodeValue(m, op, Node(op, [a, b]), env);
    assert [a, b] == [a] + [b];
    FoldAppend(m, op, [a], [b], env);
    FoldOne(m, op, a, env);
    FoldOne(m, op, b, env);
    assert a in [a, b] && b in [a, b];
  }

  /** Dividing by the other factors. */
  lemma ProductAcross(m: Math, acc: Expr, others: seq<Expr>, env: Env)
    requires AllDefined(m, others, env) && Fold(m, Prod, others, env) != 0.0 && Defined(m, acc, env)
    ensures var r := Canon(WithoutProduct(acc, others));
            Defined(m, r, env) && Val(m, r, env) == Val(m, acc, env) * (1.0 / Fold(m, Prod, others, env))
  {
    hide Canon, Defined, Val, Fold;
    var over := Pow(Mul(others), Lit(-1.0));
    DivisorValue(m, others, env);
    PairValue(m, Prod, acc, over, env);
    CanonMeans(m, WithoutProduct(acc, others), env);
  }

  lemma DivisorValue(m: Math, others: seq<Expr>, env: Env)
    requires AllDefined(m, others, env) && Fold(m, Prod, others, env) != 0.0
    ensures var over := Pow(Mul(others), Lit(-1.0));
            Defined(m, over, env) && Val(m, over, env) == 1.0 / Fold(m, Prod, others, env)
  {
    NodeValue(m, Prod, Mul(others), env);
    PowOne(m, Fold(m, Prod, others, env));
  }

  // ----- one step down the path -----

  /** The operand of `node` on the path to the target. */
  function ChildOf(node: Expr, x: string, branch: Option<Branch>): (c: Expr)
    requires CountVar(node, x) == 1 && Peelable(node, x, branch) && !node.Var?
    ensures CountVar(c, x) == 1 && Peelable(c, x, branch) && c < node
  {
    match node
    case Add(ts) => ts[FirstWith(ts, x, 0)]
    case Mul(fs) => fs[FirstWith(fs, x, 0)]
    case Neg(a) => a
    case Unary(_, a) => a
    case Pow(b, _) => b
  }

  /** What the child equals when `node` equals `acc`. */
  function NextOf(node: Expr, x: string, acc: Expr, branch: Option<Branch>, inf: real): Expr
    requires CountVar(node, x) == 1 && Peelable(node, x, branch) && !node.Var?
  {
    match node
    case Add(ts) => Canon(WithoutSum(acc, Others(ts, FirstWith(ts, x, 0))))
    case Mul(fs) => Canon(WithoutProduct(acc, Others(fs, FirstWith(fs, x, 0))))
    case Neg(_) => Canon(Neg(acc))
    case Unary(f, _) => Canon(if f == Sqrt then Pow(acc, Lit(2.0)) else if f == Exp then Unary(Ln, acc)
                              else Unary(Exp, acc))
    case Pow(_, e) =>
      if IsOdd(e.value) then Canon(Pow(acc, Lit(RootExponent(e.value, inf))))
        else EvenRoot(acc, e.value, branch.value, inf)
  }

  function AdmissionOf(node: Expr, acc: Expr): seq<Predicate> {
    if node.Unary? && node.fn == Sqrt then [Predicate(acc, Ge, Lit(0.0))]
    else if node.Unary? && node.fn == Exp then [Predicate(acc, Gt, Lit(0.0))]
    else []
  }

  lemma PeelStep(node: Expr, x: string, acc: Expr, branch: Option<Branch>, log: Record, inf: real)
    returns (next: Record)
    requires CountVar(node, x) == 1 && Peelable(node, x, branch) && !node.Var?
    ensures next.admission == log.admission + AdmissionOf(node, acc)
    ensures Peel(node, x, acc, branch, log, inf) ==
            Peel(ChildOf(node, x, branch), x, NextOf(node, x, acc, branch, inf), branch, next, inf)
  {
    hide Canon;
    var taken := if node.Unary? then Some(Principal)
                 else if node.Pow? then (if IsOdd(node.exponent.value) then Some(Principal) else branch)
                 else log.taken;
    next := Record(log.admission + AdmissionOf(node, acc), taken);
    assert log.admission + [] == log.admission;
  }

  // ----- hypotheses along the path -----

  /** The operands beside the path evaluate, what is divided out is not zero, and no exponent is zero. */
  predicate SiblingsOk(m: Math, node: Expr, x: string, env: Env)
    requires CountVar(node, x) == 1
  {
    match node
    case Add(ts) => AllDefined(m, Others(ts, FirstWith(ts, x, 0)), env)
    case Mul(fs) =>
      var others := Others(fs, FirstWith(fs, x, 0));
      AllDefined(m, others, env) && Fold(m, Prod, others, env) != 0.0
    case Pow(_, e) => e != Lit(0.0)
    case _ => true
  }

  predicate Beside(m: Math, node: Expr, x: string, branch: Option<Branch>, env: Env)
    requires CountVar(node, x) == 1 && Peelable(node, x, branch)
    decreases node
  {
    node.Var? || (SiblingsOk(m, node, x, env) && Beside(m, ChildOf(node, x, branch), x, branch, env))
  }

  /** A powered base lies on the branch whose root is taken: non-negative for an odd root other than of order one,
      and of the declared sign for an even one. */
  predicate SignOk(m: Math, node: Expr, branch: Option<Branch>, env: Env) {
    node.Pow? && node.exponent.Lit? ==>
      var b, n := Val(m, node.base, env), node.exponent.value;
      if IsOdd(n) then b >= 0.0 || n == 1.0 || n == -1.0
      else if branch == Some(Negative) then b <= 0.0 else b >= 0.0
  }

  predicate OnBranch(m: Math, node: Expr, x: string, branch: Option<Branch>, env: Env)
    requires CountVar(node, x) == 1 && Peelable(node, x, branch)
    decreases node
  {
    node.Var? || (SignOk(m, node, branch, env) && OnBranch(m, ChildOf(node, x, branch), x, branch, env))
  }

  predicate Holds(m: Math, p: Predicate, env: Env) {
    Defined(m, p.lhs, env) && Defined(m, p.rhs, env) && p.cmp.Compares(Val(m, p.lhs, env), Val(m, p.rhs, env))
  }

  predicate AllHold(m: Math, ps: seq<Predicate>, env: Env) {
    forall p :: p in ps ==> Holds(m, p, env)
  }

  // ----- the closed form is the target's value -----

  lemma PowDefined(m: Math, b: Expr, n: real, env: Env)
    ensures Defined(m, Pow(b, Lit(n)), env) <==> Defined(m, b, env) && PowValue(m, Val(m, b, env), n).Some?
    ensures Defined(m, Pow(b, Lit(n)), env) ==> Some(Val(m, Pow(b, Lit(n)), env)) == PowValue(m, Val(m, b, env), n)
  {
    assert Eval(m, Lit(n), env) == Ok(n);
  }

  lemma UnaryDefined(m: Math, f: UnaryFn, a: Expr, env: Env)
    ensures Defined(m, Unary(f, a), env) <==> Defined(m, a, env) && UnaryValue(m, f, Val(m, a, env)).Some?
    ensures Defined(m, Unary(f, a), env) ==> Some(Val(m, Unary(f, a), env)) == UnaryValue(m, f, Val(m, a, env))
  {
  }

  lemma NegDefined(m: Math, a: Expr, env: Env)
    ensures Defined(m, Neg(a), env) <==> Defined(m, a, env)
    ensures Defined(m, a, env) ==> Val(m, Neg(a), env) == -Val(m, a, env)
  {
  }

  lemma PowForward(m: Math, node: Expr, x: string, acc: Expr, branch: Option<Branch>, inf: real, env: Env)
    requires Laws(m) && CountVar(node, x) == 1 && Peelable(node, x, branch) && node.Pow?
    requires Defined(m, node, env) && Defined(m, acc, env) && Val(m, acc, env) == Val(m, node, env)
    requires SiblingsOk(m, node, x, env) && SignOk(m, node, branch, env)
    ensures var next := NextOf(node, x, acc, branch, inf);
            Defined(m, node.base, env) && Defined(m, next, env) && Val(m, next, env) == Val(m, node.base, env)
  {
    var b, n := Val(m, node.base, env), node.exponent.value;
    var q := RootExponent(n, inf);
    var raw := Pow(acc, Lit(q));
    assert node == Pow(node.base, Lit(n));
    hide Canon, Defined, Val, PowValue, RootExponent, Laws;
    PowDefined(m, node.base, n, env);
    PowDefined(m, acc, q, env);
    if IsOdd(n) || branch == Some(Positive) {
      RootUndoesPower(m, b, n, inf);
      CanonMeans(m, raw, env);
    } else {
      PowEven(m, b, n);
      RootUndoesPower(m, -b, n, inf);
      CanonMeans(m, raw, env);
      NegDefined(m, Canon(raw), env);
      CanonMeans(m, Neg(Canon(raw)), env);
    }
  }

  lemma SqrtForward(m: Math, a: Expr, acc: Expr, env: Env)
    requires Laws(m) && Defined(m, Unary(Sqrt, a), env) && Defined(m, acc, env) &&
             Val(m, acc, env) == Val(m, Unary(Sqrt, a), env)
    ensures var next := Canon(Pow(acc, Lit(2.0)));
            Defined(m, a, env) && Defined(m, next, env) && Val(m, next, env) == Val(m, a, env)
    ensures Holds(m, Predicate(acc, Ge, Lit(0.0)), env)
  {
    hide Canon, Defined, Val, PowValue;
    UnaryDefined(m, Sqrt, a, env);
    LitValue(m, Lit(0.0), env);
    Square(m, Val(m, acc, env));
    PowDefined(m, acc, 2.0, env);
    CanonMeans(m, Pow(acc, Lit(2.0)), env);
  }

  lemma ExpForward(m: Math, a: Expr, acc: Expr, env: Env)
    requires Laws(m) && Defined(m, Unary(Exp, a), env) && Defined(m, acc, env) &&
             Val(m, acc, env) == Val(m, Unary(Exp, a), env)
    ensures var next := Canon(Unary(Ln, acc));
            Defined(m, a, env) && Defined(m, next, env) && Val(m, next, env) == Val(m, a, env)
    ensures Holds(m, Predicate(acc, Gt, Lit(0.0)), env)
  {
    hide Canon, Defined, Val;
    UnaryDefined(m, Exp, a, env);
    UnaryDefined(m, Ln, acc, env);
    LitValue(m, Lit(0.0), env);
    CanonMeans(m, Unary(Ln, acc), env);
  }

  lemma LnForward(m: Math, a: Expr, acc: Expr, env: Env)
    requires Laws(m) && Defined(m, Unary(Ln, a), env) && Defined(m, acc, env) &&
             Val(m, acc, env) == Val(m, Unary(Ln, a), env)
    ensures var next := Canon(Unary(Exp, acc));
            Defined(m, a, env) && Defined(m, next, env) && Val(m, next, env) == Val(m, a, env)
  {
    hide Canon, Defined, Val;
    UnaryDefined(m, Ln, a, env);
    UnaryDefined(m, Exp, acc, env);
    CanonMeans(m, Unary(Exp, acc), env);
  }

  lemma StepForward(m: Math, node: Expr, x: string, acc: Expr, branch: Option<Branch>, inf: real, env: Env)
    requires Laws(m) && CountVar(node, x) == 1 && Peelable(node, x, branch) && !node.Var?
    requires Defined(m, node, env) && Defined(m, acc, env) && Val(m, acc, env) == Val(m, node, env)
    requires SiblingsOk(m, node, x, env) && SignOk(m, node, branch, env)
    ensures var child, next := ChildOf(node, x, branch), NextOf(node, x, acc, branch, inf);
            Defined(m, child, env) && Defined(m, next, env) && Val(m, next, env) == Val(m, child, env)
    ensures AllHold(m, AdmissionOf(node, acc), env)
  {
    hide Canon, Laws, SignOk, Fold, Eval;
    match node
    case Add(ts) =>
      var k := FirstWith(ts, x, 0);
      NodeValue(m, Sum, node, env);
      FoldOthers(m, Sum, ts, k, env);
      SumAcross(m, acc, Others(ts, k), env);
    case Mul(fs) =>
      var k := FirstWith(fs, x, 0);
      NodeValue(m, Prod, node, env);
      FoldOthers(m, Prod, fs, k, env);
      ProductAcross(m, acc, Others(fs, k), env);
      DivideBack(Fold(m, Prod, Others(fs, k), env), Val(m, fs[k], env));
    case Neg(a) => NegForward(m, a, acc, env);
    case Unary(Sqrt, a) => SqrtForward(m, a, acc, env);
    case Unary(Exp, a) => ExpForward(m, a, acc, env);
    case Unary(Ln, a) => LnForward(m, a, acc, env);
    case Pow(_, _) => PowForward(m, node, x, acc, branch, inf, env);
  }

  lemma NegForward(m: Math, a: Expr, acc: Expr, env: Env)
    requires Defined(m, Neg(a), env) && Defined(m, acc, env) && Val(m, acc, env) == Val(m, Neg(a), env)
    ensures Defined(m, a, env) && Defined(m, Canon(Neg(acc)), env) && Val(m, Canon(Neg(acc)), env) == Val(m, a, env)
  {
    CanonMeans(m, Neg(acc), env);
  }

  lemma DivideBack(d: real, v: real)
    requires d != 0.0
    ensures (d * v) * (1.0 / d) == v && d * (v * (1.0 / d)) == v
  {
    var q := 1.0 / d;
    assert q * d == 1.0;
    assert (d * v) * q == (q * d) * v;
    assert d * (v * q) == (q * d) * v;
  }

  /** Wherever the equation holds, what is divided out is not zero and powered bases lie on the chosen branch, the
      solved form evaluates to the target's value and every recorded admission predicate holds. */
  lemma {:induction false} PeelFinds(m: Math, node: Expr, x: string, acc: Expr, branch: Option<Branch>, log: Record,
                                     inf: real, env: Env)
    requires Laws(m) && CountVar(node, x) == 1 && Peelable(node, x, branch) && x in env
    requires Defined(m, node, env) && Defined(m, acc, env) && Val(m, acc, env) == Val(m, node, env)
    requires Beside(m, node, x, branch, env) && OnBranch(m, node, x, branch, env) && AllHold(m, log.admission, env)
    ensures Peel(node, x, acc, branch, log, inf).Ok?
    ensures var (r, rec) := Peel(node, x, acc, branch, log, inf).value;
            Defined(m, r, env) && Val(m, r, env) == env[x] && AllHold(m, rec.admission, env)
    decreases node
  {
    PeelSucceedsIff(node, x, acc, branch, log, inf);
    if !node.Var? {
      var rec := PeelStep(node, x, acc, branch, log, inf);
      hide Peel, NextOf, Laws, Holds, SiblingsOk, SignOk, Peelable, Defined, Val, CountVar, AdmissionOf;
      StepForward(m, node, x, acc, branch, inf, env);
      PeelFinds(m, ChildOf(node, x, branch), x, NextOf(node, x, acc, branch, inf), branch, rec, inf, env);
    }
  }
}
