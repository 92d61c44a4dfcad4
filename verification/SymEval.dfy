/** Numeric evaluation, and the meaning that canonicalising preserves. */
module SymEval {
  import opened Wrappers
  import opened SymExpr
  import opened SymCanon
  import opened SymConfluence

  /** The real functions behind the named nodes; `root` is a power with a non-integer exponent. `None` stands for
      a result that is not finite. */
  datatype Math = Math(sqrt: real -> real, sin: real -> real, cos: real -> real, exp: real -> Option<real>,
                       ln: real -> real, root: (real, real) -> Option<real>)

  type Env = map<string, real>

  datatype EvalError = MissingPort(port: string) | DomainFault

  function NatPow(b: real, n: nat): real {
    if n == 0 then 1.0 else b * NatPow(b, n - 1)
  }

  lemma {:induction false} NatPowZero(b: real, n: nat)
    ensures NatPow(b, n) == 0.0 <==> b == 0.0 && n > 0
  {
    if n > 0 { NatPowZero(b, n - 1); }
  }

  predicate IsInteger(x: real) {
    x == x.Floor as real
  }

  function Reciprocal(x: real): Option<real> {
    if x == 0.0 then None else Some(1.0 / x)
  }

  function PowValue(m: Math, b: real, x: real): Option<real> {
    if !IsInteger(x) then m.root(b, x)
    else if x.Floor >= 0 then Some(NatPow(b, x.Floor))
    else Reciprocal(NatPow(b, -x.Floor))
  }

  function UnaryValue(m: Math, f: UnaryFn, v: real): Option<real> {
    match f
    case Sqrt => if v < 0.0 then None else Some(m.sqrt(v))
    case Sin => Some(m.sin(v))
    case Cos => Some(m.cos(v))
    case Exp => m.exp(v)
    case Ln => if v <= 0.0 then None else Some(m.ln(v))
  }

  function OrFault(v: Option<real>): Result<real, EvalError> {
    if v.None? then Err(DomainFault) else Ok(v.value)
  }

  function Eval(m: Math, e: Expr, env: Env): Result<real, EvalError>
    decreases e, 1, 0
  {
    match e
    case Var(x) => if x in env then Ok(env[x]) else Err(MissingPort(x))
    case Lit(x) => Ok(x)
    case Neg(a) => var v :- Eval(m, a, env); Ok(-v)
    case Unary(f, a) => var v :- Eval(m, a, env); OrFault(UnaryValue(m, f, v))
    case Pow(b, n) => var v :- Eval(m, b, env); var x :- Eval(m, n, env); OrFault(PowValue(m, v, x))
    case Add(ts) => EvalFrom(m, Sum, ts, 0, 0.0, env)
    case Mul(fs) => EvalFrom(m, Prod, fs, 0, 1.0, env)
  }

  /** Left to right from position `i`, stopping at the first fault. */
  function EvalFrom(m: Math, op: Op, es: seq<Expr>, i: nat, acc: real, env: Env): Result<real, EvalError>
    requires i <= |es|
    decreases es, 0, |es| - i
  {
    if i == |es| then Ok(acc)
    else
      var v :- Eval(m, es[i], env);
      EvalFrom(m, op, es, i + 1, Combine(op, acc, v), env)
  }

  method Evaluate(m: Math, e: Expr, env: Env) returns (r: Result<real, EvalError>)
    ensures r == Eval(m, e, env)
    decreases e, 1
  {
    match e {
      case Var(x) =>
        if x !in env {
          return Err(MissingPort(x));
        }
        r := Ok(env[x]);
      case Lit(x) =>
        r := Ok(x);
      case Neg(a) =>
        var v :- Evaluate(m, a, env);
        r := Ok(-v);
      case Unary(f, a) =>
        var v :- Evaluate(m, a, env);
        r := OrFault(UnaryValue(m, f, v));
      case Pow(b, n) =>
        var v :- Evaluate(m, b, env);
        var x :- Evaluate(m, n, env);
        r := OrFault(PowValue(m, v, x));
      case Add(ts) =>
        r := EvaluateAll(m, Sum, ts, env);
      case Mul(fs) =>
        r := EvaluateAll(m, Prod, fs, env);
    }
  }

  method EvaluateAll(m: Math, op: Op, es: seq<Expr>, env: Env) returns (r: Result<real, EvalError>)
    ensures r == EvalFrom(m, op, es, 0, Unit(op), env)
    decreases es, 0
  {
    var acc := Unit(op);
    for i := 0 to |es|
      invariant EvalFrom(m, op, es, i, acc, env) == EvalFrom(m, op, es, 0, Unit(op), env)
    {
      var v :- Evaluate(m, es[i], env);
      acc := Combine(op, acc, v);
    }
    r := Ok(acc);
  }

  // ----- the canonicaliser as it runs -----

  method Canonicalize(e: Expr) returns (r: Expr)
    ensures r == Canon(e)
    decreases e, 1
  {
    match e {
      case Var(_) =>
        r := e;
      case Lit(_) =>
        r := e;
      case Neg(a) =>
        var c := Canonicalize(a);
        r := Neg(c);
      case Unary(f, a) =>
        var c := Canonicalize(a);
        r := Unary(f, c);
      case Pow(b, n) =>
        var c := Canonicalize(b);
        var d := Canonicalize(n);
        r := Pow(c, d);
      case Add(ts) =>
        r := CanonicalizeNode(Sum, ts);
      case Mul(fs) =>
        r := CanonicalizeNode(Prod, fs);
    }
  }

  lemma SpliceNext(op: Op, cs: seq<Expr>, i: nat, flat: seq<Expr>)
    requires i < |cs|
    ensures flat + Splice(op, cs[i..]) == flat + Operands(op, cs[i]) + Splice(op, cs[i + 1..])
  {
    assert cs[i..][0] == cs[i] && cs[i..][1..] == cs[i + 1..];
    hide Operands;
    assert Splice(op, cs[i..]) == Operands(op, cs[i]) + Splice(op, cs[i + 1..]);
  }

  method CanonicalizeNode(op: Op, es: seq<Expr>) returns (r: Expr)
    ensures r == Build(op, Splice(op, CanonAll(es)))
    decreases es, 0
  {
    hide CanonAll, Build, Lits, NonLits;
    var flat: seq<Expr> := [];
    assert CanonAll(es)[0..] == CanonAll(es);
    for i := 0 to |es|
      invariant flat + Splice(op, CanonAll(es)[i..]) == Splice(op, CanonAll(es))
    {
      var c := Canonicalize(es[i]);
      SpliceNext(op, CanonAll(es), i, flat);
      flat := flat + Operands(op, c);
    }
    assert CanonAll(es)[|es|..] == [] && flat + [] == flat;
    r := Assemble(op, flat);
  }

  method Assemble(op: Op, flat: seq<Expr>) returns (r: Expr)
    ensures r == Build(op, flat)
  {
    var lit, nonLits := FoldLiterals(op, flat);
    if op == Prod && lit == 0.0 {
      return Lit(0.0);
    }
    var result := nonLits;
    if lit != Unit(op) {
      result := result + [Lit(lit)];
    }
    assert result == Remaining(op, flat);
    if result == [] {
      return Lit(Unit(op));
    }
    if |result| == 1 {
      return result[0];
    }
    r := Node(op, Sort(result));
  }

  method FoldLiterals(op: Op, flat: seq<Expr>) returns (lit: real, nonLits: seq<Expr>)
    ensures lit == Lits(op, flat) && nonLits == NonLits(flat)
  {
    lit, nonLits := Unit(op), [];
    assert flat[0..] == flat;
    CombineAssociates(op, Unit(op), Lits(op, flat), 0.0);
    for i := 0 to |flat|
      invariant Combine(op, lit, Lits(op, flat[i..])) == Lits(op, flat)
      invariant nonLits + NonLits(flat[i..]) == NonLits(flat)
    {
      hide Combine;
      assert flat[i..][1..] == flat[i + 1..];
      CombineAssociates(op, lit, LitOr(op, flat[i]), Lits(op, flat[i + 1..]));
      if flat[i].Lit? {
        lit := Combine(op, lit, flat[i].value);
      } else {
        CombineAssociates(op, lit, Unit(op), Unit(op));
        nonLits := nonLits + [flat[i]];
      }
    }
  }

  // ----- values -----

  predicate Defined(m: Math, e: Expr, env: Env) {
    Eval(m, e, env).Ok?
  }

  function Val(m: Math, e: Expr, env: Env): real {
    if Defined(m, e, env) then Eval(m, e, env).value else 0.0
  }

  predicate AllDefined(m: Math, es: seq<Expr>, env: Env) {
    forall e :: e in es ==> Defined(m, e, env)
  }

  /** The sum or product of the operands' values. */
  function Fold(m: Math, op: Op, es: seq<Expr>, env: Env): real {
    if es == [] then Unit(op) else Combine(op, Val(m, es[0], env), Fold(m, op, es[1..], env))
  }

  lemma {:induction false} EvalFromFolds(m: Math, op: Op, es: seq<Expr>, i: nat, acc: real, env: Env)
    requires i <= |es|
    ensures EvalFrom(m, op, es, i, acc, env).Ok? <==> AllDefined(m, es[i..], env)
    ensures AllDefined(m, es[i..], env) ==>
              EvalFrom(m, op, es, i, acc, env).value == Combine(op, acc, Fold(m, op, es[i..], env))
    decreases |es| - i
  {
    hide Combine;
    if i == |es| {
      CombineAssociates(op, acc, Unit(op), Unit(op));
    } else {
      assert es[i..] == [es[i]] + es[i + 1..];
      var v := Eval(m, es[i], env);
      assert es[i] in es[i..];
      if v.Ok? {
        EvalFromFolds(m, op, es, i + 1, Combine(op, acc, v.value), env);
        CombineAssociates(op, acc, v.value, Fold(m, op, es[i + 1..], env));
      }
    }
  }

  /** A node is defined exactly when all its operands are, and then its value is their fold. */
  lemma NodeValue(m: Math, op: Op, e: Expr, env: Env)
    requires IsNode(op, e)
    ensures Defined(m, e, env) <==> AllDefined(m, Operands(op, e), env)
    ensures Defined(m, e, env) ==> Val(m, e, env) == Fold(m, op, Operands(op, e), env)
  {
    var es := Operands(op, e);
    EvalFromFolds(m, op, es, 0, Unit(op), env);
    assert es[0..] == es;
    CombineAssociates(op, Unit(op), Fold(m, op, es, env), Unit(op));
    CombineAssociates(op, Fold(m, op, es, env), Unit(op), Unit(op));
  }

  lemma {:induction false} FoldAppend(m: Math, op: Op, a: seq<Expr>, b: seq<Expr>, env: Env)
    ensures Fold(m, op, a + b, env) == Combine(op, Fold(m, op, a, env), Fold(m, op, b, env))
  {
    hide Combine, Val;
    var w := Fold(m, op, b, env);
    if a == [] {
      assert a + b == b;
      CombineAssociates(op, w, Unit(op), Unit(op));
      CombineAssociates(op, Unit(op), w, Unit(op));
    } else {
      FoldAppend(m, op, a[1..], b, env);
      assert (a + b)[1..] == a[1..] + b;
      CombineAssociates(op, Val(m, a[0], env), Fold(m, op, a[1..], env), w);
    }
  }

  lemma FoldOne(m: Math, op: Op, e: Expr, env: Env)
    ensures Fold(m, op, [e], env) == Val(m, e, env)
  {
    assert [e][1..] == [];
    CombineAssociates(op, Val(m, e, env), Unit(op), Unit(op));
  }

  lemma {:induction false} FoldInsert(m: Math, op: Op, e: Expr, es: seq<Expr>, env: Env)
    ensures Fold(m, op, Insert(e, es), env) == Combine(op, Val(m, e, env), Fold(m, op, es, env))
  {
    hide Combine, Val, LessEq;
    if es == [] || LessEq(e, es[0]) {
      assert ([e] + es)[1..] == es;
    } else {
      FoldInsert(m, op, e, es[1..], env);
      assert Insert(e, es)[1..] == Insert(e, es[1..]);
      var x, y, z := Val(m, es[0], env), Val(m, e, env), Fold(m, op, es[1..], env);
      CombineAssociates(op, x, y, z);
      CombineAssociates(op, y, x, z);
    }
  }

  lemma {:induction false} FoldSort(m: Math, op: Op, es: seq<Expr>, env: Env)
    ensures Fold(m, op, Sort(es), env) == Fold(m, op, es, env)
  {
    hide Insert, Combine, Val;
    if es != [] {
      FoldSort(m, op, es[1..], env);
      FoldInsert(m, op, es[0], Sort(es[1..]), env);
    }
  }

  /** Pulling the literals out of a list does not change its fold. */
  lemma {:induction false} FoldSplits(m: Math, op: Op, es: seq<Expr>, env: Env)
    ensures Fold(m, op, es, env) == Combine(op, Fold(m, op, NonLits(es), env), Lits(op, es))
  {
    hide Combine, Val, Defined;
    if es == [] {
      CombineAssociates(op, Unit(op), Unit(op), Unit(op));
    } else {
      FoldSplits(m, op, es[1..], env);
      var x, y := Fold(m, op, NonLits(es[1..]), env), Lits(op, es[1..]);
      CombineAssociates(op, x, y, Unit(op));
      if es[0].Lit? {
        LitValue(m, es[0], env);
        assert NonLits(es) == NonLits(es[1..]);
        CombineAssociates(op, es[0].value, x, y);
        CombineAssociates(op, x, es[0].value, y);
      } else {
        assert NonLits(es)[1..] == NonLits(es[1..]);
        CombineAssociates(op, Val(m, es[0], env), x, y);
        CombineAssociates(op, y, Unit(op), Unit(op));
        CombineAssociates(op, Unit(op), y, Unit(op));
      }
    }
  }

  lemma LitValue(m: Math, e: Expr, env: Env)
    requires e.Lit?
    ensures Defined(m, e, env) && Val(m, e, env) == e.value
  {
  }

  lemma FoldRemaining(m: Math, op: Op, es: seq<Expr>, env: Env)
    ensures Fold(m, op, Remaining(op, es), env) == Fold(m, op, es, env)
  {
    FoldSplits(m, op, es, env);
    hide Combine, Val, NonLits, Lits;
    var l := Lits(op, es);
    var x := Fold(m, op, NonLits(es), env);
    if l != Unit(op) {
      FoldAppend(m, op, NonLits(es), [Lit(l)], env);
      FoldOne(m, op, Lit(l), env);
      LitValue(m, Lit(l), env);
    } else {
      assert Remaining(op, es) == NonLits(es);
      CombineAssociates(op, x, Unit(op), Unit(op));
    }
  }

  lemma {:induction false} FoldSplice(m: Math, op: Op, es: seq<Expr>, env: Env)
    requires AllDefined(m, es, env)
    ensures AllDefined(m, Splice(op, es), env) && Fold(m, op, Splice(op, es), env) == Fold(m, op, es, env)
  {
    hide Val, Combine, Defined;
    if es != [] {
      assert es[0] in es;
      FoldSplice(m, op, es[1..], env);
      FoldAppend(m, op, Operands(op, es[0]), Splice(op, es[1..]), env);
      if IsNode(op, es[0]) { NodeValue(m, op, es[0], env); } else { FoldOne(m, op, es[0], env); }
    }
  }

  lemma {:induction false} SpliceDefinedBack(m: Math, op: Op, es: seq<Expr>, env: Env)
    requires AllDefined(m, Splice(op, es), env)
    ensures AllDefined(m, es, env)
  {
    hide Defined;
    if es != [] {
      SpliceDefinedBack(m, op, es[1..], env);
      assert AllDefined(m, Operands(op, es[0]), env);
      if IsNode(op, es[0]) { NodeValue(m, op, es[0], env); } else { assert es[0] in Operands(op, es[0]); }
    }
  }

  predicate Collapsed(op: Op, es: seq<Expr>) {
    op == Prod && Lits(op, es) == 0.0
  }

  /** A built node that did not collapse is defined exactly when its operands are, and has their value; a collapsed
      one is zero whatever its operands are. */
  lemma BuildValue(m: Math, op: Op, es: seq<Expr>, env: Env)
    ensures !Collapsed(op, es) ==> (Defined(m, Build(op, es), env) <==> AllDefined(m, es, env))
    ensures Collapsed(op, es) ==> Defined(m, Build(op, es), env)
    ensures AllDefined(m, es, env) ==> Val(m, Build(op, es), env) == Fold(m, op, es, env)
  {
    hide Defined, Val, Fold, NonLits, Lits, Sort, Ascends;
    if Collapsed(op, es) {
      CollapsedValue(m, es, env);
    } else {
      var rest := Remaining(op, es);
      RemainingDefined(m, op, es, env);
      FoldRemaining(m, op, es, env);
      SortParts(op, rest);
      FoldSort(m, op, rest, env);
      LitValue(m, Lit(Unit(op)), env);
      if |rest| == 1 {
        assert rest == [rest[0]];
        FoldOne(m, op, rest[0], env);
      } else if |rest| > 1 {
        NodeValue(m, op, Node(op, Sort(rest)), env);
      } else {
        FoldNone(m, op, env);
      }
    }
  }

  lemma FoldNone(m: Math, op: Op, env: Env)
    ensures Fold(m, op, [], env) == Unit(op)
  {
  }

  lemma CollapsedValue(m: Math, es: seq<Expr>, env: Env)
    requires Lits(Prod, es) == 0.0
    ensures Fold(m, Prod, es, env) == 0.0 && Defined(m, Lit(0.0), env) && Val(m, Lit(0.0), env) == 0.0
  {
    FoldSplits(m, Prod, es, env);
  }

  lemma RemainingDefined(m: Math, op: Op, es: seq<Expr>, env: Env)
    ensures AllDefined(m, Remaining(op, es), env) <==> AllDefined(m, es, env)
  {
    hide Defined, Lits, NonLits;
    NonLitMembers(es);
    LitValue(m, Lit(Lits(op, es)), env);
    forall e | e in es && e.Lit? ensures Defined(m, e, env) { LitValue(m, e, env); }
  }

  // ----- canonicalising preserves meaning -----

  lemma {:induction false} CanonAllMeans(m: Math, es: seq<Expr>, env: Env)
    requires forall e :: e in es ==>
                           Defined(m, e, env) && Defined(m, Canon(e), env) && Val(m, Canon(e), env) == Val(m, e, env)
    ensures AllDefined(m, CanonAll(es), env)
    ensures forall op :: Fold(m, op, CanonAll(es), env) == Fold(m, op, es, env)
  {
    hide Canon, CanonAll, Combine, Val, Defined;
    forall c | c in CanonAll(es) ensures Defined(m, c, env) {
      var i :| 0 <= i < |es| && CanonAll(es)[i] == c;
      assert es[i] in es;
    }
    if es != [] {
      assert es[0] in es;
      CanonAllMeans(m, es[1..], env);
      assert CanonAll(es)[1..] == CanonAll(es[1..]);
    }
  }

  /** Whenever the original evaluates, the canonical form evaluates to the same value. */
  lemma {:induction false} CanonMeans(m: Math, e: Expr, env: Env)
    requires Defined(m, e, env)
    ensures Defined(m, Canon(e), env) && Val(m, Canon(e), env) == Val(m, e, env)
    decreases e
  {
    match e
    case Var(_) =>
    case Lit(_) =>
    case Neg(a) => CanonMeans(m, a, env);
    case Unary(_, a) => CanonMeans(m, a, env);
    case Pow(b, n) => CanonMeans(m, b, env); CanonMeans(m, n, env);
    case Add(ts) =>
      NodeValue(m, Sum, e, env);
      forall t | t in ts
        ensures Defined(m, Canon(t), env) && Val(m, Canon(t), env) == Val(m, t, env)
      {
        CanonMeans(m, t, env);
      }
      NodeMeans(m, Sum, e, env);
    case Mul(fs) =>
      NodeValue(m, Prod, e, env);
      forall t | t in fs
        ensures Defined(m, Canon(t), env) && Val(m, Canon(t), env) == Val(m, t, env)
      {
        CanonMeans(m, t, env);
      }
      NodeMeans(m, Prod, e, env);
  }

  lemma NodeMeans(m: Math, op: Op, e: Expr, env: Env)
    requires IsNode(op, e) && Defined(m, e, env)
    requires forall t :: t in Operands(op, e) ==> Defined(m, Canon(t), env) && Val(m, Canon(t), env) == Val(m, t, env)
    ensures Defined(m, Canon(e), env) && Val(m, Canon(e), env) == Val(m, e, env)
  {
    var es := Operands(op, e);
    CanonNode(op, e);
    hide Canon, CanonAll, Val, Defined, Fold, Build, Splice, Operands;
    NodeValue(m, op, e, env);
    CanonAllMeans(m, es, env);
    FoldSplice(m, op, CanonAll(es), env);
    BuildValue(m, op, Splice(op, CanonAll(es)), env);
  }

  // ----- exactly when a fault is lost -----

  /** Every product that collapses to the literal zero has only defined factors. */
  predicate CollapsesSafely(m: Math, e: Expr, env: Env)
    decreases e
  {
    match e
    case Var(_) => true
    case Lit(_) => true
    case Neg(a) => CollapsesSafely(m, a, env)
    case Unary(_, a) => CollapsesSafely(m, a, env)
    case Pow(b, n) => CollapsesSafely(m, b, env) && CollapsesSafely(m, n, env)
    case Add(ts) => forall t :: t in ts ==> CollapsesSafely(m, t, env)
    case Mul(fs) =>
      && (forall f :: f in fs ==> CollapsesSafely(m, f, env))
      && (Lits(Prod, Splice(Prod, CanonAll(fs))) == 0.0 ==> AllDefined(m, fs, env))
  }

  lemma {:induction false} DefinedIsSafe(m: Math, e: Expr, env: Env)
    requires Defined(m, e, env)
    ensures CollapsesSafely(m, e, env)
    decreases e
  {
    match e
    case Var(_) =>
    case Lit(_) =>
    case Neg(a) => DefinedIsSafe(m, a, env);
    case Unary(_, a) => DefinedIsSafe(m, a, env);
    case Pow(b, n) => DefinedIsSafe(m, b, env); DefinedIsSafe(m, n, env);
    case Add(ts) =>
      NodeValue(m, Sum, e, env);
      forall t | t in ts ensures CollapsesSafely(m, t, env) { DefinedIsSafe(m, t, env); }
    case Mul(fs) =>
      NodeValue(m, Prod, e, env);
      forall f | f in fs ensures CollapsesSafely(m, f, env) { DefinedIsSafe(m, f, env); }
  }

  lemma {:induction false} DefinedBack(m: Math, e: Expr, env: Env)
    requires Defined(m, Canon(e), env) && CollapsesSafely(m, e, env)
    ensures Defined(m, e, env)
    decreases e
  {
    match e
    case Var(_) =>
    case Lit(_) =>
    case Neg(a) => DefinedBack(m, a, env);
    case Unary(_, a) => DefinedBack(m, a, env); CanonMeans(m, a, env);
    case Pow(b, n) => DefinedBack(m, b, env); DefinedBack(m, n, env); CanonMeans(m, b, env); CanonMeans(m, n, env);
    case Add(ts) =>
      NodeDefinedBack(m, Sum, e, env);
      forall t | t in ts ensures Defined(m, t, env) { DefinedBack(m, t, env); }
      NodeValue(m, Sum, e, env);
    case Mul(fs) =>
      NodeValue(m, Prod, e, env);
      if Lits(Prod, Splice(Prod, CanonAll(fs))) != 0.0 {
        NodeDefinedBack(m, Prod, e, env);
        forall f | f in fs ensures Defined(m, f, env) { DefinedBack(m, f, env); }
      }
  }

  lemma NodeDefinedBack(m: Math, op: Op, e: Expr, env: Env)
    requires IsNode(op, e) && Defined(m, Canon(e), env)
    requires !Collapsed(op, Splice(op, CanonAll(Operands(op, e))))
    ensures forall t :: t in Operands(op, e) ==> Defined(m, Canon(t), env)
  {
    var es := Operands(op, e);
    CanonNode(op, e);
    hide Canon, CanonAll, Defined, Build, Splice, Operands, Lits;
    BuildValue(m, op, Splice(op, CanonAll(es)), env);
    SpliceDefinedBack(m, op, CanonAll(es), env);
    forall t | t in es ensures Defined(m, Canon(t), env) {
      var i :| 0 <= i < |es| && es[i] == t;
      assert CanonAll(es)[i] in CanonAll(es);
    }
  }

  /** The original evaluates exactly when the canonical form does and no fault was lost in a collapsing product;
      the values then agree. */
  lemma CanonPreservesExactly(m: Math, e: Expr, env: Env)
    ensures Defined(m, e, env) <==> Defined(m, Canon(e), env) && CollapsesSafely(m, e, env)
    ensures Defined(m, e, env) ==> Val(m, Canon(e), env) == Val(m, e, env)
  {
    hide Defined, Canon, CollapsesSafely;
    if Defined(m, e, env) {
      CanonMeans(m, e, env);
      DefinedIsSafe(m, e, env);
    } else if Defined(m, Canon(e), env) && CollapsesSafely(m, e, env) {
      DefinedBack(m, e, env);
    }
  }

  /** The canonical form can evaluate where the original faults. */
  lemma CollapseLosesFault(m: Math)
    ensures var e := Mul([Lit(0.0), Var("x")]);
            Eval(m, e, map[]) == Err(MissingPort("x")) && Eval(m, Canon(e), map[]) == Ok(0.0)
  {
    var e := Mul([Lit(0.0), Var("x")]);
    var cs := CanonAll(e.factors);
    assert cs == e.factors;
    SpliceFlat(Prod, cs);
    assert cs == [Lit(0.0)] + cs[1..];
    assert Lits(Prod, cs) == 0.0 * Lits(Prod, cs[1..]);
    assert EvalFrom(m, Prod, e.factors, 1, Combine(Prod, 1.0, 0.0), map[]) == Err(MissingPort("x"));
  }
}
