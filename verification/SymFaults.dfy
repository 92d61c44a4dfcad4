/** When an expression has no value, and which fault is then reported. */
module SymFaults {
  import opened Wrappers
  import opened SymExpr
  import opened SymCanon
  import opened SymEval
  import SymPrint

  /** The first of the operands without a value is the one at `k`. */
  ghost predicate FirstFaulty(m: Math, es: seq<Expr>, env: Env, k: nat) {
    k < |es| && !Defined(m, es[k], env) && forall j :: 0 <= j < k ==> Defined(m, es[j], env)
  }

  /** The operation itself has no value at the values of its operands. */
  ghost predicate OutOfDomain(m: Math, e: Expr, env: Env) {
    match e
    case Var(_) => false
    case Lit(_) => false
    case Neg(_) => false
    case Add(_) => false
    case Mul(_) => false
    case Unary(Sqrt, a) => Val(m, a, env) < 0.0
    case Unary(Ln, a) => Val(m, a, env) <= 0.0
    case Unary(Exp, a) => m.exp(Val(m, a, env)) == None
    case Unary(_, _) => false
    case Pow(b, n) =>
      var v, x := Val(m, b, env), Val(m, n, env);
      if IsInteger(x) then x < 0.0 && v == 0.0 else m.root(v, x) == None
  }

  lemma {:induction false} NatPowZero(b: real, n: nat)
    requires n > 0
    ensures NatPow(b, n) == 0.0 <==> b == 0.0
  {
    if n > 1 {
      NatPowZero(b, n - 1);
      NoZeroDivisors(b, NatPow(b, n - 1));
    } else {
      assert NatPow(b, 1) == b * NatPow(b, 0);
    }
  }

  lemma NoZeroDivisors(x: real, y: real)
    ensures x * y == 0.0 <==> x == 0.0 || y == 0.0
  {
    if x != 0.0 && x * y == 0.0 { assert y == (x * y) / x; }
  }

  lemma PowFaultsIff(m: Math, b: real, x: real)
    ensures PowValue(m, b, x) == None <==> if IsInteger(x) then x < 0.0 && b == 0.0 else m.root(b, x) == None
  {
    if IsInteger(x) && x < 0.0 { NatPowZero(b, -x.Floor); }
  }

  lemma {:induction false} FoldFaults(m: Math, op: Op, es: seq<Expr>, i: nat, acc: real, env: Env)
    requires i <= |es| && forall j :: 0 <= j < i ==> Defined(m, es[j], env)
    ensures match EvalFrom(m, op, es, i, acc, env)
            case Ok(_) => AllDefined(m, es, env)
            case Err(f) => exists k: nat :: FirstFaulty(m, es, env, k) && Eval(m, es[k], env) == Err(f)
    decreases |es| - i
  {
    hide Eval, Combine;
    if i < |es| {
      if Defined(m, es[i], env) {
        FoldFaults(m, op, es, i + 1, Combine(op, acc, Val(m, es[i], env)), env);
      } else {
        assert FirstFaulty(m, es, env, i);
      }
    }
  }

  /** A port has no value exactly when it is not supplied, and is then reported as missing; a literal always has one. */
  lemma LeafFaults(m: Math, e: Expr, env: Env)
    requires SymPrint.IsLeaf(e)
    ensures Eval(m, e, env).Err? <==> e.Var? && e.name !in env
    ensures Eval(m, e, env).Err? ==> Eval(m, e, env) == Err(MissingPort(e.name))
  {
  }

  /** An operation reports the fault of its first operand without a value; when all have one, it has none itself exactly
      when it is out of its domain, and reports that. */
  lemma EvalFaults(m: Math, e: Expr, env: Env)
    requires !SymPrint.IsLeaf(e)
    ensures var cs := SymPrint.Children(e);
            && (forall k: nat :: FirstFaulty(m, cs, env, k) ==> Eval(m, e, env) == Eval(m, cs[k], env))
            && (AllDefined(m, cs, env) ==>
                  (Eval(m, e, env).Err? <==> OutOfDomain(m, e, env)) &&
                  (Eval(m, e, env).Err? ==> Eval(m, e, env) == Err(DomainFault)))
  {
    hide Eval, EvalFrom, UnaryValue, PowValue;
    assert forall k :: 0 <= k < |SymPrint.Children(e)| ==> SymPrint.Children(e)[k] in SymPrint.Children(e);
    match e
    case Neg(a) => NegFaults(m, a, env);
    case Unary(f, a) => FnFaults(m, f, a, env);
    case Pow(b, n) =>
      assert SymPrint.Children(e)[0] == b && SymPrint.Children(e)[1] == n;
      PowFaults(m, b, n, env);
    case Add(ts) => NodeFolds(m, ts, env); NodeFaults(m, Sum, ts, env);
    case Mul(fs) => NodeFolds(m, fs, env); NodeFaults(m, Prod, fs, env);
  }

  lemma NegFaults(m: Math, a: Expr, env: Env)
    ensures !Defined(m, a, env) ==> Eval(m, Neg(a), env) == Eval(m, a, env)
    ensures Defined(m, a, env) ==> Eval(m, Neg(a), env).Ok?
  {
  }

  lemma FnFaults(m: Math, f: UnaryFn, a: Expr, env: Env)
    ensures !Defined(m, a, env) ==> Eval(m, Unary(f, a), env) == Eval(m, a, env)
    ensures Defined(m, a, env) ==>
              (Eval(m, Unary(f, a), env).Err? <==> OutOfDomain(m, Unary(f, a), env)) &&
              (Eval(m, Unary(f, a), env).Err? ==> Eval(m, Unary(f, a), env) == Err(DomainFault))
  {
    match f
    case Sqrt =>
    case Sin =>
    case Cos =>
    case Exp =>
    case Ln =>
  }

  lemma NodeFolds(m: Math, ts: seq<Expr>, env: Env)
    ensures Eval(m, Add(ts), env) == EvalFrom(m, Sum, ts, 0, Unit(Sum), env)
    ensures Eval(m, Mul(ts), env) == EvalFrom(m, Prod, ts, 0, Unit(Prod), env)
  {
  }

  lemma PowFaults(m: Math, b: Expr, n: Expr, env: Env)
    ensures !Defined(m, b, env) ==> Eval(m, Pow(b, n), env) == Eval(m, b, env)
    ensures Defined(m, b, env) && !Defined(m, n, env) ==> Eval(m, Pow(b, n), env) == Eval(m, n, env)
    ensures Defined(m, b, env) && Defined(m, n, env) ==>
              (Eval(m, Pow(b, n), env).Err? <==> OutOfDomain(m, Pow(b, n), env)) &&
              (Eval(m, Pow(b, n), env).Err? ==> Eval(m, Pow(b, n), env) == Err(DomainFault))
  {
    PowFaultsIff(m, Val(m, b, env), Val(m, n, env));
    hide PowValue;
  }

  lemma NodeFaults(m: Math, op: Op, es: seq<Expr>, env: Env)
    ensures var r := EvalFrom(m, op, es, 0, Unit(op), env);
            && (forall k: nat :: FirstFaulty(m, es, env, k) ==> r == Eval(m, es[k], env))
            && (AllDefined(m, es, env) ==> r.Ok?)
  {
    FoldFaults(m, op, es, 0, Unit(op), env);
    hide Eval, EvalFrom;
  }
}
