/** The converse: the value of the solved form satisfies the equation. With it, inversion is exact. */
module SymRoots {
  import opened Wrappers
  import opened SymExpr
  import opened SymCanon
  import opened SymConfluence
  import opened SymEval
  import opened SymInvert
  import opened SymSolve

  // ----- canonical pieces lose no fault -----

  lemma TidyProductKeeps(fs: seq<Expr>)
    requires TidyNode(Prod, fs)
    ensures Lits(Prod, fs) != 0.0
  {
    NonLitMembers(fs);
    if |NonLits(fs)| == |fs| { NoneDropped(Prod, fs); } else { OneDropped(Prod, fs); }
  }

  lemma {:induction false} CanonicalSafe(m: Math, e: Expr, env: Env)
    requires Canonical(e)
    ensures CollapsesSafely(m, e, env)
    decreases e
  {
    match e
    case Var(_) =>
    case Lit(_) =>
    case Neg(a) => CanonicalSafe(m, a, env);
    case Unary(_, a) => CanonicalSafe(m, a, env);
    case Pow(b, n) => CanonicalSafe(m, b, env); CanonicalSafe(m, n, env);
    case Add(ts) => forall t | t in ts ensures CollapsesSafely(m, t, env) { CanonicalSafe(m, t, env); }
    case Mul(fs) =>
      forall f | f in fs ensures CollapsesSafely(m, f, env) { CanonicalSafe(m, f, env); }
      CanonAllFixes(fs);
      SpliceFlat(Prod, fs);
      TidyProductKeeps(fs);
  }

  lemma CanonAllFixes(es: seq<Expr>)
    requires forall e :: e in es ==> Canonical(e)
    ensures CanonAll(es) == es
  {
    forall i | 0 <= i < |es| ensures CanonAll(es)[i] == es[i] { CanonFixes(es[i]); }
  }

  lemma SumBack(m: Math, acc: Expr, others: seq<Expr>, env: Env)
    requires Canonical(acc) && (forall e :: e in others ==> Canonical(e)) &&
             Defined(m, Canon(WithoutSum(acc, others)), env)
    ensures Defined(m, acc, env)
  {
    var minus := Neg(Add(others));
    CanonicalSafe(m, acc, env);
    forall e | e in others ensures CollapsesSafely(m, e, env) { CanonicalSafe(m, e, env); }
    assert CollapsesSafely(m, minus, env);
    hide Canon, Defined, CollapsesSafely;
    SafePair(m, acc, minus, env);
    DefinedBack(m, WithoutSum(acc, others), env);
    PairValue(m, Sum, acc, minus, env);
  }

  lemma SafePair(m: Math, a: Expr, b: Expr, env: Env)
    requires CollapsesSafely(m, a, env) && CollapsesSafely(m, b, env)
    ensures CollapsesSafely(m, Add([a, b]), env)
  {
  }

  lemma ProductBack(m: Math, acc: Expr, others: seq<Expr>, env: Env)
    requires Canonical(acc) && AllDefined(m, others, env) && Fold(m, Prod, others, env) != 0.0
    requires Defined(m, Canon(WithoutProduct(acc, others)), env)
    ensures Defined(m, acc, env)
  {
    var over := Pow(Mul(others), Lit(-1.0));
    DivisorValue(m, others, env);
    DefinedIsSafe(m, over, env);
    CanonicalSafe(m, acc, env);
    PairLits(acc, over);
    assert CollapsesSafely(m, WithoutProduct(acc, others), env) by {
      hide Canon, CanonAll, Splice, Lits;
      if Lits(Prod, Splice(Prod, CanonAll([acc, over]))) == 0.0 { LitValue(m, acc, env); }
    }
    DefinedBack(m, WithoutProduct(acc, others), env);
    PairValue(m, Prod, acc, over, env);
  }

  /** A canonical factor beside a power collapses only when it is itself a literal. */
  lemma PairLits(acc: Expr, over: Expr)
    requires Canonical(acc) && over.Pow?
    ensures Lits(Prod, Splice(Prod, CanonAll([acc, over]))) == 0.0 ==> acc.Lit?
  {
    CanonFixes(acc);
    assert [acc, over] == [acc] + [over];
    CanonAllAppend([acc], [over]);
    CanonAllOne(acc);
    CanonAllOne(over);
    var p := Canon(over);
    assert p.Pow?;
    hide Canon, CanonAll, Splice;
    SpliceAppend(Prod, [acc], [p]);
    SpliceOne(Prod, acc);
    SpliceOne(Prod, p);
    LitsAppend(Prod, Operands(Prod, acc), [p]);
    OneOperand(Prod, p);
    if acc.Mul? { TidyProductKeeps(acc.factors); } else { OneOperand(Prod, acc); }
  }

  lemma CanonPow(acc: Expr, q: real)
    requires Canonical(acc)
    ensures Canon(Pow(acc, Lit(q))) == Pow(acc, Lit(q))
  {
    CanonFixes(acc);
  }

  // ----- changing the target's value -----

  lemma {:induction false} FoldIgnores(m: Math, op: Op, es: seq<Expr>, x: string, env: Env, v: real)
    requires Omits(es, x)
    ensures Fold(m, op, es, env[x := v]) == Fold(m, op, es, env)
    ensures AllDefined(m, es, env[x := v]) <==> AllDefined(m, es, env)
  {
    if es != [] {
      EvalIgnores(m, es[0], x, env, v);
      FoldIgnores(m, op, es[1..], x, env, v);
      assert forall e :: e in es <==> e == es[0] || e in es[1..];
    }
  }

  // ----- one step back up the path -----

  lemma NextIsCanonical(node: Expr, x: string, acc: Expr, branch: Option<Branch>, inf: real)
    requires CountVar(node, x) == 1 && Peelable(node, x, branch) && !node.Var?
    requires CountVar(acc, x) == 0
    ensures Canonical(NextOf(node, x, acc, branch, inf)) && CountVar(NextOf(node, x, acc, branch, inf), x) == 0
  {
    hide Canon, Canonical, Peelable;
    match node
    case Add(ts) =>
      OthersOmit(ts, x);
      WithoutOmits(acc, Others(ts, FirstWith(ts, x, 0)), x);
      CanonIsCanonical(WithoutSum(acc, Others(ts, FirstWith(ts, x, 0))));
    case Mul(fs) =>
      OthersOmit(fs, x);
      WithoutOmits(acc, Others(fs, FirstWith(fs, x, 0)), x);
      CanonIsCanonical(WithoutProduct(acc, Others(fs, FirstWith(fs, x, 0))));
    case Neg(_) => CanonClean(Neg(acc), x);
    case Unary(f, _) =>
      CanonClean(if f == Sqrt then Pow(acc, Lit(2.0)) else if f == Exp then Unary(Ln, acc) else Unary(Exp, acc), x);
    case Pow(_, e) =>
      assert Peelable(node, x, branch);
      RootClean(node, x, acc, branch, inf);
  }

  lemma CanonClean(e: Expr, x: string)
    requires CountVar(e, x) == 0
    ensures Canonical(Canon(e)) && CountVar(Canon(e), x) == 0
  {
    CanonIsCanonical(e);
    CanonOmits(e, x);
  }

  lemma RootClean(node: Expr, x: string, acc: Expr, branch: Option<Branch>, inf: real)
    requires CountVar(node, x) == 1 && Peelable(node, x, branch) && node.Pow? && CountVar(acc, x) == 0
    ensures Canonical(NextOf(node, x, acc, branch, inf)) && CountVar(NextOf(node, x, acc, branch, inf), x) == 0
  {
    hide Canon, Canonical;
    var raw := Pow(acc, Lit(RootExponent(node.exponent.value, inf)));
    CanonClean(raw, x);
    CanonClean(Neg(Canon(raw)), x);
  }

  lemma PowBack(m: Math, node: Expr, x: string, acc: Expr, branch: Option<Branch>, inf: real, env: Env, v: real)
    requires Laws(m) && CountVar(node, x) == 1 && Peelable(node, x, branch) && node.Pow? && Canonical(acc)
    requires SiblingsOk(m, node, x, env)
    requires var next := NextOf(node, x, acc, branch, inf);
             && Defined(m, next, env) && Defined(m, node.base, env[x := v])
             && Val(m, next, env) == Val(m, node.base, env[x := v])
    ensures Defined(m, acc, env) && Defined(m, node, env[x := v]) && Val(m, node, env[x := v]) == Val(m, acc, env)
    ensures SignOk(m, node, branch, env[x := v])
  {
    var n := node.exponent.value;
    var q := RootExponent(n, inf);
    var root := Pow(acc, Lit(q));
    CanonPow(acc, q);
    if branch == Some(Negative) && !IsOdd(n) { CanonFixes(Neg(root)); }
    assert node == Pow(node.base, Lit(n));
    hide Canon, Defined, Val, PowValue, RootExponent, Laws, Canonical;
    NegDefined(m, root, env);
    PowDefined(m, acc, q, env);
    PowDefined(m, node.base, n, env[x := v]);
    PowerUndoesRoot(m, Val(m, acc, env), n, inf);
    if branch == Some(Negative) && !IsOdd(n) { PowEven(m, Val(m, root, env), n); }
  }

  lemma SqrtBack(m: Math, a: Expr, acc: Expr, env: Env, env': Env)
    requires Laws(m) && Canonical(acc) && Holds(m, Predicate(acc, Ge, Lit(0.0)), env)
    requires var next := Canon(Pow(acc, Lit(2.0)));
             Defined(m, next, env) && Defined(m, a, env') && Val(m, next, env) == Val(m, a, env')
    ensures Defined(m, acc, env) && Defined(m, Unary(Sqrt, a), env') && Val(m, Unary(Sqrt, a), env') == Val(m, acc, env)
  {
    hide Canon, Defined, Val, PowValue, Laws, Canonical, UnaryValue, Holds;
    CanonPow(acc, 2.0);
    AccNonNegative(m, acc, env);
    PowDefined(m, acc, 2.0, env);
    Square(m, Val(m, acc, env));
    UnaryDefined(m, Sqrt, a, env');
    SqrtValue(m, Val(m, acc, env), Val(m, a, env'));
  }

  lemma AccNonNegative(m: Math, acc: Expr, env: Env)
    requires Holds(m, Predicate(acc, Ge, Lit(0.0)), env)
    ensures Defined(m, acc, env) && Val(m, acc, env) >= 0.0
  {
    LitValue(m, Lit(0.0), env);
  }

  lemma SqrtValue(m: Math, v: real, w: real)
    requires Laws(m) && v >= 0.0 && w == v * v
    ensures UnaryValue(m, Sqrt, w) == Some(v)
  {
    SqrtOfSquare(m, v);
    assert v * v >= 0.0;
  }

  lemma ExpBack(m: Math, a: Expr, acc: Expr, env: Env, env': Env)
    requires Laws(m) && Canonical(acc) && Holds(m, Predicate(acc, Gt, Lit(0.0)), env)
    requires var next := Canon(Unary(Ln, acc));
             Defined(m, next, env) && Defined(m, a, env') && Val(m, next, env) == Val(m, a, env')
    ensures Defined(m, acc, env) && Defined(m, Unary(Exp, a), env') && Val(m, Unary(Exp, a), env') == Val(m, acc, env)
  {
    CanonFixes(acc);
    assert Canon(Unary(Ln, acc)) == Unary(Ln, acc);
    hide Canon, Defined, Val, Canonical;
    UnaryDefined(m, Ln, acc, env);
    LitValue(m, Lit(0.0), env);
    UnaryDefined(m, Exp, a, env');
  }

  lemma LnBack(m: Math, a: Expr, acc: Expr, env: Env, env': Env)
    requires Laws(m) && Canonical(acc)
    requires var next := Canon(Unary(Exp, acc));
             Defined(m, next, env) && Defined(m, a, env') && Val(m, next, env) == Val(m, a, env')
    ensures Defined(m, acc, env) && Defined(m, Unary(Ln, a), env') && Val(m, Unary(Ln, a), env') == Val(m, acc, env)
  {
    CanonFixes(acc);
    assert Canon(Unary(Exp, acc)) == Unary(Exp, acc);
    hide Canon, Defined, Val, Canonical;
    UnaryDefined(m, Exp, acc, env);
    UnaryDefined(m, Ln, a, env');
  }

  lemma NegBack(m: Math, a: Expr, acc: Expr, env: Env, env': Env)
    requires Canonical(acc)
    requires var next := Canon(Neg(acc));
             Defined(m, next, env) && Defined(m, a, env') && Val(m, next, env) == Val(m, a, env')
    ensures Defined(m, acc, env) && Defined(m, Neg(a), env') && Val(m, Neg(a), env') == Val(m, acc, env)
  {
    CanonFixes(acc);
    assert Canon(Neg(acc)) == Neg(acc);
    hide Canon, Defined, Val, Canonical;
    NegDefined(m, acc, env);
    NegDefined(m, a, env');
  }

  lemma NodeBack(m: Math, op: Op, node: Expr, x: string, k: nat, env: Env, v: real)
    requires IsNode(op, node) && k < |Operands(op, node)|
    requires Omits(Others(Operands(op, node), k), x) && AllDefined(m, Others(Operands(op, node), k), env)
    requires Defined(m, Operands(op, node)[k], env[x := v])
    ensures Defined(m, node, env[x := v])
    ensures Val(m, node, env[x := v]) ==
            Combine(op, Fold(m, op, Others(Operands(op, node), k), env), Val(m, Operands(op, node)[k], env[x := v]))
  {
    hide Defined, Val, Fold, Combine;
    FoldIgnores(m, op, Others(Operands(op, node), k), x, env, v);
    NodeValue(m, op, node, env[x := v]);
    FoldOthers(m, op, Operands(op, node), k, env[x := v]);
  }

  lemma CanonicalParts(op: Op, node: Expr, k: nat)
    requires IsNode(op, node) && Canonical(node) && k < |Operands(op, node)|
    ensures forall e :: e in Others(Operands(op, node), k) ==> Canonical(e)
    ensures Canonical(Operands(op, node)[k])
  {
  }

  lemma StepBack(m: Math, node: Expr, x: string, acc: Expr, branch: Option<Branch>, inf: real, env: Env, v: real)
    requires Laws(m) && CountVar(node, x) == 1 && Peelable(node, x, branch) && !node.Var?
    requires Canonical(node) && Canonical(acc) && SiblingsOk(m, node, x, env) && AllHold(m, AdmissionOf(node, acc), env)
    requires var child, next := ChildOf(node, x, branch), NextOf(node, x, acc, branch, inf);
             Defined(m, next, env) && Defined(m, child, env[x := v]) && Val(m, next, env) == Val(m, child, env[x := v])
    ensures Defined(m, acc, env) && Defined(m, node, env[x := v]) && Val(m, node, env[x := v]) == Val(m, acc, env)
    ensures SignOk(m, node, branch, env[x := v])
  {
    hide Canon, Laws, Canonical, Fold, Eval, Holds;
    match node
    case Add(ts) =>
      var k := FirstWith(ts, x, 0);
      OthersOmit(ts, x);
      CanonicalParts(Sum, node, k);
      SumBack(m, acc, Others(ts, k), env);
      SumAcross(m, acc, Others(ts, k), env);
      NodeBack(m, Sum, node, x, k, env, v);
    case Mul(fs) =>
      var k := FirstWith(fs, x, 0);
      OthersOmit(fs, x);
      ProductBack(m, acc, Others(fs, k), env);
      ProductAcross(m, acc, Others(fs, k), env);
      NodeBack(m, Prod, node, x, k, env, v);
      DivideBack(Fold(m, Prod, Others(fs, k), env), Val(m, acc, env));
    case Neg(a) => NegBack(m, a, acc, env, env[x := v]);
    case Unary(Sqrt, a) => SqrtBack(m, a, acc, env, env[x := v]);
    case Unary(Exp, a) => ExpBack(m, a, acc, env, env[x := v]);
    case Unary(Ln, a) => LnBack(m, a, acc, env, env[x := v]);
    case Pow(_, _) => PowBack(m, node, x, acc, branch, inf, env, v);
  }

  lemma {:induction false} PeelExtends(node: Expr, x: string, acc: Expr, branch: Option<Branch>, log: Record, inf: real)
    requires CountVar(node, x) == 1 && Peelable(node, x, branch)
    ensures Peel(node, x, acc, branch, log, inf).Ok?
    ensures log.admission <= Peel(node, x, acc, branch, log, inf).value.1.admission
    decreases node
  {
    PeelSucceedsIff(node, x, acc, branch, log, inf);
    if !node.Var? {
      var rec := PeelStep(node, x, acc, branch, log, inf);
      hide Peel, NextOf, Peelable, CountVar, AdmissionOf;
      PeelExtends(ChildOf(node, x, branch), x, NextOf(node, x, acc, branch, inf), branch, rec, inf);
    }
  }

  lemma PrefixHolds(m: Math, ps: seq<Predicate>, qs: seq<Predicate>, more: seq<Predicate>, env: Env)
    requires ps + more <= qs && AllHold(m, qs, env)
    ensures AllHold(m, more, env)
  {
    hide Holds;
    forall p | p in more ensures Holds(m, p, env) {
      var i :| 0 <= i < |more| && more[i] == p;
      assert (ps + more)[|ps| + i] == p && qs[|ps| + i] == p;
    }
  }

  lemma CanonicalChild(node: Expr, x: string, branch: Option<Branch>)
    requires CountVar(node, x) == 1 && Peelable(node, x, branch) && !node.Var? && Canonical(node)
    ensures Canonical(ChildOf(node, x, branch))
  {
    if node.Add? { CanonicalParts(Sum, node, FirstWith(node.terms, x, 0)); }
    if node.Mul? { CanonicalParts(Prod, node, FirstWith(node.factors, x, 0)); }
  }

  /** Wherever the solved form evaluates and the admission predicates hold, giving the target that value makes the
      peeled expression equal to what it was set equal to, on the chosen branch. */
  lemma {:induction false} PeelSolves(m: Math, node: Expr, x: string, acc: Expr, branch: Option<Branch>, log: Record,
                                      inf: real, env: Env)
    requires Laws(m) && CountVar(node, x) == 1 && Peelable(node, x, branch)
    requires Canonical(node) && Canonical(acc) && CountVar(acc, x) == 0 && Beside(m, node, x, branch, env)
    requires Peel(node, x, acc, branch, log, inf).Ok?
    requires var (r, rec) := Peel(node, x, acc, branch, log, inf).value;
             Defined(m, r, env) && AllHold(m, rec.admission, env)
    ensures var env' := env[x := Val(m, Peel(node, x, acc, branch, log, inf).value.0, env)];
            && Defined(m, acc, env) && Defined(m, node, env') && Val(m, node, env') == Val(m, acc, env)
            && OnBranch(m, node, x, branch, env')
    decreases node
  {
    if !node.Var? {
      var next := PeelStep(node, x, acc, branch, log, inf);
      var child, target := ChildOf(node, x, branch), NextOf(node, x, acc, branch, inf);
      hide Peel, NextOf, Laws, Holds, SiblingsOk, SignOk, Peelable, Defined, Val, CountVar, AdmissionOf, Canonical,
        AllHold;
      NextIsCanonical(node, x, acc, branch, inf);
      CanonicalChild(node, x, branch);
      PeelExtends(child, x, target, branch, next, inf);
      var (r, rec) := Peel(child, x, target, branch, next, inf).value;
      PrefixHolds(m, log.admission, rec.admission, AdmissionOf(node, acc), env);
      PeelSolves(m, child, x, target, branch, next, inf, env);
      StepBack(m, node, x, acc, branch, inf, env, Val(m, r, env));
    }
  }

  // ----- inversion is exact -----

  /** Both sides evaluate, to the same value. */
  predicate Satisfies(m: Math, lhs: Expr, rhs: Expr, env: Env) {
    Defined(m, lhs, env) && Defined(m, rhs, env) && Val(m, lhs, env) == Val(m, rhs, env)
  }

  lemma ZeroedMeans(m: Math, lhs: Expr, rhs: Expr, env: Env)
    requires CollapsesSafely(m, Add([lhs, Neg(rhs)]), env)
    ensures Satisfies(m, lhs, rhs, env) <==> Defined(m, Zeroed(lhs, rhs), env) && Val(m, Zeroed(lhs, rhs), env) == 0.0
  {
    hide Defined, Val, Canon, CollapsesSafely;
    CanonPreservesExactly(m, Add([lhs, Neg(rhs)]), env);
    PairValue(m, Sum, lhs, Neg(rhs), env);
    NegDefined(m, rhs, env);
  }

  /** An inversion that succeeds has canonical form, does not mention the target, and is the peel's result. */
  lemma InversionOfPeel(lhs: Expr, rhs: Expr, x: string, branch: Option<Branch>, inf: real)
    requires InvertFor(lhs, rhs, x, branch, inf).Ok?
    ensures var zero := Zeroed(lhs, rhs);
            && CountVar(zero, x) == 1 && Peelable(zero, x, branch) && Canonical(zero)
            && Peel(zero, x, Lit(0.0), branch, Record([], None), inf).Ok?
            && var inv, (r, rec) := InvertFor(lhs, rhs, x, branch, inf).value,
                                    Peel(zero, x, Lit(0.0), branch, Record([], None), inf).value;
               inv.rhs == r && inv.admission == rec.admission && CountVar(inv.rhs, x) == 0
  {
    var zero := Zeroed(lhs, rhs);
    InvertSucceedsIff(lhs, rhs, x, branch, inf);
    CanonIsCanonical(Add([lhs, Neg(rhs)]));
    assert Canonical(zero);
    hide Zeroed, Peel, Canon, Canonical, Peelable;
    PeelSucceedsIff(zero, x, Lit(0.0), branch, Record([], None), inf);
    PeelOmits(zero, x, Lit(0.0), branch, Record([], None), inf);
    LitCanonical(0.0);
    PeelCanonical(zero, x, Lit(0.0), branch, Record([], None), inf);
    CanonFixes(Peel(zero, x, Lit(0.0), branch, Record([], None), inf).value.0);
  }

  lemma LitCanonical(v: real)
    ensures Canonical(Lit(v))
  {
  }

  lemma {:induction false} PeelCanonical(node: Expr, x: string, acc: Expr, branch: Option<Branch>, log: Record,
                                         inf: real)
    requires CountVar(node, x) == 1 && Peelable(node, x, branch) && Canonical(acc) && CountVar(acc, x) == 0
    ensures Peel(node, x, acc, branch, log, inf).Ok? && Canonical(Peel(node, x, acc, branch, log, inf).value.0)
    decreases node
  {
    PeelSucceedsIff(node, x, acc, branch, log, inf);
    if !node.Var? {
      var rec := PeelStep(node, x, acc, branch, log, inf);
      hide Peel, NextOf, Peelable, CountVar, AdmissionOf, Canonical;
      NextIsCanonical(node, x, acc, branch, inf);
      PeelCanonical(ChildOf(node, x, branch), x, NextOf(node, x, acc, branch, inf), branch, rec, inf);
    }
  }

  /** Inversion is exact. Provided the operands beside the path evaluate, nothing divided out is zero, no exponent on
      the path is zero and no product of the equation hides a fault behind a literal zero: the equation holds with
      powered bases on the chosen branch if and only if the target has the value of the solved form and every
      admission predicate holds. */
  lemma InvertIsExact(m: Math, lhs: Expr, rhs: Expr, x: string, branch: Option<Branch>, inf: real, env: Env)
    requires Laws(m) && x in env && InvertFor(lhs, rhs, x, branch, inf).Ok?
    ensures var zero, inv := Zeroed(lhs, rhs), InvertFor(lhs, rhs, x, branch, inf).value;
            && CountVar(zero, x) == 1 && Peelable(zero, x, branch) && CountVar(inv.rhs, x) == 0
            && (Beside(m, zero, x, branch, env) && CollapsesSafely(m, Add([lhs, Neg(rhs)]), env) ==>
                  (Satisfies(m, lhs, rhs, env) && OnBranch(m, zero, x, branch, env) <==>
                   Eval(m, inv.rhs, env) == Ok(env[x]) && AllHold(m, inv.admission, env)))
  {
    InversionOfPeel(lhs, rhs, x, branch, inf);
    var zero, inv := Zeroed(lhs, rhs), InvertFor(lhs, rhs, x, branch, inf).value;
    hide Laws, Zeroed, Peel, Canon, Canonical, Peelable, OnBranch, Beside, InvertFor, CollapsesSafely, AllHold,
      Satisfies, CountVar;
    if Beside(m, zero, x, branch, env) && CollapsesSafely(m, Add([lhs, Neg(rhs)]), env) {
      ZeroedMeans(m, lhs, rhs, env);
      LitValue(m, Lit(0.0), env);
      NoPredicates(m, env);
      if Satisfies(m, lhs, rhs, env) && OnBranch(m, zero, x, branch, env) {
        PeelFinds(m, zero, x, Lit(0.0), branch, Record([], None), inf, env);
      }
      if Eval(m, inv.rhs, env) == Ok(env[x]) && AllHold(m, inv.admission, env) {
        LitCanonical(0.0);
        LitOmits(0.0, x);
        PeelSolves(m, zero, x, Lit(0.0), branch, Record([], None), inf, env);
        assert env[x := env[x]] == env;
      }
    }
  }

  lemma NoPredicates(m: Math, env: Env)
    ensures AllHold(m, [], env)
  {
  }

  lemma LitOmits(v: real, x: string)
    ensures CountVar(Lit(v), x) == 0
  {
  }
}
