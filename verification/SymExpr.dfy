/** Symbolic expressions and their canonical total order. */
module SymExpr {
  import opened Wrappers
  import Names

  datatype UnaryFn = Sqrt | Sin | Cos | Exp | Ln

  datatype Expr =
    | Var(name: string)
    | Lit(value: real)
    | Neg(arg: Expr)
    | Add(terms: seq<Expr>)
    | Mul(factors: seq<Expr>)
    | Pow(base: Expr, exponent: Expr)
    | Unary(fn: UnaryFn, arg: Expr)

  datatype Ordering = Less | Equal | Greater {
    function Flip(): Ordering {
      match this
      case Less => Greater
      case Equal => Equal
      case Greater => Less
    }
  }

  function KindRank(e: Expr): nat {
    match e
    case Lit(_) => 0
    case Var(_) => 1
    case Neg(_) => 2
    case Pow(_, _) => 3
    case Unary(_, _) => 4
    case Add(_) => 5
    case Mul(_) => 6
  }

  function FnRank(f: UnaryFn): nat {
    match f
    case Sqrt => 0
    case Sin => 1
    case Cos => 2
    case Exp => 3
    case Ln => 4
  }

  function CmpInt(a: int, b: int): Ordering {
    if a < b then Less else if a == b then Equal else Greater
  }

  function CmpReal(a: real, b: real): Ordering {
    if a < b then Less else if a == b then Equal else Greater
  }

  function CmpName(a: string, b: string): Ordering {
    if a == b then Equal else if Names.Before(a, b) then Less else Greater
  }

  function Then(first: Ordering, second: Ordering): Ordering {
    if first == Equal then second else first
  }

  /** The order of the canonical form: by kind, then structurally. */
  function Cmp(a: Expr, b: Expr): Ordering
    decreases a, 1, 0
  {
    if KindRank(a) != KindRank(b) then CmpInt(KindRank(a), KindRank(b))
    else
      match a
      case Lit(x) => CmpReal(x, b.value)
      case Var(x) => CmpName(x, b.name)
      case Neg(x) => Cmp(x, b.arg)
      case Unary(f, x) => Then(CmpInt(FnRank(f), FnRank(b.fn)), Cmp(x, b.arg))
      case Pow(x, n) => Then(Cmp(x, b.base), Cmp(n, b.exponent))
      case Add(ts) => CmpFrom(ts, b.terms, 0)
      case Mul(fs) => CmpFrom(fs, b.factors, 0)
  }

  /** Operand by operand from position `i`, then by length. */
  function CmpFrom(a: seq<Expr>, b: seq<Expr>, i: nat): Ordering
    requires i <= |a| && i <= |b|
    decreases a, 0, |a| - i
  {
    if i == |a| || i == |b| then CmpInt(|a|, |b|)
    else Then(Cmp(a[i], b[i]), CmpFrom(a, b, i + 1))
  }

  // ----- the order is total and separates expressions -----

  lemma {:induction false} CmpEqualIff(a: Expr, b: Expr)
    ensures Cmp(a, b) == Equal <==> a == b
    decreases a, 1, 0
  {
    if KindRank(a) == KindRank(b) {
      match a
      case Lit(_) =>
      case Var(_) =>
      case Neg(x) => CmpEqualIff(x, b.arg);
      case Unary(_, x) => CmpEqualIff(x, b.arg);
      case Pow(x, n) => CmpEqualIff(x, b.base); CmpEqualIff(n, b.exponent);
      case Add(ts) => CmpFromEqualIff(ts, b.terms, 0);
      case Mul(fs) => CmpFromEqualIff(fs, b.factors, 0);
    }
  }

  lemma {:induction false} CmpFromEqualIff(a: seq<Expr>, b: seq<Expr>, i: nat)
    requires i <= |a| && i <= |b| && a[..i] == b[..i]
    ensures CmpFrom(a, b, i) == Equal <==> a == b
    decreases a, 0, |a| - i
  {
    if i == |a| || i == |b| {
      if |a| == |b| { assert a == a[..i] && b == b[..i]; }
    } else {
      CmpEqualIff(a[i], b[i]);
      if a[i] == b[i] {
        assert a[..i + 1] == a[..i] + [a[i]] && b[..i + 1] == b[..i] + [b[i]];
        CmpFromEqualIff(a, b, i + 1);
      }
    }
  }

  lemma {:induction false} CmpFlips(a: Expr, b: Expr)
    ensures Cmp(b, a) == Cmp(a, b).Flip()
    decreases a, 1, 0
  {
    if KindRank(a) == KindRank(b) {
      match a
      case Lit(_) =>
      case Var(x) => Names.BeforeTotal(x, b.name); NamesFlip(x, b.name);
      case Neg(x) => CmpFlips(x, b.arg);
      case Unary(_, x) => CmpFlips(x, b.arg);
      case Pow(x, n) => CmpFlips(x, b.base); CmpFlips(n, b.exponent);
      case Add(ts) => CmpFromFlips(ts, b.terms, 0);
      case Mul(fs) => CmpFromFlips(fs, b.factors, 0);
    }
  }

  lemma NamesFlip(a: string, b: string)
    ensures CmpName(b, a) == CmpName(a, b).Flip()
  {
    Names.BeforeTotal(a, b);
    if Names.Before(a, b) && Names.Before(b, a) {
      Names.BeforeTransitive(a, b, a);
      Names.BeforeIrreflexive(a);
    }
  }

  lemma {:induction false} CmpFromFlips(a: seq<Expr>, b: seq<Expr>, i: nat)
    requires i <= |a| && i <= |b|
    ensures CmpFrom(b, a, i) == CmpFrom(a, b, i).Flip()
    decreases a, 0, |a| - i
  {
    if i < |a| && i < |b| {
      CmpFlips(a[i], b[i]);
      CmpFromFlips(a, b, i + 1);
    }
  }

  lemma NamesTransitive(a: string, b: string, c: string)
    requires CmpName(a, b) != Greater && CmpName(b, c) != Greater
    ensures CmpName(a, c) == if CmpName(a, b) == Equal then CmpName(b, c) else Less
  {
    if Names.Before(a, b) && Names.Before(b, c) {
      Names.BeforeTransitive(a, b, c);
      if a == c { Names.BeforeIrreflexive(a); }
    }
  }

  /** Less-or-equal composes, and a strict step makes the whole strict. */
  lemma {:induction false} CmpTransitive(a: Expr, b: Expr, c: Expr)
    requires Cmp(a, b) != Greater && Cmp(b, c) != Greater
    ensures Cmp(a, c) == if Cmp(a, b) == Equal then Cmp(b, c) else Less
    decreases a, 1, 0
  {
    if KindRank(a) == KindRank(b) == KindRank(c) {
      match a
      case Lit(_) =>
      case Var(x) => NamesTransitive(x, b.name, c.name);
      case Neg(x) => CmpTransitive(x, b.arg, c.arg);
      case Unary(f, x) =>
        if FnRank(f) == FnRank(b.fn) == FnRank(c.fn) { CmpTransitive(x, b.arg, c.arg); }
      case Pow(x, n) =>
        CmpTransitive(x, b.base, c.base);
        if Cmp(x, b.base) == Equal && Cmp(b.base, c.base) == Equal { CmpTransitive(n, b.exponent, c.exponent); }
      case Add(ts) => CmpFromTransitive(ts, b.terms, c.terms, 0);
      case Mul(fs) => CmpFromTransitive(fs, b.factors, c.factors, 0);
    }
  }

  lemma {:induction false} CmpFromTransitive(a: seq<Expr>, b: seq<Expr>, c: seq<Expr>, i: nat)
    requires i <= |a| && i <= |b| && i <= |c|
    requires CmpFrom(a, b, i) != Greater && CmpFrom(b, c, i) != Greater
    ensures CmpFrom(a, c, i) == if CmpFrom(a, b, i) == Equal then CmpFrom(b, c, i) else Less
    decreases a, 0, |a| - i
  {
    if i < |a| && i < |b| && i < |c| {
      CmpTransitive(a[i], b[i], c[i]);
      if Cmp(a[i], b[i]) == Equal && Cmp(b[i], c[i]) == Equal { CmpFromTransitive(a, b, c, i + 1); }
    }
  }

  /** A total order that is Equal only on identical trees. */
  lemma CmpIsTotalOrder(a: Expr, b: Expr, c: Expr)
    ensures Cmp(a, b) == Equal <==> a == b
    ensures Cmp(b, a) == Cmp(a, b).Flip()
    ensures Cmp(a, b) == Less && Cmp(b, c) == Less ==> Cmp(a, c) == Less
  {
    CmpEqualIff(a, b);
    CmpFlips(a, b);
    if Cmp(a, b) == Less && Cmp(b, c) == Less { CmpTransitive(a, b, c); }
  }

  // ----- which total order it is -----

  /** `us` comes after `ts`: where they first differ it has the greater operand, or it goes on where `ts` ends. */
  ghost predicate ComesAfter(ts: seq<Expr>, us: seq<Expr>) {
    exists n: nat :: FirstDifference(ts, us, n) && n < |us| && (n < |ts| ==> Cmp(ts[n], us[n]) == Less)
  }

  ghost predicate FirstDifference(ts: seq<Expr>, us: seq<Expr>, n: nat) {
    n <= |ts| && n <= |us| && ts[..n] == us[..n] && (n < |ts| && n < |us| ==> ts[n] != us[n])
  }

  lemma {:induction false} ListsInOrder(ts: seq<Expr>, us: seq<Expr>, i: nat)
    requires i <= |ts| && i <= |us| && ts[..i] == us[..i]
    ensures CmpFrom(ts, us, i) == Less <==> ComesAfter(ts, us)
    decreases |ts| - i
  {
    if i < |ts| && i < |us| && ts[i] == us[i] {
      assert ts[..i + 1] == ts[..i] + [ts[i]] && us[..i + 1] == us[..i] + [us[i]];
      CmpEqualIff(ts[i], us[i]);
      ListsInOrder(ts, us, i + 1);
    } else {
      assert FirstDifference(ts, us, i);
      if i < |ts| && i < |us| { CmpEqualIff(ts[i], us[i]); }
      forall n | FirstDifference(ts, us, n) ensures n == i { OneDifference(ts, us, i, n); }
    }
  }

  lemma OneDifference(ts: seq<Expr>, us: seq<Expr>, i: nat, n: nat)
    requires FirstDifference(ts, us, i) && FirstDifference(ts, us, n)
    ensures i == n
  {
    assert forall q :: 0 <= q < n ==> ts[q] == ts[..n][q] == us[..n][q] == us[q];
    assert forall q :: 0 <= q < i ==> ts[q] == ts[..i][q] == us[..i][q] == us[q];
  }

  /** Kinds come in this order: literals, variables, negations, powers, named functions, sums, products. */
  lemma KindsInOrder(x: real, v: string, a: Expr, b: Expr, n: Expr, f: UnaryFn, c: Expr, ts: seq<Expr>, us: seq<Expr>)
    ensures Cmp(Lit(x), Var(v)) == Cmp(Var(v), Neg(a)) == Cmp(Neg(a), Pow(b, n)) == Less
    ensures Cmp(Pow(b, n), Unary(f, c)) == Cmp(Unary(f, c), Add(ts)) == Cmp(Add(ts), Mul(us)) == Less
  {
  }

  /** Where a function stands among the named functions. */
  predicate FnBefore(f: UnaryFn, g: UnaryFn) {
    match f
    case Sqrt => g != Sqrt
    case Sin => g == Cos || g == Exp || g == Ln
    case Cos => g == Exp || g == Ln
    case Exp => g == Ln
    case Ln => false
  }

  /** What it means for one expression to come before another of its kind. */
  ghost predicate BeforeInKind(a: Expr, b: Expr) {
    match a
    case Lit(x) => b.Lit? && x < b.value
    case Var(x) => b.Var? && Names.Before(x, b.name)
    case Neg(x) => b.Neg? && Cmp(x, b.arg) == Less
    case Unary(f, x) => b.Unary? && (FnBefore(f, b.fn) || (f == b.fn && Cmp(x, b.arg) == Less))
    case Pow(x, n) => b.Pow? && (Cmp(x, b.base) == Less || (x == b.base && Cmp(n, b.exponent) == Less))
    case Add(ts) => b.Add? && ComesAfter(ts, b.terms)
    case Mul(fs) => b.Mul? && ComesAfter(fs, b.factors)
  }

  /** Within a kind: literals by value, variables by name, negations by what is negated, named functions by function and
      then argument, powers by base and then exponent, sums and products operand by operand and then by length. */
  lemma WithinKind(a: Expr, b: Expr)
    requires KindRank(a) == KindRank(b)
    ensures Cmp(a, b) == Less <==> BeforeInKind(a, b)
  {
    match a
    case Lit(_) =>
    case Var(x) => if x == b.name { Names.BeforeIrreflexive(x); }
    case Neg(_) =>
    case Unary(_, _) =>
    case Pow(x, _) => CmpEqualIff(x, b.base);
    case Add(ts) => ListsInOrder(ts, b.terms, 0);
    case Mul(fs) => ListsInOrder(fs, b.factors, 0);
  }

  // ----- occurrences -----

  /** Occurrences of a variable. */
  function CountVar(e: Expr, x: string): nat
    decreases e, 1, 0
  {
    match e
    case Var(name) => if name == x then 1 else 0
    case Lit(_) => 0
    case Neg(a) => CountVar(a, x)
    case Unary(_, a) => CountVar(a, x)
    case Pow(b, n) => CountVar(b, x) + CountVar(n, x)
    case Add(ts) => CountFrom(ts, 0, x)
    case Mul(fs) => CountFrom(fs, 0, x)
  }

  function CountFrom(es: seq<Expr>, i: nat, x: string): nat
    requires i <= |es|
    decreases es, 0, |es| - i
  {
    if i == |es| then 0 else CountVar(es[i], x) + CountFrom(es, i + 1, x)
  }
}
