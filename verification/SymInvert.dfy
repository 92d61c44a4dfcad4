/** Closed-form inversion: peeling one occurrence of a variable out of an equation. */
module SymInvert {
  import opened Wrappers
  import opened SymExpr
  import opened SymCanon
  import opened SymConfluence
  import opened SymEval

  datatype Comparator = Lt | Le | Gt | Ge {
    predicate Compares(x: real, y: real) {
      match this
      case Lt => x < y
      case Le => x <= y
      case Gt => x > y
      case Ge => x >= y
    }
  }

  datatype Predicate = Predicate(lhs: Expr, cmp: Comparator, rhs: Expr)

  datatype Branch = Principal | Positive | Negative

  datatype Context = Exponent | NonLiteralPower | EvenPowerWithoutBranch | NonIntegerPower | Periodic(fn: UnaryFn)

  datatype Reason = Absent | MultipleOccurrences(count: nat) | NoInverse(context: Context)

  datatype SymbolicError =
    | NonInvertible(variable: string, reason: Reason)
    | MultiBranch(variable: string, branches: seq<Branch>)
    | UnboundablePredicate
    | EmptyDomain(port: string)

  /** What a peel has recorded: admission predicates and the last branch taken. */
  datatype Record = Record(admission: seq<Predicate>, taken: Option<Branch>)

  datatype Inversion = Inversion(solvedFor: string, rhs: Expr, branch: Branch, admission: seq<Predicate>)

  // ----- the path to the target -----

  /** First operand that mentions `x`. */
  function FirstWith(es: seq<Expr>, x: string, i: nat): (k: nat)
    requires i <= |es| && CountFrom(es, i, x) > 0
    ensures i <= k < |es| && CountVar(es[k], x) > 0 && CountVar(es[k], x) <= CountFrom(es, i, x)
    ensures CountFrom(es, i, x) == 1 ==> CountVar(es[k], x) == 1
    decreases |es| - i
  {
    if CountVar(es[i], x) > 0 then i else FirstWith(es, x, i + 1)
  }

  function Others(es: seq<Expr>, k: nat): seq<Expr>
    requires k < |es|
  {
    es[..k] + es[k + 1..]
  }

  lemma {:induction false} CountSplit(es: seq<Expr>, i: nat, x: string)
    requires i <= |es| && CountFrom(es, i, x) == 0
    ensures forall j :: i <= j < |es| ==> CountVar(es[j], x) == 0
    decreases |es| - i
  {
    if i < |es| { CountSplit(es, i + 1, x); }
  }

  lemma {:induction false} OthersOmitFrom(es: seq<Expr>, i: nat, x: string)
    requires i <= |es| && CountFrom(es, i, x) == 1
    ensures forall j :: i <= j < |es| && j != FirstWith(es, x, i) ==> CountVar(es[j], x) == 0
    decreases |es| - i
  {
    if CountVar(es[i], x) > 0 { CountSplit(es, i + 1, x); } else { OthersOmitFrom(es, i + 1, x); }
  }

  /** With a single occurrence, the operands beside the path do not mention the target. */
  lemma OthersOmit(es: seq<Expr>, x: string)
    requires CountFrom(es, 0, x) == 1
    ensures forall e :: e in Others(es, FirstWith(es, x, 0)) ==> CountVar(e, x) == 0
  {
    OthersOmitFrom(es, 0, x);
  }

  function WithoutSum(acc: Expr, others: seq<Expr>): Expr {
    Add([acc, Neg(Add(others))])
  }

  function WithoutProduct(acc: Expr, others: seq<Expr>): Expr {
    Mul([acc, Pow(Mul(others), Lit(-1.0))])
  }

  /** `1 / n`, with `inf` standing for the infinity that `1 / 0` gives. */
  function RootExponent(n: real, inf: real): real {
    if n == 0.0 then inf else 1.0 / n
  }

  predicate IsOdd(n: real) {
    IsInteger(n) && n.Floor % 2 == 1
  }

  predicate IsEven(n: real) {
    IsInteger(n) && n.Floor % 2 == 0
  }

  /** Undoes the operations from `node` down to the target; `acc` is what `node` equals. */
  function Peel(node: Expr, x: string, acc: Expr, branch: Option<Branch>, log: Record, inf: real):
    Result<(Expr, Record), SymbolicError>
    requires CountVar(node, x) == 1
    decreases node
  {
    match node
    case Var(_) => Ok((acc, log))
    case Add(ts) =>
      var k := FirstWith(ts, x, 0);
      Peel(ts[k], x, Canon(WithoutSum(acc, Others(ts, k))), branch, log, inf)
    case Mul(fs) =>
      var k := FirstWith(fs, x, 0);
      Peel(fs[k], x, Canon(WithoutProduct(acc, Others(fs, k))), branch, log, inf)
    case Neg(a) => Peel(a, x, Canon(Neg(acc)), branch, log, inf)
    case Unary(Sqrt, a) =>
      Peel(a, x, Canon(Pow(acc, Lit(2.0))), branch,
           Record(log.admission + [Predicate(acc, Ge, Lit(0.0))], Some(Principal)), inf)
    case Unary(Exp, a) =>
      Peel(a, x, Canon(Unary(Ln, acc)), branch,
           Record(log.admission + [Predicate(acc, Gt, Lit(0.0))], Some(Principal)), inf)
    case Unary(Ln, a) => Peel(a, x, Canon(Unary(Exp, acc)), branch, log.(taken := Some(Principal)), inf)
    case Unary(f, _) => Err(NonInvertible(x, NoInverse(Periodic(f))))
    case Pow(b, e) =>
      if CountVar(e, x) > 0 then Err(NonInvertible(x, NoInverse(Exponent)))
      else if !e.Lit? then Err(NonInvertible(x, NoInverse(NonLiteralPower)))
      else if IsOdd(e.value) then
        Peel(b, x, Canon(Pow(acc, Lit(RootExponent(e.value, inf)))), branch, log.(taken := Some(Principal)), inf)
      else if IsEven(e.value) then
        if branch == None then Err(MultiBranch(x, [Positive, Negative]))
        else if branch == Some(Principal) then Err(NonInvertible(x, NoInverse(EvenPowerWithoutBranch)))
        else
          Peel(b, x, EvenRoot(acc, e.value, branch.value, inf), branch, log.(taken := branch), inf)
      else Err(NonInvertible(x, NoInverse(NonIntegerPower)))
  }

  function EvenRoot(acc: Expr, n: real, branch: Branch, inf: real): Expr {
    var root := Canon(Pow(acc, Lit(RootExponent(n, inf))));
    if branch == Negative then Canon(Neg(root)) else root
  }

  /** The equation as an expression that is zero. */
  function Zeroed(lhs: Expr, rhs: Expr): Expr {
    Canon(Add([lhs, Neg(rhs)]))
  }

  function InvertFor(lhs: Expr, rhs: Expr, x: string, branch: Option<Branch>,
                     inf: real): Result<Inversion, SymbolicError> {
    var zero := Zeroed(lhs, rhs);
    var count := CountVar(zero, x);
    if count == 0 then Err(NonInvertible(x, Absent))
    else if count > 1 then Err(NonInvertible(x, MultipleOccurrences(count)))
    else
      var (r, log) :- Peel(zero, x, Lit(0.0), branch, Record([], None), inf);
      Ok(Inversion(x, Canon(r), if log.taken.Some? then log.taken.value else Principal, log.admission))
  }

  // ----- the code, with its mutable record -----

  class PeelLog {
    var admission: seq<Predicate>
    var taken: Option<Branch>

    constructor ()
      ensures Snap() == Record([], None)
    {
      admission, taken := [], None;
    }

    function Snap(): Record
      reads this
    {
      Record(admission, taken)
    }
  }

  /** The peel as it runs: `log` is updated in place; after an error its content is of no use. */
  method PeelInto(node: Expr, x: string, acc: Expr, branch: Option<Branch>, log: PeelLog, inf: real)
    returns (r: Result<Expr, SymbolicError>)
    requires CountVar(node, x) == 1
    modifies log
    ensures var spec := Peel(node, x, acc, branch, old(log.Snap()), inf);
            match r
            case Ok(e) => spec == Ok((e, log.Snap()))
            case Err(error) => spec == Err(error)
    decreases node
  {
    match node {
      case Var(_) =>
        r := Ok(acc);
      case Add(ts) =>
        var k := Position(ts, x);
        var next := Canonicalize(WithoutSum(acc, Others(ts, k)));
        r := PeelInto(ts[k], x, next, branch, log, inf);
      case Mul(fs) =>
        var k := Position(fs, x);
        var next := Canonicalize(WithoutProduct(acc, Others(fs, k)));
        r := PeelInto(fs[k], x, next, branch, log, inf);
      case Neg(a) =>
        var next := Canonicalize(Neg(acc));
        r := PeelInto(a, x, next, branch, log, inf);
      case Unary(f, a) =>
        if f == Sin || f == Cos {
          return Err(NonInvertible(x, NoInverse(Periodic(f))));
        }
        if f == Sqrt {
          log.admission := log.admission + [Predicate(acc, Ge, Lit(0.0))];
        } else if f == Exp {
          log.admission := log.admission + [Predicate(acc, Gt, Lit(0.0))];
        }
        log.taken := Some(Principal);
        var inverse := if f == Sqrt then Pow(acc, Lit(2.0)) else if f == Exp then Unary(Ln, acc) else Unary(Exp, acc);
        var next := Canonicalize(inverse);
        r := PeelInto(a, x, next, branch, log, inf);
      case Pow(b, e) =>
        if CountVar(e, x) > 0 {
          return Err(NonInvertible(x, NoInverse(Exponent)));
        }
        if !e.Lit? {
          return Err(NonInvertible(x, NoInverse(NonLiteralPower)));
        }
        if !IsOdd(e.value) && !IsEven(e.value) {
          return Err(NonInvertible(x, NoInverse(NonIntegerPower)));
        }
        if IsEven(e.value) && branch == None {
          return Err(MultiBranch(x, [Positive, Negative]));
        }
        if IsEven(e.value) && branch == Some(Principal) {
          return Err(NonInvertible(x, NoInverse(EvenPowerWithoutBranch)));
        }
        log.taken := if IsOdd(e.value) then Some(Principal) else branch;
        var next := Canonicalize(Pow(acc, Lit(RootExponent(e.value, inf))));
        if IsEven(e.value) && branch == Some(Negative) {
          next := Canonicalize(Neg(next));
        }
        r := PeelInto(b, x, next, branch, log, inf);
    }
  }

  method Position(es: seq<Expr>, x: string) returns (k: nat)
    requires CountFrom(es, 0, x) > 0
    ensures k == FirstWith(es, x, 0)
  {
    k := 0;
    while CountVar(es[k], x) == 0
      invariant k < |es| && CountFrom(es, k, x) > 0 && FirstWith(es, x, k) == FirstWith(es, x, 0)
      decreases |es| - k
    {
      k := k + 1;
    }
  }

  method Invert(lhs: Expr, rhs: Expr, x: string, branch: Option<Branch>, inf: real)
    returns (r: Result<Inversion, SymbolicError>)
    ensures r == InvertFor(lhs, rhs, x, branch, inf)
  {
    hide Peel;
    var zero := Canonicalize(Add([lhs, Neg(rhs)]));
    var count := CountVar(zero, x);
    if count == 0 {
      return Err(NonInvertible(x, Absent));
    }
    if count > 1 {
      return Err(NonInvertible(x, MultipleOccurrences(count)));
    }
    var log := new PeelLog();
    var solved :- PeelInto(zero, x, Lit(0.0), branch, log, inf);
    var form := Canonicalize(solved);
    r := Ok(Inversion(x, form, if log.taken.Some? then log.taken.value else Principal, log.admission));
  }

  // ----- when it succeeds -----

  /** Along the path: no sine or cosine, and only integer literal powers, the even ones with a declared sign. */
  predicate Peelable(node: Expr, x: string, branch: Option<Branch>)
    requires CountVar(node, x) == 1
    decreases node
  {
    match node
    case Var(_) => true
    case Add(ts) => Peelable(ts[FirstWith(ts, x, 0)], x, branch)
    case Mul(fs) => Peelable(fs[FirstWith(fs, x, 0)], x, branch)
    case Neg(a) => Peelable(a, x, branch)
    case Unary(f, a) => f != Sin && f != Cos && Peelable(a, x, branch)
    case Pow(b, e) =>
      && CountVar(e, x) == 0 && e.Lit? && IsInteger(e.value)
      && (IsEven(e.value) ==> branch == Some(Positive) || branch == Some(Negative))
      && Peelable(b, x, branch)
  }

  lemma {:induction false} PeelSucceedsIff(node: Expr, x: string, acc: Expr, branch: Option<Branch>, log: Record,
                                           inf: real)
    requires CountVar(node, x) == 1
    ensures Peel(node, x, acc, branch, log, inf).Ok? <==> Peelable(node, x, branch)
    decreases node
  {
    hide Canon;
    match node
    case Var(_) =>
    case Add(ts) =>
      var k := FirstWith(ts, x, 0);
      PeelSucceedsIff(ts[k], x, Canon(WithoutSum(acc, Others(ts, k))), branch, log, inf);
    case Mul(fs) =>
      var k := FirstWith(fs, x, 0);
      PeelSucceedsIff(fs[k], x, Canon(WithoutProduct(acc, Others(fs, k))), branch, log, inf);
    case Neg(a) => PeelSucceedsIff(a, x, Canon(Neg(acc)), branch, log, inf);
    case Unary(f, a) =>
      PeelSucceedsIff(a, x, Canon(Pow(acc, Lit(2.0))), branch,
                      Record(log.admission + [Predicate(acc, Ge, Lit(0.0))], Some(Principal)), inf);
      PeelSucceedsIff(a, x, Canon(Unary(Ln, acc)), branch,
                      Record(log.admission + [Predicate(acc, Gt, Lit(0.0))], Some(Principal)), inf);
      PeelSucceedsIff(a, x, Canon(Unary(Exp, acc)), branch, log.(taken := Some(Principal)), inf);
    case Pow(b, e) =>
      if e.Lit? {
        PeelSucceedsIff(b, x, Canon(Pow(acc, Lit(RootExponent(e.value, inf)))), branch, log.(taken := Some(Principal)),
                        inf);
        if branch.Some? {
          PeelSucceedsIff(b, x, EvenRoot(acc, e.value, branch.value, inf), branch, log.(taken := branch), inf);
        }
      }
  }

  /** Inversion succeeds exactly when the target occurs once in the zeroed equation, on a peelable path. */
  lemma InvertSucceedsIff(lhs: Expr, rhs: Expr, x: string, branch: Option<Branch>, inf: real)
    ensures InvertFor(lhs, rhs, x, branch, inf).Ok? <==>
            CountVar(Zeroed(lhs, rhs), x) == 1 && Peelable(Zeroed(lhs, rhs), x, branch)
  {
    hide Peel, Peelable, Zeroed, Canon;
    var zero := Zeroed(lhs, rhs);
    if CountVar(zero, x) == 1 { PeelSucceedsIff(zero, x, Lit(0.0), branch, Record([], None), inf); }
  }
}
