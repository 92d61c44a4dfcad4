/** What an inversion answers, read off the path from the equation down to the target. */
module SymPath {
  import opened Wrappers
  import opened SymExpr
  import opened SymCanon
  import opened SymConfluence
  import opened SymEval
  import opened SymInvert

  // ----- the path -----

  /** The nodes from `node` down to the one occurrence of `x`. */
  function PathTo(node: Expr, x: string): (path: seq<Expr>)
    requires CountVar(node, x) == 1
    ensures |path| > 0 && path[0] == node
    decreases node
  {
    match node
    case Var(_) => [node]
    case Add(ts) => [node] + PathTo(ts[FirstWith(ts, x, 0)], x)
    case Mul(fs) => [node] + PathTo(fs[FirstWith(fs, x, 0)], x)
    case Neg(a) => [node] + PathTo(a, x)
    case Unary(_, a) => [node] + PathTo(a, x)
    case Pow(b, n) => [node] + if CountVar(n, x) > 0 then PathTo(n, x) else PathTo(b, x)
  }

  /** `child` is directly below `node`. */
  ghost predicate Below(node: Expr, child: Expr) {
    match node
    case Var(_) => false
    case Lit(_) => false
    case Neg(a) => child == a
    case Unary(_, a) => child == a
    case Pow(b, n) => child == b || child == n
    case Add(ts) => child in ts
    case Mul(fs) => child in fs
  }

  /** The path leads down from the node to the target, one operand at a time, and the target occurs once in each. */
  lemma {:induction false} PathLeadsDown(node: Expr, x: string)
    requires CountVar(node, x) == 1
    ensures var path := PathTo(node, x);
            && path[|path| - 1] == Var(x) && (forall i :: 0 <= i < |path| ==> CountVar(path[i], x) == 1)
            && forall i :: 0 <= i < |path| - 1 ==> Below(path[i], path[i + 1])
    decreases node
  {
    match node
    case Var(_) =>
    case Add(ts) => PathLeadsDown(ts[FirstWith(ts, x, 0)], x);
    case Mul(fs) => PathLeadsDown(fs[FirstWith(fs, x, 0)], x);
    case Neg(a) => PathLeadsDown(a, x);
    case Unary(_, a) => PathLeadsDown(a, x);
    case Pow(b, n) => if CountVar(n, x) > 0 { PathLeadsDown(n, x); } else { PathLeadsDown(b, x); }
  }

  // ----- what stops an inversion -----

  /** The error that a node on the path gives rise to, by the kind of node; most nodes fit none. */
  ghost predicate Stops(node: Expr, x: string, branch: Option<Branch>, e: SymbolicError) {
    match e
    case MultiBranch(v, signs) =>
      v == x && signs == [Positive, Negative] && branch == None && LiteralPower(node) && IsEven(node.exponent.value)
    case NonInvertible(v, NoInverse(Exponent)) => v == x && node.Pow? && CountVar(node.exponent, x) > 0
    case NonInvertible(v, NoInverse(NonLiteralPower)) =>
      v == x && node.Pow? && CountVar(node.exponent, x) == 0 && !node.exponent.Lit?
    case NonInvertible(v, NoInverse(EvenPowerWithoutBranch)) =>
      v == x && branch == Some(Principal) && LiteralPower(node) && IsEven(node.exponent.value)
    case NonInvertible(v, NoInverse(NonIntegerPower)) =>
      v == x && LiteralPower(node) && !IsInteger(node.exponent.value)
    case NonInvertible(v, NoInverse(Periodic(f))) => v == x && node.Unary? && node.fn == f && (f == Sin || f == Cos)
    case _ => false
  }

  predicate LiteralPower(node: Expr) {
    node.Pow? && node.exponent.Lit?
  }

  ghost predicate Obstacle(node: Expr, x: string, branch: Option<Branch>) {
    exists e :: Stops(node, x, branch, e)
  }

  /** `e` is the error of the first obstacle on the path. */
  ghost predicate FirstObstacle(path: seq<Expr>, x: string, branch: Option<Branch>, e: SymbolicError) {
    exists i :: 0 <= i < |path| && Stops(path[i], x, branch, e) && ClearUpTo(path, x, branch, i)
  }

  ghost predicate ClearUpTo(path: seq<Expr>, x: string, branch: Option<Branch>, i: int)
    requires 0 <= i <= |path|
  {
    forall j :: 0 <= j < i ==> !Obstacle(path[j], x, branch)
  }

  // ----- the branch that is reported -----

  predicate Chooses(node: Expr) {
    node.Pow? || node.Unary?
  }

  /** The branch a power or named function stands for: the declared one at an even power, else the principal one. */
  ghost predicate ChosenAt(node: Expr, branch: Option<Branch>, taken: Branch) {
    Chooses(node) &&
    if LiteralPower(node) && IsEven(node.exponent.value) then branch == Some(taken) else taken == Principal
  }

  /** The last power or named function on the path decides; without one the record stays as it was. */
  ghost predicate Reported(path: seq<Expr>, branch: Option<Branch>, before: Option<Branch>, after: Option<Branch>) {
    if forall i :: 0 <= i < |path| ==> !Chooses(path[i]) then after == before
    else
      after.Some? && exists i: nat :: i < |path| && ChosenAt(path[i], branch, after.value) && NoneAfter(path, i)
  }

  ghost predicate NoneAfter(path: seq<Expr>, i: nat) {
    forall j :: i < j < |path| ==> !Chooses(path[j])
  }

  // ----- a path and its tail -----

  lemma ClearHead(node: Expr, rest: seq<Expr>, x: string, branch: Option<Branch>, e: SymbolicError)
    requires !Obstacle(node, x, branch)
    ensures FirstObstacle([node] + rest, x, branch, e) <==> FirstObstacle(rest, x, branch, e)
    ensures ClearUpTo([node] + rest, x, branch, |rest| + 1) <==> ClearUpTo(rest, x, branch, |rest|)
  {
    hide Stops;
    var path := [node] + rest;
    assert forall j :: 0 <= j < |rest| ==> path[j + 1] == rest[j];
    if FirstObstacle(path, x, branch, e) {
      var i :| 0 <= i < |path| && Stops(path[i], x, branch, e) && ClearUpTo(path, x, branch, i);
      assert Stops(rest[i - 1], x, branch, e) && ClearUpTo(rest, x, branch, i - 1);
    }
    if FirstObstacle(rest, x, branch, e) {
      var i :| 0 <= i < |rest| && Stops(rest[i], x, branch, e) && ClearUpTo(rest, x, branch, i);
      assert Stops(path[i + 1], x, branch, e) && ClearUpTo(path, x, branch, i + 1);
    }
    if ClearUpTo(path, x, branch, |path|) {
      forall j | 0 <= j < |rest| ensures !Obstacle(rest[j], x, branch) { assert path[j + 1] == rest[j]; }
    }
  }

  lemma StopsOnce(node: Expr, x: string, branch: Option<Branch>, a: SymbolicError, b: SymbolicError)
    requires Stops(node, x, branch, a) && Stops(node, x, branch, b)
    ensures a == b
  {
  }

  lemma ObstacleHead(node: Expr, rest: seq<Expr>, x: string, branch: Option<Branch>, e: SymbolicError)
    requires Stops(node, x, branch, e)
    ensures forall d :: FirstObstacle([node] + rest, x, branch, d) <==> d == e
  {
    var path := [node] + rest;
    assert ClearUpTo(path, x, branch, 0) && path[0] == node;
    forall d | FirstObstacle(path, x, branch, d) ensures d == e {
      var i :| 0 <= i < |path| && Stops(path[i], x, branch, d) && ClearUpTo(path, x, branch, i);
      StopsOnce(node, x, branch, d, e);
    }
  }

  lemma ReportedHead(node: Expr, rest: seq<Expr>, branch: Option<Branch>, before: Option<Branch>, mid: Option<Branch>,
                     after: Option<Branch>)
    requires Reported(rest, branch, mid, after)
    requires if Chooses(node) then mid.Some? && ChosenAt(node, branch, mid.value) else mid == before
    ensures Reported([node] + rest, branch, before, after)
  {
    var path := [node] + rest;
    assert path[0] == node && forall j :: 0 <= j < |rest| ==> path[j + 1] == rest[j];
    hide ChosenAt, Chooses;
    if forall i :: 0 <= i < |rest| ==> !Chooses(rest[i]) {
      assert NoneAfter(path, 0) by {
        forall j | 0 < j < |path| ensures !Chooses(path[j]) { assert path[j] == rest[j - 1]; }
      }
    } else {
      var i: nat :| i < |rest| && ChosenAt(rest[i], branch, after.value) && NoneAfter(rest, i);
      assert NoneAfter(path, i + 1) by {
        forall j | i + 1 < j < |path| ensures !Chooses(path[j]) { assert path[j] == rest[j - 1]; }
      }
      assert ChosenAt(path[i + 1], branch, after.value);
      var k :| 0 <= k < |rest| && Chooses(rest[k]);
      assert Chooses(path[k + 1]);
    }
  }

  // ----- the peel, read off the path -----

  /** What a peel answers along a path. */
  ghost predicate Answers(path: seq<Expr>, x: string, branch: Option<Branch>, before: Option<Branch>,
                          r: Result<(Expr, Record), SymbolicError>)
  {
    match r
    case Ok((_, log)) => ClearUpTo(path, x, branch, |path|) && Reported(path, branch, before, log.taken)
    case Err(e) => FirstObstacle(path, x, branch, e)
  }

  lemma AnswersHead(node: Expr, rest: seq<Expr>, x: string, branch: Option<Branch>, before: Option<Branch>,
                    mid: Option<Branch>, r: Result<(Expr, Record), SymbolicError>)
    requires Answers(rest, x, branch, mid, r) && !Obstacle(node, x, branch)
    requires if Chooses(node) then mid.Some? && ChosenAt(node, branch, mid.value) else mid == before
    ensures Answers([node] + rest, x, branch, before, r)
  {
    hide Obstacle, Reported, ClearUpTo, FirstObstacle, Chooses, ChosenAt;
    match r
    case Ok((_, log)) =>
      ClearHead(node, rest, x, branch, UnboundablePredicate);
      ReportedHead(node, rest, branch, before, mid, log.taken);
    case Err(e) => ClearHead(node, rest, x, branch, e);
  }

  lemma StoppedHere(node: Expr, rest: seq<Expr>, x: string, branch: Option<Branch>, before: Option<Branch>,
                    e: SymbolicError)
    requires Stops(node, x, branch, e)
    ensures Answers([node] + rest, x, branch, before, Err(e))
  {
    ObstacleHead(node, rest, x, branch, e);
  }

  lemma {:induction false} PeelAnswers(node: Expr, x: string, acc: Expr, branch: Option<Branch>, log: Record, inf: real)
    requires CountVar(node, x) == 1
    ensures Answers(PathTo(node, x), x, branch, log.taken, Peel(node, x, acc, branch, log, inf))
    decreases node, 0
  {
    hide Canon, Answers;
    match node
    case Var(_) => VarAnswers(node, x, acc, branch, log);
    case Add(ts) =>
      var k := FirstWith(ts, x, 0);
      PeelAnswers(ts[k], x, Canon(WithoutSum(acc, Others(ts, k))), branch, log, inf);
      AnswersHead(node, PathTo(ts[k], x), x, branch, log.taken, log.taken, Peel(node, x, acc, branch, log, inf));
    case Mul(fs) =>
      var k := FirstWith(fs, x, 0);
      PeelAnswers(fs[k], x, Canon(WithoutProduct(acc, Others(fs, k))), branch, log, inf);
      AnswersHead(node, PathTo(fs[k], x), x, branch, log.taken, log.taken, Peel(node, x, acc, branch, log, inf));
    case Neg(a) =>
      PeelAnswers(a, x, Canon(Neg(acc)), branch, log, inf);
      AnswersHead(node, PathTo(a, x), x, branch, log.taken, log.taken, Peel(node, x, acc, branch, log, inf));
    case Unary(f, a) => FunctionAnswers(f, a, x, acc, branch, log, inf);
    case Pow(b, n) => PowerAnswers(b, n, x, acc, branch, log, inf);
  }

  lemma VarAnswers(node: Expr, x: string, acc: Expr, branch: Option<Branch>, log: Record)
    requires node.Var?
    ensures Answers([node], x, branch, log.taken, Ok((acc, log)))
  {
  }

  lemma {:induction false} FunctionAnswers(f: UnaryFn, a: Expr, x: string, acc: Expr, branch: Option<Branch>,
                                           log: Record, inf: real)
    requires CountVar(a, x) == 1
    ensures Answers(PathTo(Unary(f, a), x), x, branch, log.taken, Peel(Unary(f, a), x, acc, branch, log, inf))
    decreases a, 1
  {
    hide Canon, Answers;
    var node, rest := Unary(f, a), PathTo(a, x);
    var r := Peel(node, x, acc, branch, log, inf);
    match f
    case Sqrt =>
      PeelAnswers(a, x, Canon(Pow(acc, Lit(2.0))), branch,
                  Record(log.admission + [Predicate(acc, Ge, Lit(0.0))], Some(Principal)), inf);
      AnswersHead(node, rest, x, branch, log.taken, Some(Principal), r);
    case Exp =>
      PeelAnswers(a, x, Canon(Unary(Ln, acc)), branch,
                  Record(log.admission + [Predicate(acc, Gt, Lit(0.0))], Some(Principal)), inf);
      AnswersHead(node, rest, x, branch, log.taken, Some(Principal), r);
    case Ln =>
      PeelAnswers(a, x, Canon(Unary(Exp, acc)), branch, log.(taken := Some(Principal)), inf);
      AnswersHead(node, rest, x, branch, log.taken, Some(Principal), r);
    case _ => StoppedHere(node, rest, x, branch, log.taken, NonInvertible(x, NoInverse(Periodic(f))));
  }

  lemma {:induction false} PowerAnswers(b: Expr, n: Expr, x: string, acc: Expr, branch: Option<Branch>, log: Record,
                                        inf: real)
    requires CountVar(Pow(b, n), x) == 1
    ensures Answers(PathTo(Pow(b, n), x), x, branch, log.taken, Peel(Pow(b, n), x, acc, branch, log, inf))
    decreases b, 1
  {
    hide Canon, Answers;
    var node := Pow(b, n);
    var rest := if CountVar(n, x) > 0 then PathTo(n, x) else PathTo(b, x);
    var r := Peel(node, x, acc, branch, log, inf);
    if r.Err? && Stops(node, x, branch, r.error) {
      StoppedHere(node, rest, x, branch, log.taken, r.error);
    } else if IsOdd(n.value) {
      PeelAnswers(b, x, Canon(Pow(acc, Lit(RootExponent(n.value, inf)))), branch, log.(taken := Some(Principal)), inf);
      AnswersHead(node, rest, x, branch, log.taken, Some(Principal), r);
    } else {
      PeelAnswers(b, x, EvenRoot(acc, n.value, branch.value, inf), branch, log.(taken := branch), inf);
      AnswersHead(node, rest, x, branch, log.taken, branch, r);
    }
  }

  // ----- the inversion, read off the path -----

  lemma ObstacleOnce(path: seq<Expr>, x: string, branch: Option<Branch>, d: SymbolicError, e: SymbolicError)
    requires FirstObstacle(path, x, branch, d) && FirstObstacle(path, x, branch, e)
    ensures d == e
  {
    hide Stops;
    var i :| 0 <= i < |path| && Stops(path[i], x, branch, d) && ClearUpTo(path, x, branch, i);
    var j :| 0 <= j < |path| && Stops(path[j], x, branch, e) && ClearUpTo(path, x, branch, j);
    assert Obstacle(path[i], x, branch) && Obstacle(path[j], x, branch);
    StopsOnce(path[i], x, branch, d, e);
  }

  /** A successful inversion is for the target, in canonical form, past a path without obstacles, on the branch that
      the last power or named function of the path stands for. */
  ghost predicate Inverts(zero: Expr, x: string, branch: Option<Branch>, inv: Inversion) {
    && CountVar(zero, x) == 1 && inv.solvedFor == x && Canonical(inv.rhs)
    && var path := PathTo(zero, x);
       && ClearUpTo(path, x, branch, |path|)
       && exists taken :: Reported(path, branch, None, taken) &&
                          inv.branch == if taken.Some? then taken.value else Principal
  }

  /** An inversion is refused when the target is not in the equation, when it is there more than once, and otherwise
      with the error of the first obstacle on the path to it; and in no other case. */
  lemma InvertAnswers(lhs: Expr, rhs: Expr, x: string, branch: Option<Branch>, inf: real)
    ensures var zero, r := Zeroed(lhs, rhs), InvertFor(lhs, rhs, x, branch, inf);
            && (r.Ok? ==> Inverts(zero, x, branch, r.value))
            && (r == Err(NonInvertible(x, Absent)) <==> CountVar(zero, x) == 0)
            && (forall n :: r == Err(NonInvertible(x, MultipleOccurrences(n))) <==> n == CountVar(zero, x) > 1)
            && (CountVar(zero, x) == 1 ==> forall e :: r == Err(e) <==> FirstObstacle(PathTo(zero, x), x, branch, e))
  {
    var zero, r := Zeroed(lhs, rhs), InvertFor(lhs, rhs, x, branch, inf);
    hide Zeroed, Canon, Canonical, Peel;
    if CountVar(zero, x) == 1 {
      var path := PathTo(zero, x);
      PeelAnswers(zero, x, Lit(0.0), branch, Record([], None), inf);
      match Peel(zero, x, Lit(0.0), branch, Record([], None), inf)
      case Ok((form, log)) =>
        CanonIsCanonical(form);
        forall e ensures !FirstObstacle(path, x, branch, e) { ClearHasNoObstacle(path, x, branch, e); }
      case Err(d) =>
        ObstacleKind(path, x, branch, d);
        forall e | FirstObstacle(path, x, branch, e) ensures e == d { ObstacleOnce(path, x, branch, d, e); }
    }
  }

  lemma ClearHasNoObstacle(path: seq<Expr>, x: string, branch: Option<Branch>, e: SymbolicError)
    requires ClearUpTo(path, x, branch, |path|)
    ensures !FirstObstacle(path, x, branch, e)
  {
    hide Stops;
  }

  /** An obstacle is never mistaken for a wrong number of occurrences. */
  lemma ObstacleKind(path: seq<Expr>, x: string, branch: Option<Branch>, e: SymbolicError)
    requires FirstObstacle(path, x, branch, e)
    ensures e.MultiBranch? || (e.NonInvertible? && e.reason.NoInverse?)
  {
  }
}
