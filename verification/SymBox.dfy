/** Deriving a dispatch box from affine predicates, and the variables an equation can be solved for. */
module SymBox {
  import opened Wrappers
  import opened Intervals
  import opened SymExpr
  import opened SymCanon
  import opened SymConfluence
  import opened SymEval
  import opened SymInvert
  import opened SymSolve
  import opened SymRoots
  import Names

  // ----- affine shapes -----

  /** A literal, however often negated. */
  function AsConstant(e: Expr): Option<real> {
    match e
    case Lit(v) => Some(v)
    case Neg(a) => if AsConstant(a).Some? then Some(-AsConstant(a).value) else None
    case _ => None
  }

  /** `coefficient * port + offset` */
  datatype Affine = Affine(coefficient: real, port: string, offset: real)

  function LinearProduct(a: Expr, b: Expr): Option<Affine> {
    if a.Lit? && b.Var? && a.value != 0.0 then Some(Affine(a.value, b.name, 0.0))
    else if a.Var? && b.Lit? && b.value != 0.0 then Some(Affine(b.value, a.name, 0.0))
    else None
  }

  function Offset(t: Option<Affine>, k: real): Option<Affine> {
    if t.Some? then Some(t.value.(offset := t.value.offset + k)) else None
  }

  function LinearSingleVar(e: Expr): Option<Affine> {
    if AsConstant(e).Some? then None
    else
      match e
      case Var(x) => Some(Affine(1.0, x, 0.0))
      case Neg(a) => if a.Var? then Some(Affine(-1.0, a.name, 0.0)) else None
      case Mul(fs) => if |fs| == 2 then LinearProduct(fs[0], fs[1]) else None
      case Add(ts) =>
        if |ts| != 2 then None
        else if AsConstant(ts[0]).Some? then Offset(LinearSingleVar(ts[1]), AsConstant(ts[0]).value)
        else if AsConstant(ts[1]).Some? then Offset(LinearSingleVar(ts[0]), AsConstant(ts[1]).value)
        else None
      case _ => None
  }

  lemma {:induction false} ConstantValue(m: Math, e: Expr, env: Env)
    requires AsConstant(e).Some?
    ensures Defined(m, e, env) && Val(m, e, env) == AsConstant(e).value
    decreases e
  {
    if e.Neg? { ConstantValue(m, e.arg, env); NegDefined(m, e.arg, env); }
  }

  lemma PairOf(es: seq<Expr>)
    requires |es| == 2
    ensures es == [es[0], es[1]]
  {
  }

  /** A recognised shape has the value `c * port + k`, wherever the port has one, and `c` is not zero. */
  lemma {:induction false} LinearValue(m: Math, e: Expr, env: Env)
    requires LinearSingleVar(e).Some?
    ensures var a := LinearSingleVar(e).value;
            && a.coefficient != 0.0 && (Defined(m, e, env) <==> a.port in env)
            && (a.port in env ==> Val(m, e, env) == a.coefficient * env[a.port] + a.offset)
    decreases e
  {
    match e
    case Var(_) =>
    case Neg(a) => NegDefined(m, a, env);
    case Mul(fs) =>
      PairOf(fs);
      PairValue(m, Prod, fs[0], fs[1], env);
    case Add(ts) =>
      PairOf(ts);
      PairValue(m, Sum, ts[0], ts[1], env);
      if AsConstant(ts[0]).Some? {
        ConstantValue(m, ts[0], env);
        LinearValue(m, ts[1], env);
      } else {
        ConstantValue(m, ts[1], env);
        LinearValue(m, ts[0], env);
      }
  }

  // ----- bounds -----

  /** Lower and upper bounds by port. */
  datatype Bounds = Bounds(lower: map<string, real>, upper: map<string, real>)

  /** `env` supplies every bounded port within its bounds. */
  ghost predicate Inside(b: Bounds, env: Env) {
    && (forall p :: p in b.lower ==> p in env && b.lower[p] <= env[p])
    && (forall p :: p in b.upper ==> p in env && env[p] <= b.upper[p])
  }

  function Difference(p: Predicate): Expr {
    Add([p.lhs, Neg(p.rhs)])
  }

  function Mirrored(c: Comparator): Comparator {
    match c
    case Lt => Gt
    case Le => Ge
    case Gt => Lt
    case Ge => Le
  }

  predicate IsUpper(c: Comparator) {
    c == Lt || c == Le
  }

  /** The smaller of `v` and any bound already there. */
  function Capped(bounds: map<string, real>, p: string, v: real): map<string, real> {
    bounds[p := if p in bounds && bounds[p] < v then bounds[p] else v]
  }

  /** The larger of `v` and any bound already there. */
  function Lifted(bounds: map<string, real>, p: string, v: real): map<string, real> {
    bounds[p := if p in bounds && bounds[p] > v then bounds[p] else v]
  }

  /** Where `c * port + k` is zero. */
  function BoundOf(a: Affine): real
    requires a.coefficient != 0.0
  {
    -a.offset / a.coefficient
  }

  /** One affine predicate tightens one side of one port. */
  function Tighten(b: Bounds, a: Affine, cmp: Comparator): Bounds
    requires a.coefficient != 0.0
  {
    var c := if a.coefficient < 0.0 then Mirrored(cmp) else cmp;
    var bound := BoundOf(a);
    if IsUpper(c) then b.(upper := Capped(b.upper, a.port, bound)) else b.(lower := Lifted(b.lower, a.port, bound))
  }

  /** The comparison with equality allowed. */
  function Relaxed(c: Comparator): Comparator {
    if IsUpper(c) then Le else Ge
  }

  lemma MulDivide(c: real, k: real, v: real)
    requires c != 0.0
    ensures c > 0.0 ==> (c * v + k <= 0.0 <==> v <= -k / c)
    ensures c < 0.0 ==> (c * v + k <= 0.0 <==> v >= -k / c)
    ensures c > 0.0 ==> (c * v + k >= 0.0 <==> v >= -k / c)
    ensures c < 0.0 ==> (c * v + k >= 0.0 <==> v <= -k / c)
  {
    var q := -k / c;
    assert c * q == -k;
    assert c * v + k == c * (v - q);
    SignOfProduct(c, v - q);
  }

  lemma SignOfProduct(c: real, d: real)
    requires c != 0.0
    ensures c > 0.0 ==> (c * d <= 0.0 <==> d <= 0.0) && (c * d >= 0.0 <==> d >= 0.0)
    ensures c < 0.0 ==> (c * d <= 0.0 <==> d >= 0.0) && (c * d >= 0.0 <==> d <= 0.0)
  {
  }

  lemma CapMeans(b: Bounds, p: string, v: real, env: Env)
    ensures Inside(b.(upper := Capped(b.upper, p, v)), env) <==> Inside(b, env) && p in env && env[p] <= v
  {
    var t := b.(upper := Capped(b.upper, p, v));
    if Inside(t, env) {
      assert p in t.upper;
      forall q | q in b.upper ensures q in env && env[q] <= b.upper[q] { assert q in t.upper; }
    }
  }

  lemma LiftMeans(b: Bounds, p: string, v: real, env: Env)
    ensures Inside(b.(lower := Lifted(b.lower, p, v)), env) <==> Inside(b, env) && p in env && v <= env[p]
  {
    var t := b.(lower := Lifted(b.lower, p, v));
    if Inside(t, env) {
      assert p in t.lower;
      forall q | q in b.lower ensures q in env && b.lower[q] <= env[q] { assert q in t.lower; }
    }
  }

  lemma TightenMeans(b: Bounds, a: Affine, cmp: Comparator, env: Env)
    requires a.coefficient != 0.0
    ensures Inside(Tighten(b, a, cmp), env) <==>
            Inside(b, env) && a.port in env && Relaxed(cmp).Compares(a.coefficient * env[a.port] + a.offset, 0.0)
  {
    hide Inside, Capped, Lifted;
    var bound := -a.offset / a.coefficient;
    CapMeans(b, a.port, bound, env);
    LiftMeans(b, a.port, bound, env);
    if a.port in env { MulDivide(a.coefficient, a.offset, env[a.port]); }
  }

  /** The predicate with equality allowed, both sides evaluating. */
  ghost predicate HoldsWeakly(m: Math, p: Predicate, env: Env) {
    Defined(m, p.lhs, env) && Defined(m, p.rhs, env) && Relaxed(p.cmp).Compares(Val(m, p.lhs, env), Val(m, p.rhs, env))
  }

  lemma StrictIsWeak(m: Math, p: Predicate, env: Env)
    requires Holds(m, p, env)
    ensures HoldsWeakly(m, p, env)
  {
  }

  function AffineOf(p: Predicate): Option<Affine> {
    LinearSingleVar(Canon(Difference(p)))
  }

  /** An affine predicate says what its bound says; a fault hidden behind a literal zero is the one exception. */
  lemma PredicateMeans(m: Math, p: Predicate, env: Env)
    requires AffineOf(p).Some?
    ensures var a := AffineOf(p).value;
            var bound := a.port in env && Relaxed(p.cmp).Compares(a.coefficient * env[a.port] + a.offset, 0.0);
            && (HoldsWeakly(m, p, env) ==> bound)
            && (bound && CollapsesSafely(m, Difference(p), env) ==> HoldsWeakly(m, p, env))
  {
    hide Defined, Val, Canon, CollapsesSafely, LinearSingleVar;
    CanonPreservesExactly(m, Difference(p), env);
    PairValue(m, Sum, p.lhs, Neg(p.rhs), env);
    NegDefined(m, p.rhs, env);
    LinearValue(m, Canon(Difference(p)), env);
  }

  function Gather(ps: seq<Predicate>, i: nat, b: Bounds): Option<Bounds>
    requires i <= |ps|
    decreases |ps| - i
  {
    if i == |ps| then Some(b)
    else if AffineOf(ps[i]).None? then None
    else
      AffineNonZero(ps[i]);
      Gather(ps, i + 1, Tighten(b, AffineOf(ps[i]).value, ps[i].cmp))
  }

  lemma AffineNonZero(p: Predicate)
    requires AffineOf(p).Some?
    ensures AffineOf(p).value.coefficient != 0.0
  {
    var m := Math(v => 0.0, v => 0.0, v => 0.0, v => None, v => 0.0, (b, x) => None);
    LinearValue(m, Canon(Difference(p)), map[]);
  }

  lemma {:induction false} GatherMeans(m: Math, ps: seq<Predicate>, i: nat, b: Bounds, env: Env)
    requires i <= |ps| && Gather(ps, i, b).Some?
    ensures Inside(b, env) && (forall j :: i <= j < |ps| ==> HoldsWeakly(m, ps[j], env)) ==>
            Inside(Gather(ps, i, b).value, env)
    ensures Inside(Gather(ps, i, b).value, env) ==> Inside(b, env)
    ensures Inside(Gather(ps, i, b).value, env) ==>
              forall j :: i <= j < |ps| && CollapsesSafely(m, Difference(ps[j]), env) ==> HoldsWeakly(m, ps[j], env)
    decreases |ps| - i
  {
    hide HoldsWeakly, Inside, CollapsesSafely, AffineOf, Tighten;
    if i < |ps| {
      AffineNonZero(ps[i]);
      var a := AffineOf(ps[i]).value;
      TightenMeans(b, a, ps[i].cmp, env);
      PredicateMeans(m, ps[i], env);
      GatherMeans(m, ps, i + 1, Tighten(b, a, ps[i].cmp), env);
    }
  }

  // ----- from bounds to a box -----

  function Ports(b: Bounds): set<string> {
    b.lower.Keys + b.upper.Keys
  }

  /** Both bounds of each port in turn; the first port with only one, or with none between, decides the error. */
  function Close(b: Bounds, ports: seq<string>, i: nat,
                 box: map<string, Interval>): Result<map<string, Interval>, SymbolicError>
    requires i <= |ports|
    decreases |ports| - i
  {
    if i == |ports| then Ok(box)
    else
      var p := ports[i];
      if p !in b.lower || p !in b.upper then Err(UnboundablePredicate)
      else if b.lower[p] > b.upper[p] then Err(EmptyDomain(p))
      else Close(b, ports, i + 1, box[p := Interval(b.lower[p], b.upper[p])])
  }

  /** Every port is bounded on both sides, and the box has exactly these bounds. */
  ghost predicate Closed(b: Bounds, box: map<string, Interval>) {
    && box.Keys == b.lower.Keys == b.upper.Keys
    && forall p :: p in box ==> box[p].Valid() && box[p] == Interval(b.lower[p], b.upper[p])
  }

  ghost predicate ClosedUpTo(b: Bounds, ports: seq<string>, i: nat, box: map<string, Interval>)
    requires i <= |ports|
  {
    && box.Keys == (set p | p in ports[..i])
    && forall p :: p in box ==>
                     p in b.lower && p in b.upper && box[p].Valid() && box[p] == Interval(b.lower[p], b.upper[p])
  }

  lemma {:induction false} CloseMeans(b: Bounds, ports: seq<string>, i: nat, box: map<string, Interval>)
    requires i <= |ports| && (forall p :: p in ports <==> p in Ports(b)) && ClosedUpTo(b, ports, i, box)
    ensures match Close(b, ports, i, box)
            case Ok(final) => Closed(b, final)
            case Err(EmptyDomain(p)) => p in b.lower && p in b.upper && b.lower[p] > b.upper[p]
            case Err(UnboundablePredicate) => exists p :: p in Ports(b) && (p !in b.lower || p !in b.upper)
            case Err(_) => false
    decreases |ports| - i
  {
    if i == |ports| {
      assert ports[..i] == ports;
      forall p ensures p in b.lower <==> p in box { assert p in ports <==> p in Ports(b); }
      forall p ensures p in b.upper <==> p in box { assert p in ports <==> p in Ports(b); }
    } else {
      var p := ports[i];
      assert p in ports;
      assert ports[..i + 1] == ports[..i] + [p];
      if p in b.lower && p in b.upper && b.lower[p] <= b.upper[p] {
        CloseMeans(b, ports, i + 1, box[p := Interval(b.lower[p], b.upper[p])]);
      }
    }
  }

  function Declared(declared: map<string, Interval>): Bounds {
    Bounds(map p | p in declared :: declared[p].lo, map p | p in declared :: declared[p].hi)
  }

  function DeriveBox(ps: seq<Predicate>, declared: map<string, Interval>,
                     tags: set<string>): Result<Domain, SymbolicError> {
    match Gather(ps, 0, Declared(declared))
    case None => Err(UnboundablePredicate)
    case Some(b) =>
      var box :- Close(b, Names.Sorted(Ports(b)), 0, map[]);
      Ok(Domain(box, tags))
  }

  method PredicateToBox(ps: seq<Predicate>, declared: map<string, Interval>, tags: set<string>)
    returns (r: Result<Domain, SymbolicError>)
    ensures r == DeriveBox(ps, declared, tags)
  {
    hide Gather, Close;
    var lower, upper :- GatherBounds(ps, declared);
    var box :- CloseBounds(lower, upper);
    r := Ok(Domain(box, tags));
  }

  /** Declared sides first, then one predicate after another. */
  method GatherBounds(ps: seq<Predicate>, declared: map<string, Interval>)
    returns (r: Result<map<string, real>, SymbolicError>, upper: map<string, real>)
    ensures Gather(ps, 0, Declared(declared)) == if r.Ok? then Some(Bounds(r.value, upper)) else None
    ensures r.Err? ==> r.error == UnboundablePredicate
  {
    var lower: map<string, real> := map p | p in declared :: declared[p].lo;
    upper := map p | p in declared :: declared[p].hi;
    for i := 0 to |ps|
      invariant Gather(ps, i, Bounds(lower, upper)) == Gather(ps, 0, Declared(declared))
    {
      hide Capped, Lifted, LinearSingleVar, Canon, BoundOf;
      var diff := Canonicalize(Difference(ps[i]));
      var affine := LinearSingleVar(diff);
      if affine.None? {
        return Err(UnboundablePredicate), upper;
      }
      AffineNonZero(ps[i]);
      var c := affine.value.coefficient;
      var cmp := if c < 0.0 then Mirrored(ps[i].cmp) else ps[i].cmp;
      var bound := BoundOf(affine.value);
      if IsUpper(cmp) {
        upper := Capped(upper, affine.value.port, bound);
      } else {
        lower := Lifted(lower, affine.value.port, bound);
      }
    }
    r := Ok(lower);
  }

  method CloseBounds(lower: map<string, real>, upper: map<string, real>)
    returns (r: Result<map<string, Interval>, SymbolicError>)
    ensures var b := Bounds(lower, upper); r == Close(b, Names.Sorted(Ports(b)), 0, map[])
  {
    ghost var b := Bounds(lower, upper);
    var ports := Names.Sorted(lower.Keys + upper.Keys);
    var box: map<string, Interval> := map[];
    for i := 0 to |ports|
      invariant Close(b, ports, i, box) == Close(b, ports, 0, map[])
    {
      var p := ports[i];
      if p !in lower || p !in upper {
        return Err(UnboundablePredicate);
      }
      if lower[p] > upper[p] {
        return Err(EmptyDomain(p));
      }
      box := box[p := Interval(lower[p], upper[p])];
    }
    r := Ok(box);
  }

  // ----- the derived box is exact -----

  ghost predicate InBox(box: map<string, Interval>, env: Env) {
    forall p :: p in box ==> p in env && box[p].Contains(env[p])
  }

  lemma DeclaredInside(declared: map<string, Interval>, env: Env)
    ensures Inside(Declared(declared), env) <==> InBox(declared, env)
  {
    var b := Declared(declared);
    if Inside(b, env) {
      forall p | p in declared ensures p in env && declared[p].Contains(env[p]) { assert p in b.lower && p in b.upper; }
    }
  }

  lemma ClosedInside(b: Bounds, box: map<string, Interval>, env: Env)
    requires Closed(b, box)
    ensures Inside(b, env) <==> InBox(box, env)
  {
    if Inside(b, env) {
      forall p | p in box ensures p in env && box[p].Contains(env[p]) { assert p in b.lower && p in b.upper; }
    }
    if InBox(box, env) {
      forall p | p in b.lower ensures p in env && b.lower[p] <= env[p] { assert p in box; }
      forall p | p in b.upper ensures p in env && env[p] <= b.upper[p] { assert p in box; }
    }
  }

  ghost predicate AllWeak(m: Math, ps: seq<Predicate>, env: Env) {
    forall i :: 0 <= i < |ps| ==> HoldsWeakly(m, ps[i], env)
  }

  ghost predicate AllHoldAsGiven(m: Math, ps: seq<Predicate>, env: Env) {
    forall i :: 0 <= i < |ps| ==> Holds(m, ps[i], env)
  }

  lemma AsGivenIsWeak(m: Math, ps: seq<Predicate>, env: Env)
    requires AllHoldAsGiven(m, ps, env)
    ensures AllWeak(m, ps, env)
  {
    hide Holds, HoldsWeakly;
    forall i | 0 <= i < |ps| ensures HoldsWeakly(m, ps[i], env) { StrictIsWeak(m, ps[i], env); }
  }

  ghost predicate AllSafe(m: Math, ps: seq<Predicate>, env: Env) {
    forall i :: 0 <= i < |ps| ==> CollapsesSafely(m, Difference(ps[i]), env)
  }

  /** On success every point of the declared box that satisfies all predicates, as given or with equality allowed, is in
      the derived box; and, unless a predicate hides a fault behind a literal zero, the derived box holds no point that
      does not satisfy them with equality allowed. */
  lemma DerivedBoxIsExact(m: Math, ps: seq<Predicate>, declared: map<string, Interval>, tags: set<string>, env: Env)
    requires DeriveBox(ps, declared, tags).Ok?
    ensures var d := DeriveBox(ps, declared, tags).value;
            && d.tags == tags
            && (InBox(declared, env) && AllWeak(m, ps, env) ==> InBox(d.portBox, env))
            && (InBox(declared, env) && AllHoldAsGiven(m, ps, env) ==> InBox(d.portBox, env))
            && (AllSafe(m, ps, env) ==> (InBox(d.portBox, env) <==> InBox(declared, env) && AllWeak(m, ps, env)))
  {
    if AllHoldAsGiven(m, ps, env) { AsGivenIsWeak(m, ps, env); }
    hide Holds, HoldsWeakly, CollapsesSafely, Inside, InBox, Closed, Close, Gather;
    var b := Gather(ps, 0, Declared(declared)).value;
    var ports := Names.Sorted(Ports(b));
    assert ClosedUpTo(b, ports, 0, map[]);
    CloseMeans(b, ports, 0, map[]);
    GatherMeans(m, ps, 0, Declared(declared), env);
    DeclaredInside(declared, env);
    ClosedInside(b, DeriveBox(ps, declared, tags).value.portBox, env);
  }

  /** An empty-domain error is right: no point of the declared box satisfies all predicates. */
  lemma EmptyDomainIsEmpty(m: Math, ps: seq<Predicate>, declared: map<string, Interval>, tags: set<string>, p: string,
                           env: Env)
    requires DeriveBox(ps, declared, tags) == Err(EmptyDomain(p))
    ensures !(InBox(declared, env) && AllWeak(m, ps, env))
  {
    hide HoldsWeakly, CollapsesSafely, InBox, Close, Gather;
    var b := Gather(ps, 0, Declared(declared)).value;
    var ports := Names.Sorted(Ports(b));
    assert ClosedUpTo(b, ports, 0, map[]);
    CloseMeans(b, ports, 0, map[]);
    GatherMeans(m, ps, 0, Declared(declared), env);
    DeclaredInside(declared, env);
  }

  /** No constraint is dropped: a predicate that is not affine in one port always makes the derivation fail. */
  lemma {:induction false} NothingDropped(ps: seq<Predicate>, i: nat, b: Bounds)
    requires i <= |ps|
    ensures Gather(ps, i, b).Some? <==> forall j :: i <= j < |ps| ==> AffineOf(ps[j]).Some?
    decreases |ps| - i
  {
    hide AffineOf, Tighten;
    if i < |ps| && AffineOf(ps[i]).Some? {
      AffineNonZero(ps[i]);
      NothingDropped(ps, i + 1, Tighten(b, AffineOf(ps[i]).value, ps[i].cmp));
    }
  }

  // ----- the variables an equation can be solved for -----

  function CollectVars(e: Expr): set<string>
    decreases e, 1, 0
  {
    match e
    case Var(x) => {x}
    case Lit(_) => {}
    case Neg(a) => CollectVars(a)
    case Unary(_, a) => CollectVars(a)
    case Pow(b, n) => CollectVars(b) + CollectVars(n)
    case Add(ts) => CollectFrom(ts, 0)
    case Mul(fs) => CollectFrom(fs, 0)
  }

  function CollectFrom(es: seq<Expr>, i: nat): set<string>
    requires i <= |es|
    decreases es, 0, |es| - i
  {
    if i == |es| then {} else CollectVars(es[i]) + CollectFrom(es, i + 1)
  }

  lemma {:induction false} CollectedIff(e: Expr, x: string)
    ensures x in CollectVars(e) <==> CountVar(e, x) > 0
    decreases e, 1, 0
  {
    match e
    case Var(_) =>
    case Lit(_) =>
    case Neg(a) => CollectedIff(a, x);
    case Unary(_, a) => CollectedIff(a, x);
    case Pow(b, n) => CollectedIff(b, x); CollectedIff(n, x);
    case Add(ts) => CollectedFromIff(ts, 0, x);
    case Mul(fs) => CollectedFromIff(fs, 0, x);
  }

  lemma {:induction false} CollectedFromIff(es: seq<Expr>, i: nat, x: string)
    requires i <= |es|
    ensures x in CollectFrom(es, i) <==> CountFrom(es, i, x) > 0
    decreases es, 0, |es| - i
  {
    if i < |es| {
      CollectedIff(es[i], x);
      CollectedFromIff(es, i + 1, x);
    }
  }

  function InvertibleTargets(lhs: Expr, rhs: Expr): set<string> {
    set x | x in CollectVars(Zeroed(lhs, rhs)) && CountVar(Zeroed(lhs, rhs), x) == 1
  }

  /** The targets are exactly the variables for which inversion gets past the occurrence gate; each of them is
      solved for when its path is peelable. */
  lemma TargetsAreExact(lhs: Expr, rhs: Expr, x: string, branch: Option<Branch>, inf: real)
    ensures x in InvertibleTargets(lhs, rhs) <==>
            match InvertFor(lhs, rhs, x, branch, inf)
            case Ok(_) => true
            case Err(NonInvertible(_, Absent)) => false
            case Err(NonInvertible(_, MultipleOccurrences(_))) => false
            case Err(_) => true
  {
    var zero := Zeroed(lhs, rhs);
    CollectedIff(zero, x);
    if CountVar(zero, x) == 1 { PeelReasons(zero, x, Lit(0.0), branch, Record([], None), inf); }
  }

  lemma {:induction false} PeelReasons(node: Expr, x: string, acc: Expr, branch: Option<Branch>, log: Record, inf: real)
    requires CountVar(node, x) == 1
    ensures match Peel(node, x, acc, branch, log, inf)
            case Ok(_) => true
            case Err(NonInvertible(_, reason)) => reason.NoInverse?
            case Err(MultiBranch(_, _)) => true
            case Err(_) => false
    decreases node
  {
    hide Canon;
    match node
    case Var(_) =>
    case Add(ts) =>
      var k := FirstWith(ts, x, 0);
      PeelReasons(ts[k], x, Canon(WithoutSum(acc, Others(ts, k))), branch, log, inf);
    case Mul(fs) =>
      var k := FirstWith(fs, x, 0);
      PeelReasons(fs[k], x, Canon(WithoutProduct(acc, Others(fs, k))), branch, log, inf);
    case Neg(a) => PeelReasons(a, x, Canon(Neg(acc)), branch, log, inf);
    case Unary(f, a) =>
      PeelReasons(a, x, Canon(Pow(acc, Lit(2.0))), branch,
                  Record(log.admission + [Predicate(acc, Ge, Lit(0.0))], Some(Principal)), inf);
      PeelReasons(a, x, Canon(Unary(Ln, acc)), branch,
                  Record(log.admission + [Predicate(acc, Gt, Lit(0.0))], Some(Principal)), inf);
      PeelReasons(a, x, Canon(Unary(Exp, acc)), branch, log.(taken := Some(Principal)), inf);
    case Pow(b, e) =>
      if e.Lit? {
        PeelReasons(b, x, Canon(Pow(acc, Lit(RootExponent(e.value, inf)))), branch, log.(taken := Some(Principal)),
                    inf);
        if branch.Some? {
          PeelReasons(b, x, EvenRoot(acc, e.value, branch.value, inf), branch, log.(taken := branch), inf);
        }
      }
  }
}
