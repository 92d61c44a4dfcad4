/** When a dispatch box can be derived, told by the sides that the declared box and the predicates give each port. */
module SymSides {
  import opened Wrappers
  import opened Intervals
  import opened SymExpr
  import opened SymCanon
  import opened SymConfluence
  import opened SymInvert
  import opened SymBox
  import Names

  // ----- the shapes that count as affine -----

  /** A literal under any number of negations, with value `k`. */
  ghost predicate IsConstant(e: Expr, k: real) {
    e == Lit(k) || (e.Neg? && IsConstant(e.arg, -k))
  }

  /** A port, its negation, or its product with a literal that is not zero. */
  ghost predicate IsTerm(e: Expr, c: real, x: string) {
    || (e == Var(x) && c == 1.0) || (e == Neg(Var(x)) && c == -1.0)
    || (c != 0.0 && (e == Mul([Lit(c), Var(x)]) || e == Mul([Var(x), Lit(c)])))
  }

  /** A term, or a term and a constant in either order. */
  ghost predicate IsAffine(e: Expr, a: Affine) {
    || (IsTerm(e, a.coefficient, a.port) && a.offset == 0.0)
    || exists t, k ::
         (e == Add([k, t]) || e == Add([t, k])) && IsTerm(t, a.coefficient, a.port) && IsConstant(k, a.offset)
  }

  lemma {:induction false} ConstantIff(e: Expr, k: real)
    ensures AsConstant(e) == Some(k) <==> IsConstant(e, k)
    decreases e
  {
    if e.Neg? { ConstantIff(e.arg, -k); }
  }

  lemma TermIff(e: Expr, a: Affine)
    requires !e.Add?
    ensures LinearSingleVar(e) == Some(a) <==> IsTerm(e, a.coefficient, a.port) && a.offset == 0.0
  {
    if e.Neg? && e.arg.Var? { assert AsConstant(e) == None; }
    if e.Mul? && |e.factors| == 2 { PairOf(e.factors); }
  }

  /** In canonical form, exactly these shapes are recognised. */
  lemma RecognisedIff(e: Expr, a: Affine)
    requires Canonical(e)
    ensures LinearSingleVar(e) == Some(a) <==> IsAffine(e, a)
  {
    if e.Add? {
      if |e.terms| == 2 {
        PairOf(e.terms);
        assert e.terms[0] in e.terms && e.terms[1] in e.terms;
        PairRecognisedIff(e.terms[0], e.terms[1], a);
      }
    } else {
      TermIff(e, a);
    }
  }

  lemma PairRecognisedIff(u: Expr, w: Expr, a: Affine)
    requires !u.Add? && !w.Add?
    ensures LinearSingleVar(Add([u, w])) == Some(a) <==> IsAffine(Add([u, w]), a)
  {
    PairIsAffineIff(u, w, a);
    PairIsRecognised(u, w, a);
    hide IsAffine, IsConstant, IsTerm, LinearSingleVar, AsConstant;
    ConstantIff(u, a.offset);
    ConstantIff(w, a.offset);
    TermIff(u, a.(offset := 0.0));
    TermIff(w, a.(offset := 0.0));
  }

  lemma PairIsAffineIff(u: Expr, w: Expr, a: Affine)
    ensures IsAffine(Add([u, w]), a) <==>
            || (IsConstant(u, a.offset) && IsTerm(w, a.coefficient, a.port))
            || (IsConstant(w, a.offset) && IsTerm(u, a.coefficient, a.port))
  {
    if IsAffine(Add([u, w]), a) {
      var t, k :| (Add([u, w]) == Add([k, t]) || Add([u, w]) == Add([t, k])) && IsTerm(t, a.coefficient, a.port) &&
                  IsConstant(k, a.offset);
      assert [u, w][0] == u && [u, w][1] == w && [k, t][0] == k && [k, t][1] == t && [t, k][0] == t && [t, k][1] == k;
    }
  }

  lemma PairIsRecognised(u: Expr, w: Expr, a: Affine)
    requires !u.Add? && !w.Add?
    ensures LinearSingleVar(Add([u, w])) == Some(a) <==>
            || (AsConstant(u) == Some(a.offset) && LinearSingleVar(w) == Some(a.(offset := 0.0)))
            || (AsConstant(w) == Some(a.offset) && LinearSingleVar(u) == Some(a.(offset := 0.0)))
  {
    hide LinearSingleVar, AsConstant;
    TermHasNoOffset(u);
    TermHasNoOffset(w);
    ConstantIsNoTerm(u);
    ConstantIsNoTerm(w);
    PairUnfolds(u, w);
  }

  lemma PairUnfolds(u: Expr, w: Expr)
    ensures LinearSingleVar(Add([u, w])) ==
            if AsConstant(u).Some? then Offset(LinearSingleVar(w), AsConstant(u).value)
            else if AsConstant(w).Some? then Offset(LinearSingleVar(u), AsConstant(w).value)
            else None
  {
  }

  lemma TermHasNoOffset(e: Expr)
    requires !e.Add?
    ensures LinearSingleVar(e).Some? ==> LinearSingleVar(e).value.offset == 0.0
  {
  }

  lemma ConstantIsNoTerm(e: Expr)
    ensures AsConstant(e).Some? ==> LinearSingleVar(e) == None
  {
  }

  // ----- sides -----

  /** The predicate bounds `p` at `v`: from below when `below`, else from above. */
  ghost predicate Bounding(pr: Predicate, p: string, v: real, below: bool) {
    AffineOf(pr).Some? &&
    var a := AffineOf(pr).value;
    && a.port == p && Vanishes(a.coefficient, v, a.offset)
    && below == if a.coefficient > 0.0 then pr.cmp == Gt || pr.cmp == Ge else pr.cmp == Lt || pr.cmp == Le
  }

  ghost predicate Vanishes(c: real, v: real, k: real) {
    c * v + k == 0.0
  }

  /** `v` is a side of `p`, in the declared box or by one of the first `n` predicates. */
  ghost predicate Side(ps: seq<Predicate>, n: nat, declared: map<string, Interval>, p: string, v: real, below: bool)
    requires n <= |ps|
  {
    || (p in declared && v == if below then declared[p].lo else declared[p].hi)
    || exists i :: 0 <= i < n && Bounding(ps[i], p, v, below)
  }

  ghost predicate Bounded(ps: seq<Predicate>, declared: map<string, Interval>, p: string, below: bool) {
    exists v :: Side(ps, |ps|, declared, p, v, below)
  }

  /** The port is declared, or named by a predicate. */
  ghost predicate Mentioned(ps: seq<Predicate>, declared: map<string, Interval>, p: string) {
    Bounded(ps, declared, p, true) || Bounded(ps, declared, p, false)
  }

  /** Sides of both kinds, and no lower side above an upper one. */
  ghost predicate Closes(ps: seq<Predicate>, declared: map<string, Interval>, p: string) {
    && Bounded(ps, declared, p, true) && Bounded(ps, declared, p, false)
    && forall v, w :: Side(ps, |ps|, declared, p, v, true) && Side(ps, |ps|, declared, p, w, false) ==> v <= w
  }

  /** The first port in name order that does not close. */
  ghost predicate FirstOpen(ps: seq<Predicate>, declared: map<string, Interval>, p: string) {
    && Mentioned(ps, declared, p) && !Closes(ps, declared, p)
    && forall q :: Names.Before(q, p) && Mentioned(ps, declared, q) ==> Closes(ps, declared, q)
  }

  ghost predicate AllAffine(ps: seq<Predicate>) {
    forall i :: 0 <= i < |ps| ==> AffineOf(ps[i]).Some?
  }

  // ----- gathering keeps the tightest side -----

  /** The tighter of two sides. */
  ghost predicate AsTight(v: real, w: real, below: bool) {
    if below then w <= v else v <= w
  }

  /** `m` has the tightest of the sides of each port. */
  ghost predicate Tightest(ps: seq<Predicate>, n: nat, declared: map<string, Interval>, m: map<string, real>,
                           below: bool)
    requires n <= |ps|
  {
    && (forall p :: p in m ==> Side(ps, n, declared, p, m[p], below))
    && (forall p, v :: Side(ps, n, declared, p, v, below) ==> HasAsTight(m, p, v, below))
  }

  ghost predicate HasAsTight(m: map<string, real>, p: string, v: real, below: bool) {
    p in m && AsTight(m[p], v, below)
  }

  lemma NextSide(ps: seq<Predicate>, n: nat, declared: map<string, Interval>, p: string, v: real, below: bool)
    requires n < |ps|
    ensures Side(ps, n + 1, declared, p, v, below) <==>
            Side(ps, n, declared, p, v, below) || Bounding(ps[n], p, v, below)
  {
    hide Bounding;
  }

  /** A predicate that bounds the other side only adds nothing. */
  lemma NothingAdded(ps: seq<Predicate>, n: nat, declared: map<string, Interval>, m: map<string, real>, below: bool)
    requires n < |ps| && Tightest(ps, n, declared, m, below) && forall p, v :: !Bounding(ps[n], p, v, below)
    ensures Tightest(ps, n + 1, declared, m, below)
  {
    hide Side, Bounding;
    forall p | p in m ensures Side(ps, n + 1, declared, p, m[p], below) { NextSide(ps, n, declared, p, m[p], below); }
    forall p, v | Side(ps, n + 1, declared, p, v, below) ensures HasAsTight(m, p, v, below) {
      NextSide(ps, n, declared, p, v, below);
    }
  }

  /** The tighter of the bound already there and the new one stays. */
  lemma OneAdded(ps: seq<Predicate>, n: nat, declared: map<string, Interval>, m: map<string, real>, below: bool,
                 port: string, bound: real, after: map<string, real>)
    requires n < |ps| && Tightest(ps, n, declared, m, below)
    requires forall p, v :: Bounding(ps[n], p, v, below) <==> p == port && v == bound
    requires after == m[port := if port in m && AsTight(m[port], bound, below) then m[port] else bound]
    ensures Tightest(ps, n + 1, declared, after, below)
  {
    hide Side, Bounding;
    forall p | p in after ensures Side(ps, n + 1, declared, p, after[p], below) {
      NextSide(ps, n, declared, p, after[p], below);
    }
    forall p, v | Side(ps, n + 1, declared, p, v, below) ensures HasAsTight(after, p, v, below) {
      NextSide(ps, n, declared, p, v, below);
      if Side(ps, n, declared, p, v, below) { assert HasAsTight(m, p, v, below); }
    }
  }

  /** An affine predicate bounds its port at one value, on one side. */
  lemma BoundingIs(pr: Predicate, p: string, v: real, below: bool)
    requires AffineOf(pr).Some? && AffineOf(pr).value.coefficient != 0.0
    ensures var a := AffineOf(pr).value;
            var cmp := if a.coefficient < 0.0 then Mirrored(pr.cmp) else pr.cmp;
            Bounding(pr, p, v, below) <==> p == a.port && v == BoundOf(a) && below == !IsUpper(cmp)
  {
    hide AffineOf, Vanishes;
    var a := AffineOf(pr).value;
    VanishesAt(a.coefficient, v, a.offset, BoundOf(a));
    hide BoundOf;
  }

  lemma VanishesAt(c: real, v: real, k: real, q: real)
    requires c != 0.0 && q == -k / c
    ensures Vanishes(c, v, k) <==> v == q
  {
    assert c * q == -k;
    if Vanishes(c, v, k) { SameProduct(c, v, q); }
  }

  lemma SameProduct(c: real, v: real, q: real)
    requires c != 0.0 && c * v == c * q
    ensures v == q
  {
    assert c * (v - q) == 0.0;
  }

  lemma TightenKeepsTightest(ps: seq<Predicate>, n: nat, declared: map<string, Interval>, b: Bounds)
    requires n < |ps| && AffineOf(ps[n]).Some? && AffineOf(ps[n]).value.coefficient != 0.0
    requires Tightest(ps, n, declared, b.lower, true) && Tightest(ps, n, declared, b.upper, false)
    ensures var t := Tighten(b, AffineOf(ps[n]).value, ps[n].cmp);
            Tightest(ps, n + 1, declared, t.lower, true) && Tightest(ps, n + 1, declared, t.upper, false)
  {
    hide Bounding, Tightest, AffineOf, BoundOf;
    var a := AffineOf(ps[n]).value;
    var cmp := if a.coefficient < 0.0 then Mirrored(ps[n].cmp) else ps[n].cmp;
    var bound := BoundOf(a);
    var t := Tighten(b, a, ps[n].cmp);
    forall p, v, below
      ensures Bounding(ps[n], p, v, below) <==> p == a.port && v == bound && below == !IsUpper(cmp)
    {
      BoundingIs(ps[n], p, v, below);
    }
    if IsUpper(cmp) {
      assert t.lower == b.lower && t.upper == Capped(b.upper, a.port, bound);
      CapIsTighter(b.upper, a.port, bound);
      hide Tighten, Capped, IsUpper;
      NothingAdded(ps, n, declared, b.lower, true);
      OneAdded(ps, n, declared, b.upper, false, a.port, bound, t.upper);
    } else {
      assert t.upper == b.upper && t.lower == Lifted(b.lower, a.port, bound);
      LiftIsTighter(b.lower, a.port, bound);
      hide Tighten, Lifted, IsUpper;
      OneAdded(ps, n, declared, b.lower, true, a.port, bound, t.lower);
      NothingAdded(ps, n, declared, b.upper, false);
    }
  }

  lemma CapIsTighter(m: map<string, real>, p: string, v: real)
    ensures Capped(m, p, v) == m[p := if p in m && AsTight(m[p], v, false) then m[p] else v]
  {
  }

  lemma LiftIsTighter(m: map<string, real>, p: string, v: real)
    ensures Lifted(m, p, v) == m[p := if p in m && AsTight(m[p], v, true) then m[p] else v]
  {
  }

  lemma DeclaredIsTightest(ps: seq<Predicate>, declared: map<string, Interval>)
    ensures Tightest(ps, 0, declared, Declared(declared).lower, true)
    ensures Tightest(ps, 0, declared, Declared(declared).upper, false)
  {
  }

  /** Gathering ends with the tightest side of every port. */
  lemma {:induction false} GatherIsTightest(ps: seq<Predicate>, n: nat, declared: map<string, Interval>, b: Bounds)
    requires n <= |ps| && Gather(ps, n, b).Some?
    requires Tightest(ps, n, declared, b.lower, true) && Tightest(ps, n, declared, b.upper, false)
    ensures var g := Gather(ps, n, b).value;
            Tightest(ps, |ps|, declared, g.lower, true) && Tightest(ps, |ps|, declared, g.upper, false)
    decreases |ps| - n
  {
    hide Tightest, AffineOf, Tighten;
    if n < |ps| {
      AffineNonZero(ps[n]);
      TightenKeepsTightest(ps, n, declared, b);
      GatherIsTightest(ps, n + 1, declared, Tighten(b, AffineOf(ps[n]).value, ps[n].cmp));
    }
  }

  // ----- closing the gathered sides -----

  /** `b` has the tightest sides of every port. */
  ghost predicate Gathered(ps: seq<Predicate>, declared: map<string, Interval>, b: Bounds) {
    Tightest(ps, |ps|, declared, b.lower, true) && Tightest(ps, |ps|, declared, b.upper, false)
  }

  lemma GatheredMeans(ps: seq<Predicate>, declared: map<string, Interval>, b: Bounds, p: string)
    requires Gathered(ps, declared, b)
    ensures p in b.lower <==> Bounded(ps, declared, p, true)
    ensures p in b.upper <==> Bounded(ps, declared, p, false)
    ensures Closes(ps, declared, p) <==> p in b.lower && p in b.upper && b.lower[p] <= b.upper[p]
  {
    hide Side;
  }

  ghost predicate Open(b: Bounds, p: string) {
    p in b.lower && p in b.upper ==> b.lower[p] > b.upper[p]
  }

  /** The ports from `i` on are closed up to `j`, and the open port there gives the error. */
  ghost predicate StopsAt(b: Bounds, ports: seq<string>, i: nat, j: nat, e: SymbolicError) {
    && i <= j < |ports| && Open(b, ports[j]) && (forall k :: i <= k < j ==> !Open(b, ports[k]))
    && e == if ports[j] in b.lower && ports[j] in b.upper then EmptyDomain(ports[j]) else UnboundablePredicate
  }

  ghost predicate NoneOpen(b: Bounds, ports: seq<string>, i: nat) {
    forall j :: i <= j < |ports| ==> !Open(b, ports[j])
  }

  /** Closing stops at the first open port, in the order of the ports. */
  lemma {:induction false} CloseStops(b: Bounds, ports: seq<string>, i: nat, box: map<string, Interval>)
    returns (j: nat)
    requires i <= |ports|
    ensures var r := Close(b, ports, i, box);
            (r.Ok? ==> NoneOpen(b, ports, i)) && (r.Err? ==> StopsAt(b, ports, i, j, r.error))
    decreases |ports| - i
  {
    j := i;
    if i < |ports| && !Open(b, ports[i]) {
      j := CloseStops(b, ports, i + 1, box[ports[i] := Interval(b.lower[ports[i]], b.upper[ports[i]])]);
    }
  }

  /** The box has exactly the ports mentioned, each between its tightest sides. */
  ghost predicate BoxFits(ps: seq<Predicate>, declared: map<string, Interval>, box: map<string, Interval>) {
    && (forall p :: p in box <==> Mentioned(ps, declared, p))
    && (forall p :: p in box ==>
          && Side(ps, |ps|, declared, p, box[p].lo, true) && Side(ps, |ps|, declared, p, box[p].hi, false)
          && (forall v :: Side(ps, |ps|, declared, p, v, true) ==> v <= box[p].lo)
          && (forall v :: Side(ps, |ps|, declared, p, v, false) ==> box[p].hi <= v))
  }

  ghost predicate AllClose(ps: seq<Predicate>, declared: map<string, Interval>) {
    forall p :: Mentioned(ps, declared, p) ==> Closes(ps, declared, p)
  }

  /** Why no box was derived. */
  ghost predicate NoBox(ps: seq<Predicate>, declared: map<string, Interval>, e: SymbolicError) {
    match e
    case EmptyDomain(p) =>
      && AllAffine(ps) && FirstOpen(ps, declared, p)
      && Bounded(ps, declared, p, true) && Bounded(ps, declared, p, false)
    case UnboundablePredicate =>
      !AllAffine(ps) || exists p :: FirstOpen(ps, declared, p) &&
                                    !(Bounded(ps, declared, p, true) && Bounded(ps, declared, p, false))
    case _ => false
  }

  /** A box is derived exactly when every predicate is affine and every port mentioned closes, and then it is the box of
      the tightest sides. Otherwise the error names the first port in name order whose sides exclude each other, or says
      that a predicate is not affine or that the first open port lacks a side. */
  lemma BoxDerivedIff(ps: seq<Predicate>, declared: map<string, Interval>, tags: set<string>)
    ensures var r := DeriveBox(ps, declared, tags);
            && (r.Ok? <==> AllAffine(ps) && AllClose(ps, declared))
            && (r.Ok? ==> r.value.tags == tags && BoxFits(ps, declared, r.value.portBox))
            && (forall e :: r == Err(e) <==> NoBox(ps, declared, e))
  {
    hide AffineOf, Close, Gather, Mentioned, Closes;
    NothingDropped(ps, 0, Declared(declared));
    if AllAffine(ps) {
      var b := Gather(ps, 0, Declared(declared)).value;
      DeclaredIsTightest(ps, declared);
      GatherIsTightest(ps, 0, declared, Declared(declared));
      hide Tightest;
      assert Gathered(ps, declared, b);
      CloseDecides(ps, declared, b);
    }
  }

  /** What closing decides, once every predicate is affine. */
  ghost predicate Decided(ps: seq<Predicate>, declared: map<string, Interval>,
                          r: Result<map<string, Interval>, SymbolicError>) {
    match r
    case Ok(box) => AllClose(ps, declared) && BoxFits(ps, declared, box) && forall e :: !NoBox(ps, declared, e)
    case Err(d) => !AllClose(ps, declared) && forall e :: NoBox(ps, declared, e) <==> e == d
  }

  lemma CloseDecides(ps: seq<Predicate>, declared: map<string, Interval>, b: Bounds)
    requires AllAffine(ps) && Gathered(ps, declared, b)
    ensures Decided(ps, declared, Close(b, Names.Sorted(Ports(b)), 0, map[]))
  {
    hide *;
    var ports := Names.Sorted(Ports(b));
    var r := Close(b, ports, 0, map[]);
    var j := CloseStops(b, ports, 0, map[]);
    if r.Ok? {
      SortedCloses(b, ports);
      ClosedFits(ps, declared, b, ports, r.value);
    } else {
      Names.SortedAscends(Ports(b));
      StoppedDecides(ps, declared, b, ports, j, r.error);
    }
  }

  lemma SortedCloses(b: Bounds, ports: seq<string>)
    requires ports == Names.Sorted(Ports(b)) && Close(b, ports, 0, map[]).Ok?
    ensures Closed(b, Close(b, ports, 0, map[]).value)
  {
    assert ClosedUpTo(b, ports, 0, map[]);
    hide Close, Closed, ClosedUpTo;
    CloseMeans(b, ports, 0, map[]);
  }

  lemma MentionedIff(ps: seq<Predicate>, declared: map<string, Interval>, b: Bounds, p: string)
    requires Gathered(ps, declared, b)
    ensures Mentioned(ps, declared, p) <==> p in Ports(b)
    ensures p in Ports(b) ==> (Closes(ps, declared, p) <==> !Open(b, p))
  {
    GatheredMeans(ps, declared, b, p);
    hide Gathered, Bounded, Closes;
  }

  lemma ClosedFits(ps: seq<Predicate>, declared: map<string, Interval>, b: Bounds, ports: seq<string>,
                   box: map<string, Interval>)
    requires Gathered(ps, declared, b) && ports == Names.Sorted(Ports(b)) && Closed(b, box) && AllAffine(ps)
    requires NoneOpen(b, ports, 0)
    ensures Decided(ps, declared, Ok(box))
  {
    hide *;
    forall p ensures MentionedCloses(ps, declared, b, p) { PortCloses(ps, declared, b, ports, p); }
    BoundsFit(ps, declared, b, box);
    ClosedDecides(ps, declared, b, box);
  }

  ghost predicate MentionedCloses(ps: seq<Predicate>, declared: map<string, Interval>, b: Bounds, p: string) {
    (Mentioned(ps, declared, p) <==> p in Ports(b)) && (Mentioned(ps, declared, p) ==> Closes(ps, declared, p))
  }

  lemma PortCloses(ps: seq<Predicate>, declared: map<string, Interval>, b: Bounds, ports: seq<string>, p: string)
    requires Gathered(ps, declared, b) && ports == Names.Sorted(Ports(b)) && NoneOpen(b, ports, 0)
    ensures MentionedCloses(ps, declared, b, p)
  {
    hide Gathered, Mentioned, Closes, Open, Ports;
    MentionedIff(ps, declared, b, p);
    if p in Ports(b) { var j :| 0 <= j < |ports| && ports[j] == p; }
  }

  lemma ClosedDecides(ps: seq<Predicate>, declared: map<string, Interval>, b: Bounds, box: map<string, Interval>)
    requires AllAffine(ps) && BoxFits(ps, declared, box) && forall p :: MentionedCloses(ps, declared, b, p)
    ensures Decided(ps, declared, Ok(box))
  {
    hide AllAffine, BoxFits, Mentioned, Closes, Bounded, Ports;
    assert AllClose(ps, declared) by {
      forall p | Mentioned(ps, declared, p) ensures Closes(ps, declared, p) {
        assert MentionedCloses(ps, declared, b, p);
      }
    }
    forall e ensures !NoBox(ps, declared, e) { NothingOpen(ps, declared, e); }
  }

  lemma NothingOpen(ps: seq<Predicate>, declared: map<string, Interval>, e: SymbolicError)
    requires AllAffine(ps) && AllClose(ps, declared)
    ensures !NoBox(ps, declared, e)
  {
    hide AllAffine, Mentioned, Closes, Bounded;
  }

  lemma BoundsFit(ps: seq<Predicate>, declared: map<string, Interval>, b: Bounds, box: map<string, Interval>)
    requires Gathered(ps, declared, b) && Closed(b, box) && forall p :: MentionedCloses(ps, declared, b, p)
    ensures BoxFits(ps, declared, box)
  {
    hide Side, Mentioned, Closes;
    forall p ensures p in box <==> Mentioned(ps, declared, p) {
      assert MentionedCloses(ps, declared, b, p);
      assert p in box <==> p in Ports(b);
    }
    forall p | p in box
      ensures Side(ps, |ps|, declared, p, box[p].lo, true) && Side(ps, |ps|, declared, p, box[p].hi, false)
    {
      assert p in b.lower && p in b.upper;
    }
    forall p, v | p in box && Side(ps, |ps|, declared, p, v, true) ensures v <= box[p].lo {
      assert HasAsTight(b.lower, p, v, true);
    }
    forall p, v | p in box && Side(ps, |ps|, declared, p, v, false) ensures box[p].hi <= v {
      assert HasAsTight(b.upper, p, v, false);
    }
  }

  lemma StoppedDecides(ps: seq<Predicate>, declared: map<string, Interval>, b: Bounds, ports: seq<string>, j: nat,
                       d: SymbolicError)
    requires Gathered(ps, declared, b) && ports == Names.Sorted(Ports(b)) && Names.Ascending(ports) && AllAffine(ps)
    requires StopsAt(b, ports, 0, j, d)
    ensures Decided(ps, declared, Err(d))
  {
    var p := ports[j];
    var both := p in b.lower && p in b.upper;
    assert d == if both then EmptyDomain(p) else UnboundablePredicate;
    FirstStopIsFirstOpen(ps, declared, b, ports, j, d);
    GatheredMeans(ps, declared, b, p);
    hide *;
    OpenDecides(ps, declared, p, both, d);
  }

  lemma OpenDecides(ps: seq<Predicate>, declared: map<string, Interval>, p: string, both: bool, d: SymbolicError)
    requires AllAffine(ps) && FirstOpen(ps, declared, p)
    requires both == (Bounded(ps, declared, p, true) && Bounded(ps, declared, p, false))
    requires d == if both then EmptyDomain(p) else UnboundablePredicate
    ensures Decided(ps, declared, Err(d))
  {
    hide AllAffine, Bounded, Mentioned, Closes;
    assert Mentioned(ps, declared, p) && !Closes(ps, declared, p);
    hide FirstOpen;
    forall q | FirstOpen(ps, declared, q) ensures q == p { FirstOpenOnce(ps, declared, p, q); }
  }

  lemma FirstStopIsFirstOpen(ps: seq<Predicate>, declared: map<string, Interval>, b: Bounds, ports: seq<string>, j: nat,
                             d: SymbolicError)
    requires Gathered(ps, declared, b) && ports == Names.Sorted(Ports(b)) && Names.Ascending(ports)
    requires StopsAt(b, ports, 0, j, d)
    ensures FirstOpen(ps, declared, ports[j])
  {
    var p := ports[j];
    assert p in ports;
    hide Gathered, Mentioned, Closes, Open;
    MentionedIff(ps, declared, b, p);
    forall q | Names.Before(q, p) && Mentioned(ps, declared, q) ensures Closes(ps, declared, q) {
      MentionedIff(ps, declared, b, q);
      EarlierInOrder(ports, j, q);
    }
  }

  lemma FirstOpenOnce(ps: seq<Predicate>, declared: map<string, Interval>, p: string, q: string)
    requires FirstOpen(ps, declared, p) && FirstOpen(ps, declared, q)
    ensures p == q
  {
    hide Mentioned, Closes;
    Names.BeforeTotal(p, q);
  }

  lemma EarlierInOrder(ports: seq<string>, j: nat, q: string)
    requires Names.Ascending(ports) && j < |ports| && q in ports && Names.Before(q, ports[j])
    ensures q in ports[..j]
  {
    var k :| 0 <= k < |ports| && ports[k] == q;
    if k >= j {
      if k > j { Names.BeforeTransitive(q, ports[j], q); }
      Names.BeforeIrreflexive(q);
    }
  }
}
