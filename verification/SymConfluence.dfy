/** What the canonicaliser guarantees: a fixed point, and one tree for every arrangement of sums and products. */
module SymConfluence {
  import opened Wrappers
  import opened SymExpr
  import opened SymCanon

  // ----- canonical trees -----

  /** No operand is itself a node of the same kind. */
  predicate Flat(op: Op, es: seq<Expr>) {
    forall e :: e in es ==> !IsNode(op, e)
  }

  /** A literal worth keeping as an operand: not the identity, and not the absorbing zero. */
  predicate KeptLit(op: Op, e: Expr) {
    e.Lit? ==> e.value != Unit(op) && (op == Prod ==> e.value != 0.0)
  }

  /** Two or more sorted operands, flat, with at most one literal, which is worth keeping. */
  predicate TidyNode(op: Op, es: seq<Expr>) {
    |es| >= 2 && Ascends(es) && Flat(op, es) && |NonLits(es)| >= |es| - 1 && forall e :: e in es ==> KeptLit(op, e)
  }

  predicate Canonical(e: Expr)
    decreases e
  {
    match e
    case Var(_) => true
    case Lit(_) => true
    case Neg(a) => Canonical(a)
    case Unary(_, a) => Canonical(a)
    case Pow(b, n) => Canonical(b) && Canonical(n)
    case Add(ts) => TidyNode(Sum, ts) && forall t :: t in ts ==> Canonical(t)
    case Mul(fs) => TidyNode(Prod, fs) && forall f :: f in fs ==> Canonical(f)
  }

  lemma {:induction false} NonLitMembers(es: seq<Expr>)
    ensures forall e :: e in NonLits(es) <==> e in es && !e.Lit?
    ensures |NonLits(es)| <= |es|
  {
    if es != [] { NonLitMembers(es[1..]); }
  }

  lemma {:induction false} NoLits(op: Op, es: seq<Expr>)
    requires forall e :: e in es ==> !e.Lit?
    ensures NonLits(es) == es && Lits(op, es) == Unit(op)
  {
    if es != [] {
      assert es[0] in es;
      NoLits(op, es[1..]);
    }
  }

  lemma {:induction false} NoneDropped(op: Op, es: seq<Expr>)
    requires |NonLits(es)| == |es|
    ensures NonLits(es) == es && Lits(op, es) == Unit(op)
  {
    if es != [] {
      NonLitMembers(es[1..]);
      NoneDropped(op, es[1..]);
    }
  }

  /** How a list splits into literals and the rest when it has exactly one literal. */
  lemma {:induction false} OneDropped(op: Op, es: seq<Expr>)
    requires |NonLits(es)| == |es| - 1
    ensures var l := Lit(Lits(op, es)); l in es && multiset(es) == multiset(NonLits(es)) + multiset{l}
  {
    var rest := es[1..];
    assert es == [es[0]] + rest;
    if es[0].Lit? {
      NoneDropped(op, rest);
    } else {
      OneDropped(op, rest);
      assert Lits(op, es) == Lits(op, rest);
      OneMoreNonLit(es[0], rest, NonLits(rest), Lit(Lits(op, rest)));
    }
  }

  lemma OneMoreNonLit(e: Expr, rest: seq<Expr>, ns: seq<Expr>, l: Expr)
    requires l in rest && multiset(rest) == multiset(ns) + multiset{l}
    ensures l in [e] + rest && multiset([e] + rest) == multiset([e] + ns) + multiset{l}
  {
  }

  lemma {:induction false} PartsPermuted(op: Op, a: seq<Expr>, b: seq<Expr>)
    requires multiset(a) == multiset(b)
    ensures Lits(op, a) == Lits(op, b) && Bag(a) == Bag(b)
    decreases |a|
  {
    BagSize(a, b);
    if a != [] {
      var k := FirstIn(a, b);
      var p, q := b[..k], b[k + 1..];
      hide Lits, NonLits, Combine;
      PartsPermuted(op, a[1..], p + q);
      LitsAppend(op, [a[0]], a[1..]);
      LitsAppend(op, p, [a[0]] + q);
      LitsAppend(op, [a[0]], q);
      LitsAppend(op, p, q);
      var x, y, z := Lits(op, [a[0]]), Lits(op, p), Lits(op, q);
      CombineAssociates(op, x, y, z);
      CombineAssociates(op, y, x, z);
    }
  }

  lemma SortParts(op: Op, es: seq<Expr>)
    ensures Lits(op, Sort(es)) == Lits(op, es) && Bag(Sort(es)) == Bag(es) && multiset(Sort(es)) == multiset(es)
    ensures |Sort(es)| == |es| && |NonLits(Sort(es))| == |NonLits(es)| && Ascends(Sort(es))
    ensures forall e :: e in Sort(es) <==> e in es
  {
    SortSorts(es);
    PartsPermuted(op, Sort(es), es);
    BagSize(Sort(es), es);
    BagSize(NonLits(Sort(es)), NonLits(es));
    forall e ensures e in Sort(es) <==> e in es { assert e in multiset(Sort(es)) <==> e in multiset(es); }
  }

  /** The remaining operands carry the same literal and the same others, and at most one literal. */
  lemma RemainingParts(op: Op, es: seq<Expr>)
    ensures Lits(op, Remaining(op, es)) == Lits(op, es)
    ensures NonLits(Remaining(op, es)) == NonLits(es) && |NonLits(es)| >= |Remaining(op, es)| - 1
    ensures forall e :: e in Remaining(op, es) ==>
                          (e in es && !e.Lit?) || (e == Lit(Lits(op, es)) && e.value != Unit(op))
  {
    var ns := NonLits(es);
    NonLitMembers(es);
    NoLits(op, ns);
    if Lits(op, es) != Unit(op) {
      var l := Lit(Lits(op, es));
      OneLit(op, l);
      LitsAppend(op, ns, [l]);
      CombineAssociates(op, Unit(op), l.value, Unit(op));
      assert ns + [] == ns;
    } else {
      assert ns + [] == ns;
    }
  }

  lemma OneLit(op: Op, l: Expr)
    requires l.Lit?
    ensures Lits(op, [l]) == l.value && NonLits([l]) == []
  {
    assert [l][1..] == [];
  }

  // ----- canonicalising gives a canonical tree -----

  lemma BuildCanonical(op: Op, es: seq<Expr>)
    requires Flat(op, es) && forall e :: e in es ==> Canonical(e)
    ensures Canonical(Build(op, es))
  {
    var rest := Remaining(op, es);
    RemainingParts(op, es);
    SortParts(op, rest);
    hide Sort, Remaining, NonLits, Lits, Ascends;
    if |rest| == 1 { assert rest[0] in rest; }
    if |rest| > 1 && !(op == Prod && Lits(op, es) == 0.0) {
      assert TidyNode(op, Sort(rest));
    }
  }

  lemma {:induction false} SpliceMembers(op: Op, es: seq<Expr>)
    requires forall e :: e in es ==> Canonical(e)
    ensures Flat(op, Splice(op, es)) && forall e :: e in Splice(op, es) ==> Canonical(e)
  {
    if es != [] {
      assert es[0] in es;
      SpliceMembers(op, es[1..]);
    }
  }

  lemma {:induction false} CanonIsCanonical(e: Expr)
    ensures Canonical(Canon(e))
    decreases e
  {
    match e
    case Var(_) =>
    case Lit(_) =>
    case Neg(a) => CanonIsCanonical(a);
    case Unary(_, a) => CanonIsCanonical(a);
    case Pow(b, n) => CanonIsCanonical(b); CanonIsCanonical(n);
    case Add(ts) =>
      forall i | 0 <= i < |ts| ensures Canonical(CanonAll(ts)[i]) { CanonIsCanonical(ts[i]); }
      SpliceMembers(Sum, CanonAll(ts));
      BuildCanonical(Sum, Splice(Sum, CanonAll(ts)));
    case Mul(fs) =>
      forall i | 0 <= i < |fs| ensures Canonical(CanonAll(fs)[i]) { CanonIsCanonical(fs[i]); }
      SpliceMembers(Prod, CanonAll(fs));
      BuildCanonical(Prod, Splice(Prod, CanonAll(fs)));
  }

  // ----- and leaves a canonical tree alone -----

  lemma {:induction false} SpliceFlat(op: Op, es: seq<Expr>)
    requires Flat(op, es)
    ensures Splice(op, es) == es
  {
    if es != [] {
      assert es[0] in es;
      SpliceFlat(op, es[1..]);
    }
  }

  lemma BuildFixes(op: Op, es: seq<Expr>)
    requires TidyNode(op, es)
    ensures Build(op, es) == Node(op, es)
  {
    var rest := Remaining(op, es);
    NonLitMembers(es);
    if |NonLits(es)| == |es| { NoneDropped(op, es); } else { OneDropped(op, es); }
    assert multiset(rest) == multiset(es);
    BagSize(rest, es);
    hide Remaining, NonLits, Lits, Sort;
    SortSorts(rest);
    SortedUnique(Sort(rest), es);
  }

  lemma {:induction false} CanonFixes(e: Expr)
    requires Canonical(e)
    ensures Canon(e) == e
    decreases e
  {
    match e
    case Var(_) =>
    case Lit(_) =>
    case Neg(a) => CanonFixes(a);
    case Unary(_, a) => CanonFixes(a);
    case Pow(b, n) => CanonFixes(b); CanonFixes(n);
    case Add(ts) =>
      forall i | 0 <= i < |ts| ensures CanonAll(ts)[i] == ts[i] { CanonFixes(ts[i]); }
      assert CanonAll(ts) == ts;
      SpliceFlat(Sum, ts);
      BuildFixes(Sum, ts);
    case Mul(fs) =>
      forall i | 0 <= i < |fs| ensures CanonAll(fs)[i] == fs[i] { CanonFixes(fs[i]); }
      assert CanonAll(fs) == fs;
      SpliceFlat(Prod, fs);
      BuildFixes(Prod, fs);
  }

  /** The canonical trees are exactly the fixed points, and canonicalising twice equals canonicalising once. */
  lemma CanonIsFixedPoint(e: Expr)
    ensures Canon(Canon(e)) == Canon(e)
    ensures Canonical(e) <==> Canon(e) == e
  {
    CanonIsCanonical(e);
    CanonFixes(Canon(e));
    if Canonical(e) { CanonFixes(e); }
  }

  // ----- confluence -----

  /** The operands of a sum, or of a product, in another order. */
  ghost predicate Reorders(op: Op, a: Expr, b: Expr) {
    IsNode(op, a) && IsNode(op, b) && multiset(Operands(op, a)) == multiset(Operands(op, b))
  }

  /** A sum inside a sum, or a product inside a product, dissolved in place. */
  ghost predicate DissolvesAt(op: Op, a: Expr, b: Expr, i: nat) {
    && IsNode(op, a) && IsNode(op, b) && i < |Operands(op, a)| && IsNode(op, Operands(op, a)[i])
    && Operands(op, b) == Operands(op, a)[..i] + (Operands(op, Operands(op, a)[i]) + Operands(op, a)[i + 1..])
  }

  ghost predicate Dissolves(op: Op, a: Expr, b: Expr) {
    exists i: nat :: DissolvesAt(op, a, b, i)
  }

  /** One rearrangement, at the root or anywhere below. */
  ghost predicate Rearranges(a: Expr, b: Expr)
    decreases a, 1
  {
    (exists op :: Reorders(op, a, b)) || (exists op :: Dissolves(op, a, b)) || RearrangesInside(a, b)
  }

  ghost predicate RearrangesInside(a: Expr, b: Expr)
    decreases a, 0
  {
    match a
    case Var(_) => false
    case Lit(_) => false
    case Neg(x) => b.Neg? && Rearranges(x, b.arg)
    case Unary(f, x) => b.Unary? && f == b.fn && Rearranges(x, b.arg)
    case Pow(x, n) => b.Pow? && ((Rearranges(x, b.base) && n == b.exponent) ||
                                 (x == b.base && Rearranges(n, b.exponent)))
    case Add(ts) => b.Add? && |b.terms| == |ts| &&
                    exists i :: 0 <= i < |ts| && Rearranges(ts[i], b.terms[i]) && Differ(ts, b.terms, i)
    case Mul(fs) => b.Mul? && |b.factors| == |fs| &&
                    exists i :: 0 <= i < |fs| && Rearranges(fs[i], b.factors[i]) && Differ(fs, b.factors, i)
  }

  /** The lists agree except possibly at position `i`. */
  ghost predicate Differ(a: seq<Expr>, b: seq<Expr>, i: nat)
    requires i < |a| == |b|
  {
    b == a[i := b[i]]
  }

  lemma CanonAllAppend(a: seq<Expr>, b: seq<Expr>)
    ensures CanonAll(a + b) == CanonAll(a) + CanonAll(b)
  {
    hide Canon, CanonAll;
    var c, d := CanonAll(a + b), CanonAll(a) + CanonAll(b);
    forall i | 0 <= i < |c| ensures c[i] == d[i] {
      assert (a + b)[i] == if i < |a| then a[i] else b[i - |a|];
    }
  }

  lemma CanonAllOne(e: Expr)
    ensures CanonAll([e]) == [Canon(e)]
  {
    hide Canon, CanonAll;
    assert CanonAll([e])[0] == Canon([e][0]);
  }

  /** `CanonAll` of a list with `e` between `p` and `q`. */
  lemma CanonAllMiddle(p: seq<Expr>, e: Expr, q: seq<Expr>)
    ensures CanonAll(p + ([e] + q)) == CanonAll(p) + ([Canon(e)] + CanonAll(q))
  {
    hide Canon, CanonAll;
    CanonAllAppend(p, [e] + q);
    CanonAllAppend([e], q);
    CanonAllOne(e);
  }

  lemma {:induction false} CanonAllPermuted(a: seq<Expr>, b: seq<Expr>)
    requires multiset(a) == multiset(b)
    ensures multiset(CanonAll(a)) == multiset(CanonAll(b))
    decreases |a|
  {
    hide Canon, CanonAll;
    BagSize(a, b);
    if a != [] {
      var k := FirstIn(a, b);
      var p, q := b[..k], b[k + 1..];
      CanonAllPermuted(a[1..], p + q);
      CanonAllMiddle([], a[0], a[1..]);
      CanonAllMiddle(p, a[0], q);
      CanonAllAppend(p, q);
      assert [] + ([a[0]] + a[1..]) == a;
    } else {
      assert a == b;
    }
  }

  lemma ReordersSame(op: Op, a: Expr, b: Expr)
    requires Reorders(op, a, b)
    ensures Canon(a) == Canon(b)
  {
    var p, q := CanonAll(Operands(op, a)), CanonAll(Operands(op, b));
    CanonAllPermuted(Operands(op, a), Operands(op, b));
    SplicePermuted(op, p, q);
    BuildByParts(op, Splice(op, p), Splice(op, q));
  }

  lemma OneOperand(op: Op, e: Expr)
    requires !IsNode(op, e)
    ensures Operands(op, e) == [e] && Lits(op, [e]) == LitOr(op, e) && Bag([e]) == if e.Lit? then multiset{}
            else multiset{e}
  {
    assert [e][1..] == [];
    assert NonLits([e]) == if e.Lit? then [] else [e];
  }

  /** What a built node hands on when it is spliced into a node of its own kind. */
  lemma BuildParts(op: Op, es: seq<Expr>)
    requires Flat(op, es)
    ensures Lits(op, Operands(op, Build(op, es))) == Lits(op, es)
    ensures (op == Prod && Lits(op, es) == 0.0) || Bag(Operands(op, Build(op, es))) == Bag(es)
  {
    hide Sort, Remaining, Lits, NonLits;
    var rest := Remaining(op, es);
    RemainingParts(op, es);
    SortParts(op, rest);
    OneOperand(op, Lit(0.0));
    OneOperand(op, Lit(Unit(op)));
    if op == Prod && Lits(op, es) == 0.0 {
    } else if rest == [] {
      NoParts(op);
    } else if |rest| == 1 {
      assert rest[0] in rest;
      assert rest == [rest[0]];
      OneOperand(op, rest[0]);
    } else {
      assert Operands(op, Node(op, Sort(rest))) == Sort(rest);
    }
  }

  lemma NoParts(op: Op)
    ensures Lits(op, []) == Unit(op) && Bag([]) == multiset{}
  {
  }

  lemma SpliceIsFlat(op: Op, es: seq<Expr>)
    ensures Flat(op, Splice(op, CanonAll(es)))
  {
    forall e | e in CanonAll(es) ensures Canonical(e) {
      var i :| 0 <= i < |es| && CanonAll(es)[i] == e;
      CanonIsCanonical(es[i]);
    }
    SpliceMembers(op, CanonAll(es));
  }

  /** Swapping a stretch of operands for another with the same parts does not change the node. */
  lemma SameMiddle(op: Op, p: seq<Expr>, y: seq<Expr>, z: seq<Expr>, s: seq<Expr>)
    requires Lits(op, y) == Lits(op, z) && ((op == Prod && Lits(op, y) == 0.0) || Bag(y) == Bag(z))
    ensures Build(op, p + (y + s)) == Build(op, p + (z + s))
  {
    hide Lits, NonLits, Remaining, Combine;
    LitsAppend(op, p, y + s);
    LitsAppend(op, y, s);
    LitsAppend(op, p, z + s);
    LitsAppend(op, z, s);
    if op == Prod && Lits(op, y) == 0.0 {
      CombineZero(Lits(op, p), Lits(op, s));
    } else {
      BuildByParts(op, p + (y + s), p + (z + s));
    }
  }

  lemma CombineZero(x: real, z: real)
    ensures Combine(Prod, x, Combine(Prod, 0.0, z)) == 0.0
  {
  }

  lemma DissolvesSame(op: Op, a: Expr, b: Expr, i: nat)
    requires DissolvesAt(op, a, b, i)
    ensures Canon(a) == Canon(b)
  {
    var es := Operands(op, a);
    var inner := Operands(op, es[i]);
    CanonNode(op, a);
    CanonNode(op, b);
    CanonNode(op, es[i]);
    hide Canon, Build, Splice, CanonAll, Lits, NonLits, Flat;
    var p, s, y := CanonAll(es[..i]), CanonAll(es[i + 1..]), CanonAll(inner);
    DropAt(es, i);
    CanonAllMiddle(es[..i], es[i], es[i + 1..]);
    CanonAllAppend(es[..i], inner + es[i + 1..]);
    CanonAllAppend(inner, es[i + 1..]);
    SpliceIsFlat(op, inner);
    BuildParts(op, Splice(op, y));
    DissolvedSplice(op, p, Canon(es[i]), y, s);
  }

  lemma DissolvedSplice(op: Op, p: seq<Expr>, c: Expr, y: seq<Expr>, s: seq<Expr>)
    requires var u, v := Operands(op, c), Splice(op, y);
             Lits(op, u) == Lits(op, v) && ((op == Prod && Lits(op, u) == 0.0) || Bag(u) == Bag(v))
    ensures Build(op, Splice(op, p + ([c] + s))) == Build(op, Splice(op, p + (y + s)))
  {
    hide Build, Splice, Operands, Lits, NonLits;
    SpliceAppend(op, p, [c] + s);
    SpliceAppend(op, [c], s);
    SpliceOne(op, c);
    SpliceAppend(op, p, y + s);
    SpliceAppend(op, y, s);
    SameMiddle(op, Splice(op, p), Operands(op, c), Splice(op, y), Splice(op, s));
  }

  lemma CanonNode(op: Op, e: Expr)
    requires IsNode(op, e)
    ensures Canon(e) == Build(op, Splice(op, CanonAll(Operands(op, e))))
  {
  }

  lemma SameChild(ts: seq<Expr>, us: seq<Expr>, i: nat)
    requires i < |ts| == |us| && Differ(ts, us, i) && Canon(ts[i]) == Canon(us[i])
    ensures CanonAll(ts) == CanonAll(us)
  {
    assert forall j :: 0 <= j < |ts| ==> Canon(ts[j]) == Canon(us[j]);
  }

  lemma {:induction false} RearrangesSame(a: Expr, b: Expr)
    requires Rearranges(a, b)
    ensures Canon(a) == Canon(b)
    decreases a, 1
  {
    hide Reorders, Dissolves, RearrangesInside, Canon;
    if op :| Reorders(op, a, b) {
      ReordersSame(op, a, b);
    } else if op :| Dissolves(op, a, b) {
      SomeDissolves(op, a, b);
    } else {
      InsideSame(a, b);
    }
  }

  lemma SomeDissolves(op: Op, a: Expr, b: Expr)
    requires Dissolves(op, a, b)
    ensures Canon(a) == Canon(b)
  {
    hide DissolvesAt, Canon;
    var i: nat :| DissolvesAt(op, a, b, i);
    DissolvesSame(op, a, b, i);
  }

  lemma {:induction false} InsideSame(a: Expr, b: Expr)
    requires RearrangesInside(a, b)
    ensures Canon(a) == Canon(b)
    decreases a, 0
  {
    hide Rearranges, Differ, CanonAll, Build, Splice;
    match a
    case Neg(x) => RearrangesSame(x, b.arg);
    case Unary(_, x) => RearrangesSame(x, b.arg);
    case Pow(x, n) =>
      if Rearranges(x, b.base) { RearrangesSame(x, b.base); }
      if Rearranges(n, b.exponent) { RearrangesSame(n, b.exponent); }
    case Add(ts) =>
      var i :| 0 <= i < |ts| && Rearranges(ts[i], b.terms[i]) && Differ(ts, b.terms, i);
      RearrangesSame(ts[i], b.terms[i]);
      SameChild(ts, b.terms, i);
    case Mul(fs) =>
      var i :| 0 <= i < |fs| && Rearranges(fs[i], b.factors[i]) && Differ(fs, b.factors, i);
      RearrangesSame(fs[i], b.factors[i]);
      SameChild(fs, b.factors, i);
  }

  /** Each expression of the chain is a rearrangement of its neighbour, one way or the other. */
  ghost predicate Linked(chain: seq<Expr>) {
    forall i :: 0 <= i < |chain| - 1 ==> Rearranges(chain[i], chain[i + 1]) || Rearranges(chain[i + 1], chain[i])
  }

  /** Confluence: however sums and products are permuted and re-nested, at any depth and in any number of steps,
      the canonical tree is the same. */
  lemma {:induction false} Confluent(chain: seq<Expr>, i: nat)
    requires Linked(chain) && i < |chain|
    ensures Canon(chain[i]) == Canon(chain[0])
  {
    if i > 0 {
      Confluent(chain, i - 1);
      if Rearranges(chain[i - 1], chain[i]) {
        RearrangesSame(chain[i - 1], chain[i]);
      } else {
        RearrangesSame(chain[i], chain[i - 1]);
      }
    }
  }
}
