/** The canonicaliser: flatten, fold literals, drop identities, sort. */
module SymCanon {
  import opened Wrappers
  import opened SymExpr

  // ----- sorting by the canonical order -----

  predicate LessEq(a: Expr, b: Expr) {
    Cmp(a, b) != Greater
  }

  predicate Ascends(es: seq<Expr>) {
    forall i, j :: 0 <= i < j < |es| ==> LessEq(es[i], es[j])
  }

  function Insert(e: Expr, es: seq<Expr>): seq<Expr> {
    if es == [] || LessEq(e, es[0]) then [e] + es else [es[0]] + Insert(e, es[1..])
  }

  /** The library sort, as an insertion sort; by `SortedUnique` any other sort gives the same list. */
  function Sort(es: seq<Expr>): seq<Expr> {
    if es == [] then [] else Insert(es[0], Sort(es[1..]))
  }

  lemma {:induction false} InsertBag(e: Expr, es: seq<Expr>)
    ensures multiset(Insert(e, es)) == multiset(es) + multiset{e}
  {
    if es != [] && !LessEq(e, es[0]) {
      InsertBag(e, es[1..]);
      assert es == [es[0]] + es[1..];
    }
  }

  lemma {:induction false} InsertAscends(e: Expr, es: seq<Expr>)
    requires Ascends(es)
    ensures Ascends(Insert(e, es))
  {
    var r := Insert(e, es);
    if es == [] {
    } else if LessEq(e, es[0]) {
      forall j | 0 <= j < |es| ensures LessEq(e, es[j]) {
        if j > 0 { CmpTransitive(e, es[0], es[j]); }
      }
    } else {
      var t := Insert(e, es[1..]);
      InsertAscends(e, es[1..]);
      InsertBag(e, es[1..]);
      CmpFlips(e, es[0]);
      forall j | 0 <= j < |t| ensures LessEq(es[0], t[j]) {
        assert t[j] in multiset(t);
        assert t[j] == e || t[j] in es[1..];
      }
    }
  }

  lemma {:induction false} SortSorts(es: seq<Expr>)
    ensures multiset(Sort(es)) == multiset(es) && Ascends(Sort(es))
  {
    if es != [] {
      SortSorts(es[1..]);
      InsertBag(es[0], Sort(es[1..]));
      InsertAscends(es[0], Sort(es[1..]));
      assert es == [es[0]] + es[1..];
    }
  }

  lemma DropFirst(a: seq<Expr>)
    requires a != []
    ensures a == [a[0]] + a[1..] && multiset(a[1..]) == multiset(a) - multiset{a[0]}
  {
    assert a == [a[0]] + a[1..];
  }

  lemma DropAt(b: seq<Expr>, k: nat)
    requires k < |b|
    ensures b == b[..k] + ([b[k]] + b[k + 1..]) && multiset(b[..k] + b[k + 1..]) == multiset(b) - multiset{b[k]}
  {
    assert b == b[..k] + ([b[k]] + b[k + 1..]);
  }

  lemma LocateIn(e: Expr, b: seq<Expr>) returns (k: nat)
    requires e in multiset(b)
    ensures k < |b| && b[k] == e
  {
    assert e in b;
    k :| 0 <= k < |b| && b[k] == e;
  }

  /** The first member of one arrangement, located in another. */
  lemma FirstIn(a: seq<Expr>, b: seq<Expr>) returns (k: nat)
    requires multiset(a) == multiset(b) && a != []
    ensures k < |b| && b[k] == a[0] && b == b[..k] + ([a[0]] + b[k + 1..]) && a == [a[0]] + a[1..]
    ensures multiset(a[1..]) == multiset(b[..k] + b[k + 1..])
  {
    DropFirst(a);
    k := LocateIn(a[0], b);
    DropAt(b, k);
  }

  lemma FirstOfAscending(a: seq<Expr>, b: seq<Expr>)
    requires Ascends(a) && Ascends(b) && multiset(a) == multiset(b) && a != [] && b != []
    ensures a[0] == b[0]
  {
    var i := LocateIn(a[0], b);
    var j := LocateIn(b[0], a);
    CmpEqualIff(a[0], b[0]);
    CmpFlips(a[0], b[0]);
    if i > 0 { assert LessEq(b[0], b[i]); }
    if j > 0 { assert LessEq(a[0], a[j]); }
  }

  /** One multiset has one ascending arrangement. */
  lemma {:induction false} SortedUnique(a: seq<Expr>, b: seq<Expr>)
    requires Ascends(a) && Ascends(b) && multiset(a) == multiset(b)
    ensures a == b
  {
    BagSize(a, b);
    if a != [] {
      FirstOfAscending(a, b);
      DropFirst(a);
      DropFirst(b);
      SortedUnique(a[1..], b[1..]);
    }
  }

  lemma BagSize(a: seq<Expr>, b: seq<Expr>)
    requires multiset(a) == multiset(b)
    ensures |a| == |b|
  {
    assert |multiset(a)| == |a| && |multiset(b)| == |b|;
  }

  /** Sorting depends only on which operands there are. */
  lemma SortPermuted(a: seq<Expr>, b: seq<Expr>)
    requires multiset(a) == multiset(b)
    ensures Sort(a) == Sort(b)
  {
    SortSorts(a);
    SortSorts(b);
    SortedUnique(Sort(a), Sort(b));
  }

  // ----- sums and products alike -----

  datatype Op = Sum | Prod

  function Unit(op: Op): real {
    if op == Sum then 0.0 else 1.0
  }

  function Combine(op: Op, x: real, y: real): real {
    if op == Sum then x + y else x * y
  }

  function Node(op: Op, es: seq<Expr>): Expr {
    if op == Sum then Add(es) else Mul(es)
  }

  predicate IsNode(op: Op, e: Expr) {
    if op == Sum then e.Add? else e.Mul?
  }

  /** What a child contributes to the flattened operand list. */
  function Operands(op: Op, e: Expr): seq<Expr> {
    if op == Sum && e.Add? then e.terms else if op == Prod && e.Mul? then e.factors else [e]
  }

  function Splice(op: Op, es: seq<Expr>): seq<Expr> {
    if es == [] then [] else Operands(op, es[0]) + Splice(op, es[1..])
  }

  function LitOr(op: Op, e: Expr): real {
    if e.Lit? then e.value else Unit(op)
  }

  function Lits(op: Op, es: seq<Expr>): real {
    if es == [] then Unit(op) else Combine(op, LitOr(op, es[0]), Lits(op, es[1..]))
  }

  function NonLits(es: seq<Expr>): seq<Expr> {
    if es == [] then [] else (if es[0].Lit? then [] else [es[0]]) + NonLits(es[1..])
  }

  /** The operands that remain: the non-literals, then the folded literal unless it is the identity. */
  function Remaining(op: Op, es: seq<Expr>): seq<Expr> {
    NonLits(es) + if Lits(op, es) != Unit(op) then [Lit(Lits(op, es))] else []
  }

  /** The canonical node over a flattened list of canonical operands. */
  function Build(op: Op, es: seq<Expr>): Expr {
    var rest := Remaining(op, es);
    if op == Prod && Lits(op, es) == 0.0 then Lit(0.0)
    else if rest == [] then Lit(Unit(op))
    else if |rest| == 1 then rest[0]
    else Node(op, Sort(rest))
  }

  function Canon(e: Expr): Expr
    decreases e, 1
  {
    match e
    case Var(_) => e
    case Lit(_) => e
    case Neg(a) => Neg(Canon(a))
    case Unary(f, a) => Unary(f, Canon(a))
    case Pow(b, n) => Pow(Canon(b), Canon(n))
    case Add(ts) => Build(Sum, Splice(Sum, CanonAll(ts)))
    case Mul(fs) => Build(Prod, Splice(Prod, CanonAll(fs)))
  }

  function CanonAll(es: seq<Expr>): (cs: seq<Expr>)
    ensures |cs| == |es| && forall i :: 0 <= i < |es| ==> cs[i] == Canon(es[i])
    decreases es, 0
  {
    seq(|es|, i requires 0 <= i < |es| => Canon(es[i]))
  }

  // ----- a node is determined by its literal and its bag of other operands -----

  function Bag(es: seq<Expr>): multiset<Expr> {
    multiset(NonLits(es))
  }

  lemma {:induction false} LitsAppend(op: Op, a: seq<Expr>, b: seq<Expr>)
    ensures Lits(op, a + b) == Combine(op, Lits(op, a), Lits(op, b))
    ensures NonLits(a + b) == NonLits(a) + NonLits(b)
  {
    LiteralsAppend(op, a, b);
    NonLitsAppend(a, b);
  }

  lemma {:induction false} LiteralsAppend(op: Op, a: seq<Expr>, b: seq<Expr>)
    ensures Lits(op, a + b) == Combine(op, Lits(op, a), Lits(op, b))
  {
    if a == [] {
      assert a + b == b;
    } else {
      hide Combine, LitOr;
      LiteralsAppend(op, a[1..], b);
      assert (a + b)[0] == a[0] && (a + b)[1..] == a[1..] + b;
      CombineAssociates(op, LitOr(op, a[0]), Lits(op, a[1..]), Lits(op, b));
    }
  }

  lemma {:induction false} NonLitsAppend(a: seq<Expr>, b: seq<Expr>)
    ensures NonLits(a + b) == NonLits(a) + NonLits(b)
  {
    if a == [] {
      assert a + b == b;
    } else {
      NonLitsAppend(a[1..], b);
      assert (a + b)[0] == a[0] && (a + b)[1..] == a[1..] + b;
      ConcatAssociates(if a[0].Lit? then [] else [a[0]], NonLits(a[1..]), NonLits(b));
    }
  }

  lemma ConcatAssociates(x: seq<Expr>, y: seq<Expr>, z: seq<Expr>)
    ensures x + (y + z) == x + y + z
  {
  }

  lemma CombineAssociates(op: Op, x: real, y: real, z: real)
    ensures Combine(op, Combine(op, x, y), z) == Combine(op, x, Combine(op, y, z))
    ensures Combine(op, x, y) == Combine(op, y, x)
    ensures Combine(op, x, Unit(op)) == x
  {
  }

  lemma {:induction false} SpliceAppend(op: Op, a: seq<Expr>, b: seq<Expr>)
    ensures Splice(op, a + b) == Splice(op, a) + Splice(op, b)
  {
    if a == [] {
      assert a + b == b;
    } else {
      hide Operands;
      SpliceAppend(op, a[1..], b);
      assert (a + b)[0] == a[0] && (a + b)[1..] == a[1..] + b;
      ConcatAssociates(Operands(op, a[0]), Splice(op, a[1..]), Splice(op, b));
    }
  }

  lemma SpliceOne(op: Op, e: Expr)
    ensures Splice(op, [e]) == Operands(op, e)
  {
    assert [e][1..] == [];
  }

  lemma {:induction false} SplicePermuted(op: Op, a: seq<Expr>, b: seq<Expr>)
    requires multiset(a) == multiset(b)
    ensures Lits(op, Splice(op, a)) == Lits(op, Splice(op, b)) && Bag(Splice(op, a)) == Bag(Splice(op, b))
    decreases |a|
  {
    BagSize(a, b);
    if a != [] {
      var k := FirstIn(a, b);
      hide Splice, Lits, NonLits;
      SplicePermuted(op, a[1..], b[..k] + b[k + 1..]);
      SpliceHead(op, a[0], a[1..], b[..k] + b[k + 1..]);
      MovedToFront(op, b[..k], a[0], b[k + 1..]);
    }
  }

  lemma SpliceHead(op: Op, e: Expr, a: seq<Expr>, b: seq<Expr>)
    requires Lits(op, Splice(op, a)) == Lits(op, Splice(op, b)) && Bag(Splice(op, a)) == Bag(Splice(op, b))
    ensures Lits(op, Splice(op, [e] + a)) == Lits(op, Splice(op, [e] + b))
    ensures Bag(Splice(op, [e] + a)) == Bag(Splice(op, [e] + b))
  {
    var s := Operands(op, e);
    SpliceOne(op, e);
    SpliceAppend(op, [e], a);
    SpliceAppend(op, [e], b);
    hide Splice, Operands, Lits, NonLits;
    LitsAppend(op, s, Splice(op, a));
    LitsAppend(op, s, Splice(op, b));
  }

  lemma MovedToFront(op: Op, before: seq<Expr>, e: Expr, after: seq<Expr>)
    ensures var front, middle := Splice(op, [e] + (before + after)), Splice(op, before + ([e] + after));
            Lits(op, front) == Lits(op, middle) && Bag(front) == Bag(middle)
  {
    var p, s, q := Splice(op, before), Operands(op, e), Splice(op, after);
    hide Splice, Operands, Lits, NonLits, Combine;
    SpliceOne(op, e);
    SpliceAppend(op, [e], before + after);
    SpliceAppend(op, before, after);
    SpliceAppend(op, before, [e] + after);
    SpliceAppend(op, [e], after);
    LitsAppend(op, s, p + q);
    LitsAppend(op, p, q);
    LitsAppend(op, p, s + q);
    LitsAppend(op, s, q);
    var x, y, z := Lits(op, s), Lits(op, p), Lits(op, q);
    CombineAssociates(op, x, y, z);
    CombineAssociates(op, y, x, z);
  }

  lemma RemainingPermuted(op: Op, a: seq<Expr>, b: seq<Expr>)
    requires Lits(op, a) == Lits(op, b) && Bag(a) == Bag(b)
    ensures multiset(Remaining(op, a)) == multiset(Remaining(op, b))
  {
    hide NonLits, Lits;
  }

  lemma OneLeft(r: seq<Expr>, s: seq<Expr>)
    requires multiset(r) == multiset(s) && |r| == 1 && |s| == 1
    ensures r == s
  {
    assert s[0] in multiset(r);
  }

  lemma BuildByParts(op: Op, a: seq<Expr>, b: seq<Expr>)
    requires Lits(op, a) == Lits(op, b) && Bag(a) == Bag(b)
    ensures Build(op, a) == Build(op, b)
  {
    var r, s := Remaining(op, a), Remaining(op, b);
    RemainingPermuted(op, a, b);
    hide Remaining, Sort, Lits, NonLits;
    BagSize(r, s);
    SortPermuted(r, s);
    if |r| == 1 { OneLeft(r, s); }
  }
}
