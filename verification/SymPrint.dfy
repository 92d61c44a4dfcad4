/** The canonical string, and why it identifies an expression. */
module SymPrint {
  import opened Wrappers
  import opened SymExpr

  datatype Shape = NegShape | SqrtShape | SinShape | CosShape | ExpShape | LnShape | PowShape | AddShape | MulShape

  predicate IsLeaf(e: Expr) {
    e.Var? || e.Lit?
  }

  function ShapeOf(e: Expr): Shape
    requires !IsLeaf(e)
  {
    match e
    case Neg(_) => NegShape
    case Unary(Sqrt, _) => SqrtShape
    case Unary(Sin, _) => SinShape
    case Unary(Cos, _) => CosShape
    case Unary(Exp, _) => ExpShape
    case Unary(Ln, _) => LnShape
    case Pow(_, _) => PowShape
    case Add(_) => AddShape
    case Mul(_) => MulShape
  }

  function Opening(s: Shape): string {
    match s
    case NegShape => "(neg "
    case SqrtShape => "(sqrt "
    case SinShape => "(sin "
    case CosShape => "(cos "
    case ExpShape => "(exp "
    case LnShape => "(ln "
    case PowShape => "(pow "
    case AddShape => "(add "
    case MulShape => "(mul "
  }

  function Children(e: Expr): (cs: seq<Expr>)
    requires !IsLeaf(e)
    ensures forall j :: 0 <= j < |cs| ==> cs[j] < e
  {
    match e
    case Neg(a) => [a]
    case Unary(_, a) => [a]
    case Pow(b, n) => [b, n]
    case Add(ts) => ts
    case Mul(fs) => fs
  }

  /** Prefix form; `fmt` prints literals. */
  function Print(fmt: real -> string, e: Expr): string
    decreases e, 1, 0
  {
    match e
    case Var(x) => "V:" + x
    case Lit(x) => "L:" + fmt(x)
    case _ => Opening(ShapeOf(e)) + (PrintFrom(fmt, e, Children(e), 0) + ")")
  }

  /** The children of `e` from position `i`, separated by single spaces. */
  function PrintFrom(fmt: real -> string, ghost e: Expr, cs: seq<Expr>, i: nat): string
    requires i <= |cs| && forall j :: 0 <= j < |cs| ==> cs[j] < e
    decreases e, 0, |cs| - i
  {
    if i == |cs| then ""
    else (if i > 0 then " " else "") + (Print(fmt, cs[i]) + PrintFrom(fmt, e, cs, i + 1))
  }

  predicate Clean(s: string) {
    forall c :: c in s ==> c != ' ' && c != '(' && c != ')'
  }

  /** Names are clean, and the literals are among `lits`. */
  ghost predicate Printable(lits: set<real>, e: Expr)
    decreases e
  {
    match e
    case Var(x) => Clean(x)
    case Lit(x) => x in lits
    case Neg(a) => Printable(lits, a)
    case Unary(_, a) => Printable(lits, a)
    case Pow(b, n) => Printable(lits, b) && Printable(lits, n)
    case Add(ts) => forall t :: t in ts ==> Printable(lits, t)
    case Mul(fs) => forall f :: f in fs ==> Printable(lits, f)
  }

  /** Distinct literals print to distinct clean tokens. */
  ghost predicate GoodFormat(fmt: real -> string, lits: set<real>) {
    && (forall x :: x in lits ==> Clean(fmt(x)))
    && (forall x, y :: x in lits && y in lits && fmt(x) == fmt(y) ==> x == y)
  }

  /** What can follow a printed expression inside another. */
  predicate Ends(s: string) {
    s == "" || s[0] == ' ' || s[0] == ')'
  }

  lemma CancelFront(p: string, x: string, y: string)
    requires p + x == p + y
    ensures x == y
  {
    assert x == (p + x)[|p|..] && y == (p + y)[|p|..];
  }

  lemma TokenEnds(n: string, s: string, k: string, t: string)
    requires Clean(n) && Clean(k) && Ends(s) && Ends(t) && n + s == k + t
    ensures n == k && s == t
  {
    if |n| < |k| {
      TokenRunsOn(n, s, k, t);
    } else if |k| < |n| {
      TokenRunsOn(k, t, n, s);
    } else {
      assert n == (n + s)[..|n|] && k == (k + t)[..|k|];
      CancelFront(n, s, t);
    }
  }

  /** A clean token does not continue past an end marker. */
  lemma TokenRunsOn(n: string, s: string, k: string, t: string)
    requires Clean(k) && Ends(s) && |n| < |k|
    ensures n + s != k + t
  {
    if s != "" {
      assert (n + s)[|n|] == s[0];
      assert (k + t)[|n|] == k[|n|] && k[|n|] in k;
    }
  }

  lemma OpeningsDiffer(a: Shape, b: Shape, x: string, y: string)
    requires Opening(a) + x == Opening(b) + y
    ensures a == b && x == y
  {
    assert (Opening(a) + x)[1] == Opening(a)[1] && (Opening(a) + x)[2] == Opening(a)[2];
    assert (Opening(b) + y)[1] == Opening(b)[1] && (Opening(b) + y)[2] == Opening(b)[2];
    CancelFront(Opening(a), x, y);
  }

  /** The first character tells variables, literals and compound expressions apart. */
  lemma FirstChar(fmt: real -> string, e: Expr)
    ensures Print(fmt, e) != "" && Print(fmt, e)[0] == if e.Var? then 'V' else if e.Lit? then 'L' else '('
  {
    if !IsLeaf(e) { OpeningStarts(ShapeOf(e)); }
  }

  lemma OpeningStarts(s: Shape)
    ensures Opening(s) != "" && Opening(s)[0] == '('
  {
  }

  lemma Leaf(fmt: real -> string, e: Expr, f: Expr, s: string, t: string, lits: set<real>)
    requires GoodFormat(fmt, lits) && Printable(lits, e) && Printable(lits, f) && Ends(s) && Ends(t)
    requires (e.Var? && f.Var?) || (e.Lit? && f.Lit?)
    requires Print(fmt, e) + s == Print(fmt, f) + t
    ensures e == f && s == t
  {
    if e.Var? {
      assert Print(fmt, e) + s == "V:" + (e.name + s) && Print(fmt, f) + t == "V:" + (f.name + t);
      CancelFront("V:", e.name + s, f.name + t);
      TokenEnds(e.name, s, f.name, t);
    } else {
      assert Print(fmt, e) + s == "L:" + (fmt(e.value) + s) && Print(fmt, f) + t == "L:" + (fmt(f.value) + t);
      CancelFront("L:", fmt(e.value) + s, fmt(f.value) + t);
      TokenEnds(fmt(e.value), s, fmt(f.value), t);
    }
  }

  lemma ChildrenPrintable(lits: set<real>, e: Expr)
    requires !IsLeaf(e) && Printable(lits, e)
    ensures forall c :: c in Children(e) ==> Printable(lits, c)
  {
  }

  lemma ShapeAndChildren(e: Expr, f: Expr)
    requires !IsLeaf(e) && !IsLeaf(f) && ShapeOf(e) == ShapeOf(f) && Children(e) == Children(f)
    ensures e == f
  {
    if e.Pow? { assert e.base == Children(e)[0] && e.exponent == Children(e)[1]; }
    if e.Neg? || e.Unary? { assert e.arg == Children(e)[0] && f.arg == Children(f)[0]; }
    if e.Pow? { assert f.base == Children(f)[0] && f.exponent == Children(f)[1]; }
  }

  /** A printed expression followed by an end marker can be read back in only one way. */
  lemma {:induction false} ReadsBack(fmt: real -> string, e: Expr, f: Expr, s: string, t: string, lits: set<real>)
    requires GoodFormat(fmt, lits) && Printable(lits, e) && Printable(lits, f) && Ends(s) && Ends(t)
    requires Print(fmt, e) + s == Print(fmt, f) + t
    ensures e == f && s == t
    decreases e, 1, 0
  {
    hide GoodFormat, Ends, Printable;
    FirstChar(fmt, e);
    FirstChar(fmt, f);
    assert (Print(fmt, e) + s)[0] == Print(fmt, e)[0] && (Print(fmt, f) + t)[0] == Print(fmt, f)[0];
    if IsLeaf(e) {
      Leaf(fmt, e, f, s, t, lits);
    } else {
      Compound(fmt, e, f, s, t);
      ChildrenPrintable(lits, e);
      ChildrenPrintable(lits, f);
      ReadsBackFrom(fmt, e, f, Children(e), Children(f), 0, s, t, lits);
      ShapeAndChildren(e, f);
    }
  }

  lemma Compound(fmt: real -> string, e: Expr, f: Expr, s: string, t: string)
    requires !IsLeaf(e) && !IsLeaf(f) && Print(fmt, e) + s == Print(fmt, f) + t
    ensures ShapeOf(e) == ShapeOf(f)
    ensures PrintFrom(fmt, e, Children(e), 0) + (")" + s) == PrintFrom(fmt, f, Children(f), 0) + (")" + t)
  {
    var p, q := PrintFrom(fmt, e, Children(e), 0), PrintFrom(fmt, f, Children(f), 0);
    assert Print(fmt, e) == Opening(ShapeOf(e)) + (p + ")") && Print(fmt, f) == Opening(ShapeOf(f)) + (q + ")");
    hide Print, PrintFrom, Opening;
    assert Print(fmt, e) + s == Opening(ShapeOf(e)) + (p + (")" + s));
    assert Print(fmt, f) + t == Opening(ShapeOf(f)) + (q + (")" + t));
    OpeningsDiffer(ShapeOf(e), ShapeOf(f), p + (")" + s), q + (")" + t));
  }

  lemma FirstPrinted(fmt: real -> string, e: Expr, cs: seq<Expr>, i: nat, s: string)
    requires (forall j :: 0 <= j < |cs| ==> cs[j] < e) && i < |cs|
    ensures PrintFrom(fmt, e, cs, i) + (")" + s) ==
            (if i > 0 then " " else "") + (Print(fmt, cs[i]) + (PrintFrom(fmt, e, cs, i + 1) + (")" + s)))
  {
    hide Print;
  }

  lemma {:induction false} ReadsBackFrom(fmt: real -> string, e: Expr, f: Expr, cs: seq<Expr>, ds: seq<Expr>, i: nat,
                                         s: string, t: string, lits: set<real>)
    requires GoodFormat(fmt, lits) && Ends(s) && Ends(t)
    requires (forall j :: 0 <= j < |cs| ==> cs[j] < e) && (forall j :: 0 <= j < |ds| ==> ds[j] < f)
    requires (forall c :: c in cs ==> Printable(lits, c)) && (forall d :: d in ds ==> Printable(lits, d))
    requires i <= |cs| && i <= |ds| && cs[..i] == ds[..i]
    requires PrintFrom(fmt, e, cs, i) + (")" + s) == PrintFrom(fmt, f, ds, i) + (")" + t)
    ensures cs == ds && s == t
    decreases e, 0, |cs| - i
  {
    hide GoodFormat, Printable, Print;
    var x, y := PrintFrom(fmt, e, cs, i) + (")" + s), PrintFrom(fmt, f, ds, i) + (")" + t);
    NextChar(fmt, e, cs, i, s);
    NextChar(fmt, f, ds, i, t);
    if i == |cs| {
      assert cs == cs[..i] && ds == ds[..i];
      assert x == ")" + s && y == ")" + t;
      CancelFront(")", s, t);
    } else {
      var sep := if i > 0 then " " else "";
      var u, v := PrintFrom(fmt, e, cs, i + 1) + (")" + s), PrintFrom(fmt, f, ds, i + 1) + (")" + t);
      FirstPrinted(fmt, e, cs, i, s);
      FirstPrinted(fmt, f, ds, i, t);
      CancelFront(sep, Print(fmt, cs[i]) + u, Print(fmt, ds[i]) + v);
      NextChar(fmt, e, cs, i + 1, s);
      NextChar(fmt, f, ds, i + 1, t);
      assert cs[i] in cs && ds[i] in ds;
      ReadsBack(fmt, cs[i], ds[i], u, v, lits);
      assert cs[..i + 1] == cs[..i] + [cs[i]] && ds[..i + 1] == ds[..i] + [ds[i]];
      ReadsBackFrom(fmt, e, f, cs, ds, i + 1, s, t, lits);
    }
  }

  /** A list goes on with a space after the first child, and closes with a parenthesis. */
  lemma NextChar(fmt: real -> string, e: Expr, cs: seq<Expr>, i: nat, s: string)
    requires i <= |cs| && forall j :: 0 <= j < |cs| ==> cs[j] < e
    ensures var x := PrintFrom(fmt, e, cs, i) + (")" + s);
            x != "" && (i == |cs| ==> x[0] == ')') && (i < |cs| ==> x[0] != ')') && (0 < i < |cs| ==> x[0] == ' ')
    ensures i > 0 ==> Ends(PrintFrom(fmt, e, cs, i) + (")" + s))
  {
    if i < |cs| { FirstChar(fmt, cs[i]); }
  }

  /** The printer is injective: equal strings come from equal expressions. */
  lemma PrintInjective(fmt: real -> string, e: Expr, f: Expr, lits: set<real>)
    requires GoodFormat(fmt, lits) && Printable(lits, e) && Printable(lits, f)
    ensures Print(fmt, e) == Print(fmt, f) <==> e == f
  {
    if Print(fmt, e) == Print(fmt, f) {
      assert Print(fmt, e) + "" == Print(fmt, f) + "";
      ReadsBack(fmt, e, f, "", "", lits);
    }
  }

  // ----- the text itself -----

  /** The texts with one space between them. */
  function Joined(texts: seq<string>): string {
    if texts == [] then "" else if |texts| == 1 then texts[0] else texts[0] + " " + Joined(texts[1..])
  }

  /** The printed operands, in order. */
  function Texts(fmt: real -> string, es: seq<Expr>): seq<string> {
    seq(|es|, i requires 0 <= i < |es| => Print(fmt, es[i]))
  }

  lemma {:induction false} PrintedFrom(fmt: real -> string, e: Expr, cs: seq<Expr>, i: nat)
    requires i <= |cs| && forall j :: 0 <= j < |cs| ==> cs[j] < e
    ensures PrintFrom(fmt, e, cs, i) == (if 0 < i < |cs| then " " else "") + Joined(Texts(fmt, cs[i..]))
    decreases |cs| - i
  {
    hide Print;
    var texts := Texts(fmt, cs[i..]);
    if i < |cs| {
      PrintedFrom(fmt, e, cs, i + 1);
      assert texts[0] == Print(fmt, cs[i]) && texts[1..] == Texts(fmt, cs[i + 1..]);
      OneMoreJoined(texts);
      hide Joined, Texts;
    }
  }

  lemma OneMoreJoined(texts: seq<string>)
    requires texts != []
    ensures Joined(texts) == texts[0] + ((if |texts| > 1 then " " else "") + Joined(texts[1..]))
  {
  }

  /** The canonical text of each kind of expression: a prefix form, operands separated by one space. */
  lemma PrintedText(fmt: real -> string, x: string, v: real, a: Expr, b: Expr, es: seq<Expr>)
    ensures Print(fmt, Var(x)) == "V:" + x && Print(fmt, Lit(v)) == "L:" + fmt(v)
    ensures Print(fmt, Neg(a)) == "(neg " + (Print(fmt, a) + ")")
    ensures Print(fmt, Pow(a, b)) == "(pow " + (Print(fmt, a) + " " + Print(fmt, b) + ")")
    ensures Print(fmt, Add(es)) == "(add " + (Joined(Texts(fmt, es)) + ")")
    ensures Print(fmt, Mul(es)) == "(mul " + (Joined(Texts(fmt, es)) + ")")
  {
    LeafText(fmt, x, v);
    hide Print, PrintFrom, Joined, Texts;
    NodeText(fmt, Neg(a));
    NodeText(fmt, Pow(a, b));
    NodeText(fmt, Add(es));
    NodeText(fmt, Mul(es));
    OneText(fmt, a);
    TwoTexts(fmt, a, b);
  }

  /** The canonical text of the named functions. */
  lemma FunctionText(fmt: real -> string, f: UnaryFn, a: Expr)
    ensures Print(fmt, Unary(f, a)) ==
            (match f
             case Sqrt => "(sqrt "
             case Sin => "(sin "
             case Cos => "(cos "
             case Exp => "(exp "
             case Ln => "(ln ") + (Print(fmt, a) + ")")
  {
    hide Print, PrintFrom, Joined, Texts;
    NodeText(fmt, Unary(f, a));
    OneText(fmt, a);
    match f
    case Sqrt =>
    case Sin =>
    case Cos =>
    case Exp =>
    case Ln =>
  }

  lemma LeafText(fmt: real -> string, x: string, v: real)
    ensures Print(fmt, Var(x)) == "V:" + x && Print(fmt, Lit(v)) == "L:" + fmt(v)
  {
  }

  lemma NodeText(fmt: real -> string, e: Expr)
    requires !IsLeaf(e)
    ensures Print(fmt, e) == Opening(ShapeOf(e)) + (Joined(Texts(fmt, Children(e))) + ")")
  {
    hide Joined, Texts, PrintFrom, Opening, ShapeOf;
    var cs := Children(e);
    PrintedFrom(fmt, e, cs, 0);
    assert cs[0..] == cs;
  }

  lemma OneText(fmt: real -> string, a: Expr)
    ensures Joined(Texts(fmt, [a])) == Print(fmt, a)
  {
  }

  lemma TwoTexts(fmt: real -> string, a: Expr, b: Expr)
    ensures Joined(Texts(fmt, [a, b])) == Print(fmt, a) + " " + Print(fmt, b)
  {
    var texts := Texts(fmt, [a, b]);
    assert texts[1..] == [Print(fmt, b)];
  }
}
