/** Port and node names, their byte order, and iteration over ordered maps.
    The sources keep names in ordered maps, so every traversal visits keys in ascending name order. */
module Names {

  /** Strict lexicographic order on names. */
  predicate Before(a: string, b: string) {
    b != [] && (a == [] || a[0] < b[0] || (a[0] == b[0] && Before(a[1..], b[1..])))
  }

  lemma {:induction false} BeforeIrreflexive(a: string)
    ensures !Before(a, a)
  {
    if a != [] {
      BeforeIrreflexive(a[1..]);
    }
  }

  lemma {:induction false} BeforeTransitive(a: string, b: string, c: string)
    requires Before(a, b) && Before(b, c)
    ensures Before(a, c)
  {
    if a != [] && a[0] == b[0] == c[0] {
      BeforeTransitive(a[1..], b[1..], c[1..]);
    }
  }

  lemma {:induction false} BeforeTotal(a: string, b: string)
    ensures Before(a, b) || a == b || Before(b, a)
  {
    if a != [] && b != [] && a[0] == b[0] {
      BeforeTotal(a[1..], b[1..]);
      assert a == [a[0]] + a[1..] && b == [b[0]] + b[1..];
    }
  }

  /** `a` and `b` agree on their first `n` characters. */
  ghost predicate Agree(a: string, b: string, n: nat) {
    n <= |a| && n <= |b| && a[..n] == b[..n]
  }

  /** `a` comes first when, after a common beginning, it has ended or its next character is the smaller one. */
  lemma {:induction false} BeforeIsLexicographic(a: string, b: string)
    ensures Before(a, b) <==> exists n: nat :: Agree(a, b, n) && n < |b| && (n < |a| ==> a[n] < b[n])
  {
    if a == [] {
      assert b != [] ==> Agree(a, b, 0);
    } else if b != [] {
      BeforeIsLexicographic(a[1..], b[1..]);
      if a[0] < b[0] { assert Agree(a, b, 0); }
      if a[0] == b[0] && Before(a[1..], b[1..]) {
        var n: nat :| Agree(a[1..], b[1..], n) && n < |b[1..]| && (n < |a[1..]| ==> a[1..][n] < b[1..][n]);
        assert a[..n + 1] == [a[0]] + a[1..][..n] && b[..n + 1] == [b[0]] + b[1..][..n];
        assert Agree(a, b, n + 1);
      }
      if n: nat :| Agree(a, b, n) && n < |b| && (n < |a| ==> a[n] < b[n]) && n > 0 {
        assert a[0] == a[..n][0] == b[..n][0] == b[0];
        assert a[1..][..n - 1] == a[..n][1..] && b[1..][..n - 1] == b[..n][1..];
        assert Agree(a[1..], b[1..], n - 1);
      }
    }
  }

  /** `x` is the first name of `s`. */
  predicate IsFirst(x: string, s: set<string>) {
    x in s && forall y :: y in s && y != x ==> Before(x, y)
  }

  lemma {:induction false} FirstExists(s: set<string>)
    requires s != {}
    ensures exists x :: IsFirst(x, s)
  {
    var a :| a in s;
    if s == {a} {
      assert IsFirst(a, s);
    } else {
      var rest := s - {a};
      FirstExists(rest);
      var b :| IsFirst(b, rest);
      BeforeTotal(a, b);
      if Before(a, b) {
        forall y | y in s && y != a ensures Before(a, y) {
          if y != b { BeforeTransitive(a, b, y); }
        }
        assert IsFirst(a, s);
      } else {
        assert IsFirst(b, s);
      }
    }
  }

  lemma FirstUnique(x: string, y: string, s: set<string>)
    requires IsFirst(x, s) && IsFirst(y, s)
    ensures x == y
  {
    if x != y {
      BeforeTransitive(x, y, x);
      BeforeIrreflexive(x);
    }
  }

  /** The first name of a non-empty set. */
  function First(s: set<string>): (x: string)
    requires s != {}
    ensures IsFirst(x, s)
  {
    FirstExists(s);
    assert forall x, y :: IsFirst(x, s) && IsFirst(y, s) ==> x == y by {
      forall x, y | IsFirst(x, s) && IsFirst(y, s) ensures x == y { FirstUnique(x, y, s); }
    }
    var x :| x in s && IsFirst(x, s);
    x
  }

  predicate Ascending(ks: seq<string>) {
    forall i, j :: 0 <= i < j < |ks| ==> Before(ks[i], ks[j])
  }

  predicate Distinct(ks: seq<string>) {
    forall i, j :: 0 <= i < j < |ks| ==> ks[i] != ks[j]
  }

  /** The names of `s` in iteration order. */
  function Sorted(s: set<string>): (ks: seq<string>)
    ensures forall x :: x in ks <==> x in s
    ensures |ks| == |s|
    decreases |s|
  {
    if s == {} then []
    else
      var x := First(s);
      [x] + Sorted(s - {x})
  }

  lemma {:induction false} SortedAscends(s: set<string>)
    ensures Ascending(Sorted(s))
    decreases |s|
  {
    if s != {} {
      var x := First(s);
      SortedAscends(s - {x});
      var tail := Sorted(s - {x});
      forall j | 0 <= j < |tail| ensures Before(x, tail[j]) {
        assert tail[j] in tail;
      }
    }
  }

  lemma AscendingDistinct(ks: seq<string>)
    requires Ascending(ks)
    ensures Distinct(ks)
  {
    forall i, j | 0 <= i < j < |ks| ensures ks[i] != ks[j] {
      BeforeIrreflexive(ks[i]);
    }
  }

  lemma SortedDistinct(s: set<string>)
    ensures Distinct(Sorted(s))
  {
    SortedAscends(s);
    AscendingDistinct(Sorted(s));
  }

  /** Sum of the values of `m` over the listed keys. */
  function SumOver(ks: seq<string>, m: map<string, real>): real
    requires forall k :: k in ks ==> k in m
  {
    if ks == [] then 0.0 else m[ks[0]] + SumOver(ks[1..], m)
  }

  /** Sum of all values of `m`. */
  function Sum(m: map<string, real>): real {
    SumOver(Sorted(m.Keys), m)
  }

  lemma {:induction false} SumOverMonotone(ks: seq<string>, m: map<string, real>, n: map<string, real>)
    requires forall k :: k in ks ==> k in m && k in n && m[k] <= n[k]
    ensures SumOver(ks, m) <= SumOver(ks, n)
  {
    if ks != [] {
      SumOverMonotone(ks[1..], m, n);
    }
  }

  lemma SumMonotone(m: map<string, real>, n: map<string, real>)
    requires m.Keys == n.Keys
    requires forall k :: k in m ==> m[k] <= n[k]
    ensures Sum(m) <= Sum(n)
  {
    SumOverMonotone(Sorted(m.Keys), m, n);
  }

  lemma {:induction false} SumOverBounds(ks: seq<string>, m: map<string, real>)
    requires forall k :: k in ks ==> k in m && m[k] >= 0.0
    ensures SumOver(ks, m) >= 0.0
    ensures forall k :: k in ks ==> m[k] <= SumOver(ks, m)
  {
    if ks != [] {
      SumOverBounds(ks[1..], m);
    }
  }

  lemma SumBounds(m: map<string, real>)
    requires forall k :: k in m ==> m[k] >= 0.0
    ensures Sum(m) >= 0.0
    ensures forall k :: k in m ==> m[k] <= Sum(m)
  {
    SumOverBounds(Sorted(m.Keys), m);
  }

  lemma SumOne(p: string, m: map<string, real>)
    requires m.Keys == {p}
    ensures Sum(m) == m[p]
  {
    var ks := Sorted(m.Keys);
    assert |{p}| == 1;
    assert ks[0] in ks && ks[1..] == [];
    assert SumOver(ks, m) == m[ks[0]] + SumOver(ks[1..], m);
  }

  lemma SumAtLeastTwo(m: map<string, real>, p: string, q: string)
    requires p in m && q in m && p != q && forall k :: k in m ==> m[k] >= 0.0
    ensures Sum(m) >= m[p] + m[q]
  {
    SortedDistinct(m.Keys);
    SumOverAtLeastTwo(Sorted(m.Keys), m, p, q);
  }

  lemma {:induction false} SumOverAtLeastTwo(ks: seq<string>, m: map<string, real>, p: string, q: string)
    requires (forall k :: k in ks ==> k in m && m[k] >= 0.0) && p in ks && q in ks && p != q
    ensures SumOver(ks, m) >= m[p] + m[q]
  {
    SumOverBounds(ks[1..], m);
    if ks[0] != p && ks[0] != q { SumOverAtLeastTwo(ks[1..], m, p, q); }
  }
}
