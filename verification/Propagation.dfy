/** Corner sweeps and accumulation by inflation: the one home of the error arithmetic. */
module Propagation {
  import opened Wrappers
  import opened Reals
  import opened Intervals
  import Names

  type Point = map<string, real>
  type Box = map<string, Interval>

  // ----- inflation -----

  function Inflate(iv: Interval, eps: real): Interval {
    Interval(iv.lo - eps, iv.hi + eps)
  }

  function TotalError(hull: Interval, modelEps: real): real {
    hull.HalfWidth() + modelEps
  }

  /** The budget-checked quantity is the half width of the inflated interval, so inclusion of inflated
      intervals orders total errors. */
  lemma TotalErrorIsInflatedHalfWidth(a: Interval, ea: real, b: Interval, eb: real)
    ensures TotalError(a, ea) == Inflate(a, ea).HalfWidth()
    ensures Inflate(a, ea).IsSubset(Inflate(b, eb)) ==> TotalError(a, ea) <= TotalError(b, eb)
  {
    assert TotalError(b, eb) == Inflate(b, eb).HalfWidth();
  }

  /** `y` is within `eps` of some point of `iv`. */
  ghost predicate Near(iv: Interval, eps: real, y: real) {
    exists x :: iv.Contains(x) && Abs(y - x) <= eps
  }

  /** Inflation holds exactly the values within `eps` of some point of the interval, and no smaller interval holds
      them all. */
  lemma InflateIsLeast(iv: Interval, eps: real, c: Interval)
    requires iv.Valid() && eps >= 0.0
    ensures Inflate(iv, eps).Valid() && forall y :: Inflate(iv, eps).Contains(y) <==> Near(iv, eps, y)
    ensures Inflate(iv, eps).IsSubset(c) <==> forall y :: Near(iv, eps, y) ==> c.Contains(y)
  {
    forall y ensures Inflate(iv, eps).Contains(y) <==> Near(iv, eps, y) {
      if Inflate(iv, eps).Contains(y) {
        var x := if y < iv.lo then iv.lo else if y > iv.hi then iv.hi else y;
        assert iv.Contains(x) && Abs(y - x) <= eps;
      }
    }
    SubsetIsPointwise(Inflate(iv, eps), c);
  }

  // ----- corners -----

  function Candidates(iv: Interval): seq<real> {
    if iv.lo == iv.hi then [iv.lo] else [iv.lo, iv.hi]
  }

  function ExtendOne(c: Point, port: string, values: seq<real>): seq<Point> {
    seq(|values|, i requires 0 <= i < |values| => c[port := values[i]])
  }

  /** Every corner of `corners` extended by every value, corners outermost. */
  function Extend(corners: seq<Point>, port: string, values: seq<real>): seq<Point> {
    if corners == [] then [] else ExtendOne(corners[0], port, values) + Extend(corners[1..], port, values)
  }

  /** The corner product over `ports`, the last port varying fastest. */
  function Corners(ports: seq<string>, box: Box): seq<Point>
    requires forall p :: p in ports ==> p in box
  {
    if ports == [] then [map[]]
    else
      var n := |ports| - 1;
      Extend(Corners(ports[..n], box), ports[n], Candidates(box[ports[n]]))
  }

  /** `c` assigns each port of the box one of its two end values. */
  predicate IsCorner(c: Point, box: Box) {
    c.Keys == box.Keys && forall p :: p in box ==> c[p] == box[p].lo || c[p] == box[p].hi
  }

  /** `c` extends some member of `corners` by some value at `port`. */
  ghost predicate Extends(c: Point, corners: seq<Point>, port: string, values: seq<real>) {
    exists b, v :: b in corners && v in values && c == b[port := v]
  }

  lemma {:induction false} ExtendMembers(corners: seq<Point>, port: string, values: seq<real>, c: Point)
    ensures c in Extend(corners, port, values) <==> Extends(c, corners, port, values)
  {
    if corners != [] {
      var head, rest := ExtendOne(corners[0], port, values), corners[1..];
      ExtendMembers(rest, port, values, c);
      assert corners == [corners[0]] + rest;
      if c in head {
        var i :| 0 <= i < |head| && head[i] == c;
        var b, v := corners[0], values[i];
        assert b in corners && v in values && c == b[port := v];
      }
      if Extends(c, corners, port, values) {
        var b, v :| b in corners && v in values && c == b[port := v];
        if b == corners[0] {
          var i :| 0 <= i < |values| && values[i] == v;
          assert head[i] == c;
        } else {
          assert b in rest;
          assert Extends(c, rest, port, values);
        }
      }
      if Extends(c, rest, port, values) {
        var b, v :| b in rest && v in values && c == b[port := v];
        assert b in corners;
      }
    }
  }

  /** `c` is defined on exactly the listed ports, with an end value at each. */
  predicate EndsAt(c: Point, ports: seq<string>, box: Box)
    requires forall p :: p in ports ==> p in box
  {
    c.Keys == (set p | p in ports) && forall p :: p in ports ==> c[p] == box[p].lo || c[p] == box[p].hi
  }

  lemma EndsAtAdd(b: Point, v: real, front: seq<string>, last: string, box: Box)
    requires last !in front && last in box && (forall p :: p in front ==> p in box)
    requires EndsAt(b, front, box) && v in Candidates(box[last])
    ensures EndsAt(b[last := v], front + [last], box)
  {
    assert b[last := v].Keys == set p | p in front + [last];
  }

  lemma EndsAtDrop(c: Point, front: seq<string>, last: string, box: Box)
    requires last !in front && last in box && (forall p :: p in front ==> p in box)
    requires EndsAt(c, front + [last], box)
    ensures last in c && c[last] in Candidates(box[last])
    ensures EndsAt(c - {last}, front, box) && c == (c - {last})[last := c[last]]
  {
    assert last in front + [last];
    assert forall p :: p in front ==> p in front + [last];
    assert (c - {last}).Keys == set p | p in front;
  }

  lemma CornersGrow(front: seq<string>, last: string, box: Box, prev: seq<Point>, c: Point)
    requires last !in front && last in box && (forall p :: p in front ==> p in box)
    requires forall b :: b in prev <==> EndsAt(b, front, box)
    ensures c in Extend(prev, last, Candidates(box[last])) <==> EndsAt(c, front + [last], box)
  {
    var values := Candidates(box[last]);
    ExtendMembers(prev, last, values, c);
    if Extends(c, prev, last, values) {
      var b, v :| b in prev && v in values && c == b[last := v];
      EndsAtAdd(b, v, front, last, box);
    }
    if EndsAt(c, front + [last], box) {
      EndsAtDrop(c, front, last, box);
    }
  }

  lemma {:induction false} CornersMembers(ports: seq<string>, box: Box, c: Point)
    requires Names.Distinct(ports) && forall p :: p in ports ==> p in box
    ensures c in Corners(ports, box) <==> EndsAt(c, ports, box)
  {
    if ports == [] {
      assert c.Keys == {} <==> c == map[];
    } else {
      var n := |ports| - 1;
      var last, front := ports[n], ports[..n];
      var prev := Corners(front, box);
      forall b ensures b in prev <==> EndsAt(b, front, box) { CornersMembers(front, box, b); }
      CornersGrow(front, last, box, prev, c);
      assert ports == front + [last];
    }
  }

  ghost predicate Full(ports: seq<string>, c: Point) {
    forall p :: p in ports ==> p in c
  }

  /** Comparison by values in port order: the first port that differs decides. */
  predicate LexLess(ports: seq<string>, a: Point, b: Point) {
    ports != [] && ports[0] in a && ports[0] in b &&
    (a[ports[0]] < b[ports[0]] || (a[ports[0]] == b[ports[0]] && LexLess(ports[1..], a, b)))
  }

  predicate StrictlyAscending(ports: seq<string>, cs: seq<Point>) {
    forall i, j :: 0 <= i < j < |cs| ==> LexLess(ports, cs[i], cs[j])
  }

  lemma {:induction false} LexLessExtend(ports: seq<string>, last: string, a: Point, b: Point, x: real, y: real)
    requires last !in ports && Full(ports, a) && Full(ports, b)
    requires LexLess(ports, a, b) || (a == b && x < y)
    ensures LexLess(ports + [last], a[last := x], b[last := y])
  {
    if ports == [] {
      assert ports + [last] == [last];
    } else {
      assert (ports + [last])[1..] == ports[1..] + [last];
      if a[ports[0]] == b[ports[0]] { LexLessExtend(ports[1..], last, a, b, x, y); }
    }
  }

  lemma {:induction false} ExtendAscending(ports: seq<string>, last: string, cs: seq<Point>, values: seq<real>)
    requires StrictlyAscending(ports, cs) && last !in ports && forall c :: c in cs ==> Full(ports, c)
    requires forall i, j :: 0 <= i < j < |values| ==> values[i] < values[j]
    ensures StrictlyAscending(ports + [last], Extend(cs, last, values))
  {
    if cs != [] {
      var head, tail := ExtendOne(cs[0], last, values), Extend(cs[1..], last, values);
      ExtendAscending(ports, last, cs[1..], values);
      forall i, j | 0 <= i < |head| && 0 <= j < |head| && i < j ensures LexLess(ports + [last], head[i], head[j]) {
        LexLessExtend(ports, last, cs[0], cs[0], values[i], values[j]);
      }
      forall i, c | 0 <= i < |head| && c in tail ensures LexLess(ports + [last], head[i], c) {
        ExtendMembers(cs[1..], last, values, c);
        var b, v :| b in cs[1..] && v in values && c == b[last := v];
        var m :| 0 <= m < |cs[1..]| && cs[1..][m] == b;
        assert cs[m + 1] == b;
        LexLessExtend(ports, last, cs[0], b, values[i], v);
      }
      var all := head + tail;
      forall i, j | 0 <= i < j < |all| ensures LexLess(ports + [last], all[i], all[j]) {
        if i < |head| <= j { assert all[j] in tail; }
      }
    }
  }

  lemma {:induction false} CornersAscending(ports: seq<string>, box: Box)
    requires Names.Distinct(ports) && forall p :: p in ports ==> p in box && box[p].Valid()
    ensures StrictlyAscending(ports, Corners(ports, box))
  {
    if ports != [] {
      var n := |ports| - 1;
      CornersAscending(ports[..n], box);
      var prev := Corners(ports[..n], box);
      forall c | c in prev ensures Full(ports[..n], c) { CornersMembers(ports[..n], box, c); }
      ExtendAscending(ports[..n], ports[n], prev, Candidates(box[ports[n]]));
      assert ports[..n] + [ports[n]] == ports;
    }
  }

  /** Stable insertion before the first corner that is not smaller. */
  function Insert(ports: seq<string>, c: Point, cs: seq<Point>): seq<Point> {
    if cs == [] || !LexLess(ports, cs[0], c) then [c] + cs else [cs[0]] + Insert(ports, c, cs[1..])
  }

  /** The library sort applied to the product, as an insertion sort. */
  function SortCorners(ports: seq<string>, cs: seq<Point>): seq<Point> {
    if cs == [] then [] else Insert(ports, cs[0], SortCorners(ports, cs[1..]))
  }

  lemma {:induction false} LexLessAsymmetric(ports: seq<string>, a: Point, b: Point)
    requires LexLess(ports, a, b)
    ensures !LexLess(ports, b, a)
  {
    if a[ports[0]] == b[ports[0]] { LexLessAsymmetric(ports[1..], a, b); }
  }

  lemma {:induction false} SortOfSorted(ports: seq<string>, cs: seq<Point>)
    requires StrictlyAscending(ports, cs)
    ensures SortCorners(ports, cs) == cs
  {
    if cs != [] {
      SortOfSorted(ports, cs[1..]);
      if |cs| > 1 { LexLessAsymmetric(ports, cs[0], cs[1]); }
    }
  }

  /** The enumeration lists every corner of the box exactly once, in strictly ascending order; the final
      sort of the source leaves the product as it was built. */
  method EnumerateCorners(box: Box) returns (corners: seq<Point>)
    requires forall p :: p in box ==> box[p].Valid()
    ensures corners == Corners(Names.Sorted(box.Keys), box)
    ensures forall c :: c in corners <==> IsCorner(c, box)
    ensures StrictlyAscending(Names.Sorted(box.Keys), corners)
  {
    var ports := Names.Sorted(box.Keys);
    corners := [map[]];
    for n := 0 to |ports|
      invariant corners == Corners(ports[..n], box)
    {
      assert ports[..n + 1][..n] == ports[..n];
      corners := ExtendAll(corners, ports[n], Candidates(box[ports[n]]));
    }
    assert ports[..|ports|] == ports;
    Names.SortedDistinct(box.Keys);
    CornersAscending(ports, box);
    SortOfSorted(ports, corners);
    corners := SortCorners(ports, corners);
    CornersOfBox(box);
  }

  /** The two inner loops of the enumeration. */
  method ExtendAll(corners: seq<Point>, port: string, values: seq<real>) returns (next: seq<Point>)
    ensures next == Extend(corners, port, values)
  {
    next := [];
    for i := 0 to |corners|
      invariant next == Extend(corners[..i], port, values)
    {
      ExtendAppend(corners[..i], corners[i], port, values);
      assert corners[..i + 1] == corners[..i] + [corners[i]];
      var grown := ExtendPoint(corners[i], port, values);
      next := next + grown;
    }
    assert corners[..|corners|] == corners;
  }

  method ExtendPoint(c: Point, port: string, values: seq<real>) returns (grown: seq<Point>)
    ensures grown == ExtendOne(c, port, values)
  {
    grown := [];
    for j := 0 to |values|
      invariant |grown| == j && forall k :: 0 <= k < j ==> grown[k] == c[port := values[k]]
    {
      grown := grown + [c[port := values[j]]];
    }
  }

  lemma {:induction false} ExtendAppend(cs: seq<Point>, c: Point, port: string, values: seq<real>)
    ensures Extend(cs + [c], port, values) == Extend(cs, port, values) + ExtendOne(c, port, values)
  {
    if cs != [] {
      ExtendAppend(cs[1..], c, port, values);
      assert (cs + [c])[1..] == cs[1..] + [c];
    }
  }

  lemma CornersOfBox(box: Box)
    ensures forall c :: c in Corners(Names.Sorted(box.Keys), box) <==> IsCorner(c, box)
  {
    var ports := Names.Sorted(box.Keys);
    Names.SortedDistinct(box.Keys);
    forall c ensures c in Corners(ports, box) <==> IsCorner(c, box) {
      CornersMembers(ports, box, c);
      assert (set p | p in ports) == box.Keys;
    }
  }

  // ----- hulls -----

  /** One result folded into the running hull. */
  function Merge(hull: Box, out: Point): Box {
    map p | p in hull.Keys + out.Keys ::
      if p !in out then hull[p]
      else if p in hull then hull[p].Hull(Interval.Point(out[p]))
      else Interval.Point(out[p])
  }

  function HullFold(results: seq<Point>): Box {
    if results == [] then map[] else Merge(HullFold(results[..|results| - 1]), results[|results| - 1])
  }

  predicate Reports(r: Point, p: string, v: real) {
    p in r && r[p] == v
  }

  ghost predicate Reported(results: seq<Point>, p: string, v: real) {
    exists r :: r in results && Reports(r, p, v)
  }

  /** `hull` is the smallest box of the results: it holds every reported value, and both ends of each of
      its intervals are reported values. */
  ghost predicate IsHull(results: seq<Point>, hull: Box) {
    && (forall p, v :: Reported(results, p, v) ==> p in hull && hull[p].Contains(v))
    && (forall p :: p in hull ==> Reported(results, p, hull[p].lo) && Reported(results, p, hull[p].hi))
  }

  lemma {:induction false} HullFoldIsHull(results: seq<Point>)
    ensures IsHull(results, HullFold(results))
  {
    if results == [] {
      assert forall p, v :: !Reported(results, p, v);
    } else {
      var n := |results| - 1;
      var front, last := results[..n], results[n];
      HullFoldIsHull(front);
      assert results == front + [last];
      forall p, v ensures Reported(results, p, v) <==> Reported(front, p, v) || Reports(last, p, v) {
        if Reports(last, p, v) { assert last in results; }
        if Reported(front, p, v) {
          var r :| r in front && Reports(r, p, v);
          assert r in results;
        }
      }
      MergeKeepsHull(front, last, results, HullFold(front));
    }
  }

  lemma MergeKeepsHull(front: seq<Point>, last: Point, results: seq<Point>, hull: Box)
    requires IsHull(front, hull)
    requires forall p, v :: Reported(results, p, v) <==> Reported(front, p, v) || Reports(last, p, v)
    ensures IsHull(results, Merge(hull, last))
  {
    var merged := Merge(hull, last);
    forall p | p in merged ensures Reported(results, p, merged[p].lo) && Reported(results, p, merged[p].hi) {
      if p in last { assert Reports(last, p, last[p]); }
    }
  }

  lemma HullUnique(results: seq<Point>, a: Box, b: Box)
    requires IsHull(results, a) && IsHull(results, b)
    ensures a == b
  {
    forall p | p in a ensures p in b && a[p] == b[p] {
      assert Reported(results, p, a[p].lo) && Reported(results, p, a[p].hi);
      assert Reported(results, p, b[p].lo) && Reported(results, p, b[p].hi);
    }
    forall p | p in b ensures p in a { assert Reported(results, p, b[p].lo); }
    assert a.Keys == b.Keys;
  }

  /** Results may arrive in any order: the hull depends only on which results there are. */
  lemma HullOrderIndependent(results: seq<Point>, arrival: seq<Point>)
    requires multiset(results) == multiset(arrival)
    ensures HullFold(results) == HullFold(arrival)
  {
    HullFoldIsHull(results);
    HullFoldIsHull(arrival);
    forall p, v ensures Reported(results, p, v) <==> Reported(arrival, p, v) {
      assert forall r :: r in results <==> r in multiset(results);
      assert forall r :: r in arrival <==> r in multiset(arrival);
    }
    HullUnique(results, HullFold(results), HullFold(arrival));
  }

  function MergePoint(hull: Box, p: string, v: real): Box {
    hull[p := if p in hull then hull[p].Hull(Interval.Point(v)) else Interval.Point(v)]
  }

  /** The ports from position `i` on merged one after another. */
  function MergeFrom(hull: Box, out: Point, ports: seq<string>, i: nat): Box
    requires i <= |ports| && forall p :: p in ports ==> p in out
    decreases |ports| - i
  {
    if i == |ports| then hull else MergeFrom(MergePoint(hull, ports[i], out[ports[i]]), out, ports, i + 1)
  }

  lemma {:induction false} MergeFromAt(hull: Box, out: Point, ports: seq<string>, i: nat, p: string)
    requires i <= |ports| && Names.Distinct(ports) && forall q :: q in ports ==> q in out
    ensures var merged := MergeFrom(hull, out, ports, i);
            if p in ports[i..] then p in merged && merged[p] == MergePoint(hull, p, out[p])[p]
            else (p in merged <==> p in hull) && (p in hull ==> merged[p] == hull[p])
    decreases |ports| - i
  {
    if i < |ports| {
      MergeFromAt(MergePoint(hull, ports[i], out[ports[i]]), out, ports, i + 1, p);
      assert ports[i..] == [ports[i]] + ports[i + 1..];
    }
  }

  lemma MergeAllAt(hull: Box, out: Point, ports: seq<string>, p: string)
    requires Names.Distinct(ports) && forall q :: q in ports <==> q in out
    ensures p in MergeFrom(hull, out, ports, 0) <==> p in Merge(hull, out)
    ensures p in Merge(hull, out) ==> MergeFrom(hull, out, ports, 0)[p] == Merge(hull, out)[p]
  {
    MergeFromAt(hull, out, ports, 0, p);
    assert ports[0..] == ports;
  }

  lemma MergeAllPorts(hull: Box, out: Point, ports: seq<string>)
    requires Names.Distinct(ports) && forall q :: q in ports <==> q in out
    ensures MergeFrom(hull, out, ports, 0) == Merge(hull, out)
  {
    forall p
      ensures p in MergeFrom(hull, out, ports, 0) <==> p in Merge(hull, out)
      ensures p in Merge(hull, out) ==> MergeFrom(hull, out, ports, 0)[p] == Merge(hull, out)[p]
    {
      MergeAllAt(hull, out, ports, p);
    }
  }

  /** The inner loop of both folds: one result, port by port. */
  method MergeInto(hull: Box, out: Point) returns (merged: Box)
    ensures merged == Merge(hull, out)
  {
    merged := hull;
    var ports := Names.Sorted(out.Keys);
    Names.SortedDistinct(out.Keys);
    MergeAllPorts(hull, out, ports);
    for i := 0 to |ports|
      invariant MergeFrom(merged, out, ports, i) == Merge(hull, out)
    {
      merged := MergePoint(merged, ports[i], out[ports[i]]);
    }
  }

  method HullFromResults(results: seq<Point>) returns (hull: Box)
    ensures hull == HullFold(results)
    ensures IsHull(results, hull)
  {
    hull := map[];
    for i := 0 to |results|
      invariant hull == HullFold(results[..i])
    {
      assert results[..i + 1][..i] == results[..i];
      hull := MergeInto(hull, results[i]);
    }
    assert results[..|results|] == results;
    HullFoldIsHull(results);
  }

  function Values<E>(corners: seq<Point>, eval: Point -> Result<Point, E>): seq<Point>
    requires forall c :: c in corners ==> eval(c).Ok?
  {
    seq(|corners|, i requires 0 <= i < |corners| => eval(corners[i]).value)
  }

  /** Outcome of evaluating in order: all values hulled, or the error of the first failing corner. */
  ghost predicate SweepOutcome<E>(cs: seq<Point>, eval: Point -> Result<Point, E>, r: Result<Box, E>) {
    match r
    case Ok(hull) => (forall c :: c in cs ==> eval(c).Ok?) && hull == HullFold(Values(cs, eval))
    case Err(e) => exists i :: 0 <= i < |cs| && FailsFirstAt(cs, eval, i, e)
  }

  ghost predicate FailsFirstAt<E>(cs: seq<Point>, eval: Point -> Result<Point, E>, i: nat, e: E)
    requires i < |cs|
  {
    eval(cs[i]).Err? && eval(cs[i]).error == e && forall j :: 0 <= j < i ==> eval(cs[j]).Ok?
  }

  method CornerSweep<E>(box: Box, eval: Point -> Result<Point, E>) returns (r: Result<Box, E>)
    requires forall p :: p in box ==> box[p].Valid()
    ensures SweepOutcome(Corners(Names.Sorted(box.Keys), box), eval, r)
  {
    var corners := EnumerateCorners(box);
    hide *;
    SweptNone(corners, eval);
    var hull: Box := map[];
    for i := 0 to |corners|
      invariant SweptTo(corners, eval, i, hull)
    {
      var out := eval(corners[i]);
      if out.Err? {
        SweptFails(corners, eval, i, hull);
        return Err(out.error);
      }
      SweptNext(corners, eval, i, hull);
      hull := MergeInto(hull, out.value);
    }
    SweptAll(corners, eval, hull);
    return Ok(hull);
  }

  /** The first `i` corners evaluate, and `hull` is the hull of their values. */
  ghost predicate SweptTo<E>(cs: seq<Point>, eval: Point -> Result<Point, E>, i: nat, hull: Box) {
    i <= |cs| && (forall c :: c in cs[..i] ==> eval(c).Ok?) && hull == HullFold(Values(cs[..i], eval))
  }

  lemma SweptNone<E>(cs: seq<Point>, eval: Point -> Result<Point, E>)
    ensures SweptTo(cs, eval, 0, map[])
  {
  }

  lemma SweptNext<E>(cs: seq<Point>, eval: Point -> Result<Point, E>, i: nat, hull: Box)
    requires i < |cs| && SweptTo(cs, eval, i, hull) && eval(cs[i]).Ok?
    ensures SweptTo(cs, eval, i + 1, Merge(hull, eval(cs[i]).value))
  {
    hide Merge;
    assert cs[..i + 1] == cs[..i] + [cs[i]];
    ValuesAppend(cs[..i], cs[i], eval);
  }

  lemma SweptFails<E>(cs: seq<Point>, eval: Point -> Result<Point, E>, i: nat, hull: Box)
    requires i < |cs| && SweptTo(cs, eval, i, hull) && eval(cs[i]).Err?
    ensures SweepOutcome(cs, eval, Err(eval(cs[i]).error))
  {
    hide HullFold;
    assert forall j :: 0 <= j < i ==> cs[j] in cs[..i];
    assert FailsFirstAt(cs, eval, i, eval(cs[i]).error);
  }

  lemma SweptAll<E>(cs: seq<Point>, eval: Point -> Result<Point, E>, hull: Box)
    requires SweptTo(cs, eval, |cs|, hull)
    ensures SweepOutcome(cs, eval, Ok(hull))
  {
    hide HullFold;
    assert cs[..|cs|] == cs;
  }

  lemma ValuesAppend<E>(cs: seq<Point>, c: Point, eval: Point -> Result<Point, E>)
    requires (forall d :: d in cs ==> eval(d).Ok?) && eval(c).Ok?
    ensures forall d :: d in cs + [c] ==> eval(d).Ok?
    ensures Values(cs + [c], eval) == Values(cs, eval) + [eval(c).value]
  {
  }

  /** A sweep fails exactly when some corner of the box fails. */
  lemma SweepFailsIff<E>(box: Box, eval: Point -> Result<Point, E>, r: Result<Box, E>)
    requires SweepOutcome(Corners(Names.Sorted(box.Keys), box), eval, r)
    ensures r.Err? <==> exists c :: IsCorner(c, box) && eval(c).Err?
  {
    CornersOfBox(box);
    var cs := Corners(Names.Sorted(box.Keys), box);
    if r.Err? {
      var i :| 0 <= i < |cs| && FailsFirstAt(cs, eval, i, r.error);
      assert cs[i] in cs;
    }
  }

  // ----- enclosure of one sweep -----

  ghost predicate InBox(x: Point, box: Box) {
    x.Keys == box.Keys && forall p :: p in box ==> box[p].Contains(x[p])
  }

  predicate Between(v: real, a: real, b: real) {
    a <= v <= b || b <= v <= a
  }

  /** Along every port axis of the box the output stays between its two end values. */
  ghost predicate AxisBounded(f: Point -> real, box: Box) {
    forall x, p :: InBox(x, box) && p in box ==>
      Between(f(x), f(x[p := box[p].lo]), f(x[p := box[p].hi]))
  }

  /** Moves the listed ports of `x` to end values without raising `f` (`up` false) or lowering it (`up` true). */
  lemma {:induction false} SnapPorts(f: Point -> real, box: Box, ports: seq<string>, x: Point, up: bool)
    returns (c: Point)
    requires forall p :: p in box ==> box[p].Valid()
    requires AxisBounded(f, box) && InBox(x, box) && forall p :: p in ports ==> p in box
    ensures InBox(c, box)
    ensures forall p :: p in box ==> if p in ports then c[p] == box[p].lo || c[p] == box[p].hi else c[p] == x[p]
    ensures if up then f(x) <= f(c) else f(c) <= f(x)
  {
    if ports == [] {
      c := x;
    } else {
      var p := ports[0];
      var y := SnapPorts(f, box, ports[1..], x, up);
      var lo, hi := y[p := box[p].lo], y[p := box[p].hi];
      assert Between(f(y), f(lo), f(hi));
      hide AxisBounded;
      assert InBox(lo, box) && InBox(hi, box);
      c := if up == (f(lo) <= f(hi)) then hi else lo;
    }
  }

  /** Corner values bracket the output at every point of the box. */
  lemma CornersBracket(f: Point -> real, box: Box, x: Point) returns (below: Point, above: Point)
    requires forall p :: p in box ==> box[p].Valid()
    requires AxisBounded(f, box) && InBox(x, box)
    ensures IsCorner(below, box) && IsCorner(above, box)
    ensures f(below) <= f(x) <= f(above)
  {
    below := SnapPorts(f, box, Names.Sorted(box.Keys), x, false);
    above := SnapPorts(f, box, Names.Sorted(box.Keys), x, true);
  }

  // ----- enclosure along a route -----

  /** What is known about a port: the swept hull and the producing step's model error. */
  datatype Reading = Reading(hull: Interval, eps: real) {
    function Inflated(): Interval {
      Inflate(hull, eps)
    }
  }

  /** One route step: its ports, its evaluation, and the declared accuracy of each output. */
  datatype Step<!E> = Step(inputs: set<string>, outputs: set<string>,
                           model: Point -> Result<Point, E>, accuracy: map<string, Accuracy>) {

    /** Declared model error of `o` over an interval; an output without a declaration is exact. */
    function WorstEps(o: string, iv: Interval): real {
      if o in accuracy then accuracy[o].WorstOver(iv) else 0.0
    }

    function EpsAt(o: string, v: real): real {
      if o in accuracy then accuracy[o].Eps(v) else 0.0
    }

    ghost predicate ValidAccuracy() {
      forall o :: o in accuracy ==> accuracy[o].Valid()
    }

    ghost predicate TotalOn(box: Box) {
      forall x :: InBox(x, box) ==> model(x).Ok? && outputs <= model(x).value.Keys
    }

    /** The solver contract on a box: it evaluates, and each output is bounded by its end values on every axis. */
    ghost predicate CornerSafe(box: Box) {
      TotalOn(box) && forall o :: o in outputs ==> AxisBounded(Output(o), box)
    }

    ghost function Output(o: string): Point -> real {
      x => if model(x).Ok? && o in model(x).value then model(x).value[o] else 0.0
    }
  }

  type Env = map<string, Reading>

  ghost predicate ValidEnv(env: Env) {
    forall p :: p in env ==> env[p].hull.Valid() && env[p].eps >= 0.0
  }

  function InputBox<E>(step: Step<E>, env: Env): Box
    requires step.inputs <= env.Keys
  {
    map p | p in step.inputs :: env[p].Inflated()
  }

  /** Sweeps one step over its inflated inputs and records every output. */
  ghost function SweepStep<E>(step: Step<E>, env: Env): Env
    requires step.inputs <= env.Keys && ValidEnv(env) && step.TotalOn(InputBox(step, env))
  {
    var hull := SweptHull(step, InputBox(step, env));
    env + map o | o in step.outputs :: Reading(hull[o], step.WorstEps(o, hull[o]))
  }

  /** What a corner sweep of the step returns when it succeeds. */
  ghost function SweptHull<E>(step: Step<E>, box: Box): (hull: Box)
    requires (forall p :: p in box ==> box[p].Valid()) && step.TotalOn(box)
    ensures step.outputs <= hull.Keys
  {
    AllCornersInBox(box);
    SweepHasOutputs(step, box);
    HullFold(Values(Corners(Names.Sorted(box.Keys), box), step.model))
  }

  lemma AllCornersInBox(box: Box)
    requires forall p :: p in box ==> box[p].Valid()
    ensures forall c :: c in Corners(Names.Sorted(box.Keys), box) ==> InBox(c, box)
    ensures Corners(Names.Sorted(box.Keys), box) != []
  {
    CornersOfBox(box);
    var c := map p | p in box :: box[p].lo;
    assert IsCorner(c, box);
    assert c in Corners(Names.Sorted(box.Keys), box);
  }

  lemma SweepHasOutputs<E>(step: Step<E>, box: Box)
    requires (forall p :: p in box ==> box[p].Valid()) && step.TotalOn(box)
    requires forall c :: c in Corners(Names.Sorted(box.Keys), box) ==> step.model(c).Ok?
    ensures step.outputs <= HullFold(Values(Corners(Names.Sorted(box.Keys), box), step.model)).Keys
  {
    AllCornersInBox(box);
    var c := Corners(Names.Sorted(box.Keys), box)[0];
    CornersOfBox(box);
    forall o | o in step.outputs
      ensures o in HullFold(Values(Corners(Names.Sorted(box.Keys), box), step.model))
    {
      CornerInHull(step, box, c, o);
    }
  }

  /** The hull of the sweep holds the value at every corner, for every declared output. */
  lemma CornerInHull<E>(step: Step<E>, box: Box, c: Point, o: string)
    requires (forall p :: p in box ==> box[p].Valid()) && step.TotalOn(box) && IsCorner(c, box) && o in step.outputs
    requires forall d :: d in Corners(Names.Sorted(box.Keys), box) ==> step.model(d).Ok?
    ensures var hull := HullFold(Values(Corners(Names.Sorted(box.Keys), box), step.model));
            o in hull && hull[o].Contains(step.Output(o)(c))
  {
    CornersOfBox(box);
    assert InBox(c, box);
    ValueInHull(Corners(Names.Sorted(box.Keys), box), step.model, c, o);
  }

  lemma ValueInHull<E>(cs: seq<Point>, eval: Point -> Result<Point, E>, c: Point, o: string)
    requires (forall d :: d in cs ==> eval(d).Ok?) && c in cs && o in eval(c).value
    ensures var hull := HullFold(Values(cs, eval)); o in hull && hull[o].Contains(eval(c).value[o])
  {
    var vs := Values(cs, eval);
    HullFoldIsHull(vs);
    var i :| 0 <= i < |cs| && cs[i] == c;
    assert vs[i] in vs && Reports(vs[i], o, eval(c).value[o]);
    assert Reported(vs, o, eval(c).value[o]);
  }

  /** The step's law at the true state: the true output is within the declared error of the model's value. */
  ghost predicate ErrsWithin<E>(step: Step<E>, world: Point) {
    && step.inputs <= world.Keys && step.outputs <= world.Keys
    && var x := map p | p in step.inputs :: world[p];
       step.model(x).Ok? ==> forall o :: o in step.outputs && o in step.model(x).value ==>
         Abs(world[o] - step.model(x).value[o]) <= step.EpsAt(o, step.model(x).value[o])
  }

  /** Every recorded port encloses its true value once widened by its model error. */
  ghost predicate Encloses(env: Env, world: Point) {
    forall p :: p in env ==> p in world && env[p].Inflated().Contains(world[p])
  }

  /** One sweep keeps the enclosure: the outputs' true values lie in their inflated hulls. */
  lemma SweepStepEncloses<E>(step: Step<E>, env: Env, world: Point)
    requires ValidEnv(env) && Encloses(env, world) && step.inputs <= env.Keys && step.ValidAccuracy()
    requires step.CornerSafe(InputBox(step, env)) && ErrsWithin(step, world)
    ensures ValidEnv(SweepStep(step, env)) && Encloses(SweepStep(step, env), world)
  {
    var box := InputBox(step, env);
    var x := map p | p in step.inputs :: world[p];
    assert InBox(x, box);
    var after := SweepStep(step, env);
    forall p | p in after
      ensures after[p].hull.Valid() && after[p].eps >= 0.0 && p in world && after[p].Inflated().Contains(world[p])
    {
      if p in step.outputs {
        OutputEnclosed(step, box, x, p, world);
      } else {
        assert p in env && after[p] == env[p];
      }
    }
  }

  lemma OutputEnclosed<E>(step: Step<E>, box: Box, x: Point, o: string, world: Point)
    requires (forall p :: p in box ==> box[p].Valid()) && step.CornerSafe(box) && step.ValidAccuracy()
    requires ErrsWithin(step, world) && o in step.outputs
    requires InBox(x, box) && x == map p | p in step.inputs :: world[p]
    ensures var iv := SweptHull(step, box)[o];
            iv.Valid() && step.WorstEps(o, iv) >= 0.0 && Inflate(iv, step.WorstEps(o, iv)).Contains(world[o])
  {
    AllCornersInBox(box);
    var hull := SweptHull(step, box);
    var v := step.model(x).value[o];
    assert v == step.Output(o)(x);
    var below, above := CornersBracket(step.Output(o), box, x);
    CornerInHull(step, box, below, o);
    CornerInHull(step, box, above, o);
    assert hull[o].Contains(v);
    if o in step.accuracy {
      WorstOverIsMaximum(step.accuracy[o], hull[o]);
      EpsMonotone(step.accuracy[o], v, v);
    }
  }

  /** Every step of the route finds its inputs and meets its contract on the boxes it is swept over. */
  ghost predicate Runnable<E>(route: seq<Step<E>>, env: Env, world: Point) {
    ValidEnv(env) &&
    (route != [] ==>
       var step := route[0];
       && step.inputs <= env.Keys && step.ValidAccuracy()
       && step.CornerSafe(InputBox(step, env)) && ErrsWithin(step, world)
       && Runnable(route[1..], SweepStep(step, env), world))
  }

  ghost function RunRoute<E>(route: seq<Step<E>>, env: Env, world: Point): Env
    requires Runnable(route, env, world)
  {
    if route == [] then env else RunRoute(route[1..], SweepStep(route[0], env), world)
  }

  /** Along any route every port's true value stays inside its inflated hull, and the true target lies
      within the reported total error of the hull's midpoint. */
  lemma {:induction false} RouteEncloses<E>(route: seq<Step<E>>, env: Env, world: Point)
    requires Runnable(route, env, world) && Encloses(env, world)
    ensures Encloses(RunRoute(route, env, world), world)
    ensures forall p :: p in RunRoute(route, env, world) ==>
              var r := RunRoute(route, env, world)[p];
              Abs(world[p] - r.hull.Midpoint()) <= TotalError(r.hull, r.eps)
  {
    if route != [] {
      SweepStepEncloses(route[0], env, world);
      RouteEncloses(route[1..], SweepStep(route[0], env), world);
    }
  }
}
