/** The uncertain-value representation: closed intervals, declared model accuracy, validity domains. */
module Intervals {
  import opened Wrappers
  import opened Reals
  import Names

  datatype BoundError = InvertedInterval(lo: real, hi: real)

  /** A closed interval; every constructed value has `lo <= hi`. */
  datatype Interval = Interval(lo: real, hi: real) {
    predicate Valid() {
      lo <= hi
    }

    static function New(lo: real, hi: real): (r: Result<Interval, BoundError>)
      ensures r.Ok? <==> lo <= hi
      ensures r.Ok? ==> r.value.Valid() && forall x :: r.value.Contains(x) <==> lo <= x <= hi
      ensures r.Err? ==> r.error == InvertedInterval(lo, hi)
    {
      if lo > hi then Err(InvertedInterval(lo, hi)) else Ok(Interval(lo, hi))
    }

    static function Point(x: real): Interval {
      Interval(x, x)
    }

    function Width(): real {
      hi - lo
    }

    function HalfWidth(): real {
      Width() / 2.0
    }

    function Midpoint(): real {
      (lo + hi) / 2.0
    }

    predicate Contains(x: real) {
      lo <= x <= hi
    }

    predicate IsSubset(outer: Interval) {
      outer.lo <= lo && hi <= outer.hi
    }

    function Hull(other: Interval): Interval {
      Interval(if lo <= other.lo then lo else other.lo, if hi >= other.hi then hi else other.hi)
    }
  }

  /** Inclusion of endpoints is inclusion of point sets. */
  lemma SubsetIsPointwise(a: Interval, b: Interval)
    requires a.Valid()
    ensures a.IsSubset(b) <==> forall x :: a.Contains(x) ==> b.Contains(x)
  {
    if forall x :: a.Contains(x) ==> b.Contains(x) {
      assert a.Contains(a.lo) && a.Contains(a.hi);
    }
  }

  /** The hull is the least interval above both arguments. */
  lemma HullIsLeastUpperBound(a: Interval, b: Interval, c: Interval)
    ensures a.Hull(b).IsSubset(c) <==> a.IsSubset(c) && b.IsSubset(c)
    ensures a.Hull(b) == b.Hull(a)
    ensures a.Hull(b).Hull(c) == a.Hull(b.Hull(c))
  {
  }

  /** A point of an interval is within half a width of its midpoint, and no smaller radius works. */
  lemma MidpointRadius(iv: Interval, r: real)
    requires iv.Valid()
    ensures iv.HalfWidth() <= r <==> forall x :: iv.Contains(x) ==> -r <= x - iv.Midpoint() <= r
  {
    if forall x :: iv.Contains(x) ==> -r <= x - iv.Midpoint() <= r {
      assert iv.Contains(iv.hi);
    }
  }

  /** Declared model error: an absolute part plus a part proportional to the magnitude of the value. */
  datatype Accuracy = Accuracy(epsAbs: real, epsRel: real) {
    predicate Valid() {
      epsAbs >= 0.0 && epsRel >= 0.0
    }

    function Eps(v: real): real {
      epsAbs + epsRel * Abs(v)
    }

    function WorstOver(iv: Interval): real {
      Eps(if Abs(iv.lo) >= Abs(iv.hi) then iv.lo else iv.hi)
    }
  }

  lemma EpsMonotone(acc: Accuracy, v: real, w: real)
    requires acc.Valid() && Abs(v) <= Abs(w)
    ensures 0.0 <= acc.Eps(v) <= acc.Eps(w)
  {
    assert acc.epsRel * Abs(v) <= acc.epsRel * Abs(w);
    assert acc.epsRel * Abs(v) >= 0.0;
  }

  /** `WorstOver` is the maximum of `Eps` on the interval: an upper bound, and one that is attained. */
  lemma WorstOverIsMaximum(acc: Accuracy, iv: Interval)
    requires acc.Valid() && iv.Valid()
    ensures forall v :: iv.Contains(v) ==> acc.Eps(v) <= acc.WorstOver(iv)
    ensures exists v :: iv.Contains(v) && acc.Eps(v) == acc.WorstOver(iv)
  {
    var w := if Abs(iv.lo) >= Abs(iv.hi) then iv.lo else iv.hi;
    assert iv.Contains(w) && acc.Eps(w) == acc.WorstOver(iv);
    forall v | iv.Contains(v) ensures acc.Eps(v) <= acc.WorstOver(iv) {
      EpsMonotone(acc, v, w);
    }
  }

  lemma WorstOverMonotone(acc: Accuracy, a: Interval, b: Interval)
    requires acc.Valid() && a.Valid() && a.IsSubset(b)
    ensures 0.0 <= acc.WorstOver(a) <= acc.WorstOver(b)
  {
    EpsMonotone(acc, if Abs(a.lo) >= Abs(a.hi) then a.lo else a.hi, if Abs(b.lo) >= Abs(b.hi) then b.lo else b.hi);
  }

  datatype DomainViolation =
    | MissingInput(port: string)
    | OutOfBox(port: string, value: Interval, allowed: Interval)
    | MissingTag(tag: string)

  /** A solver's validity region: a box over ports plus required regime tags. */
  datatype Domain = Domain(portBox: map<string, Interval>, tags: set<string>) {

    /** The region itself: every required tag present, every boxed port supplied and inside its box. */
    ghost predicate Covers(inputs: map<string, Interval>, have: set<string>) {
      tags <= have && forall p :: p in portBox ==> p in inputs && inputs[p].IsSubset(portBox[p])
    }

    /** The source's scan: tags first, then boxed ports, each in ascending order, stopping at the first fault. */
    function Admits(inputs: map<string, Interval>, have: set<string>): (fault: Option<DomainViolation>)
      ensures fault.None? <==> Covers(inputs, have)
    {
      match FirstMissingTag(Names.Sorted(tags), have)
      case Some(t) => Some(MissingTag(t))
      case None => FirstBoxFault(Names.Sorted(portBox.Keys), inputs)
    }

    function FirstMissingTag(ts: seq<string>, have: set<string>): (t: Option<string>)
      ensures t.None? <==> forall x :: x in ts ==> x in have
      ensures t.Some? ==> t.value in ts && t.value !in have
    {
      if ts == [] then None
      else if ts[0] !in have then Some(ts[0])
      else FirstMissingTag(ts[1..], have)
    }

    function FirstBoxFault(ps: seq<string>, inputs: map<string, Interval>): (fault: Option<DomainViolation>)
      requires forall p :: p in ps ==> p in portBox
      ensures fault.None? <==> forall p :: p in ps ==> p in inputs && inputs[p].IsSubset(portBox[p])
    {
      if ps == [] then None
      else if ps[0] !in inputs then Some(MissingInput(ps[0]))
      else if !inputs[ps[0]].IsSubset(portBox[ps[0]]) then
        Some(OutOfBox(ps[0], inputs[ps[0]], portBox[ps[0]]))
      else FirstBoxFault(ps[1..], inputs)
    }
  }

  /** Shrinking every supplied interval never turns an admitted input into a rejected one. */
  lemma AdmitsAntitone(d: Domain, wide: map<string, Interval>, tight: map<string, Interval>, have: set<string>)
    requires wide.Keys == tight.Keys
    requires forall p :: p in tight ==> tight[p].IsSubset(wide[p])
    requires d.Admits(wide, have).None?
    ensures d.Admits(tight, have).None?
  {
    assert forall p :: p in d.portBox ==> p in tight && tight[p].IsSubset(d.portBox[p]) by {
      forall p | p in d.portBox ensures p in tight && tight[p].IsSubset(d.portBox[p]) {
        assert p in wide && wide[p].IsSubset(d.portBox[p]);
      }
    }
  }

  /** A boxed port that is not supplied, or not inside its box. */
  predicate FaultyPort(d: Domain, inputs: map<string, Interval>, p: string) {
    p in d.portBox && (p in inputs ==> !inputs[p].IsSubset(d.portBox[p]))
  }

  /** The fault is at the first of the faulty ports: it is not supplied, or its value leaves the box. */
  ghost predicate FirstPortFault(d: Domain, inputs: map<string, Interval>, faulty: set<string>,
                                 fault: DomainViolation) {
    || (fault.MissingInput? && fault.port !in inputs && Names.IsFirst(fault.port, faulty))
    || (fault.OutOfBox? && fault.port in inputs && fault.value == inputs[fault.port] &&
        fault.port in d.portBox && fault.allowed == d.portBox[fault.port] && Names.IsFirst(fault.port, faulty))
  }

  /** The fault is the first missing tag, or when no tag is missing the first faulty port's. */
  ghost predicate FirstViolation(d: Domain, inputs: map<string, Interval>, have: set<string>, fault: DomainViolation) {
    if fault.MissingTag? then Names.IsFirst(fault.tag, d.tags - have)
    else d.tags <= have && FirstPortFault(d, inputs, (set q | q in d.portBox && FaultyPort(d, inputs, q)), fault)
  }

  /** The scan reports the least missing tag if a tag is missing, and otherwise the least faulty port. */
  lemma FaultIsFirst(d: Domain, inputs: map<string, Interval>, have: set<string>)
    ensures var fault := d.Admits(inputs, have);
            && (fault.None? ==> d.Covers(inputs, have))
            && (fault.Some? ==> FirstViolation(d, inputs, have, fault.value))
  {
    Names.SortedAscends(d.tags);
    Names.SortedAscends(d.portBox.Keys);
    var ts := Names.Sorted(d.tags);
    if d.FirstMissingTag(ts, have).Some? {
      FirstMissingIsLeast(d, ts, have);
      assert (set x | x in ts) == d.tags;
    } else {
      assert d.tags <= have;
      var ps := Names.Sorted(d.portBox.Keys);
      if d.FirstBoxFault(ps, inputs).Some? {
        FirstFaultIsLeast(d, ps, inputs);
        assert (set q | q in ps && FaultyPort(d, inputs, q)) == (set q | q in d.portBox && FaultyPort(d, inputs, q));
      }
    }
  }

  lemma {:induction false} FirstMissingIsLeast(d: Domain, ts: seq<string>, have: set<string>)
    requires Names.Ascending(ts) && d.FirstMissingTag(ts, have).Some?
    ensures Names.IsFirst(d.FirstMissingTag(ts, have).value, (set x | x in ts) - have)
  {
    if ts[0] in have {
      FirstMissingIsLeast(d, ts[1..], have);
      assert (set x | x in ts) - have == (set x | x in ts[1..]) - have;
    }
  }

  lemma {:induction false} FirstFaultIsLeast(d: Domain, ps: seq<string>, inputs: map<string, Interval>)
    requires Names.Ascending(ps) && (forall p :: p in ps ==> p in d.portBox)
    requires d.FirstBoxFault(ps, inputs).Some?
    ensures FirstPortFault(d, inputs, (set q | q in ps && FaultyPort(d, inputs, q)),
                           d.FirstBoxFault(ps, inputs).value)
  {
    if !FaultyPort(d, inputs, ps[0]) {
      FirstFaultIsLeast(d, ps[1..], inputs);
      assert (set q | q in ps && FaultyPort(d, inputs, q)) == (set q | q in ps[1..] && FaultyPort(d, inputs, q));
    }
  }
}
