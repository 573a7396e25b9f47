/** When `RANGE` selects the interval from `start` to `end`, and when it does not. */
module Ranges {
  import opened Words
  import opened Partings
  import opened Compare

  /** The values that a column can hold. */
  predicate Stores(planes: nat, s: int64) {
    planes >= 64 || 0 <= s < Pow2(planes)
  }

  /** The magnitude of a constant that was negated because the stored value has the other sign. */
  function Flipped(v: int64): (m: nat)
    ensures m < TWO63
  {
    if v == -TWO63 || v == 0 then 0 else if v < 0 then -v else TWO63 - v
  }

  function Seen(v: int64, isNegative: bool): nat {
    if (v < 0) == isNegative then Unsigned(v) else Flipped(v)
  }

  /** On full words, `RANGE` in terms of signs and magnitudes. */
  predicate FullRange(s: int64, start: int64, end: int64) {
    RangeVerdict(s < 0, start < 0, end < 0, Unsigned(s), Seen(start, s < 0), Seen(end, s < 0))
  }

  lemma FullWidth(planes: nat, s: int64, start: int64, end: int64)
    requires planes <= 64 && Width(planes, end) == 64
    ensures Accepts(RANGE, planes, s, start, end) == FullRange(s, start, end)
  {
    Parts(start, 64);
    Parts(end, 64);
    hide RangeVerdict, Low;
  }

  lemma PlainVerdict(s: nat, start: nat, end: nat)
    ensures RangeVerdict(false, false, false, s, start, end) <==> start <= s <= end
  {
    PartingZero(s, start);
    PartingZero(s, end);
  }

  /** On shorter words, only the bits of `start` that fit are seen. */
  lemma ShortWidth(planes: nat, s: int64, start: int64, end: int64)
    requires planes <= 64 && Width(planes, end) < 64 && 0 <= s
    ensures 0 <= end
    ensures Accepts(RANGE, planes, s, start, end) <==> Low(ToU64(start), Width(planes, end)) <= s <= end
  {
    WidthFits(planes, end);
    Parts(end, Width(planes, end));
    PlainVerdict(s, Low(ToU64(start), Width(planes, end)), end);
    hide RangeVerdict, Low;
  }

  /** Without signs, `RANGE` is the interval. */
  lemma RangeOnIntervals(planes: nat, s: int64, start: int64, end: int64)
    requires planes <= 64 && 0 <= start <= end && 0 <= s
    ensures Accepts(RANGE, planes, s, start, end) <==> start <= s <= end
  {
    var x := Width(planes, end);
    WidthFits(planes, end);
    if x < 64 {
      ShortWidth(planes, s, start, end);
      LenMono(start, end);
      ShortWord(ToU64(start), x);
    } else {
      FullWidth(planes, s, start, end);
      PlainVerdict(s, start, end);
    }
  }

  lemma LenMono(a: nat, b: nat)
    requires a <= b
    ensures Len64(a) <= Len64(b)
  {}

  // The verdicts on full words, case by case.

  /** With a negative end behind a start that is not, nothing should be found; a clash is. */
  lemma EmptyVerdict(s: int64, start: int64, end: int64)
    requires end < 0 <= start
    ensures FullRange(s, start, end)
        <==> if s < 0 then Flipped(start) == Unsigned(s) <= Unsigned(end) else start <= s == Flipped(end)
  {
    PartingZero(Unsigned(s), Seen(start, s < 0));
    PartingZero(Unsigned(s), Seen(end, s < 0));
  }

  /** Between two negative ends, values that are not negative should not be found; some always are. */
  lemma NegativeVerdict(s: int64, start: int64, end: int64)
    requires start < 0 && end < 0 <= s
    ensures FullRange(s, start, end)
        <==> s == Flipped(end) || (s < Flipped(start) && Parting(s, Flipped(end)) <= Parting(s, Flipped(start)))
  {
    PartingZero(s, Flipped(start));
    PartingZero(s, Flipped(end));
  }

  /** From a negative start to an end that is not, values outside may be found, depending on their bits. */
  lemma MixedVerdict(s: int64, start: int64, end: int64)
    requires start < 0 <= end
    ensures FullRange(s, start, end)
        <==> if s < 0 then s >= start || Parting(Unsigned(s), Flipped(end)) > Parting(Unsigned(s), Unsigned(start))
             else s <= end || (s < Flipped(start) && Parting(s, end) <= Parting(s, Flipped(start)))
  {
    PartingZero(Unsigned(s), Seen(start, s < 0));
    PartingZero(Unsigned(s), Seen(end, s < 0));
  }

  /** Between two negative ends, the negative values found are those of the interval. */
  lemma NegativeInterval(s: int64, start: int64, end: int64)
    requires s < 0 && start < 0 && end < 0
    ensures FullRange(s, start, end) <==> start <= s <= end
  {
    PartingZero(Unsigned(s), Unsigned(start));
    PartingZero(Unsigned(s), Unsigned(end));
  }

  /** Between two ends that are not negative, a negative value should not be found; one that clashes with the
      start is, and so is one above the negated end that parts from it at a higher bit than from the negated start. */
  lemma PositiveVerdict(s: int64, start: int64, end: int64)
    requires s < 0 <= start && 0 <= end
    ensures FullRange(s, start, end)
        <==> Clash(s, start)
             || (Unsigned(s) > Flipped(end) && Parting(Unsigned(s), Flipped(end)) > Parting(Unsigned(s), Flipped(start)))
  {
    PartingZero(Unsigned(s), Flipped(start));
    PartingZero(Unsigned(s), Flipped(end));
  }

  /** With negative columns `RANGE` is evaluated on full words. */
  lemma NegativeIsFull(planes: nat, s: int64, start: int64, end: int64)
    requires planes <= 64 && s < 0 && Stores(planes, s)
    ensures planes == 64 && Accepts(RANGE, planes, s, start, end) == FullRange(s, start, end)
  {
    WidthFits(planes, end);
    FullWidth(planes, s, start, end);
  }

  // The exact condition.

  /** The bits of `start` that fit give its lower end, or both readings hold nothing that can be stored. */
  predicate ShortIsInterval(planes: nat, start: int64, end: int64) {
    var lo := Low(ToU64(start), Width(planes, end));
    var first := if start < 0 then 0 else start;
    var least := if lo < first then lo else first;
    lo == first || least > end || least >= Pow2(planes)
  }

  /** No value below `start` parts from it at a lower bit than from the end. */
  predicate NoneBelow(start: int64, end: int64)
    requires start < 0 <= end
  {
    var c, e := Unsigned(start), Flipped(end);
    c == e || Low(c, PartingBelow(c, e)) == 0
  }

  /** No value above `end` parts from it at a lower bit than from the start. */
  predicate NoneAbove(start: int64, end: int64)
    requires start < 0 <= end
  {
    var c := Flipped(start);
    c <= end || Low(end, PartingBelow(c, end)) == Pow2(PartingBelow(c, end)) - 1
  }

  /** The highest bit in which two numbers differ. */
  function PartingBelow(a: nat, b: nat): nat
    requires a != b
  {
    Parting(a, b) - 1
  }

  predicate FullIsInterval(start: int64, end: int64) {
    if start >= 0 then start > 0 && end == -TWO63
    else 0 <= end && NoneBelow(start, end) && NoneAbove(start, end)
  }

  /** For a negative end, on planes without a sign. */
  predicate UnsignedIsEmpty(planes: nat, start: int64, end: int64) {
    var e := Flipped(end);
    if start >= 0 then e < start || e >= Pow2(planes)
    else e >= Pow2(planes) && Len64(Flipped(start)) < Len64(e)
  }

  predicate RangeIsInterval(planes: nat, start: int64, end: int64) {
    if Width(planes, end) < 64 then ShortIsInterval(planes, start, end)
    else if planes == 64 then FullIsInterval(start, end)
    else UnsignedIsEmpty(planes, start, end)
  }

  ghost predicate SelectsInterval(planes: nat, start: int64, end: int64) {
    forall s: int64 | Stores(planes, s) :: Accepts(RANGE, planes, s, start, end) == (start <= s <= end)
  }

  lemma ShortExact(planes: nat, start: int64, end: int64)
    requires planes <= 64 && Width(planes, end) < 64
    ensures SelectsInterval(planes, start, end) <==> ShortIsInterval(planes, start, end)
  {
    var lo := Low(ToU64(start), Width(planes, end));
    var first := if start < 0 then 0 else start;
    var least := if lo < first then lo else first;
    assert planes < 64;
    forall s: int64 | Stores(planes, s) ensures Accepts(RANGE, planes, s, start, end) <==> lo <= s <= end {
      ShortWidth(planes, s, start, end);
    }
    hide Accepts, Low, Width;
    if !ShortIsInterval(planes, start, end) {
      assert Stores(planes, least);
      assert (lo <= least <= end) != (start <= least <= end);
    }
  }

  lemma NegativeEndExact(planes: nat, start: int64, end: int64)
    requires planes < 64 && Width(planes, end) == 64 && end < 0
    ensures SelectsInterval(planes, start, end) <==> UnsignedIsEmpty(planes, start, end)
  {
    var c, e := Flipped(start), Flipped(end);
    forall s: int64 | Stores(planes, s) ensures Accepts(RANGE, planes, s, start, end) == FullRange(s, start, end) {
      FullWidth(planes, s, start, end);
    }
    hide Accepts, FullRange, Width, Flipped;
    if start >= 0 {
      forall s: int64 | Stores(planes, s) ensures FullRange(s, start, end) <==> start <= s == e { EmptyVerdict(s, start, end); }
      if !UnsignedIsEmpty(planes, start, end) { assert Stores(planes, e) && FullRange(e, start, end); }
    } else {
      forall s: int64 | Stores(planes, s)
        ensures FullRange(s, start, end) <==> s == e || (s < c && Parting(s, e) <= Parting(s, c))
      {
        NegativeVerdict(s, start, end);
      }
      if UnsignedIsEmpty(planes, start, end) {
        forall s: int64 | Stores(planes, s) ensures Parting(s, e) > Parting(s, c) { LongerParts(planes, s, c, e); }
      } else if e < Pow2(planes) {
        assert Stores(planes, e) && FullRange(e, start, end);
      } else {
        LenIsLeast(e, 0);
        LenIsLeast(c, 0);
        PartingFromZero(c);
        PartingFromZero(e);
        assert Stores(planes, 0) && FullRange(0, start, end);
      }
    }
  }

  lemma LongerParts(planes: nat, s: nat, c: nat, e: nat)
    requires s < Pow2(planes) <= e && Len64(c) < Len64(e)
    ensures Parting(s, e) > Parting(s, c)
  {
    LenIsLeast(s, planes);
    LenIsLeast(e, planes);
    PartingFromZero(s);
    PartingFromZero(c);
    PartingFromZero(e);
    PartingSym(s, 0);
    PartingTriangle(0, s, e);
    PartingTriangle(s, 0, c);
  }

  /** No value below `start` is found under the condition; otherwise here is one. */
  lemma BelowExact(s: int64, start: int64, end: int64)
    requires s < start < 0 <= end && NoneBelow(start, end)
    ensures Parting(Unsigned(s), Flipped(end)) <= Parting(Unsigned(s), Unsigned(start))
  {
    var a, c, e := Unsigned(s), Unsigned(start), Flipped(end);
    if Parting(a, e) > Parting(a, c) {
      PartingTriangle(c, a, e);
      PartingTriangle(a, c, e);
      PartingSym(a, c);
      NoLowBits(a, c, PartingBelow(c, e));
      PartingIsLeast(a, c, PartingBelow(c, e));
    }
  }

  lemma BelowFound(start: int64, end: int64) returns (s: int64)
    requires start < 0 <= end && !NoneBelow(start, end)
    ensures s < start && Parting(Unsigned(s), Flipped(end)) > Parting(Unsigned(s), Unsigned(start))
  {
    var c, e := Unsigned(start), Flipped(end);
    var n := PartingBelow(c, e);
    SomeLowBits(c, n);
    var a := c - 1;
    PartingIsLeast(a, c, n);
    PartingTriangle(c, a, e);
    PartingSym(a, c);
    s := a - TWO63;
    assert Unsigned(s) == a;
  }

  /** The same for values above `end`. */
  lemma AboveExact(s: int64, start: int64, end: int64)
    requires start < 0 <= end < s < Flipped(start) && NoneAbove(start, end)
    ensures Parting(s, end) > Parting(s, Flipped(start))
  {
    if Parting(s, end) <= Parting(s, Flipped(start)) { NotAbove(s, Flipped(start), end); }
  }

  lemma AboveFound(start: int64, end: int64) returns (s: int64)
    requires start < 0 <= end && !NoneAbove(start, end)
    ensures end < s < Flipped(start) && Parting(s, end) <= Parting(s, Flipped(start))
  {
    var c, e := Flipped(start), end;
    var n := PartingBelow(c, e);
    SomeLowGaps(e, n);
    s := e + 1;
    PartingIsLeast(s, e, n);
    PartingSym(s, e);
    PartingSym(s, c);
    PartingTriangle(c, s, e);
    PartingSym(c, e);
    PartingOrder(e, c, n);
    if s >= c { ShrMono(c, s, n); }
  }

  lemma NotAbove(a: nat, c: nat, e: nat)
    requires e < a < c && Parting(a, e) <= Parting(a, c)
    ensures Low(e, PartingBelow(c, e)) != Pow2(PartingBelow(c, e)) - 1
  {
    var n, k := PartingBelow(c, e), Parting(a, c) - 1;
    PartingZero(a, c);
    PartingZero(a, e);
    PartingSym(a, c);
    PartingSym(c, e);
    PartingSym(a, e);
    PartingTriangle(c, a, e);
    if Parting(a, e) == Parting(a, c) {
      PartingBit(a, c, k);
      PartingBit(a, e, k);
      PartingOrder(e, a, k);
      PartingOrder(a, c, k);
      PartingIsLeast(c, e, k + 1);
      assert false;
    } else {
      PartingTriangle(a, e, c);
      PartingIsLeast(a, e, n);
      if Low(e, n) == Pow2(n) - 1 { AllLowBits(e, a, n); }
    }
  }

  lemma FullMixed(planes: nat, start: int64, end: int64)
    requires planes == 64 && start < 0 <= end
    requires forall s: int64 :: Accepts(RANGE, planes, s, start, end) == FullRange(s, start, end)
    ensures SelectsInterval(planes, start, end) <==> NoneBelow(start, end) && NoneAbove(start, end)
  {
    hide FullRange, Accepts, NoneBelow, NoneAbove, Parting, Flipped;
    if !NoneBelow(start, end) {
      var s := BelowFound(start, end);
      MixedVerdict(s, start, end);
      assert Stores(planes, s);
    } else if !NoneAbove(start, end) {
      var s := AboveFound(start, end);
      MixedVerdict(s, start, end);
      assert Stores(planes, s);
    } else {
      forall s: int64 ensures FullRange(s, start, end) == (start <= s <= end) {
        MixedVerdict(s, start, end);
        if s < start { BelowExact(s, start, end); }
        if end < s < Flipped(start) { AboveExact(s, start, end); }
      }
    }
  }

  lemma FullEmpty(planes: nat, start: int64, end: int64)
    requires planes == 64 && end < 0 <= start
    requires forall s: int64 :: Accepts(RANGE, planes, s, start, end) == FullRange(s, start, end)
    ensures SelectsInterval(planes, start, end) <==> FullIsInterval(start, end)
  {
    hide FullRange, Accepts;
    forall s: int64
      ensures FullRange(s, start, end)
          <==> if s < 0 then Flipped(start) == Unsigned(s) <= Unsigned(end) else start <= s == Flipped(end)
    {
      EmptyVerdict(s, start, end);
    }
    if !FullIsInterval(start, end) {
      var n: int64, p: int64 := Flipped(start) - TWO63, Flipped(end);
      assert FullRange(n, start, end) || FullRange(p, start, end);
      assert Stores(planes, n) && Stores(planes, p);
    }
  }

  /** Two ends of the same sign always draw in a value of the other sign. */
  lemma FullSameSign(planes: nat, start: int64, end: int64)
    requires planes == 64 && (start < 0) == (end < 0)
    requires forall s: int64 :: Accepts(RANGE, planes, s, start, end) == FullRange(s, start, end)
    ensures !SelectsInterval(planes, start, end)
  {
    var s: int64 := if end < 0 then Flipped(end) else Flipped(start) - TWO63;
    if end < 0 { NegativeVerdict(s, start, end); }
    hide Accepts;
    assert FullRange(s, start, end) && Stores(planes, s);
  }

  lemma FullExact(planes: nat, start: int64, end: int64)
    requires planes == 64
    ensures SelectsInterval(planes, start, end) <==> FullIsInterval(start, end)
  {
    WidthFits(planes, end);
    forall s: int64 ensures Accepts(RANGE, planes, s, start, end) == FullRange(s, start, end) {
      FullWidth(planes, s, start, end);
    }
    hide Accepts, FullRange, SelectsInterval, Width;
    if (start < 0) == (end < 0) {
      FullSameSign(planes, start, end);
    } else if start < 0 {
      FullMixed(planes, start, end);
    } else {
      FullEmpty(planes, start, end);
    }
  }

  /** For every number of planes and every two ends: `RANGE` selects the interval, whatever the columns
      hold, exactly under a condition on these three. */
  lemma RangeExact(planes: nat, start: int64, end: int64)
    requires planes <= 64
    ensures SelectsInterval(planes, start, end) <==> RangeIsInterval(planes, start, end)
  {
    WidthFits(planes, end);
    if Width(planes, end) < 64 {
      ShortExact(planes, start, end);
    } else if planes == 64 {
      FullExact(planes, start, end);
    } else {
      LenBelow64(end, 64, 63);
      NegativeEndExact(planes, start, end);
    }
  }
}
