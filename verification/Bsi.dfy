/** The bit-sliced index: a map from columns to signed 64-bit values, stored as bit planes. */
module Bsi {
  import opened Words
  import opened Bitmaps
  import opened Planes
  import opened Compare
  import opened Partings
  import opened Ranges

  /** The columns of `s` on which an operation holds. */
  ghost function Select(bA: seq<set<Row>>, op: Operation, v: int64, end: int64, s: set<Row>): set<Row> {
    set c | c in s && Accepts(op, |bA|, ToI64(ColVal(bA, c)), v, end)
  }

  /** On every set of columns `LE` and `GE` select by integer comparison; `LT`, `GT` and `EQ` do exactly when
      no column of the set clashes with the constant on the side where they err. */
  lemma SelectsExactly(bA: seq<set<Row>>, v: int64, end: int64, s: set<Row>)
    ensures Select(bA, LE, v, end, s) == set c | c in s && ToI64(ColVal(bA, c)) <= v
    ensures Select(bA, GE, v, end, s) == set c | c in s && ToI64(ColVal(bA, c)) >= v
    ensures Select(bA, LT, v, end, s) == (set c | c in s && ToI64(ColVal(bA, c)) < v)
            <==> forall c :: c in s ==> !(ToI64(ColVal(bA, c)) < 0 <= v && Clash(ToI64(ColVal(bA, c)), v))
    ensures Select(bA, GT, v, end, s) == (set c | c in s && ToI64(ColVal(bA, c)) > v)
            <==> forall c :: c in s ==> !(v < 0 <= ToI64(ColVal(bA, c)) && Clash(ToI64(ColVal(bA, c)), v))
    ensures Select(bA, EQ, v, end, s) == (set c | c in s && ToI64(ColVal(bA, c)) == v)
            <==> forall c :: c in s ==> !Clash(ToI64(ColVal(bA, c)), v)
  {
    forall op, c | c in s ensures c in Select(bA, op, v, end, s) <==> Accepts(op, |bA|, ToI64(ColVal(bA, c)), v, end) {}
    hide ToI64, ColVal, Clash, RangeAccepts;
  }

  /** `RANGE` selects the interval from any set of columns when its planes and ends meet the condition, from
      columns that are not negative whenever its ends are neither and in order, and from negative columns whenever
      its ends are negative too. */
  lemma RangeSelects(bA: seq<set<Row>>, start: int64, end: int64, s: set<Row>)
    requires |bA| <= 64
    requires || RangeIsInterval(|bA|, start, end)
             || (0 <= start <= end && forall c :: c in s ==> 0 <= ToI64(ColVal(bA, c)))
             || (start < 0 && end < 0 && forall c :: c in s ==> ToI64(ColVal(bA, c)) < 0)
    ensures Select(bA, RANGE, start, end, s) == set c | c in s && start <= ToI64(ColVal(bA, c)) <= end
  {
    RangeExact(|bA|, start, end);
    forall c | c in s ensures Accepts(RANGE, |bA|, ToI64(ColVal(bA, c)), start, end) == (start <= ToI64(ColVal(bA, c)) <= end) {
      ColumnStores(bA, c);
      if !RangeIsInterval(|bA|, start, end) { SameSignInterval(|bA|, ToI64(ColVal(bA, c)), start, end); }
    }
    hide ToI64, ColVal, Accepts;
  }

  lemma SameSignInterval(planes: nat, s: int64, start: int64, end: int64)
    requires planes <= 64 && Stores(planes, s) && ((0 <= s && 0 <= start <= end) || (s < 0 && start < 0 && end < 0))
    ensures Accepts(RANGE, planes, s, start, end) <==> start <= s <= end
  {
    if 0 <= s {
      RangeOnIntervals(planes, s, start, end);
    } else {
      NegativeIsFull(planes, s, start, end);
      NegativeInterval(s, start, end);
    }
  }

  /** Between ends that are not negative, no negative column should be selected: these are. */
  lemma RangeStrays(bA: seq<set<Row>>, start: int64, end: int64, s: set<Row>)
    requires |bA| <= 64 && 0 <= start && 0 <= end && forall c :: c in s ==> ToI64(ColVal(bA, c)) < 0
    ensures Select(bA, RANGE, start, end, s)
         == set c | c in s && var v := ToI64(ColVal(bA, c));
                    Clash(v, start)
                    || (Unsigned(v) > Flipped(end) && Parting(Unsigned(v), Flipped(end)) > Parting(Unsigned(v), Flipped(start)))
  {
    forall c | c in s
      ensures var v := ToI64(ColVal(bA, c));
        Accepts(RANGE, |bA|, v, start, end)
        <==> Clash(v, start)
             || (Unsigned(v) > Flipped(end) && Parting(Unsigned(v), Flipped(end)) > Parting(Unsigned(v), Flipped(start)))
    {
      ColumnStores(bA, c);
      NegativeIsFull(|bA|, ToI64(ColVal(bA, c)), start, end);
      PositiveVerdict(ToI64(ColVal(bA, c)), start, end);
    }
    hide ToI64, ColVal, Accepts, Clash, Unsigned, Flipped, Parting;
  }

  lemma ColumnStores(bA: seq<set<Row>>, c: Row)
    requires |bA| <= 64
    ensures Stores(|bA|, ToI64(ColVal(bA, c)))
  {
    StoredWord(bA, c, |bA|);
  }

  /** The found columns of each plane, counted and weighted. */
  function PlaneSum(bA: seq<set<Row>>, s: set<Row>): nat {
    if bA == [] then 0 else |s * bA[0]| + 2 * PlaneSum(bA[1..], s)
  }

  /** The sum of the values that a map gives the columns of `s`. */
  ghost function ValueSum(m: map<Row, int64>, s: set<Row>): int
    requires s <= m.Keys
  {
    if s == {} then 0 else
      var c :| c in s;
      m[c] + ValueSum(m, s - {c})
  }

  lemma {:induction false} PlaneSumRemove(bA: seq<set<Row>>, s: set<Row>, c: Row)
    requires c in s
    ensures PlaneSum(bA, s) == PlaneSum(bA, s - {c}) + ColVal(bA, c)
  {
    if bA != [] {
      PlaneSumRemove(bA[1..], s, c);
      if c in bA[0] {
        assert s * bA[0] == (s - {c}) * bA[0] + {c};
      } else {
        assert s * bA[0] == (s - {c}) * bA[0];
      }
    }
  }

  lemma {:induction false} PlaneSumEmpty(bA: seq<set<Row>>, s: set<Row>)
    requires forall j :: 0 <= j < |bA| ==> s * bA[j] == {}
    ensures PlaneSum(bA, s) == 0
  {
    if bA != [] { PlaneSumEmpty(bA[1..], s); }
  }

  lemma {:induction false} PlaneSumUpdate(bA: seq<set<Row>>, s: set<Row>, j: nat)
    requires j < |bA|
    ensures PlaneSum(bA, s) == PlaneSum(bA[j := {}], s) + Shl(|s * bA[j]|, j)
  {
    if j > 0 {
      assert bA[j := {}][1..] == bA[1..][j - 1 := {}];
      PlaneSumUpdate(bA[1..], s, j - 1);
    }
  }

  /** Counting bit by bit sums the values, up to wrapping. */
  lemma {:induction false} PlaneSumIsValueSum(bA: seq<set<Row>>, m: map<Row, int64>, s: set<Row>) returns (q: int)
    requires s <= m.Keys && forall c :: c in m ==> m[c] == ToI64(ColVal(bA, c))
    ensures PlaneSum(bA, s) == ValueSum(m, s) + q * TWO64
    decreases |s|
  {
    if s == {} {
      PlaneSumEmpty(bA, s);
      q := 0;
    } else {
      var c :| c in s && ValueSum(m, s) == m[c] + ValueSum(m, s - {c});
      PlaneSumRemove(bA, s, c);
      var q1 := PlaneSumIsValueSum(bA, m, s - {c});
      var q2 := Wrapped(ColVal(bA, c));
      q := q1 + q2;
    }
  }

  /** The key under which `TransposeWithCounts` files a column. */
  function KeyOf(v: int64): Row {
    ToU64(v) % TWO32
  }

  /** That is the row to which the value is congruent modulo `2^32`. */
  lemma KeyIsResidue(v: int64, k: Row)
    ensures KeyOf(v) == k <==> (v - k) % TWO32 == 0
  {
    assert TWO64 == TWO32 * TWO32;
    assert ToU64(v) % TWO32 == v % TWO32;
  }

  /** The columns filed under `k`. */
  ghost function Filed(m: map<Row, int64>, k: Row): set<Row> {
    set c | c in m && KeyOf(m[c]) == k
  }

  /** How many of the listed columns are hits. */
  function Tally(xs: seq<Row>, hits: set<Row>): (n: nat)
    ensures n <= |xs|
  {
    if xs == [] then 0 else Tally(xs[..|xs| - 1], hits) + (if xs[|xs| - 1] in hits then 1 else 0)
  }

  lemma {:induction false} TallyConcat(xs: seq<Row>, ys: seq<Row>, hits: set<Row>)
    ensures Tally(xs + ys, hits) == Tally(xs, hits) + Tally(ys, hits)
  {
    if ys == [] {
      assert xs + ys == xs;
    } else {
      var n := |ys| - 1;
      assert (xs + ys)[..|xs| + n] == xs + ys[..n];
      TallyConcat(xs, ys[..n], hits);
    }
  }

  lemma TallyAppend(xs: seq<Row>, i: nat, hits: set<Row>)
    requires i < |xs|
    ensures Tally(xs[..i + 1], hits) == Tally(xs[..i], hits) + (if xs[i] in hits then 1 else 0)
  {
    assert xs[..i + 1][..i] == xs[..i];
  }

  /** Over the rows of a bitmap the tally is a cardinality. */
  lemma {:induction false} TallyIsCard(s: set<Row>, hits: set<Row>)
    ensures Tally(Ascending(s), hits) == |s * hits|
    decreases |s|
  {
    if s != {} {
      var m := Min(s);
      TallyConcat([m], Ascending(s - {m}), hits);
      TallyIsCard(s - {m}, hits);
      if m in hits {
        assert s * hits == (s - {m}) * hits + {m};
      } else {
        assert s * hits == (s - {m}) * hits;
      }
    }
  }

  /** The planes still to be counted; the others are emptied. */
  ghost predicate Uncounted(left: seq<set<Row>>, bA: seq<set<Row>>, pending: set<nat>) {
    && |left| == |bA|
    && (forall i :: i in pending ==> 0 <= i < |bA|)
    && (forall i :: 0 <= i < |bA| ==> left[i] == if i in pending then bA[i] else {})
  }

  lemma SumIsWrapped(bA: seq<set<Row>>, eBM: set<Row>, m: map<Row, int64>, found: set<Row>, sum: int64, q: int)
    requires m == map c | c in eBM :: ToI64(ColVal(bA, c))
    requires sum + q * TWO64 == PlaneSum(bA, found)
    ensures sum == ToI64(PlaneSum(bA, found))
    ensures found <= eBM ==> sum == ToI64(ValueSum(m, found))
  {
    WrapUnique(sum, PlaneSum(bA, found), q);
    if found <= eBM {
      var q3 := PlaneSumIsValueSum(bA, m, found);
      WrapUnique(sum, ValueSum(m, found), q - q3);
    }
  }

  /** `atomic.AddInt64(&sum, int64(delta))` for an unsigned `delta` that was shifted without overflow check. */
  method AtomicAdd(sum: int64, delta: nat) returns (r: int64, ghost q: int)
    ensures r == ToI64(sum + delta) && sum + delta == r + q * TWO64
  {
    r := ToI64(sum + ToI64(delta));
    var q1 := Wrapped(delta);
    q := Wrapped(sum + ToI64(delta));
    q := q + q1;
    WrapUnique(r, sum + delta, q);
  }

  class BSI {
    var bA: seq<set<Row>>
    var eBM: set<Row>
    const MaxValue: int64
    const MinValue: int64

    /** Only existing columns have bits. */
    ghost predicate Valid()
      reads this
    {
      Within(bA, eBM)
    }

    /** The map that the planes stand for. */
    ghost function Values(): (m: map<Row, int64>)
      reads this
    {
      map c | c in eBM :: ToI64(ColVal(bA, c))
    }

    predicate AutoSized() {
      MaxValue == 0 && MinValue == 0
    }

    /** Enough planes for `value`, or the licence to add them. */
    ghost predicate WideEnough(value: int64)
      reads this
    {
      |bA| <= 64 && (AutoSized() || Len64(ToU64(value)) <= |bA|)
    }

    constructor (maxValue: int64, minValue: int64)
      ensures Valid() && Values() == map[]
      ensures MaxValue == maxValue && MinValue == minValue && eBM == {}
      ensures |bA| <= 64 && (forall p :: p in bA ==> p == {})
      ensures var (lo, hi) := (Len64(ToU64(minValue)), Len64(ToU64(maxValue))); |bA| == if hi > lo then hi else lo
      ensures forall v: int64 :: (0 <= v <= maxValue || minValue <= v < 0) ==> Len64(ToU64(v)) <= |bA|
    {
      var bitsz := Len64(ToU64(minValue));
      if Len64(ToU64(maxValue)) > bitsz {
        bitsz := Len64(ToU64(maxValue));
      }
      MaxValue, MinValue := maxValue, minValue;
      bA := seq(bitsz, _ => {});
      eBM := {};
      new;
      LenBelow64(minValue, 64, 63);
      LenBelow64(maxValue, 64, 63);
      forall v: int64 | 0 <= v <= maxValue || minValue <= v < 0 ensures Len64(ToU64(v)) <= |bA| {
        LenBelow64(v, 64, 63);
        if 0 <= v { LenMono(ToU64(v), ToU64(maxValue)); }
      }
    }

    /** `NewDefaultBSI` */
    constructor Default()
      ensures Valid() && Values() == map[] && AutoSized() && bA == [] && eBM == {}
    {
      MaxValue, MinValue := 0, 0;
      bA, eBM := [], {};
    }

    /** Auto-sizing: planes are appended until the value fits. */
    method Grow(value: int64)
      modifies this`bA
      ensures |bA| == if AutoSized() && Len64(ToU64(value)) > |old(bA)| then Len64(ToU64(value)) else |old(bA)|
      ensures forall c :: ColVal(bA, c) == ColVal(old(bA), c)
      ensures forall s :: Within(old(bA), s) ==> Within(bA, s)
      ensures old(bA) <= bA && forall i :: |old(bA)| <= i < |bA| ==> bA[i] == {}
    {
      if AutoSized() {
        var i := Len64(ToU64(value)) - |bA|;
        while i > 0
          invariant i <= 0 ==> i == Len64(ToU64(value)) - |old(bA)| || i == 0
          invariant i > 0 ==> |bA| + i == Len64(ToU64(value))
          invariant i == 0 ==> |bA| == Len64(ToU64(value))
          invariant i < 0 ==> bA == old(bA)
          invariant |bA| >= |old(bA)| && (|bA| > |old(bA)| ==> i >= 0)
          invariant old(bA) <= bA && forall k :: |old(bA)| <= k < |bA| ==> bA[k] == {}
          invariant forall c :: ColVal(bA, c) == ColVal(old(bA), c)
        {
          forall c: Row ensures ColVal(bA + [{}], c) == ColVal(bA, c) { ColValAppend(bA, {}, c); }
          bA := bA + [{}];
          i := i - 1;
        }
      }
    }

    method SetValue(columnID: uint64, value: int64)
      requires Valid()
      modifies this
      ensures Valid()
      ensures var c: Row := columnID % TWO32;
        && eBM == old(eBM) + {c}
        && |bA| == (if AutoSized() && Len64(ToU64(value)) > |old(bA)| then Len64(ToU64(value)) else |old(bA)|)
        && ColVal(bA, c) == Low(ToU64(value), |bA|)
        && (forall d :: d != c ==> ColVal(bA, d) == ColVal(old(bA), d))
        && (old(WideEnough(value)) ==> |bA| <= 64 && Values() == old(Values())[c := value])
    {
      Grow(value);
      ghost var grown := bA;
      var c: Row := columnID % TWO32;
      var exists_ := c in eBM;
      var i := 0;
      while i < |bA|
        invariant 0 <= i <= |bA| == |grown|
        invariant eBM == old(eBM)
        invariant forall k :: i <= k < |bA| ==> bA[k] == grown[k]
        invariant forall k :: 0 <= k < i ==> bA[k] == if Bit(ToU64(value), k) then grown[k] + {c} else grown[k] - {c}
      {
        if Bit(ToU64(value), i) {
          bA := bA[i := bA[i] + {c}];
        } else if exists_ {
          bA := bA[i := bA[i] - {c}];
        }
        i := i + 1;
      }
      eBM := eBM + {c};
      ColValFromBits(bA, c, ToU64(value));
      forall d | d != c ensures ColVal(bA, d) == ColVal(grown, d) { ColValSame(bA, d, grown, d); }
      LenBelow64(value, 64, 63);
      if old(WideEnough(value)) {
        FullWord(value, |bA|);
        assert Values() == old(Values())[c := value];
      }
    }

    method SetMany(foundSet: set<Row>, value: int64)
      requires Valid()
      modifies this
      ensures Valid()
      ensures eBM == old(eBM) + foundSet
      ensures |bA| == if AutoSized() && Len64(ToU64(value)) > |old(bA)| then Len64(ToU64(value)) else |old(bA)|
      ensures forall c :: ColVal(bA, c) == if c in foundSet then Low(ToU64(value), |bA|) else ColVal(old(bA), c)
      ensures old(WideEnough(value)) ==>
                |bA| <= 64 && Values() == old(Values()) + (map c | c in foundSet :: value)
    {
      Grow(value);
      ghost var grown := bA;
      var i := 0;
      while i < |bA|
        invariant 0 <= i <= |bA| == |grown|
        invariant eBM == old(eBM)
        invariant forall k :: i <= k < |bA| ==> bA[k] == grown[k]
        invariant forall k :: 0 <= k < i ==>
                    bA[k] == if Bit(ToU64(value), k) then grown[k] + foundSet else grown[k] - foundSet
      {
        if Bit(ToU64(value), i) {
          bA := bA[i := bA[i] + foundSet];
        } else {
          bA := bA[i := bA[i] - foundSet];
        }
        i := i + 1;
      }
      eBM := eBM + foundSet;
      forall c: Row
        ensures ColVal(bA, c) == if c in foundSet then Low(ToU64(value), |bA|) else ColVal(grown, c)
      {
        if c in foundSet { ColValFromBits(bA, c, ToU64(value)); } else { ColValSame(bA, c, grown, c); }
      }
      LenBelow64(value, 64, 63);
      if old(WideEnough(value)) {
        FullWord(value, |bA|);
      }
    }

    /** Bits are collected as in the source's `value |= 1 << i`, where a shift by 64 or more is 0. */
    method GetValue(columnID: uint64) returns (value: int64, exists_: bool)
      ensures var c: Row := columnID % TWO32;
        exists_ == (c in eBM) && value == if c in Values() then Values()[c] else 0
    {
      var c: Row := columnID % TWO32;
      exists_ := c in eBM;
      if !exists_ {
        return 0, exists_;
      }
      ghost var u := ColVal(bA, c);
      var word: nat := 0;
      var i := 0;
      while i < |bA|
        invariant 0 <= i <= |bA|
        invariant word == Low(u, if i < 64 then i else 64)
      {
        ColValBit(bA, c, i);
        LowStep(u, i);
        if c in bA[i] && i < 64 {
          word := word + Pow2(i);
        }
        i := i + 1;
      }
      hide Low, Pow2, ColVal, Bit;
      LowBits(bA, c, if i < 64 then i else 64);
      value := ToI64(word);
    }

    method ClearValues(foundSet: set<Row>)
      requires Valid()
      modifies this
      ensures Valid() && |bA| == |old(bA)|
      ensures Values() == old(Values()) - foundSet
      ensures forall c :: ColVal(bA, c) == if c in foundSet then 0 else ColVal(old(bA), c)
    {
      eBM := eBM - foundSet;
      var pending := Workers(|bA|);
      while pending != {}
        invariant |bA| == |old(bA)| && eBM == old(eBM) - foundSet
        invariant forall i :: i in pending ==> 0 <= i < |bA|
        invariant forall i :: 0 <= i < |bA| ==> bA[i] == if i in pending then old(bA)[i] else old(bA)[i] - foundSet
      {
        var j :| j in pending;
        bA := bA[j := bA[j] - foundSet];
        pending := pending - {j};
      }
      forall c: Row ensures ColVal(bA, c) == if c in foundSet then 0 else ColVal(old(bA), c) {
        if c in foundSet { ColValZero(bA, c); } else { ColValSame(bA, c, old(bA), c); }
      }
    }

    method NewBSIRetainSet(foundSet: set<Row>) returns (r: BSI)
      requires Valid()
      ensures fresh(r) && r.Valid()
      ensures r.MaxValue == MaxValue && r.MinValue == MinValue && |r.bA| == |bA|
      ensures r.eBM == eBM * foundSet
      ensures r.Values() == map c | c in Values() && c in foundSet :: Values()[c]
    {
      r := new BSI(MaxValue, MinValue);
      r.bA := seq(|bA|, _ => {});
      r.eBM := eBM * foundSet;
      var i := 0;
      while i < |bA|
        invariant 0 <= i <= |bA| == |r.bA|
        invariant r.eBM == eBM * foundSet
        invariant forall k :: 0 <= k < i ==> r.bA[k] == bA[k] * foundSet
      {
        r.bA := r.bA[i := bA[i] * foundSet];
        i := i + 1;
      }
      forall c | c in foundSet ensures ColVal(r.bA, c) == ColVal(bA, c) { ColValSame(r.bA, c, bA, c); }
    }

    /** One worker of `CompareValue`: the columns of its batch, one by one. */
    method CompareBatch(op: Operation, valueOrStart: int64, end: int64, batch: seq<Row>) returns (results: set<Row>)
      requires |bA| <= 64 && Comparison(op)
      ensures results == Select(bA, op, valueOrStart, end, set c | c in batch)
    {
      hide Accepts, ToI64, ColVal;
      results := {};
      var i := 0;
      while i < |batch|
        invariant 0 <= i <= |batch|
        invariant forall c :: c in results <==> c in batch[..i] && Accepts(op, |bA|, ToI64(ColVal(bA, c)), valueOrStart, end)
      {
        var cID := batch[i];
        assert batch[..i + 1] == batch[..i] + [cID];
        var hit := CompareColumn(bA, cID, op, valueOrStart, end);
        if hit {
          results := results + {cID};
        }
        i := i + 1;
      }
      assert batch[..|batch|] == batch;
    }

    /** Workers run side by side on a BSI that nobody changes and finish in any order; `numCPU` is
        what a parallelism of 0 stands for, and a missing found set stands for all columns. */
    method CompareValue(parallelism: nat, numCPU: nat, op: Operation, valueOrStart: int64, end: int64,
      foundSet: Bitmap?) returns (r: Bitmap)
      requires |bA| <= 64 && Comparison(op) && numCPU > 0
      ensures fresh(r)
      ensures var found := if foundSet == null then eBM else foundSet.rows;
        r.rows == Select(bA, op, valueOrStart, end, found)
    {
      var found := if foundSet == null then eBM else foundSet.rows;
      var n := if parallelism == 0 then numCPU else parallelism;
      var batches := SplitBatches(found, n);
      hide Accepts, ToI64, ColVal;
      var results: seq<set<Row>> := [];
      ghost var seen: set<Row> := {};
      var pending := Workers(n);
      while pending != {}
        invariant Covered(batches, pending, seen, found)
        invariant UnionAll(results) == Select(bA, op, valueOrStart, end, seen)
      {
        var w :| w in pending;
        Cover(batches, pending, seen, found, w);
        var bm := CompareBatch(op, valueOrStart, end, batches[w]);
        ghost var batch := set c | c in batches[w];
        SelectUnion(bA, op, valueOrStart, end, seen, batch);
        UnionAppend(results, bm);
        results, seen := results + [bm], seen + batch;
        pending := pending - {w};
      }
      AllCovered(batches, seen, found);
      r := new Bitmap(UnionAll(results));
    }

    /** The planes are counted side by side and added in any order with wrap-around. */
    method Sum(foundSet: Bitmap?) returns (sum: int64, count: uint64)
      ensures var found := if foundSet == null then eBM else foundSet.rows;
        && count == |found|
        && sum == ToI64(PlaneSum(bA, found))
        && (found <= eBM ==> sum == ToI64(ValueSum(Values(), found)))
    {
      hide PlaneSum, ValueSum, ColVal, ToI64, Shl;
      var found := if foundSet == null then eBM else foundSet.rows;
      CardBound(found, 0x1_0000_0000);
      count := |found|;
      sum := 0;
      ghost var left, q := bA, 0;
      var pending := Workers(|bA|);
      while pending != {}
        invariant Uncounted(left, bA, pending)
        invariant sum + PlaneSum(left, found) + q * TWO64 == PlaneSum(bA, found)
      {
        var j :| j in pending;
        var shifted := Shl(|found * bA[j]|, j);
        PlaneSumUpdate(left, found, j);
        ghost var q1;
        sum, q1 := AtomicAdd(sum, shifted);
        q, left := q + q1, left[j := {}];
        pending := pending - {j};
      }
      PlaneSumEmpty(left, found);
      SumIsWrapped(bA, eBM, Values(), found, sum, q);
    }

    /** Adds `2^i` to the columns of `foundSet`, rippling the carries upwards. */
    method AddDigit(foundSet: set<Row>, i: nat, ghost within: set<Row>)
      requires i <= |bA|
      requires foundSet <= within && Within(bA, within)
      modifies this`bA
      ensures |bA| > i && |bA| >= |old(bA)| && Within(bA, within)
      ensures forall c :: ColVal(bA, c) == ColVal(old(bA), c) + if c in foundSet then Pow2(i) else 0
      decreases if i < |bA| && bA[i] != {} then |bA| - i else 0
    {
      if i >= |bA| {
        forall c: Row ensures ColVal(bA + [{}], c) == ColVal(bA, c) { ColValAppend(bA, {}, c); }
        bA := bA + [{}];
      }
      ghost var before := bA;
      var carry := bA[i] * foundSet;
      bA := bA[i := (bA[i] - foundSet) + (foundSet - bA[i])];
      forall c: Row
        ensures ColVal(bA, c) + (if c in carry then Pow2(i + 1) else 0)
             == ColVal(before, c) + if c in foundSet then Pow2(i) else 0
      {
        ColValUpdate(before, i, bA[i], c);
      }
      if carry != {} {
        if i + 1 >= |bA| {
          forall c: Row ensures ColVal(bA + [{}], c) == ColVal(bA, c) { ColValAppend(bA, {}, c); }
          bA := bA + [{}];
        }
        AddDigit(carry, i + 1, within);
      }
    }

    /** Column-wise addition of another BSI, in place. */
    method Add(other: BSI)
      requires other != this && Valid() && other.Valid()
      modifies this
      ensures Valid() && eBM == old(eBM) + other.eBM
      ensures forall c :: ColVal(bA, c) == ColVal(old(bA), c) + ColVal(other.bA, c)
    {
      eBM := eBM + other.eBM;
      var i := 0;
      while i < |other.bA|
        invariant 0 <= i <= |other.bA| && i <= |bA|
        invariant Within(bA, eBM) && eBM == old(eBM) + other.eBM
        invariant forall c :: ColVal(bA, c) == ColVal(old(bA), c) + Low(ColVal(other.bA, c), i)
      {
        ghost var before := bA;
        AddDigit(other.bA[i], i, eBM);
        forall c: Row ensures ColVal(bA, c) == ColVal(old(bA), c) + Low(ColVal(other.bA, c), i + 1) {
          ColValBit(other.bA, c, i);
          LowStep(ColVal(other.bA, c), i);
        }
        i := i + 1;
      }
      forall c: Row ensures Low(ColVal(other.bA, c), i) == ColVal(other.bA, c) {
        ColValBound(other.bA, c);
        LowValue(ColVal(other.bA, c), i);
      }
    }

    /** No column has a bit below plane `i`. */
    ghost predicate NoneBelow(i: nat)
      reads this
    {
      forall c: Row :: Low(ColVal(bA, c), i) == 0
    }

    /** What `Add` does at plane `i` to a BSI added to itself: the plane is also the set that is added to it, so
        it is emptied. */
    method AddOwnDigit(i: nat, ghost within: set<Row>)
      requires i < |bA| && NoneBelow(i) && Within(bA, within)
      modifies this`bA
      ensures NoneBelow(i + 1) && Within(bA, within)
      ensures forall c :: ColVal(bA, c) == ColVal(old(bA), c) + if c in old(bA[i]) then Pow2(i) else 0
      ensures |bA| >= |old(bA)| && (old(bA[i]) == {} ==> |bA| == |old(bA)|)
    {
      ghost var before := bA;
      var carry := bA[i] * bA[i];
      bA := bA[i := {}];
      forall c: Row ensures ColVal(bA, c) + (if c in carry then Pow2(i) else 0) == ColVal(before, c) {
        ColValUpdate(before, i, {}, c);
      }
      if carry != {} {
        if i + 1 >= |bA| {
          forall c: Row ensures ColVal(bA + [{}], c) == ColVal(bA, c) { ColValAppend(bA, {}, c); }
          bA := bA + [{}];
        }
        AddDigit(carry, i + 1, within);
      }
      forall c: Row ensures Low(ColVal(bA, c), i + 1) == 0 {
        ColValBit(before, c, i);
        LowCarry(ColVal(before, c), i);
      }
    }

    /** Adding a BSI to itself, for at most so many turns of the loop: it comes to an end exactly when no column
        has a value, because otherwise there always is a next plane. */
    method AddToSelf(turns: nat) returns (ended: bool)
      requires Valid()
      modifies this`bA
      ensures Valid()
      ensures ended <==> (forall c: Row :: ColVal(old(bA), c) == 0) && turns >= |old(bA)|
    {
      ghost var before := bA;
      var i := 0;
      while i < |bA| && i < turns
        invariant 0 <= i <= |bA| && i <= turns
        invariant Within(bA, eBM) && NoneBelow(i)
        invariant |bA| >= |before| && forall c: Row :: ColVal(bA, c) >= ColVal(before, c)
        invariant NoValues(before) ==> NoValues(bA) && |bA| == |before|
        decreases turns - i
      {
        ghost var now := bA;
        AddOwnDigit(i, eBM);
        if NoValues(now) { NoBits(now, i); }
        i := i + 1;
      }
      if c: Row :| ColVal(before, c) != 0 {
        assert ColVal(bA, c) > 0;
        LowZero(bA, c, i);
      }
      ended := i >= |bA|;
    }

    /** Adds 1 to the found columns, which exist from then on. */
    method Increment(foundSet: Bitmap?)
      requires Valid()
      modifies this
      ensures Valid()
      ensures var found := if foundSet == null then old(eBM) else old(foundSet.rows);
        eBM == old(eBM) + found
        && forall c :: ColVal(bA, c) == ColVal(old(bA), c) + if c in found then 1 else 0
    {
      var found := if foundSet == null then eBM else foundSet.rows;
      AddDigit(found, 0, eBM + found);
      eBM := eBM + found;
    }

    /** One worker of `TransposeWithCounts`: a fresh count of the values in its batch. */
    method TransposeBatch(batch: seq<Row>) returns (results: BSI)
      requires |batch| <= 0x1_0000_0000
      ensures fresh(results) && results.Valid()
      ensures Counts(results.bA, results.eBM, Values(), batch)
    {
      results := new BSI.Default();
      ghost var m := Values();
      CountNone(m);
      var i := 0;
      while i < |batch|
        invariant 0 <= i <= |batch| && fresh(results) && results.Valid() && results.AutoSized() && |results.bA| <= 64
        invariant Counts(results.bA, results.eBM, m, batch[..i])
      {
        var value, ok := GetValue(batch[i]);
        ghost var before, existed := results.bA, results.eBM;
        if ok {
          results.Count(value);
        }
        CountStep(before, existed, results.bA, results.eBM, m, batch, i);
        i := i + 1;
      }
      assert batch[..|batch|] == batch;
    }

    /** Counts one more column with the given value. */
    method Count(value: int64)
      requires Valid() && AutoSized() && |bA| <= 64
      requires KeyOf(value) !in eBM ==> ColVal(bA, KeyOf(value)) == 0
      requires ColVal(bA, KeyOf(value)) < 0x1_0000_0000
      modifies this
      ensures Valid() && AutoSized() && |bA| <= 64
      ensures eBM == old(eBM) + {KeyOf(value)}
      ensures forall k :: ColVal(bA, k) == ColVal(old(bA), k) + if k == KeyOf(value) then 1 else 0
    {
      ghost var k, n := KeyOf(value), ColVal(bA, KeyOf(value));
      var val, ok := GetValue(ToU64(value));
      assert val == if ok then n else 0;
      val := if !ok then 1 else val + 1;
      LenBelow64(val, 64, 63);
      SetValue(ToU64(value), val);
      ShortWord(val, |bA|);
      assert ColVal(bA, k) == n + 1;
    }

    /** The partial counts are added up in any order. */
    method TransposeWithCounts(parallelism: nat, numCPU: nat, foundSet: Bitmap?) returns (results: BSI)
      requires numCPU > 0
      ensures fresh(results) && results.Valid()
      ensures var found := if foundSet == null then eBM else foundSet.rows;
        forall k: Row :: ColVal(results.bA, k) == |set c | c in found && c in Values() && (Values()[c] - k) % TWO32 == 0|
                    && (k in results.eBM <==> ColVal(results.bA, k) > 0)
    {
      var found := if foundSet == null then eBM else foundSet.rows;
      var n := if parallelism == 0 then numCPU else parallelism;
      var batches := SplitBatches(found, n);
      ghost var m := Values();
      results := new BSI.Default();
      CountNone(m);
      ghost var done, left := [], batches;
      var pending := Workers(n);
      CardBound(found, 0x1_0000_0000);
      while pending != {}
        invariant fresh(results) && results.Valid()
        invariant Running(left, batches, pending)
        invariant |Flatten(left)| <= |found|
        invariant Split(done, Flatten(left), Ascending(found))
        invariant Counts(results.bA, results.eBM, m, done)
      {
        var w :| w in pending;
        Finish(left, batches, pending, w);
        TakeBatch(done, left, w, found);
        var bm := TransposeBatch(batches[w]);
        ghost var before, existed := results.bA, results.eBM;
        results.Add(bm);
        CountAdd(before, existed, bm.bA, bm.eBM, results.bA, results.eBM, m, done, batches[w]);
        done, left := done + batches[w], left[w := []];
        pending := pending - {w};
      }
      Finished(left, batches);
      CountAll(results.bA, results.eBM, m, done, found);
    }
  }

  /** The columns `k` of a BSI hold how many of the listed columns are filed under `k`. */
  ghost predicate Counts(bA: seq<set<Row>>, eBM: set<Row>, m: map<Row, int64>, xs: seq<Row>) {
    forall k :: ColVal(bA, k) == Tally(xs, Filed(m, k)) && (k in eBM <==> ColVal(bA, k) > 0)
  }

  /** The rows `all` are divided into `done` and `rest`. */
  ghost predicate Split(done: seq<Row>, rest: seq<Row>, all: seq<Row>) {
    forall hits :: Tally(all, hits) == Tally(done, hits) + Tally(rest, hits)
  }

  lemma CountNone(m: map<Row, int64>)
    ensures Counts([], {}, m, [])
  {}

  lemma CountStep(before: seq<set<Row>>, existed: set<Row>, bA: seq<set<Row>>, eBM: set<Row>, m: map<Row, int64>,
    batch: seq<Row>, i: nat)
    requires i < |batch| && Counts(before, existed, m, batch[..i])
    requires var c := batch[i];
      if c in m then
        && eBM == existed + {KeyOf(m[c])}
        && forall k :: ColVal(bA, k) == ColVal(before, k) + if k == KeyOf(m[c]) then 1 else 0
      else bA == before && eBM == existed
    ensures Counts(bA, eBM, m, batch[..i + 1])
  {
    var c := batch[i];
    forall k ensures ColVal(bA, k) == Tally(batch[..i + 1], Filed(m, k)) && (k in eBM <==> ColVal(bA, k) > 0) {
      TallyAppend(batch, i, Filed(m, k));
    }
  }

  lemma CountAdd(a: seq<set<Row>>, ea: set<Row>, b: seq<set<Row>>, eb: set<Row>, r: seq<set<Row>>, er: set<Row>,
    m: map<Row, int64>, xs: seq<Row>, ys: seq<Row>)
    requires Counts(a, ea, m, xs) && Counts(b, eb, m, ys)
    requires er == ea + eb && forall k :: ColVal(r, k) == ColVal(a, k) + ColVal(b, k)
    ensures Counts(r, er, m, xs + ys)
  {
    forall k ensures ColVal(r, k) == Tally(xs + ys, Filed(m, k)) && (k in er <==> ColVal(r, k) > 0) {
      TallyConcat(xs, ys, Filed(m, k));
    }
  }

  lemma CountAll(bA: seq<set<Row>>, eBM: set<Row>, m: map<Row, int64>, done: seq<Row>, found: set<Row>)
    requires Counts(bA, eBM, m, done) && Split(done, [], Ascending(found))
    ensures forall k: Row :: ColVal(bA, k) == |set c | c in found && c in m && (m[c] - k) % TWO32 == 0| && (k in eBM <==> ColVal(bA, k) > 0)
  {
    hide ColVal, Filed;
    forall k: Row ensures ColVal(bA, k) == |set c | c in found && c in m && (m[c] - k) % TWO32 == 0| {
      TallyIsCard(found, Filed(m, k));
      FiledResidues(found, m, k);
    }
  }

  lemma FiledResidues(found: set<Row>, m: map<Row, int64>, k: Row)
    ensures found * Filed(m, k) == set c | c in found && c in m && (m[c] - k) % TWO32 == 0
  {
    forall c | c in m ensures KeyOf(m[c]) == k <==> (m[c] - k) % TWO32 == 0 { KeyIsResidue(m[c], k); }
    hide KeyOf;
  }

  /** Finishing a batch moves its rows from what is left to what is done. */
  lemma TakeBatch(done: seq<Row>, left: seq<seq<Row>>, w: nat, found: set<Row>)
    requires w < |left| && Split(done, Flatten(left), Ascending(found))
    ensures |left[w]| + |Flatten(left[w := []])| == |Flatten(left)|
    ensures Split(done + left[w], Flatten(left[w := []]), Ascending(found))
  {
    var pre, post := FlattenUpdate(left, w);
    forall hits
      ensures Tally(Ascending(found), hits) == Tally(done + left[w], hits) + Tally(Flatten(left[w := []]), hits)
    {
      TallyConcat(done, left[w], hits);
      TallyConcat(pre + left[w], post, hits);
      TallyConcat(pre, left[w], hits);
      TallyConcat(pre, post, hits);
    }
  }

  lemma SelectUnion(bA: seq<set<Row>>, op: Operation, v: int64, end: int64, s: set<Row>, t: set<Row>)
    ensures Select(bA, op, v, end, s + t) == Select(bA, op, v, end, s) + Select(bA, op, v, end, t)
  {}

  /** The bits that a word collects are all that the signed reading of a column depends on. */
  lemma LowBits(bA: seq<set<Row>>, c: Row, n: nat)
    requires n == if |bA| < 64 then |bA| else 64
    ensures ToI64(Low(ColVal(bA, c), n)) == ToI64(ColVal(bA, c))
  {
    if n < 64 {
      ColValBound(bA, c);
      LowValue(ColVal(bA, c), n);
    } else {
      LowIsMod64(ColVal(bA, c), n);
    }
  }

  /** A value that fits its planes is read back unchanged. */
  lemma FullWord(value: int64, n: nat)
    requires Len64(ToU64(value)) <= n
    ensures ToI64(Low(ToU64(value), n)) == value
  {
    ShortWord(ToU64(value), n);
    SignedRoundTrip(value);
  }

  lemma {:induction false} LowCarry(v: nat, i: nat)
    requires Low(v, i) == 0
    ensures Low(v + (if Bit(v, i) then Pow2(i) else 0), i + 1) == 0
  {
    if i > 0 {
      ShrStep(v, i - 1);
      LowCarry(v / 2, i - 1);
      assert (v + Pow2(i)) / 2 == v / 2 + Pow2(i - 1);
    }
  }

  ghost predicate NoValues(bA: seq<set<Row>>) {
    forall c: Row :: ColVal(bA, c) == 0
  }

  lemma NoBits(bA: seq<set<Row>>, i: nat)
    requires NoValues(bA) && i < |bA|
    ensures bA[i] == {}
  {
    if c: Row :| c in bA[i] {
      ColValBit(bA, c, i);
      ShrZero(0, 0, i);
    }
  }

  /** A number that is not zero but has no bit below `n` needs more than `n` planes. */
  lemma LowZero(bA: seq<set<Row>>, c: Row, n: nat)
    requires Low(ColVal(bA, c), n) == 0 && ColVal(bA, c) > 0
    ensures n < |bA|
  {
    ColValBound(bA, c);
    if |bA| <= n {
      Pow2Mono(|bA|, n);
      LowValue(ColVal(bA, c), n);
    }
  }

  /** Two values, stored side by side and compared. */
  method StoreAndCompare(v: int64, w: int64, op: Operation, valueOrStart: int64, end: int64)
    returns (planes: nat, foundV: bool, foundW: bool)
    requires Comparison(op)
    ensures planes == if Len64(ToU64(w)) > Len64(ToU64(v)) then Len64(ToU64(w)) else Len64(ToU64(v))
    ensures foundV == Accepts(op, planes, v, valueOrStart, end) && foundW == Accepts(op, planes, w, valueOrStart, end)
  {
    hide Accepts, Len64;
    var b := new BSI.Default();
    b.SetValue(0, v);
    b.SetValue(1, w);
    assert b.Values()[0] == v && b.Values()[1] == w;
    planes := |b.bA|;
    var r := b.CompareValue(0, 1, op, valueOrStart, end, null);
    foundV, foundW := 0 in r.rows, 1 in r.rows;
  }

  /** -5 is not found below 5, nor 5 above -5, and 5 is found equal to -5. */
  method SignsClash() returns (below: bool, above: bool, equal: bool)
    ensures !below && !above && equal
  {
    var planes, other;
    planes, below, other := StoreAndCompare(-5, 5, LT, 5, 0);
    planes, other, above := StoreAndCompare(-5, 5, GT, -5, 0);
    planes, other, equal := StoreAndCompare(-5, 5, EQ, -5, 0);
  }

  /** Beside a negative column, 6 is found between -8 and 5. */
  method RangeTooWide() returns (inside: bool, outside: bool)
    ensures inside && outside
  {
    LenBelow64(-8, 64, 63);
    LenBelow64(6, 64, 63);
    hide Len64, ToU64, Accepts;
    var planes;
    planes, inside, outside := StoreAndCompare(-8, 6, RANGE, -8, 5);
    TooWide(planes);
  }

  /** -2 is found between 3 and 5, as -3 is; between -55 and -45 the ends and what is between them are. */
  method RangeOfNegatives() returns (stray: bool, clash: bool, first: bool, last: bool)
    ensures stray && clash && first && last
  {
    LenBelow64(-2, 64, 63);
    LenBelow64(-3, 64, 63);
    LenBelow64(-55, 64, 63);
    LenBelow64(-45, 64, 63);
    hide Len64, ToU64, Accepts;
    var planes;
    planes, stray, clash := StoreAndCompare(-2, -3, RANGE, 3, 5);
    Strays(planes);
    planes, first, last := StoreAndCompare(-55, -45, RANGE, -55, -45);
    SameSignInterval(planes, -55, -55, -45);
    SameSignInterval(planes, -45, -55, -45);
  }

  lemma Strays(planes: nat)
    requires planes == 64
    ensures Accepts(RANGE, planes, -2, 3, 5) && Accepts(RANGE, planes, -3, 3, 5)
  {
    NegativeIsFull(planes, -2, 3, 5);
    NegativeIsFull(planes, -3, 3, 5);
    PositiveVerdict(-2, 3, 5);
    PositiveVerdict(-3, 3, 5);
  }

  lemma TooWide(planes: nat)
    requires planes == 64
    ensures Accepts(RANGE, planes, -8, -8, 5) && Accepts(RANGE, planes, 6, -8, 5)
  {
    WidthFits(planes, 5);
    FullWidth(planes, -8, -8, 5);
    FullWidth(planes, 6, -8, 5);
    MixedVerdict(-8, -8, 5);
    MixedVerdict(6, -8, 5);
  }
}
