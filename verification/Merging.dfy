/** Merging two indices: the rows are renumbered and every bitmap is carried over. */
module Merging {
  import opened Words
  import opened Bitmaps
  import opened Planes
  import opened Bsi
  import opened Keys
  import opened Filtering
  import opened Index

  // The renumbering.

  /** `rA` and `rB` place the rows of two indices in `[0, n)`: each keeps its order, they never meet,
      and together they leave no gap. */
  ghost predicate Renumbering(rA: seq<Row>, rB: seq<Row>, n: nat) {
    && |rA| + |rB| == n <= 0x1_0000_0000
    && (forall i :: 0 <= i < |rA| ==> rA[i] < n)
    && (forall j :: 0 <= j < |rB| ==> rB[j] < n)
    && (forall i, k :: 0 <= i < k < |rA| ==> rA[i] < rA[k])
    && (forall j, k :: 0 <= j < k < |rB| ==> rB[j] < rB[k])
    && (forall i, j :: 0 <= i < |rA| && 0 <= j < |rB| ==> rA[i] != rB[j])
    && (forall r: Row :: r < n ==> r in rA || r in rB)
  }

  /** What was in row `i` is now in row `remap[i]`. */
  ghost predicate Moved<T>(remap: seq<Row>, old_: seq<T>, new_: seq<T>) {
    |remap| <= |old_| && forall i :: 0 <= i < |remap| ==> remap[i] < |new_| && new_[remap[i]] == old_[i]
  }

  lemma RenumberingNext(rA: seq<Row>, rB: seq<Row>, n: nat)
    requires Renumbering(rA, rB, n) && n < 0x1_0000_0000
    ensures Renumbering(rA + [n], rB, n + 1)
  {}

  lemma RenumberingSwap(rA: seq<Row>, rB: seq<Row>, n: nat)
    requires Renumbering(rA, rB, n)
    ensures Renumbering(rB, rA, n) && |rB| + |rA| == n
  {}

  /** Which of two keys the merge takes first. */
  predicate TakeFirst(a: EventKey, b: EventKey) {
    if a.startTime != b.startTime then a.startTime < b.startTime else CompareString(a.id, b.id) >= 0
  }

  /** The two-pointer merge of two key lists. */
  function Merged(a: seq<EventKey>, b: seq<EventKey>): seq<EventKey> {
    if a == [] then b
    else if b == [] then a
    else if TakeFirst(a[0], b[0]) then [a[0]] + Merged(a[1..], b)
    else [b[0]] + Merged(a, b[1..])
  }

  /** Every row has the key of its entry. */
  ghost predicate KeysOf(keys: seq<EventKey>, es: seq<Entry>) {
    |keys| == |es| && forall k :: 0 <= k < |keys| ==> keys[k] == EntryKey(es[k])
  }

  /** The state of the merge loop after `i` keys of `a` and `j` keys of `b`. */
  ghost predicate Progress(a: seq<EventKey>, b: seq<EventKey>, ea: seq<Entry>, eb: seq<Entry>, i: nat, j: nat,
    keys: seq<EventKey>, es: seq<Entry>, rA: seq<Row>, rB: seq<Row>)
  {
    && i <= |a| == |ea| && j <= |b| == |eb| && |rA| == i && |rB| == j && |keys| == |es| == i + j
    && |a| + |b| <= 0x1_0000_0000
    && Renumbering(rA, rB, i + j)
    && Moved(rA, ea, es) && Moved(rB, eb, es)
    && KeysOf(a, ea) && KeysOf(b, eb) && KeysOf(keys, es)
    && keys + Merged(a[i..], b[j..]) == Merged(a, b)
    && multiset(es) == multiset(ea[..i]) + multiset(eb[..j])
  }

  lemma MovedNext<T>(remap: seq<Row>, old_: seq<T>, new_: seq<T>, i: nat, n: Row)
    requires Moved(remap, old_, new_) && |remap| == i < |old_| && n == |new_|
    ensures Moved(remap + [n], old_, new_ + [old_[i]])
  {}

  lemma MovedStay<T>(remap: seq<Row>, old_: seq<T>, new_: seq<T>, x: T)
    requires Moved(remap, old_, new_)
    ensures Moved(remap, old_, new_ + [x])
  {}

  lemma MergedNext(a: seq<EventKey>, b: seq<EventKey>, i: nat, j: nat)
    requires i <= |a| && j <= |b|
    ensures i < |a| && (j < |b| ==> TakeFirst(a[i], b[j])) ==> Merged(a[i..], b[j..]) == [a[i]] + Merged(a[i + 1..], b[j..])
    ensures j < |b| && (i < |a| ==> !TakeFirst(a[i], b[j])) ==> Merged(a[i..], b[j..]) == [b[j]] + Merged(a[i..], b[j + 1..])
  {}

  lemma TookA(a: seq<EventKey>, b: seq<EventKey>, ea: seq<Entry>, eb: seq<Entry>, i: nat, j: nat,
    keys: seq<EventKey>, es: seq<Entry>, rA: seq<Row>, rB: seq<Row>)
    requires Progress(a, b, ea, eb, i, j, keys, es, rA, rB)
    requires i < |a| && (j < |b| ==> TakeFirst(a[i], b[j]))
    ensures Progress(a, b, ea, eb, i + 1, j, keys + [a[i]], es + [ea[i]], rA + [i + j], rB)
  {
    hide Renumbering, Moved, Merged, TakeFirst, EntryKey;
    RenumberingNext(rA, rB, i + j);
    MovedNext(rA, ea, es, i, i + j);
    MovedStay(rB, eb, es, ea[i]);
    MergedNext(a, b, i, j);
    assert (keys + [a[i]]) + Merged(a[i + 1..], b[j..]) == keys + ([a[i]] + Merged(a[i + 1..], b[j..]));
    assert ea[..i + 1] == ea[..i] + [ea[i]];
  }

  lemma TookB(a: seq<EventKey>, b: seq<EventKey>, ea: seq<Entry>, eb: seq<Entry>, i: nat, j: nat,
    keys: seq<EventKey>, es: seq<Entry>, rA: seq<Row>, rB: seq<Row>)
    requires Progress(a, b, ea, eb, i, j, keys, es, rA, rB)
    requires j < |b| && (i < |a| ==> !TakeFirst(a[i], b[j]))
    ensures Progress(a, b, ea, eb, i, j + 1, keys + [b[j]], es + [eb[j]], rA, rB + [i + j])
  {
    hide Renumbering, Moved, Merged, TakeFirst, EntryKey;
    RenumberingSwap(rA, rB, i + j);
    RenumberingNext(rB, rA, i + j);
    RenumberingSwap(rB + [i + j], rA, i + j + 1);
    MovedNext(rB, eb, es, j, i + j);
    MovedStay(rA, ea, es, eb[j]);
    MergedNext(a, b, i, j);
    assert (keys + [b[j]]) + Merged(a[i..], b[j + 1..]) == keys + ([b[j]] + Merged(a[i..], b[j + 1..]));
    assert eb[..j + 1] == eb[..j] + [eb[j]];
  }

  /** The merge of two key lists, with the tables that renumber their rows. */
  method Interleave(a: seq<EventKey>, b: seq<EventKey>, ghost ea: seq<Entry>, ghost eb: seq<Entry>)
    returns (keys: seq<EventKey>, rA: seq<Row>, rB: seq<Row>, ghost es: seq<Entry>)
    requires |a| == |ea| && |b| == |eb| && |a| + |b| <= 0x1_0000_0000
    requires KeysOf(a, ea) && KeysOf(b, eb)
    ensures keys == Merged(a, b) && Renumbering(rA, rB, |keys|) && Moved(rA, a, keys) && Moved(rB, b, keys)
    ensures Progress(a, b, ea, eb, |a|, |b|, keys, es, rA, rB)
  {
    var remapA := new Row[|a|];
    var remapB := new Row[|b|];
    keys, es := FillRemaps(a, b, remapA, remapB, ea, eb);
    rA, rB := remapA[..], remapB[..];
    Interleaved(a, b, ea, eb, keys, es, rA, rB);
  }

  /** The merge loops, which also fill the two renumbering tables. */
  method FillRemaps(a: seq<EventKey>, b: seq<EventKey>, remapA: array<Row>, remapB: array<Row>,
    ghost ea: seq<Entry>, ghost eb: seq<Entry>)
    returns (keys: seq<EventKey>, ghost es: seq<Entry>)
    requires remapA != remapB && remapA.Length == |a| == |ea| && remapB.Length == |b| == |eb|
    requires |a| + |b| <= 0x1_0000_0000
    requires KeysOf(a, ea) && KeysOf(b, eb)
    modifies remapA, remapB
    ensures Progress(a, b, ea, eb, |a|, |b|, keys, es, remapA[..], remapB[..])
  {
    hide Progress, Merged, TakeFirst;
    keys, es := [], [];
    var i, j := 0, 0;
    assert Progress(a, b, ea, eb, i, j, keys, es, remapA[..i], remapB[..j]) by {
      NoProgress(a, b, ea, eb);
    }
    while i < |a| && j < |b|
      invariant 0 <= i <= |a| && 0 <= j <= |b| && |keys| == i + j
      invariant Progress(a, b, ea, eb, i, j, keys, es, remapA[..i], remapB[..j])
      decreases |a| + |b| - i - j
    {
      if TakeFirst(a[i], b[j]) {
        ghost var rA, rB := remapA[..i], remapB[..j];
        TookA(a, b, ea, eb, i, j, keys, es, rA, rB);
        keys, es := keys + [a[i]], es + [ea[i]];
        remapA[i] := |keys| - 1;
        assert remapA[..i + 1] == rA + [i + j] && remapB[..j] == rB;
        i := i + 1;
      } else {
        ghost var rA, rB := remapA[..i], remapB[..j];
        TookB(a, b, ea, eb, i, j, keys, es, rA, rB);
        keys, es := keys + [b[j]], es + [eb[j]];
        remapB[j] := |keys| - 1;
        assert remapB[..j + 1] == rB + [i + j] && remapA[..i] == rA;
        j := j + 1;
      }
    }
    while i < |a|
      invariant 0 <= i <= |a| && 0 <= j <= |b| && |keys| == i + j && (i < |a| ==> j == |b|)
      invariant Progress(a, b, ea, eb, i, j, keys, es, remapA[..i], remapB[..j])
    {
      ghost var rA, rB := remapA[..i], remapB[..j];
      TookA(a, b, ea, eb, i, j, keys, es, rA, rB);
      keys, es := keys + [a[i]], es + [ea[i]];
      remapA[i] := |keys| - 1;
      assert remapA[..i + 1] == rA + [i + j] && remapB[..j] == rB;
      i := i + 1;
    }
    while j < |b|
      invariant i == |a| && 0 <= j <= |b| && |keys| == i + j
      invariant Progress(a, b, ea, eb, i, j, keys, es, remapA[..i], remapB[..j])
    {
      ghost var rA, rB := remapA[..i], remapB[..j];
      TookB(a, b, ea, eb, i, j, keys, es, rA, rB);
      keys, es := keys + [b[j]], es + [eb[j]];
      remapB[j] := |keys| - 1;
      assert remapB[..j + 1] == rB + [i + j] && remapA[..i] == rA;
      j := j + 1;
    }
    assert remapA[..i] == remapA[..] && remapB[..j] == remapB[..];
  }

  lemma NoProgress(a: seq<EventKey>, b: seq<EventKey>, ea: seq<Entry>, eb: seq<Entry>)
    requires |a| == |ea| && |b| == |eb| && |a| + |b| <= 0x1_0000_0000
    requires KeysOf(a, ea) && KeysOf(b, eb)
    ensures Progress(a, b, ea, eb, 0, 0, [], [], [], [])
  {}

  // Carrying bitmaps over.

  /** The rows of `s` under a renumbering. */
  ghost function Image(remap: seq<Row>, s: set<Row>): set<Row> {
    set i | i in s && i < |remap| :: remap[i]
  }

  /** Small bitmaps are moved row by row, larger ones through a buffer. */
  method MoveBitmap(src: set<Row>, remap: seq<Row>, dst: set<Row>) returns (r: set<Row>)
    requires forall x :: x in src ==> x < |remap|
    ensures r == dst + Image(remap, src)
  {
    r := dst;
    var card := |src|;
    if card == 0 {
      return;
    }
    var rows := Ascending(src);
    forall x ensures x in rows <==> x in src { AscendingMember(src, x); }
    forall k | 0 <= k < |rows| ensures rows[k] < |remap| { assert rows[k] in rows; }
    if card < 32 {
      var i := 0;
      while i < |rows|
        invariant 0 <= i <= |rows|
        invariant forall x :: x in r <==> x in dst || exists k :: 0 <= k < i && rows[k] < |remap| && remap[rows[k]] == x
      {
        r := r + {remap[rows[i]]};
        i := i + 1;
      }
      MovedRows(remap, src, rows, r, dst);
      return;
    }
    var buf := seq(|rows|, k requires 0 <= k < |rows| => rows[k]);
    var i := 0;
    while i < |buf|
      invariant 0 <= i <= |buf| == |rows|
      invariant forall k :: 0 <= k < |buf| ==> buf[k] == if k < i then remap[rows[k]] else rows[k]
    {
      buf := buf[i := remap[buf[i]]];
      i := i + 1;
    }
    r := dst + set x | x in buf;
    MovedRows(remap, src, rows, r, dst);
  }

  lemma MovedRows(remap: seq<Row>, src: set<Row>, rows: seq<Row>, r: set<Row>, dst: set<Row>)
    requires (forall x :: x in rows <==> x in src) && (forall x :: x in src ==> x < |remap|)
    requires forall x :: x in r <==> x in dst || exists k :: 0 <= k < |rows| && rows[k] < |remap| && remap[rows[k]] == x
    ensures r == dst + Image(remap, src)
  {}

  /** Rows with a property, on both sides, become the rows with that property. */
  lemma ImageIs(rA: seq<Row>, rB: seq<Row>, ea: seq<Entry>, eb: seq<Entry>, es: seq<Entry>,
    a: set<Row>, b: set<Row>, p: Event -> bool)
    requires Renumbering(rA, rB, |es|) && Moved(rA, ea, es) && Moved(rB, eb, es) && |rA| == |ea| && |rB| == |eb|
    requires Is(a, ea, p) && Is(b, eb, p)
    ensures Is(Image(rA, a) + Image(rB, b), es, p)
  {
    var all := Image(rA, a) + Image(rB, b);
    forall r ensures r in all <==> 0 <= r < |es| && p(es[r].event) {
      if r in Image(rA, a) {
        var i :| i in a && i < |rA| && rA[i] == r;
      }
      if r in Image(rB, b) {
        var j :| j in b && j < |rB| && rB[j] == r;
      }
      if 0 <= r < |es| && p(es[r].event) {
        if r in rA {
          var i :| 0 <= i < |rA| && rA[i] == r;
          assert i in a;
        } else {
          var j :| 0 <= j < |rB| && rB[j] == r;
          assert j in b;
        }
      }
    }
  }

  /** Carries every posting of `src` over, creating the missing ones. */
  method MovePostings<K(==, !new)>(src: map<K, Bitmap>, remap: seq<Row>, dst: map<K, Bitmap>, ghost repr: set<Bitmap>)
    returns (r: map<K, Bitmap>, ghost repr': set<Bitmap>)
    requires Owned(dst, repr)
    requires forall k :: k in src ==> src[k] !in repr && forall x :: x in src[k].rows ==> x < |remap|
    modifies repr
    ensures Owned(r, repr') && repr <= repr' && fresh(repr' - repr)
    ensures forall k :: RowsOf(r, k) == old(RowsOf(dst, k)) + Image(remap, old(RowsOf(src, k)))
  {
    r, repr' := dst, repr;
    var pending := src.Keys;
    while pending != {}
      invariant pending <= src.Keys
      invariant Owned(r, repr') && repr <= repr' && fresh(repr' - repr)
      invariant forall k :: k in src ==> src[k] !in repr' && src[k].rows == old(src[k].rows)
      invariant forall k :: RowsOf(r, k) ==
                  if k in src.Keys - pending then old(RowsOf(dst, k)) + Image(remap, old(RowsOf(src, k))) else old(RowsOf(dst, k))
    {
      var k :| k in pending;
      r, repr' := MovePosting(src[k], remap, r, k, repr');
      pending := pending - {k};
    }
  }

  method MovePosting<K(==, !new)>(src: Bitmap, remap: seq<Row>, dst: map<K, Bitmap>, k: K, ghost repr: set<Bitmap>)
    returns (r: map<K, Bitmap>, ghost repr': set<Bitmap>)
    requires Owned(dst, repr) && src !in repr && forall x :: x in src.rows ==> x < |remap|
    modifies repr
    ensures Owned(r, repr') && repr <= repr' && fresh(repr' - repr)
    ensures RowsOf(r, k) == old(RowsOf(dst, k)) + Image(remap, src.rows)
    ensures forall l :: l != k ==> RowsOf(r, l) == old(RowsOf(dst, l))
  {
    r, repr' := dst, repr;
    if k !in r {
      var b := new Bitmap({});
      r, repr' := r[k := b], repr' + {b};
    }
    r[k].rows := MoveBitmap(src.rows, remap, r[k].rows);
  }

  method MovePlanes(planes: seq<set<Row>>, remap: seq<Row>, dst: seq<set<Row>>) returns (r: seq<set<Row>>)
    requires |planes| <= |dst|
    requires forall k, x :: 0 <= k < |planes| && x in planes[k] ==> x < |remap|
    ensures |r| == |dst|
    ensures forall k :: 0 <= k < |r| ==> r[k] == dst[k] + Image(remap, if k < |planes| then planes[k] else {})
  {
    r := dst;
    var bitIdx := 0;
    while bitIdx < |planes|
      invariant 0 <= bitIdx <= |planes| && |r| == |dst|
      invariant forall k :: 0 <= k < |r| ==> r[k] == dst[k] + Image(remap, if k < bitIdx then planes[k] else {})
    {
      var moved := MoveBitmap(planes[bitIdx], remap, r[bitIdx]);
      r := r[bitIdx := moved];
      bitIdx := bitIdx + 1;
    }
  }

  method MergeBSI(srcA: BSI, srcB: BSI, remapA: seq<Row>, remapB: seq<Row>, maxLen: nat) returns (dst: BSI)
    requires Renumbering(remapA, remapB, maxLen)
    requires srcA.Valid() && (forall x: Row :: x in srcA.eBM <==> x < |remapA|)
    requires srcB.Valid() && (forall x: Row :: x in srcB.eBM <==> x < |remapB|)
    ensures fresh(dst) && dst.Valid() && dst.eBM == Rows(maxLen)
    ensures |dst.bA| == if |srcB.bA| > |srcA.bA| then |srcB.bA| else |srcA.bA|
    ensures srcA.AutoSized() && srcB.AutoSized() ==> dst.AutoSized()
    ensures forall i :: 0 <= i < |remapA| ==> ColVal(dst.bA, remapA[i]) == ColVal(srcA.bA, i)
    ensures forall j :: 0 <= j < |remapB| ==> ColVal(dst.bA, remapB[j]) == ColVal(srcB.bA, j)
  {
    assert |remapA| <= 0x1_0000_0000 && |remapB| <= 0x1_0000_0000 && maxLen <= 0x1_0000_0000;
    assert Within(srcA.bA, srcA.eBM) && Within(srcB.bA, srcB.eBM);
    hide Image, ColVal, Renumbering;
    var maxBitCount := |srcA.bA|;
    if |srcB.bA| > maxBitCount {
      maxBitCount := |srcB.bA|;
    }
    var maxVal := if srcB.MaxValue > srcA.MaxValue then srcB.MaxValue else srcA.MaxValue;
    var minVal := if srcB.MinValue < srcA.MinValue then srcB.MinValue else srcA.MinValue;
    dst := new BSI(maxVal, minVal);
    var bitmaps := seq(maxBitCount, _ => {});
    bitmaps := MovePlanes(srcA.bA, remapA, bitmaps);
    bitmaps := MovePlanes(srcB.bA, remapB, bitmaps);
    dst.bA := bitmaps;
    dst.eBM := Rows(maxLen);
    MovedColumns(srcA.bA, srcB.bA, remapA, remapB, maxLen, dst.bA);
    MovedWithin(srcA.bA, srcB.bA, remapA, remapB, maxLen, dst.bA);
  }

  /** Plane `k` after both sources were moved into it. */
  ghost function PlaneUnion(a: seq<set<Row>>, b: seq<set<Row>>, rA: seq<Row>, rB: seq<Row>, k: nat): set<Row> {
    Image(rA, if k < |a| then a[k] else {}) + Image(rB, if k < |b| then b[k] else {})
  }

  lemma MovedColumn(a: seq<set<Row>>, b: seq<set<Row>>, rA: seq<Row>, rB: seq<Row>, n: nat, planes: seq<set<Row>>, i: nat)
    requires Renumbering(rA, rB, n) && i < |rA|
    requires |planes| >= |a| && forall k :: 0 <= k < |planes| ==> planes[k] == PlaneUnion(a, b, rA, rB, k)
    ensures ColVal(planes, rA[i]) == ColVal(a, i)
  {
    forall k | 0 <= k < |planes| ensures rA[i] in planes[k] <==> k < |a| && i in a[k] {
      assert planes[k] == PlaneUnion(a, b, rA, rB, k);
      MovedMember(if k < |a| then a[k] else {}, if k < |b| then b[k] else {}, rA, rB, n, i);
    }
    hide PlaneUnion, Image, Renumbering;
    ColValPadded(a, i, planes, rA[i]);
  }

  lemma MovedColumns(a: seq<set<Row>>, b: seq<set<Row>>, rA: seq<Row>, rB: seq<Row>, n: nat, planes: seq<set<Row>>)
    requires Renumbering(rA, rB, n)
    requires |planes| >= |a| && |planes| >= |b| && forall k :: 0 <= k < |planes| ==> planes[k] == PlaneUnion(a, b, rA, rB, k)
    ensures forall i :: 0 <= i < |rA| ==> ColVal(planes, rA[i]) == ColVal(a, i)
    ensures forall j :: 0 <= j < |rB| ==> ColVal(planes, rB[j]) == ColVal(b, j)
  {
    forall i | 0 <= i < |rA| ensures ColVal(planes, rA[i]) == ColVal(a, i) {
      MovedColumn(a, b, rA, rB, n, planes, i);
    }
    RenumberingSwap(rA, rB, n);
    hide Renumbering, ColVal, Image;
    forall k | 0 <= k < |planes| ensures planes[k] == PlaneUnion(b, a, rB, rA, k) {}
    forall j | 0 <= j < |rB| ensures ColVal(planes, rB[j]) == ColVal(b, j) {
      MovedColumn(b, a, rB, rA, n, planes, j);
    }
  }

  /** Moving keeps a row's membership. */
  lemma MovedMember(a: set<Row>, b: set<Row>, rA: seq<Row>, rB: seq<Row>, n: nat, i: nat)
    requires Renumbering(rA, rB, n) && i < |rA|
    ensures rA[i] in Image(rA, a) + Image(rB, b) <==> i in a
  {}

  lemma MovedWithin(a: seq<set<Row>>, b: seq<set<Row>>, rA: seq<Row>, rB: seq<Row>, n: nat, planes: seq<set<Row>>)
    requires Renumbering(rA, rB, n)
    requires forall k :: 0 <= k < |planes| ==> planes[k] == PlaneUnion(a, b, rA, rB, k)
    ensures Within(planes, Rows(n))
  {}

  /** What the merge assumes of its sources and establishes for its result. */
  ghost predicate Merges(ea: seq<Entry>, eb: seq<Entry>, es: seq<Entry>, rA: seq<Row>, rB: seq<Row>) {
    && |rA| == |ea| && |rB| == |eb| && Renumbering(rA, rB, |es|)
    && Moved(rA, ea, es) && Moved(rB, eb, es)
    && multiset(es) == multiset(ea) + multiset(eb)
  }

  method MoveBoth<K(==, !new)>(a: map<K, Bitmap>, b: map<K, Bitmap>, rA: seq<Row>, rB: seq<Row>)
    returns (r: map<K, Bitmap>, ghost repr: set<Bitmap>)
    requires forall k :: k in a ==> forall x :: x in a[k].rows ==> x < |rA|
    requires forall k :: k in b ==> forall x :: x in b[k].rows ==> x < |rB|
    ensures fresh(repr) && Owned(r, repr)
    ensures forall k :: RowsOf(r, k) == Image(rA, RowsOf(a, k)) + Image(rB, RowsOf(b, k))
  {
    hide Image;
    r, repr := MovePostings(a, rA, map[], {});
    r, repr := MovePostings(b, rB, r, repr);
  }

  method MergeTags(a: map<string, Bitmap>, b: map<string, Bitmap>, rA: seq<Row>, rB: seq<Row>,
    ghost reprA: set<Bitmap>, ghost reprB: set<Bitmap>, ghost ea: seq<Entry>, ghost eb: seq<Entry>, ghost es: seq<Entry>)
    returns (r: map<string, Bitmap>, ghost repr: set<Bitmap>)
    requires Merges(ea, eb, es, rA, rB) && Fits(ea) && Fits(eb) && Fits(es)
    requires TagsExact(a, reprA, ea) && TagsExact(b, reprB, eb)
    ensures fresh(repr) && TagsExact(r, repr, es)
  {
    SourceTags(a, reprA, ea);
    SourceTags(b, reprB, eb);
    MergedTagged(ea, eb, es, rA, rB);
    assert |rA| == |ea| && |rB| == |eb|;
    hide TagsExact, Merges, Tagged, Image, Fits;
    r, repr := MoveBoth(a, b, rA, rB);
    TagsAre(r, repr, ea, eb, es, rA, rB);
  }

  lemma TagsAre(r: map<string, Bitmap>, repr: set<Bitmap>, ea: seq<Entry>, eb: seq<Entry>, es: seq<Entry>,
    rA: seq<Row>, rB: seq<Row>)
    requires Fits(ea) && Fits(eb) && Fits(es) && Owned(r, repr)
    requires forall t :: Image(rA, Tagged(ea, t)) + Image(rB, Tagged(eb, t)) == Tagged(es, t)
    requires forall t :: RowsOf(r, t) == Image(rA, Tagged(ea, t)) + Image(rB, Tagged(eb, t))
    ensures TagsExact(r, repr, es)
  {}

  predicate Fits(es: seq<Entry>) {
    |es| <= 0x1_0000_0000
  }

  lemma SourceTags(a: map<string, Bitmap>, repr: set<Bitmap>, ea: seq<Entry>)
    requires Fits(ea) && TagsExact(a, repr, ea)
    ensures forall k :: k in a ==> forall x :: x in a[k].rows ==> x < |ea|
    ensures forall t :: RowsOf(a, t) == Tagged(ea, t)
  {
    forall k | k in a ensures forall x :: x in a[k].rows ==> x < |ea| {
      assert RowsOf(a, k) == Tagged(ea, k);
    }
  }

  lemma MergedTagged(ea: seq<Entry>, eb: seq<Entry>, es: seq<Entry>, rA: seq<Row>, rB: seq<Row>)
    requires Merges(ea, eb, es, rA, rB) && Fits(ea) && Fits(eb) && Fits(es)
    ensures forall t :: Image(rA, Tagged(ea, t)) + Image(rB, Tagged(eb, t)) == Tagged(es, t)
  {
    assert |ea| <= 0x1_0000_0000 && |eb| <= 0x1_0000_0000 && |es| <= 0x1_0000_0000;
    hide *;
    forall t ensures Image(rA, Tagged(ea, t)) + Image(rB, Tagged(eb, t)) == Tagged(es, t) {
      MergedTag(ea, eb, es, rA, rB, t);
    }
  }

  lemma MergedTag(ea: seq<Entry>, eb: seq<Entry>, es: seq<Entry>, rA: seq<Row>, rB: seq<Row>, t: string)
    requires Merges(ea, eb, es, rA, rB) && Fits(ea) && Fits(eb) && Fits(es)
    ensures Image(rA, Tagged(ea, t)) + Image(rB, Tagged(eb, t)) == Tagged(es, t)
  {
    var p := (ev: Event) => t in ev.tags;
    TaggedIs(ea, t, p);
    TaggedIs(eb, t, p);
    TaggedIs(es, t, p);
    hide Tagged, Image, Renumbering, Moved, Is;
    ImageIs(rA, rB, ea, eb, es, Tagged(ea, t), Tagged(eb, t), p);
    SameRows(Image(rA, Tagged(ea, t)) + Image(rB, Tagged(eb, t)), Tagged(es, t), es, p);
  }

  lemma TaggedIs(es: seq<Entry>, t: string, p: Event -> bool)
    requires Fits(es) && forall ev :: p(ev) == (t in ev.tags)
    ensures Is(Tagged(es, t), es, p)
  {}

  method MergeAnnotations(a: map<Pair, Bitmap>, b: map<Pair, Bitmap>, rA: seq<Row>, rB: seq<Row>,
    ghost reprA: set<Bitmap>, ghost reprB: set<Bitmap>, ghost ea: seq<Entry>, ghost eb: seq<Entry>, ghost es: seq<Entry>)
    returns (r: map<Pair, Bitmap>, ghost repr: set<Bitmap>)
    requires Merges(ea, eb, es, rA, rB) && Fits(ea) && Fits(eb) && Fits(es)
    requires AnnotationsExact(a, reprA, ea) && AnnotationsExact(b, reprB, eb)
    ensures fresh(repr) && AnnotationsExact(r, repr, es)
  {
    SourceAnnotations(a, reprA, ea);
    SourceAnnotations(b, reprB, eb);
    MergedAnnotated(ea, eb, es, rA, rB);
    assert |rA| == |ea| && |rB| == |eb|;
    hide AnnotationsExact, Merges, Annotated, Image, Fits;
    r, repr := MoveBoth(a, b, rA, rB);
    AnnotationsAre(r, repr, ea, eb, es, rA, rB);
  }

  lemma AnnotationsAre(r: map<Pair, Bitmap>, repr: set<Bitmap>, ea: seq<Entry>, eb: seq<Entry>, es: seq<Entry>,
    rA: seq<Row>, rB: seq<Row>)
    requires Fits(ea) && Fits(eb) && Fits(es) && Owned(r, repr)
    requires forall p :: Image(rA, Annotated(ea, p)) + Image(rB, Annotated(eb, p)) == Annotated(es, p)
    requires forall p :: RowsOf(r, p) == Image(rA, Annotated(ea, p)) + Image(rB, Annotated(eb, p))
    ensures AnnotationsExact(r, repr, es)
  {}

  lemma SourceAnnotations(a: map<Pair, Bitmap>, repr: set<Bitmap>, ea: seq<Entry>)
    requires Fits(ea) && AnnotationsExact(a, repr, ea)
    ensures forall k :: k in a ==> forall x :: x in a[k].rows ==> x < |ea|
    ensures forall p :: RowsOf(a, p) == Annotated(ea, p)
  {
    forall k | k in a ensures forall x :: x in a[k].rows ==> x < |ea| {
      assert RowsOf(a, k) == Annotated(ea, k);
    }
  }

  lemma MergedAnnotated(ea: seq<Entry>, eb: seq<Entry>, es: seq<Entry>, rA: seq<Row>, rB: seq<Row>)
    requires Merges(ea, eb, es, rA, rB) && Fits(ea) && Fits(eb) && Fits(es)
    ensures forall p :: Image(rA, Annotated(ea, p)) + Image(rB, Annotated(eb, p)) == Annotated(es, p)
  {
    assert |ea| <= 0x1_0000_0000 && |eb| <= 0x1_0000_0000 && |es| <= 0x1_0000_0000;
    hide *;
    forall p ensures Image(rA, Annotated(ea, p)) + Image(rB, Annotated(eb, p)) == Annotated(es, p) {
      MergedPair(ea, eb, es, rA, rB, p);
    }
  }

  lemma MergedPair(ea: seq<Entry>, eb: seq<Entry>, es: seq<Entry>, rA: seq<Row>, rB: seq<Row>, p: Pair)
    requires Merges(ea, eb, es, rA, rB) && Fits(ea) && Fits(eb) && Fits(es)
    ensures Image(rA, Annotated(ea, p)) + Image(rB, Annotated(eb, p)) == Annotated(es, p)
  {
    var has := (ev: Event) => HasPair(ev, p);
    hide HasPair;
    AnnotatedIs(ea, p, has);
    AnnotatedIs(eb, p, has);
    AnnotatedIs(es, p, has);
    hide Annotated, Image, Renumbering, Moved, Is;
    ImageIs(rA, rB, ea, eb, es, Annotated(ea, p), Annotated(eb, p), has);
    SameRows(Image(rA, Annotated(ea, p)) + Image(rB, Annotated(eb, p)), Annotated(es, p), es, has);
  }

  lemma AnnotatedIs(es: seq<Entry>, p: Pair, has: Event -> bool)
    requires Fits(es) && forall ev :: has(ev) == HasPair(ev, p)
    ensures Is(Annotated(es, p), es, has)
  {
    hide HasPair;
  }

  /** One value per row, carried over with the rows. */
  ghost predicate Carried(rA: seq<Row>, rB: seq<Row>, n: nat, va: map<Row, int64>, vb: map<Row, int64>, v: map<Row, int64>) {
    && Renumbering(rA, rB, n)
    && (forall r :: r in va <==> 0 <= r < |rA|) && (forall r :: r in vb <==> 0 <= r < |rB|) && (forall r :: r in v <==> 0 <= r < n)
    && (forall i :: 0 <= i < |rA| ==> v[rA[i]] == va[i])
    && (forall j :: 0 <= j < |rB| ==> v[rB[j]] == vb[j])
  }

  method MergeTimes(a: BSI, b: BSI, rA: seq<Row>, rB: seq<Row>, n: nat,
    ghost va: map<Row, int64>, ghost vb: map<Row, int64>, ghost v: map<Row, int64>) returns (r: BSI)
    requires Carried(rA, rB, n, va, vb, v) && Holding(a, va) && Holding(b, vb)
    ensures fresh(r) && Holding(r, v)
  {
    ghost var pa, pb := a.bA, b.bA;
    HeldValues(a, va);
    HeldValues(b, vb);
    assert Renumbering(rA, rB, n) && |rA| <= 0x1_0000_0000 && |rB| <= 0x1_0000_0000;
    assert (forall x: Row :: x in va <==> x < |rA|) && (forall x: Row :: x in vb <==> x < |rB|);
    KeysAre(v, rA, rB, n, va, vb);
    hide Holding, Carried, Renumbering, ColVal, ToI64, BSI.Valid;
    r := MergeBSI(a, b, rA, rB, n);
    CarriedValues(pa, pb, r.bA, rA, rB, n, va, vb, v);
    ValuesHeld(r, v);
  }

  lemma KeysAre(v: map<Row, int64>, rA: seq<Row>, rB: seq<Row>, n: nat, va: map<Row, int64>, vb: map<Row, int64>)
    requires Carried(rA, rB, n, va, vb, v)
    ensures n <= 0x1_0000_0000 && v.Keys == Rows(n)
  {}

  lemma ValuesHeld(b: BSI, v: map<Row, int64>)
    requires b.Valid() && b.AutoSized() && |b.bA| <= 64 && b.eBM == v.Keys
    requires forall x :: x in v ==> ToI64(ColVal(b.bA, x)) == v[x]
    ensures Holding(b, v)
  {}

  lemma HeldValues(b: BSI, v: map<Row, int64>)
    requires Holding(b, v)
    ensures b.Valid() && b.AutoSized() && |b.bA| <= 64 && (forall x :: x in b.eBM <==> x in v)
    ensures forall x :: x in v ==> ToI64(ColVal(b.bA, x)) == v[x]
  {}

  lemma CarriedValues(pa: seq<set<Row>>, pb: seq<set<Row>>, p: seq<set<Row>>, rA: seq<Row>, rB: seq<Row>, n: nat,
    va: map<Row, int64>, vb: map<Row, int64>, v: map<Row, int64>)
    requires Carried(rA, rB, n, va, vb, v)
    requires forall x :: x in va ==> ToI64(ColVal(pa, x)) == va[x]
    requires forall x :: x in vb ==> ToI64(ColVal(pb, x)) == vb[x]
    requires forall i :: 0 <= i < |rA| ==> ColVal(p, rA[i]) == ColVal(pa, i)
    requires forall j :: 0 <= j < |rB| ==> ColVal(p, rB[j]) == ColVal(pb, j)
    ensures forall x :: x in v ==> ToI64(ColVal(p, x)) == v[x]
  {
    hide ToI64, ColVal;
    forall x | x in v ensures ToI64(ColVal(p, x)) == v[x] {
      if x in rA {
        var i: Row :| i < |rA| && rA[i] == x;
        assert i in va;
      } else {
        assert x in rB;
        var j: Row :| j < |rB| && rB[j] == x;
        assert j in vb;
      }
    }
  }

  function MergeIndexes(a: map<EventKey, Row>, b: map<EventKey, Row>, rA: seq<Row>, rB: seq<Row>): map<EventKey, Row>
    requires (forall k :: k in a ==> a[k] < |rA|) && (forall k :: k in b ==> b[k] < |rB|)
  {
    map k | k in a.Keys + b.Keys :: if k in b then rB[b[k]] else rA[a[k]]
  }

  lemma MergedKeyed(ka: seq<EventKey>, ea: seq<Entry>, ia: map<EventKey, Row>, kb: seq<EventKey>, eb: seq<Entry>,
    ib: map<EventKey, Row>, keys: seq<EventKey>, es: seq<Entry>, rA: seq<Row>, rB: seq<Row>)
    requires Keyed(ka, ea, ia) && Keyed(kb, eb, ib) && Merges(ea, eb, es, rA, rB)
    requires |keys| == |es| && KeysOf(keys, es)
    ensures (forall k :: k in ia ==> ia[k] < |rA|) && (forall k :: k in ib ==> ib[k] < |rB|)
    ensures Keyed(keys, es, MergeIndexes(ia, ib, rA, rB))
  {
    KeysMoved(ka, ea, kb, eb, keys, es, rA, rB);
    hide Merges, MergeIndexes, EntryKey;
    IndexesMoved(ka, ia, kb, ib, keys, rA, rB);
  }

  lemma IndexesMoved(ka: seq<EventKey>, ia: map<EventKey, Row>, kb: seq<EventKey>, ib: map<EventKey, Row>, keys: seq<EventKey>,
    rA: seq<Row>, rB: seq<Row>)
    requires (forall k :: k in ia <==> k in ka) && forall k :: k in ia ==> ia[k] < |rA| == |ka| && ka[ia[k]] == k
    requires (forall k :: k in ib <==> k in kb) && forall k :: k in ib ==> ib[k] < |rB| == |kb| && kb[ib[k]] == k
    requires forall i :: 0 <= i < |rA| && i < |ka| ==> rA[i] < |keys| && keys[rA[i]] == ka[i]
    requires forall j :: 0 <= j < |rB| && j < |kb| ==> rB[j] < |keys| && keys[rB[j]] == kb[j]
    requires forall k :: k in keys ==> k in ka || k in kb
    ensures var m := MergeIndexes(ia, ib, rA, rB);
      (forall k :: k in m <==> k in keys) && forall k :: k in m ==> m[k] < |keys| && keys[m[k]] == k
  {
    var m := MergeIndexes(ia, ib, rA, rB);
    forall k | k in m ensures m[k] < |keys| && keys[m[k]] == k && k in keys {
      if k in ib { assert kb[ib[k]] == k; } else { assert ka[ia[k]] == k; }
    }
  }

  /** Every key is where the tables say, and there are no others. */
  lemma KeysMoved(ka: seq<EventKey>, ea: seq<Entry>, kb: seq<EventKey>, eb: seq<Entry>, keys: seq<EventKey>, es: seq<Entry>,
    rA: seq<Row>, rB: seq<Row>)
    requires KeysOf(ka, ea) && KeysOf(kb, eb) && KeysOf(keys, es) && Merges(ea, eb, es, rA, rB)
    ensures |rA| == |ka| && |rB| == |kb| && |keys| <= 0x1_0000_0000
    ensures forall i :: 0 <= i < |rA| ==> rA[i] < |keys| && keys[rA[i]] == ka[i]
    ensures forall j :: 0 <= j < |rB| ==> rB[j] < |keys| && keys[rB[j]] == kb[j]
    ensures forall k :: k in keys ==> k in ka || k in kb
  {
    hide EntryKey;
    forall k | k in keys ensures k in ka || k in kb {
      var r: Row :| r < |keys| && keys[r] == k;
      if r in rA {
        var i :| 0 <= i < |rA| && rA[i] == r;
        assert k == ka[i];
      } else {
        var j :| 0 <= j < |rB| && rB[j] == r;
        assert k == kb[j];
      }
    }
  }

  /** `v` gives every row the value of its entry. */
  ghost predicate ValuesOf(v: map<Row, int64>, es: seq<Entry>, f: Entry -> int64) {
    (forall r :: r in v <==> 0 <= r < |es|) && (forall r :: r in v ==> v[r] == f(es[r]))
  }

  lemma MergedValues(ea: seq<Entry>, eb: seq<Entry>, es: seq<Entry>, rA: seq<Row>, rB: seq<Row>, f: Entry -> int64,
    va: map<Row, int64>, vb: map<Row, int64>, v: map<Row, int64>)
    requires Merges(ea, eb, es, rA, rB) && ValuesOf(va, ea, f) && ValuesOf(vb, eb, f) && ValuesOf(v, es, f)
    ensures Carried(rA, rB, |es|, va, vb, v)
  {}

  lemma MergedTimes(ea: seq<Entry>, eb: seq<Entry>, es: seq<Entry>, rA: seq<Row>, rB: seq<Row>)
    requires Merges(ea, eb, es, rA, rB) && Fits(ea) && Fits(eb) && Fits(es)
    ensures Carried(rA, rB, |es|, Starts(ea), Starts(eb), Starts(es))
    ensures Carried(rA, rB, |es|, Ends(ea), Ends(eb), Ends(es))
  {
    hide *;
    StartsAre(ea); StartsAre(eb); StartsAre(es);
    MergedValues(ea, eb, es, rA, rB, StartOf, Starts(ea), Starts(eb), Starts(es));
    EndsAre(ea); EndsAre(eb); EndsAre(es);
    MergedValues(ea, eb, es, rA, rB, EndOf, Ends(ea), Ends(eb), Ends(es));
  }

  function StartOf(e: Entry): int64 {
    Unix(e.event.startTime)
  }

  function EndOf(e: Entry): int64 {
    Unix(e.event.endTime)
  }

  lemma StartsAre(es: seq<Entry>)
    requires Fits(es)
    ensures |es| <= 0x1_0000_0000 && ValuesOf(Starts(es), es, StartOf)
  {}

  lemma EndsAre(es: seq<Entry>)
    requires Fits(es)
    ensures |es| <= 0x1_0000_0000 && ValuesOf(Ends(es), es, EndOf)
  {}

  /** A missing index merges to the other one; otherwise the result is new and holds both contents. */
  method MergeTwoIndices(a: RoaringIndex?, b: RoaringIndex?)
    returns (ri: RoaringIndex?, ghost rA: seq<Row>, ghost rB: seq<Row>)
    requires a != null ==> a.Valid()
    requires b != null ==> b.Valid()
    requires a != null && b != null ==> |a.entries| + |b.entries| <= 0x1_0000_0000
    ensures a == null ==> ri == b
    ensures a != null && b == null ==> ri == a
    ensures a != null && b != null ==>
              && ri != null && ri.Valid()
              && fresh(ri) && fresh(ri.all) && fresh(ri.startTime) && fresh(ri.endTime) && fresh(ri.tagRepr) && fresh(ri.annotationRepr)
              && ri.keys == Merged(a.keys, b.keys)
              && Merges(a.entries, b.entries, ri.entries, rA, rB)
  {
    rA, rB := [], [];
    if a == null {
      return b, rA, rB;
    }
    if b == null {
      return a, rA, rB;
    }
    ri, rA, rB := MergeBoth(a, b);
  }

  method MergeBoth(a: RoaringIndex, b: RoaringIndex)
    returns (ri: RoaringIndex, ghost rA: seq<Row>, ghost rB: seq<Row>)
    requires a.Valid() && b.Valid() && |a.entries| + |b.entries| <= 0x1_0000_0000
    ensures fresh(ri) && fresh(ri.all) && fresh(ri.startTime) && fresh(ri.endTime) && fresh(ri.tagRepr) && fresh(ri.annotationRepr)
    ensures ri.Valid()
    ensures ri.keys == Merged(a.keys, b.keys) && Merges(a.entries, b.entries, ri.entries, rA, rB)
  {
    SourceKeys(a);
    SourceKeys(b);
    hide *;
    var keys, rowsA, rowsB;
    ghost var es;
    keys, rowsA, rowsB, es := Interleave(a.keys, b.keys, a.entries, b.entries);
    Interleaved(a.keys, b.keys, a.entries, b.entries, keys, es, rowsA, rowsB);
    ri := Assemble(a, b, keys, rowsA, rowsB, es);
    rA, rB := rowsA, rowsB;
  }

  lemma SourceKeys(a: RoaringIndex)
    requires a.Valid()
    ensures |a.keys| == |a.entries| && KeysOf(a.keys, a.entries)
  {}

  lemma Interleaved(a: seq<EventKey>, b: seq<EventKey>, ea: seq<Entry>, eb: seq<Entry>, keys: seq<EventKey>, es: seq<Entry>,
    rA: seq<Row>, rB: seq<Row>)
    requires |a| == |ea| && |b| == |eb| && Progress(a, b, ea, eb, |a|, |b|, keys, es, rA, rB)
    ensures Merges(ea, eb, es, rA, rB) && keys == Merged(a, b)
    ensures Fits(es) && |keys| == |es| && KeysOf(keys, es)
  {
    assert ea[..|a|] == ea && eb[..|b|] == eb;
    assert a[|a|..] == [] && b[|b|..] == [];
    assert keys + [] == keys;
  }

  lemma SourceParts(a: RoaringIndex)
    requires a.Valid()
    ensures Fits(a.entries) && Keyed(a.keys, a.entries, a.indexes)
    ensures Holding(a.startTime, Starts(a.entries)) && Holding(a.endTime, Ends(a.entries))
    ensures TagsExact(a.tags, a.tagRepr, a.entries) && AnnotationsExact(a.annotations, a.annotationRepr, a.entries)
  {}

  method MergePostings(a: RoaringIndex, b: RoaringIndex, rA: seq<Row>, rB: seq<Row>, ghost es: seq<Entry>)
    returns (tags: map<string, Bitmap>, annotations: map<Pair, Bitmap>, ghost tagRepr: set<Bitmap>, ghost annotationRepr: set<Bitmap>)
    requires a.Valid() && b.Valid() && Fits(es) && Merges(a.entries, b.entries, es, rA, rB)
    ensures fresh(tagRepr) && fresh(annotationRepr) && tagRepr !! annotationRepr
    ensures TagsExact(tags, tagRepr, es) && AnnotationsExact(annotations, annotationRepr, es)
  {
    SourceParts(a);
    SourceParts(b);
    hide *;
    tags, tagRepr := MergeTags(a.tags, b.tags, rA, rB, a.tagRepr, b.tagRepr, a.entries, b.entries, es);
    annotations, annotationRepr := MergeAnnotations(a.annotations, b.annotations, rA, rB,
      a.annotationRepr, b.annotationRepr, a.entries, b.entries, es);
  }

  method MergeColumns(a: RoaringIndex, b: RoaringIndex, rA: seq<Row>, rB: seq<Row>, n: nat, ghost es: seq<Entry>)
    returns (startTime: BSI, endTime: BSI)
    requires a.Valid() && b.Valid() && Fits(es) && n == |es| && Merges(a.entries, b.entries, es, rA, rB)
    ensures fresh(startTime) && fresh(endTime) && startTime != endTime
    ensures Holding(startTime, Starts(es)) && Holding(endTime, Ends(es))
  {
    SourceParts(a);
    SourceParts(b);
    MergedTimes(a.entries, b.entries, es, rA, rB);
    hide *;
    startTime := MergeTimes(a.startTime, b.startTime, rA, rB, n, Starts(a.entries), Starts(b.entries), Starts(es));
    endTime := MergeTimes(a.endTime, b.endTime, rA, rB, n, Ends(a.entries), Ends(b.entries), Ends(es));
  }

  /** The new index, once its keys and the renumbering are known. */
  method Assemble(a: RoaringIndex, b: RoaringIndex, keys: seq<EventKey>, rA: seq<Row>, rB: seq<Row>, ghost es: seq<Entry>)
    returns (ri: RoaringIndex)
    requires a.Valid() && b.Valid() && Merges(a.entries, b.entries, es, rA, rB)
    requires Fits(es) && |keys| == |es| && KeysOf(keys, es)
    ensures fresh(ri) && fresh(ri.all) && fresh(ri.startTime) && fresh(ri.endTime) && fresh(ri.tagRepr) && fresh(ri.annotationRepr)
    ensures ri.Valid() && ri.keys == keys && ri.entries == es
  {
    SourceParts(a);
    SourceParts(b);
    MergedKeyed(a.keys, a.entries, a.indexes, b.keys, b.entries, b.indexes, keys, es, rA, rB);
    hide *;
    var all := new Bitmap(Rows(|keys|));
    var indexes := MergeIndexes(a.indexes, b.indexes, rA, rB);
    var tags, annotations;
    ghost var tagRepr, annotationRepr;
    tags, annotations, tagRepr, annotationRepr := MergePostings(a, b, rA, rB, es);
    var startTime, endTime := MergeColumns(a, b, rA, rB, |keys|, es);
    ri := new RoaringIndex.From(all, startTime, endTime, tags, annotations, keys, indexes, es, tagRepr, annotationRepr);
  }

  // What merging means for queries.

  /** Querying a merged index gives the renumbered answers of its sources, for every filter. */
  lemma QueryMerged(ea: seq<Entry>, eb: seq<Entry>, es: seq<Entry>, rA: seq<Row>, rB: seq<Row>,
    startTime: Instant, endTime: Instant, f: Filter)
    requires Merges(ea, eb, es, rA, rB) && Fits(ea) && Fits(eb) && Fits(es)
    ensures QueryRows(es, startTime, endTime, f)
         == Image(rA, QueryRows(ea, startTime, endTime, f)) + Image(rB, QueryRows(eb, startTime, endTime, f))
  {
    var qa, qb, q := QueryRows(ea, startTime, endTime, f), QueryRows(eb, startTime, endTime, f), QueryRows(es, startTime, endTime, f);
    hide QueryRows, Image, Wanted, Is;
    QueryIs(ea, startTime, endTime, f);
    QueryIs(eb, startTime, endTime, f);
    QueryIs(es, startTime, endTime, f);
    ImageIs(rA, rB, ea, eb, es, qa, qb, Wanted(startTime, endTime, f));
    SameRows(q, Image(rA, qa) + Image(rB, qb), es, Wanted(startTime, endTime, f));
  }

  lemma SameRows(a: set<Row>, b: set<Row>, es: seq<Entry>, p: Event -> bool)
    requires Is(a, es, p) && Is(b, es, p)
    ensures a == b
  {}

  ghost function Wanted(startTime: Instant, endTime: Instant, f: Filter): Event -> bool {
    (ev: Event) => Unix(ev.startTime) <= Unix(endTime) && Unix(ev.endTime) >= Unix(startTime) && Sat(f, ev)
  }

  lemma QueryIs(es: seq<Entry>, startTime: Instant, endTime: Instant, f: Filter)
    requires Fits(es)
    ensures Is(QueryRows(es, startTime, endTime, f), es, Wanted(startTime, endTime, f))
  {}
}
