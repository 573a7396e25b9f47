/** Bit planes: column `c` holds the number whose bit `i` is set when `c` is in plane `i`. */
module Planes {
  import opened Words
  import opened Bitmaps

  /** The unsigned value that the planes hold for a column. */
  function ColVal(bA: seq<set<Row>>, c: Row): nat {
    if bA == [] then 0 else (if c in bA[0] then 1 else 0) + 2 * ColVal(bA[1..], c)
  }

  ghost predicate Within(bA: seq<set<Row>>, s: set<Row>) {
    forall i :: 0 <= i < |bA| ==> bA[i] <= s
  }

  lemma {:induction false} ColValBound(bA: seq<set<Row>>, c: Row)
    ensures ColVal(bA, c) < Pow2(|bA|)
  {
    if bA != [] { ColValBound(bA[1..], c); }
  }

  /** Bit `j` of a column's value is membership in plane `j`; there are none above the planes. */
  lemma {:induction false} ColValBit(bA: seq<set<Row>>, c: Row, j: nat)
    ensures Bit(ColVal(bA, c), j) <==> j < |bA| && c in bA[j]
  {
    if bA == [] {
      ShrZero(0, 0, j);
    } else if j > 0 {
      ColValBit(bA[1..], c, j - 1);
      ShrStep(ColVal(bA, c), j - 1);
    }
  }

  /** The planes hold exactly the low bits of any number with the same bits. */
  lemma {:induction false} ColValFromBits(bA: seq<set<Row>>, c: Row, u: nat)
    requires forall j :: 0 <= j < |bA| ==> (c in bA[j] <==> Bit(u, j))
    ensures ColVal(bA, c) == Low(u, |bA|)
  {
    if bA != [] {
      forall j | 0 <= j < |bA[1..]| ensures c in bA[1..][j] <==> Bit(u / 2, j) {
        ShrStep(u, j);
        assert bA[1..][j] == bA[j + 1];
      }
      ColValFromBits(bA[1..], c, u / 2);
      assert c in bA[0] <==> Bit(u, 0);
    }
  }

  /** Columns with the same memberships hold the same value. */
  lemma {:induction false} ColValSame(bA: seq<set<Row>>, c: Row, bB: seq<set<Row>>, d: Row)
    requires |bA| == |bB|
    requires forall j :: 0 <= j < |bA| ==> (c in bA[j] <==> d in bB[j])
    ensures ColVal(bA, c) == ColVal(bB, d)
  {
    if bA != [] { ColValSame(bA[1..], c, bB[1..], d); }
  }

  lemma {:induction false} ColValAppend(bA: seq<set<Row>>, p: set<Row>, c: Row)
    ensures ColVal(bA + [p], c) == ColVal(bA, c) + (if c in p then Pow2(|bA|) else 0)
  {
    if bA != [] {
      assert (bA + [p])[1..] == bA[1..] + [p];
      ColValAppend(bA[1..], p, c);
    }
  }

  /** Replacing plane `i` changes a column's value by the weight of that bit. */
  lemma {:induction false} ColValUpdate(bA: seq<set<Row>>, i: nat, p: set<Row>, c: Row)
    requires i < |bA|
    ensures ColVal(bA[i := p], c) + (if c in bA[i] then Pow2(i) else 0)
         == ColVal(bA, c) + (if c in p then Pow2(i) else 0)
  {
    if i > 0 {
      assert bA[i := p][1..] == bA[1..][i - 1 := p];
      ColValUpdate(bA[1..], i - 1, p, c);
    }
  }

  lemma {:induction false} ColValZero(bA: seq<set<Row>>, c: Row)
    requires forall j :: 0 <= j < |bA| ==> c !in bA[j]
    ensures ColVal(bA, c) == 0
  {
    if bA != [] { ColValZero(bA[1..], c); }
  }

  /** The planes of a column under a renumbering of the columns. */
  lemma {:induction false} ColValPadded(bA: seq<set<Row>>, c: Row, bB: seq<set<Row>>, d: Row)
    requires |bA| <= |bB|
    requires forall j :: 0 <= j < |bB| ==> (d in bB[j] <==> j < |bA| && c in bA[j])
    ensures ColVal(bB, d) == ColVal(bA, c)
  {
    if bB == [] {
    } else if bA == [] {
      ColValZero(bB, d);
    } else {
      ColValPadded(bA[1..], c, bB[1..], d);
    }
  }
}
