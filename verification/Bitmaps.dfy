/** Roaring bitmaps as finite sets of row numbers, with the order in which they are iterated. */
module Bitmaps {

  /** A row or column number: the source's `uint32`. */
  type Row = r: int | 0 <= r < 0x1_0000_0000

  /** A bitmap that is shared by reference and changed in place. */
  class Bitmap {
    var rows: set<Row>

    constructor (rows: set<Row>)
      ensures this.rows == rows
    {
      this.rows := rows;
    }

    method Clone() returns (r: Bitmap)
      ensures fresh(r) && r.rows == rows
    {
      r := new Bitmap(rows);
    }

    method And(other: Bitmap)
      modifies this
      ensures rows == old(rows) * old(other.rows)
    {
      rows := rows * other.rows;
    }

    method Or(other: Bitmap)
      modifies this
      ensures rows == old(rows) + old(other.rows)
    {
      rows := rows + other.rows;
    }

    method AndNot(other: Bitmap)
      modifies this
      ensures rows == old(rows) - old(other.rows)
    {
      rows := rows - other.rows;
    }
  }

  /** The set of rows `[0, n)`. */
  function Rows(n: nat): (s: set<Row>)
    requires n <= 0x1_0000_0000
    ensures forall r :: r in s <==> 0 <= r < n
    ensures |s| == n
  {
    if n == 0 then {} else Rows(n - 1) + {n - 1}
  }

  lemma {:induction false} SubsetCard<T>(a: set<T>, b: set<T>)
    requires a <= b
    ensures |a| <= |b|
  {
    if a != {} {
      var x :| x in a;
      SubsetCard(a - {x}, b - {x});
    }
  }

  lemma CardBound(s: set<Row>, n: nat)
    requires n == 0x1_0000_0000
    ensures |s| <= n
  {
    SubsetCard(s, Rows(n));
  }

  /** The numbers of `n` goroutines that finish in any order. */
  function Workers(n: nat): (s: set<nat>)
    ensures forall i :: i in s <==> 0 <= i < n
  {
    if n == 0 then {} else Workers(n - 1) + {n - 1}
  }

  lemma {:induction false} LeastRow(s: set<Row>) returns (m: Row)
    requires s != {}
    ensures m in s && forall x :: x in s ==> m <= x
    decreases |s|
  {
    var y :| y in s;
    var rest := s - {y};
    assert forall x :: x in s ==> x == y || x in rest;
    if rest == {} {
      m := y;
    } else {
      var z := LeastRow(rest);
      m := if z < y then z else y;
    }
  }

  lemma MinExists(s: set<Row>)
    requires s != {}
    ensures exists m :: m in s && forall x :: x in s ==> m <= x
  {
    var m := LeastRow(s);
  }

  function Min(s: set<Row>): (m: Row)
    requires s != {}
    ensures m in s && forall x :: x in s ==> m <= x
  {
    MinExists(s);
    var m :| m in s && forall x :: x in s ==> m <= x;
    m
  }

  /** The rows of a bitmap in the order its iterators yield them. */
  function Ascending(s: set<Row>): (xs: seq<Row>)
    ensures |xs| == |s|
  {
    if s == {} then [] else [Min(s)] + Ascending(s - {Min(s)})
  }

  lemma {:induction false} AscendingMember(s: set<Row>, r: Row)
    ensures r in Ascending(s) <==> r in s
  {
    if s != {} { AscendingMember(s - {Min(s)}, r); }
  }

  lemma {:induction false} AscendingOrdered(s: set<Row>, i: nat, j: nat)
    requires i < j < |s|
    ensures Ascending(s)[i] < Ascending(s)[j]
  {
    var m := Min(s);
    var rest := Ascending(s - {m});
    if i == 0 {
      AscendingMember(s - {m}, rest[j - 1]);
      assert rest[j - 1] in rest;
    } else {
      AscendingOrdered(s - {m}, i - 1, j - 1);
    }
  }

  function Flatten<T>(xss: seq<seq<T>>): seq<T> {
    if xss == [] then [] else Flatten(xss[..|xss| - 1]) + xss[|xss| - 1]
  }

  lemma {:induction false} FlattenMember<T>(xss: seq<seq<T>>, i: nat, x: T)
    requires i < |xss| && x in xss[i]
    ensures x in Flatten(xss)
  {
    if i < |xss| - 1 { FlattenMember(xss[..|xss| - 1], i, x); }
  }

  lemma {:induction false} FlattenOrigin<T>(xss: seq<seq<T>>, x: T) returns (i: nat)
    requires x in Flatten(xss)
    ensures i < |xss| && x in xss[i]
  {
    var last := |xss| - 1;
    if x in xss[last] {
      i := last;
    } else {
      i := FlattenOrigin(xss[..last], x);
    }
  }

  /** Emptying batch `i` takes exactly its rows out of the concatenation. */
  lemma {:induction false} FlattenUpdate<T>(xss: seq<seq<T>>, i: nat) returns (pre: seq<T>, post: seq<T>)
    requires i < |xss|
    ensures Flatten(xss) == pre + xss[i] + post
    ensures Flatten(xss[i := []]) == pre + post
  {
    var last := |xss| - 1;
    if i == last {
      assert xss[i := []][..last] == xss[..last];
      pre, post := Flatten(xss[..last]), [];
    } else {
      pre, post := FlattenUpdate(xss[..last], i);
      assert xss[i := []][..last] == xss[..last][i := []];
      post := post + xss[last];
    }
  }

  lemma {:induction false} FlattenEmpty<T>(xss: seq<seq<T>>)
    requires forall i :: 0 <= i < |xss| ==> xss[i] == []
    ensures Flatten(xss) == []
  {
    if xss != [] { FlattenEmpty(xss[..|xss| - 1]); }
  }

  /** The batches of the workers that are still running; those of the finished ones are emptied. */
  ghost predicate Running<T>(left: seq<seq<T>>, batches: seq<seq<T>>, pending: set<nat>) {
    && |left| == |batches|
    && (forall w :: w in pending ==> 0 <= w < |batches|)
    && (forall w :: 0 <= w < |batches| ==> left[w] == if w in pending then batches[w] else [])
  }

  lemma Finish<T>(left: seq<seq<T>>, batches: seq<seq<T>>, pending: set<nat>, w: nat)
    requires Running(left, batches, pending) && w in pending
    ensures w < |batches| && left[w] == batches[w]
    ensures Running(left[w := []], batches, pending - {w})
  {}

  lemma Finished<T>(left: seq<seq<T>>, batches: seq<seq<T>>)
    requires Running(left, batches, {})
    ensures Flatten(left) == []
  {
    FlattenEmpty(left);
  }

  /** The rows `seen` are those of the finished workers. */
  ghost predicate Covered(batches: seq<seq<Row>>, pending: set<nat>, seen: set<Row>, found: set<Row>) {
    && Flatten(batches) == Ascending(found)
    && seen <= found
    && (forall w :: w in pending ==> 0 <= w < |batches|)
    && (forall w, c :: 0 <= w < |batches| && w !in pending && c in batches[w] ==> c in seen)
  }

  lemma Cover(batches: seq<seq<Row>>, pending: set<nat>, seen: set<Row>, found: set<Row>, w: nat)
    requires Covered(batches, pending, seen, found) && w in pending
    ensures (set c | c in batches[w]) <= found
    ensures Covered(batches, pending - {w}, seen + (set c | c in batches[w]), found)
  {
    forall c | c in batches[w] ensures c in found {
      FlattenMember(batches, w, c);
      AscendingMember(found, c);
    }
  }

  lemma AllCovered(batches: seq<seq<Row>>, seen: set<Row>, found: set<Row>)
    requires Covered(batches, {}, seen, found)
    ensures seen == found
  {
    forall c | c in found ensures c in seen {
      AscendingMember(found, c);
      var w := FlattenOrigin(batches, c);
    }
  }

  lemma UnionAppend(bms: seq<set<Row>>, bm: set<Row>)
    ensures UnionAll(bms + [bm]) == UnionAll(bms) + bm
  {}

  function UnionAll(bms: seq<set<Row>>): set<Row> {
    if bms == [] then {} else UnionAll(bms[..|bms| - 1]) + bms[|bms| - 1]
  }

  /** `k` batches of `x` rows each. */
  function Stretch(x: nat, k: nat): nat {
    if k == 0 then 0 else Stretch(x, k - 1) + x
  }

  lemma {:induction false} StretchMono(x: nat, j: nat, k: nat)
    requires j <= k
    ensures Stretch(x, j) <= Stretch(x, k)
    decreases k
  {
    if j < k { StretchMono(x, j, k - 1); }
  }

  lemma {:induction false} StretchIsProduct(x: nat, k: nat)
    ensures Stretch(x, k) == x * k
  {
    if k > 0 {
      StretchIsProduct(x, k - 1);
      assert x * k == x * (k - 1) + x;
    }
  }

  lemma QuotientFits(card: nat, n: nat)
    requires n > 0
    ensures (card / n) * n <= card
  {}

  /** The batches that an executor hands to its `n` workers: consecutive stretches of the found
      rows, all of the same length but the last, which takes the remainder. */
  method SplitBatches(foundSet: set<Row>, n: nat) returns (batches: seq<seq<Row>>)
    requires n > 0
    ensures |batches| == n
    ensures Flatten(batches) == Ascending(foundSet)
    ensures forall i :: 0 <= i < n - 1 ==> |batches[i]| == |foundSet| / n
  {
    var rows := Ascending(foundSet);
    var card := |foundSet|;
    var x := card / n;
    var remainder := card - x * n;
    QuotientFits(card, n);
    StretchIsProduct(x, n);
    batches := Deal(rows, x, remainder, n);
  }

  /** The dealing loop: `n - 1` batches of `x` rows and one of `x + remainder`. */
  method Deal(rows: seq<Row>, x: nat, remainder: nat, n: nat) returns (batches: seq<seq<Row>>)
    requires n > 0 && |rows| == Stretch(x, n) + remainder
    ensures |batches| == n
    ensures Flatten(batches) == rows
    ensures forall i :: 0 <= i < n - 1 ==> |batches[i]| == x
  {
    var pos: nat := 0;
    batches := [];
    var i := 0;
    while i < n
      invariant i <= n && |batches| == i
      invariant pos == if i == n then |rows| else Stretch(x, i)
      invariant pos <= |rows|
      invariant Flatten(batches) == rows[..pos]
      invariant forall k :: 0 <= k < i && k < n - 1 ==> |batches[k]| == x
    {
      var size := if i == n - 1 then x + remainder else x;
      StretchMono(x, i + 1, n);
      var batch := rows[pos..pos + size];
      AppendBatch(batches, batch);
      assert rows[..pos] + batch == rows[..pos + size];
      batches, pos, i := batches + [batch], pos + size, i + 1;
    }
    assert rows[..pos] == rows;
  }

  lemma AppendBatch<T>(xss: seq<seq<T>>, xs: seq<T>)
    ensures Flatten(xss + [xs]) == Flatten(xss) + xs
  {}
}
