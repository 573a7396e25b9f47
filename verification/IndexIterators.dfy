/** The snapshot iterator over an index, restricted to a posting. */
module IndexIterators {
  import opened Words
  import opened Wrappers
  import opened Bitmaps
  import opened Keys
  import opened Index

  /** Every listed row is a row of the index. */
  ghost predicate InRange(rows: seq<Row>, n: nat) {
    forall i :: 0 <= i < |rows| ==> 0 <= rows[i] < n
  }

  lemma AscendingInRange(s: set<Row>, n: nat)
    requires forall r :: r in s ==> r < n
    ensures InRange(Ascending(s), n)
  {}

  /** What the iterator makes of a list of rows: too new versions are passed over, and so is a row
      whose id was emitted last. */
  function Emitted(keys: seq<EventKey>, rows: seq<Row>, ts: uint64, last: Option<string>): seq<Row>
    requires InRange(rows, |keys|)
  {
    if rows == [] then []
    else
      var r, rest := rows[0], rows[1..];
      if keys[r].timestamp > ts || last == Some(keys[r].id) then Emitted(keys, rest, ts, last)
      else [r] + Emitted(keys, rest, ts, Some(keys[r].id))
  }

  /** `sort.Search` by halving: it ends between a key before `key` and one that is not. */
  method Search(keys: seq<EventKey>, key: EventKey) returns (p: nat)
    ensures p <= |keys| && (0 < p ==> CompareEventKeyTimestamp(keys[p - 1], key) < 0)
    ensures p < |keys| ==> CompareEventKeyTimestamp(keys[p], key) >= 0
    ensures Sorted(keys) ==> forall i :: 0 <= i < |keys| ==> (CompareEventKeyTimestamp(keys[i], key) >= 0 <==> i >= p)
  {
    hide CompareEventKeyTimestamp, Sorted;
    var i, j := 0, |keys|;
    while i < j
      invariant 0 <= i <= j <= |keys|
      invariant 0 < i ==> CompareEventKeyTimestamp(keys[i - 1], key) < 0
      invariant j < |keys| ==> CompareEventKeyTimestamp(keys[j], key) >= 0
    {
      var h := (i + j) / 2;
      if CompareEventKeyTimestamp(keys[h], key) >= 0 {
        j := h;
      } else {
        i := h + 1;
      }
    }
    p := i;
    if Sorted(keys) { OneBoundary(keys, key, p); }
  }

  lemma OneBoundary(keys: seq<EventKey>, key: EventKey, p: nat)
    requires Sorted(keys) && p <= |keys| && (0 < p ==> CompareEventKeyTimestamp(keys[p - 1], key) < 0)
    requires p < |keys| ==> CompareEventKeyTimestamp(keys[p], key) >= 0
    ensures forall i :: 0 <= i < |keys| ==> (CompareEventKeyTimestamp(keys[i], key) >= 0 <==> i >= p)
  {
    hide CompareEventKeyTimestamp;
    forall i | 0 <= i < |keys| ensures CompareEventKeyTimestamp(keys[i], key) >= 0 <==> i >= p {
      if p < i {
        NotBeforeUp(keys[p], keys[i], key);
      } else if i < p - 1 && CompareEventKeyTimestamp(keys[i], key) >= 0 {
        NotBeforeUp(keys[i], keys[p - 1], key);
      }
    }
  }

  lemma NotBeforeUp(a: EventKey, b: EventKey, key: EventKey)
    requires CompareEventKeyTimestamp(a, b) < 0 && CompareEventKeyTimestamp(a, key) >= 0
    ensures CompareEventKeyTimestamp(b, key) >= 0
  {
    hide CompareEventKeyTimestamp;
    TimestampOrder(a, key);
    TimestampOrder(b, key);
    TimestampTransitive(key, a, b);
  }

  class IndexIterator {
    const ri: RoaringIndex
    const posting: Bitmap
    const ts: uint64
    var it: seq<Row>
    var index: Row
    var nextIdx: Row
    var hasNext: bool
    var lastEmittedID: string
    var hasEmitted: bool
    var end: bool

    ghost predicate Invariant()
      reads this, ri, posting
    {
      && (forall r :: r in posting.rows ==> r < |ri.keys|)
      && InRange(it, |ri.keys|) && (forall r :: r in it ==> r in posting.rows)
      && (hasNext ==> nextIdx in posting.rows && ri.keys[nextIdx].timestamp <= ts)
      && (hasEmitted ==> index in posting.rows && ri.keys[index].timestamp <= ts && lastEmittedID == ri.keys[index].id)
    }

    ghost function Last(): Option<string>
      reads this
    {
      if hasEmitted then Some(lastEmittedID) else None
    }

    /** The rows still to come; the first of them has been looked up already. */
    ghost function Remaining(): seq<Row>
      requires Invariant()
      reads this, ri, posting
    {
      if end || !hasNext then [] else [nextIdx] + Emitted(ri.keys, it, ts, Some(ri.keys[nextIdx].id))
    }

    constructor (ri: RoaringIndex, posting: Bitmap, ts: uint64)
      requires forall r :: r in posting.rows ==> r < |ri.keys|
      ensures Invariant() && this.ri == ri && this.posting == posting && this.ts == ts && !end
      ensures InRange(Ascending(posting.rows), |ri.keys|) && Remaining() == Emitted(ri.keys, Ascending(posting.rows), ts, None)
      ensures Shown(ri.keys, posting.rows, ts, Remaining())
    {
      hide Shown, Ascending;
      this.ri, this.posting, this.ts := ri, posting, ts;
      it := Ascending(posting.rows);
      index, nextIdx, hasNext, lastEmittedID, hasEmitted, end := 0, 0, false, "", false, false;
      new;
      EmittedShown(ri.keys, posting.rows, ts);
      forall r ensures r in it <==> r in posting.rows { AscendingMember(posting.rows, r); }
      Advance();
    }

    method Valid() returns (v: bool)
      ensures v == !end
    {
      v := !end;
    }

    method Advance()
      requires Invariant()
      modifies this`hasNext, this`nextIdx, this`it
      ensures Invariant()
      ensures !end ==> Remaining() == old(Emitted(ri.keys, it, ts, Last()))
    {
      hasNext := false;
      while |it| > 0
        invariant Invariant() && !hasNext
        invariant Emitted(ri.keys, it, ts, Last()) == old(Emitted(ri.keys, it, ts, Last()))
      {
        var idx := it[0];
        it := it[1..];
        var key := ri.keys[idx];
        if key.timestamp > ts {
          continue;
        }
        if hasEmitted && lastEmittedID == key.id && key.timestamp <= ts {
          continue;
        }
        nextIdx := idx;
        hasNext := true;
        return;
      }
    }

    method Next() returns (found: bool)
      requires Invariant()
      modifies this
      ensures Invariant()
      ensures found == (old(Remaining()) != []) && (!found ==> end && Remaining() == [])
      ensures found ==> index == old(Remaining())[0] && Remaining() == old(Remaining())[1..] && !end && hasEmitted
    {
      if end {
        return false;
      }
      if !hasNext {
        end := true;
        return false;
      }
      index := nextIdx;
      lastEmittedID := ri.keys[index].id;
      hasEmitted := true;
      Advance();
      return true;
    }

    method Value() returns (key: EventKey)
      requires Invariant() && hasEmitted
      ensures key == ri.keys[index] && index in posting.rows && key.timestamp <= ts
    {
      key := ri.keys[index];
    }

    /** Starts again at a boundary; in sorted keys that is the first row whose key does not come before `key`. The
        rows to come rise, are visible rows of the posting from there on, and hold one of every id that has such a
        row: where versions are grouped, exactly the newest. */
    method Seek(key: EventKey) returns (ghost first: nat)
      requires Invariant()
      modifies this
      ensures Invariant() && first <= |ri.keys| && (0 < first ==> CompareEventKeyTimestamp(ri.keys[first - 1], key) < 0)
      ensures first < |ri.keys| ==> CompareEventKeyTimestamp(ri.keys[first], key) >= 0
      ensures Sorted(ri.keys) ==> forall i :: 0 <= i < |ri.keys| ==> (CompareEventKeyTimestamp(ri.keys[i], key) >= 0 <==> i >= first)
      ensures var s := set r | r in posting.rows && r >= first;
        && Shown(ri.keys, s, ts, Remaining())
        && InRange(Ascending(s), |ri.keys|) && Remaining() == Emitted(ri.keys, Ascending(s), ts, None)
    {
      hide Sorted, Ascending, Shown;
      end := false;
      hasNext := false;
      hasEmitted := false;
      var targetIdx := Search(ri.keys, key);
      first := targetIdx;
      ghost var s := set r | r in posting.rows && r >= first;
      EmittedShown(ri.keys, s, ts);
      forall r: Row ensures r in Ascending(s) <==> r in s { AscendingMember(s, r); }
      if targetIdx >= |ri.keys| {
        end := true;
        return;
      }
      it := Ascending(set r | r in posting.rows && r >= targetIdx);
      Advance();
    }
  }

  /** `rows` is what an iterator is to emit of a set of rows: they rise, are visible, and hold one of every id
      that has a visible row; where versions are grouped, the newest. */
  ghost predicate Shown(keys: seq<EventKey>, s: set<Row>, ts: uint64, rows: seq<Row>)
    requires forall r :: r in s ==> r < |keys|
  {
    && Climbing(rows)
    && (forall r :: r in rows ==> r in s && keys[r].timestamp <= ts)
    && (forall r :: r in s && keys[r].timestamp <= ts ==> HasId(keys, rows, keys[r].id))
    && (Grouped(keys) ==> forall r: Row :: r in rows <==> NewestIn(keys, s, ts, r))
  }

  ghost predicate HasId(keys: seq<EventKey>, rows: seq<Row>, id: string) {
    exists o :: o in rows && o < |keys| && keys[o].id == id
  }

  ghost predicate Climbing(rows: seq<Row>) {
    forall i, j :: 0 <= i < j < |rows| ==> rows[i] < rows[j]
  }

  /** The rows follow the row of the last emission, if there was one. */
  ghost predicate Follows(keys: seq<EventKey>, rows: seq<Row>, last: Option<string>, before: nat) {
    last.Some? ==> before < |keys| && keys[before].id == last.value && forall r :: r in rows ==> before < r
  }

  /** Row `r` is emitted: listed, visible, not shadowed by the last emission before the list, and the first
      visible row of its id. */
  ghost predicate Emits(keys: seq<EventKey>, rows: seq<Row>, ts: uint64, last: Option<string>, r: Row)
    requires InRange(rows, |keys|)
  {
    && r in rows && keys[r].timestamp <= ts && last != Some(keys[r].id)
    && forall q :: q in rows && q < r && keys[q].timestamp <= ts ==> keys[q].id != keys[r].id
  }

  /** Remembering only the last id is enough, because the versions of an event are contiguous. */
  lemma {:induction false} EmittedMember(keys: seq<EventKey>, rows: seq<Row>, ts: uint64, last: Option<string>, before: nat, r: Row)
    requires Grouped(keys) && Climbing(rows) && InRange(rows, |keys|)
    requires Follows(keys, rows, last, before)
    ensures r in Emitted(keys, rows, ts, last) <==> Emits(keys, rows, ts, last, r)
  {
    if rows != [] {
      var head, rest := rows[0], rows[1..];
      InRangeTail(rows, |keys|);
      ClimbingTail(rows);
      FollowsTail(keys, rows, last, before);
      EmitsStep(keys, rows, ts, last, before, r);
      hide Grouped, Climbing, Follows, Emits;
      var skipped := keys[head].timestamp > ts || last == Some(keys[head].id);
      EmittedMember(keys, rest, ts, if skipped then last else Some(keys[head].id), if skipped then before else head, r);
    }
  }

  lemma FollowsTail(keys: seq<EventKey>, rows: seq<Row>, last: Option<string>, before: nat)
    requires Climbing(rows) && InRange(rows, |keys|) && rows != [] && Follows(keys, rows, last, before)
    ensures rows[0] < |keys| && Follows(keys, rows[1..], last, before)
    ensures Follows(keys, rows[1..], Some(keys[rows[0]].id), rows[0])
  {
    var rest := rows[1..];
    assert rows[0] in rows;
    forall r | r in rest ensures r in rows && rows[0] < r {
      var i :| 0 <= i < |rest| && rest[i] == r;
      assert rows[i + 1] == r;
    }
  }

  lemma EmitsStep(keys: seq<EventKey>, rows: seq<Row>, ts: uint64, last: Option<string>, before: nat, r: Row)
    requires Grouped(keys) && Climbing(rows) && InRange(rows, |keys|) && rows != []
    requires Follows(keys, rows, last, before) && InRange(rows[1..], |keys|) && rows[0] < |keys|
    ensures var skipped := keys[rows[0]].timestamp > ts || last == Some(keys[rows[0]].id);
      Emits(keys, rows, ts, last, r)
      <==> (!skipped && r == rows[0]) || Emits(keys, rows[1..], ts, if skipped then last else Some(keys[rows[0]].id), r)
  {
    var head, rest := rows[0], rows[1..];
    HeadFirst(rows);
    if r in rest && last == Some(keys[r].id) {
      assert head in rows && r in rows;
      assert before < head < r;
      assert keys[before].id == keys[r].id;
      assert keys[head].id == keys[r].id;
    }
  }

  /** The first row, and those after it. */
  lemma HeadFirst(rows: seq<Row>)
    requires Climbing(rows) && rows != []
    ensures forall r :: r in rows <==> r == rows[0] || r in rows[1..]
    ensures forall r :: r in rows[1..] ==> rows[0] < r
  {
    forall r | r in rows[1..] ensures rows[0] < r {
      var i :| 0 <= i < |rows[1..]| && rows[1..][i] == r;
      assert rows[i + 1] == r;
    }
    assert rows == [rows[0]] + rows[1..];
  }

  /** `r` is the newest version of its event among the rows of `s`, as seen at `ts`. */
  ghost predicate NewestIn(keys: seq<EventKey>, s: set<Row>, ts: uint64, r: Row)
    requires forall x :: x in s ==> x < |keys|
  {
    && r in s && keys[r].timestamp <= ts
    && forall q :: q in s && keys[q].id == keys[r].id && keys[q].timestamp <= ts ==> keys[q].timestamp <= keys[r].timestamp
  }

  /** Where versions are grouped, the iterator emits exactly the newest visible version, within the posting, of
      each event. */
  lemma EmittedIsNewest(keys: seq<EventKey>, s: set<Row>, ts: uint64, r: Row)
    requires Grouped(keys) && (forall x :: x in s ==> x < |keys|)
    requires InRange(Ascending(s), |keys|)
    ensures r in Emitted(keys, Ascending(s), ts, None) <==> NewestIn(keys, s, ts, r)
  {
    var rows := Ascending(s);
    forall x: Row ensures x in rows <==> x in s { AscendingMember(s, x); }
    forall i, j | 0 <= i < j < |rows| ensures rows[i] < rows[j] { AscendingOrdered(s, i, j); }
    EmittedMember(keys, rows, ts, None, 0, r);
    EmitsNewest(keys, s, rows, ts, r);
  }

  /** The first visible row of an id is its newest, where versions are grouped. */
  lemma EmitsNewest(keys: seq<EventKey>, s: set<Row>, rows: seq<Row>, ts: uint64, r: Row)
    requires Grouped(keys) && (forall x :: x in s ==> x < |keys|)
    requires InRange(rows, |keys|) && forall x: Row :: x in rows <==> x in s
    ensures Emits(keys, rows, ts, None, r) <==> NewestIn(keys, s, ts, r)
  {
    if r in s {
      forall q | q in s && keys[q].id == keys[r].id ensures q < r <==> keys[q].timestamp > keys[r].timestamp {
        assert q in rows && r in rows;
      }
      hide Grouped, InRange;
    }
  }

  /** Whatever the order of the keys: what is emitted is listed and visible. */
  lemma {:induction false} EmittedVisible(keys: seq<EventKey>, rows: seq<Row>, ts: uint64, last: Option<string>, r: Row)
    requires InRange(rows, |keys|) && r in Emitted(keys, rows, ts, last)
    ensures r in rows && r < |keys| && keys[r].timestamp <= ts
  {
    InRangeTail(rows, |keys|);
    hide InRange;
    if r != rows[0] || !(keys[r].timestamp <= ts) {
      var skipped := keys[rows[0]].timestamp > ts || last == Some(keys[rows[0]].id);
      EmittedVisible(keys, rows[1..], ts, if skipped then last else Some(keys[rows[0]].id), r);
    }
  }

  /** And for every row that is listed and visible, a row of its id is emitted, now or last. */
  lemma {:induction false} EmittedCovers(keys: seq<EventKey>, rows: seq<Row>, ts: uint64, last: Option<string>, r: Row)
    requires InRange(rows, |keys|) && r in rows && r < |keys| && keys[r].timestamp <= ts
    ensures last == Some(keys[r].id) || exists o :: o in Emitted(keys, rows, ts, last) && o < |keys| && keys[o].id == keys[r].id
  {
    InRangeTail(rows, |keys|);
    hide InRange;
    var head, rest := rows[0], rows[1..];
    var skipped := keys[head].timestamp > ts || last == Some(keys[head].id);
    var emitted := Emitted(keys, rows, ts, last);
    if !skipped { assert head == emitted[0]; }
    if r != head {
      var last' := if skipped then last else Some(keys[head].id);
      EmittedCovers(keys, rest, ts, last', r);
      if o :| o in Emitted(keys, rest, ts, last') && o < |keys| && keys[o].id == keys[r].id { assert o in emitted; }
    }
  }

  /** Emissions keep the order of the rows. */
  lemma {:induction false} EmittedOrdered(keys: seq<EventKey>, rows: seq<Row>, ts: uint64, last: Option<string>)
    requires Climbing(rows) && InRange(rows, |keys|)
    ensures Climbing(Emitted(keys, rows, ts, last)) && forall r :: r in Emitted(keys, rows, ts, last) ==> r in rows
  {
    if rows != [] {
      hide Climbing, InRange;
      ClimbingTail(rows);
      InRangeTail(rows, |keys|);
      EmittedOrdered(keys, rows[1..], ts, last);
      var emitted := Some(keys[rows[0]].id);
      EmittedOrdered(keys, rows[1..], ts, emitted);
      ClimbingHead(rows, Emitted(keys, rows[1..], ts, emitted));
    }
  }

  /** The id of the last emission after a list of rows. */
  function LastOf(keys: seq<EventKey>, rows: seq<Row>, ts: uint64, last: Option<string>): Option<string>
    requires InRange(rows, |keys|)
    decreases rows
  {
    if rows == [] then last
    else if keys[rows[0]].timestamp > ts then LastOf(keys, rows[1..], ts, last)
    else LastOf(keys, rows[1..], ts, Some(keys[rows[0]].id))
  }

  /** For keys in any order: row by row, a row is emitted if it is visible and its id is not that of the visible row
      before it. */
  lemma {:induction false} EmittedConcat(keys: seq<EventKey>, a: seq<Row>, b: seq<Row>, ts: uint64, last: Option<string>)
    requires InRange(a, |keys|) && InRange(b, |keys|)
    ensures InRange(a + b, |keys|)
    ensures Emitted(keys, a + b, ts, last) == Emitted(keys, a, ts, last) + Emitted(keys, b, ts, LastOf(keys, a, ts, last))
  {
    Together(a, b, |keys|);
    if a == [] {
      assert a + b == b;
    } else {
      var next := if keys[a[0]].timestamp > ts then last else Some(keys[a[0]].id);
      hide Emitted;
      InRangeTail(a, |keys|);
      InRangeTail(a + b, |keys|);
      EmittedHead(keys, a, ts, last);
      EmittedHead(keys, a + b, ts, last);
      assert (a + b)[1..] == a[1..] + b;
      EmittedConcat(keys, a[1..], b, ts, next);
      var head := if keys[a[0]].timestamp > ts || last == Some(keys[a[0]].id) then [] else [a[0]];
      Associate(head, Emitted(keys, a[1..], ts, next), Emitted(keys, b, ts, LastOf(keys, a[1..], ts, next)));
    }
  }

  lemma Associate<T>(xs: seq<T>, ys: seq<T>, zs: seq<T>)
    ensures xs + (ys + zs) == (xs + ys) + zs
  {}

  lemma Together(a: seq<Row>, b: seq<Row>, n: nat)
    requires InRange(a, n) && InRange(b, n)
    ensures InRange(a + b, n)
  {}

  lemma EmittedHead(keys: seq<EventKey>, rows: seq<Row>, ts: uint64, last: Option<string>)
    requires rows != [] && InRange(rows, |keys|) && InRange(rows[1..], |keys|)
    ensures var key := keys[rows[0]];
      Emitted(keys, rows, ts, last)
      == (if key.timestamp > ts || last == Some(key.id) then [] else [rows[0]])
         + Emitted(keys, rows[1..], ts, if key.timestamp > ts then last else Some(key.id))
  {}

  lemma EmittedOne(keys: seq<EventKey>, r: Row, ts: uint64, last: Option<string>)
    requires r < |keys|
    ensures InRange([r], |keys|)
    ensures Emitted(keys, [r], ts, last) == if keys[r].timestamp <= ts && last != Some(keys[r].id) then [r] else []
    ensures LastOf(keys, [r], ts, last) == if keys[r].timestamp <= ts then Some(keys[r].id) else last
  {
    assert [r][1..] == [];
  }

  /** In terms of the rows alone, what is emitted of a posting. */
  lemma EmittedShown(keys: seq<EventKey>, s: set<Row>, ts: uint64)
    requires forall r :: r in s ==> r < |keys|
    ensures InRange(Ascending(s), |keys|) && Shown(keys, s, ts, Emitted(keys, Ascending(s), ts, None))
  {
    var rows := Ascending(s);
    AscendingInRange(s, |keys|);
    forall r: Row ensures r in rows <==> r in s { AscendingMember(s, r); }
    forall i, j | 0 <= i < j < |rows| ensures rows[i] < rows[j] { AscendingOrdered(s, i, j); }
    EmittedOrdered(keys, rows, ts, None);
    forall r | r in Emitted(keys, rows, ts, None) ensures r in s && keys[r].timestamp <= ts {
      EmittedVisible(keys, rows, ts, None, r);
    }
    forall r | r in s && keys[r].timestamp <= ts ensures HasId(keys, Emitted(keys, rows, ts, None), keys[r].id) {
      EmittedCovers(keys, rows, ts, None, r);
    }
    if Grouped(keys) {
      forall r: Row ensures r in Emitted(keys, rows, ts, None) <==> NewestIn(keys, s, ts, r) { EmittedIsNewest(keys, s, ts, r); }
    }
  }

  /** So rows are emitted in rising order, and where versions are grouped these are, of every id, the newest of the
      visible rows. */
  lemma ShownIsNewest(keys: seq<EventKey>, s: set<Row>, ts: uint64, rows: seq<Row>, r: Row)
    requires (forall x :: x in s ==> x < |keys|) && Shown(keys, s, ts, rows)
    ensures forall i, j :: 0 <= i < j < |rows| ==> rows[i] < rows[j]
    ensures Grouped(keys) ==>
              (r in rows <==> r in s && keys[r].timestamp <= ts
                              && forall q :: q in s && keys[q].id == keys[r].id && keys[q].timestamp <= ts ==>
                                               keys[q].timestamp <= keys[r].timestamp)
  {
    assert Grouped(keys) ==> (r in rows <==> NewestIn(keys, s, ts, r));
    hide Grouped, Shown;
  }

  lemma ClimbingTail(rows: seq<Row>)
    requires Climbing(rows) && rows != []
    ensures Climbing(rows[1..])
  {}

  lemma InRangeTail(rows: seq<Row>, n: nat)
    requires InRange(rows, n) && rows != []
    ensures rows[0] < n && InRange(rows[1..], n)
  {
    forall i | 0 <= i < |rows[1..]| ensures rows[1..][i] == rows[i + 1] {}
  }

  /** The first row, in front of some of the later ones. */
  lemma ClimbingHead(rows: seq<Row>, more: seq<Row>)
    requires Climbing(rows) && rows != [] && Climbing(more) && forall r :: r in more ==> r in rows[1..]
    ensures Climbing([rows[0]] + more) && forall r :: r in [rows[0]] + more ==> r in rows
  {
    forall j | 0 <= j < |more| ensures rows[0] < more[j] {
      assert more[j] in rows[1..];
      var i :| 0 <= i < |rows[1..]| && rows[1..][i] == more[j];
      assert rows[i + 1] == more[j];
    }
  }
}
