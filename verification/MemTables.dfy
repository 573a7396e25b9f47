/** The memtable and its snapshot iterator. */
module MemTables {
  import opened Words
  import opened Wrappers
  import opened Keys
  import opened Filtering
  import opened Matching

  datatype Node = Node(key: EventKey, item: MemTableItem)

  function KeysOf(items: seq<Node>): (ks: seq<EventKey>)
    ensures |ks| == |items| && forall i :: 0 <= i < |items| ==> ks[i] == items[i].key
  {
    seq(|items|, i requires 0 <= i < |items| => items[i].key)
  }

  /** The position of the first node that does not come before `key`: what the skiplist's `Find` looks for. */
  function Find(items: seq<Node>, key: EventKey): (p: nat)
    ensures p <= |items|
    ensures forall i :: 0 <= i < p ==> CompareEventKeyTimestamp(items[i].key, key) < 0
    ensures p < |items| ==> CompareEventKeyTimestamp(items[p].key, key) >= 0
  {
    if items == [] || CompareEventKeyTimestamp(items[0].key, key) >= 0 then 0 else 1 + Find(items[1..], key)
  }

  /** The skiplist's `Set`: an equal key keeps its node and takes the new item. */
  function SetItem(items: seq<Node>, key: EventKey, item: MemTableItem): seq<Node> {
    var p := Find(items, key);
    if p < |items| && CompareEventKeyTimestamp(items[p].key, key) == 0 then
      items[p := Node(items[p].key, item)]
    else
      items[..p] + [Node(key, item)] + items[p..]
  }

  ghost predicate SortedItems(items: seq<Node>) {
    Sorted(KeysOf(items))
  }

  /** The key comes strictly before everything after its place. */
  lemma AfterPlace(ks: seq<EventKey>, p: nat, key: EventKey, j: nat)
    requires Sorted(ks) && p < j < |ks| && CompareEventKeyTimestamp(ks[p], key) >= 0
    ensures CompareEventKeyTimestamp(key, ks[j]) < 0
  {
    hide CompareEventKeyTimestamp;
    TimestampOrder(ks[p], key);
    TimestampTransitive(key, ks[p], ks[j]);
  }

  lemma InsertSorted(ks: seq<EventKey>, p: nat, key: EventKey)
    requires Sorted(ks) && p <= |ks|
    requires forall i :: 0 <= i < p ==> CompareEventKeyTimestamp(ks[i], key) < 0
    requires p < |ks| ==> CompareEventKeyTimestamp(ks[p], key) > 0
    ensures Sorted(ks[..p] + [key] + ks[p..])
  {
    hide CompareEventKeyTimestamp;
    forall j | p <= j < |ks| ensures CompareEventKeyTimestamp(key, ks[j]) < 0 {
      if j == p { TimestampOrder(ks[p], key); } else { AfterPlace(ks, p, key, j); }
    }
  }

  /** Setting keeps the list sorted. */
  lemma SetItemSorted(items: seq<Node>, key: EventKey, item: MemTableItem)
    requires SortedItems(items)
    ensures SortedItems(SetItem(items, key, item))
  {
    hide CompareEventKeyTimestamp, Sorted;
    var p, ks, rs := Find(items, key), KeysOf(items), KeysOf(SetItem(items, key, item));
    if |rs| == |ks| {
      assert rs == ks;
    } else {
      InsertSorted(ks, p, key);
      assert rs == ks[..p] + [key] + ks[p..];
    }
  }

  /** Setting replaces the item of an equal version, or adds the version, and touches nothing else. */
  lemma SetItemContents(items: seq<Node>, key: EventKey, item: MemTableItem, n: Node)
    requires SortedItems(items)
    ensures n in SetItem(items, key, item) <==>
              (n in items && CompareEventKeyTimestamp(n.key, key) != 0)
              || (n.item == item && if exists m :: m in items && CompareEventKeyTimestamp(m.key, key) == 0
                                    then CompareEventKeyTimestamp(n.key, key) == 0 && exists m :: m in items && m.key == n.key
                                    else n.key == key)
  {
    hide CompareEventKeyTimestamp;
    var p, ks, r := Find(items, key), KeysOf(items), SetItem(items, key, item);
    forall i | 0 <= i < |items| && i != p ensures CompareEventKeyTimestamp(items[i].key, key) != 0 {
      if i > p {
        AfterPlace(ks, p, key, i);
        TimestampOrder(key, ks[i]);
      }
    }
    if p < |items| && CompareEventKeyTimestamp(items[p].key, key) == 0 {
      assert items[p] in items && r[p] in r;
      if n in r { var i :| 0 <= i < |r| && r[i] == n; if i != p { assert items[i] == n; } }
      if n in items { var i :| 0 <= i < |items| && items[i] == n; if i != p { assert r[i] == n; } }
    } else {
      TimestampOrder(key, key);
      assert r == items[..p] + [Node(key, item)] + items[p..];
      forall m | m in items ensures CompareEventKeyTimestamp(m.key, key) != 0 {
        var i :| 0 <= i < |items| && items[i] == m;
      }
      assert items == items[..p] + items[p..];
    }
  }

  class MemTable {
    var items: seq<Node>

    ghost predicate Valid()
      reads this
    {
      SortedItems(items)
    }

    constructor ()
      ensures Valid() && items == []
    {
      items := [];
    }

    method PutItem(key: EventKey, mti: MemTableItem)
      requires Valid()
      modifies this
      ensures Valid() && items == SetItem(old(items), key, mti)
    {
      SetItemSorted(items, key, mti);
      items := SetItem(items, key, mti);
    }

    method Size() returns (n: nat)
      ensures n == |items|
    {
      n := |items|;
    }
  }

  /** The row shows at snapshot `ts`: it is not too new, its predecessor in the list is not a visible
      version of the same event, and it matches. */
  predicate Visible(items: seq<Node>, f: Filter, ts: uint64, i: nat)
    requires i < |items|
  {
    && items[i].key.timestamp <= ts
    && !(i > 0 && items[i].key.id == items[i - 1].key.id && items[i - 1].key.timestamp <= ts)
    && MatchMemTableItem(f, items[i].item) == Ok(true)
  }

  /** The rows from `i` on that show, in list order. */
  function VisibleRows(items: seq<Node>, f: Filter, ts: uint64, i: nat): seq<nat>
    decreases |items| - i
  {
    if i >= |items| then []
    else if Visible(items, f, ts, i) then [i] + VisibleRows(items, f, ts, i + 1)
    else VisibleRows(items, f, ts, i + 1)
  }

  lemma {:induction false} VisibleRowsMember(items: seq<Node>, f: Filter, ts: uint64, i: nat, r: nat)
    ensures r in VisibleRows(items, f, ts, i) <==> i <= r < |items| && Visible(items, f, ts, r)
    decreases |items| - i
  {
    if i < |items| { VisibleRowsMember(items, f, ts, i + 1, r); }
  }

  lemma {:induction false} VisibleRowsOrdered(items: seq<Node>, f: Filter, ts: uint64, i: nat, a: nat, b: nat)
    requires a < b < |VisibleRows(items, f, ts, i)|
    ensures VisibleRows(items, f, ts, i)[a] < VisibleRows(items, f, ts, i)[b]
    decreases |items| - i
  {
    if Visible(items, f, ts, i) {
      var rest := VisibleRows(items, f, ts, i + 1);
      if a == 0 {
        assert rest[b - 1] in rest;
        VisibleRowsMember(items, f, ts, i + 1, rest[b - 1]);
      } else {
        VisibleRowsOrdered(items, f, ts, i + 1, a - 1, b - 1);
      }
    } else {
      VisibleRowsOrdered(items, f, ts, i + 1, a, b);
    }
  }

  /** `i` is the newest version of its event that is not newer than `ts`. */
  ghost predicate Newest(keys: seq<EventKey>, ts: uint64, i: nat)
    requires i < |keys|
  {
    && keys[i].timestamp <= ts
    && forall j :: 0 <= j < |keys| && keys[j].id == keys[i].id && keys[j].timestamp <= ts ==> keys[j].timestamp <= keys[i].timestamp
  }

  /** Looking at the previous element only is enough: with one start time per id a row shows exactly
      when it is its event's newest visible version and matches. */
  lemma VisibleIsNewest(items: seq<Node>, f: Filter, ts: uint64, i: nat)
    requires SortedItems(items) && OneStart(KeysOf(items)) && i < |items|
    ensures Visible(items, f, ts, i) <==>
              Newest(KeysOf(items), ts, i) && MatchMemTableItem(f, items[i].item) == Ok(true)
  {
    var ks := KeysOf(items);
    if ks[i].timestamp <= ts {
      if i > 0 && ks[i].id == ks[i - 1].id && ks[i - 1].timestamp <= ts {
        VersionsContiguous(ks, i - 1, i, i);
        assert !Newest(ks, ts, i);
      } else {
        forall j | 0 <= j < |ks| && ks[j].id == ks[i].id && ks[j].timestamp <= ts ensures ks[j].timestamp <= ks[i].timestamp {
          if j < i {
            VersionsContiguous(ks, j, i - 1, i);
          } else {
            VersionsContiguous(ks, i, j, j);
          }
        }
      }
    }
  }

  // Items that are put while an iterator is at work.

  /** In other words: a row shows exactly when it matches and is the newest of the versions of its id that the snapshot
      includes. */
  lemma ShowsWhen(items: seq<Node>, f: Filter, ts: uint64, i: nat)
    requires SortedItems(items) && OneStart(KeysOf(items)) && i < |items|
    ensures Visible(items, f, ts, i)
            <==> && MatchMemTableItem(f, items[i].item) == Ok(true) && items[i].key.timestamp <= ts
                 && forall j :: 0 <= j < |items| && items[j].key.id == items[i].key.id && items[j].key.timestamp <= ts ==>
                                  items[j].key.timestamp <= items[i].key.timestamp
  {
    VisibleIsNewest(items, f, ts, i);
    hide Visible, SortedItems, OneStart, MatchMemTableItem;
    var ks := KeysOf(items);
    forall j | 0 <= j < |items| ensures ks[j] == items[j].key {}
  }

  /** Where the node at `i` is after setting `key`. */
  function Shift(items: seq<Node>, key: EventKey, i: nat): nat {
    var p := Find(items, key);
    if i < p || (p < |items| && CompareEventKeyTimestamp(items[p].key, key) == 0) then i else i + 1
  }

  lemma ShiftedNode(items: seq<Node>, key: EventKey, item: MemTableItem, i: nat)
    requires i < |items|
    ensures var r, k := SetItem(items, key, item), Shift(items, key, i);
      k < |r| && r[k].key == items[i].key && (CompareEventKeyTimestamp(items[i].key, key) != 0 ==> r[k] == items[i])
  {}

  lemma InsertedNode(items: seq<Node>, key: EventKey, item: MemTableItem)
    requires Shift(items, key, Find(items, key)) == Find(items, key) + 1
    ensures var r, p := SetItem(items, key, item), Find(items, key); p < |r| && r[p].key == key
  {}

  /** What is put with a timestamp beyond the snapshot does not show, and hides no other row. */
  lemma NewerUnseen(items: seq<Node>, key: EventKey, item: MemTableItem, f: Filter, ts: uint64, i: nat)
    requires SortedItems(items) && OneStart(KeysOf(items)) && key.timestamp > ts && i < |items|
    ensures var r, k := SetItem(items, key, item), Shift(items, key, i);
      k < |r| && (Visible(r, f, ts, k) <==> Visible(items, f, ts, i))
  {
    hide MatchMemTableItem, SetItem, CompareEventKeyTimestamp, Sorted, OneStart;
    var r, p := SetItem(items, key, item), Find(items, key);
    ShiftedNode(items, key, item, i);
    TimestampOrder(items[i].key, key);
    if i == p && Shift(items, key, i) == i + 1 { InsertedNode(items, key, item); }
    if i > 0 {
      ShiftedNode(items, key, item, i - 1);
      if i == p && Shift(items, key, i) == i + 1 && items[i - 1].key.id == items[i].key.id {
        PutBetween(KeysOf(items), i, key);
      }
    }
  }

  /** A key between two versions of one event is a version of it, and not newer than the first. */
  lemma PutBetween(ks: seq<EventKey>, i: nat, key: EventKey)
    requires Sorted(ks) && OneStart(ks) && 0 < i < |ks| && ks[i - 1].id == ks[i].id
    requires CompareEventKeyTimestamp(ks[i - 1], key) < 0 && CompareEventKeyTimestamp(key, ks[i]) <= 0
    ensures key.id == ks[i].id && key.timestamp < ks[i - 1].timestamp
  {
    TimestampOrder(ks[i - 1], key);
    TimestampOrder(key, ks[i]);
    KeyOrder(ks[i - 1], key);
    KeyOrder(key, ks[i]);
    KeyOrder(ks[i - 1], ks[i]);
    if CompareEventKey(ks[i - 1], key) > 0 && CompareEventKey(key, ks[i]) >= 0 { KeyTransitive(ks[i - 1], key, ks[i]); }
  }

  /** The rows of one list and the rows of another hold the same nodes. */
  ghost predicate SameNodes(items: seq<Node>, rows: seq<nat>, others: seq<Node>, moved: seq<nat>) {
    |moved| == |rows| && forall j :: 0 <= j < |rows| ==> rows[j] < |items| && moved[j] < |others| && others[moved[j]] == items[rows[j]]
  }

  /** So putting versions newer than a snapshot leaves what remains to be shown at it as it was: the same
      nodes, wherever they are now. */
  lemma {:induction false} NewerLeavesRest(items: seq<Node>, key: EventKey, item: MemTableItem, f: Filter, ts: uint64, i: nat)
    requires SortedItems(items) && OneStart(KeysOf(items)) && key.timestamp > ts && i <= |items|
    ensures var r := SetItem(items, key, item);
      SameNodes(items, VisibleRows(items, f, ts, i), r, VisibleRows(r, f, ts, Shift(items, key, i)))
    decreases |items| - i
  {
    hide SetItem, Shift, Sorted, OneStart, Visible;
    var r, k := SetItem(items, key, item), Shift(items, key, i);
    ShiftedLength(items, key, item);
    if i < |items| {
      NewerUnseen(items, key, item, f, ts, i);
      NewerLeavesRest(items, key, item, f, ts, i + 1);
      ShiftedNode(items, key, item, i);
      NextRows(items, key, item, f, ts, i);
      if Visible(items, f, ts, i) { VisibleDiffers(items, key, f, ts, i); }
      var rows, moved := VisibleRows(items, f, ts, i + 1), VisibleRows(r, f, ts, k + 1);
      assert VisibleRows(items, f, ts, i) == if Visible(items, f, ts, i) then [i] + rows else rows;
      assert VisibleRows(r, f, ts, k) == if Visible(items, f, ts, i) then [k] + moved else moved;
      hide *;
      if Visible(items, f, ts, i) { OneMoreNode(items, i, rows, r, k, moved); }
    }
  }

  lemma VisibleDiffers(items: seq<Node>, key: EventKey, f: Filter, ts: uint64, i: nat)
    requires i < |items| && Visible(items, f, ts, i) && key.timestamp > ts
    ensures CompareEventKeyTimestamp(items[i].key, key) != 0
  {
    TimestampOrder(items[i].key, key);
  }

  lemma OneMoreNode(items: seq<Node>, i: nat, rows: seq<nat>, others: seq<Node>, k: nat, moved: seq<nat>)
    requires SameNodes(items, rows, others, moved) && i < |items| && k < |others| && others[k] == items[i]
    ensures SameNodes(items, [i] + rows, others, [k] + moved)
  {}

  /** An inserted row is passed over. */
  lemma NextRows(items: seq<Node>, key: EventKey, item: MemTableItem, f: Filter, ts: uint64, i: nat)
    requires key.timestamp > ts && i < |items|
    ensures var r := SetItem(items, key, item);
      VisibleRows(r, f, ts, Shift(items, key, i) + 1) == VisibleRows(r, f, ts, Shift(items, key, i + 1))
  {
    hide MatchMemTableItem, CompareEventKeyTimestamp;
    var r, p := SetItem(items, key, item), Find(items, key);
    if Shift(items, key, i) + 1 != Shift(items, key, i + 1) {
      assert i + 1 == p && r[p].key == key && !Visible(r, f, ts, p);
    }
  }

  lemma ShiftedLength(items: seq<Node>, key: EventKey, item: MemTableItem)
    ensures |SetItem(items, key, item)| == Shift(items, key, |items|)
  {}

  class MemTableIterator {
    const mt: MemTable
    const ts: uint64
    const f: Filter
    var cur: Option<nat>
    var next: Option<nat>
    var end: bool

    ghost predicate Invariant()
      reads this, mt
    {
      && mt.Valid()
      && (next.Some? ==> next.value < |mt.items|)
      && (cur.Some? ==> cur.value < |mt.items| && Visible(mt.items, f, ts, cur.value))
    }

    /** The list position from which the search goes on. */
    ghost function Position(): nat
      reads this, mt
    {
      if end then |mt.items|
      else if next.Some? then next.value
      else if cur.None? then 0
      else |mt.items|
    }

    /** The rows still to come. */
    ghost function Remaining(): seq<nat>
      reads this, mt
    {
      VisibleRows(mt.items, f, ts, Position())
    }

    constructor (mt: MemTable, f: Filter, ts: uint64)
      requires mt.Valid()
      ensures Invariant() && this.mt == mt && this.f == f && this.ts == ts
      ensures !end && Remaining() == VisibleRows(mt.items, f, ts, 0)
    {
      this.mt, this.f, this.ts := mt, f, ts;
      cur, next, end := None, None, false;
    }

    method Valid() returns (v: bool)
      ensures v == !end
    {
      v := !end;
    }

    method Next() returns (found: bool)
      requires Invariant()
      modifies this
      ensures Invariant()
      ensures found == (old(Remaining()) != []) && (!found ==> end && Remaining() == [])
      ensures found ==> cur == Some(old(Remaining())[0]) && Remaining() == old(Remaining())[1..] && !end
    {
      hide MatchMemTableItem, Sorted;
      if end {
        return false;
      }
      if cur.None? && next.None? && |mt.items| > 0 {
        next := Some(0);
      }
      if next.None? {
        end := true;
        return false;
      }
      var c := next.value;
      while c < |mt.items|
        invariant c <= |mt.items| && Invariant()
        invariant VisibleRows(mt.items, f, ts, c) == old(Remaining())
      {
        var key := mt.items[c].key;
        if key.timestamp > ts {
          c := c + 1;
          continue;
        }
        if c > 0 && key.id == mt.items[c - 1].key.id && mt.items[c - 1].key.timestamp <= ts {
          c := c + 1;
          continue;
        }
        var m := MatchMemTableItem(f, mt.items[c].item);
        if m.Err? || !m.value {
          c := c + 1;
          continue;
        }
        break;
      }
      cur := if c < |mt.items| then Some(c) else None;
      if cur.None? {
        end := true;
        next := None;
      } else {
        next := if c + 1 < |mt.items| then Some(c + 1) else None;
      }
      found := cur.Some?;
    }

    method Value() returns (key: EventKey)
      requires Invariant() && cur.Some?
      ensures key == mt.items[cur.value].key && key.timestamp <= ts
    {
      key := mt.items[cur.value].key;
    }

    /** Goes on from the first element that does not come before `key`. */
    method Seek(key: EventKey)
      requires Invariant()
      modifies this
      ensures Invariant() && Remaining() == VisibleRows(mt.items, f, ts, Find(mt.items, key))
    {
      end := false;
      var found := Find(mt.items, key);
      if found == |mt.items| {
        end := true;
        return;
      }
      next := Some(found);
    }
  }
}
