/** The tombstones that `UpdateEvent` and `DeleteEvent` write. */
module Updates {
  import opened Words
  import opened Keys
  import opened Filtering
  import opened Matching
  import opened MemTables
  import opened Flushing

  /** A start time as the tables keep it: `UnixMicro` rounds down to whole microseconds. */
  function WholeMicros(t: Instant): Instant {
    t / 1000 * 1000
  }

  lemma MicrosBelow(t: Instant)
    ensures WholeMicros(t) <= t < WholeMicros(t) + 1000 && exists n: int :: WholeMicros(t) == 1000 * n
  {
    var n := t / 1000;
    assert WholeMicros(t) == 1000 * n;
  }

  /** The tombstone of an event with this key, written at `ts`. */
  function Tombstone(key: EventKey, ts: uint64): EventKey {
    key.(startTime := WholeMicros(key.startTime), timestamp := ts, isDeleted := true)
  }

  /** A tombstone is of the same event exactly when the start time is in whole microseconds; otherwise it is of
      an earlier one. */
  lemma TombstoneEvent(key: EventKey, ts: uint64)
    ensures SameEvent(Tombstone(key, ts), key) <==> key.startTime % 1000 == 0
    ensures key.startTime % 1000 != 0 ==> Tombstone(key, ts).startTime < key.startTime
    ensures Tombstone(key, ts).id == key.id && Tombstone(key, ts).timestamp == ts && Tombstone(key, ts).isDeleted
  {}

  /** An update writes the new version and then the tombstone of the old one. The new version stays exactly when
      the tombstone has another start time; otherwise what is left of it is a key that is not deleted, without
      an event. */
  lemma UpdateKeepsEvent(items: seq<Node>, key: EventKey, item: MemTableItem, tomb: EventKey, none: MemTableItem)
    requires SortedItems(items) && item.event.Some? && none.event.None?
    requires !key.isDeleted && tomb.isDeleted && tomb.id == key.id && tomb.timestamp == key.timestamp
    requires forall n :: n in items ==> !SameVersion(n.key, key) && !SameVersion(n.key, tomb)
    ensures var r := SetItem(SetItem(items, key, item), tomb, none);
      && (Node(key, item) in r <==> tomb.startTime != key.startTime)
      && (Node(key, none) in r <==> tomb.startTime == key.startTime)
      && (Node(tomb, none) in r <==> tomb.startTime != key.startTime)
      && !TombstoneFree(r)
      && forall n :: n in r && (SameVersion(n.key, key) || SameVersion(n.key, tomb)) ==>
           n in {Node(key, item), Node(key, none), Node(tomb, none)}
  {
    var once := SetItem(items, key, item);
    SetItemSorted(items, key, item);
    forall n ensures n in once <==> n in items || n == Node(key, item) { SetAdds(items, key, item, n); }
    hide SetItem, SortedItems;
    if tomb.startTime == key.startTime {
      forall n ensures n in SetItem(once, tomb, none) <==> Replaced(once, tomb, none, n) {
        SetReplaces(once, tomb, none, Node(key, item), n);
      }
      HasKey(once, Node(key, item));
      HasTombstone(SetItem(once, tomb, none), Node(key, none));
    } else {
      forall n ensures n in SetItem(once, tomb, none) <==> n in once || n == Node(tomb, none) { SetAdds(once, tomb, none, n); }
      HasTombstone(SetItem(once, tomb, none), Node(tomb, none));
    }
  }

  lemma HasTombstone(items: seq<Node>, n: Node)
    requires n in items && n.item.event.None?
    ensures !TombstoneFree(items)
  {
    var i :| 0 <= i < |items| && items[i] == n;
  }

  /** So an update that keeps the start time keeps its event exactly when that is not in whole microseconds,
      and leaves a key without an event in its place when it is. */
  lemma UpdateInPlace(items: seq<Node>, key: EventKey, item: MemTableItem, none: MemTableItem)
    requires SortedItems(items) && item.event.Some? && none.event.None? && !key.isDeleted
    requires forall n :: n in items && n.key.id == key.id ==> n.key.timestamp != key.timestamp
    ensures var r := SetItem(SetItem(items, key, item), Tombstone(key, key.timestamp), none);
      && (Node(key, item) in r <==> key.startTime % 1000 != 0)
      && (Node(key, none) in r <==> key.startTime % 1000 == 0)
  {
    UpdateKeepsEvent(items, key, item, Tombstone(key, key.timestamp), none);
    TombstoneEvent(key, key.timestamp);
  }

  /** A deleted event is still shown exactly when its start time is not in whole microseconds. */
  lemma DeletedStillShown(items: seq<Node>, f: Filter, ts: uint64, i: nat, now: uint64, none: MemTableItem)
    requires SortedItems(items) && OneStart(KeysOf(items)) && i < |items| && Visible(items, f, ts, i)
    requires items[i].key.timestamp < now <= ts
    ensures var tomb := Tombstone(items[i].key, now);
      var r, k := SetItem(items, tomb, none), Shift(items, tomb, i);
      k < |r| && r[k] == items[i] && (Visible(r, f, ts, k) <==> items[i].key.startTime % 1000 != 0)
  {
    var key := items[i].key;
    var tomb := Tombstone(key, now);
    TombstoneEvent(key, now);
    TimestampOrder(key, tomb);
    ShiftedNode(items, tomb, none, i);
    if key.startTime % 1000 != 0 {
      assert Find(items, tomb) > i;
    } else {
      TombstoneHides(items, f, ts, i, tomb, none);
    }
  }

  lemma TombstoneHides(items: seq<Node>, f: Filter, ts: uint64, i: nat, tomb: EventKey, none: MemTableItem)
    requires SortedItems(items) && OneStart(KeysOf(items)) && i < |items|
    requires SameEvent(tomb, items[i].key) && items[i].key.timestamp < tomb.timestamp <= ts
    ensures var r, k := SetItem(items, tomb, none), Shift(items, tomb, i); k < |r| && !Visible(r, f, ts, k)
  {
    var r, k := SetItem(items, tomb, none), Shift(items, tomb, i);
    assert items[i].key.id == tomb.id;
    hide SetItem, Shift, OneStart, SortedItems, Visible, Find;
    ShiftedNode(items, tomb, none, i);
    SetItemSorted(items, tomb, none);
    StartIsKept(items, i, tomb);
    OneStartKept(items, tomb, none);
    var j := PutPlace(items, tomb, none);
    NotNewest(r, f, ts, k, j);
  }

  lemma PutPlace(items: seq<Node>, key: EventKey, item: MemTableItem) returns (j: nat)
    ensures j < |SetItem(items, key, item)| && SetItem(items, key, item)[j].key.id == key.id
    ensures SetItem(items, key, item)[j].key.timestamp == key.timestamp
  {
    var r := SetItem(items, key, item);
    PutIsThere(items, key, item);
    var n :| n in r && SameVersion(n.key, key) && n.item == item;
    j :| 0 <= j < |r| && r[j] == n;
  }

  lemma StartIsKept(items: seq<Node>, i: nat, key: EventKey)
    requires OneStart(KeysOf(items)) && i < |items| && SameEvent(key, items[i].key)
    ensures StartKept(items, key)
  {
    forall n | n in items && n.key.id == key.id ensures n.key.startTime == key.startTime {
      var j :| 0 <= j < |items| && items[j] == n;
      assert KeysOf(items)[j].id == KeysOf(items)[i].id;
    }
  }

  lemma NotNewest(items: seq<Node>, f: Filter, ts: uint64, i: nat, j: nat)
    requires SortedItems(items) && OneStart(KeysOf(items)) && i < |items| && j < |items|
    requires items[i].key.id == items[j].key.id && items[i].key.timestamp < items[j].key.timestamp <= ts
    ensures !Visible(items, f, ts, i)
  {
    VisibleIsNewest(items, f, ts, i);
    assert KeysOf(items)[j].id == KeysOf(items)[i].id;
  }

  /** A put under a start time that the id has keeps one start time per id. */
  lemma OneStartKept(items: seq<Node>, key: EventKey, item: MemTableItem)
    requires SortedItems(items) && OneStart(KeysOf(items)) && StartKept(items, key)
    ensures OneStart(KeysOf(SetItem(items, key, item)))
  {
    var r := SetItem(items, key, item);
    forall n | n in r ensures KeyIn(items, n.key) || SameEvent(n.key, key) { KeptOrPut(items, key, item, n); }
    hide SetItem, SortedItems;
    forall i, j | 0 <= i < |r| && 0 <= j < |r| && r[i].key.id == r[j].key.id ensures r[i].key.startTime == r[j].key.startTime {
      assert r[i] in r && r[j] in r;
      OneStartPair(items, key, r[i].key, r[j].key);
    }
  }

  lemma KeptOrPut(items: seq<Node>, key: EventKey, item: MemTableItem, n: Node)
    requires SortedItems(items) && n in SetItem(items, key, item)
    ensures KeyIn(items, n.key) || SameEvent(n.key, key)
  {
    SetItemContents(items, key, item, n);
    TimestampOrder(n.key, key);
    hide SetItem;
    if n in items { HasKey(items, n); }
  }

  lemma OneStartPair(items: seq<Node>, key: EventKey, a: EventKey, b: EventKey)
    requires OneStart(KeysOf(items)) && StartKept(items, key) && a.id == b.id
    requires (KeyIn(items, a) || SameEvent(a, key)) && (KeyIn(items, b) || SameEvent(b, key))
    ensures a.startTime == b.startTime
  {
    if KeyIn(items, a) && KeyIn(items, b) {
      var m :| m in items && m.key == a;
      var n :| n in items && n.key == b;
      var i :| 0 <= i < |items| && items[i] == m;
      var j :| 0 <= j < |items| && items[j] == n;
      assert KeysOf(items)[i].id == KeysOf(items)[j].id;
    }
  }
}
