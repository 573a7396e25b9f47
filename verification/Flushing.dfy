/** Turning a memtable into an index, and when readers cannot tell the difference. */
module Flushing {
  import opened Words
  import opened Wrappers
  import opened Bitmaps
  import opened Keys
  import opened Filtering
  import opened Matching
  import opened MemTables
  import opened Index
  import opened IndexIterators
  import opened MergeIterators

  /** The row that a memtable node becomes. */
  function EntryOf(n: Node): Entry {
    Entry(EventOf(n.item), n.key.timestamp, n.key.isDeleted)
  }

  function EntriesOf(items: seq<Node>): (es: seq<Entry>)
    ensures |es| == |items| && forall i :: 0 <= i < |items| ==> es[i] == EntryOf(items[i])
  {
    seq(|items|, i requires 0 <= i < |items| => EntryOf(items[i]))
  }

  /** No node is a tombstone. */
  predicate TombstoneFree(items: seq<Node>) {
    forall i :: 0 <= i < |items| ==> items[i].item.event.Some?
  }

  method FromMemTable(mt: MemTable) returns (ri: RoaringIndex)
    requires TombstoneFree(mt.items) && |mt.items| <= 0x1_0000_0000
    ensures fresh(ri) && ri.Valid() && ri.entries == EntriesOf(mt.items)
    ensures |ri.entries| == |mt.items| && forall i :: 0 <= i < |mt.items| ==>
              ri.entries[i] == Entry(mt.items[i].item.event.value, mt.items[i].key.timestamp, mt.items[i].key.isDeleted)
  {
    hide RoaringIndex.Valid;
    ri := new RoaringIndex();
    var i := 0;
    while i < |mt.items|
      invariant 0 <= i <= |mt.items| && fresh(ri) && fresh(ri.Footprint())
      invariant ri.Valid() && ri.entries == EntriesOf(mt.items)[..i]
    {
      ValidLength(ri);
      var node := mt.items[i];
      ri.IndexEvent(node.item.event.value, node.key.timestamp, node.key.isDeleted);
      i := i + 1;
    }
  }

  lemma ValidLength(ri: RoaringIndex)
    requires ri.Valid()
    ensures |ri.keys| == |ri.entries|
  {}

  /** Memtable items as the writer puts them: filed under their own keys, in order, with sound Bloom filters. */
  ghost predicate Flushable(items: seq<Node>) {
    && TombstoneFree(items) && |items| <= 0x1_0000_0000
    && SortedItems(items) && OneStart(MemTables.KeysOf(items))
    && forall i :: 0 <= i < |items| ==> items[i].key == EntryKey(EntryOf(items[i])) && NoFalseNegatives(items[i].item)
  }

  // The writer keeps a memtable so.

  /** An item as it is written: an event under its own key, with sound Bloom filters. */
  ghost predicate Filed(key: EventKey, item: MemTableItem) {
    item.event.Some? && NoFalseNegatives(item) && key == EntryKey(Entry(item.event.value, key.timestamp, key.isDeleted))
  }

  ghost predicate OneStartOf(items: seq<Node>) {
    forall n, m :: n in items && m in items && n.key.id == m.key.id ==> n.key.startTime == m.key.startTime
  }

  lemma FlushableIs(items: seq<Node>)
    ensures Flushable(items) <==>
              |items| <= 0x1_0000_0000 && SortedItems(items) && OneStartOf(items) && forall n :: n in items ==> Filed(n.key, n.item)
  {
    var ks := MemTables.KeysOf(items);
    hide Sorted, EntryKey;
    if Flushable(items) {
      forall n | n in items ensures Filed(n.key, n.item) { var i :| 0 <= i < |items| && items[i] == n; }
      forall n, m | n in items && m in items && n.key.id == m.key.id ensures n.key.startTime == m.key.startTime {
        var i :| 0 <= i < |items| && items[i] == n;
        var j :| 0 <= j < |items| && items[j] == m;
        assert ks[i] == n.key && ks[j] == m.key;
      }
    }
    if |items| <= 0x1_0000_0000 && SortedItems(items) && OneStartOf(items) && forall n :: n in items ==> Filed(n.key, n.item) {
      forall i | 0 <= i < |items| ensures Filed(items[i].key, items[i].item) { assert items[i] in items; }
      forall i, j | 0 <= i < |ks| && 0 <= j < |ks| && ks[i].id == ks[j].id ensures ks[i].startTime == ks[j].startTime {
        assert items[i] in items && items[j] in items;
      }
    }
  }

  /** Whoever has an entry of this version in the list belongs to the same resource. */
  ghost predicate SameResource(items: seq<Node>, key: EventKey) {
    forall n :: n in items && SameVersion(n.key, key) ==>
                  n.key.resourceTypeCode == key.resourceTypeCode && n.key.resourceExternalID == key.resourceExternalID
  }

  ghost predicate StartKept(items: seq<Node>, key: EventKey) {
    forall n :: n in items && n.key.id == key.id ==> n.key.startTime == key.startTime
  }

  /** Writing an event keeps a memtable flushable exactly when it moves no start time and takes over no
      version of another resource. */
  lemma PutKeepsFlushable(items: seq<Node>, key: EventKey, item: MemTableItem)
    requires Flushable(items) && Filed(key, item) && |items| < 0x1_0000_0000
    ensures Flushable(SetItem(items, key, item)) <==> StartKept(items, key) && SameResource(items, key)
  {
    var r := SetItem(items, key, item);
    FlushableIs(items);
    FlushableIs(r);
    SetItemSorted(items, key, item);
    assert |r| <= |items| + 1;
    hide Flushable, SetItem, SortedItems, Filed, CompareEventKeyTimestamp;
    if m :| m in items && SameVersion(m.key, key) {
      SetTakesOver(items, key, item, m);
      TakeOverStart(items, key, item, m, r);
      TakeOverFiled(items, key, item, r);
    } else {
      forall n ensures n in r <==> n in items || n == Node(key, item) { SetAdds(items, key, item, n); }
      assert Node(key, item) in r;
    }
  }

  /** The nodes of `r` are those of `items`, with `item` in place of the items of this version. */
  ghost predicate TakesOver(items: seq<Node>, key: EventKey, item: MemTableItem, r: seq<Node>) {
    forall n :: n in r <==> Replaced(items, key, item, n)
  }

  ghost predicate Replaced(items: seq<Node>, key: EventKey, item: MemTableItem, n: Node) {
    if SameVersion(n.key, key) then n.item == item && KeyIn(items, n.key) else n in items
  }

  predicate SameVersion(a: EventKey, b: EventKey) {
    SameEvent(a, b) && a.timestamp == b.timestamp
  }

  ghost predicate KeyIn(items: seq<Node>, k: EventKey) {
    exists m :: m in items && m.key == k
  }

  lemma SetReplaces(items: seq<Node>, key: EventKey, item: MemTableItem, m: Node, n: Node)
    requires SortedItems(items) && m in items && SameVersion(m.key, key)
    ensures n in SetItem(items, key, item) <==> Replaced(items, key, item, n)
  {
    TimestampOrder(n.key, key);
    TimestampOrder(m.key, key);
    hide CompareEventKeyTimestamp, SetItem, SortedItems;
    SetItemContents(items, key, item, n);
  }

  lemma SetTakesOver(items: seq<Node>, key: EventKey, item: MemTableItem, m: Node)
    requires SortedItems(items) && m in items && SameVersion(m.key, key)
    ensures TakesOver(items, key, item, SetItem(items, key, item))
  {
    hide SetItem, SortedItems, SameVersion, Replaced;
    forall n ensures n in SetItem(items, key, item) <==> Replaced(items, key, item, n) {
      SetReplaces(items, key, item, m, n);
    }
  }

  lemma HasKey(items: seq<Node>, n: Node)
    requires n in items
    ensures KeyIn(items, n.key)
  {}

  lemma SetAdds(items: seq<Node>, key: EventKey, item: MemTableItem, n: Node)
    requires SortedItems(items) && forall m :: m in items ==> !SameVersion(m.key, key)
    ensures n in SetItem(items, key, item) <==> n in items || n == Node(key, item)
  {
    forall k ensures CompareEventKeyTimestamp(k, key) == 0 <==> SameVersion(k, key) { TimestampOrder(k, key); }
    SetItemContents(items, key, item, n);
  }

  lemma FiledUnder(k: EventKey, key: EventKey, item: MemTableItem)
    requires Filed(key, item) && SameVersion(k, key)
    ensures Filed(k, item) <==> k.resourceTypeCode == key.resourceTypeCode && k.resourceExternalID == key.resourceExternalID
  {}

  lemma TakeOverStart(items: seq<Node>, key: EventKey, item: MemTableItem, m: Node, r: seq<Node>)
    requires OneStartOf(items) && TakesOver(items, key, item, r) && m in items && SameVersion(m.key, key)
    ensures StartKept(items, key) && OneStartOf(r)
  {
    forall n | n in r ensures KeyIn(items, n.key) {
      assert Replaced(items, key, item, n);
      if n in items { HasKey(items, n); }
    }
    hide TakesOver;
    forall n, o | n in r && o in r && n.key.id == o.key.id ensures n.key.startTime == o.key.startTime {
      var n0 :| n0 in items && n0.key == n.key;
      var o0 :| o0 in items && o0.key == o.key;
    }
  }

  lemma TakeOverFiled(items: seq<Node>, key: EventKey, item: MemTableItem, r: seq<Node>)
    requires TakesOver(items, key, item, r) && Filed(key, item) && forall n :: n in items ==> Filed(n.key, n.item)
    ensures (forall n :: n in r ==> Filed(n.key, n.item)) <==> SameResource(items, key)
  {
    forall k | SameVersion(k, key)
      ensures Filed(k, item) <==> k.resourceTypeCode == key.resourceTypeCode && k.resourceExternalID == key.resourceExternalID
    {
      FiledUnder(k, key, item);
    }
    hide Filed;
    if forall n :: n in r ==> Filed(n.key, n.item) {
      forall n | n in items && SameVersion(n.key, key)
        ensures n.key.resourceTypeCode == key.resourceTypeCode && n.key.resourceExternalID == key.resourceExternalID
      {
        HasKey(items, n);
        assert Replaced(items, key, item, Node(n.key, item));
        assert Node(n.key, item) in r && Filed(Node(n.key, item).key, Node(n.key, item).item);
      }
    }
    if SameResource(items, key) {
      forall n | n in r ensures Filed(n.key, n.item) {
        assert Replaced(items, key, item, n);
        if SameVersion(n.key, key) { var o :| o in items && o.key == n.key; }
      }
    }
  }

  /** Writing an event that was created: its item is made and filed under its key. */
  method WriteEvent(mt: MemTable, hash: string -> set<nat>, event: Event, ts: uint64)
    requires Flushable(mt.items) && |mt.items| < 0x1_0000_0000
    modifies mt
    ensures var key := EventKey(event.typeCode, event.externalID, event.startTime, event.id, ts, false);
      && mt.Valid()
      && (exists n :: n in mt.items && SameVersion(n.key, key) && n.item.event == Some(event))
      && (Flushable(mt.items) <==> StartKept(old(mt.items), key) && SameResource(old(mt.items), key))
  {
    var key := EntryKey(Entry(event, ts, false));
    var item := NewMemTableItem(hash, Some(event), ts, false);
    PutKeepsFlushable(mt.items, key, item);
    ghost var before := mt.items;
    mt.PutItem(key, item);
    PutIsThere(before, key, item);
  }

  lemma PutIsThere(items: seq<Node>, key: EventKey, item: MemTableItem)
    ensures exists n :: n in SetItem(items, key, item) && SameVersion(n.key, key) && n.item == item
  {
    var r, p := SetItem(items, key, item), Find(items, key);
    if p < |items| { TimestampOrder(items[p].key, key); }
    assert r[p] in r && SameVersion(r[p].key, key) && r[p].item == item;
  }

  /** The rows that satisfy a filter, as the index evaluates it. */
  ghost function Posting(items: seq<Node>, f: Filter): (s: set<Row>)
    requires |items| <= 0x1_0000_0000
    ensures forall r :: r in s <==> 0 <= r < |items| && Sat(f, EventOf(items[r].item))
  {
    set r | r in Rows(|items|) && Sat(f, EventOf(items[r].item))
  }

  /** The two evaluators agree: the rows that the index finds for a filter, as `EvalFilter` promises them,
      are those whose item the memtable evaluator accepts, and it fails on none. */
  lemma EvaluatorsAgree(items: seq<Node>, f: Filter, rows: set<Row>, i: nat)
    requires ShapedFilter(f) && FirstError(f).None? && i < |items| <= 0x1_0000_0000 && NoFalseNegatives(items[i].item)
    requires Is(rows, EntriesOf(items), ev => Sat(f, ev))
    ensures MatchMemTableItem(f, items[i].item) == Ok(i in rows)
  {
    MatchIsSat(f, items[i].item);
    assert EntriesOf(items)[i].event == EventOf(items[i].item);
  }

  /** What the memtable shows at a snapshot, and what the flushed index does. */
  ghost function Before(items: seq<Node>, f: Filter, ts: uint64): seq<int> {
    VisibleRows(items, f, ts, 0)
  }

  ghost function After(items: seq<Node>, f: Filter, ts: uint64): seq<int>
    requires Flushable(items)
  {
    AscendingInRange(Posting(items, f), |items|);
    Emitted(MemTables.KeysOf(items), Ascending(Posting(items, f)), ts, None)
  }

  /** When a version of an event matches, so does every newer one. */
  ghost predicate NewerAlsoMatch(items: seq<Node>, f: Filter) {
    forall i, j | 0 <= i < j < |items| && items[i].key.id == items[j].key.id && Sat(f, EventOf(items[j].item)) ::
      Sat(f, EventOf(items[i].item))
  }

  ghost predicate Rising(xs: seq<int>) {
    forall i, j :: 0 <= i < j < |xs| ==> xs[i] < xs[j]
  }

  lemma {:induction false} SameRising(a: seq<int>, b: seq<int>)
    requires Rising(a) && Rising(b) && forall x :: x in a <==> x in b
    ensures a == b
  {
    assert (a != [] ==> a[0] in a) && (b != [] ==> b[0] in b);
    if a != [] && b != [] {
      assert a[0] in b && b[0] in a;
      var i :| 0 <= i < |b| && b[i] == a[0];
      var j :| 0 <= j < |a| && a[j] == b[0];
      assert a[0] == b[0];
      forall x ensures x in a[1..] <==> x in b[1..] {
        if x in a[1..] { var k :| 0 < k < |a| && a[k] == x; assert x in b; }
        if x in b[1..] { var k :| 0 < k < |b| && b[k] == x; assert x in a; }
      }
      SameRising(a[1..], b[1..]);
    }
  }

  lemma BeforeMember(items: seq<Node>, f: Filter, ts: uint64, r: nat)
    requires Flushable(items) && ShapedFilter(f) && FirstError(f).None?
    ensures r in Before(items, f, ts) <==>
              r < |items| && Newest(MemTables.KeysOf(items), ts, r) && Sat(f, EventOf(items[r].item))
  {
    VisibleRowsMember(items, f, ts, 0, r);
    if r < |items| {
      VisibleIsNewest(items, f, ts, r);
      MatchIsSat(f, items[r].item);
    }
  }

  lemma AfterMember(items: seq<Node>, f: Filter, ts: uint64, r: Row)
    requires Flushable(items)
    ensures (forall x :: x in Posting(items, f) ==> x < |items|)
    ensures r in After(items, f, ts) <==> NewestIn(MemTables.KeysOf(items), Posting(items, f), ts, r)
  {
    AscendingInRange(Posting(items, f), |items|);
    SortedGrouped(MemTables.KeysOf(items));
    EmittedIsNewest(MemTables.KeysOf(items), Posting(items, f), ts, r);
  }

  lemma BothRise(items: seq<Node>, f: Filter, ts: uint64)
    requires Flushable(items)
    ensures Rising(Before(items, f, ts)) && Rising(After(items, f, ts))
  {
    BeforeRises(items, f, ts);
    AscendingInRange(Posting(items, f), |items|);
    AscendingClimbs(Posting(items, f));
    hide *;
    AfterRises(items, f, ts);
  }

  lemma BeforeRises(items: seq<Node>, f: Filter, ts: uint64)
    ensures Rising(Before(items, f, ts))
  {
    var b := Before(items, f, ts);
    forall i, j | 0 <= i < j < |b| ensures b[i] < b[j] { VisibleRowsOrdered(items, f, ts, 0, i, j); }
  }

  lemma AfterRises(items: seq<Node>, f: Filter, ts: uint64)
    requires Flushable(items) && Climbing(Ascending(Posting(items, f)))
    ensures Rising(After(items, f, ts))
  {
    AscendingInRange(Posting(items, f), |items|);
    EmittedOrdered(MemTables.KeysOf(items), Ascending(Posting(items, f)), ts, None);
    hide Flushable, Emitted, Ascending, Posting;
  }

  lemma AscendingClimbs(s: set<Row>)
    ensures Climbing(Ascending(s))
  {
    forall i, j | 0 <= i < j < |s| ensures Ascending(s)[i] < Ascending(s)[j] { AscendingOrdered(s, i, j); }
  }

  /** Flushing is transparent at a snapshot if newer versions match whenever older ones do. */
  lemma TransparentAt(items: seq<Node>, f: Filter, ts: uint64)
    requires Flushable(items) && ShapedFilter(f) && FirstError(f).None? && NewerAlsoMatch(items, f)
    ensures Before(items, f, ts) == After(items, f, ts)
  {
    var ks := MemTables.KeysOf(items);
    BothRise(items, f, ts);
    forall r ensures r in Before(items, f, ts) <==> r in After(items, f, ts) {
      if 0 <= r < |items| {
        BeforeMember(items, f, ts, r);
        AfterMember(items, f, ts, r);
        if NewestIn(ks, Posting(items, f), ts, r) {
          forall j | 0 <= j < |ks| && ks[j].id == ks[r].id && ks[j].timestamp <= ts ensures ks[j].timestamp <= ks[r].timestamp {
            if r < j { VersionsContiguous(ks, r, j, j); }
          }
        }
      } else {
        BeforeOrAfterInRange(items, f, ts, r);
      }
    }
    SameRising(Before(items, f, ts), After(items, f, ts));
  }

  lemma BeforeOrAfterInRange(items: seq<Node>, f: Filter, ts: uint64, r: int)
    requires Flushable(items) && !(0 <= r < |items|)
    ensures r !in Before(items, f, ts) && r !in After(items, f, ts)
  {
    var s := Posting(items, f);
    if r in Before(items, f, ts) { VisibleRowsMember(items, f, ts, 0, r); }
    AscendingInRange(s, |items|);
    forall i, j | 0 <= i < j < |s| ensures Ascending(s)[i] < Ascending(s)[j] { AscendingOrdered(s, i, j); }
    EmittedOrdered(MemTables.KeysOf(items), Ascending(s), ts, None);
  }

  /** And the condition is exact: an older match behind a newer mismatch shows after the flush only. */
  lemma VisibleDifference(items: seq<Node>, f: Filter, i: nat, j: nat)
    requires Flushable(items) && ShapedFilter(f) && FirstError(f).None?
    requires i < j < |items| && items[i].key.id == items[j].key.id
    requires Sat(f, EventOf(items[j].item)) && !Sat(f, EventOf(items[i].item))
    ensures Before(items, f, items[i].key.timestamp) != After(items, f, items[i].key.timestamp)
  {
    var ks, ts := MemTables.KeysOf(items), items[i].key.timestamp;
    var r := FirstMatch(items, f, i, j);
    AfterMember(items, f, ts, r);
    BeforeMember(items, f, ts, r);
    assert Sorted(ks) && OneStart(ks) && ks[i].id == ks[j].id;
    hide Flushable, Sorted, OneStart, Emitted, VisibleRows;
    VersionsContiguous(ks, i, r, j);
    VersionsContiguous(ks, i, r, r);
    OlderMatchIsNewest(ks, Posting(items, f), i, r);
    assert !Newest(ks, ts, r);
  }

  lemma OlderMatchIsNewest(ks: seq<EventKey>, s: set<Row>, i: nat, r: Row)
    requires Sorted(ks) && OneStart(ks) && (forall x :: x in s ==> x < |ks|)
    requires i < r && r in s && ks[i].id == ks[r].id && forall q :: i <= q < r ==> q !in s
    ensures NewestIn(ks, s, ks[i].timestamp, r)
  {
    var ts := ks[i].timestamp;
    VersionsContiguous(ks, i, r, r);
    forall q | q in s && ks[q].id == ks[r].id && ks[q].timestamp <= ts ensures ks[q].timestamp <= ks[r].timestamp {
      hide Sorted, OneStart;
      if q < i {
        VersionsContiguous(ks, q, i, i);
      } else if q > r {
        VersionsContiguous(ks, r, q, q);
      }
    }
  }

  lemma {:induction false} FirstMatch(items: seq<Node>, f: Filter, i: nat, j: nat) returns (r: nat)
    requires i < j < |items| && Sat(f, EventOf(items[j].item)) && !Sat(f, EventOf(items[i].item))
    ensures i < r <= j && Sat(f, EventOf(items[r].item))
    ensures forall q :: i <= q < r ==> !Sat(f, EventOf(items[q].item))
    decreases j - i
  {
    if q :| i < q < j && Sat(f, EventOf(items[q].item)) {
      r := FirstMatch(items, f, i, q);
    } else {
      r := j;
    }
  }

  /** Flushing is transparent at every snapshot exactly when newer versions match whenever older ones do. */
  lemma TransparentIff(items: seq<Node>, f: Filter)
    requires Flushable(items) && ShapedFilter(f) && FirstError(f).None?
    ensures (forall ts: uint64 :: Before(items, f, ts) == After(items, f, ts)) <==> NewerAlsoMatch(items, f)
  {
    hide Flushable, Before, After, ShapedFilter, FirstError;
    if NewerAlsoMatch(items, f) {
      forall ts: uint64 ensures Before(items, f, ts) == After(items, f, ts) { TransparentAt(items, f, ts); }
    } else {
      var i, j :| 0 <= i < j < |items| && items[i].key.id == items[j].key.id
                  && Sat(f, EventOf(items[j].item)) && !Sat(f, EventOf(items[i].item));
      VisibleDifference(items, f, i, j);
    }
  }

  // Both iterators feed the merge with strictly descending keys.

  function PickKeys(keys: seq<EventKey>, rows: seq<int>): (ks: seq<EventKey>)
    requires forall i :: 0 <= i < |rows| ==> 0 <= rows[i] < |keys|
    ensures |ks| == |rows| && forall i :: 0 <= i < |rows| ==> ks[i] == keys[rows[i]]
  {
    seq(|rows|, i requires 0 <= i < |rows| => keys[rows[i]])
  }

  /** Distinct rows that are each the newest of their event, among some rows, are of distinct events. */
  lemma DistinctNewest(keys: seq<EventKey>, a: nat, b: nat)
    requires Sorted(keys) && a < b < |keys|
    requires keys[a].id == keys[b].id ==> keys[a].timestamp <= keys[b].timestamp
    ensures CompareEventKey(keys[a], keys[b]) > 0
  {
    TimestampOrder(keys[a], keys[b]);
  }

  lemma MemTableStreamDescends(items: seq<Node>, f: Filter, ts: uint64)
    requires SortedItems(items) && OneStart(MemTables.KeysOf(items))
    ensures forall i :: 0 <= i < |VisibleRows(items, f, ts, 0)| ==> 0 <= VisibleRows(items, f, ts, 0)[i] < |items|
    ensures Descending(PickKeys(MemTables.KeysOf(items), VisibleRows(items, f, ts, 0)))
  {
    var ks, rows := MemTables.KeysOf(items), VisibleRows(items, f, ts, 0);
    forall i | 0 <= i < |rows| ensures rows[i] < |items| && Newest(ks, ts, rows[i]) {
      assert rows[i] in rows;
      VisibleRowsMember(items, f, ts, 0, rows[i]);
      VisibleIsNewest(items, f, ts, rows[i]);
    }
    forall i, j | 0 <= i < j < |rows| ensures CompareEventKey(ks[rows[i]], ks[rows[j]]) > 0 {
      VisibleRowsOrdered(items, f, ts, 0, i, j);
      DistinctNewest(ks, rows[i], rows[j]);
    }
  }

  lemma IndexStreamDescends(keys: seq<EventKey>, s: set<Row>, ts: uint64)
    requires Sorted(keys) && OneStart(keys) && forall x :: x in s ==> x < |keys|
    ensures InRange(Ascending(s), |keys|) && InRange(Emitted(keys, Ascending(s), ts, None), |keys|)
    ensures Descending(PickKeys(keys, Emitted(keys, Ascending(s), ts, None)))
  {
    AscendingInRange(s, |keys|);
    SortedGrouped(keys);
    var rows := Emitted(keys, Ascending(s), ts, None);
    forall i, j | 0 <= i < j < |s| ensures Ascending(s)[i] < Ascending(s)[j] { AscendingOrdered(s, i, j); }
    EmittedOrdered(keys, Ascending(s), ts, None);
    forall i | 0 <= i < |rows| ensures rows[i] < |keys| && NewestIn(keys, s, ts, rows[i]) {
      assert rows[i] in rows;
      AscendingMember(s, rows[i]);
      EmittedIsNewest(keys, s, ts, rows[i]);
    }
    forall i, j | 0 <= i < j < |rows| ensures CompareEventKey(keys[rows[i]], keys[rows[j]]) > 0 {
      DistinctNewest(keys, rows[i], rows[j]);
    }
  }
}
