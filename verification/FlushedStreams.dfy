/** What a request sees of a memtable before and after it is turned into an index. */
module FlushedStreams {
  import opened Words
  import opened Bitmaps
  import opened Keys
  import opened Filtering
  import opened Matching
  import opened Index
  import opened MemTables
  import opened Flushing
  import opened Snapshots

  /** The event is within the time window of the request, as the index compares it. */
  predicate Overlaps(ev: Event, r: Request) {
    Unix(ev.startTime) <= Unix(r.endTime) && Unix(ev.endTime) >= Unix(r.startTime)
  }

  /** Every item that satisfies the filter is within the window. */
  ghost predicate AllOverlap(items: seq<Node>, r: Request) {
    forall i :: 0 <= i < |items| && Sat(r.filter, EventOf(items[i].item)) ==> Overlaps(EventOf(items[i].item), r)
  }

  /** At snapshot `ts`, the request shows the same of the memtable and of the index made from it. */
  ghost predicate SameAt(items: seq<Node>, r: Request, ts: uint64)
    requires Flushable(items)
  {
    MemTableStream(items, r.(ts := ts)) == IndexStream(EntriesOf(items), r.(ts := ts))
  }

  lemma FlushedKeys(items: seq<Node>)
    requires Flushable(items)
    ensures EntryKeys(EntriesOf(items)) == MemTables.KeysOf(items)
  {
    forall i | 0 <= i < |items| ensures EntryKeys(EntriesOf(items))[i] == MemTables.KeysOf(items)[i] {
      assert items[i] in items;
    }
  }

  /** The query's rows are those of the filter within the window. */
  lemma FlushedQuery(items: seq<Node>, r: Request, i: Row)
    requires Flushable(items)
    ensures i in QueryRows(EntriesOf(items), r.startTime, r.endTime, r.filter)
            <==> i in Posting(items, r.filter) && Overlaps(EventOf(items[i].item), r)
  {
    if i < |items| {
      assert items[i] in items;
      assert EntriesOf(items)[i].event == EventOf(items[i].item);
    }
  }

  /** A memtable iterator does not know the window; an index iterator applies it. So flushing is transparent to
      a request, at every snapshot, exactly when newer versions match whenever older ones do and everything that
      satisfies the filter is within the window. */
  lemma SameStreamsIff(items: seq<Node>, r: Request)
    requires Flushable(items) && ShapedFilter(r.filter) && FirstError(r.filter).None?
    ensures (forall ts: uint64 :: SameAt(items, r, ts)) <==> NewerAlsoMatch(items, r.filter) && AllOverlap(items, r)
  {
    hide *;
    TransparentIff(items, r.filter);
    if forall ts: uint64 :: SameAt(items, r, ts) { SameStreamsOverlap(items, r); }
    if AllOverlap(items, r) {
      forall ts: uint64 ensures SameAt(items, r, ts) <==> Before(items, r.filter, ts) == After(items, r.filter, ts) {
        StreamsAreRows(items, r, ts);
      }
    }
  }

  /** A list of strictly sorted keys is picked by one list of rows only. */
  lemma PickedOnce(keys: seq<EventKey>, a: seq<int>, b: seq<int>)
    requires Sorted(keys) && (forall n :: 0 <= n < |a| ==> 0 <= a[n] < |keys|) && (forall n :: 0 <= n < |b| ==> 0 <= b[n] < |keys|)
    ensures PickKeys(keys, a) == PickKeys(keys, b) <==> a == b
  {
    if PickKeys(keys, a) == PickKeys(keys, b) {
      assert |PickKeys(keys, a)| == |PickKeys(keys, b)|;
      forall n | 0 <= n < |a| ensures a[n] == b[n] {
        assert PickKeys(keys, a)[n] == PickKeys(keys, b)[n];
        OneRow(keys, a[n], b[n]);
      }
    }
  }

  lemma OneRow(keys: seq<EventKey>, i: nat, j: nat)
    requires Sorted(keys) && i < |keys| && j < |keys| && keys[i] == keys[j]
    ensures i == j
  {
    TimestampOrder(keys[i], keys[i]);
  }

  /** When everything is within the window, the streams are the rows that `Flushing` compares. */
  lemma StreamsAreRows(items: seq<Node>, r: Request, ts: uint64)
    requires Flushable(items) && AllOverlap(items, r)
    ensures SameAt(items, r, ts) <==> Before(items, r.filter, ts) == After(items, r.filter, ts)
  {
    var rt := r.(ts := ts);
    FlushedKeys(items);
    forall i: Row ensures i in QueryRows(EntriesOf(items), r.startTime, r.endTime, r.filter) <==> i in Posting(items, r.filter) {
      FlushedQuery(items, r, i);
    }
    assert QueryRows(EntriesOf(items), r.startTime, r.endTime, r.filter) == Posting(items, r.filter);
    assert ShownRows(items, rt) == Before(items, r.filter, ts);
    assert EmittedRows(EntriesOf(items), rt) == After(items, r.filter, ts);
    PickedOnce(MemTables.KeysOf(items), ShownRows(items, rt), EmittedRows(EntriesOf(items), rt));
  }

  lemma SameStreamsOverlap(items: seq<Node>, r: Request)
    requires Flushable(items) && ShapedFilter(r.filter) && FirstError(r.filter).None?
    requires forall ts: uint64 :: SameAt(items, r, ts)
    ensures AllOverlap(items, r)
  {
    forall i | 0 <= i < |items| && Sat(r.filter, EventOf(items[i].item)) ensures Overlaps(EventOf(items[i].item), r) {
      ShownOverlaps(items, r, i);
    }
  }

  /** An item that satisfies the filter is shown at its own timestamp; the index shows it only within the window. */
  lemma ShownOverlaps(items: seq<Node>, r: Request, i: nat)
    requires Flushable(items) && ShapedFilter(r.filter) && FirstError(r.filter).None?
    requires i < |items| && Sat(r.filter, EventOf(items[i].item)) && SameAt(items, r, items[i].key.timestamp)
    ensures Overlaps(EventOf(items[i].item), r)
  {
    var rt := r.(ts := items[i].key.timestamp);
    BeforeMember(items, r.filter, rt.ts, i);
    var ks := MemTables.KeysOf(items);
    assert i in ShownRows(items, rt);
    PickedKeys(ks, ShownRows(items, rt), ks[i]);
    FlushedKeys(items);
    var rows := EmittedRows(EntriesOf(items), rt);
    PickedKeys(ks, rows, ks[i]);
    var j :| j in rows && 0 <= j < |ks| && ks[j] == ks[i];
    OneRow(ks, i, j);
    FlushedQuery(items, rt, i);
  }
}
