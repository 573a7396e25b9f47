/** The iterators that the merge is given: each behaves as the stream of keys that stands for it. */
module Cursors {
  import opened Words
  import opened Wrappers
  import opened Bitmaps
  import opened Keys
  import opened Filtering
  import opened Index
  import opened MemTables
  import opened IndexIterators
  import opened MergeIterators
  import opened Flushing
  import opened Snapshots

  // The memtable's iterator.

  /** The keys that the iterator has still to give. */
  ghost function MemTableAhead(it: MemTableIterator): seq<EventKey>
    reads it, it.mt
  {
    RemainingInRange(it.mt.items, it.f, it.ts, it.Position());
    PickKeys(MemTables.KeysOf(it.mt.items), it.Remaining())
  }

  ghost predicate MemTableFollows(it: MemTableIterator, s: KeyStream)
    reads it, it.mt, s
  {
    it.Invariant() && s.end == it.end && s.Ahead() == MemTableAhead(it)
  }

  /** A new iterator has ahead what the request shows of the memtable. */
  method OpenMemTable(mt: MemTable, r: Request) returns (it: MemTableIterator)
    requires mt.Valid()
    ensures fresh(it) && it.mt == mt && it.Invariant() && !it.end && MemTableAhead(it) == MemTableStream(mt.items, r)
  {
    it := new MemTableIterator(mt, r.filter, r.ts);
  }

  /** And it goes on as the stream of these keys does: the same answer, the same key, the same keys to come. */
  method StepMemTable(it: MemTableIterator, s: KeyStream) returns (found: bool)
    requires MemTableFollows(it, s)
    modifies it, s
    ensures MemTableFollows(it, s) && found == !s.end
    ensures found ==> it.cur.Some? && s.current == it.mt.items[it.cur.value].key
  {
    ghost var rows := it.Remaining();
    RemainingInRange(it.mt.items, it.f, it.ts, it.Position());
    PickTail(MemTables.KeysOf(it.mt.items), rows);
    found := it.Next();
    var also := s.Next();
    assert also == found;
  }

  lemma PickTail(keys: seq<EventKey>, rows: seq<int>)
    requires forall n :: 0 <= n < |rows| ==> 0 <= rows[n] < |keys|
    ensures rows != [] ==> PickKeys(keys, rows) == [keys[rows[0]]] + PickKeys(keys, rows[1..])
  {}

  // The index's iterator.

  lemma EmittedInRange(keys: seq<EventKey>, rows: seq<Row>, ts: uint64, last: Option<string>)
    requires InRange(rows, |keys|)
    ensures forall n :: 0 <= n < |Emitted(keys, rows, ts, last)| ==> Emitted(keys, rows, ts, last)[n] < |keys|
  {
    var e := Emitted(keys, rows, ts, last);
    forall n | 0 <= n < |e| ensures e[n] < |keys| { EmittedVisible(keys, rows, ts, last, e[n]); }
  }

  ghost function IndexAhead(it: IndexIterator): seq<EventKey>
    requires it.Invariant()
    reads it, it.ri, it.posting
  {
    var keys := it.ri.keys;
    if !it.hasNext then [] else
      EmittedInRange(keys, it.it, it.ts, Some(keys[it.nextIdx].id));
      PickKeys(keys, it.Remaining())
  }

  ghost predicate IndexFollows(it: IndexIterator, s: KeyStream)
    reads it, it.ri, it.posting, s
  {
    it.Invariant() && s.end == it.end && s.Ahead() == IndexAhead(it)
  }

  /** The iterator over what the query finds has ahead what the request shows of the index. */
  method OpenIndex(ri: RoaringIndex, r: Request) returns (it: IndexIterator?, err: Option<FilterError>)
    requires ri.Valid()
    ensures err == FirstError(r.filter) && (err.Some? <==> it == null)
    ensures ri.Valid() && Fits(ri.entries)
    ensures it != null ==>
              fresh(it) && it.ri == ri && it.Invariant() && !it.end && IndexAhead(it) == IndexStream(ri.entries, r)
  {
    IndexKeys(ri);
    var posting;
    posting, err := ri.Query(r.startTime, r.endTime, r.filter);
    if posting == null {
      return null, err;
    }
    IndexKeys(ri);
    it := new IndexIterator(ri, posting, r.ts);
  }

  lemma IndexKeys(ri: RoaringIndex)
    requires ri.Valid()
    ensures Fits(ri.entries) && ri.keys == EntryKeys(ri.entries)
  {}

  method StepIndex(it: IndexIterator, s: KeyStream) returns (found: bool)
    requires IndexFollows(it, s)
    modifies it, s
    ensures IndexFollows(it, s) && found == !s.end
    ensures found ==> it.index < |it.ri.keys| && s.current == it.ri.keys[it.index]
  {
    hide Emitted, InRange;
    ghost var rows := it.Remaining();
    found := it.Next();
    var also := s.Next();
    assert also == found;
  }
}
