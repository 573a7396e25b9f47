/** What `ListEvents` lists at a snapshot: the memtable, then the levels, then the pending indices. */
module Snapshots {
  import opened Words
  import opened Wrappers
  import opened Bitmaps
  import opened Keys
  import opened Filtering
  import opened Matching
  import opened Index
  import opened MemTables
  import opened IndexIterators
  import opened MergeIterators
  import opened Flushing
  import opened Listing

  /** The reader's snapshots; missing levels are left out. */
  datatype View = View(cur: seq<Node>, levels: seq<seq<Entry>>, pen: seq<seq<Entry>>)

  datatype Request = Request(startTime: Instant, endTime: Instant, filter: Filter, ts: uint64)

  function EntryKeys(es: seq<Entry>): (ks: seq<EventKey>)
    ensures |ks| == |es| && forall i :: 0 <= i < |es| ==> ks[i] == EntryKey(es[i])
  {
    seq(|es|, i requires 0 <= i < |es| => EntryKey(es[i]))
  }

  /** The levels, then the pending indices. */
  function Indices(v: View): seq<seq<Entry>> {
    v.levels + v.pen
  }

  /** Row numbers have 32 bits. */
  ghost predicate Fits(es: seq<Entry>) {
    |es| <= 0x1_0000_0000
  }

  /** A memtable as the writer leaves it, and indices with their rows in any order. */
  ghost predicate ValidView(v: View) {
    && SortedItems(v.cur) && OneStart(MemTables.KeysOf(v.cur))
    && forall i :: 0 <= i < |Indices(v)| ==> Fits(Indices(v)[i])
  }

  /** No index has an event with two start times. */
  ghost predicate Unmoved(v: View) {
    forall i :: 0 <= i < |Indices(v)| ==> OneStart(EntryKeys(Indices(v)[i]))
  }

  /** Every index keeps the versions of an event together, newest first. */
  ghost predicate GroupedView(v: View) {
    forall i :: 0 <= i < |Indices(v)| ==> Grouped(EntryKeys(Indices(v)[i]))
  }

  /** Every index is sorted, as one built from a memtable is. */
  ghost predicate SortedView(v: View) {
    forall i :: 0 <= i < |Indices(v)| ==> Sorted(EntryKeys(Indices(v)[i]))
  }

  lemma SortedIsGrouped(v: View)
    requires SortedView(v) && Unmoved(v)
    ensures GroupedView(v)
  {
    forall i | 0 <= i < |Indices(v)| ensures Grouped(EntryKeys(Indices(v)[i])) { SortedGrouped(EntryKeys(Indices(v)[i])); }
  }

  /** The rows that a memtable iterator shows. */
  ghost function ShownRows(items: seq<Node>, r: Request): (rows: seq<int>)
    ensures forall n :: 0 <= n < |rows| ==> 0 <= rows[n] < |items|
  {
    RemainingInRange(items, r.filter, r.ts, 0);
    VisibleRows(items, r.filter, r.ts, 0)
  }

  lemma RemainingInRange(items: seq<Node>, f: Filter, ts: uint64, i: nat)
    ensures forall n :: 0 <= n < |VisibleRows(items, f, ts, i)| ==> VisibleRows(items, f, ts, i)[n] < |items|
  {
    var rows := VisibleRows(items, f, ts, i);
    forall n | 0 <= n < |rows| ensures rows[n] < |items| { VisibleRowsMember(items, f, ts, i, rows[n]); }
  }

  ghost function MemTableStream(items: seq<Node>, r: Request): seq<EventKey> {
    PickKeys(MemTables.KeysOf(items), ShownRows(items, r))
  }

  /** Visible rows that the query finds. */
  ghost predicate AreFound(es: seq<Entry>, r: Request, rows: seq<int>)
    requires Fits(es)
  {
    forall n :: 0 <= n < |rows| ==>
      0 <= rows[n] < |es| && rows[n] in QueryRows(es, r.startTime, r.endTime, r.filter) && es[rows[n]].ts <= r.ts
  }

  /** The rows that an index iterator emits: it runs over the posting that the query returns. */
  ghost function EmittedRows(es: seq<Entry>, r: Request): (rows: seq<int>)
    requires Fits(es)
    ensures AreFound(es, r, rows)
  {
    var posting := QueryRows(es, r.startTime, r.endTime, r.filter);
    AscendingInRange(posting, |es|);
    EmittedFound(es, r);
    Emitted(EntryKeys(es), Ascending(posting), r.ts, None)
  }

  lemma EmittedFound(es: seq<Entry>, r: Request)
    requires Fits(es) && InRange(Ascending(QueryRows(es, r.startTime, r.endTime, r.filter)), |es|)
    ensures AreFound(es, r, Emitted(EntryKeys(es), Ascending(QueryRows(es, r.startTime, r.endTime, r.filter)), r.ts, None))
  {
    var posting := QueryRows(es, r.startTime, r.endTime, r.filter);
    var rows := Emitted(EntryKeys(es), Ascending(posting), r.ts, None);
    forall n | 0 <= n < |rows| ensures rows[n] < |es| && rows[n] in posting && es[rows[n]].ts <= r.ts {
      EmittedVisible(EntryKeys(es), Ascending(posting), r.ts, None, rows[n]);
      AscendingMember(posting, rows[n]);
    }
  }

  ghost function IndexStream(es: seq<Entry>, r: Request): seq<EventKey>
    requires Fits(es)
  {
    PickKeys(EntryKeys(es), EmittedRows(es, r))
  }

  ghost function IndexStreams(ess: seq<seq<Entry>>, r: Request): (ss: seq<seq<EventKey>>)
    requires forall i :: 0 <= i < |ess| ==> Fits(ess[i])
    ensures |ss| == |ess| && forall i :: 0 <= i < |ess| ==> ss[i] == IndexStream(ess[i], r)
  {
    seq(|ess|, i requires 0 <= i < |ess| => IndexStream(ess[i], r))
  }

  /** The iterators in the order in which they are handed to the merge. */
  ghost function Streams(v: View, r: Request): seq<seq<EventKey>>
    requires ValidView(v)
  {
    [MemTableStream(v.cur, r)] + IndexStreams(Indices(v), r)
  }

  /** What the memtable shows: newest versions that match. */
  ghost predicate MemTableShows(items: seq<Node>, r: Request, k: EventKey) {
    exists i :: 0 <= i < |items| && items[i].key == k
                && Newest(MemTables.KeysOf(items), r.ts, i) && MatchMemTableItem(r.filter, items[i].item) == Ok(true)
  }

  /** What an index has for a request: the visible rows that the query finds. */
  ghost predicate Finds(es: seq<Entry>, r: Request, k: EventKey)
    requires Fits(es)
  {
    exists i: Row :: i in QueryRows(es, r.startTime, r.endTime, r.filter) && EntryKey(es[i]) == k && k.timestamp <= r.ts
  }

  /** What an index shows: among these rows, the newest versions. */
  ghost predicate IndexShows(es: seq<Entry>, r: Request, k: EventKey)
    requires Fits(es)
  {
    exists i: Row :: i < |es| && EntryKey(es[i]) == k
                     && NewestIn(EntryKeys(es), QueryRows(es, r.startTime, r.endTime, r.filter), r.ts, i)
  }

  lemma MemTableStreamIs(items: seq<Node>, r: Request, k: EventKey)
    requires SortedItems(items) && OneStart(MemTables.KeysOf(items))
    ensures k in MemTableStream(items, r) <==> MemTableShows(items, r, k)
  {
    var ks, rows := MemTables.KeysOf(items), ShownRows(items, r);
    forall i: nat ensures i in rows <==> i < |items| && Newest(ks, r.ts, i) && MatchMemTableItem(r.filter, items[i].item) == Ok(true) {
      VisibleRowsMember(items, r.filter, r.ts, 0, i);
      if i < |items| { VisibleIsNewest(items, r.filter, r.ts, i); }
    }
    hide VisibleRows, MatchMemTableItem, Newest, Sorted, OneStart;
    PickedKeys(ks, rows, k);
    if k in MemTableStream(items, r) {
      var i :| i in rows && 0 <= i < |ks| && ks[i] == k;
    }
  }

  lemma PickedKeys(keys: seq<EventKey>, rows: seq<int>, k: EventKey)
    requires forall i :: 0 <= i < |rows| ==> 0 <= rows[i] < |keys|
    ensures k in PickKeys(keys, rows) <==> exists i :: i in rows && 0 <= i < |keys| && keys[i] == k
  {
    var picked := PickKeys(keys, rows);
    if k in picked {
      var j :| 0 <= j < |picked| && picked[j] == k;
      assert rows[j] in rows;
    }
    if i :| i in rows && 0 <= i < |keys| && keys[i] == k {
      var j :| 0 <= j < |rows| && rows[j] == i;
      assert picked[j] == k;
    }
  }

  /** An index in any order shows nothing but what it finds. */
  lemma IndexStreamSound(es: seq<Entry>, r: Request, k: EventKey)
    requires Fits(es) && k in IndexStream(es, r)
    ensures Finds(es, r, k)
  {
    var rows := EmittedRows(es, r);
    PickedKeys(EntryKeys(es), rows, k);
    var i :| i in rows && 0 <= i < |es| && EntryKeys(es)[i] == k;
    hide EmittedRows;
    var n :| 0 <= n < |rows| && rows[n] == i;
    assert EntryKey(es[i]) == k;
  }

  /** And it shows some version of every event that it finds. */
  lemma IndexStreamComplete(es: seq<Entry>, r: Request, k: EventKey) returns (o: EventKey)
    requires Fits(es) && Finds(es, r, k)
    ensures o in IndexStream(es, r) && o.id == k.id && (OneStart(EntryKeys(es)) ==> SameEvent(o, k))
  {
    var ks := EntryKeys(es);
    var i: Row :| i in QueryRows(es, r.startTime, r.endTime, r.filter) && EntryKey(es[i]) == k && k.timestamp <= r.ts;
    var n := RowEmitted(es, r, i);
    hide EmittedRows, QueryRows;
    PickedKeys(ks, EmittedRows(es, r), ks[n]);
    o := ks[n];
  }

  lemma RowEmitted(es: seq<Entry>, r: Request, i: Row) returns (n: int)
    requires Fits(es) && i in QueryRows(es, r.startTime, r.endTime, r.filter) && es[i].ts <= r.ts
    ensures 0 <= n < |es| && n in EmittedRows(es, r) && EntryKeys(es)[n].id == EntryKeys(es)[i].id
  {
    var ks, posting := EntryKeys(es), QueryRows(es, r.startTime, r.endTime, r.filter);
    AscendingInRange(posting, |es|);
    AscendingMember(posting, i);
    assert i < |es|;
    hide QueryRows, Ascending, Emitted;
    EmittedCovers(ks, Ascending(posting), r.ts, None, i);
    n :| n in Emitted(ks, Ascending(posting), r.ts, None) && n < |ks| && ks[n].id == ks[i].id;
  }

  /** An index that keeps the versions of an event together shows exactly the newest. */
  lemma IndexStreamIs(es: seq<Entry>, r: Request, k: EventKey)
    requires Fits(es) && Grouped(EntryKeys(es))
    ensures k in IndexStream(es, r) <==> IndexShows(es, r, k)
  {
    var ks, posting := EntryKeys(es), QueryRows(es, r.startTime, r.endTime, r.filter);
    var rows := EmittedRows(es, r);
    forall i: Row ensures i in rows <==> NewestIn(ks, posting, r.ts, i) {
      AscendingInRange(posting, |es|);
      EmittedIsNewest(ks, posting, r.ts, i);
    }
    hide EmittedRows, QueryRows, Grouped;
    PickedKeys(ks, rows, k);
    if k in IndexStream(es, r) {
      var i :| i in rows && 0 <= i < |ks| && ks[i] == k;
      assert EntryKey(es[i]) == k;
    }
    if i: Row :| i < |es| && EntryKey(es[i]) == k && NewestIn(ks, posting, r.ts, i) {
      assert ks[i] == k && i in rows;
    }
  }

  lemma StreamsDescend(v: View, r: Request)
    requires ValidView(v) && SortedView(v) && Unmoved(v)
    ensures AllDescending(Streams(v, r))
  {
    MemTableStreamDescends(v.cur, r.filter, r.ts);
    forall i | 0 <= i < |Indices(v)| ensures Descending(IndexStream(Indices(v)[i], r)) {
      var es := Indices(v)[i];
      IndexStreamDescends(EntryKeys(es), QueryRows(es, r.startTime, r.endTime, r.filter), r.ts);
    }
    hide Descending, IndexStream;
  }

  /** The event is listed: the memtable shows the version, or an index finds it. */
  ghost predicate Lists(v: View, r: Request, k: EventKey)
    requires ValidView(v)
  {
    || MemTableShows(v.cur, r, k)
    || exists i :: 0 <= i < |Indices(v)| && Finds(Indices(v)[i], r, k)
  }

  /** Some part of the view shows `k`. */
  ghost predicate Shows(v: View, r: Request, k: EventKey)
    requires ValidView(v)
  {
    || MemTableShows(v.cur, r, k)
    || exists i :: 0 <= i < |Indices(v)| && IndexShows(Indices(v)[i], r, k)
  }

  ghost function Merge(v: View, r: Request): seq<EventKey>
    requires ValidView(v)
  {
    MergeAll(Streams(v, r))
  }

  /** A version of the event of `k` that is not older. */
  predicate AsNew(o: EventKey, k: EventKey) {
    SameEvent(o, k) && o.timestamp >= k.timestamp
  }

  /** For every view and request, whatever order merging left the indices in: every version that is emitted
      is shown by the memtable or found by the query of some index, and every event of which there is such
      a version is emitted. */
  lemma MergedView(v: View, r: Request, k: EventKey)
    requires ValidView(v)
    ensures k in Merge(v, r) ==> Lists(v, r, k)
    ensures Lists(v, r, k) ==> exists o :: o in Merge(v, r) && o.id == k.id && (Unmoved(v) ==> SameEvent(o, k))
  {
    hide MemTableStream, IndexStream, MemTableShows, Finds;
    var ss := Streams(v, r);
    MemTableStreamIs(v.cur, r, k);
    if k in Merge(v, r) {
      MergeSound(ss, k);
      var n: nat :| Offered(ss, n, k);
      if n > 0 { IndexStreamSound(Indices(v)[n - 1], r, k); }
    }
    if MemTableShows(v.cur, r, k) {
      var o := Emission(v, r, 0, k);
    } else if i :| 0 <= i < |Indices(v)| && Finds(Indices(v)[i], r, k) {
      var x := IndexStreamComplete(Indices(v)[i], r, k);
      var o := Emission(v, r, i + 1, x);
    }
  }

  /** Of what a stream offers, a version that is not older is emitted. */
  lemma Emission(v: View, r: Request, n: nat, k: EventKey) returns (o: EventKey)
    requires ValidView(v) && Offered(Streams(v, r), n, k)
    ensures o in Merge(v, r) && AsNew(o, k)
  {
    hide Streams;
    MergeComplete(Streams(v, r), n, k);
    var p :| 0 <= p < |Merge(v, r)| && SameEvent(Merge(v, r)[p], k) && Merge(v, r)[p].timestamp >= k.timestamp;
    o := Merge(v, r)[p];
  }

  /** Where the indices keep versions together, only newest versions are emitted, and of every event a
      version that is the newest of all. */
  lemma GroupedMergedView(v: View, r: Request, k: EventKey)
    requires ValidView(v) && GroupedView(v)
    ensures k in Merge(v, r) ==> Shows(v, r, k)
    ensures Shows(v, r, k) ==> exists o :: o in Merge(v, r) && AsNew(o, k)
  {
    hide MemTableStream, IndexStream, MemTableShows, IndexShows;
    var ss := Streams(v, r);
    if k in Merge(v, r) {
      MergeSound(ss, k);
      var n: nat :| Offered(ss, n, k);
      OfferedIsShown(v, r, n, k);
    }
    if Shows(v, r, k) {
      var n := ShownIsOffered(v, r, k);
      var o := Emission(v, r, n, k);
    }
  }

  lemma OfferedIsShown(v: View, r: Request, n: nat, k: EventKey)
    requires ValidView(v) && GroupedView(v) && Offered(Streams(v, r), n, k)
    ensures Shows(v, r, k)
  {
    hide MemTableStream, IndexStream, MemTableShows, IndexShows;
    if n == 0 {
      MemTableStreamIs(v.cur, r, k);
    } else {
      IndexStreamIs(Indices(v)[n - 1], r, k);
    }
  }

  lemma ShownIsOffered(v: View, r: Request, k: EventKey) returns (n: nat)
    requires ValidView(v) && GroupedView(v) && Shows(v, r, k)
    ensures Offered(Streams(v, r), n, k)
  {
    hide MemTableStream, IndexStream, MemTableShows, IndexShows;
    MemTableStreamIs(v.cur, r, k);
    if MemTableShows(v.cur, r, k) {
      n := 0;
    } else {
      var i :| 0 <= i < |Indices(v)| && IndexShows(Indices(v)[i], r, k);
      IndexStreamIs(Indices(v)[i], r, k);
      n := i + 1;
    }
  }

  /** Where they are sorted, the first emission of an event is the newest version that any part shows. */
  lemma NewestFirst(v: View, r: Request, k: EventKey)
    requires ValidView(v) && SortedView(v) && Unmoved(v) && Shows(v, r, k)
    ensures exists p :: 0 <= p < |Merge(v, r)| && FirstOf(Merge(v, r), p) && AsNew(Merge(v, r)[p], k)
  {
    var ss := Streams(v, r);
    StreamsDescend(v, r);
    SortedIsGrouped(v);
    var n := ShownIsOffered(v, r, k);
    hide MergeAll, AllDescending, Streams, Shows;
    MergeComplete(ss, n, k);
    var p :| 0 <= p < |Merge(v, r)| && SameEvent(Merge(v, r)[p], k);
    var q := FirstOccurrence(Merge(v, r), p);
    MergeIterators.FirstIsNewest(ss, q, n, k);
  }

  lemma {:induction false} FirstOccurrence(out: seq<EventKey>, p: nat) returns (q: nat)
    requires p < |out|
    ensures q <= p && SameEvent(out[q], out[p]) && FirstOf(out, q)
    decreases p
  {
    if o :| 0 <= o < p && SameEvent(out[o], out[p]) {
      q := FirstOccurrence(out, o);
    } else {
      q := p;
    }
  }

  /** When of every event the part listed first shows a newest version, the list is what the whole view
      shows: each event's newest version, once, in order, unless that is a tombstone. */
  lemma ListedView(v: View, r: Request, k: EventKey)
    requires ValidView(v) && SortedView(v) && Unmoved(v) && FirstListedNewest(Streams(v, r))
    ensures Descending(Live(Merge(v, r)))
    ensures k in Live(Merge(v, r)) ==>
              Shows(v, r, k) && !k.isDeleted && forall o :: Shows(v, r, o) && SameEvent(o, k) ==> o.timestamp <= k.timestamp
    ensures Shows(v, r, k) && !k.isDeleted ==>
              (exists o :: o in Live(Merge(v, r)) && SameEvent(o, k))
              || exists o :: Shows(v, r, o) && o.isDeleted && AsNew(o, k)
  {
    var out := Merge(v, r);
    StreamsDescend(v, r);
    SortedIsGrouped(v);
    OnceIfFirstNewest(Streams(v, r));
    LiveDescends(out);
    LiveMember(out, k);
    GroupedMergedView(v, r, k);
    hide MergeAll, Shows, AllDescending, FirstListedNewest, Live, GroupedView, SortedView, Unmoved;
    if k in out && !k.isDeleted {
      forall o | Shows(v, r, o) && SameEvent(o, k) ensures o.timestamp <= k.timestamp {
        NewestIsIt(v, r, k, o);
      }
    }
    if Shows(v, r, k) && !k.isDeleted {
      var o :| o in out && AsNew(o, k);
      GroupedMergedView(v, r, o);
      LiveMember(out, o);
    }
  }

  lemma NewestIsIt(v: View, r: Request, k: EventKey, o: EventKey)
    requires ValidView(v) && GroupedView(v) && Descending(Merge(v, r)) && k in Merge(v, r)
    requires Shows(v, r, o) && SameEvent(o, k)
    ensures o.timestamp <= k.timestamp
  {
    GroupedMergedView(v, r, o);
    hide Shows, GroupedView, Merge, Descending;
    var x :| x in Merge(v, r) && AsNew(x, o);
    OnlyOne(Merge(v, r), k, x);
  }

  lemma OnlyOne(out: seq<EventKey>, a: EventKey, b: EventKey)
    requires Descending(out) && a in out && b in out && SameEvent(a, b)
    ensures a == b
  {
    var i :| 0 <= i < |out| && out[i] == a;
    var j :| 0 <= j < |out| && out[j] == b;
    KeyOrder(a, b);
    KeyOrder(b, a);
  }

  lemma {:induction false} LiveDescends(out: seq<EventKey>)
    requires Descending(out)
    ensures Descending(Live(out))
  {
    if out != [] {
      LiveDescends(out[1..]);
      var live := Live(out[1..]);
      forall i | 0 <= i < |live| ensures CompareEventKey(out[0], live[i]) > 0 {
        LiveMember(out[1..], live[i]);
        assert live[i] in live;
        var j :| 0 <= j < |out[1..]| && out[1..][j] == live[i];
        assert out[j + 1] == live[i];
      }
      hide CompareEventKey;
    }
  }

  /** `x` is emitted, and so is a newer version of its event. */
  ghost predicate Beside(out: seq<EventKey>, x: EventKey) {
    x in out && exists o :: o in out && SameEvent(o, x) && o.timestamp > x.timestamp
  }

  /** The event of `x` comes before `x` itself. */
  ghost predicate Twice(out: seq<EventKey>, x: EventKey) {
    exists p, q :: 0 <= p < q < |out| && SameEvent(out[p], x) && out[q] == x
  }

  /** Otherwise an event is emitted twice: when the stream that offers it first offers an older version than
      some stream after it. */
  lemma TwiceEmitted(ss: seq<seq<EventKey>>, i: nat, x: EventKey, j: nat, y: EventKey)
    requires FirstHolder(ss, i, x) && Offered(ss, j, y) && SameEvent(x, y) && x.timestamp < y.timestamp
    ensures !FirstListedNewest(ss)
    ensures Beside(MergeAll(ss), x)
    ensures AllDescending(ss) ==> Twice(MergeAll(ss), x)
  {
    var out := MergeAll(ss);
    FirstHolderEmitted(ss, i, x);
    MergeComplete(ss, j, y);
    var n :| 0 <= n < |out| && SameEvent(out[n], y) && out[n].timestamp >= y.timestamp;
    assert out[n] in out;
    if AllDescending(ss) {
      var p :| 0 <= p < |out| && out[p] == x;
      var q := FirstOccurrence(out, p);
      MergeIterators.FirstIsNewest(ss, q, j, y);
      assert out[q] != x;
    }
  }

  /** Neither the memtable nor an index before `a` has anything of the event. */
  ghost predicate NoneBefore(v: View, r: Request, a: nat, x: EventKey)
    requires ValidView(v) && a < |Indices(v)|
  {
    && (forall o :: SameEvent(o, x) ==> !MemTableShows(v.cur, r, o))
    && (forall i, o :: 0 <= i < a && SameEvent(o, x) ==> !Finds(Indices(v)[i], r, o))
  }

  /** What an index finds of an event, it offers to the merge in some version. */
  lemma FoundOffered(v: View, r: Request, b: nat, y: EventKey) returns (z: EventKey)
    requires ValidView(v) && Unmoved(v) && b < |Indices(v)| && Finds(Indices(v)[b], r, y)
    ensures Offered(Streams(v, r), b + 1, z) && Finds(Indices(v)[b], r, z) && SameEvent(z, y)
  {
    z := IndexStreamComplete(Indices(v)[b], r, y);
    IndexStreamSound(Indices(v)[b], r, z);
    hide IndexStream, MemTableStream, Finds, OneStart;
  }

  lemma HeldFirst(v: View, r: Request, a: nat, o: EventKey, x: EventKey)
    requires ValidView(v) && a < |Indices(v)| && Offered(Streams(v, r), a + 1, o) && SameEvent(o, x) && NoneBefore(v, r, a, x)
    ensures FirstHolder(Streams(v, r), a + 1, o)
  {
    hide MemTableStream, IndexStream, MemTableShows, Finds;
    forall n: nat, z | n < a + 1 && Offered(Streams(v, r), n, z) ensures !SameEvent(z, o) {
      if n == 0 {
        MemTableStreamIs(v.cur, r, z);
      } else {
        IndexStreamSound(Indices(v)[n - 1], r, z);
        assert !SameEvent(z, x);
      }
    }
  }

  /** Every version of the event that index `a` finds is older than every version that index `b` finds. */
  ghost predicate OlderIn(v: View, r: Request, a: nat, b: nat, x: EventKey)
    requires ValidView(v) && a < |Indices(v)| && b < |Indices(v)|
  {
    forall o, y :: Finds(Indices(v)[a], r, o) && Finds(Indices(v)[b], r, y) && SameEvent(o, x) && SameEvent(y, x) ==>
      o.timestamp < y.timestamp
  }

  /** So it is with an event that is updated while the older version is in an index listed before the newer
      one: in a level, while the update is still pending. */
  lemma UpdateListedTwice(v: View, r: Request, a: nat, x: EventKey, b: nat, y: EventKey) returns (o: EventKey)
    requires ValidView(v) && Unmoved(v) && a < |Indices(v)| && b < |Indices(v)|
    requires Finds(Indices(v)[a], r, x) && Finds(Indices(v)[b], r, y) && SameEvent(x, y)
    requires NoneBefore(v, r, a, x) && OlderIn(v, r, a, b, x)
    ensures !FirstListedNewest(Streams(v, r))
    ensures Finds(Indices(v)[a], r, o) && SameEvent(o, x) && Beside(Merge(v, r), o)
    ensures SortedView(v) ==> Twice(Merge(v, r), o)
  {
    hide *;
    o := FoundOffered(v, r, a, x);
    var z := FoundOffered(v, r, b, y);
    HeldFirst(v, r, a, o, x);
    OlderVersion(v, r, a, b, x, y, o, z);
    if SortedView(v) { StreamsDescend(v, r); }
    TwiceMerged(v, r, a + 1, o, b + 1, z);
  }

  lemma OlderVersion(v: View, r: Request, a: nat, b: nat, x: EventKey, y: EventKey, o: EventKey, z: EventKey)
    requires ValidView(v) && a < |Indices(v)| && b < |Indices(v)| && OlderIn(v, r, a, b, x)
    requires Finds(Indices(v)[a], r, o) && Finds(Indices(v)[b], r, z) && SameEvent(o, x) && SameEvent(z, y) && SameEvent(x, y)
    ensures SameEvent(o, z) && o.timestamp < z.timestamp
  {
    hide Finds, ValidView;
  }

  lemma TwiceMerged(v: View, r: Request, i: nat, x: EventKey, j: nat, y: EventKey)
    requires ValidView(v) && FirstHolder(Streams(v, r), i, x) && Offered(Streams(v, r), j, y) && SameEvent(x, y) && x.timestamp < y.timestamp
    ensures !FirstListedNewest(Streams(v, r)) && Beside(Merge(v, r), x)
    ensures AllDescending(Streams(v, r)) ==> Twice(Merge(v, r), x)
  {
    TwiceEmitted(Streams(v, r), i, x, j, y);
    hide Streams, FirstListedNewest, Beside, Twice, MergeAll;
  }

  /** Such are all views of an old version in a level and a newer one in an index not yet merged. */
  lemma UpdateInPen(e1: Entry, e2: Entry, r: Request)
    requires SameEvent(EntryKey(e1), EntryKey(e2)) && e1.ts < e2.ts <= r.ts
    requires 0 in QueryRows([e1], r.startTime, r.endTime, r.filter) && 0 in QueryRows([e2], r.startTime, r.endTime, r.filter)
    ensures var v := View([], [[e1]], [[e2]]);
      ValidView(v) && Unmoved(v) && SortedView(v) && Twice(Merge(v, r), EntryKey(e1))
  {
    var v, x := View([], [[e1]], [[e2]]), EntryKey(e1);
    PenView(e1, e2);
    FindsOnly(e1, r);
    FindsOnly(e2, r);
    assert NoneBefore(v, r, 0, x) by { hide Finds; }
    assert OlderIn(v, r, 0, 1, x) by { hide Finds; }
    hide *;
    var o := UpdateListedTwice(v, r, 0, x, 1, EntryKey(e2));
    assert o == x;
  }

  lemma PenView(e1: Entry, e2: Entry)
    ensures var v := View([], [[e1]], [[e2]]);
      ValidView(v) && Unmoved(v) && SortedView(v) && Indices(v) == [[e1], [e2]]
  {
    assert Indices(View([], [[e1]], [[e2]])) == [[e1], [e2]];
  }

  lemma FindsOnly(e: Entry, r: Request)
    requires 0 in QueryRows([e], r.startTime, r.endTime, r.filter) && e.ts <= r.ts
    ensures forall k :: Finds([e], r, k) <==> k == EntryKey(e)
  {
    var zero: Row := 0;
    assert zero in QueryRows([e], r.startTime, r.endTime, r.filter) && EntryKey([e][zero]) == EntryKey(e);
  }

  /** There is such a view. */
  lemma SomeUpdateListedTwice()
    ensures exists v, r, x :: ValidView(v) && Unmoved(v) && SortedView(v) && Twice(Merge(v, r), x)
  {
    var event := Event("e", "", "", 0, 0, [], map[]);
    var e1, e2, r := Entry(event, 1, false), Entry(event, 2, false), Request(0, 0, Filter(None), 2);
    var zero: Row := 0;
    assert zero in QueryRows([e1], 0, 0, r.filter) && zero in QueryRows([e2], 0, 0, r.filter);
    hide ValidView, Unmoved, SortedView, Twice, QueryRows;
    UpdateInPen(e1, e2, r);
  }
}
