/** Whatever way an index came about, a query means the same. */
module Histories {
  import opened Wrappers
  import opened Bitmaps
  import opened Keys
  import opened Filtering
  import opened Index
  import opened Merging

  /** How an index was built: row by row, or by merging two others. */
  datatype History = Indexed(entries: seq<Entry>) | Joined(left: History, right: History)

  function Size(h: History): nat {
    match h
    case Indexed(es) => |es|
    case Joined(a, b) => Size(a) + Size(b)
  }

  function Contents(h: History): multiset<Entry> {
    match h
    case Indexed(es) => multiset(es)
    case Joined(a, b) => Contents(a) + Contents(b)
  }

  method IndexAll(es: seq<Entry>) returns (ri: RoaringIndex)
    requires |es| <= 0x1_0000_0000
    ensures fresh(ri.Footprint()) && ri.Valid() && ri.entries == es
  {
    hide RoaringIndex.Valid;
    ri := new RoaringIndex();
    var i := 0;
    while i < |es|
      invariant 0 <= i <= |es| && fresh(ri.Footprint())
      invariant ri.Valid() && ri.entries == es[..i]
    {
      ri.IndexEvent(es[i].event, es[i].ts, es[i].isDeleted);
      i := i + 1;
    }
    assert es[..i] == es;
  }

  method Build(h: History) returns (ri: RoaringIndex)
    requires Size(h) <= 0x1_0000_0000
    ensures ri.Valid() && multiset(ri.entries) == Contents(h)
  {
    hide RoaringIndex.Valid, Merges;
    match h
    case Indexed(es) =>
      ri := IndexAll(es);
    case Joined(left, right) =>
      var a := Build(left);
      var b := Build(right);
      SizeIsCard(left, a.entries);
      SizeIsCard(right, b.entries);
      ghost var rA, rB;
      ri, rA, rB := MergeBoth(a, b);
      MergesContents(a.entries, b.entries, ri.entries, rA, rB);
  }

  lemma MergesContents(ea: seq<Entry>, eb: seq<Entry>, es: seq<Entry>, rA: seq<Row>, rB: seq<Row>)
    requires Merges(ea, eb, es, rA, rB)
    ensures multiset(es) == multiset(ea) + multiset(eb)
  {}

  lemma SizeIsCard(h: History, es: seq<Entry>)
    requires multiset(es) == Contents(h)
    ensures |es| == Size(h)
  {
    ContentsSize(h);
    assert |multiset(es)| == |es|;
  }

  lemma {:induction false} ContentsSize(h: History)
    ensures |Contents(h)| == Size(h)
  {
    match h
    case Indexed(es) =>
    case Joined(a, b) =>
      ContentsSize(a);
      ContentsSize(b);
  }

  /** For every history, filter and time range: exactly the rows of the matching events are found, or the
      filter's first error is returned. */
  method BuildAndQuery(h: History, startTime: Instant, endTime: Instant, f: Filter)
    returns (rows: set<Row>, err: Option<FilterError>, ghost es: seq<Entry>)
    requires Size(h) <= 0x1_0000_0000
    ensures err == FirstError(f) && multiset(es) == Contents(h)
    ensures err.None? ==> |es| <= 0x1_0000_0000 && rows == QueryRows(es, startTime, endTime, f)
    ensures err.None? ==>
              forall r | r in rows :: r < |es| && var e := es[r].event;
                Sat(f, e) && e.startTime < endTime + 1_000_000_000 && e.endTime > startTime - 1_000_000_000
    ensures err.None? ==>
              forall r: Row | r < |es| && Sat(f, es[r].event) && es[r].event.startTime <= endTime && es[r].event.endTime >= startTime ::
                r in rows
  {
    var ri := Build(h);
    es := ri.entries;
    var res;
    res, err := ri.Query(startTime, endTime, f);
    rows := if res == null then {} else res.rows;
  }
}
