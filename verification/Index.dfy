/** The roaring index: postings, two bit-sliced time columns, and the filter evaluator over them. */
module Index {
  import opened Words
  import opened Wrappers
  import opened Bitmaps
  import opened Planes
  import Compare
  import opened Bsi
  import opened Keys
  import opened Filtering

  datatype Pair = Pair(key: string, value: string)

  /** What is stored in a row. */
  datatype Entry = Entry(event: Event, ts: uint64, isDeleted: bool)

  function EntryKey(e: Entry): EventKey {
    EventKey(e.event.typeCode, e.event.externalID, e.event.startTime, e.event.id, e.ts, e.isDeleted)
  }

  predicate HasPair(ev: Event, p: Pair) {
    p.key in ev.annotations && ev.annotations[p.key] == p.value
  }

  // What an index stands for, as functions of its entries.

  ghost function Starts(es: seq<Entry>): map<Row, int64>
    requires |es| <= 0x1_0000_0000
  {
    map r | r in Rows(|es|) :: Unix(es[r].event.startTime)
  }

  ghost function Ends(es: seq<Entry>): map<Row, int64>
    requires |es| <= 0x1_0000_0000
  {
    map r | r in Rows(|es|) :: Unix(es[r].event.endTime)
  }

  ghost function Tagged(es: seq<Entry>, t: string): set<Row>
    requires |es| <= 0x1_0000_0000
  {
    set r | r in Rows(|es|) && t in es[r].event.tags
  }

  ghost function Annotated(es: seq<Entry>, p: Pair): set<Row>
    requires |es| <= 0x1_0000_0000
  {
    set r | r in Rows(|es|) && HasPair(es[r].event, p)
  }

  /** The rows whose event overlaps `[startTime, endTime]`, in whole seconds, and satisfies the filter. */
  ghost function QueryRows(es: seq<Entry>, startTime: Instant, endTime: Instant, f: Filter): set<Row>
    requires |es| <= 0x1_0000_0000
  {
    set r | r in Rows(|es|)
            && Unix(es[r].event.startTime) <= Unix(endTime)
            && Unix(es[r].event.endTime) >= Unix(startTime)
            && Sat(f, es[r].event)
  }

  /** In terms of instants: whatever is found overlaps the window to within a second, and a match that overlaps the
      window is found. */
  lemma QueryWindow(es: seq<Entry>, startTime: Instant, endTime: Instant, f: Filter)
    requires |es| <= 0x1_0000_0000
    ensures forall r | r in QueryRows(es, startTime, endTime, f) :: r < |es| && var e := es[r].event;
              Sat(f, e) && e.startTime < endTime + 1_000_000_000 && e.endTime > startTime - 1_000_000_000
    ensures forall r: Row | r < |es| && Sat(f, es[r].event) && es[r].event.startTime <= endTime && es[r].event.endTime >= startTime ::
              r in QueryRows(es, startTime, endTime, f)
  {
    UnixSeconds(startTime);
    UnixSeconds(endTime);
    forall r | 0 <= r < |es|
      ensures Unix(es[r].event.startTime) <= Unix(endTime) ==> es[r].event.startTime < endTime + 1_000_000_000
      ensures Unix(es[r].event.endTime) >= Unix(startTime) ==> es[r].event.endTime > startTime - 1_000_000_000
      ensures es[r].event.startTime <= endTime ==> Unix(es[r].event.startTime) <= Unix(endTime)
      ensures es[r].event.endTime >= startTime ==> Unix(es[r].event.endTime) >= Unix(startTime)
    {
      UnixSeconds(es[r].event.startTime);
      UnixSeconds(es[r].event.endTime);
    }
    hide Unix, Sat;
  }

  // Posting maps: every key has a bitmap of its own, taken from a known set of objects.

  ghost predicate Owned<K>(m: map<K, Bitmap>, repr: set<Bitmap>) {
    && (forall k :: k in m ==> m[k] in repr)
    && (forall k, l :: k in m && l in m && k != l ==> m[k] != m[l])
  }

  /** The posting of a key; a missing one is empty. */
  ghost function RowsOf<K>(m: map<K, Bitmap>, k: K): set<Row>
    reads if k in m then {m[k]} else {}
  {
    if k in m then m[k].rows else {}
  }

  /** Adds a row to the posting of `k`, which is created when missing. */
  method AddPosting<K(==, !new)>(m: map<K, Bitmap>, k: K, row: Row, ghost repr: set<Bitmap>)
    returns (r: map<K, Bitmap>, ghost repr': set<Bitmap>)
    requires Owned(m, repr)
    modifies if k in m then {m[k]} else {}
    ensures Owned(r, repr') && repr <= repr' && fresh(repr' - repr)
    ensures RowsOf(r, k) == old(RowsOf(m, k)) + {row}
    ensures forall l :: l != k ==> RowsOf(r, l) == old(RowsOf(m, l))
  {
    r, repr' := m, repr;
    if k !in m {
      var b := new Bitmap({});
      r, repr' := m[k := b], repr + {b};
    }
    var one := new Bitmap({row});
    r[k].Or(one);
  }

  ghost predicate Keyed(keys: seq<EventKey>, es: seq<Entry>, indexes: map<EventKey, Row>) {
    && |keys| == |es| <= 0x1_0000_0000
    && (forall i :: 0 <= i < |keys| ==> keys[i] == EntryKey(es[i]))
    && (forall k :: k in indexes <==> k in keys)
    && (forall k :: k in indexes ==> indexes[k] < |keys| && keys[indexes[k]] == k)
  }

  ghost predicate TagsExact(tags: map<string, Bitmap>, repr: set<Bitmap>, es: seq<Entry>)
    requires |es| <= 0x1_0000_0000
    reads repr
  {
    Owned(tags, repr) && forall t :: RowsOf(tags, t) == Tagged(es, t)
  }

  ghost predicate AnnotationsExact(annotations: map<Pair, Bitmap>, repr: set<Bitmap>, es: seq<Entry>)
    requires |es| <= 0x1_0000_0000
    reads repr
  {
    Owned(annotations, repr) && forall p :: RowsOf(annotations, p) == Annotated(es, p)
  }

  /** A time column of an index: one value per row. */
  ghost predicate Holding(b: BSI, values: map<Row, int64>)
    reads b
  {
    b.Valid() && b.AutoSized() && |b.bA| <= 64 && b.eBM == values.Keys && b.Values() == values
  }

  method SetTime(b: BSI, row: Row, value: int64, ghost values: map<Row, int64>)
    requires Holding(b, values)
    modifies b
    ensures Holding(b, values[row := value])
  {
    hide ColVal, Len64, Low, ToI64;
    b.SetValue(row, value);
  }

  class RoaringIndex {
    var all: Bitmap
    var startTime: BSI
    var endTime: BSI
    var tags: map<string, Bitmap>
    var annotations: map<Pair, Bitmap>
    var keys: seq<EventKey>
    var indexes: map<EventKey, Row>
    ghost var entries: seq<Entry>
    ghost var tagRepr: set<Bitmap>
    ghost var annotationRepr: set<Bitmap>

    /** The rows, their keys and their times stand for `es`. */
    ghost predicate RowsExact(es: seq<Entry>)
      requires |es| <= 0x1_0000_0000
      reads this`all, this`startTime, this`endTime, this`keys, this`indexes, all, startTime, endTime
    {
      && startTime != endTime
      && Keyed(keys, es, indexes)
      && all.rows == Rows(|es|)
      && Holding(startTime, Starts(es)) && Holding(endTime, Ends(es))
    }

    /** The postings stand for `es`. */
    ghost predicate PostingsExact(es: seq<Entry>)
      requires |es| <= 0x1_0000_0000
      reads this`tags, this`annotations, this`tagRepr, this`annotationRepr, tagRepr, annotationRepr
    {
      && TagsExact(tags, tagRepr, es) && AnnotationsExact(annotations, annotationRepr, es)
    }

    ghost predicate Valid()
      reads this, all, startTime, endTime, tagRepr, annotationRepr
    {
      && |keys| == |entries| <= 0x1_0000_0000
      && all !in tagRepr && all !in annotationRepr && tagRepr !! annotationRepr
      && RowsExact(entries) && PostingsExact(entries)
    }

    ghost function Footprint(): set<object>
      reads this
    {
      {this, all, startTime, endTime} + tagRepr + annotationRepr
    }

    constructor ()
      ensures Valid() && entries == [] && fresh(Footprint())
    {
      hide RoaringIndex.Valid, Keyed, Holding, Starts, Ends, TagsExact, AnnotationsExact;
      all := new Bitmap({});
      startTime := new BSI.Default();
      endTime := new BSI.Default();
      tags, annotations, keys, indexes, entries := map[], map[], [], map[], [];
      tagRepr, annotationRepr := {}, {};
      new;
      EmptyIndex(startTime);
      EmptyIndex(endTime);
      EmptyIsValid();
    }

    lemma EmptyIsValid()
      requires all.rows == {} && startTime != endTime && Holding(startTime, map[]) && Holding(endTime, map[])
      requires tags == map[] && annotations == map[] && keys == [] && indexes == map[] && entries == []
      requires tagRepr == {} && annotationRepr == {}
      ensures Valid()
    {
      hide Holding, TagsExact, AnnotationsExact, Keyed;
      EmptyIndex(startTime);
    }

    /** An index from its parts. */
    constructor From(all: Bitmap, startTime: BSI, endTime: BSI, tags: map<string, Bitmap>, annotations: map<Pair, Bitmap>,
      keys: seq<EventKey>, indexes: map<EventKey, Row>, ghost es: seq<Entry>, ghost tagRepr: set<Bitmap>, ghost annotationRepr: set<Bitmap>)
      requires |keys| == |es| <= 0x1_0000_0000 && Keyed(keys, es, indexes)
      requires all !in tagRepr && all !in annotationRepr && tagRepr !! annotationRepr && startTime != endTime
      requires all.rows == Rows(|es|) && Holding(startTime, Starts(es)) && Holding(endTime, Ends(es))
      requires TagsExact(tags, tagRepr, es) && AnnotationsExact(annotations, annotationRepr, es)
      ensures Valid() && this.keys == keys && entries == es
      ensures this.all == all && this.startTime == startTime && this.endTime == endTime
      ensures this.tagRepr == tagRepr && this.annotationRepr == annotationRepr
    {
      hide Keyed, Holding, Starts, Ends, TagsExact, AnnotationsExact;
      this.all, this.startTime, this.endTime := all, startTime, endTime;
      this.tags, this.annotations, this.keys, this.indexes := tags, annotations, keys, indexes;
      this.entries, this.tagRepr, this.annotationRepr := es, tagRepr, annotationRepr;
    }

    /** Appends an event as a new row. */
    method IndexEvent(event: Event, ts: uint64, isDeleted: bool)
      requires Valid() && |entries| < 0x1_0000_0000
      modifies Footprint()
      ensures Valid() && entries == old(entries) + [Entry(event, ts, isDeleted)]
      ensures keys == old(keys) + [EventKey(event.typeCode, event.externalID, event.startTime, event.id, ts, isDeleted)]
      ensures fresh(Footprint() - old(Footprint()))
    {
      hide RoaringIndex.RowsExact, RoaringIndex.PostingsExact;
      AppendRow(event, ts, isDeleted);
      AppendPostings(event, |keys| - 1, Entry(event, ts, isDeleted));
      entries := entries + [Entry(event, ts, isDeleted)];
    }

    /** The new row's key and times. */
    method AppendRow(event: Event, ts: uint64, isDeleted: bool)
      requires |entries| < 0x1_0000_0000 && RowsExact(entries)
      modifies this`keys, this`indexes, all, startTime, endTime
      ensures |keys| == |entries| + 1 && RowsExact(entries + [Entry(event, ts, isDeleted)])
      ensures keys == old(keys) + [EventKey(event.typeCode, event.externalID, event.startTime, event.id, ts, isDeleted)]
    {
      hide Keyed, Holding, Starts, Ends;
      ghost var before, entry := entries, Entry(event, ts, isDeleted);
      AppendedKey(keys, before, indexes, entry);
      AppendedStart(before, entry);
      AppendedEnd(before, entry);
      var key := EntryKey(Entry(event, ts, isDeleted));
      keys := keys + [key];
      var index: Row := |keys| - 1;
      var one := new Bitmap({index});
      all.Or(one);
      indexes := indexes[key := index];
      SetTime(startTime, index, Unix(event.startTime), Starts(before));
      SetTime(endTime, index, Unix(event.endTime), Ends(before));
    }

    /** The new row's tags and annotations. */
    method AppendPostings(event: Event, index: Row, ghost entry: Entry)
      requires index == |entries| && entry.event == event && tagRepr !! annotationRepr && PostingsExact(entries)
      modifies this`tags, this`annotations, this`tagRepr, this`annotationRepr, tagRepr, annotationRepr
      ensures tagRepr !! annotationRepr && PostingsExact(entries + [entry])
      ensures old(tagRepr) <= tagRepr && fresh(tagRepr - old(tagRepr))
      ensures old(annotationRepr) <= annotationRepr && fresh(annotationRepr - old(annotationRepr))
    {
      hide TagsExact, AnnotationsExact;
      tags, tagRepr := AddTags(tags, event.tags, index, tagRepr, entries, entry);
      annotations, annotationRepr := AddPairs(annotations, event.annotations, index, annotationRepr, entries, entry);
    }

    /** Bitmaps in evaluation are always new: what is stored is never combined in place. */
    method Query(startTime: Instant, endTime: Instant, f: Filter) returns (res: Bitmap?, err: Option<FilterError>)
      requires Valid()
      ensures Valid() && err == FirstError(f)
      ensures err.Some? <==> res == null
      ensures res != null ==> fresh(res) && res.rows == QueryRows(entries, startTime, endTime, f)
      ensures res != null ==>
                forall r | r in res.rows :: r < |entries| && var e := entries[r].event;
                  Sat(f, e) && e.startTime < endTime + 1_000_000_000 && e.endTime > startTime - 1_000_000_000
      ensures res != null ==>
                forall r: Row | r < |entries| && var e := entries[r].event; Sat(f, e) && e.startTime <= endTime && e.endTime >= startTime ::
                  r in res.rows
    {
      res, err := EvalFilter(f);
      if err.Some? {
        return null, err;
      }
      res := InTime(startTime, endTime, res, f);
      hide RoaringIndex.Valid, QueryRows, Unix;
      QueryWindow(entries, startTime, endTime, f);
    }

    /** The comparisons of the two time columns; a missing bitmap stands for all rows. */
    method InTime(startTime: Instant, endTime: Instant, found: Bitmap?, ghost f: Filter) returns (res: Bitmap)
      requires Valid() && Is(if found == null then Rows(|entries|) else found.rows, entries, ev => Sat(f, ev))
      ensures Valid() && fresh(res) && res.rows == QueryRows(entries, startTime, endTime, f)
    {
      hide RoaringIndex.PostingsExact, Keyed;
      ghost var rows := if found == null then Rows(|entries|) else found.rows;
      hide Holding, Starts, Ends, Compare.Accepts, Select, Is, Sat;
      SelectBy(this.startTime, Starts(entries), Compare.LE, Unix(endTime), rows);
      res := this.startTime.CompareValue(4, 1, Compare.LE, Unix(endTime), 0, found);
      SelectBy(this.endTime, Ends(entries), Compare.GE, Unix(startTime), res.rows);
      res := this.endTime.CompareValue(4, 1, Compare.GE, Unix(startTime), 0, res);
      Overlapping(entries, startTime, endTime, f, rows);
    }

    method EvalFilter(f: Filter) returns (res: Bitmap?, err: Option<FilterError>)
      requires Valid()
      ensures Valid() && err == FirstError(f)
      ensures res != null ==> fresh(res) && Is(res.rows, entries, ev => Sat(f, ev))
      ensures res != null <==> err.None? && f.expression.Some? && Constrains(f.expression.value)
    {
      if f.expression.None? {
        return null, None;
      }
      res, err := EvalExpression(f.expression.value);
    }

    method EvalExpression(e: Expression) returns (res: Bitmap?, err: Option<FilterError>)
      requires Valid()
      ensures Valid() && err == ExpressionError(e)
      ensures res != null ==> fresh(res) && Is(res.rows, entries, ev => Holds(e, ev))
      ensures res != null <==> err.None? && Constrains(e)
      decreases e
    {
      hide RoaringIndex.Valid, Constrains, Holds, SequenceConstrains, SequenceHolds;
      var ss := e.sequences;
      res, err := null, None;
      var i := 0;
      ghost var none := ss[..0];
      NoSequences(none);
      assert ss[0..] == ss;
      while i < |ss|
        invariant 0 <= i <= |ss| && Valid() && err == None
        invariant SequencesError(ss) == SequencesError(ss[i..])
        invariant res != null ==> fresh(res) && Is(res.rows, entries, ev => Holds(Expression(ss[..i]), ev))
        invariant res != null <==> Constrains(Expression(ss[..i]))
        invariant res == null ==> forall ev :: Holds(Expression(ss[..i]), ev)
      {
        SequencesStep(ss, i, i + 1);
        var bitmap;
        bitmap, err := EvalSequence(ss[i]);
        if err.Some? {
          return null, err;
        }
        if res == null {
          res := bitmap;
        } else if bitmap != null {
          res.And(bitmap);
        }
        i := i + 1;
      }
      assert ss[i..] == [];
      assert ss[..i] == ss && e == Expression(ss);
    }

    method EvalSequence(s: Sequence) returns (res: Bitmap?, err: Option<FilterError>)
      requires Valid()
      ensures Valid() && err == FactorsError(s.factors)
      ensures res != null ==> fresh(res) && Is(res.rows, entries, ev => SequenceHolds(s, ev))
      ensures res != null <==> err.None? && SequenceConstrains(s)
      decreases s
    {
      hide RoaringIndex.Valid, SequenceConstrains, SequenceHolds, FactorConstrains, FactorHolds;
      var fs := s.factors;
      res, err := null, None;
      var i := 0;
      ghost var none := fs[..0];
      NoFactors(none);
      assert fs[0..] == fs;
      while i < |fs|
        invariant 0 <= i <= |fs| && Valid() && err == None
        invariant FactorsError(fs) == FactorsError(fs[i..])
        invariant res != null ==> fresh(res) && Is(res.rows, entries, ev => SequenceHolds(Sequence(fs[..i]), ev))
        invariant res != null <==> SequenceConstrains(Sequence(fs[..i]))
        invariant res == null ==> forall ev :: SequenceHolds(Sequence(fs[..i]), ev)
      {
        FactorsStep(fs, i, i + 1);
        var bitmap;
        bitmap, err := EvalFactor(fs[i]);
        if err.Some? {
          return null, err;
        }
        if res == null {
          res := bitmap;
        } else if bitmap != null {
          res.And(bitmap);
        }
        i := i + 1;
      }
      assert fs[i..] == [];
      assert fs[..i] == fs && s == Sequence(fs);
    }

    method EvalFactor(f: Factor) returns (res: Bitmap?, err: Option<FilterError>)
      requires Valid()
      ensures Valid() && err == TermsError(f.terms)
      ensures res != null ==> fresh(res) && Is(res.rows, entries, ev => FactorHolds(f, ev))
      ensures res != null <==> err.None? && FactorConstrains(f)
      decreases f
    {
      hide RoaringIndex.Valid, FactorConstrains, FactorHolds, TermConstrains, TermHolds;
      var ts := f.terms;
      res, err := null, None;
      var i := 0;
      ghost var none := ts[..0];
      NoTerms(none);
      assert ts[0..] == ts;
      while i < |ts|
        invariant 0 <= i <= |ts| && Valid() && err == None
        invariant TermsError(ts) == TermsError(ts[i..])
        invariant res != null ==> fresh(res) && Is(res.rows, entries, ev => FactorHolds(Factor(ts[..i]), ev))
        invariant res != null <==> FactorConstrains(Factor(ts[..i]))
        invariant res == null ==> forall ev :: !FactorHolds(Factor(ts[..i]), ev)
      {
        TermsStep(ts, i, i + 1);
        var bitmap;
        bitmap, err := EvalTerm(ts[i]);
        if err.Some? {
          return null, err;
        }
        if res == null {
          res := bitmap;
        } else if bitmap != null {
          res.Or(bitmap);
        }
        i := i + 1;
      }
      assert ts[i..] == [];
      assert ts[..i] == ts && f == Factor(ts);
    }

    method EvalTerm(t: Term) returns (res: Bitmap?, err: Option<FilterError>)
      requires Valid()
      ensures Valid() && err == TermError(t)
      ensures res != null ==> fresh(res) && Is(res.rows, entries, ev => TermHolds(t, ev))
      ensures res != null <==> err.None? && TermConstrains(t)
      decreases t
    {
      hide RoaringIndex.PostingsExact, Keyed, Holding;
      if t.simple.None? {
        return null, None;
      }
      res, err := EvalSimple(t.simple.value);
      if err.Some? || res == null {
        return null, err;
      }
      if t.negated {
        var allNot := all.Clone();
        allNot.AndNot(res);
        res := allNot;
      }
    }

    method EvalSimple(s: Simple) returns (res: Bitmap?, err: Option<FilterError>)
      requires Valid()
      ensures Valid() && err == SimpleError(s)
      ensures res != null ==> fresh(res) && Is(res.rows, entries, ev => SimpleHolds(s, ev))
      ensures res != null <==> err.None? && SimpleConstrains(s)
      decreases s
    {
      if s.composite.Some? {
        res, err := EvalExpression(s.composite.value);
      } else if s.restriction.Some? {
        res, err := EvalRestriction(s.restriction.value);
      } else {
        res, err := null, None;
      }
    }

    method EvalRestriction(r: Restriction) returns (res: Bitmap?, err: Option<FilterError>)
      requires Valid()
      ensures Valid() && err == RestrictionError(r)
      ensures res != null ==> fresh(res) && Is(res.rows, entries, ev => RestrictionHolds(r, ev))
      ensures res != null <==> err.None?
    {
      hide RoaringIndex.Valid;
      if r.comparable.None? || r.comparable.value.member.None? || r.comparable.value.member.value.value.None? {
        return null, Some(InvalidRestriction);
      }
      var fieldName := r.comparable.value.member.value.value.value.value;
      if fieldName == "tags" {
        if r.arg.None? || r.arg.value.comparable.None? || r.arg.value.comparable.value.member.None?
           || r.arg.value.comparable.value.member.value.value.None? {
          return null, Some(TagsArgument);
        }
        if !r.arg.value.comparable.value.member.value.value.value.quoted {
          return null, Some(TagsUnquoted);
        }
        var tagName := r.arg.value.comparable.value.member.value.value.value.value;
        assert Resolve(r) == TagIs(tagName);
        res, err := TagPosting(tagName);
      } else if fieldName == "annotations" {
        if |r.comparable.value.member.value.fields| == 0 || r.arg.None? || r.arg.value.comparable.None?
           || r.arg.value.comparable.value.member.None? || r.arg.value.comparable.value.member.value.value.None? {
          return null, Some(AnnotationsArgument);
        }
        if !r.arg.value.comparable.value.member.value.value.value.quoted {
          return null, Some(AnnotationsUnquoted);
        }
        var key := r.comparable.value.member.value.fields[0].value;
        var value := r.arg.value.comparable.value.member.value.value.value.value;
        assert Resolve(r) == AnnotationIs(key, value);
        res, err := AnnotationPosting(Pair(key, value));
      } else {
        return null, Some(UnknownField(fieldName));
      }
    }

    method TagPosting(tag: string) returns (res: Bitmap, err: Option<FilterError>)
      requires Valid()
      ensures Valid() && fresh(res) && err == None
      ensures Is(res.rows, entries, (ev: Event) => tag in ev.tags)
    {
      err := None;
      assert RowsOf(tags, tag) == Tagged(entries, tag);
      hide RoaringIndex.RowsExact, RoaringIndex.PostingsExact;
      if tag in tags {
        res := tags[tag].Clone();
      } else {
        res := new Bitmap({});
      }
    }

    method AnnotationPosting(pair: Pair) returns (res: Bitmap, err: Option<FilterError>)
      requires Valid()
      ensures Valid() && fresh(res) && err == None
      ensures Is(res.rows, entries, (ev: Event) => HasPair(ev, pair))
    {
      err := None;
      assert RowsOf(annotations, pair) == Annotated(entries, pair);
      hide RoaringIndex.RowsExact, RoaringIndex.PostingsExact;
      if pair in annotations {
        res := annotations[pair].Clone();
      } else {
        res := new Bitmap({});
      }
    }
  }

  /** The values that a comparison of a time column keeps. */
  ghost function KeptBy(values: map<Row, int64>, op: Compare.Operation, v: int64, s: set<Row>): set<Row>
    requires s <= values.Keys
  {
    set r | r in s && if op == Compare.LE then values[r] <= v else values[r] >= v
  }

  lemma SelectBy(b: BSI, values: map<Row, int64>, op: Compare.Operation, v: int64, s: set<Row>)
    requires Holding(b, values) && s <= values.Keys && op in {Compare.LE, Compare.GE}
    ensures |b.bA| <= 64 && b.eBM == values.Keys
    ensures Select(b.bA, op, v, 0, s) == KeptBy(values, op, v, s)
  {}

  lemma Overlapping(es: seq<Entry>, startTime: Instant, endTime: Instant, f: Filter, found: set<Row>)
    requires |es| <= 0x1_0000_0000
    requires Is(found, es, ev => Sat(f, ev))
    ensures Starts(es).Keys == Ends(es).Keys == Rows(|es|) && found <= Rows(|es|)
    ensures KeptBy(Ends(es), Compare.GE, Unix(startTime), KeptBy(Starts(es), Compare.LE, Unix(endTime), found))
         == QueryRows(es, startTime, endTime, f)
  {}

  /** The rows whose event has a property. */
  ghost predicate Is(rows: set<Row>, es: seq<Entry>, p: Event -> bool) {
    forall r :: r in rows <==> 0 <= r < |es| && p(es[r].event)
  }

  lemma NoSequences(ss: seq<Sequence>)
    requires ss == []
    ensures !Constrains(Expression(ss)) && forall ev :: Holds(Expression(ss), ev)
  {}

  lemma NoFactors(fs: seq<Factor>)
    requires fs == []
    ensures !SequenceConstrains(Sequence(fs)) && forall ev :: SequenceHolds(Sequence(fs), ev)
  {}

  lemma NoTerms(ts: seq<Term>)
    requires ts == []
    ensures !FactorConstrains(Factor(ts)) && forall ev :: !FactorHolds(Factor(ts), ev)
  {}

  method AddTags(tags: map<string, Bitmap>, ts: seq<string>, index: Row,
    ghost repr: set<Bitmap>, ghost before: seq<Entry>, ghost entry: Entry)
    returns (r: map<string, Bitmap>, ghost repr': set<Bitmap>)
    requires ts == entry.event.tags && index == |before| && TagsExact(tags, repr, before)
    modifies repr
    ensures TagsExact(r, repr', before + [entry]) && repr <= repr' && fresh(repr' - repr)
  {
    r, repr' := AddEach(tags, ts, index, repr);
    forall t ensures RowsOf(r, t) == Tagged(before + [entry], t) { AppendedTag(before, entry, t); }
  }

  method AddEach(tags: map<string, Bitmap>, ts: seq<string>, index: Row, ghost repr: set<Bitmap>)
    returns (r: map<string, Bitmap>, ghost repr': set<Bitmap>)
    requires Owned(tags, repr)
    modifies repr
    ensures Owned(r, repr') && repr <= repr' && fresh(repr' - repr)
    ensures forall t :: RowsOf(r, t) == old(RowsOf(tags, t)) + if t in ts then {index} else {}
  {
    r, repr' := tags, repr;
    var i := 0;
    while i < |ts|
      invariant 0 <= i <= |ts|
      invariant Owned(r, repr') && repr <= repr' && fresh(repr' - repr)
      invariant forall t :: RowsOf(r, t) == old(RowsOf(tags, t)) + if t in ts[..i] then {index} else {}
    {
      r, repr' := AddPosting(r, ts[i], index, repr');
      assert ts[..i + 1] == ts[..i] + [ts[i]];
      i := i + 1;
    }
    assert ts[..|ts|] == ts;
  }

  method AddPairs(annotations: map<Pair, Bitmap>, anns: map<string, string>, index: Row,
    ghost repr: set<Bitmap>, ghost before: seq<Entry>, ghost entry: Entry)
    returns (r: map<Pair, Bitmap>, ghost repr': set<Bitmap>)
    requires anns == entry.event.annotations && index == |before| && AnnotationsExact(annotations, repr, before)
    modifies repr
    ensures AnnotationsExact(r, repr', before + [entry]) && repr <= repr' && fresh(repr' - repr)
  {
    r, repr' := AddEachPair(annotations, anns, index, repr);
    forall p ensures RowsOf(r, p) == Annotated(before + [entry], p) { AppendedPair(before, entry, p); }
  }

  method AddEachPair(annotations: map<Pair, Bitmap>, anns: map<string, string>, index: Row, ghost repr: set<Bitmap>)
    returns (r: map<Pair, Bitmap>, ghost repr': set<Bitmap>)
    requires Owned(annotations, repr)
    modifies repr
    ensures Owned(r, repr') && repr <= repr' && fresh(repr' - repr)
    ensures forall p :: RowsOf(r, p)
                     == old(RowsOf(annotations, p)) + if p.key in anns && anns[p.key] == p.value then {index} else {}
  {
    r, repr' := annotations, repr;
    var pending := anns.Keys;
    while pending != {}
      invariant pending <= anns.Keys
      invariant Owned(r, repr') && repr <= repr' && fresh(repr' - repr)
      invariant forall p :: RowsOf(r, p) == old(RowsOf(annotations, p)) +
                  if p.key in anns.Keys - pending && anns[p.key] == p.value then {index} else {}
    {
      var k :| k in pending;
      r, repr' := AddPosting(r, Pair(k, anns[k]), index, repr');
      pending := pending - {k};
    }
  }

  lemma EmptyIndex(b: BSI)
    ensures b.Valid() && b.AutoSized() && b.bA == [] && b.eBM == {} ==> Holding(b, map[])
    ensures Starts([]) == Ends([]) == map[]
    ensures TagsExact(map[], {}, []) && AnnotationsExact(map[], {}, []) && Keyed([], [], map[])
  {}

  // How the meaning of an index grows with a row.

  lemma AppendedKey(keys: seq<EventKey>, es: seq<Entry>, indexes: map<EventKey, Row>, e: Entry)
    requires Keyed(keys, es, indexes) && |es| < 0x1_0000_0000
    ensures |keys| == |es| && Keyed(keys + [EntryKey(e)], es + [e], indexes[EntryKey(e) := |keys|])
    ensures Rows(|es| + 1) == Rows(|es|) + {|es|}
  {}

  lemma AppendedStart(es: seq<Entry>, e: Entry)
    requires |es| < 0x1_0000_0000
    ensures Starts(es + [e]) == Starts(es)[|es| := Unix(e.event.startTime)]
  {}

  lemma AppendedEnd(es: seq<Entry>, e: Entry)
    requires |es| < 0x1_0000_0000
    ensures Ends(es + [e]) == Ends(es)[|es| := Unix(e.event.endTime)]
  {}

  lemma AppendedTag(es: seq<Entry>, e: Entry, t: string)
    requires |es| < 0x1_0000_0000
    ensures Tagged(es + [e], t) == Tagged(es, t) + if t in e.event.tags then {|es|} else {}
  {}

  lemma AppendedPair(es: seq<Entry>, e: Entry, p: Pair)
    requires |es| < 0x1_0000_0000
    ensures Annotated(es + [e], p) == Annotated(es, p) + if HasPair(e.event, p) then {|es|} else {}
  {}
}
