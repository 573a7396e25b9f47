/** What exactly a reader sees of the items that were acknowledged before it began. */
module Readers {
  import opened Wrappers
  import opened Levels
  import opened Lifecycle
  import opened MergedOnce

  // Where versions are, when commit timestamps do not repeat.

  /** No version is in two tables. */
  ghost predicate Apart(s: State) {
    forall t, u, k :: InTable(s, t, k) && InTable(s, u, k) ==> t == u
  }

  /** The batch at hand is in no table but the current one. */
  ghost predicate BatchNew(s: State) {
    match s.writer
    case Rotating(_, batch) => forall k, t :: k in batch ==> !InTable(s, t, k)
    case Filling(todo, batch) => (forall k, t :: k in batch && InTable(s, t, k) ==> t == s.cur) && forall k :: k in todo ==> k in batch
    case _ => true
  }

  /** What is in the current table, or in the one being retired, is acknowledged or in the batch at hand. */
  ghost predicate Committed(s: State) {
    match s.writer
    case Rotating(t, _) => (forall k :: InTable(s, t, k) ==> k in s.acked) && forall k :: !InTable(s, s.cur, k)
    case Filling(_, batch) => forall k :: InTable(s, s.cur, k) ==> k in s.acked || k in batch
    case _ => forall k :: InTable(s, s.cur, k) ==> k in s.acked
  }

  /** A table that is no longer current and was published, or is about to be. */
  ghost predicate Past(s: State, t: nat) {
    t in s.tables && t != s.cur
  }

  /** The index was made from a table that was published. */
  ghost predicate FromTable(s: State, p: Pending, t: nat) {
    Past(s, t) && Rotation(s) != Some(t) && p.rows == multiset(s.tables[t])
  }

  ghost predicate Sourced(s: State) {
    forall p :: p in s.created ==> exists t :: FromTable(s, p, t)
  }

  /** Whatever is pending, queued or merged was stored in `pen` once. */
  ghost predicate Known(s: State) {
    && (forall p :: p in s.pen || p in s.merged || p in Queued(s) ==> p in s.created)
    && (s.flusher.Sending? ==> s.flusher.ri in s.created)
  }

  /** A table being retired has something in it. */
  ghost predicate NotEmpty(s: State) {
    s.capacity > 0 && (s.writer.Rotating? ==> exists k :: InTable(s, s.writer.retired, k))
  }

  /** The table that was being retired at the first load: all of it was acknowledged by then. */
  ghost predicate RetiredApart(s: State, t: nat) {
    && Past(s, t) && t != s.reader.cur && (exists k :: InTable(s, t, k))
    && (forall k :: InTable(s, t, k) ==> k in s.reader.expected)
    && (s.reader.loads >= 2 && InWindow(s.reader) ==> forall k :: InTable(s, t, k) ==> !InPen(s.reader.pen, k))
  }

  ghost predicate ReaderApart(s: State) {
    && (s.reader.loads >= 1 && s.reader.rotationAtCur.Some? ==> RetiredApart(s, s.reader.rotationAtCur.value))
    && (s.reader.loads < 2 ==> s.reader.rotationAtPen.None?)
    && (s.reader.loads == 3 ==> AllRows(s.reader.levels) == SumRows(s.reader.done) && forall p :: p in s.reader.done ==> p in s.created)
  }

  ghost predicate Tidy(s: State) {
    && Shape(s) && Accounted(s) && Apart(s) && BatchNew(s) && Committed(s) && Sourced(s) && Known(s) && NotEmpty(s)
    && ReaderApart(s)
  }

  lemma InitTidy(capacity: nat)
    requires capacity > 0
    ensures Tidy(Init(capacity))
  {
    NoRows(Init(capacity).levels);
  }

  /** A past table does not change, and stays past. */
  lemma PastStays(s: State, step: Step, t: nat)
    requires Shape(s) && Enabled(s, step) && Past(s, t)
    ensures var s' := Apply(s, step); Past(s', t) && s'.tables[t] == s.tables[t]
  {
    hide MergeRows;
  }

  /** What a table gets, it gets from the batch. */
  lemma InTableBefore(s: State, step: Step, t: nat, k: Version)
    requires Enabled(s, step) && InTable(Apply(s, step), t, k)
    ensures InTable(s, t, k) || (step.Put? && t == s.cur && k == s.writer.todo[0] && k in s.writer.todo)
  {
    hide MergeRows;
  }

  lemma ApartStays(s: State, step: Step)
    requires Apart(s) && BatchNew(s) && Enabled(s, step)
    ensures Apart(Apply(s, step))
  {
    var s' := Apply(s, step);
    hide Apply;
    forall t, u, k | InTable(s', t, k) && InTable(s', u, k) ensures t == u {
      InTableBefore(s, step, t, k);
      InTableBefore(s, step, u, k);
    }
  }

  lemma BatchStays(s: State, step: Step)
    requires Shape(s) && BatchNew(s) && Enabled(s, step) && NewBatch(s, step)
    ensures BatchNew(Apply(s, step))
  {
    hide MergeRows, Shape;
    var s' := Apply(s, step);
    forall t, k | InTable(s', t, k) ensures InTable(s, t, k) || (step.Put? && t == s.cur && k in s.writer.todo) {
      InTableBefore(s, step, t, k);
    }
  }

  lemma CommittedStays(s: State, step: Step)
    requires Shape(s) && BatchNew(s) && Committed(s) && Enabled(s, step)
    ensures Committed(Apply(s, step))
  {
    hide MergeRows;
    var s' := Apply(s, step);
    forall t, k | InTable(s', t, k) ensures InTable(s, t, k) || (step.Put? && t == s.cur && k in s.writer.todo) {
      InTableBefore(s, step, t, k);
    }
  }

  lemma SourcedStays(s: State, step: Step)
    requires Shape(s) && Sourced(s) && Enabled(s, step)
    ensures Sourced(Apply(s, step))
  {
    var s' := Apply(s, step);
    forall p | p in s'.created ensures exists t :: FromTable(s', p, t) {
      if p in s.created {
        var t :| FromTable(s, p, t);
        PastStays(s, step, t);
        assert FromTable(s', p, t);
      } else {
        assert FromTable(s', p, s.writer.retired);
      }
    }
  }

  lemma KnownStays(s: State, step: Step)
    requires Known(s) && Enabled(s, step)
    ensures Known(Apply(s, step))
  {
    hide MergeRows;
    if step.Remove? {
      forall p | p in RemoveFirst(s.pen, s.writer.ri) ensures p in s.pen { RemoveFirstKeeps(s.pen, s.writer.ri, p); }
    } else if step.Merge? {
      assert s.flusher.queue[0] in s.flusher.queue;
    }
  }

  lemma NotEmptyStays(s: State, step: Step)
    requires Shape(s) && NotEmpty(s) && Enabled(s, step)
    ensures NotEmpty(Apply(s, step))
  {
    hide MergeRows;
    var s' := Apply(s, step);
    if s'.writer.Rotating? {
      var k :| k in s.tables[s'.writer.retired];
      assert InTable(s', s'.writer.retired, k);
    }
  }

  /** The pending indices hold nothing of a table that is being retired. */
  lemma PenApart(s: State, k: Version)
    requires Shape(s) && Apart(s) && Sourced(s) && Known(s) && s.writer.Rotating? && InTable(s, s.writer.retired, k)
    ensures !InPen(s.pen, k)
  {
    if i :| 0 <= i < |s.pen| && k in s.pen[i].rows {
      assert s.pen[i] in s.created;
      var t :| FromTable(s, s.pen[i], t);
      assert InTable(s, t, k);
    }
  }

  lemma RetiredStays(s: State, step: Step)
    requires Tidy(s) && Enabled(s, step) && Apply(s, step).reader.loads >= 1 && Apply(s, step).reader.rotationAtCur.Some?
    ensures RetiredApart(Apply(s, step), Apply(s, step).reader.rotationAtCur.value)
  {
    var s' := Apply(s, step);
    var t := s'.reader.rotationAtCur.value;
    hide MergeRows, Accounted, InPen;
    if step.ReadCur? {
      forall k ensures InTable(s', t, k) <==> InTable(s, t, k) {}
      var k :| InTable(s, t, k);
      assert InTable(s', t, k);
    } else {
      PastStays(s, step, t);
      forall k ensures InTable(s', t, k) <==> InTable(s, t, k) {}
      if step.ReadPen? && InWindow(s'.reader) {
        forall k | InTable(s', t, k) ensures !InPen(s'.reader.pen, k) { PenApart(s, k); }
      }
    }
  }

  lemma ReaderApartStays(s: State, step: Step)
    requires Tidy(s) && Enabled(s, step)
    ensures ReaderApart(Apply(s, step))
  {
    var s' := Apply(s, step);
    hide MergeRows, AllRows;
    if s'.reader.loads >= 1 && s'.reader.rotationAtCur.Some? { RetiredStays(s, step); }
    hide RetiredApart, Apart, BatchNew, Committed, Sourced, NotEmpty;
  }

  lemma TidyStays(s: State, step: Step)
    requires Tidy(s) && Enabled(s, step) && NewBatch(s, step)
    ensures Tidy(Apply(s, step))
  {
    hide Shape, Accounted, Apart, BatchNew, Committed, Sourced, Known, NotEmpty, ReaderApart, Apply, Enabled;
    ShapeStays(s, step);
    AccountedStays(s, step);
    ApartStays(s, step);
    BatchStays(s, step);
    CommittedStays(s, step);
    SourcedStays(s, step);
    KnownStays(s, step);
    NotEmptyStays(s, step);
    ReaderApartStays(s, step);
  }

  lemma {:induction false} RunTidy(s: State, steps: seq<Step>)
    requires Tidy(s) && CanRun(s, steps) && Fresh(s, steps)
    ensures Tidy(Run(s, steps))
    decreases |steps|
  {
    hide Tidy, Enabled, Apply;
    if steps != [] {
      TidyStays(s, steps[0]);
      RunTidy(Apply(s, steps[0]), steps[1..]);
    }
  }

  // The exact condition.

  lemma {:induction false} SumMember(ps: seq<Pending>, k: Version)
    ensures k in SumRows(ps) <==> exists p :: p in ps && k in p.rows
  {
    if ps != [] {
      var init, last := ps[..|ps| - 1], ps[|ps| - 1];
      SumMember(init, k);
      assert forall p :: p in ps <==> p in init || p == last;
    }
  }

  /** The index made from the table that is retired around the first two loads was merged before the third. */
  ghost predicate RetiredMerged(s: State) {
    exists p :: p in s.reader.done && InWindow(s.reader) && s.reader.rotationAtCur.value in s.tables
                && p.rows == multiset(s.tables[s.reader.rotationAtCur.value])
  }

  /** In its third snapshot the reader has a version of the retired table exactly when it has the whole table. */
  lemma RetiredInLevels(s: State, k: Version)
    requires Tidy(s) && s.reader.loads == 3 && Retired(s, k)
    ensures k in AllRows(s.reader.levels) <==> RetiredMerged(s)
  {
    SumMember(s.reader.done, k);
    hide AllRows, Accounted, SumRows;
    if p :| p in s.reader.done && k in p.rows {
      var u :| FromTable(s, p, u);
      assert InTable(s, u, k);
    }
  }

  /** In every run in which no timestamp repeats: a reader that has made its loads sees an item acknowledged
      before it began exactly when this is not one of a table that is retired around its first two loads, or
      the index made from that table was merged before its third. */
  lemma ReaderSeesIff(capacity: nat, steps: seq<Step>, k: Version)
    requires capacity > 0 && CanRun(Init(capacity), steps) && Fresh(Init(capacity), steps)
    ensures var s := Run(Init(capacity), steps);
      s.reader.loads == 3 && k in s.reader.expected ==> (InView(s, k) <==> !Retired(s, k) || RetiredMerged(s))
  {
    var s := Run(Init(capacity), steps);
    InitTidy(capacity);
    RunTidy(Init(capacity), steps);
    ReaderSeesAcknowledged(capacity, steps, k);
    if s.reader.loads == 3 && Retired(s, k) {
      RetiredInLevels(s, k);
      RetiredUnseen(s, k);
    }
    hide AllRows, InPen, InTable, Tidy;
  }

  /** Neither the current table nor the pending indices show it. */
  lemma RetiredUnseen(s: State, k: Version)
    requires Tidy(s) && s.reader.loads == 3 && Retired(s, k)
    ensures k in s.reader.expected && !InTable(s, s.reader.cur, k) && !InPen(s.reader.pen, k)
  {
    hide AllRows, Accounted, SumRows, InPen;
  }

  ghost predicate SeesAll(s: State) {
    forall k :: k in s.reader.expected ==> InView(s, k)
  }

  /** So it sees all of them exactly when its first two loads do not both fall between the two stores of one
      rotation, or the retired table was merged before its third. */
  lemma ReaderSeesAllIff(capacity: nat, steps: seq<Step>)
    requires capacity > 0 && CanRun(Init(capacity), steps) && Fresh(Init(capacity), steps)
    ensures var s := Run(Init(capacity), steps);
      s.reader.loads == 3 ==> (SeesAll(s) <==> !InWindow(s.reader) || RetiredMerged(s))
  {
    var s := Run(Init(capacity), steps);
    InitTidy(capacity);
    RunTidy(Init(capacity), steps);
    if s.reader.loads == 3 {
      forall k | k in s.reader.expected ensures InView(s, k) <==> !Retired(s, k) || RetiredMerged(s) {
        ReaderSeesIff(capacity, steps, k);
      }
      if InWindow(s.reader) {
        var k := SomeRetired(s);
        RetiredUnseen(s, k);
      }
    }
    hide InView, RetiredMerged, Tidy;
  }

  lemma SomeRetired(s: State) returns (k: Version)
    requires Tidy(s) && s.reader.loads == 3 && InWindow(s.reader)
    ensures Retired(s, k)
  {
    k :| InTable(s, s.reader.rotationAtCur.value, k);
  }

  /** The flusher can be fast enough: with any memtable size there is a run in which the loads fall so and the
      reader sees everything all the same. */
  lemma SomeReaderSeesAll(capacity: nat) returns (steps: seq<Step>)
    requires 0 < capacity <= 0x1_0000_0000_0000_0000
    ensures CanRun(Init(capacity), steps) && Fresh(Init(capacity), steps)
    ensures var s := Run(Init(capacity), steps); s.reader.loads == 3 && InWindow(s.reader) && SeesAll(s)
  {
    var fill, k := FillTable(capacity);
    var s := Run(Init(capacity), fill);
    var rotate := ReadInRotation(s);
    var merge := MergeAndRead(Run(s, rotate));
    RunAppend(s, rotate, merge);
    RunAppend(Init(capacity), fill, rotate + merge);
    steps := fill + (rotate + merge);
    ReaderSeesAllIff(capacity, steps);
  }

  /** A rotation begins and the reader makes its first two loads. */
  lemma ReadInRotation(s: State) returns (steps: seq<Step>)
    requires Shape(s) && s.writer.Idle? && s.reader.loads == 0 && |s.tables[s.cur]| >= s.capacity
    ensures CanRun(s, steps) && Fresh(s, steps)
    ensures var t := Run(s, steps);
      && Shape(t) && t.reader.loads == 2 && InWindow(t.reader) && t.reader.rotationAtCur == Some(s.cur)
      && t.writer == Rotating(s.cur, []) && t.flusher == s.flusher && t.created == s.created && t.pen == s.pen && t.merged == s.merged
  {
    hide AllRows, MergeRows;
    var s1 := Apply(s, Begin([]));
    var s2 := Apply(s1, ReadCur);
    Chain(s2, ReadPen, []);
    Chain(s1, ReadCur, [ReadPen]);
    Chain(s, Begin([]), [ReadCur, ReadPen]);
    steps := [Begin([])] + [ReadCur, ReadPen];
  }

  /** The table is published and merged before the reader loads the levels. */
  lemma MergeAndRead(s: State) returns (steps: seq<Step>)
    requires Shape(s) && s.reader.loads == 2 && InWindow(s.reader)
    requires s.writer.Rotating? && s.reader.rotationAtCur == Some(s.writer.retired)
    requires s.flusher.Waiting? && s.pen == s.created == s.merged == []
    ensures CanRun(s, steps) && Fresh(s, steps)
    ensures var t := Run(s, steps); t.reader.loads == 3 && InWindow(t.reader) && RetiredMerged(t)
  {
    hide AllRows, MergeRows;
    var s1 := Apply(s, Publish);
    var s2 := Apply(s1, LoadQueue);
    var s3 := Apply(s2, Merge);
    var t := Apply(s3, ReadLevels);
    var p := Pending(0, multiset(s.tables[s.writer.retired]));
    assert s1.pen == [p] && t.reader.done == [p];
    assert p in t.reader.done && RetiredMerged(t);
    Chain(s3, ReadLevels, []);
    Chain(s2, Merge, [ReadLevels]);
    Chain(s1, LoadQueue, [Merge, ReadLevels]);
    Chain(s, Publish, [LoadQueue, Merge, ReadLevels]);
    steps := [Publish] + [LoadQueue, Merge, ReadLevels];
  }
}
