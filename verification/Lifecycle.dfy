/** Writer, flusher and reader as interleaved atomic steps over the memtable, the pending indices and
    the levels. */
module Lifecycle {
  import opened Words
  import opened Wrappers
  import opened Keys
  import opened Levels

  /** What tells the entries of a memtable apart. */
  datatype Version = Version(startTime: Instant, id: string, timestamp: uint64)

  function VersionOf(k: EventKey): Version {
    Version(k.startTime, k.id, k.timestamp)
  }

  /** The skiplist files two keys under one entry exactly when they are of the same version. */
  lemma SameEntry(a: EventKey, b: EventKey)
    ensures MemTableCompare(a, b) == 0 <==> VersionOf(a) == VersionOf(b)
  {
    MemTableOrder(b, a);
    TimestampOrder(b, a);
  }

  /** A pending index: its identity and its rows. */
  datatype Pending = Pending(id: nat, rows: multiset<Version>)

  datatype Writer =
    | Idle
    | Rotating(retired: nat, batch: seq<Version>)                 // between the stores of `cur` and `pen`
    | Filling(todo: seq<Version>, batch: seq<Version>)
    | Removing(ri: Pending)                                        // between receiving an index and removing it

  datatype Flusher =
    | Waiting
    | Merging(queue: seq<Pending>)
    | Sending(ri: Pending, queue: seq<Pending>)                    // merged into the levels, not yet received

  /** A reader and the snapshots it has loaded so far. */
  datatype Reader = Reader(
    loads: nat,
    cur: nat,
    pen: seq<Pending>,
    levels: seq<Level<Version>>,
    expected: set<Version>,        // acknowledged when it loaded `cur`
    published: seq<Pending>,        // stored in `pen` at some time before it loaded `pen`
    rotationAtCur: Option<nat>,     // the table being retired at the loads of `cur` and `pen`
    rotationAtPen: Option<nat>,
    done: seq<Pending>)             // merged before it loaded `levels`

  datatype State = State(
    tables: map<nat, set<Version>>,
    nextTable: nat,
    cur: nat,
    pen: seq<Pending>,
    levels: seq<Level<Version>>,
    writer: Writer,
    flusher: Flusher,
    reader: Reader,
    acked: set<Version>,
    created: seq<Pending>,          // every index ever stored in `pen`
    merged: seq<Pending>,           // every index merged into the levels, in order
    capacity: nat)                  // the size at which a memtable is retired

  datatype Step =
    | Begin(batch: seq<Version>)
    | Publish
    | Put
    | Ack
    | Receive
    | Remove
    | LoadQueue
    | Merge
    | Drained
    | ReadCur
    | ReadPen
    | ReadLevels

  function Init(capacity: nat): State {
    State(map[0 := {}], 1, 0, [], [None, None, None, None], Idle, Waiting,
          Reader(0, 0, [], [], {}, [], None, None, []), {}, [], [], capacity)
  }

  /** The first occurrence of an index is taken out, as the writer's search does. */
  function RemoveFirst(pen: seq<Pending>, ri: Pending): seq<Pending> {
    if pen == [] then []
    else if pen[0] == ri then pen[1..]
    else [pen[0]] + RemoveFirst(pen[1..], ri)
  }

  predicate Enabled(s: State, step: Step) {
    match step
    case Begin(_) => s.writer.Idle? && s.cur in s.tables
    case Publish => s.writer.Rotating? && s.writer.retired in s.tables
    case Put => s.writer.Filling? && s.writer.todo != [] && s.cur in s.tables
    case Ack => s.writer.Filling? && s.writer.todo == []
    case Receive => s.writer.Idle? && s.flusher.Sending?
    case Remove => s.writer.Removing?
    case LoadQueue => s.flusher.Waiting?
    case Merge => s.flusher.Merging? && s.flusher.queue != [] && |s.levels| == LEVELS
    case Drained => s.flusher == Merging([])
    case ReadCur => s.reader.loads == 0
    case ReadPen => s.reader.loads == 1
    case ReadLevels => s.reader.loads == 2
  }

  /** The table that is between the two stores of a rotation. */
  function Rotation(s: State): Option<nat> {
    if s.writer.Rotating? then Some(s.writer.retired) else None
  }

  function Apply(s: State, step: Step): State
    requires Enabled(s, step)
  {
    match step
    case Begin(batch) =>
      if |s.tables[s.cur]| >= s.capacity then
        s.(tables := s.tables[s.nextTable := {}], nextTable := s.nextTable + 1, cur := s.nextTable, writer := Rotating(s.cur, batch))
      else
        s.(writer := Filling(batch, batch))
    case Publish =>
      var p := Pending(|s.created|, multiset(s.tables[s.writer.retired]));
      s.(pen := s.pen + [p], created := s.created + [p], writer := Filling(s.writer.batch, s.writer.batch))
    case Put =>
      s.(tables := s.tables[s.cur := s.tables[s.cur] + {s.writer.todo[0]}],
         writer := Filling(s.writer.todo[1..], s.writer.batch))
    case Ack =>
      s.(acked := s.acked + (set k | k in s.writer.batch), writer := Idle)
    case Receive =>
      s.(flusher := Merging(s.flusher.queue), writer := Removing(s.flusher.ri))
    case Remove =>
      s.(pen := RemoveFirst(s.pen, s.writer.ri), writer := Idle)
    case LoadQueue =>
      s.(flusher := Merging(s.pen))
    case Merge =>
      var ri := s.flusher.queue[0];
      s.(levels := MergeRows(s.levels, ri.rows), merged := s.merged + [ri], flusher := Sending(ri, s.flusher.queue[1..]))
    case Drained =>
      s.(flusher := Waiting)
    case ReadCur =>
      s.(reader := s.reader.(loads := 1, cur := s.cur, expected := s.acked, rotationAtCur := Rotation(s)))
    case ReadPen =>
      s.(reader := s.reader.(loads := 2, pen := s.pen, published := s.created, rotationAtPen := Rotation(s)))
    case ReadLevels =>
      s.(reader := s.reader.(loads := 3, levels := s.levels, done := s.merged))
  }

  predicate CanRun(s: State, steps: seq<Step>)
    decreases |steps|
  {
    steps == [] || (Enabled(s, steps[0]) && CanRun(Apply(s, steps[0]), steps[1..]))
  }

  function Run(s: State, steps: seq<Step>): State
    requires CanRun(s, steps)
    decreases |steps|
  {
    if steps == [] then s else Run(Apply(s, steps[0]), steps[1..])
  }

  /** No batch of the run repeats a version that is in a table already: commit timestamps do not repeat. */
  predicate Fresh(s: State, steps: seq<Step>)
    requires CanRun(s, steps)
    decreases |steps|
  {
    steps == [] || (NewBatch(s, steps[0]) && Fresh(Apply(s, steps[0]), steps[1..]))
  }

  predicate NewBatch(s: State, step: Step) {
    step.Begin? ==> forall t, k | t in s.tables && k in step.batch :: k !in s.tables[t]
  }

  // Nothing acknowledged gets lost.

  ghost predicate InPen(pen: seq<Pending>, k: Version) {
    exists i :: 0 <= i < |pen| && k in pen[i].rows
  }

  /** Pending or merged: where an index keeps its rows once it was published. */
  ghost predicate Indexed(s: State, k: Version) {
    InPen(s.pen, k) || k in AllRows(s.levels)
  }

  ghost predicate Stored(s: State, k: Version) {
    || (s.cur in s.tables && k in s.tables[s.cur])
    || (s.writer.Rotating? && s.writer.retired in s.tables && k in s.tables[s.writer.retired])
    || Indexed(s, k)
  }

  ghost predicate InTable(s: State, t: nat, k: Version) {
    t in s.tables && k in s.tables[t]
  }

  ghost predicate RowsMerged(s: State, p: Pending) {
    forall k :: k in p.rows ==> k in AllRows(s.levels)
  }

  /** The first two loads fall between the two stores of one rotation. */
  predicate InWindow(r: Reader) {
    r.rotationAtCur.Some? && r.rotationAtPen == r.rotationAtCur
  }

  /** Version `k` is in the table that is retired around the first two loads. */
  ghost predicate Retired(s: State, k: Version) {
    InWindow(s.reader) && InTable(s, s.reader.rotationAtCur.value, k)
  }

  /** What a reader can still rely on after its first loads. */
  ghost predicate Promised(s: State, k: Version) {
    var r := s.reader;
    InTable(s, r.cur, k) || match r.loads
      case 1 =>
        Indexed(s, k) || (r.rotationAtCur.Some? && s.writer.Rotating? && s.writer.retired == r.rotationAtCur.value
                          && InTable(s, r.rotationAtCur.value, k))
      case 2 =>
        InPen(r.pen, k) || k in AllRows(s.levels) || Retired(s, k)
      case _ =>
        InPen(r.pen, k) || k in AllRows(r.levels) || Retired(s, k)
  }

  /** An index published before the reader's second load is in one of its snapshots, or will be. */
  ghost predicate Caught(s: State, p: Pending) {
    p in s.reader.pen || forall k :: k in p.rows ==> k in AllRows(if s.reader.loads == 3 then s.reader.levels else s.levels)
  }

  ghost predicate Shape(s: State) {
    && |s.levels| == LEVELS && s.cur in s.tables && s.reader.loads <= 3
    && (forall t :: t in s.tables ==> t < s.nextTable)
    && (s.writer.Rotating? ==> s.writer.retired in s.tables && s.writer.retired != s.cur)
    && (s.reader.loads >= 1 ==> s.reader.cur in s.tables)
  }

  /** An index on its way to the writer, or being removed by it, is in the levels. */
  ghost predicate OnTheWay(s: State) {
    && (s.flusher.Sending? ==> RowsMerged(s, s.flusher.ri))
    && (s.writer.Removing? ==> RowsMerged(s, s.writer.ri))
  }

  ghost predicate AckedStored(s: State) {
    && (forall k :: k in s.acked ==> Stored(s, k))
    && (s.writer.Filling? ==> forall k :: k in s.writer.batch ==> k in s.writer.todo || Stored(s, k))
  }

  ghost predicate CreatedKept(s: State) {
    forall p :: p in s.created ==> p in s.pen || RowsMerged(s, p)
  }

  ghost predicate ReaderServed(s: State) {
    && (s.reader.loads >= 1 ==> forall k :: k in s.reader.expected ==> Promised(s, k))
    && (s.reader.loads >= 2 ==> forall p :: p in s.reader.published ==> Caught(s, p))
  }

  ghost predicate Inv(s: State) {
    Shape(s) && OnTheWay(s) && AckedStored(s) && CreatedKept(s) && ReaderServed(s)
  }

  lemma {:induction false} RemoveFirstKeeps(pen: seq<Pending>, ri: Pending, p: Pending)
    ensures p in RemoveFirst(pen, ri) ==> p in pen
    ensures p in pen && p != ri ==> p in RemoveFirst(pen, ri)
  {
    if pen != [] && pen[0] != ri { RemoveFirstKeeps(pen[1..], ri, p); }
  }

  /** Removing an index whose rows are merged leaves every row indexed. */
  lemma RemovedStaysIndexed(s: State, t: State, ri: Pending, k: Version)
    requires t.pen == RemoveFirst(s.pen, ri) && t.levels == s.levels && RowsMerged(s, ri)
    ensures Indexed(s, k) ==> Indexed(t, k)
  {
    if InPen(s.pen, k) {
      var i :| 0 <= i < |s.pen| && k in s.pen[i].rows;
      var p := s.pen[i];
      RemoveFirstKeeps(s.pen, ri, p);
      if p != ri {
        var j :| 0 <= j < |t.pen| && t.pen[j] == p;
        assert InPen(t.pen, k);
      }
    }
  }

  lemma {:induction false} InitInv(capacity: nat)
    ensures Inv(Init(capacity))
  {}

  /** The levels never lose a row. */
  lemma LevelsGrow(s: State, step: Step)
    requires Enabled(s, step)
    ensures var t := Apply(s, step);
      (step.Merge? ==> AllRows(t.levels) == AllRows(s.levels) + s.flusher.queue[0].rows)
      && (!step.Merge? ==> t.levels == s.levels)
      && forall k :: k in AllRows(s.levels) ==> k in AllRows(t.levels)
  {
    if step.Merge? {
      MergeKeepsLevels(s.levels, s.flusher.queue[0].rows);
    }
  }

  /** Tables only grow. */
  lemma TablesGrow(s: State, step: Step, t: nat, k: Version)
    requires Shape(s) && Enabled(s, step) && InTable(s, t, k)
    ensures InTable(Apply(s, step), t, k)
  {
    hide MergeRows;
  }

  /** What is pending or merged stays so. */
  lemma IndexedStays(s: State, step: Step, k: Version)
    requires OnTheWay(s) && Enabled(s, step) && Indexed(s, k)
    ensures Indexed(Apply(s, step), k)
  {
    var t := Apply(s, step);
    LevelsGrow(s, step);
    hide MergeRows, AllRows;
    if step.Remove? {
      RemovedStaysIndexed(s, t, s.writer.ri, k);
    } else if InPen(s.pen, k) {
      var i :| 0 <= i < |s.pen| && k in s.pen[i].rows;
      assert t.pen[i] == s.pen[i];
    }
  }

  /** Publishing makes every row of the retired table pending. */
  lemma PublishIndexes(s: State, k: Version)
    requires Enabled(s, Publish) && k in s.tables[s.writer.retired]
    ensures Indexed(Apply(s, Publish), k)
  {
    var t := Apply(s, Publish);
    assert k in t.pen[|s.pen|].rows;
  }

  lemma StoredStays(s: State, step: Step, k: Version)
    requires Shape(s) && OnTheWay(s) && Enabled(s, step) && Stored(s, k)
    ensures Stored(Apply(s, step), k)
  {
    if Indexed(s, k) {
      IndexedStays(s, step, k);
    } else if InTable(s, s.cur, k) {
      TablesGrow(s, step, s.cur, k);
    } else if step.Publish? {
      PublishIndexes(s, k);
    }
    hide Indexed, MergeRows;
  }

  /** What a reader can still rely on after its first loads survives every later step. */
  lemma PromisedStays(s: State, step: Step, k: Version)
    requires Shape(s) && OnTheWay(s) && Enabled(s, step) && s.reader.loads >= 1 && Promised(s, k)
    ensures Promised(Apply(s, step), k)
  {
    LevelsGrow(s, step);
    if InTable(s, s.reader.cur, k) {
      TablesGrow(s, step, s.reader.cur, k);
    } else if s.reader.loads == 1 && Indexed(s, k) {
      IndexedStays(s, step, k);
    } else if s.reader.loads == 1 {
      TablesGrow(s, step, s.reader.rotationAtCur.value, k);
      if step.Publish? { PublishIndexes(s, k); }
    } else if Retired(s, k) {
      TablesGrow(s, step, s.reader.rotationAtCur.value, k);
    }
    hide MergeRows, AllRows, InPen;
  }

  /** The first load: every acknowledged item is in the loaded table, in the one being retired, or indexed. */
  lemma ReadCurPromises(s: State, k: Version)
    requires Enabled(s, ReadCur) && Stored(s, k)
    ensures Promised(Apply(s, ReadCur), k)
  {}

  // Every step keeps every part of the invariant.

  lemma ShapeStays(s: State, step: Step)
    requires Shape(s) && Enabled(s, step)
    ensures Shape(Apply(s, step))
  {
    hide MergeRows;
  }

  lemma OnTheWayStays(s: State, step: Step)
    requires OnTheWay(s) && Enabled(s, step)
    ensures OnTheWay(Apply(s, step))
  {
    LevelsGrow(s, step);
    hide MergeRows, AllRows;
  }

  lemma AckedStays(s: State, step: Step)
    requires Shape(s) && OnTheWay(s) && AckedStored(s) && Enabled(s, step)
    ensures AckedStored(Apply(s, step))
  {
    var t := Apply(s, step);
    forall k | Stored(s, k) ensures Stored(t, k) { StoredStays(s, step, k); }
    if step.Put? {
      assert forall k :: k in s.writer.todo ==> k == s.writer.todo[0] || k in t.writer.todo;
      assert Stored(t, s.writer.todo[0]);
    }
    hide Stored, MergeRows;
  }

  lemma CreatedStays(s: State, step: Step)
    requires OnTheWay(s) && CreatedKept(s) && Enabled(s, step)
    ensures CreatedKept(Apply(s, step))
  {
    var t := Apply(s, step);
    LevelsGrow(s, step);
    hide MergeRows, AllRows;
    forall p | p in t.created ensures p in t.pen || RowsMerged(t, p) {
      if step.Publish? {
        assert t.pen[|s.pen|] in t.pen;
      } else if step.Remove? {
        RemoveFirstKeeps(s.pen, s.writer.ri, p);
      }
    }
  }

  lemma CaughtStays(s: State, step: Step, p: Pending)
    requires CreatedKept(s) && ReaderServed(s) && Enabled(s, step)
    requires Apply(s, step).reader.loads >= 2 && p in Apply(s, step).reader.published
    ensures Caught(Apply(s, step), p)
  {
    LevelsGrow(s, step);
    if step.ReadPen? {
      assert p in s.created;
    } else {
      assert Caught(s, p);
    }
    hide AllRows, MergeRows, CreatedKept, ReaderServed, Promised;
  }

  lemma ReaderStays(s: State, step: Step)
    requires Inv(s) && Enabled(s, step)
    ensures ReaderServed(Apply(s, step))
  {
    var t := Apply(s, step);
    forall k | t.reader.loads >= 1 && k in t.reader.expected ensures Promised(t, k) {
      if step.ReadCur? { ReadCurPromises(s, k); } else { PromisedStays(s, step, k); }
    }
    forall p | t.reader.loads >= 2 && p in t.reader.published ensures Caught(t, p) { CaughtStays(s, step, p); }
    hide *;
  }

  lemma StepInv(s: State, step: Step)
    requires Inv(s) && Enabled(s, step)
    ensures Inv(Apply(s, step))
  {
    hide Shape, OnTheWay, AckedStored, CreatedKept, ReaderServed, Apply, Enabled;
    ShapeStays(s, step);
    OnTheWayStays(s, step);
    AckedStays(s, step);
    CreatedStays(s, step);
    ReaderStays(s, step);
  }

  lemma {:induction false} RunInv(s: State, steps: seq<Step>)
    requires Inv(s) && CanRun(s, steps)
    ensures Inv(Run(s, steps))
    decreases |steps|
  {
    if steps != [] {
      StepInv(s, steps[0]);
      RunInv(Apply(s, steps[0]), steps[1..]);
    }
  }

  /** What a reader that has made its three loads sees. */
  ghost predicate InView(s: State, k: Version) {
    InTable(s, s.reader.cur, k) || InPen(s.reader.pen, k) || k in AllRows(s.reader.levels)
  }

  /** In every run, a reader sees every item acknowledged before it began, except those of a table that is
      retired around its first two loads. */
  lemma ReaderSeesAcknowledged(capacity: nat, steps: seq<Step>, k: Version)
    requires CanRun(Init(capacity), steps)
    ensures var s := Run(Init(capacity), steps);
      s.reader.loads == 3 && k in s.reader.expected && !Retired(s, k) ==> InView(s, k)
  {
    InitInv(capacity);
    RunInv(Init(capacity), steps);
  }

  /** The exception is real: from every state in which the table is full, a reader can miss what is in it. */
  lemma ReaderMayMiss(s: State, batch: seq<Version>, k: Version)
    requires Inv(s) && s.writer.Idle? && s.reader.loads == 0 && |s.tables[s.cur]| >= s.capacity
    requires k in s.acked && InTable(s, s.cur, k) && !Indexed(s, k)
    ensures CanRun(s, [Begin(batch), ReadCur, ReadPen, ReadLevels])
    ensures Fresh(s, [Begin(batch), ReadCur, ReadPen, ReadLevels]) <==> NewBatch(s, Begin(batch))
    ensures var t := Run(s, [Begin(batch), ReadCur, ReadPen, ReadLevels]);
      t.reader.loads == 3 && k in t.reader.expected && !InView(t, k)
  {
    hide AllRows, MergeRows, OnTheWay, AckedStored, CreatedKept, ReaderServed;
    var s1 := Apply(s, Begin(batch));
    var s2 := Apply(s1, ReadCur);
    var s3 := Apply(s2, ReadPen);
    var s4 := Apply(s3, ReadLevels);
    assert CanRun(s4, []) && Run(s4, []) == s4;
    hide CanRun, Run;
    Chain(s3, ReadLevels, []);
    Chain(s2, ReadPen, [ReadLevels]);
    Chain(s1, ReadCur, [ReadPen, ReadLevels]);
    Chain(s, Begin(batch), [ReadCur, ReadPen, ReadLevels]);
  }

  lemma Chain(s: State, step: Step, rest: seq<Step>)
    requires Enabled(s, step) && CanRun(Apply(s, step), rest)
    ensures CanRun(s, [step] + rest) && Run(s, [step] + rest) == Run(Apply(s, step), rest)
    ensures Fresh(s, [step] + rest) <==> NewBatch(s, step) && Fresh(Apply(s, step), rest)
  {
    assert ([step] + rest)[1..] == rest;
  }

  lemma {:induction false} RunAppend(s: State, a: seq<Step>, b: seq<Step>)
    requires CanRun(s, a) && CanRun(Run(s, a), b)
    ensures CanRun(s, a + b) && Run(s, a + b) == Run(Run(s, a), b)
    ensures Fresh(s, a + b) <==> Fresh(s, a) && Fresh(Run(s, a), b)
    decreases |a|
  {
    if a == [] {
      assert a + b == b;
    } else {
      assert (a + b)[1..] == a[1..] + b;
      RunAppend(Apply(s, a[0]), a[1..], b);
    }
  }

  /** The writer can always finish a batch. */
  lemma {:induction false} PutAll(s: State) returns (steps: seq<Step>)
    requires s.writer.Filling? && s.cur in s.tables
    ensures CanRun(s, steps) && Fresh(s, steps)
    ensures Run(s, steps) == s.(tables := s.tables[s.cur := s.tables[s.cur] + (set k | k in s.writer.todo)],
                                writer := Filling([], s.writer.batch))
    decreases |s.writer.todo|
  {
    PutRest(s.tables[s.cur], s.writer.todo);
    if s.writer.todo == [] {
      steps := [];
    } else {
      var rest := PutAll(Apply(s, Put));
      steps := [Put] + rest;
      Chain(s, Put, rest);
    }
  }

  lemma PutRest(table: set<Version>, todo: seq<Version>)
    ensures table + (set k | k in todo)
         == if todo == [] then table else (table + {todo[0]}) + (set k | k in todo[1..])
  {}

  lemma {:induction false} DistinctCard(xs: seq<Version>)
    requires forall i, j :: 0 <= i < j < |xs| ==> xs[i] != xs[j]
    ensures |set k | k in xs| == |xs|
  {
    if xs != [] {
      DistinctCard(xs[1..]);
      assert (set k | k in xs) == {xs[0]} + (set k | k in xs[1..]);
    }
  }

  /** A run from the start to a full memtable of acknowledged items. */
  lemma FillTable(capacity: nat) returns (steps: seq<Step>, k: Version)
    requires 0 < capacity <= 0x1_0000_0000_0000_0000
    ensures CanRun(Init(capacity), steps) && Fresh(Init(capacity), steps)
    ensures var s := Run(Init(capacity), steps);
      && Inv(s) && s.writer.Idle? && s.reader.loads == 0 && |s.tables[s.cur]| >= s.capacity
      && s.flusher.Waiting? && s.pen == s.created == s.merged == []
      && k in s.acked && InTable(s, s.cur, k) && !Indexed(s, k)
  {
    var init := Init(capacity);
    var batch := seq(capacity, i requires 0 <= i < capacity => Version(0, "x", i));
    k := batch[0];
    DistinctCard(batch);
    InitInv(capacity);
    NoRows(init.levels);
    assert init.tables[0] == {};
    var s1 := Apply(init, Begin(batch));
    var puts := PutAll(s1);
    var s2 := Run(s1, puts);
    Chain(s2, Ack, []);
    RunAppend(s1, puts, [Ack]);
    Chain(init, Begin(batch), puts + [Ack]);
    steps := [Begin(batch)] + (puts + [Ack]);
    RunInv(init, steps);
    var s := Run(init, steps);
    assert s == Apply(s2, Ack);
    assert s2.tables[0] == set x | x in batch;
    assert !InPen(s.pen, k);
  }

  /** It does happen: with any memtable size there is a run in which a reader misses an acknowledged item. */
  lemma SomeReaderMisses(capacity: nat) returns (steps: seq<Step>, k: Version)
    requires 0 < capacity <= 0x1_0000_0000_0000_0000
    ensures CanRun(Init(capacity), steps) && Fresh(Init(capacity), steps)
    ensures var s := Run(Init(capacity), steps); s.reader.loads == 3 && k in s.reader.expected && !InView(s, k)
  {
    var fill;
    fill, k := FillTable(capacity);
    ReaderMayMiss(Run(Init(capacity), fill), [], k);
    RunAppend(Init(capacity), fill, [Begin([]), ReadCur, ReadPen, ReadLevels]);
    steps := fill + [Begin([]), ReadCur, ReadPen, ReadLevels];
  }

  /** In every run, an index once stored in `pen` is still there or merged into the levels, and every
      reader that loads `pen` later has its rows in one of its last two snapshots. */
  lemma PublishedIsKept(capacity: nat, steps: seq<Step>, p: Pending)
    requires CanRun(Init(capacity), steps)
    ensures var s := Run(Init(capacity), steps);
      && (p in s.created ==> p in s.pen || forall k :: k in p.rows ==> k in AllRows(s.levels))
      && (s.reader.loads == 3 && p in s.reader.published ==>
            p in s.reader.pen || forall k :: k in p.rows ==> k in AllRows(s.reader.levels))
  {
    InitInv(capacity);
    RunInv(Init(capacity), steps);
  }
}
