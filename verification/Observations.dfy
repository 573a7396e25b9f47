/** Runs told from outside: when tables are retired, and what a reader sees that loads at given moments. */
module Observations {
  import opened Wrappers
  import opened Levels
  import opened Lifecycle
  import opened MergedOnce
  import opened Readers

  // Tables are retired when they are full, and only then.

  ghost predicate AllFull(s: State, capacity: nat) {
    && s.capacity == capacity && Shape(s)
    && (forall p :: p in s.created ==> |p.rows| >= capacity)
    && (s.writer.Rotating? ==> |s.tables[s.writer.retired]| >= capacity)
  }

  lemma FullStays(s: State, step: Step, capacity: nat)
    requires AllFull(s, capacity) && Enabled(s, step)
    ensures AllFull(Apply(s, step), capacity)
  {
    ShapeStays(s, step);
    hide MergeRows, Shape;
    var t := Apply(s, step);
    if step.Publish? {
      var p := t.created[|s.created|];
      assert t.created == s.created + [p];
      assert p.rows == multiset(s.tables[s.writer.retired]);
      assert |p.rows| == |s.tables[s.writer.retired]|;
    }
  }

  lemma {:induction false} RunFull(s: State, steps: seq<Step>, capacity: nat)
    requires AllFull(s, capacity) && CanRun(s, steps)
    ensures AllFull(Run(s, steps), capacity)
    decreases |steps|
  {
    if steps != [] {
      FullStays(s, steps[0], capacity);
      RunFull(Apply(s, steps[0]), steps[1..], capacity);
    }
  }

  /** In every run, every index ever stored in `pen` and every table that is being retired has reached the size at
      which tables are retired; a batch that finds the table below it is written into that table, and one that does
      not is written into a new one. */
  lemma RetiredWhenFull(capacity: nat, steps: seq<Step>, batch: seq<Version>)
    requires CanRun(Init(capacity), steps)
    ensures var s := Run(Init(capacity), steps);
      && (forall p :: p in s.created ==> |p.rows| >= capacity)
      && (s.writer.Rotating? ==> s.writer.retired in s.tables && |s.tables[s.writer.retired]| >= capacity)
      && (s.writer.Idle? ==> s.cur in s.tables && Enabled(s, Begin(batch)))
    ensures var s := Run(Init(capacity), steps);
      s.writer.Idle? ==>
        var t := Apply(s, Begin(batch));
        if |s.tables[s.cur]| < capacity then t == s.(writer := Filling(batch, batch))
        else t.cur !in s.tables && t.tables == s.tables[t.cur := {}] && t.writer == Rotating(s.cur, batch)
             && t.pen == s.pen && t.created == s.created
  {
    RunFull(Init(capacity), steps, capacity);
  }

  // A reader that loads at given moments.

  /** Other steps leave what was loaded as it is. */
  lemma {:induction false} LoadsKept(s: State, steps: seq<Step>)
    requires CanRun(s, steps)
    ensures Run(s, steps).reader.loads >= s.reader.loads
    ensures Run(s, steps).reader.loads == s.reader.loads ==> Run(s, steps).reader == s.reader
    decreases |steps|
  {
    if steps != [] {
      LoadStep(s, steps[0]);
      LoadsKept(Apply(s, steps[0]), steps[1..]);
    }
  }

  lemma LoadStep(s: State, step: Step)
    requires Enabled(s, step)
    ensures Apply(s, step).reader.loads >= s.reader.loads
    ensures Apply(s, step).reader.loads == s.reader.loads ==> Apply(s, step).reader == s.reader
  {
    hide MergeRows;
  }

  /** `t` comes after `s`, by a step and others. */
  ghost predicate Follows(s: State, step: Step, steps: seq<Step>, t: State) {
    Enabled(s, step) && CanRun(Apply(s, step), steps) && t == Run(Apply(s, step), steps)
  }

  /** A run from the start in which a reader loads `cur` in `s0`, `pen` in `s1` and `levels` in `s2`. */
  ghost predicate Loads(capacity: nat, s0: State, s1: State, s2: State, s: State, a: seq<Step>, b: seq<Step>, c: seq<Step>, d: seq<Step>) {
    && CanRun(Init(capacity), a) && s0 == Run(Init(capacity), a)
    && Follows(s0, ReadCur, b, s1) && Follows(s1, ReadPen, c, s2) && Follows(s2, ReadLevels, d, s)
  }

  /** And no timestamp repeats in it. */
  ghost predicate FreshLoads(capacity: nat, s0: State, s1: State, s2: State, s: State, a: seq<Step>, b: seq<Step>, c: seq<Step>, d: seq<Step>)
    requires Loads(capacity, s0, s1, s2, s, a, b, c, d)
  {
    && Fresh(Init(capacity), a) && Fresh(Apply(s0, ReadCur), b) && Fresh(Apply(s1, ReadPen), c) && Fresh(Apply(s2, ReadLevels), d)
  }

  /** Such a run in one piece. */
  lemma WholeRun(capacity: nat, s0: State, s1: State, s2: State, s: State, a: seq<Step>, b: seq<Step>, c: seq<Step>, d: seq<Step>)
    returns (steps: seq<Step>)
    requires Loads(capacity, s0, s1, s2, s, a, b, c, d)
    ensures CanRun(Init(capacity), steps) && Run(Init(capacity), steps) == s
    ensures FreshLoads(capacity, s0, s1, s2, s, a, b, c, d) ==> Fresh(Init(capacity), steps)
  {
    hide CanRun, Run, Fresh, Apply, Enabled;
    Chain(s2, ReadLevels, d);
    var third := [ReadLevels] + d;
    RunAppend(Apply(s1, ReadPen), c, third);
    Chain(s1, ReadPen, c + third);
    var second := [ReadPen] + (c + third);
    RunAppend(Apply(s0, ReadCur), b, second);
    Chain(s0, ReadCur, b + second);
    var first := [ReadCur] + (b + second);
    RunAppend(Init(capacity), a, first);
    steps := a + first;
    assert NewBatch(s0, ReadCur) && NewBatch(s1, ReadPen) && NewBatch(s2, ReadLevels);
  }

  /** What the reader has then recorded. */
  lemma Recorded(capacity: nat, s0: State, s1: State, s2: State, s: State, a: seq<Step>, b: seq<Step>, c: seq<Step>, d: seq<Step>)
    requires Loads(capacity, s0, s1, s2, s, a, b, c, d)
    ensures var r := s.reader;
      && r.loads == 3 && r.cur == s0.cur && r.pen == s1.pen && r.levels == s2.levels
      && r.expected == s0.acked && r.published == s1.created && r.done == s2.merged
      && r.rotationAtCur == Rotation(s0) && r.rotationAtPen == Rotation(s1)
  {
    LoadsKept(Apply(s0, ReadCur), b);
    LoadsKept(Apply(s1, ReadPen), c);
    var steps := WholeRun(capacity, s0, s1, s2, s, a, b, c, d);
    InitInv(capacity);
    RunInv(Init(capacity), steps);
    LoadsKept(Apply(s2, ReadLevels), d);
    hide CanRun, Run, MergeRows, Inv;
    AtMostThree(s);
  }

  lemma AtMostThree(s: State)
    requires Inv(s)
    ensures s.reader.loads <= 3
  {}

  /** In every such run the reader sees an item that was acknowledged when it loaded `cur` (in that table, in the pending
      indices or in the levels that it loaded) if and only if this is not an item of a table that was being retired
      at that moment and still when it loaded `pen`, or the index made from that table had been merged when it loaded
      the levels. */
  lemma ReaderSeesThen(capacity: nat, s0: State, s1: State, s2: State, s: State, a: seq<Step>, b: seq<Step>, c: seq<Step>, d: seq<Step>, k: Version)
    requires capacity > 0 && Loads(capacity, s0, s1, s2, s, a, b, c, d) && FreshLoads(capacity, s0, s1, s2, s, a, b, c, d)
    requires k in s0.acked
    ensures ((s0.cur in s.tables && k in s.tables[s0.cur]) || InPen(s1.pen, k) || k in AllRows(s2.levels))
       <==> if s0.writer.Rotating? && s1.writer.Rotating? && s0.writer.retired == s1.writer.retired
               && s0.writer.retired in s.tables && k in s.tables[s0.writer.retired]
            then exists p :: p in s2.merged && p.rows == multiset(s.tables[s0.writer.retired])
            else true
  {
    var steps := WholeRun(capacity, s0, s1, s2, s, a, b, c, d);
    Recorded(capacity, s0, s1, s2, s, a, b, c, d);
    ReaderSeesIff(capacity, steps, k);
    hide Loads, FreshLoads, InPen, AllRows;
  }

  /** And every index that was ever pending by the time the reader loaded `pen` is pending there, or its rows are in
      the levels that it loaded. */
  lemma ReaderMissesNoIndex(capacity: nat, s0: State, s1: State, s2: State, s: State, a: seq<Step>, b: seq<Step>, c: seq<Step>, d: seq<Step>, p: Pending)
    requires Loads(capacity, s0, s1, s2, s, a, b, c, d) && p in s1.created
    ensures p in s1.pen || forall k :: k in p.rows ==> k in AllRows(s2.levels)
  {
    var steps := WholeRun(capacity, s0, s1, s2, s, a, b, c, d);
    Recorded(capacity, s0, s1, s2, s, a, b, c, d);
    PublishedIsKept(capacity, steps, p);
    hide Loads, AllRows;
  }
}
