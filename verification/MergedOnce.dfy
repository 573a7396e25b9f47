/** How often an index is merged into the levels. */
module MergedOnce {
  import opened Levels
  import opened Lifecycle

  // What the levels hold.

  function SumRows(ps: seq<Pending>): multiset<Version> {
    if ps == [] then multiset{} else SumRows(ps[..|ps| - 1]) + ps[|ps| - 1].rows
  }

  /** The levels hold what was merged, and the upper ones have room. */
  ghost predicate Accounted(s: State) {
    |s.levels| == LEVELS && AllRows(s.levels) == SumRows(s.merged) && Settled(s.levels, LEVELS - 1)
  }

  lemma AccountedStays(s: State, step: Step)
    requires Accounted(s) && Enabled(s, step)
    ensures Accounted(Apply(s, step))
  {
    if step.Merge? {
      var ri := s.flusher.queue[0];
      MergeKeepsLevels(s.levels, ri.rows);
      assert (s.merged + [ri])[..|s.merged|] == s.merged;
    }
    hide MergeRows, AllRows;
  }

  lemma {:induction false} RunAccounted(s: State, steps: seq<Step>)
    requires Accounted(s) && CanRun(s, steps)
    ensures Accounted(Run(s, steps))
    decreases |steps|
  {
    if steps != [] {
      AccountedStays(s, steps[0]);
      RunAccounted(Apply(s, steps[0]), steps[1..]);
    }
  }

  /** In every run the upper levels are empty or below their limits, and the levels hold exactly the rows of
      the merged indices, as often as they were merged. */
  lemma LevelsHoldMerged(capacity: nat, steps: seq<Step>)
    requires CanRun(Init(capacity), steps)
    ensures var s := Run(Init(capacity), steps);
      && |s.levels| == 4 && Settled(s.levels, 3) && AllRows(s.levels) == SumRows(s.merged)
      && (s.levels[0].Some? ==> |s.levels[0].value| < 256_000)
      && (s.levels[1].Some? ==> |s.levels[1].value| < 1_024_000)
      && (s.levels[2].Some? ==> |s.levels[2].value| < 4_096_000)
  {
    NoRows(Init(capacity).levels);
    RunAccounted(Init(capacity), steps);
    hide AllRows, SumRows, Run, CanRun;
  }

  // When every index is merged once.

  ghost predicate Distinct(ps: seq<Pending>) {
    forall i, j :: 0 <= i < j < |ps| ==> ps[i] != ps[j]
  }

  /** What the flusher has still to merge. */
  function Queued(s: State): seq<Pending> {
    if s.flusher.Waiting? then [] else s.flusher.queue
  }

  /** The indices merged and those about to be. */
  function Scheduled(s: State): seq<Pending> {
    s.merged + Queued(s)
  }

  /** The flusher loads `pen` between the writer's receiving an index and its removing it. */
  predicate Hasty(s: State, step: Step) {
    step.LoadQueue? && s.writer.Removing?
  }

  predicate Orderly(s: State, steps: seq<Step>)
    requires CanRun(s, steps)
    decreases |steps|
  {
    steps == [] || (!Hasty(s, steps[0]) && Orderly(Apply(s, steps[0]), steps[1..]))
  }

  /** While no load is hasty, an index is pending and merged only on its way to the writer or in its hands,
      and nothing that is queued was merged. */
  ghost predicate Once(s: State) {
    && (forall i :: 0 <= i < |s.created| ==> s.created[i].id == i)
    && (forall p :: p in s.created <==> p in s.pen || p in s.merged)
    && Distinct(s.pen) && Distinct(s.merged) && Distinct(Queued(s))
    && (forall p :: p in Queued(s) ==> p in s.pen && p !in s.merged)
    && (forall p :: p in s.pen && p in s.merged ==> OnItsWay(s, p))
    && (s.flusher.Sending? ==> s.flusher.ri in s.merged && s.flusher.ri in s.pen)
    && (s.writer.Removing? ==> s.writer.ri in s.merged && s.writer.ri in s.pen)
    && (s.flusher.Sending? && s.writer.Removing? ==> s.flusher.ri != s.writer.ri)
  }

  predicate OnItsWay(s: State, p: Pending) {
    (s.flusher.Sending? && p == s.flusher.ri) || (s.writer.Removing? && p == s.writer.ri)
  }

  lemma {:induction false} RemoveFirstDistinct(pen: seq<Pending>, ri: Pending)
    requires Distinct(pen)
    ensures Distinct(RemoveFirst(pen, ri)) && ri !in RemoveFirst(pen, ri)
  {
    if pen != [] {
      var rest := RemoveFirst(pen[1..], ri);
      RemoveFirstDistinct(pen[1..], ri);
      if pen[0] != ri {
        forall j | 0 <= j < |rest| ensures rest[j] != pen[0] {
          RemoveFirstKeeps(pen[1..], ri, rest[j]);
          assert rest[j] in rest && rest[j] in pen[1..];
        }
      } else {
        assert ri !in pen[1..];
      }
    }
  }

  lemma OnceStays(s: State, step: Step)
    requires Once(s) && Enabled(s, step) && !Hasty(s, step)
    ensures Once(Apply(s, step))
  {
    hide MergeRows;
    match step {
      case Publish => PublishOnce(s);
      case Remove => RemoveOnce(s);
      case Merge => MergeOnce(s);
      case LoadQueue =>
      case _ =>
    }
  }

  lemma PublishOnce(s: State)
    requires Once(s) && Enabled(s, Publish)
    ensures Once(Apply(s, Publish))
  {
    var t := Apply(s, Publish);
    var p := t.created[|s.created|];
    assert forall i :: 0 <= i < |s.created| ==> s.created[i].id != p.id;
    assert p !in s.created;
    assert p !in s.pen && p !in s.merged;
    assert t.created == s.created + [p] && t.pen == s.pen + [p];
  }

  lemma RemoveOnce(s: State)
    requires Once(s) && Enabled(s, Remove)
    ensures Once(Apply(s, Remove))
  {
    var t, ri := Apply(s, Remove), s.writer.ri;
    RemoveFirstDistinct(s.pen, ri);
    forall p ensures p in t.pen <==> p in s.pen && p != ri { RemoveFirstKeeps(s.pen, ri, p); }
  }

  lemma MergeOnce(s: State)
    requires Once(s) && Enabled(s, Merge)
    ensures Once(Apply(s, Merge))
  {
    hide MergeRows;
    var t, q := Apply(s, Merge), s.flusher.queue;
    assert q[0] in q && t.merged == s.merged + [q[0]];
    forall p | p in q[1..] ensures p in q && p != q[0] { var i :| 0 < i < |q| && q[i] == p; }
  }

  lemma OnceIsDistinct(s: State)
    requires Once(s)
    ensures Distinct(Scheduled(s))
  {
    var m, q := s.merged, Queued(s);
    forall i, j | 0 <= i < j < |m + q| ensures (m + q)[i] != (m + q)[j] {
      if i < |m| <= j { assert m[i] in m && q[j - |m|] in q; }
    }
  }

  lemma HastyRepeats(s: State, step: Step)
    requires Once(s) && Enabled(s, step) && Hasty(s, step)
    ensures !Distinct(Scheduled(Apply(s, step)))
  {
    var ri, m, q := s.writer.ri, s.merged, s.pen;
    var i :| 0 <= i < |m| && m[i] == ri;
    var j :| 0 <= j < |q| && q[j] == ri;
    assert (m + q)[i] == (m + q)[|m| + j];
  }

  /** Only a load adds to the schedule. */
  lemma ScheduleStays(s: State, step: Step)
    requires Enabled(s, step) && !step.LoadQueue?
    ensures Scheduled(Apply(s, step)) == Scheduled(s)
  {
    hide MergeRows;
    if step.Merge? { MoveOne(s.merged, s.flusher.queue); }
  }

  lemma MoveOne<T>(a: seq<T>, b: seq<T>)
    requires b != []
    ensures (a + [b[0]]) + b[1..] == a + b
  {}

  /** Once repeated, always repeated. */
  lemma RepeatedStays(s: State, step: Step)
    requires !Distinct(Scheduled(s)) && Enabled(s, step)
    ensures !Distinct(Scheduled(Apply(s, step)))
  {
    hide Distinct, MergeRows;
    if step.LoadQueue? {
      assert Scheduled(s) == s.merged && Scheduled(Apply(s, step)) == s.merged + s.pen;
      if Distinct(s.merged + s.pen) { PrefixDistinct(s.merged, s.pen); }
    } else {
      ScheduleStays(s, step);
    }
  }

  lemma PrefixDistinct(a: seq<Pending>, b: seq<Pending>)
    requires Distinct(a + b)
    ensures Distinct(a)
  {
    forall i, j | 0 <= i < j < |a| ensures a[i] != a[j] { assert (a + b)[i] != (a + b)[j]; }
  }

  lemma {:induction false} RunRepeated(s: State, steps: seq<Step>)
    requires !Distinct(Scheduled(s)) && CanRun(s, steps)
    ensures !Distinct(Scheduled(Run(s, steps)))
    decreases |steps|
  {
    if steps != [] {
      RepeatedStays(s, steps[0]);
      RunRepeated(Apply(s, steps[0]), steps[1..]);
    }
  }

  lemma {:induction false} RunOnce(s: State, steps: seq<Step>)
    requires Once(s) && CanRun(s, steps)
    ensures Orderly(s, steps) ==> Once(Run(s, steps))
    ensures !Orderly(s, steps) ==> !Distinct(Scheduled(Run(s, steps)))
    decreases |steps|
  {
    hide Once, Hasty, Scheduled, Distinct, Enabled, Apply;
    if steps != [] {
      var t := Apply(s, steps[0]);
      if Hasty(s, steps[0]) {
        HastyRepeats(s, steps[0]);
        RunRepeated(t, steps[1..]);
      } else {
        OnceStays(s, steps[0]);
        RunOnce(t, steps[1..]);
      }
    }
  }

  /** In every run: no index is merged or queued twice exactly when the flusher never loads `pen` between the
      writer's receiving an index and its removing it. */
  lemma MergedOnceIff(capacity: nat, steps: seq<Step>)
    requires CanRun(Init(capacity), steps)
    ensures Distinct(Scheduled(Run(Init(capacity), steps))) <==> Orderly(Init(capacity), steps)
  {
    RunOnce(Init(capacity), steps);
    if Orderly(Init(capacity), steps) { OnceIsDistinct(Run(Init(capacity), steps)); }
  }

  /** In an orderly run every index is merged at most once, and every published one is pending or merged. */
  lemma OrderlyMergesOnce(capacity: nat, steps: seq<Step>)
    requires CanRun(Init(capacity), steps) && Orderly(Init(capacity), steps)
    ensures var s := Run(Init(capacity), steps);
      Distinct(s.merged) && Distinct(s.pen) && forall p :: p in s.created <==> p in s.pen || p in s.merged
  {
    RunOnce(Init(capacity), steps);
  }

  // Any other run can go on to merge an index again.

  /** The writer can come to rest. */
  lemma Rest(s: State) returns (steps: seq<Step>)
    requires Inv(s)
    ensures CanRun(s, steps) && Run(s, steps).writer.Idle? && Run(s, steps).flusher == s.flusher
  {
    match s.writer {
      case Idle => steps := [];
      case Removing(_) =>
        Chain(s, Remove, []);
        steps := [Remove];
      case Filling(_, _) =>
        steps := RestFilling(s);
      case Rotating(_, _) =>
        var t := Apply(s, Publish);
        var rest := RestFilling(t);
        Chain(s, Publish, rest);
        steps := [Publish] + rest;
    }
  }

  lemma RestFilling(s: State) returns (steps: seq<Step>)
    requires s.writer.Filling? && s.cur in s.tables
    ensures CanRun(s, steps) && Run(s, steps).writer.Idle? && Run(s, steps).flusher == s.flusher
  {
    var puts := PutAll(s);
    Chain(Run(s, puts), Ack, []);
    RunAppend(s, puts, [Ack]);
    steps := puts + [Ack];
  }

  /** The flusher can merge everything that it has queued. */
  lemma {:induction false} WorkOff(s: State) returns (steps: seq<Step>)
    requires Inv(s)
    ensures CanRun(s, steps) && Queued(Run(s, steps)) == []
    decreases |Queued(s)|, if s.flusher.Sending? then 1 else 0
  {
    if Queued(s) == [] {
      steps := [];
    } else if s.flusher.Sending? {
      var rest := Rest(s);
      RunInv(s, rest);
      var t := Run(s, rest);
      StepInv(t, Receive);
      steps := WorkOffAfter(s, rest, Receive);
    } else {
      StepInv(s, Merge);
      hide MergeRows, Inv;
      steps := WorkOffAfter(s, [], Merge);
    }
  }

  lemma WorkOffAfter(s: State, rest: seq<Step>, step: Step) returns (steps: seq<Step>)
    requires CanRun(s, rest) && Enabled(Run(s, rest), step) && Inv(Apply(Run(s, rest), step))
    requires var t := Apply(Run(s, rest), step);
      |Queued(t)| < |Queued(s)| || (|Queued(t)| == |Queued(s)| && s.flusher.Sending? && !t.flusher.Sending?)
    ensures CanRun(s, steps) && Queued(Run(s, steps)) == []
    decreases |Queued(s)|, if s.flusher.Sending? then 1 else 0, 0
  {
    hide *;
    var t := Apply(Run(s, rest), step);
    var more := WorkOff(t);
    Chain(Run(s, rest), step, more);
    RunAppend(s, rest, [step] + more);
    steps := rest + ([step] + more);
  }

  /** Every run that is not orderly can go on until an index has been merged twice. */
  lemma HastyMergesTwice(capacity: nat, steps: seq<Step>) returns (more: seq<Step>)
    requires CanRun(Init(capacity), steps) && !Orderly(Init(capacity), steps)
    ensures CanRun(Init(capacity), steps + more) && !Distinct(Run(Init(capacity), steps + more).merged)
  {
    var s := Run(Init(capacity), steps);
    MergedOnceIff(capacity, steps);
    InitInv(capacity);
    RunInv(Init(capacity), steps);
    more := WorkOff(s);
    RunAppend(Init(capacity), steps, more);
    RunRepeated(s, more);
    var t := Run(s, more);
    assert Scheduled(t) == t.merged;
  }

  /** It does happen: with any memtable size there is a run in which an index is merged twice. */
  lemma SomeIndexMergedTwice(capacity: nat) returns (steps: seq<Step>)
    requires 0 < capacity <= 0x1_0000_0000_0000_0000
    ensures CanRun(Init(capacity), steps) && !Distinct(Run(Init(capacity), steps).merged)
  {
    var fill, k := FillTable(capacity);
    var s := Run(Init(capacity), fill);
    var once := MergeOneIndex(s);
    RunAppend(Init(capacity), fill, once);
    OrderlyAppend(Init(capacity), fill, once);
    var hasty := fill + once;
    var more := HastyMergesTwice(capacity, hasty);
    steps := hasty + more;
  }

  lemma MergeOneIndex(s: State) returns (steps: seq<Step>)
    requires Inv(s) && s.writer.Idle? && s.flusher.Waiting? && s.pen == [] && |s.tables[s.cur]| >= s.capacity
    ensures CanRun(s, steps) && !Orderly(s, steps)
  {
    hide MergeRows, AllRows;
    var s1 := Apply(s, Begin([]));
    var s2 := Apply(s1, Publish);
    var s3 := Apply(s2, Ack);
    assert |s3.levels| == LEVELS && s3.writer.Idle? && s3.flusher.Waiting? && |s3.pen| == 1;
    var rest := LoadHastily(s3);
    HastyChain(s2, Ack, rest);
    HastyChain(s1, Publish, [Ack] + rest);
    HastyChain(s, Begin([]), [Publish] + ([Ack] + rest));
    steps := [Begin([])] + ([Publish] + ([Ack] + rest));
  }

  lemma LoadHastily(s: State) returns (steps: seq<Step>)
    requires |s.levels| == LEVELS && s.writer.Idle? && s.flusher.Waiting? && |s.pen| == 1
    ensures CanRun(s, steps) && !Orderly(s, steps)
  {
    hide MergeRows;
    var s1 := Apply(s, LoadQueue);
    var s2 := Apply(s1, Merge);
    var s3 := Apply(s2, Receive);
    var s4 := Apply(s3, Drained);
    assert CanRun(Apply(s4, LoadQueue), []);
    hide Orderly, CanRun;
    HastyChain(s4, LoadQueue, []);
    HastyChain(s3, Drained, [LoadQueue]);
    HastyChain(s2, Receive, [Drained, LoadQueue]);
    HastyChain(s1, Merge, [Receive, Drained, LoadQueue]);
    HastyChain(s, LoadQueue, [Merge, Receive, Drained, LoadQueue]);
    steps := [LoadQueue, Merge, Receive, Drained, LoadQueue];
  }

  lemma HastyChain(s: State, step: Step, rest: seq<Step>)
    requires Enabled(s, step) && CanRun(Apply(s, step), rest)
    ensures CanRun(s, [step] + rest)
    ensures Hasty(s, step) || !Orderly(Apply(s, step), rest) ==> !Orderly(s, [step] + rest)
  {
    Chain(s, step, rest);
    assert ([step] + rest)[1..] == rest;
  }

  lemma {:induction false} OrderlyAppend(s: State, a: seq<Step>, b: seq<Step>)
    requires CanRun(s, a) && CanRun(Run(s, a), b) && CanRun(s, a + b) && !Orderly(Run(s, a), b)
    ensures !Orderly(s, a + b)
    decreases |a|
  {
    if a == [] {
      assert a + b == b;
    } else {
      assert (a + b)[1..] == a[1..] + b;
      OrderlyAppend(Apply(s, a[0]), a[1..], b);
    }
  }
}
