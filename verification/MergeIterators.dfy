/** The k-way merge of descending iterators, with removal of duplicates. */
module MergeIterators {
  import opened Wrappers
  import opened Keys

  /** What the merge sees of a memtable or index iterator: keys still to come, the current one, and
      whether the end was reached. */
  class KeyStream {
    var rest: seq<EventKey>
    var current: EventKey
    var end: bool

    constructor (keys: seq<EventKey>)
      ensures rest == keys && !end
    {
      rest, end := keys, false;
      current := EventKey("", "", 0, "", 0, false);
    }

    /** The current key, if there is one, and those to come. */
    ghost function Pending(): seq<EventKey>
      reads this
    {
      if end then [] else [current] + rest
    }

    /** The keys to come, before the first call. */
    ghost function Ahead(): seq<EventKey>
      reads this
    {
      if end then [] else rest
    }

    method Next() returns (found: bool)
      modifies this
      ensures found == (!old(end) && old(rest) != [])
      ensures Pending() == old(Ahead()) && end == !found
    {
      if end || rest == [] {
        end := true;
        return false;
      }
      current, rest := rest[0], rest[1..];
      return true;
    }
  }

  /** The state of a pass: what is left of each stream, and the stream with the best head so far. */
  datatype Scan = Scan(rem: seq<seq<EventKey>>, best: Option<nat>)

  predicate Sound(s: Scan) {
    s.best.Some? ==> s.best.value < |s.rem| && s.rem[s.best.value] != []
  }

  /** One stream of a pass. A head that beats the best takes its place; an equal event is dropped
      unless it is a newer version. */
  function Step(s: Scan, i: nat): (t: Scan)
    requires Sound(s) && i < |s.rem|
    ensures |t.rem| == |s.rem|
  {
    if s.rem[i] == [] then s
    else if s.best.None? then s.(best := Some(i))
    else
      var key, minValue := s.rem[i][0], s.rem[s.best.value][0];
      var cmp := CompareEventKey(key, minValue);
      if cmp == 1 then s.(best := Some(i))
      else if cmp == -1 then s
      else if key.timestamp > minValue.timestamp then s.(best := Some(i))
      else s.(rem := s.rem[i := s.rem[i][1..]])
  }

  /** The first `n` streams of a pass. */
  function ScanTo(rem: seq<seq<EventKey>>, n: nat): (s: Scan)
    requires n <= |rem|
    ensures |s.rem| == |rem| && Sound(s) && (s.best.Some? ==> s.best.value < n)
  {
    if n == 0 then Scan(rem, None) else Step(ScanTo(rem, n - 1), n - 1)
  }

  /** A pass has not touched the streams ahead of it. */
  lemma {:induction false} ScanAhead(rem: seq<seq<EventKey>>, n: nat)
    requires n <= |rem|
    ensures forall i :: n <= i < |rem| ==> ScanTo(rem, n).rem[i] == rem[i]
  {
    hide CompareEventKey;
    if n > 0 { ScanAhead(rem, n - 1); }
  }

  /** One call of `Next`: the emitted key, if any, and what is left. */
  function MergeNext(rem: seq<seq<EventKey>>): (r: (Option<EventKey>, seq<seq<EventKey>>))
    ensures |r.1| == |rem|
  {
    var s := ScanTo(rem, |rem|);
    match s.best
    case None => (None, s.rem)
    case Some(b) => (Some(s.rem[b][0]), s.rem[b := s.rem[b][1..]])
  }

  function Total(rem: seq<seq<EventKey>>): nat {
    if rem == [] then 0 else Total(rem[..|rem| - 1]) + |rem[|rem| - 1]|
  }

  /** All keys that repeated calls of `Next` emit. */
  function MergeAll(rem: seq<seq<EventKey>>): seq<EventKey>
    decreases Total(rem)
  {
    var (k, left) := MergeNext(rem);
    if k.None? then [] else
      MergeShrinks(rem);
      [k.value] + MergeAll(left)
  }

  class MergeIterator {
    var init: bool
    const iterators: seq<KeyStream>
    var currentKey: EventKey
    var end: bool

    ghost predicate Invariant() {
      forall i, j :: 0 <= i < j < |iterators| ==> iterators[i] != iterators[j]
    }

    /** What each stream still has to offer. */
    ghost function Streams(): (s: seq<seq<EventKey>>)
      reads this, iterators
      ensures |s| == |iterators|
    {
      seq(|iterators|, i requires 0 <= i < |iterators| reads this, iterators =>
        if init then iterators[i].Ahead() else iterators[i].Pending())
    }

    constructor (iterators: seq<KeyStream>)
      requires forall i, j :: 0 <= i < j < |iterators| ==> iterators[i] != iterators[j]
      ensures Invariant() && this.iterators == iterators && init && !end
    {
      this.iterators := iterators;
      init, end := true, false;
      currentKey := EventKey("", "", 0, "", 0, false);
    }

    method Valid() returns (v: bool)
      ensures v == !end
    {
      v := !end;
    }

    method Next() returns (found: bool)
      requires Invariant()
      modifies this, iterators
      ensures Invariant()
      ensures old(end) ==> !found && end
      ensures !old(end) ==> var (k, left) := MergeNext(old(Streams()));
                found == k.Some? && end == !found && (found ==> currentKey == k.value && Streams() == left && !init)
    {
      if end {
        return false;
      }
      if init {
        Start();
      }
      ghost var rem := Streams();
      assert rem == old(Streams());
      hide CompareEventKey, Step;
      var minIndex, minValue := Pass(rem);
      currentKey := minValue;
      if minIndex == -1 {
        end := true;
      } else {
        Drop(minIndex);
      }
      found := minIndex != -1;
    }

    /** How the loop's two variables stand for the best head. */
    ghost predicate Tracks(s: Scan, minIndex: int, minValue: EventKey) {
      if minIndex == -1 then s.best.None?
      else 0 <= minIndex < |s.rem| && s.best == Some(minIndex) && HeadIs(s.rem, minIndex, minValue)
    }

    method Pass(ghost rem: seq<seq<EventKey>>) returns (minIndex: int, minValue: EventKey)
      requires Invariant() && !init && rem == Streams()
      modifies iterators
      ensures Streams() == ScanTo(rem, |rem|).rem && Tracks(ScanTo(rem, |rem|), minIndex, minValue)
      ensures 0 <= minIndex ==> minIndex < |iterators| && !iterators[minIndex].end
      ensures minIndex >= -1
    {
      hide CompareEventKey, Step;
      minValue := EventKey("", "", 0, "", 0, false);
      minIndex := -1;
      var i := 0;
      while i < |iterators|
        invariant 0 <= i <= |iterators| == |rem| && !init && minIndex >= -1
        invariant Streams() == ScanTo(rem, i).rem && Tracks(ScanTo(rem, i), minIndex, minValue)
      {
        ScanAhead(rem, i);
        ghost var s := ScanTo(rem, i);
        assert ScanTo(rem, i + 1) == Step(s, i);
        minIndex, minValue := Consider(i, minIndex, minValue, s);
        i := i + 1;
      }
      if minIndex >= 0 { assert Streams()[minIndex] == iterators[minIndex].Pending(); }
    }

    method Consider(i: nat, minIndex: int, minValue: EventKey, ghost s: Scan) returns (index: int, value: EventKey)
      requires Invariant() && !init && i < |iterators| && minIndex >= -1
      requires Sound(s) && s.rem == Streams() && Tracks(s, minIndex, minValue) && s.best != Some(i)
      modifies iterators[i]
      ensures Streams() == Step(s, i).rem && Tracks(Step(s, i), index, value) && index >= -1
    {
      hide CompareEventKey;
      index, value := minIndex, minValue;
      var it := iterators[i];
      assert Streams()[i] == it.Pending();
      if !it.end {
        var key := it.current;
        if minIndex == -1 {
          index, value := i, key;
        } else {
          var cmp := CompareEventKey(key, minValue);
          if cmp == 1 {
            index, value := i, key;
          } else if cmp != -1 {
            if key.timestamp > minValue.timestamp {
              index, value := i, key;
            } else {
              Drop(i);
            }
          }
        }
      }
    }

    /** The first `i` streams are at their first key, the others before it. */
    ghost predicate Started(before: seq<seq<EventKey>>, i: nat)
      reads iterators
    {
      |before| == |iterators|
      && forall k :: 0 <= k < |iterators| ==> before[k] == if k < i then iterators[k].Pending() else iterators[k].Ahead()
    }

    /** The first call moves every stream to its first key. */
    method Start()
      requires Invariant() && init
      modifies this`init, iterators
      ensures !init && Streams() == old(Streams())
    {
      ghost var before := Streams();
      assert Started(before, 0);
      hide MergeIterator.Started;
      var i := 0;
      while i < |iterators|
        invariant 0 <= i <= |iterators| && Started(before, i)
      {
        StartOne(i, before);
        i := i + 1;
      }
      init := false;
      StartedStreams(before);
    }

    lemma StartedStreams(before: seq<seq<EventKey>>)
      requires !init && Started(before, |iterators|)
      ensures Streams() == before
    {}

    method StartOne(i: nat, ghost before: seq<seq<EventKey>>)
      requires Invariant() && i < |iterators| && Started(before, i)
      modifies iterators[i]
      ensures Started(before, i + 1)
    {
      assert before[i] == iterators[i].Ahead();
      var _ := iterators[i].Next();
      forall k | 0 <= k < |iterators| && k != i
        ensures before[k] == if k < i then iterators[k].Pending() else iterators[k].Ahead()
      {}
    }

    /** Moves one stream past its current key. */
    method Drop(i: nat)
      requires Invariant() && !init && i < |iterators| && !iterators[i].end
      modifies iterators[i]
      ensures Streams() == old(Streams())[i := old(Streams())[i][1..]]
    {
      assert Streams()[i] == iterators[i].Pending();
      var _ := iterators[i].Next();
      forall k | 0 <= k < |iterators| ensures Streams()[k] == old(Streams())[i := old(Streams())[i][1..]][k] {
        if k != i { assert iterators[k].Pending() == old(iterators[k].Pending()); }
      }
    }
  }

  // Termination.

  lemma {:induction false} TotalUpdate(rem: seq<seq<EventKey>>, i: nat, xs: seq<EventKey>)
    requires i < |rem|
    ensures Total(rem[i := xs]) + |rem[i]| == Total(rem) + |xs|
  {
    var n := |rem| - 1;
    if i < n {
      assert rem[i := xs][..n] == rem[..n][i := xs];
      TotalUpdate(rem[..n], i, xs);
    } else {
      assert rem[i := xs][..n] == rem[..n];
    }
  }

  lemma {:induction false} ScanShrinks(rem: seq<seq<EventKey>>, n: nat)
    requires n <= |rem|
    ensures Total(ScanTo(rem, n).rem) <= Total(rem)
  {
    if n > 0 {
      hide Step, Total, Sound;
      var s := ScanTo(rem, n - 1);
      assert ScanTo(rem, n) == Step(s, n - 1);
      ScanShrinks(rem, n - 1);
      hide ScanTo;
      StepShrinks(s, n - 1);
    }
  }

  lemma StepShrinks(s: Scan, i: nat)
    requires Sound(s) && i < |s.rem|
    ensures Total(Step(s, i).rem) <= Total(s.rem)
  {
    hide CompareEventKey, Total;
    if s.rem[i] != [] { TotalUpdate(s.rem, i, s.rem[i][1..]); }
  }

  lemma MergeShrinks(rem: seq<seq<EventKey>>)
    requires MergeNext(rem).0.Some?
    ensures Total(MergeNext(rem).1) < Total(rem)
  {
    var s := ScanTo(rem, |rem|);
    ScanShrinks(rem, |rem|);
    TotalUpdate(s.rem, s.best.value, s.rem[s.best.value][1..]);
  }

  // One pass.

  ghost predicate Descending(keys: seq<EventKey>) {
    forall i, j :: 0 <= i < j < |keys| ==> CompareEventKey(keys[i], keys[j]) > 0
  }

  ghost predicate AllDescending(rem: seq<seq<EventKey>>) {
    forall i :: 0 <= i < |rem| ==> Descending(rem[i])
  }

  /** Key `x` is offered by stream `i`. */
  predicate Offered(rem: seq<seq<EventKey>>, i: nat, x: EventKey) {
    i < |rem| && x in rem[i]
  }

  predicate HeadIs(rem: seq<seq<EventKey>>, i: nat, x: EventKey) {
    i < |rem| && rem[i] != [] && rem[i][0] == x
  }

  /** The head of stream `i` was dropped in favour of the head of an earlier stream, which is the
      same event, at least as new, and still there. */
  ghost predicate Dominated(rem: seq<seq<EventKey>>, now: seq<seq<EventKey>>, i: nat)
    requires i < |rem| == |now|
  {
    rem[i] != [] && exists j :: 0 <= j < i && rem[j] != [] && now[j] == rem[j]
                               && SameEvent(rem[j][0], rem[i][0]) && rem[j][0].timestamp >= rem[i][0].timestamp
  }

  /** Stream `b` has the greatest head of the first `n`, and of its event the newest version. */
  ghost predicate BestOf(rem: seq<seq<EventKey>>, n: nat, b: nat)
    requires n <= |rem|
  {
    b < n && rem[b] != [] && forall i :: 0 <= i < n && rem[i] != [] ==> Beats(rem[b][0], rem[i][0])
  }

  predicate Beats(x: EventKey, y: EventKey) {
    CompareEventKey(x, y) > 0 || (SameEvent(x, y) && x.timestamp >= y.timestamp)
  }

  /** What a pass over the first `n` streams leaves: the best head, and streams that lost at most a
      dominated head. */
  ghost predicate Passed(rem: seq<seq<EventKey>>, n: nat, s: Scan)
    requires n <= |rem| == |s.rem|
  {
    && (s.best.None? <==> forall i :: 0 <= i < n ==> rem[i] == [])
    && (s.best.Some? ==> BestOf(rem, n, s.best.value) && s.rem[s.best.value] == rem[s.best.value])
    && (forall i :: 0 <= i < |rem| ==>
          s.rem[i] == rem[i] || (rem[i] != [] && s.rem[i] == rem[i][1..] && Dominated(rem, s.rem, i)))
  }

  lemma {:induction false} PassHolds(rem: seq<seq<EventKey>>, n: nat)
    requires n <= |rem|
    ensures Passed(rem, n, ScanTo(rem, n))
  {
    if n > 0 {
      hide Passed, Step, CompareEventKey, Sound;
      var s := ScanTo(rem, n - 1);
      assert ScanTo(rem, n) == Step(s, n - 1);
      PassHolds(rem, n - 1);
      ScanAhead(rem, n - 1);
      hide ScanTo;
      PassStep(rem, n - 1, s);
    }
  }

  lemma PassStep(rem: seq<seq<EventKey>>, n: nat, s: Scan)
    requires n < |rem| == |s.rem| && Sound(s) && s.rem[n] == rem[n] && Passed(rem, n, s)
    ensures Passed(rem, n + 1, Step(s, n))
  {
    var t := Step(s, n);
    if rem[n] != [] && s.best.Some? {
      var b := s.best.value;
      var key, best := rem[n][0], rem[b][0];
      KeyOrder(key, best);
      if CompareEventKey(key, best) >= 0 {
        forall i | 0 <= i < n && rem[i] != []
          ensures CompareEventKey(key, rem[i][0]) > 0 || (SameEvent(key, rem[i][0]) && best.timestamp >= rem[i][0].timestamp)
        {
          KeyOrder(best, rem[i][0]);
          KeyTransitive(key, best, rem[i][0]);
          KeyOrder(key, rem[i][0]);
        }
      }
      KeyOrder(best, key);
      hide CompareEventKey;
      forall i | 0 <= i < |rem| && t.rem[i] != rem[i] ensures rem[i] != [] && t.rem[i] == rem[i][1..] && Dominated(rem, t.rem, i) {
        if i < n {
          var j :| 0 <= j < i && rem[j] != [] && s.rem[j] == rem[j]
                   && SameEvent(rem[j][0], rem[i][0]) && rem[j][0].timestamp >= rem[i][0].timestamp;
          assert t.rem[j] == rem[j];
        } else {
          assert t.rem[b] == rem[b];
        }
      }
    }
  }

  // One call of `Next` on descending streams.

  /** What remains after a call was there before. */
  lemma LeftWasThere(rem: seq<seq<EventKey>>, i: nat, x: EventKey)
    requires Offered(MergeNext(rem).1, i, x)
    ensures Offered(rem, i, x)
  {
    PassHolds(rem, |rem|);
    var s := ScanTo(rem, |rem|);
    hide CompareEventKey;
    assert s.rem[i] == rem[i] || s.rem[i] == rem[i][1..];
    if s.best.Some? && s.best.value == i { assert x in s.rem[i]; }
  }

  lemma LeftDescends(rem: seq<seq<EventKey>>)
    requires AllDescending(rem)
    ensures AllDescending(MergeNext(rem).1)
  {
    PassHolds(rem, |rem|);
    var s := ScanTo(rem, |rem|);
    hide CompareEventKey, ScanTo;
    forall i | 0 <= i < |rem| ensures Descending(MergeNext(rem).1[i]) {
      assert Descending(rem[i]) && (s.rem[i] == rem[i] || s.rem[i] == rem[i][1..]);
    }
  }

  /** The emitted key is the head of a stream and bounds everything; of its event it is the newest. */
  lemma EmittedIsBest(rem: seq<seq<EventKey>>, i: nat, x: EventKey)
    requires AllDescending(rem) && Offered(rem, i, x)
    ensures MergeNext(rem).0.Some?
    ensures var k := MergeNext(rem).0.value; Beats(k, x)
  {
    PassHolds(rem, |rem|);
    var s := ScanTo(rem, |rem|);
    var b := s.best.value;
    var k, head := rem[b][0], rem[i][0];
    assert BestOf(rem, |rem|, b) && Beats(k, head);
    if x != head {
      var p :| 0 < p < |rem[i]| && rem[i][p] == x;
      assert Descending(rem[i]) && CompareEventKey(rem[i][0], rem[i][p]) > 0;
      KeyOrder(k, head);
      KeyTransitive(k, head, x);
    }
  }

  /** Where a stream offers something, a call emits something. */
  lemma SomeEmission(rem: seq<seq<EventKey>>, i: nat, x: EventKey)
    requires Offered(rem, i, x)
    ensures ScanTo(rem, |rem|).best.Some? && MergeNext(rem).0.Some?
  {
    PassHolds(rem, |rem|);
  }

  /** Whatever the order of the streams: a version that a call takes away is emitted, or one of its event that
      is at least as new is emitted or left. */
  lemma KeptOrDominated(rem: seq<seq<EventKey>>, i: nat, x: EventKey)
    requires Offered(rem, i, x)
    ensures MergeNext(rem).0.Some?
    ensures var (k, left) := MergeNext(rem);
      (SameEvent(k.value, x) && k.value.timestamp >= x.timestamp) || Offered(left, i, x)
      || exists j: nat, y :: j < i && Offered(left, j, y) && SameEvent(y, x) && y.timestamp >= x.timestamp
  {
    SomeEmission(rem, i, x);
    PassHolds(rem, |rem|);
    var s := ScanTo(rem, |rem|);
    var (k, left) := MergeNext(rem);
    var b := s.best.value;
    hide CompareEventKey, ScanTo;
    if !Offered(left, i, x) {
      assert x == rem[i][0];
      if i != b {
        assert Dominated(rem, s.rem, i);
        var j :| 0 <= j < i && rem[j] != [] && s.rem[j] == rem[j]
                 && SameEvent(rem[j][0], rem[i][0]) && rem[j][0].timestamp >= rem[i][0].timestamp;
        if j != b { assert Offered(left, j, rem[j][0]); }
      }
    }
  }

  // Whole runs.

  ghost predicate Holds(rem: seq<seq<EventKey>>, x: EventKey) {
    exists i: nat :: Offered(rem, i, x)
  }

  /** Nothing is invented. */
  lemma {:induction false} MergeSound(rem: seq<seq<EventKey>>, x: EventKey)
    requires x in MergeAll(rem)
    ensures Holds(rem, x)
    decreases Total(rem)
  {
    hide CompareEventKey;
    var (k, left) := MergeNext(rem);
    MergeShrinks(rem);
    if x == k.value {
      PassHolds(rem, |rem|);
      var b := ScanTo(rem, |rem|).best.value;
      assert Offered(rem, b, x);
    } else {
      MergeSound(left, x);
      var i: nat :| Offered(left, i, x);
      LeftWasThere(rem, i, x);
    }
  }

  /** Nothing is lost, whatever the order of the streams: of every version that a stream offers, a version of
      its event at least as new is emitted. */
  lemma {:induction false} MergeComplete(rem: seq<seq<EventKey>>, i: nat, x: EventKey)
    requires Offered(rem, i, x)
    ensures exists p :: 0 <= p < |MergeAll(rem)| && SameEvent(MergeAll(rem)[p], x) && MergeAll(rem)[p].timestamp >= x.timestamp
    decreases Total(rem)
  {
    KeptOrDominated(rem, i, x);
    var (k, left) := MergeNext(rem);
    MergeShrinks(rem);
    var out := MergeAll(rem);
    assert out == [k.value] + MergeAll(left);
    hide MergeNext, MergeAll;
    if SameEvent(k.value, x) && k.value.timestamp >= x.timestamp {
      assert out[0] == k.value;
    } else {
      var j: nat, y := i, x;
      if !Offered(left, i, x) {
        j, y :| j < i && Offered(left, j, y) && SameEvent(y, x) && y.timestamp >= x.timestamp;
      }
      MergeComplete(left, j, y);
      var p :| 0 <= p < |MergeAll(left)| && SameEvent(MergeAll(left)[p], y) && MergeAll(left)[p].timestamp >= y.timestamp;
      assert out[p + 1] == MergeAll(left)[p];
    }
  }

  /** The output never increases. */
  lemma {:induction false} MergeOrdered(rem: seq<seq<EventKey>>, p: nat, q: nat)
    requires AllDescending(rem) && p < q < |MergeAll(rem)|
    ensures CompareEventKey(MergeAll(rem)[p], MergeAll(rem)[q]) >= 0
    decreases Total(rem)
  {
    hide CompareEventKey;
    var (k, left) := MergeNext(rem);
    MergeShrinks(rem);
    var rest := MergeAll(left);
    if p == 0 {
      assert rest[q - 1] in rest;
      MergeSound(left, rest[q - 1]);
      var i: nat :| Offered(left, i, rest[q - 1]);
      LeftWasThere(rem, i, rest[q - 1]);
      EmittedIsBest(rem, i, rest[q - 1]);
      KeyOrder(k.value, rest[q - 1]);
    } else {
      LeftDescends(rem);
      MergeOrdered(left, p - 1, q - 1);
    }
  }

  /** Position `p` is the first at which its event is emitted. */
  predicate FirstOf(out: seq<EventKey>, p: nat)
    requires p < |out|
  {
    forall q :: 0 <= q < p ==> !SameEvent(out[q], out[p])
  }

  /** The first emission of an event carries its greatest timestamp. */
  lemma {:induction false} FirstIsNewest(rem: seq<seq<EventKey>>, p: nat, i: nat, x: EventKey)
    requires AllDescending(rem) && p < |MergeAll(rem)| && FirstOf(MergeAll(rem), p)
    requires Offered(rem, i, x) && SameEvent(x, MergeAll(rem)[p])
    ensures x.timestamp <= MergeAll(rem)[p].timestamp
    decreases Total(rem)
  {
    var (k, left) := MergeNext(rem);
    MergeShrinks(rem);
    var out, rest := MergeAll(rem), MergeAll(left);
    assert out == [k.value] + rest;
    if p == 0 {
      EmittedIsBest(rem, i, x);
      KeyOrder(k.value, x);
    } else {
      hide CompareEventKey;
      assert !SameEvent(out[0], out[p]);
      LeftDescends(rem);
      KeptOrDominated(rem, i, x);
      var j: nat, y := i, x;
      if !Offered(left, i, x) {
        j, y :| j < i && Offered(left, j, y) && SameEvent(y, x) && y.timestamp >= x.timestamp;
      }
      assert FirstOf(rest, p - 1) by {
        forall q | 0 <= q < p - 1 ensures !SameEvent(rest[q], rest[p - 1]) { assert out[q + 1] == rest[q]; }
      }
      FirstIsNewest(left, p - 1, j, y);
    }
  }

  // Exactly once.

  /** Stream `i` is the first that offers the event of `x`. */
  ghost predicate FirstHolder(rem: seq<seq<EventKey>>, i: nat, x: EventKey) {
    Offered(rem, i, x) && forall h: nat, z :: h < i && Offered(rem, h, z) ==> !SameEvent(z, x)
  }

  /** Of every event, the first stream that offers it offers a newest version. */
  ghost predicate FirstListedNewest(rem: seq<seq<EventKey>>) {
    forall i: nat, x, j: nat, y :: FirstHolder(rem, i, x) && Offered(rem, j, y) && SameEvent(x, y) ==> x.timestamp >= y.timestamp
  }

  lemma FirstHolderUndominated(rem: seq<seq<EventKey>>, now: seq<seq<EventKey>>, i: nat, x: EventKey)
    requires FirstHolder(rem, i, x) && |now| == |rem|
    ensures x == rem[i][0] ==> !Dominated(rem, now, i)
  {
    forall j | 0 <= j < i && rem[j] != [] ensures !SameEvent(rem[j][0], x) { assert Offered(rem, j, rem[j][0]); }
  }

  /** The first holder's key is never dropped: it is emitted or stays first. */
  lemma FirstHolderStays(rem: seq<seq<EventKey>>, i: nat, x: EventKey)
    requires FirstHolder(rem, i, x)
    ensures MergeNext(rem).0.Some?
    ensures var (k, left) := MergeNext(rem); k.value == x || FirstHolder(left, i, x)
  {
    SomeEmission(rem, i, x);
    PassHolds(rem, |rem|);
    var s := ScanTo(rem, |rem|);
    var (k, left) := MergeNext(rem);
    hide CompareEventKey;
    if k.value != x {
      FirstHolderUndominated(rem, s.rem, i, x);
      assert s.rem[i] == rem[i] || x != rem[i][0];
      assert Offered(left, i, x);
      forall h: nat, z | h < i && Offered(left, h, z) ensures !SameEvent(z, x) { LeftWasThere(rem, h, z); }
    }
  }

  /** So the first holder's own version is among the emissions. */
  lemma {:induction false} FirstHolderEmitted(rem: seq<seq<EventKey>>, i: nat, x: EventKey)
    requires FirstHolder(rem, i, x)
    ensures x in MergeAll(rem)
    decreases Total(rem)
  {
    FirstHolderStays(rem, i, x);
    var (k, left) := MergeNext(rem);
    MergeShrinks(rem);
    assert MergeAll(rem) == [k.value] + MergeAll(left);
    if k.value != x {
      FirstHolderEmitted(left, i, x);
    }
  }

  lemma {:induction false} FirstHolderExists(rem: seq<seq<EventKey>>, i: nat, x: EventKey) returns (h: nat, z: EventKey)
    requires Offered(rem, i, x)
    ensures h <= i && FirstHolder(rem, h, z) && SameEvent(z, x)
  {
    if g: nat, y :| g < i && Offered(rem, g, y) && SameEvent(y, x) {
      h, z := FirstHolderExists(rem, g, y);
    } else {
      h, z := i, x;
    }
  }

  /** In a pass, a head of the best head's event that is neither best nor dropped was displaced: it
      stands earlier and is older. */
  ghost predicate Displaced(rem: seq<seq<EventKey>>, n: nat, s: Scan)
    requires n <= |rem| == |s.rem|
  {
    s.best.Some? && s.best.value < |rem| && rem[s.best.value] != [] ==>
      forall i :: 0 <= i < n && i != s.best.value && rem[i] != [] && s.rem[i] == rem[i]
                  && SameEvent(rem[i][0], rem[s.best.value][0]) ==>
        i < s.best.value && rem[i][0].timestamp < rem[s.best.value][0].timestamp
  }

  lemma {:induction false} DisplacedHolds(rem: seq<seq<EventKey>>, n: nat)
    requires n <= |rem|
    ensures Displaced(rem, n, ScanTo(rem, n))
  {
    hide *;
    if n > 0 {
      DisplacedHolds(rem, n - 1);
      NextScan(rem, n - 1);
      DisplacedStep(rem, n - 1, ScanTo(rem, n - 1));
    } else {
      NothingScanned(rem);
    }
  }

  lemma NothingScanned(rem: seq<seq<EventKey>>)
    ensures Displaced(rem, 0, ScanTo(rem, 0))
  {}

  /** A pass goes on from what it has left so far. */
  lemma NextScan(rem: seq<seq<EventKey>>, n: nat)
    requires n < |rem|
    ensures var s := ScanTo(rem, n);
      ScanTo(rem, n + 1) == Step(s, n) && Sound(s) && s.rem[n] == rem[n] && Passed(rem, n, s)
  {
    PassHolds(rem, n);
    ScanAhead(rem, n);
    hide Passed, Step, Sound;
  }

  lemma DisplacedStep(rem: seq<seq<EventKey>>, n: nat, s: Scan)
    requires n < |rem| == |s.rem| && Sound(s) && s.rem[n] == rem[n] && Passed(rem, n, s) && Displaced(rem, n, s)
    ensures Displaced(rem, n + 1, Step(s, n))
  {
    if rem[n] != [] && s.best.Some? {
      var key, best := rem[n][0], rem[s.best.value][0];
      KeyOrder(key, best);
      forall i | 0 <= i < n && rem[i] != [] && SameEvent(rem[i][0], key) ensures CompareEventKey(key, best) <= 0 {
        KeyOrder(best, rem[i][0]);
        KeyOrder(best, key);
      }
    }
  }

  /** A key of the emitted event heads its stream. */
  lemma SameEventIsHead(rem: seq<seq<EventKey>>, i: nat, x: EventKey)
    requires AllDescending(rem) && Offered(rem, i, x)
    ensures MergeNext(rem).0.Some? && (SameEvent(MergeNext(rem).0.value, x) ==> x == rem[i][0])
  {
    EmittedIsBest(rem, i, x);
    EmittedIsBest(rem, i, rem[i][0]);
    var k := MergeNext(rem).0.value;
    if x != rem[i][0] {
      var p :| 0 < p < |rem[i]| && rem[i][p] == x;
      assert Descending(rem[i]) && CompareEventKey(rem[i][0], rem[i][p]) > 0;
      KeyOrder(k, rem[i][0]);
      KeyTransitive(k, rem[i][0], x);
      KeyOrder(k, x);
    }
  }

  /** When first holders are newest, a call takes the emitted event out of every stream. */
  lemma EmittedIsGone(rem: seq<seq<EventKey>>, i: nat, y: EventKey)
    requires AllDescending(rem) && FirstListedNewest(rem) && Offered(MergeNext(rem).1, i, y)
    ensures MergeNext(rem).0.Some? && !SameEvent(MergeNext(rem).0.value, y)
  {
    LeftWasThere(rem, i, y);
    SameEventIsHead(rem, i, y);
    var k := MergeNext(rem).0.value;
    if SameEvent(k, y) {
      var s := ScanTo(rem, |rem|);
      var b := s.best.value;
      PassHolds(rem, |rem|);
      DisplacedHolds(rem, |rem|);
      assert Offered(rem, b, k);
      var h, z := FirstHolderExists(rem, i, y);
      assert z.timestamp >= k.timestamp;
      SameEventIsHead(rem, h, z);
      StillHead(rem, i, y);
      hide CompareEventKey, ScanTo, Passed;
      FirstHolderUndropped(rem, h, z);
    }
  }

  /** A head that is still offered after a call was not taken. */
  lemma StillHead(rem: seq<seq<EventKey>>, i: nat, y: EventKey)
    requires AllDescending(rem) && i < |rem| && rem[i] != [] && y == rem[i][0] && Offered(MergeNext(rem).1, i, y)
    ensures var s := ScanTo(rem, |rem|); s.best.Some? && i != s.best.value && s.rem[i] == rem[i]
  {
    PassHolds(rem, |rem|);
    assert Descending(rem[i]);
    if y in rem[i][1..] {
      var p :| 0 < p < |rem[i]| && rem[i][p] == y;
      KeyOrder(y, y);
      assert false;
    }
  }

  /** The first holder's head is not dropped in the pass. */
  lemma FirstHolderUndropped(rem: seq<seq<EventKey>>, h: nat, z: EventKey)
    requires FirstHolder(rem, h, z) && rem[h][0] == z
    ensures ScanTo(rem, |rem|).rem[h] == rem[h]
  {
    PassHolds(rem, |rem|);
    var s := ScanTo(rem, |rem|);
    hide CompareEventKey, ScanTo;
    FirstHolderUndominated(rem, s.rem, h, z);
  }

  lemma FirstListedNewestStays(rem: seq<seq<EventKey>>)
    requires AllDescending(rem) && FirstListedNewest(rem)
    ensures FirstListedNewest(MergeNext(rem).1)
  {
    var left := MergeNext(rem).1;
    hide CompareEventKey, MergeNext, AllDescending;
    forall i: nat, x, j: nat, y | FirstHolder(left, i, x) && Offered(left, j, y) && SameEvent(x, y) ensures x.timestamp >= y.timestamp {
      LeftWasThere(rem, i, x);
      LeftWasThere(rem, j, y);
      EmittedIsGone(rem, i, x);
      var h, z := FirstHolderExists(rem, i, x);
      FirstHolderStays(rem, h, z);
      assert FirstHolder(left, h, z);
      assert h == i;
      assert FirstHolder(rem, i, x);
    }
  }

  lemma {:induction false} OnceIfFirstNewest(rem: seq<seq<EventKey>>)
    requires AllDescending(rem) && FirstListedNewest(rem)
    ensures Descending(MergeAll(rem))
    decreases Total(rem)
  {
    var (k, left) := MergeNext(rem);
    if k.Some? {
      MergeShrinks(rem);
      LeftDescends(rem);
      FirstListedNewestStays(rem);
      OnceIfFirstNewest(left);
      var rest := MergeAll(left);
      forall q | 0 <= q < |rest| ensures CompareEventKey(k.value, rest[q]) > 0 {
        assert rest[q] in rest;
        MergeSound(left, rest[q]);
        var i: nat :| Offered(left, i, rest[q]);
        EmittedIsGone(rem, i, rest[q]);
        LeftWasThere(rem, i, rest[q]);
        EmittedIsBest(rem, i, rest[q]);
      }
    }
  }

  /** On descending streams the merge emits every event exactly once, in strictly descending order,
      if and only if of every event the first stream that offers it offers a newest version. */
  lemma OnceIffFirstNewest(rem: seq<seq<EventKey>>)
    requires AllDescending(rem)
    ensures Descending(MergeAll(rem)) <==> FirstListedNewest(rem)
  {
    if FirstListedNewest(rem) {
      OnceIfFirstNewest(rem);
    }
    if Descending(MergeAll(rem)) {
      var out := MergeAll(rem);
      forall i: nat, x, j: nat, y | FirstHolder(rem, i, x) && Offered(rem, j, y) && SameEvent(x, y) ensures x.timestamp >= y.timestamp {
        FirstHolderEmitted(rem, i, x);
        var p :| 0 <= p < |out| && out[p] == x;
        forall q | 0 <= q < p ensures !SameEvent(out[q], out[p]) { KeyOrder(out[q], out[p]); }
        KeyOrder(x, y);
        FirstIsNewest(rem, p, j, y);
      }
    }
  }
}
