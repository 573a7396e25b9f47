/** What exactly one call of the merge does, whatever the order of its streams. */
module MergeCalls {
  import opened Wrappers
  import opened Keys
  import opened MergeIterators

  /** The head of stream `i` is dropped: the greatest event among the heads before it is its own, in a version at
      least as new. */
  ghost predicate Drops(rem: seq<seq<EventKey>>, i: nat) {
    i < |rem| && rem[i] != []
    && (exists j :: 0 <= j < i && rem[j] != [] && SameEvent(rem[j][0], rem[i][0]) && rem[j][0].timestamp >= rem[i][0].timestamp)
    && (forall h :: 0 <= h < i && rem[h] != [] ==> CompareEventKey(rem[h][0], rem[i][0]) <= 0)
  }

  /** Of the first `n` streams, `b` is the first that has the newest version of the greatest event at its head. */
  ghost predicate Wins(rem: seq<seq<EventKey>>, n: nat, b: nat)
    requires n <= |rem|
  {
    b < n && rem[b] != [] &&
    forall h :: 0 <= h < n && rem[h] != [] && h != b ==> Behind(rem[h][0], rem[b][0], h < b)
  }

  predicate Behind(x: EventKey, best: EventKey, earlier: bool) {
    CompareEventKey(x, best) < 0
    || (SameEvent(x, best) && if earlier then x.timestamp < best.timestamp else x.timestamp <= best.timestamp)
  }

  ghost predicate Scanned(rem: seq<seq<EventKey>>, n: nat, s: Scan)
    requires n <= |rem| == |s.rem|
  {
    && (s.best.None? ==> AllEmpty(rem, n))
    && (s.best.Some? ==> Wins(rem, n, s.best.value))
    && (forall i :: 0 <= i < n ==> LeftAt(rem, s.rem, i))
  }

  ghost predicate AllEmpty(rem: seq<seq<EventKey>>, n: nat)
    requires n <= |rem|
  {
    forall i :: 0 <= i < n ==> rem[i] == []
  }

  ghost predicate LeftAt(rem: seq<seq<EventKey>>, now: seq<seq<EventKey>>, i: nat)
    requires i < |rem| == |now|
  {
    now[i] == if Drops(rem, i) then rem[i][1..] else rem[i]
  }

  lemma {:induction false} ScanIs(rem: seq<seq<EventKey>>, n: nat)
    requires n <= |rem|
    ensures Scanned(rem, n, ScanTo(rem, n))
  {
    if n > 0 {
      var s := ScanTo(rem, n - 1);
      ScanIs(rem, n - 1);
      NextScan(rem, n - 1);
      hide *;
      ScanStep(rem, n - 1, s);
    } else {
      hide Drops;
    }
  }

  lemma ScanStep(rem: seq<seq<EventKey>>, n: nat, s: Scan)
    requires n < |rem| == |s.rem| && Sound(s) && s.rem[n] == rem[n] && Passed(rem, n, s) && Scanned(rem, n, s)
    ensures Scanned(rem, n + 1, Step(s, n))
  {
    var t := Step(s, n);
    if rem[n] == [] {
      hide Passed, Scanned, Drops;
      EmptyStream(rem, n, s);
    } else if s.best.None? {
      hide Passed, Drops, CompareEventKey, Scanned;
      FirstHead(rem, n, s);
      Extended(rem, n, s, t, n);
    } else {
      var b := s.best.value;
      assert s.rem[b] == rem[b] by { hide Scanned; }
      assert Wins(rem, n, b);
      HeadStep(rem, n, b);
      StepIs(s, n);
      hide *;
      Extended(rem, n, s, t, t.best.value);
    }
  }

  lemma EmptyStream(rem: seq<seq<EventKey>>, n: nat, s: Scan)
    requires n < |rem| == |s.rem| && s.rem[n] == rem[n] == [] && Scanned(rem, n, s)
    ensures Scanned(rem, n + 1, s)
  {
    assert !Drops(rem, n);
    if s.best.Some? { assert Wins(rem, n + 1, s.best.value); }
    assert LeftAt(rem, s.rem, n);
    hide Drops, Wins, LeftAt;
  }

  lemma FirstHead(rem: seq<seq<EventKey>>, n: nat, s: Scan)
    requires n < |rem| == |s.rem| && rem[n] != [] && s.best.None? && Scanned(rem, n, s)
    ensures Wins(rem, n + 1, n) && !Drops(rem, n)
  {
    hide CompareEventKey;
  }

  /** The scan goes on when the next stream lost its head or not, and the best is known. */
  lemma Extended(rem: seq<seq<EventKey>>, n: nat, s: Scan, t: Scan, best: nat)
    requires n < |rem| == |s.rem| == |t.rem| && s.rem[n] == rem[n] && Scanned(rem, n, s)
    requires t.best == Some(best) && Wins(rem, n + 1, best) && forall i :: 0 <= i < n ==> t.rem[i] == s.rem[i]
    requires t.rem[n] == if rem[n] != [] && Drops(rem, n) then rem[n][1..] else rem[n]
    ensures Scanned(rem, n + 1, t)
  {
    assert Drops(rem, n) ==> rem[n] != [];
    hide Wins, Drops;
    assert LeftAt(rem, t.rem, n);
    forall i | 0 <= i < n ensures LeftAt(rem, t.rem, i) { assert LeftAt(rem, s.rem, i); }
    hide LeftAt;
  }

  lemma StepIs(s: Scan, i: nat)
    requires Sound(s) && i < |s.rem| && s.rem[i] != [] && s.best.Some?
    ensures var key, best := s.rem[i][0], s.rem[s.best.value][0];
      Step(s, i) ==
      if CompareEventKey(key, best) > 0 || (SameEvent(key, best) && key.timestamp > best.timestamp) then s.(best := Some(i))
      else if SameEvent(key, best) then s.(rem := s.rem[i := s.rem[i][1..]])
      else s
  {
    KeyCases(s.rem[i][0], s.rem[s.best.value][0]);
    hide CompareEventKey;
  }

  lemma KeyCases(key: EventKey, best: EventKey)
    ensures CompareEventKey(key, best) in {-1, 0, 1} && (CompareEventKey(key, best) == 0 <==> SameEvent(key, best))
  {
    KeyOrder(key, best);
  }

  /** The next head against the best so far. */
  lemma HeadStep(rem: seq<seq<EventKey>>, n: nat, b: nat)
    requires n < |rem| && rem[n] != [] && Wins(rem, n, b)
    ensures var key, best := rem[n][0], rem[b][0];
      var beats := CompareEventKey(key, best) > 0 || (SameEvent(key, best) && key.timestamp > best.timestamp);
      && Wins(rem, n + 1, if beats then n else b)
      && (Drops(rem, n) <==> SameEvent(key, best) && key.timestamp <= best.timestamp)
  {
    var key, best := rem[n][0], rem[b][0];
    KeyOrder(key, best);
    KeyOrder(best, key);
    forall h | 0 <= h < n && rem[h] != []
      ensures CompareEventKey(key, best) >= 0 ==> CompareEventKey(rem[h][0], key) <= 0
      ensures CompareEventKey(key, best) > 0 ==> CompareEventKey(rem[h][0], key) < 0
      ensures SameEvent(key, best) ==> (CompareEventKey(rem[h][0], key) < 0 || SameEvent(rem[h][0], key))
      ensures SameEvent(rem[h][0], key) ==> CompareEventKey(key, best) <= 0
    {
      var x := rem[h][0];
      KeyOrder(x, best);
      KeyOrder(best, x);
      KeyOrder(x, key);
      KeyOrder(key, x);
      if CompareEventKey(key, best) >= 0 { KeyTransitive(key, best, x); }
    }
    hide CompareEventKey;
  }

  /** One call: nothing is emitted exactly when no stream has a key; otherwise the newest version of the greatest event at
      a head, from the first stream that has it. That stream moves on, and so does every stream whose head is the
      greatest event among the heads up to it and no newer than an earlier of them. */
  lemma CallIs(rem: seq<seq<EventKey>>)
    ensures MergeNext(rem).0.None? <==> forall i :: 0 <= i < |rem| ==> rem[i] == []
    ensures MergeNext(rem).0.Some? ==>
              exists b :: 0 <= b < |rem| && rem[b] != [] && MergeNext(rem).0.value == rem[b][0]
                          && (forall h :: 0 <= h < |rem| && rem[h] != [] && h != b ==>
                                CompareEventKey(rem[h][0], rem[b][0]) < 0
                                || (SameEvent(rem[h][0], rem[b][0])
                                    && if h < b then rem[h][0].timestamp < rem[b][0].timestamp else rem[h][0].timestamp <= rem[b][0].timestamp))
                          && (forall i :: 0 <= i < |rem| ==>
                                MergeNext(rem).1[i] == if i == b || Drops(rem, i) then rem[i][1..] else rem[i])
  {
    ScanIs(rem, |rem|);
    PassHolds(rem, |rem|);
    var s := ScanTo(rem, |rem|);
    if s.best.Some? {
      var b := s.best.value;
      assert s.rem[b] == rem[b];
      hide Drops, CompareEventKey, Passed;
      forall i | 0 <= i < |rem| ensures MergeNext(rem).1[i] == if i == b || Drops(rem, i) then rem[i][1..] else rem[i] {
        assert LeftAt(rem, s.rem, i);
      }
      hide LeftAt;
    }
  }
}
