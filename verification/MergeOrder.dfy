/** The order of merged keys: which lists the merge keeps in order, and which it does not. */
module MergeOrder {
  import opened Keys
  import opened Merging

  /** Lists that run the way `TakeFirst` prefers: start times up, ids down. */
  ghost predicate Rising(keys: seq<EventKey>) {
    forall i, j :: 0 <= i < j < |keys| ==> TakeFirst(keys[i], keys[j])
  }

  lemma TakeFirstOrder(a: EventKey, b: EventKey, c: EventKey)
    ensures TakeFirst(a, b) || TakeFirst(b, a)
    ensures TakeFirst(a, b) && TakeFirst(b, c) ==> TakeFirst(a, c)
  {
    StringOrder(a.id, b.id);
    if a.startTime == b.startTime == c.startTime && TakeFirst(a, b) && TakeFirst(b, c) { StringTransitive(a.id, b.id, c.id); }
  }

  /** Of two keys the merge puts the earlier first, and at one time the one with the greater id; of one id, the first
      list's. */
  lemma PairMerged(x: EventKey, y: EventKey)
    ensures Merged([x], [y]) ==
            if x.startTime < y.startTime || (x.startTime == y.startTime && CompareString(x.id, y.id) >= 0) then [x, y] else [y, x]
  {
    assert [x][1..] == [] && [y][1..] == [];
    assert Merged([x], []) == [x] && Merged([], [y]) == [y];
  }

  lemma {:induction false} MergedMember(a: seq<EventKey>, b: seq<EventKey>, k: EventKey)
    ensures k in Merged(a, b) <==> k in a || k in b
  {
    if a != [] && b != [] {
      if TakeFirst(a[0], b[0]) { MergedMember(a[1..], b, k); } else { MergedMember(a, b[1..], k); }
    }
  }

  /** The merge keeps lists that rise: this is the order its comparison is made for. */
  lemma {:induction false} MergedRising(a: seq<EventKey>, b: seq<EventKey>)
    requires Rising(a) && Rising(b)
    ensures Rising(Merged(a, b))
  {
    if a != [] && b != [] {
      var fromA := TakeFirst(a[0], b[0]);
      var head, ra, rb := if fromA then a[0] else b[0], if fromA then a[1..] else a, if fromA then b else b[1..];
      TakeFirstOrder(a[0], b[0], a[0]);
      MergedRising(ra, rb);
      var m := Merged(ra, rb);
      forall j | 0 <= j < |m| ensures TakeFirst(head, m[j]) {
        MergedMember(ra, rb, m[j]);
        assert m[j] in m;
        if fromA && m[j] in b { TakeFirstOrder(a[0], b[0], m[j]); }
        if !fromA && m[j] in a { TakeFirstOrder(b[0], a[0], m[j]); }
      }
      assert Merged(a, b) == [head] + m;
    }
  }

  // Index keys run the other way: later events first.

  predicate Before(x: EventKey, y: EventKey) {
    CompareEventKeyTimestamp(x, y) < 0
  }

  /** An event of both lists is newer in the first. */
  ghost predicate FirstIsNewer(a: seq<EventKey>, b: seq<EventKey>) {
    forall i, j :: 0 <= i < |a| && 0 <= j < |b| && SameEvent(a[i], b[j]) ==> a[i].timestamp > b[j].timestamp
  }

  /** All of `x` starts at one instant, at which `y` still has a key when `x` is used up. */
  ghost predicate RunsInto(x: seq<EventKey>, y: seq<EventKey>)
    requires x != []
  {
    var last := x[|x| - 1];
    last.startTime == x[0].startTime && exists k :: 0 <= k < |y| && y[k].startTime == x[0].startTime && Before(last, y[k])
  }

  ghost predicate KeepsOrder(a: seq<EventKey>, b: seq<EventKey>) {
    && FirstIsNewer(a, b)
    && (a == [] || b == [] || (a[0].startTime == b[0].startTime && (RunsInto(a, b) || RunsInto(b, a))))
  }

  lemma SortedHead(x: EventKey, m: seq<EventKey>)
    ensures Sorted([x] + m) <==> Sorted(m) && forall k :: k in m ==> Before(x, k)
  {
    var all := [x] + m;
    if Sorted(all) {
      forall i, j | 0 <= i < j < |m| ensures Before(m[i], m[j]) { assert all[i + 1] == m[i] && all[j + 1] == m[j]; }
      forall k | k in m ensures Before(x, k) {
        var i :| 0 <= i < |m| && m[i] == k;
        assert all[i + 1] == k && all[0] == x;
      }
    }
    if Sorted(m) && forall k :: k in m ==> Before(x, k) {
      forall i, j | 0 <= i < j < |all| ensures Before(all[i], all[j]) {
        assert all[j] == m[j - 1] && all[j] in m;
        if i > 0 { assert all[i] == m[i - 1]; }
      }
    }
  }

  lemma BeforeAll(x: EventKey, y: EventKey, b: seq<EventKey>, k: EventKey)
    requires Sorted(b) && b != [] && y == b[0] && k in b && Before(x, y)
    ensures Before(x, k)
  {
    var j :| 0 <= j < |b| && b[j] == k;
    if j > 0 {
      assert Before(y, k);
      TimestampTransitive(x, y, k);
    }
  }

  lemma SortedTail(a: seq<EventKey>)
    requires Sorted(a) && a != []
    ensures Sorted(a[1..]) && forall k :: k in a[1..] ==> Before(a[0], k)
  {}

  /** One step of the merge of lists with the same first start time: what `x` is taken before. */
  lemma TakenInOrder(x: EventKey, xs: seq<EventKey>, ys: seq<EventKey>, m: seq<EventKey>)
    requires Sorted([x] + xs) && Sorted(ys) && ys != [] && forall k :: k in m <==> k in xs || k in ys
    ensures Sorted([x] + m) <==> Sorted(m) && Before(x, ys[0])
  {
    SortedHead(x, xs);
    SortedHead(x, m);
    if Before(x, ys[0]) {
      forall k | k in m ensures Before(x, k) { if k in ys { BeforeAll(x, ys[0], ys, k); } }
    }
    assert ys[0] in m;
  }

  /** A later event is never put in front of an earlier one. */
  lemma EarlierFirst(x: EventKey, y: EventKey, m: seq<EventKey>)
    requires x.startTime < y.startTime && y in m
    ensures !Sorted([x] + m)
  {
    SortedHead(x, m);
  }

  lemma StepRuns(a: seq<EventKey>, b: seq<EventKey>)
    requires Sorted(a) && Sorted(b) && |a| > 1 && b != [] && a[0].startTime == b[0].startTime
    requires Before(a[0], b[0])
    ensures RunsInto(a, b) || RunsInto(b, a)
            <==> a[1].startTime == b[0].startTime && (RunsInto(a[1..], b) || RunsInto(b, a[1..]))
  {
    var rest, lastA, lastB := a[1..], a[|a| - 1], b[|b| - 1];
    assert rest[0] == a[1] && rest[|rest| - 1] == lastA;
    assert Before(a[0], a[1]) && (a[1] == lastA || Before(a[1], lastA));
    if RunsInto(b, a) {
      var k :| 0 <= k < |a| && a[k].startTime == b[0].startTime && Before(lastB, a[k]);
      if k == 0 {
        if |b| > 1 { TimestampTransitive(a[0], b[0], lastB); }
        TimestampOrder(lastB, a[0]);
        assert false;
      }
      assert rest[k - 1] == a[k] && (k == 1 || Before(a[1], a[k]));
    }
    if a[1].startTime == b[0].startTime && RunsInto(b, rest) {
      var k :| 0 <= k < |rest| && rest[k].startTime == b[0].startTime && Before(lastB, rest[k]);
      assert a[k + 1] == rest[k];
    }
  }

  lemma NewerSplit(a: seq<EventKey>, b: seq<EventKey>)
    requires Sorted(b) && a != [] && b != [] && a[0].startTime == b[0].startTime && TakeFirst(a[0], b[0])
    ensures FirstIsNewer(a, b) <==> FirstIsNewer(a[1..], b) && Before(a[0], b[0])
  {
    StringOrder(a[0].id, b[0].id);
    assert Before(a[0], b[0]) <==> (SameEvent(a[0], b[0]) ==> a[0].timestamp > b[0].timestamp);
    if FirstIsNewer(a[1..], b) && Before(a[0], b[0]) {
      forall i, j | 0 <= i < |a| && 0 <= j < |b| && SameEvent(a[i], b[j]) ensures a[i].timestamp > b[j].timestamp {
        if i == 0 {
          BeforeAll(a[0], b[0], b, b[j]);
          TimestampOrder(a[0], b[j]);
          KeyOrder(a[0], b[j]);
        } else {
          assert a[1..][i - 1] == a[i];
        }
      }
    }
  }

  lemma NewerTail(a: seq<EventKey>, b: seq<EventKey>)
    requires Sorted(a) && a != [] && b != [] && Before(b[0], a[0]) && !SameEvent(b[0], a[0])
    ensures FirstIsNewer(a, b) <==> FirstIsNewer(a, b[1..])
  {
    forall i | 0 <= i < |a| ensures !SameEvent(a[i], b[0]) {
      BeforeAll(b[0], a[0], a, a[i]);
      TimestampOrder(b[0], a[0]);
      if i > 0 {
        TimestampOrder(a[0], a[i]);
        KeyTransitive(b[0], a[0], a[i]);
        KeyOrder(b[0], a[i]);
      }
    }
    if FirstIsNewer(a, b[1..]) {
      forall i, j | 0 <= i < |a| && 0 <= j < |b| && SameEvent(a[i], b[j]) ensures a[i].timestamp > b[j].timestamp {
        assert j > 0 && b[1..][j - 1] == b[j];
      }
    }
  }

  /** Exactly when two sorted key lists merge to a sorted one: while both last, they stay at one start time,
      and no event of the first list has a version at least as new in the second. */
  lemma {:induction false} OrderIff(a: seq<EventKey>, b: seq<EventKey>)
    requires Sorted(a) && Sorted(b)
    ensures Sorted(Merged(a, b)) <==> KeepsOrder(a, b)
    decreases |a| + |b|
  {
    if a != [] && b != [] {
      var x, y := a[0], b[0];
      SortedTail(a);
      SortedTail(b);
      assert a == [x] + a[1..] && b == [y] + b[1..];
      if TakeFirst(x, y) {
        var m := Merged(a[1..], b);
        forall k ensures k in m <==> k in a[1..] || k in b { MergedMember(a[1..], b, k); }
        OrderIff(a[1..], b);
        assert Merged(a, b) == [x] + m;
        if x.startTime == y.startTime { KeepsStepA(a, b); } else { EarlierFirst(x, y, m); }
        hide *;
        if x.startTime == y.startTime { TakenInOrder(x, a[1..], b, m); }
      } else {
        var m := Merged(a, b[1..]);
        forall k ensures k in m <==> k in a || k in b[1..] { MergedMember(a, b[1..], k); }
        OrderIff(a, b[1..]);
        assert Merged(a, b) == [y] + m;
        if x.startTime == y.startTime { KeepsStepB(a, b); } else { EarlierFirst(y, x, m); }
        hide *;
        if x.startTime == y.startTime { TakenInOrder(y, b[1..], a, m); }
      }
    }
  }

  lemma KeepsStepA(a: seq<EventKey>, b: seq<EventKey>)
    requires Sorted(a) && Sorted(b) && a != [] && b != [] && a[0].startTime == b[0].startTime && TakeFirst(a[0], b[0])
    ensures KeepsOrder(a, b) <==> KeepsOrder(a[1..], b) && Before(a[0], b[0])
  {
    NewerSplit(a, b);
    if Before(a[0], b[0]) {
      if |a| > 1 { StepRuns(a, b); } else { assert RunsInto(a, b); }
    }
  }

  lemma KeepsStepB(a: seq<EventKey>, b: seq<EventKey>)
    requires Sorted(a) && Sorted(b) && a != [] && b != [] && a[0].startTime == b[0].startTime && !TakeFirst(a[0], b[0])
    ensures KeepsOrder(a, b) <==> KeepsOrder(a, b[1..])
    ensures Before(b[0], a[0])
  {
    StringOrder(a[0].id, b[0].id);
    NewerTail(a, b);
    if |b| > 1 { StepRuns(b, a); } else { assert RunsInto(b, a); }
  }

  /** But index keys fall, and two falling lists need not merge to a falling one. */
  lemma MergedNeedNotFall()
    ensures exists a, b :: Sorted(a) && Sorted(b) && !Sorted(Merged(a, b))
  {
    var late := EventKey("", "", 1_000_000_000, "x", 1, false);
    var early := late.(startTime := 0, id := "y");
    assert [late][1..] == [] && [early][1..] == [];
    assert Merged([late], [early]) == [early] + Merged([late], []);
    assert Merged([late], [early])[0] == early && Merged([late], [early])[1] == late;
    assert Sorted([late]) && Sorted([early]) && !Sorted(Merged([late], [early]));
  }
}
