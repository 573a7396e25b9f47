/** When merging two indices keeps the versions of every event together. */
module MergedVersions {
  import opened Wrappers
  import opened Words
  import opened Bitmaps
  import opened Keys
  import opened Merging
  import opened Interleaving
  import opened IndexIterators
  import opened Grouping

  /** `a[i]` and `b[j]` are versions of one id, and `a[i]` is put first: it is newer, and nothing of another id is
      put between them. */
  ghost predicate MeetsB(a: seq<EventKey>, i: nat, b: seq<EventKey>, j: nat)
    requires i < |a| && j < |b|
  {
    && a[i].timestamp > b[j].timestamp
    && (forall m :: i < m < |a| && HeldBack(a, m, b, j) ==> a[m].id == a[i].id)
    && (forall m :: 0 <= m < j && HeldBack(a, i, b, m) ==> b[m].id == a[i].id)
  }

  /** And so if `b[j]` is put first. */
  ghost predicate MeetsA(a: seq<EventKey>, i: nat, b: seq<EventKey>, j: nat)
    requires i < |a| && j < |b|
  {
    && b[j].timestamp > a[i].timestamp
    && (forall m :: 0 <= m < i && !HeldBack(a, m, b, j) ==> a[m].id == b[j].id)
    && (forall m :: j < m < |b| && !HeldBack(a, i, b, m) ==> b[m].id == b[j].id)
  }

  /** Wherever both lists have versions of one id, the newer ones are put right before the older ones. */
  ghost predicate VersionsMeet(a: seq<EventKey>, b: seq<EventKey>) {
    forall i, j :: 0 <= i < |a| && 0 <= j < |b| && a[i].id == b[j].id ==>
      if HeldBack(a, i, b, j) then MeetsB(a, i, b, j) else MeetsA(a, i, b, j)
  }

  /** Keys of one id and start time are taken before the same keys, and nothing comes between them. */
  lemma RunTogetherA(a: seq<EventKey>, b: seq<EventKey>, i: nat, k: nat, j: nat)
    requires Grouped(a) && OneStart(a) && i < k < |a| && j < |b| && a[i].id == a[k].id
    ensures HeldBack(a, i, b, j) <==> HeldBack(a, k, b, j)
  {
    if n :| 0 <= n <= j && PassedBy(a, i, b[n]) {
      forall m | 0 <= m <= k ensures TakeFirst(a[m], b[n]) {
        if m > i { assert a[m].id == a[i].id && a[m].startTime == a[i].startTime && TakeFirst(a[i], b[n]); }
      }
      assert PassedBy(a, k, b[n]);
    }
    if n :| 0 <= n <= j && PassedBy(a, k, b[n]) { assert PassedBy(a, i, b[n]); }
  }

  lemma RunTogetherB(a: seq<EventKey>, b: seq<EventKey>, i: nat, j: nat, k: nat)
    requires Grouped(b) && OneStart(b) && i < |a| && j < k < |b| && b[j].id == b[k].id
    ensures HeldBack(a, i, b, j) <==> HeldBack(a, i, b, k)
  {
    if n :| 0 <= n <= k && PassedBy(a, i, b[n]) {
      var o := if n > j then j else n;
      if n > j { assert b[n].id == b[j].id && b[n].startTime == b[j].startTime; }
      forall m | 0 <= m <= i ensures TakeFirst(a[m], b[o]) { assert TakeFirst(a[m], b[n]); }
      assert PassedBy(a, i, b[o]);
    }
  }

  /** What the places of all keys say. */
  ghost predicate Placed(a: seq<EventKey>, b: seq<EventKey>) {
    && (forall i, k :: 0 <= i < k < |a| ==> PlaceA(a, b, i) < PlaceA(a, b, k))
    && (forall j, k :: 0 <= j < k < |b| ==> PlaceB(a, b, j) < PlaceB(a, b, k))
    && (forall i, j :: 0 <= i < |a| && 0 <= j < |b| ==>
          PlaceA(a, b, i) != PlaceB(a, b, j) && (PlaceA(a, b, i) < PlaceB(a, b, j) <==> HeldBack(a, i, b, j)))
  }

  lemma AllPlaced(a: seq<EventKey>, b: seq<EventKey>)
    ensures Placed(a, b)
  {
    PlacesRise(a, b);
    hide PlaceA, PlaceB, HeldBack;
    forall i, j | 0 <= i < |a| && 0 <= j < |b|
      ensures PlaceA(a, b, i) != PlaceB(a, b, j) && (PlaceA(a, b, i) < PlaceB(a, b, j) <==> HeldBack(a, i, b, j))
    {
      PlacedBeforeIff(a, i, b, j);
    }
  }

  /** For lists in any order that keep versions together: the merged list does so if and only if the versions
      of a common id meet. */
  lemma MergedGroupedIff(a: seq<EventKey>, b: seq<EventKey>)
    requires Grouped(a) && Grouped(b) && OneStart(a) && OneStart(b)
    ensures Grouped(Merged(a, b)) <==> VersionsMeet(a, b)
  {
    AllPlaced(a, b);
    hide *;
    if Grouped(Merged(a, b)) { GroupedMeet(a, b); }
    if VersionsMeet(a, b) { MeetGrouped(a, b); }
  }

  lemma GroupedMeet(a: seq<EventKey>, b: seq<EventKey>)
    requires Grouped(Merged(a, b)) && Placed(a, b)
    ensures VersionsMeet(a, b)
  {
    hide Grouped, Placed, MeetsA, MeetsB, HeldBack, PlaceA, PlaceB;
    forall i, j | 0 <= i < |a| && 0 <= j < |b| && a[i].id == b[j].id
      ensures if HeldBack(a, i, b, j) then MeetsB(a, i, b, j) else MeetsA(a, i, b, j)
    {
      if HeldBack(a, i, b, j) { GroupedMeetB(a, b, i, j); } else { GroupedMeetA(a, b, i, j); }
    }
  }

  lemma GroupedMeetB(a: seq<EventKey>, b: seq<EventKey>, i: nat, j: nat)
    requires Grouped(Merged(a, b)) && Placed(a, b) && i < |a| && j < |b| && a[i].id == b[j].id && HeldBack(a, i, b, j)
    ensures MeetsB(a, i, b, j)
  {
    var keys, p, q := Merged(a, b), PlaceA(a, b, i), PlaceB(a, b, j);
    assert p < q && keys[p].id == keys[q].id;
    hide HeldBack, Merged, PlaceA, PlaceB;
    forall m | i < m < |a| && HeldBack(a, m, b, j) ensures a[m].id == a[i].id {
      assert p < PlaceA(a, b, m) < q && keys[PlaceA(a, b, m)].id == keys[p].id;
    }
    forall m | 0 <= m < j && HeldBack(a, i, b, m) ensures b[m].id == a[i].id {
      assert p < PlaceB(a, b, m) < q && keys[PlaceB(a, b, m)].id == keys[p].id;
    }
  }

  lemma GroupedMeetA(a: seq<EventKey>, b: seq<EventKey>, i: nat, j: nat)
    requires Grouped(Merged(a, b)) && Placed(a, b) && i < |a| && j < |b| && a[i].id == b[j].id && !HeldBack(a, i, b, j)
    ensures MeetsA(a, i, b, j)
  {
    var keys, p, q := Merged(a, b), PlaceB(a, b, j), PlaceA(a, b, i);
    assert p < q && keys[p].id == keys[q].id;
    hide HeldBack, Merged, PlaceA, PlaceB;
    forall m | 0 <= m < i && !HeldBack(a, m, b, j) ensures a[m].id == b[j].id {
      assert p < PlaceA(a, b, m) < q && keys[PlaceA(a, b, m)].id == keys[p].id;
    }
    forall m | j < m < |b| && !HeldBack(a, i, b, m) ensures b[m].id == b[j].id {
      assert p < PlaceB(a, b, m) < q && keys[PlaceB(a, b, m)].id == keys[p].id;
    }
  }

  lemma MeetGrouped(a: seq<EventKey>, b: seq<EventKey>)
    requires Grouped(a) && Grouped(b) && OneStart(a) && OneStart(b) && Placed(a, b) && VersionsMeet(a, b)
    ensures Grouped(Merged(a, b))
  {
    var keys := Merged(a, b);
    forall p, q | 0 <= p < q < |keys| && keys[p].id == keys[q].id
      ensures keys[p].timestamp > keys[q].timestamp && forall m :: p < m < q ==> keys[m].id == keys[p].id
    {
      SomeKey(a, b, p);
      SomeKey(a, b, q);
      hide Grouped, OneStart, Placed, VersionsMeet, PlaceA, PlaceB, Merged;
      if i :| 0 <= i < |a| && PlaceA(a, b, i) == p {
        if k :| 0 <= k < |a| && PlaceA(a, b, k) == q { MeetAA(a, b, i, k); }
        if j :| 0 <= j < |b| && PlaceB(a, b, j) == q { MeetAB(a, b, i, j); }
      }
      if j :| 0 <= j < |b| && PlaceB(a, b, j) == p {
        if k :| 0 <= k < |b| && PlaceB(a, b, k) == q { MeetBB(a, b, j, k); }
        if i :| 0 <= i < |a| && PlaceA(a, b, i) == q { MeetBA(a, b, i, j); }
      }
    }
  }

  lemma MeetAA(a: seq<EventKey>, b: seq<EventKey>, i: nat, k: nat)
    requires Grouped(a) && OneStart(a) && Placed(a, b) && i < |a| && k < |a| && a[i].id == a[k].id && PlaceA(a, b, i) < PlaceA(a, b, k)
    ensures a[i].timestamp > a[k].timestamp
    ensures forall m :: PlaceA(a, b, i) < m < PlaceA(a, b, k) ==> Merged(a, b)[m].id == a[i].id
  {
    hide Merged, PlaceA, PlaceB, HeldBack, OneStart;
    assert i < k;
    forall m | PlaceA(a, b, i) < m < PlaceA(a, b, k) ensures Merged(a, b)[m].id == a[i].id {
      SomeKey(a, b, m);
      if j :| 0 <= j < |b| && PlaceB(a, b, j) == m {
        RunTogetherA(a, b, i, k, j);
        assert false;
      }
    }
  }

  lemma MeetBB(a: seq<EventKey>, b: seq<EventKey>, j: nat, k: nat)
    requires Grouped(b) && OneStart(b) && Placed(a, b) && j < |b| && k < |b| && b[j].id == b[k].id && PlaceB(a, b, j) < PlaceB(a, b, k)
    ensures b[j].timestamp > b[k].timestamp
    ensures forall m :: PlaceB(a, b, j) < m < PlaceB(a, b, k) ==> Merged(a, b)[m].id == b[j].id
  {
    hide Merged, PlaceA, PlaceB, HeldBack, OneStart;
    assert j < k;
    forall m | PlaceB(a, b, j) < m < PlaceB(a, b, k) ensures Merged(a, b)[m].id == b[j].id {
      SomeKey(a, b, m);
      if i :| 0 <= i < |a| && PlaceA(a, b, i) == m {
        RunTogetherB(a, b, i, j, k);
        assert false;
      }
    }
  }

  lemma MeetAB(a: seq<EventKey>, b: seq<EventKey>, i: nat, j: nat)
    requires Placed(a, b) && VersionsMeet(a, b) && i < |a| && j < |b| && a[i].id == b[j].id && PlaceA(a, b, i) < PlaceB(a, b, j)
    ensures a[i].timestamp > b[j].timestamp
    ensures forall m :: PlaceA(a, b, i) < m < PlaceB(a, b, j) ==> Merged(a, b)[m].id == a[i].id
  {
    assert MeetsB(a, i, b, j) by { hide MeetsA, MeetsB; }
    hide VersionsMeet, Placed, PlaceA, PlaceB, Merged, HeldBack;
    forall m | PlaceA(a, b, i) < m < PlaceB(a, b, j) ensures Merged(a, b)[m].id == a[i].id { BetweenAB(a, b, i, j, m); }
  }

  lemma BetweenAB(a: seq<EventKey>, b: seq<EventKey>, i: nat, j: nat, m: nat)
    requires i < |a| && j < |b| && MeetsB(a, i, b, j) && a[i].id == b[j].id
    requires PlaceA(a, b, i) < m < PlaceB(a, b, j)
    ensures Merged(a, b)[m].id == a[i].id
  {
    SomeKey(a, b, m);
    hide PlaceA, PlaceB, HeldBack, Merged;
    if k :| 0 <= k < |a| && PlaceA(a, b, k) == m {
      PlacedBeforeIff(a, k, b, j);
      PlacesRiseA(a, b, i, k);
    } else {
      var k :| 0 <= k < |b| && PlaceB(a, b, k) == m;
      PlacedBeforeIff(a, i, b, k);
      PlacesRiseB(a, b, j, k);
    }
  }

  lemma MeetBA(a: seq<EventKey>, b: seq<EventKey>, i: nat, j: nat)
    requires Placed(a, b) && VersionsMeet(a, b) && i < |a| && j < |b| && a[i].id == b[j].id && PlaceB(a, b, j) < PlaceA(a, b, i)
    ensures b[j].timestamp > a[i].timestamp
    ensures forall m :: PlaceB(a, b, j) < m < PlaceA(a, b, i) ==> Merged(a, b)[m].id == b[j].id
  {
    assert MeetsA(a, i, b, j) by { hide MeetsA, MeetsB; }
    hide VersionsMeet, Placed, PlaceA, PlaceB, Merged, HeldBack;
    forall m | PlaceB(a, b, j) < m < PlaceA(a, b, i) ensures Merged(a, b)[m].id == b[j].id { BetweenBA(a, b, i, j, m); }
  }

  lemma BetweenBA(a: seq<EventKey>, b: seq<EventKey>, i: nat, j: nat, m: nat)
    requires i < |a| && j < |b| && MeetsA(a, i, b, j) && a[i].id == b[j].id
    requires PlaceB(a, b, j) < m < PlaceA(a, b, i)
    ensures Merged(a, b)[m].id == b[j].id
  {
    SomeKey(a, b, m);
    hide PlaceA, PlaceB, HeldBack, Merged;
    if k :| 0 <= k < |a| && PlaceA(a, b, k) == m {
      PlacedBeforeIff(a, k, b, j);
      PlacesRiseA(a, b, i, k);
    } else {
      var k :| 0 <= k < |b| && PlaceB(a, b, k) == m;
      PlacedBeforeIff(a, i, b, k);
      PlacesRiseB(a, b, j, k);
    }
  }

  /** So a merged index shows exactly the newest versions, for every posting and snapshot, if and only if the
      versions of a common id meet, given that the two indices do. */
  lemma MergedShowsNewestIff(a: seq<EventKey>, b: seq<EventKey>)
    requires OneStart(a) && OneStart(b) && |a| + |b| <= 0x1_0000_0000 && ShowsNewest(a) && ShowsNewest(b)
    ensures ShowsNewest(Merged(a, b)) <==> VersionsMeet(a, b)
  {
    ShowsNewestIff(a);
    ShowsNewestIff(b);
    MergedLength(a, b);
    ShowsNewestIff(Merged(a, b));
    MergedGroupedIff(a, b);
    hide *;
  }

  lemma {:induction false} MergedLength(a: seq<EventKey>, b: seq<EventKey>)
    ensures |Merged(a, b)| == |a| + |b|
  {
    if a != [] && b != [] {
      if TakeFirst(a[0], b[0]) { MergedLength(a[1..], b); } else { MergedLength(a, b[1..]); }
    }
  }

  /** So merging indices without common ids keeps versions together, in whatever order the keys end up. */
  lemma DisjointGrouped(a: seq<EventKey>, b: seq<EventKey>)
    requires Grouped(a) && Grouped(b) && OneStart(a) && OneStart(b)
    requires forall x, y :: x in a && y in b ==> x.id != y.id
    ensures Grouped(Merged(a, b))
  {
    assert VersionsMeet(a, b);
    MergedGroupedIff(a, b);
  }

  /** With a common id it may not: an older version in the first index comes before a newer one in the
      second, and from then on the newer one is never shown beside it. */
  lemma MergeHidesUpdate(x: EventKey, y: EventKey, ts: uint64)
    requires SameEvent(x, y) && x.timestamp < y.timestamp <= ts
    ensures Merged([x], [y]) == [x, y] && !Grouped(Merged([x], [y]))
    ensures Ascending({0, 1}) == [0, 1] && InRange([0, 1], 2) && Emitted(Merged([x], [y]), [0, 1], ts, None) == [0]
  {
    StringOrder(x.id, y.id);
    assert [x][1..] == [] && Merged([], [y]) == [y];
    assert Merged([x], [y]) == [x] + [y];
    var keys := [x, y];
    assert Merged([x], [y]) == keys && keys[0].id == keys[1].id;
    AscendingPair(0, 1);
    var rows: seq<Row>, rest: seq<Row> := [0, 1], [1];
    assert rows[1..] == rest && rest[1..] == [];
    assert Emitted(keys, rest, ts, Some(x.id)) == [];
    assert Emitted(keys, rows, ts, None) == [0] + Emitted(keys, rest, ts, Some(x.id));
  }
}
