/** Which indices their iterator shows rightly. */
module Grouping {
  import opened Words
  import opened Wrappers
  import opened Bitmaps
  import opened Keys
  import opened IndexIterators

  /** Over these rows and at this snapshot, the iterator emits exactly the newest versions. */
  ghost predicate ShowsNewestAt(keys: seq<EventKey>, s: set<Row>, ts: uint64)
    requires InRange(Ascending(s), |keys|) && forall x :: x in s ==> x < |keys|
  {
    forall r: Row :: r in Emitted(keys, Ascending(s), ts, None) <==> NewestIn(keys, s, ts, r)
  }

  ghost predicate ShowsNewest(keys: seq<EventKey>) {
    forall s: set<Row>, ts: uint64 | InRange(Ascending(s), |keys|) && forall x :: x in s ==> x < |keys| :: ShowsNewestAt(keys, s, ts)
  }

  lemma AscendingPair(i: Row, j: Row)
    requires i < j
    ensures Ascending({i, j}) == [i, j]
  {
    var xs := Ascending({i, j});
    AscendingOrdered({i, j}, 0, 1);
    AscendingMember({i, j}, xs[0]);
    AscendingMember({i, j}, xs[1]);
  }

  lemma AscendingTriple(i: Row, m: Row, j: Row)
    requires i < m < j
    ensures Ascending({i, m, j}) == [i, m, j]
  {
    var xs := Ascending({i, m, j});
    assert |{i, m, j}| == 3;
    AscendingOrdered({i, m, j}, 0, 1);
    AscendingOrdered({i, m, j}, 1, 2);
    AscendingMember({i, m, j}, xs[0]);
    AscendingMember({i, m, j}, xs[1]);
    AscendingMember({i, m, j}, xs[2]);
  }

  /** A version is not shown after one that is no newer. */
  lemma LateNewest(keys: seq<EventKey>, i: Row, j: Row)
    requires i < j < |keys| && keys[i].id == keys[j].id && keys[i].timestamp <= keys[j].timestamp
    ensures !ShowsNewest(keys)
  {
    var s, ts := {i, j}, keys[j].timestamp;
    AscendingPair(i, j);
    var rest: seq<Row> := [j];
    assert [i, j][1..] == rest && rest[1..] == [];
    assert Emitted(keys, rest, ts, Some(keys[i].id)) == [];
    assert Emitted(keys, [i, j], ts, None) == [i];
    assert InRange(Ascending(s), |keys|) && NewestIn(keys, s, ts, j);
    assert !ShowsNewestAt(keys, s, ts);
  }

  /** A version is shown again after a row of another event. */
  lemma ShownAgain(keys: seq<EventKey>, i: Row, m: Row, j: Row)
    requires i < m < j < |keys| && keys[i].id == keys[j].id != keys[m].id && keys[i].timestamp > keys[j].timestamp
    ensures !ShowsNewest(keys)
  {
    var s: set<Row> := {i, m, j};
    var ts := if keys[m].timestamp > keys[i].timestamp then keys[m].timestamp else keys[i].timestamp;
    AscendingTriple(i, m, j);
    var two: seq<Row>, one: seq<Row> := [m, j], [j];
    assert [i, m, j][1..] == two && two[1..] == one && one[1..] == [];
    assert Emitted(keys, one, ts, Some(keys[m].id)) == [j];
    assert Emitted(keys, two, ts, Some(keys[i].id)) == [m] + [j];
    assert Emitted(keys, [i, m, j], ts, None) == [i] + ([m] + [j]);
    assert j in Emitted(keys, [i, m, j], ts, None);
    assert InRange(Ascending(s), |keys|) && i in s && !NewestIn(keys, s, ts, j);
    assert !ShowsNewestAt(keys, s, ts);
  }

  /** For keys in any order: the iterator emits exactly the newest visible versions, for every posting and
      snapshot, if and only if the versions of every id are neighbours, newest first. */
  lemma ShowsNewestIff(keys: seq<EventKey>)
    requires |keys| <= 0x1_0000_0000
    ensures ShowsNewest(keys) <==> Grouped(keys)
  {
    hide Grouped, ShowsNewestAt;
    if Grouped(keys) {
      forall s: set<Row>, ts: uint64 | InRange(Ascending(s), |keys|) && forall x :: x in s ==> x < |keys| ensures ShowsNewestAt(keys, s, ts) {
        ShowsNewestOver(keys, s, ts);
      }
    } else {
      NotGroupedFails(keys);
    }
  }

  lemma ShowsNewestOver(keys: seq<EventKey>, s: set<Row>, ts: uint64)
    requires Grouped(keys) && InRange(Ascending(s), |keys|) && forall x :: x in s ==> x < |keys|
    ensures ShowsNewestAt(keys, s, ts)
  {
    forall r: Row ensures r in Emitted(keys, Ascending(s), ts, None) <==> NewestIn(keys, s, ts, r) { EmittedIsNewest(keys, s, ts, r); }
  }

  lemma NotGroupedFails(keys: seq<EventKey>)
    requires |keys| <= 0x1_0000_0000 && !Grouped(keys)
    ensures !ShowsNewest(keys)
  {
    hide ShowsNewest;
    if i, j :| 0 <= i < j < |keys| && keys[i].id == keys[j].id && keys[i].timestamp <= keys[j].timestamp {
      LateNewest(keys, i, j);
    } else {
      var i, m, j :| 0 <= i < m < j < |keys| && keys[i].id == keys[j].id && keys[m].id != keys[i].id;
      ShownAgain(keys, i, m, j);
    }
  }
}
