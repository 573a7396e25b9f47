/** Event keys and the two orders on them. */
module Keys {
  import opened Words

  /** Instants are nanoseconds since the epoch, within the range of whole seconds in an int64. */
  type Instant = t: int | -0x8000_0000_0000_0000 <= t / 1_000_000_000 < 0x8000_0000_0000_0000

  /** `time.Time.Unix`: whole seconds, rounded down. */
  function Unix(t: Instant): int64 {
    t / 1_000_000_000
  }

  lemma UnixSeconds(t: Instant)
    ensures Unix(t) * 1_000_000_000 <= t < (Unix(t) + 1) * 1_000_000_000
  {}

  datatype EventKey = EventKey(
    resourceTypeCode: string,
    resourceExternalID: string,
    startTime: Instant,
    id: string,
    timestamp: uint64,
    isDeleted: bool)

  /** Lexicographic comparison of strings. */
  function CompareString(a: string, b: string): int {
    if a == [] && b == [] then 0
    else if a == [] then -1
    else if b == [] then 1
    else if a[0] < b[0] then -1
    else if a[0] > b[0] then 1
    else CompareString(a[1..], b[1..])
  }

  function CompareEventKey(a: EventKey, b: EventKey): int {
    if a.startTime > b.startTime then 1
    else if a.startTime < b.startTime then -1
    else if CompareString(a.id, b.id) > 0 then 1
    else if CompareString(a.id, b.id) < 0 then -1
    else 0
  }

  function CompareEventKeyTimestamp(a: EventKey, b: EventKey): int {
    if a.startTime > b.startTime then -1
    else if a.startTime < b.startTime then 1
    else if CompareString(a.id, b.id) > 0 then -1
    else if CompareString(a.id, b.id) < 0 then 1
    else if a.timestamp < b.timestamp then 1
    else if a.timestamp > b.timestamp then -1
    else 0
  }

  /** The comparator of the memtable's skiplist; the list runs against it. */
  function MemTableCompare(a: EventKey, b: EventKey): int {
    if a.startTime > b.startTime then 1
    else if a.startTime < b.startTime then -1
    else if CompareString(a.id, b.id) > 0 then 1
    else if CompareString(a.id, b.id) < 0 then -1
    else if a.timestamp < b.timestamp then -1
    else if a.timestamp > b.timestamp then 1
    else 0
  }

  lemma {:induction false} StringOrder(a: string, b: string)
    ensures CompareString(a, b) == -CompareString(b, a)
    ensures CompareString(a, b) == 0 <==> a == b
    ensures CompareString(a, b) in {-1, 0, 1}
  {
    if a != [] && b != [] && a[0] == b[0] {
      StringOrder(a[1..], b[1..]);
      assert a == [a[0]] + a[1..] && b == [b[0]] + b[1..];
    }
  }

  /** The smaller string ends first, or has the smaller character where the two first differ. */
  lemma {:induction false} StringDirection(a: string, b: string)
    ensures CompareString(a, b) < 0
        <==> exists n :: 0 <= n <= |a| && n <= |b| && a[..n] == b[..n] && n < |b| && (n == |a| || a[n] < b[n])
  {
    if CompareString(a, b) < 0 {
      var n := Difference(a, b);
    }
    if n :| 0 <= n <= |a| && n <= |b| && a[..n] == b[..n] && n < |b| && (n == |a| || a[n] < b[n]) { DiffersAt(a, b, n); }
  }

  lemma {:induction false} Difference(a: string, b: string) returns (n: nat)
    requires CompareString(a, b) < 0
    ensures n <= |a| && n < |b| && a[..n] == b[..n] && (n == |a| || a[n] < b[n])
  {
    if a == [] || a[0] < b[0] {
      n := 0;
    } else {
      var m := Difference(a[1..], b[1..]);
      n := m + 1;
      assert a[..n] == [a[0]] + a[1..][..m] && b[..n] == [b[0]] + b[1..][..m];
    }
  }

  lemma {:induction false} DiffersAt(a: string, b: string, n: nat)
    requires n <= |a| && n < |b| && a[..n] == b[..n] && (n == |a| || a[n] < b[n])
    ensures CompareString(a, b) < 0
  {
    if n > 0 {
      assert a[0] == a[..n][0] == b[..n][0] == b[0];
      assert a[1..][..n - 1] == a[..n][1..] && b[1..][..n - 1] == b[..n][1..];
      DiffersAt(a[1..], b[1..], n - 1);
    }
  }

  lemma {:induction false} StringTransitive(a: string, b: string, c: string)
    requires CompareString(a, b) >= 0 && CompareString(b, c) >= 0
    ensures CompareString(a, c) >= 0
    ensures CompareString(a, b) > 0 || CompareString(b, c) > 0 ==> CompareString(a, c) > 0
  {
    if a != [] && b != [] && c != [] && a[0] == b[0] == c[0] {
      StringTransitive(a[1..], b[1..], c[1..]);
    }
  }

  /** Same event: same start time and id. */
  predicate SameEvent(a: EventKey, b: EventKey) {
    a.startTime == b.startTime && a.id == b.id
  }

  /** `compareEventKey` is a total order on start times and ids. */
  lemma KeyOrder(a: EventKey, b: EventKey)
    ensures CompareEventKey(a, b) == -CompareEventKey(b, a)
    ensures CompareEventKey(a, b) in {-1, 0, 1}
    ensures CompareEventKey(a, b) == 0 <==> SameEvent(a, b)
  {
    StringOrder(a.id, b.id);
  }

  /** The later event is the greater, and of two at one time the one with the greater id. */
  lemma KeyDirection(a: EventKey, b: EventKey)
    ensures CompareEventKey(a, b) > 0 <==> a.startTime > b.startTime || (a.startTime == b.startTime && CompareString(b.id, a.id) < 0)
  {
    StringOrder(a.id, b.id);
  }

  lemma KeyTransitive(a: EventKey, b: EventKey, c: EventKey)
    requires CompareEventKey(a, b) >= 0 && CompareEventKey(b, c) >= 0
    ensures CompareEventKey(a, c) >= 0
    ensures CompareEventKey(a, b) > 0 || CompareEventKey(b, c) > 0 ==> CompareEventKey(a, c) > 0
  {
    if a.startTime == b.startTime == c.startTime { StringTransitive(a.id, b.id, c.id); }
  }

  /** `compareEventKeyTimestamp` refines it: later events first, newer versions first. */
  lemma TimestampOrder(a: EventKey, b: EventKey)
    ensures CompareEventKeyTimestamp(a, b) == -CompareEventKeyTimestamp(b, a)
    ensures CompareEventKeyTimestamp(a, b) in {-1, 0, 1}
    ensures CompareEventKeyTimestamp(a, b) == 0 <==> SameEvent(a, b) && a.timestamp == b.timestamp
    ensures CompareEventKeyTimestamp(a, b) < 0 <==>
              CompareEventKey(a, b) > 0 || (SameEvent(a, b) && a.timestamp > b.timestamp)
  {
    StringOrder(a.id, b.id);
  }

  lemma TimestampTransitive(a: EventKey, b: EventKey, c: EventKey)
    requires CompareEventKeyTimestamp(a, b) <= 0 && CompareEventKeyTimestamp(b, c) <= 0
    ensures CompareEventKeyTimestamp(a, c) <= 0
    ensures CompareEventKeyTimestamp(a, b) < 0 || CompareEventKeyTimestamp(b, c) < 0 ==> CompareEventKeyTimestamp(a, c) < 0
  {
    StringOrder(a.id, b.id);
    StringOrder(b.id, c.id);
    StringOrder(a.id, c.id);
    if a.startTime == b.startTime == c.startTime && CompareString(a.id, b.id) >= 0 && CompareString(b.id, c.id) >= 0 {
      StringTransitive(a.id, b.id, c.id);
    }
  }

  /** The skiplist, which lists keys against its comparator, is in the index order. */
  lemma MemTableOrder(a: EventKey, b: EventKey)
    ensures MemTableCompare(b, a) == CompareEventKeyTimestamp(a, b)
  {
    StringOrder(a.id, b.id);
  }

  /** Strictly sorted keys, as a memtable lists them and an index built from it stores them. */
  ghost predicate Sorted(keys: seq<EventKey>) {
    forall i, j :: 0 <= i < j < |keys| ==> CompareEventKeyTimestamp(keys[i], keys[j]) < 0
  }

  /** No id occurs with two start times. */
  ghost predicate OneStart(keys: seq<EventKey>) {
    forall i, j :: 0 <= i < |keys| && 0 <= j < |keys| && keys[i].id == keys[j].id ==> keys[i].startTime == keys[j].startTime
  }

  /** The versions of an id are contiguous, newest first. */
  lemma VersionsContiguous(keys: seq<EventKey>, i: nat, j: nat, k: nat)
    requires Sorted(keys) && OneStart(keys) && i <= j <= k < |keys|
    requires keys[i].id == keys[k].id
    ensures keys[j].id == keys[i].id
    ensures i < j ==> keys[i].timestamp > keys[j].timestamp
  {
    if i < j {
      TimestampOrder(keys[i], keys[j]);
      KeyOrder(keys[i], keys[j]);
      KeyOrder(keys[i], keys[k]);
      if j < k {
        TimestampOrder(keys[j], keys[k]);
        KeyOrder(keys[j], keys[k]);
        if CompareEventKey(keys[i], keys[j]) > 0 && CompareEventKey(keys[j], keys[k]) >= 0 {
          KeyTransitive(keys[i], keys[j], keys[k]);
        }
      }
    }
  }

  /** The versions of every id are neighbours, newest first. */
  ghost predicate Grouped(keys: seq<EventKey>) {
    && (forall i, j :: 0 <= i < j < |keys| && keys[i].id == keys[j].id ==> keys[i].timestamp > keys[j].timestamp)
    && (forall i, m, j :: 0 <= i < m < j < |keys| && keys[i].id == keys[j].id ==> keys[m].id == keys[i].id)
  }

  lemma SortedGrouped(keys: seq<EventKey>)
    requires Sorted(keys) && OneStart(keys)
    ensures Grouped(keys)
  {
    hide Sorted, OneStart;
    forall i, j | 0 <= i < j < |keys| && keys[i].id == keys[j].id ensures keys[i].timestamp > keys[j].timestamp {
      VersionsContiguous(keys, i, j, j);
    }
    forall i, m, j | 0 <= i < m < j < |keys| && keys[i].id == keys[j].id ensures keys[m].id == keys[i].id {
      VersionsContiguous(keys, i, m, j);
    }
  }
}
