/** The compaction levels and `mergeLevel`. */
module Levels {
  import opened Wrappers
  import opened Keys
  import opened Index
  import opened Merging

  /** The rows of a level, if it is not empty. */
  type Level<T> = Option<multiset<T>>

  const LEVELS: nat := 4

  function LevelLimit(i: nat): nat {
    match i
    case 0 => 256_000
    case 1 => 1_024_000
    case _ => 4_096_000
  }

  function RowsIn<T>(l: Level<T>): multiset<T> {
    if l.None? then multiset{} else l.value
  }

  /** All rows of all levels. */
  function AllRows<T>(levels: seq<Level<T>>): multiset<T> {
    if levels == [] then multiset{} else AllRows(levels[..|levels| - 1]) + RowsIn(levels[|levels| - 1])
  }

  lemma {:induction false} NoRows<T>(levels: seq<Level<T>>)
    requires forall i :: 0 <= i < |levels| ==> levels[i].None?
    ensures AllRows(levels) == multiset{}
  {
    if levels != [] { NoRows(levels[..|levels| - 1]); }
  }

  /** Level `i` moves down when it has reached its limit. */
  function Spill<T>(levels: seq<Level<T>>, i: nat): (r: seq<Level<T>>)
    requires i + 1 < |levels|
    ensures |r| == |levels|
  {
    if levels[i].Some? && |levels[i].value| >= LevelLimit(i) then
      levels[i + 1 := Some(levels[i].value + RowsIn(levels[i + 1]))][i := None]
    else levels
  }

  function SpillTo<T>(levels: seq<Level<T>>, n: nat): (r: seq<Level<T>>)
    requires n < |levels|
    ensures |r| == |levels|
  {
    if n == 0 then levels else Spill(SpillTo(levels, n - 1), n - 1)
  }

  /** What merging an index does to the levels. */
  function MergeRows<T>(levels: seq<Level<T>>, rows: multiset<T>): (r: seq<Level<T>>)
    requires |levels| == LEVELS
    ensures |r| == LEVELS
  {
    SpillTo(levels[0 := Some(RowsIn(levels[0]) + rows)], LEVELS - 1)
  }

  /** A level that is kept has room left. */
  predicate Settled<T>(levels: seq<Level<T>>, n: nat)
    requires n <= |levels|
  {
    forall i :: 0 <= i < n ==> levels[i].None? || |levels[i].value| < LevelLimit(i)
  }

  lemma {:induction false} SpillSettles<T>(levels: seq<Level<T>>, n: nat)
    requires n < |levels|
    ensures Settled(SpillTo(levels, n), n)
  {
    if n > 0 { SpillSettles(levels, n - 1); }
  }

  lemma {:induction false} AllRowsUpdate<T>(levels: seq<Level<T>>, i: nat, l: Level<T>)
    requires i < |levels|
    ensures AllRows(levels[i := l]) + RowsIn(levels[i]) == AllRows(levels) + RowsIn(l)
  {
    var n := |levels| - 1;
    if i < n {
      assert levels[i := l][..n] == levels[..n][i := l];
      AllRowsUpdate(levels[..n], i, l);
      AddRest(AllRows(levels[..n][i := l]), AllRows(levels[..n]), RowsIn(levels[i]), RowsIn(l), RowsIn(levels[n]));
    } else {
      assert levels[i := l][..n] == levels[..n];
    }
  }

  lemma AddRest<T>(a: multiset<T>, b: multiset<T>, x: multiset<T>, y: multiset<T>, r: multiset<T>)
    requires a + x == b + y
    ensures (a + r) + x == (b + r) + y
  {
    forall k ensures ((a + r) + x)[k] == ((b + r) + y)[k] { assert (a + x)[k] == (b + y)[k]; }
  }

  /** Moving a level down loses no row. */
  lemma SpillOne<T>(l: seq<Level<T>>, i: nat)
    requires i + 1 < |l|
    ensures AllRows(Spill(l, i)) == AllRows(l)
  {
    hide AllRows;
    if l[i].Some? {
      var down := Some(l[i].value + RowsIn(l[i + 1]));
      var l' := l[i + 1 := down];
      AllRowsUpdate(l, i + 1, down);
      AllRowsUpdate(l', i, None);
      SpilledRows(AllRows(l), AllRows(l'), AllRows(l'[i := None]), l[i].value, RowsIn(l[i + 1]));
    }
  }

  lemma {:induction false} SpillConserves<T>(levels: seq<Level<T>>, n: nat)
    requires n < |levels|
    ensures AllRows(SpillTo(levels, n)) == AllRows(levels)
  {
    if n > 0 {
      SpillConserves(levels, n - 1);
      SpillOne(SpillTo(levels, n - 1), n - 1);
    }
  }

  lemma SpilledRows<T>(a: multiset<T>, b: multiset<T>, c: multiset<T>, x: multiset<T>, y: multiset<T>)
    requires b + y == a + (x + y) && c + x == b + multiset{}
    ensures c == a
  {
    forall k ensures c[k] == a[k] {
      assert (b + y)[k] == (a + (x + y))[k] && (c + x)[k] == (b + multiset{})[k];
    }
  }

  /** After a merge the upper levels are empty or below their limits, and the levels hold exactly the
      rows they held and those of the merged index. */
  lemma MergeKeepsLevels<T>(levels: seq<Level<T>>, rows: multiset<T>)
    requires |levels| == LEVELS
    ensures Settled(MergeRows(levels, rows), LEVELS - 1)
    ensures AllRows(MergeRows(levels, rows)) == AllRows(levels) + rows
  {
    var l := levels[0 := Some(RowsIn(levels[0]) + rows)];
    SpillSettles(l, LEVELS - 1);
    SpillConserves(l, LEVELS - 1);
    EntryFits(levels, rows);
  }

  /** While the upper levels have room, a merge joins the levels down to one of them, the first whose limit the
      joined rows do not reach, and leaves those below it alone. */
  lemma MergeMoves<T>(levels: seq<Level<T>>, rows: multiset<T>)
    requires |levels| == 4
    requires levels[0].None? || |levels[0].value| < 256_000
    requires levels[1].None? || |levels[1].value| < 1_024_000
    requires levels[2].None? || |levels[2].value| < 4_096_000
    ensures var l := seq(4, i requires 0 <= i < 4 => if levels[i].None? then multiset{} else levels[i].value);
      MergeRows(levels, rows) ==
      if |l[0] + rows| < 256_000 then [Some(l[0] + rows), levels[1], levels[2], levels[3]]
      else if |l[0] + rows + l[1]| < 1_024_000 then [None, Some(l[0] + rows + l[1]), levels[2], levels[3]]
      else if |l[0] + rows + l[1] + l[2]| < 4_096_000 then [None, None, Some(l[0] + rows + l[1] + l[2]), levels[3]]
      else [None, None, None, Some(l[0] + rows + l[1] + l[2] + l[3])]
  {
    hide SpillTo;
    var a := RowsIn(levels[0]) + rows;
    var b := a + RowsIn(levels[1]);
    var c := b + RowsIn(levels[2]);
    var l0 := [Some(a), levels[1], levels[2], levels[3]];
    assert levels[0 := Some(a)] == l0;
    var l1 := if |a| < 256_000 then l0 else [None, Some(b), levels[2], levels[3]];
    assert Spill(l0, 0) == l1;
    var l2 := if |a| < 256_000 || |b| < 1_024_000 then l1 else [None, None, Some(c), levels[3]];
    assert Spill(l1, 1) == l2;
    var l3 := if |a| < 256_000 || |b| < 1_024_000 || |c| < 4_096_000 then l2 else [None, None, None, Some(c + RowsIn(levels[3]))];
    assert Spill(l2, 2) == l3;
    hide Spill, SpillTo;
    SpillThrice(l0);
  }

  lemma SpillThrice<T>(l: seq<Level<T>>)
    requires |l| == 4
    ensures SpillTo(l, 3) == Spill(Spill(Spill(l, 0), 1), 2)
  {
    hide Spill;
    assert SpillTo(l, 0) == l;
    assert SpillTo(l, 1) == Spill(l, 0);
  }

  lemma MergedRows<T>(a: multiset<T>, b: multiset<T>, x: multiset<T>, rows: multiset<T>)
    requires a + x == b + (x + rows)
    ensures a == b + rows
  {
    forall k ensures a[k] == (b + rows)[k] { assert (a + x)[k] == (b + (x + rows))[k]; }
  }

  // The same for the keys, whose order tells which of two indices a merge was given first.

  type KeyLevel = Option<seq<EventKey>>

  function JoinKeys(a: KeyLevel, b: KeyLevel): KeyLevel {
    if a.None? then b else if b.None? then a else Some(Merged(a.value, b.value))
  }

  function SpillKeys(levels: seq<KeyLevel>, i: nat): (r: seq<KeyLevel>)
    requires i + 1 < |levels|
    ensures |r| == |levels|
  {
    if levels[i].Some? && |levels[i].value| >= LevelLimit(i) then
      levels[i + 1 := JoinKeys(levels[i], levels[i + 1])][i := None]
    else levels
  }

  function SpillKeysTo(levels: seq<KeyLevel>, n: nat): (r: seq<KeyLevel>)
    requires n < |levels|
    ensures |r| == |levels|
  {
    if n == 0 then levels else SpillKeys(SpillKeysTo(levels, n - 1), n - 1)
  }

  function MergeKeys(levels: seq<KeyLevel>, keys: seq<EventKey>): (r: seq<KeyLevel>)
    requires |levels| == LEVELS
    ensures |r| == LEVELS
  {
    SpillKeysTo(levels[0 := JoinKeys(levels[0], Some(keys))], LEVELS - 1)
  }

  /** While the upper levels have room: what was in a level comes first when an index joins it, and last when a level
      joins it from above. */
  lemma MergeKeysMoves(levels: seq<KeyLevel>, keys: seq<EventKey>)
    requires |levels| == 4
    requires levels[0].None? || |levels[0].value| < 256_000
    requires levels[1].None? || |levels[1].value| < 1_024_000
    requires levels[2].None? || |levels[2].value| < 4_096_000
    ensures var a := if levels[0].None? then keys else Merged(levels[0].value, keys);
      var b := if levels[1].None? then a else Merged(a, levels[1].value);
      var c := if levels[2].None? then b else Merged(b, levels[2].value);
      var d := if levels[3].None? then c else Merged(c, levels[3].value);
      MergeKeys(levels, keys) ==
      if |a| < 256_000 then [Some(a), levels[1], levels[2], levels[3]]
      else if |b| < 1_024_000 then [None, Some(b), levels[2], levels[3]]
      else if |c| < 4_096_000 then [None, None, Some(c), levels[3]]
      else [None, None, None, Some(d)]
  {
    hide SpillKeysTo, Merged;
    var a := JoinKeys(levels[0], Some(keys)).value;
    var b := JoinKeys(Some(a), levels[1]).value;
    var c := JoinKeys(Some(b), levels[2]).value;
    var l0 := [Some(a), levels[1], levels[2], levels[3]];
    assert levels[0 := Some(a)] == l0;
    var l1 := if |a| < 256_000 then l0 else [None, Some(b), levels[2], levels[3]];
    assert SpillKeys(l0, 0) == l1;
    var l2 := if |a| < 256_000 || |b| < 1_024_000 then l1 else [None, None, Some(c), levels[3]];
    assert SpillKeys(l1, 1) == l2;
    var l3 := if |a| < 256_000 || |b| < 1_024_000 || |c| < 4_096_000 then l2 else [None, None, None, JoinKeys(Some(c), levels[3])];
    assert SpillKeys(l2, 2) == l3;
    hide SpillKeys;
    SpillKeysThrice(l0);
  }

  lemma SpillKeysThrice(l: seq<KeyLevel>)
    requires |l| == 4
    ensures SpillKeysTo(l, 3) == SpillKeys(SpillKeys(SpillKeys(l, 0), 1), 2)
  {
    hide SpillKeys;
    assert SpillKeysTo(l, 0) == l;
    assert SpillKeysTo(l, 1) == SpillKeys(l, 0);
  }

  // The levels as indices.

  ghost function KeysAt(ri: RoaringIndex?): KeyLevel
    reads ri
  {
    if ri == null then None else Some(ri.keys)
  }

  ghost function KeyLevels(levels: seq<RoaringIndex?>): (r: seq<KeyLevel>)
    reads levels
    ensures |r| == |levels| && forall i :: 0 <= i < |levels| ==> r[i] == KeysAt(levels[i])
  {
    seq(|levels|, i requires 0 <= i < |levels| reads levels => KeysAt(levels[i]))
  }

  ghost function LevelOf(ri: RoaringIndex?): Level<Entry>
    reads ri
  {
    if ri == null then None else Some(multiset(ri.entries))
  }

  ghost function Contents(levels: seq<RoaringIndex?>): (r: seq<Level<Entry>>)
    reads levels
    ensures |r| == |levels| && forall i :: 0 <= i < |levels| ==> r[i] == LevelOf(levels[i])
  {
    seq(|levels|, i requires 0 <= i < |levels| reads levels => LevelOf(levels[i]))
  }

  lemma {:induction false} OneFits<T>(levels: seq<Level<T>>, i: nat)
    requires i < |levels|
    ensures |RowsIn(levels[i])| <= |AllRows(levels)|
  {
    if i < |levels| - 1 { OneFits(levels[..|levels| - 1], i); }
  }

  lemma {:induction false} TwoFit<T>(levels: seq<Level<T>>, i: nat)
    requires i + 1 < |levels|
    ensures |RowsIn(levels[i])| + |RowsIn(levels[i + 1])| <= |AllRows(levels)|
  {
    var n := |levels| - 1;
    if i + 1 < n { TwoFit(levels[..n], i); } else { OneFits(levels[..n], i); }
  }

  lemma CardinalityIs(ri: RoaringIndex)
    requires ri.Valid()
    ensures |ri.all.rows| == |ri.entries| == |multiset(ri.entries)| && |ri.keys| == |ri.entries|
  {}

  ghost predicate ValidSlot(r: RoaringIndex?)
    reads if r == null then {} else {r} + r.Footprint()
  {
    r != null ==> r.Valid()
  }

  /** `mergeTwoIndices` on two slots, seen through the rows they hold. */
  method MergeSlots(a: RoaringIndex?, b: RoaringIndex?) returns (r: RoaringIndex?)
    requires ValidSlot(a) && ValidSlot(b)
    requires |RowsIn(LevelOf(a))| + |RowsIn(LevelOf(b))| <= 0x1_0000_0000
    ensures ValidSlot(r)
    ensures LevelOf(r) == if a == null && b == null then None else Some(RowsIn(LevelOf(a)) + RowsIn(LevelOf(b)))
    ensures KeysAt(r) == JoinKeys(KeysAt(a), KeysAt(b))
  {
    hide RoaringIndex.Valid;
    ghost var rA, rB;
    r, rA, rB := MergeTwoIndices(a, b);
    if a == null || b == null {
      assert RowsIn(LevelOf(a)) + RowsIn(LevelOf(b)) == RowsIn(LevelOf(r));
    }
  }

  lemma SlotChanged(levels: seq<RoaringIndex?>, i: nat, r: RoaringIndex?, before: seq<Level<Entry>>)
    requires i < |levels| && before == Contents(levels)
    ensures Contents(levels[i := r]) == before[i := LevelOf(r)]
    ensures KeyLevels(levels[i := r]) == KeyLevels(levels)[i := KeysAt(r)]
  {}

  /** The new index fits beside level 0, and joins the total. */
  lemma EntryFits<T>(levels: seq<Level<T>>, rows: multiset<T>)
    requires |levels| == LEVELS
    ensures |RowsIn(levels[0])| <= |AllRows(levels)|
    ensures AllRows(levels[0 := Some(RowsIn(levels[0]) + rows)]) == AllRows(levels) + rows
  {
    var l := levels[0 := Some(RowsIn(levels[0]) + rows)];
    OneFits(levels, 0);
    AllRowsUpdate(levels, 0, l[0]);
    MergedRows(AllRows(l), AllRows(levels), RowsIn(levels[0]), rows);
  }

  class Storage {
    var levels: seq<RoaringIndex?>

    constructor ()
      ensures levels == [null, null, null, null]
    {
      levels := [null, null, null, null];
    }

    method MergeLevel(ri: RoaringIndex)
      requires |levels| == LEVELS && ValidSlot(ri) && forall k :: 0 <= k < LEVELS ==> ValidSlot(levels[k])
      requires |AllRows(Contents(levels))| + |ri.entries| <= 0x1_0000_0000
      modifies this`levels
      ensures |levels| == LEVELS && forall k :: 0 <= k < LEVELS ==> ValidSlot(levels[k])
      ensures Contents(levels) == MergeRows(old(Contents(levels)), multiset(ri.entries))
      ensures KeyLevels(levels) == MergeKeys(old(KeyLevels(levels)), ri.keys)
    {
      hide RoaringIndex.Valid, SpillTo, AllRows;
      EntryFits(Contents(levels), multiset(ri.entries));
      assert Contents(levels)[0] == LevelOf(levels[0]);
      var next := Enter(levels, ri);
      levels := MoveAll(next);
    }

    method MoveAll(levels: seq<RoaringIndex?>) returns (next: seq<RoaringIndex?>)
      requires |levels| == LEVELS && forall k :: 0 <= k < LEVELS ==> ValidSlot(levels[k])
      requires |AllRows(Contents(levels))| <= 0x1_0000_0000
      ensures |next| == LEVELS && forall k :: 0 <= k < LEVELS ==> ValidSlot(next[k])
      ensures Contents(next) == SpillTo(Contents(levels), LEVELS - 1)
      ensures KeyLevels(next) == SpillKeysTo(KeyLevels(levels), LEVELS - 1)
    {
      hide RoaringIndex.Valid, AllRows, Contents, Spill, KeyLevels, SpillKeys;
      next := levels;
      ghost var start, keys := Contents(levels), KeyLevels(levels);
      var i := 0;
      while i < LEVELS - 1
        invariant 0 <= i <= LEVELS - 1 && |next| == LEVELS && start == Contents(levels)
        invariant forall k :: 0 <= k < LEVELS ==> ValidSlot(next[k])
        invariant Contents(next) == SpillTo(start, i)
        invariant keys == KeyLevels(levels) && KeyLevels(next) == SpillKeysTo(keys, i)
      {
        SpillConserves(start, i);
        next := Move(next, i);
        i := i + 1;
      }
    }

    /** The new index joins level 0. */
    method Enter(levels: seq<RoaringIndex?>, ri: RoaringIndex) returns (next: seq<RoaringIndex?>)
      requires |levels| == LEVELS && ValidSlot(ri) && forall k :: 0 <= k < LEVELS ==> ValidSlot(levels[k])
      requires |RowsIn(LevelOf(levels[0]))| + |ri.entries| <= 0x1_0000_0000
      ensures |next| == LEVELS && forall k :: 0 <= k < LEVELS ==> ValidSlot(next[k])
      ensures Contents(next) == Contents(levels)[0 := Some(RowsIn(Contents(levels)[0]) + multiset(ri.entries))]
      ensures KeyLevels(next) == KeyLevels(levels)[0 := JoinKeys(KeyLevels(levels)[0], Some(ri.keys))]
    {
      hide RoaringIndex.Valid;
      var first := MergeSlots(levels[0], ri);
      assert Contents(levels)[0] == LevelOf(levels[0]) && RowsIn(LevelOf(ri)) == multiset(ri.entries);
      SlotChanged(levels, 0, first, Contents(levels));
      next := levels[0 := first];
    }

    /** One step of the loop: a level at its limit is merged into the next. */
    method Move(levels: seq<RoaringIndex?>, i: nat) returns (next: seq<RoaringIndex?>)
      requires |levels| == LEVELS && i < 3 && forall k :: 0 <= k < LEVELS ==> ValidSlot(levels[k])
      requires |AllRows(Contents(levels))| <= 0x1_0000_0000
      ensures |next| == LEVELS && forall k :: 0 <= k < LEVELS ==> ValidSlot(next[k])
      ensures Contents(next) == Spill(Contents(levels), i)
      ensures KeyLevels(next) == SpillKeys(KeyLevels(levels), i)
    {
      if levels[i] == null {
        return levels;
      }
      CardinalityIs(levels[i]);
      if |levels[i].all.rows| < LevelLimit(i) {
        return levels;
      }
      next := MoveDown(levels, i);
    }

    method MoveDown(levels: seq<RoaringIndex?>, i: nat) returns (next: seq<RoaringIndex?>)
      requires |levels| == LEVELS && i < 3 && forall k :: 0 <= k < LEVELS ==> ValidSlot(levels[k])
      requires levels[i] != null && |multiset(levels[i].entries)| >= LevelLimit(i) && |levels[i].keys| >= LevelLimit(i)
      requires |AllRows(Contents(levels))| <= 0x1_0000_0000
      ensures |next| == LEVELS && forall k :: 0 <= k < LEVELS ==> ValidSlot(next[k])
      ensures Contents(next) == Spill(Contents(levels), i)
      ensures KeyLevels(next) == SpillKeys(KeyLevels(levels), i)
    {
      hide RoaringIndex.Valid, Contents, Spill, KeyLevels, SpillKeys, JoinKeys, LevelLimit, AllRows;
      TwoFit(Contents(levels), i);
      var merged := MergeSlots(levels[i], levels[i + 1]);
      next := levels[i + 1 := merged][i := null];
      MovedDown(levels, i, merged, next);
    }
  }

  lemma MovedDown(levels: seq<RoaringIndex?>, i: nat, merged: RoaringIndex?, next: seq<RoaringIndex?>)
    requires |levels| == LEVELS && i < 3 && next == levels[i + 1 := merged][i := null] && forall k :: 0 <= k < LEVELS ==> ValidSlot(levels[k])
    requires levels[i] != null && |multiset(levels[i].entries)| >= LevelLimit(i) && ValidSlot(merged)
    requires LevelOf(merged) == Some(RowsIn(LevelOf(levels[i])) + RowsIn(LevelOf(levels[i + 1])))
    requires |levels[i].keys| >= LevelLimit(i) && KeysAt(merged) == JoinKeys(KeysAt(levels[i]), KeysAt(levels[i + 1]))
    ensures |next| == LEVELS && forall k :: 0 <= k < LEVELS ==> ValidSlot(next[k])
    ensures Contents(next) == Spill(Contents(levels), i)
    ensures KeyLevels(next) == SpillKeys(KeyLevels(levels), i)
  {
    hide RoaringIndex.Valid;
    EmptySlot();
    var before := Contents(levels);
    SlotChanged(levels, i + 1, merged, before);
    SlotChanged(levels[i + 1 := merged], i, null, Contents(levels[i + 1 := merged]));
  }

  lemma EmptySlot()
    ensures ValidSlot(null)
  {}
}
