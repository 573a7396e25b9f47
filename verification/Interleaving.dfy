/** Where the merge puts the keys of two lists that need not be in order. */
module Interleaving {
  import opened Keys
  import opened Merging
  import opened MergeOrder

  /** The place of `a[i]` in the merged list. */
  function PlaceA(a: seq<EventKey>, b: seq<EventKey>, i: nat): (p: nat)
    requires i < |a|
    ensures p < |Merged(a, b)| && Merged(a, b)[p] == a[i]
    decreases |a| + |b|
  {
    if b == [] then i
    else if !TakeFirst(a[0], b[0]) then 1 + PlaceA(a, b[1..], i)
    else if i == 0 then 0
    else 1 + PlaceA(a[1..], b, i - 1)
  }

  /** And that of `b[j]`. */
  function PlaceB(a: seq<EventKey>, b: seq<EventKey>, j: nat): (p: nat)
    requires j < |b|
    ensures p < |Merged(a, b)| && Merged(a, b)[p] == b[j]
    decreases |a| + |b|
  {
    if a == [] then j
    else if TakeFirst(a[0], b[0]) then 1 + PlaceB(a[1..], b, j)
    else if j == 0 then 0
    else 1 + PlaceB(a, b[1..], j - 1)
  }

  /** Each list keeps its order. */
  lemma {:induction false} PlacesRise(a: seq<EventKey>, b: seq<EventKey>)
    ensures forall i, k :: 0 <= i < k < |a| ==> PlaceA(a, b, i) < PlaceA(a, b, k)
    ensures forall j, k :: 0 <= j < k < |b| ==> PlaceB(a, b, j) < PlaceB(a, b, k)
    decreases |a| + |b|
  {
    if a != [] && b != [] {
      if TakeFirst(a[0], b[0]) { PlacesRise(a[1..], b); } else { PlacesRise(a, b[1..]); }
    }
  }

  lemma PlacesRiseA(a: seq<EventKey>, b: seq<EventKey>, i: nat, k: nat)
    requires i < |a| && k < |a|
    ensures PlaceA(a, b, i) < PlaceA(a, b, k) <==> i < k
  {
    PlacesRise(a, b);
    hide PlaceA, PlaceB;
  }

  lemma PlacesRiseB(a: seq<EventKey>, b: seq<EventKey>, j: nat, k: nat)
    requires j < |b| && k < |b|
    ensures PlaceB(a, b, j) < PlaceB(a, b, k) <==> j < k
  {
    PlacesRise(a, b);
    hide PlaceA, PlaceB;
  }

  /** Place `p` is taken by a key of `a`, or of `b`. */
  ghost predicate HasA(a: seq<EventKey>, b: seq<EventKey>, p: nat) {
    exists i :: 0 <= i < |a| && PlaceA(a, b, i) == p
  }

  ghost predicate HasB(a: seq<EventKey>, b: seq<EventKey>, p: nat) {
    exists j :: 0 <= j < |b| && PlaceB(a, b, j) == p
  }

  /** Every place is taken. */
  lemma {:induction false} SomeKey(a: seq<EventKey>, b: seq<EventKey>, p: nat)
    requires p < |Merged(a, b)|
    ensures HasA(a, b, p) || HasB(a, b, p)
    decreases |a| + |b|
  {
    if a == [] {
      assert PlaceB(a, b, p) == p;
    } else if b == [] {
      assert PlaceA(a, b, p) == p;
    } else if p == 0 {
      if TakeFirst(a[0], b[0]) { assert PlaceA(a, b, 0) == p; } else { assert PlaceB(a, b, 0) == p; }
    } else {
      hide HasA, HasB;
      if TakeFirst(a[0], b[0]) { SomeKey(a[1..], b, p - 1); } else { SomeKey(a, b[1..], p - 1); }
      OneFurther(a, b, p);
    }
  }

  lemma OneFurther(a: seq<EventKey>, b: seq<EventKey>, p: nat)
    requires a != [] && b != [] && p > 0
    ensures TakeFirst(a[0], b[0]) && HasA(a[1..], b, p - 1) ==> HasA(a, b, p)
    ensures TakeFirst(a[0], b[0]) && HasB(a[1..], b, p - 1) ==> HasB(a, b, p)
    ensures !TakeFirst(a[0], b[0]) && HasA(a, b[1..], p - 1) ==> HasA(a, b, p)
    ensures !TakeFirst(a[0], b[0]) && HasB(a, b[1..], p - 1) ==> HasB(a, b, p)
  {
    hide TakeFirst, Merged;
    if TakeFirst(a[0], b[0]) {
      if i :| 0 <= i < |a[1..]| && PlaceA(a[1..], b, i) == p - 1 { assert PlaceA(a, b, i + 1) == p; }
      if j :| 0 <= j < |b| && PlaceB(a[1..], b, j) == p - 1 { assert PlaceB(a, b, j) == p; }
    } else {
      if i :| 0 <= i < |a| && PlaceA(a, b[1..], i) == p - 1 { assert PlaceA(a, b, i) == p; }
      if j :| 0 <= j < |b[1..]| && PlaceB(a, b[1..], j) == p - 1 { assert PlaceB(a, b, j + 1) == p; }
    }
  }

  /** Key `x` is taken before all of the first `i + 1` keys of `a` give way to it. */
  ghost predicate PassedBy(a: seq<EventKey>, i: nat, x: EventKey)
    requires i < |a|
  {
    forall m :: 0 <= m <= i ==> TakeFirst(a[m], x)
  }

  /** Some key of `b`, up to `b[j]`, holds `b` back until `a[i]` is taken. */
  ghost predicate HeldBack(a: seq<EventKey>, i: nat, b: seq<EventKey>, j: nat)
    requires i < |a| && j < |b|
  {
    exists n :: 0 <= n <= j && PassedBy(a, i, b[n])
  }

  /** For lists in any order: `a[i]` is put before `b[j]` exactly when `b` has, up to `b[j]`, a key that every
      key of `a` up to `a[i]` is taken before. */
  lemma {:induction false} PlacedBeforeIff(a: seq<EventKey>, i: nat, b: seq<EventKey>, j: nat)
    requires i < |a| && j < |b|
    ensures PlaceA(a, b, i) < PlaceB(a, b, j) <==> HeldBack(a, i, b, j)
    ensures PlaceA(a, b, i) != PlaceB(a, b, j)
    decreases |a| + |b|
  {
    hide *;
    PlacesStep(a, i, b, j);
    HeldBackFirst(a, i, b, j);
    if TakeFirst(a[0], b[0]) {
      if i > 0 {
        PlacedBeforeIff(a[1..], i - 1, b, j);
        HeldBackTailA(a, i, b, j);
      }
    } else if j > 0 {
      PlacedBeforeIff(a, i, b[1..], j - 1);
      HeldBackTailB(a, i, b, j);
    }
  }

  lemma PlacesStep(a: seq<EventKey>, i: nat, b: seq<EventKey>, j: nat)
    requires i < |a| && j < |b|
    ensures TakeFirst(a[0], b[0]) && i == 0 ==> PlaceA(a, b, i) == 0 < PlaceB(a, b, j)
    ensures TakeFirst(a[0], b[0]) && i > 0 ==>
              PlaceA(a, b, i) == 1 + PlaceA(a[1..], b, i - 1) && PlaceB(a, b, j) == 1 + PlaceB(a[1..], b, j)
    ensures !TakeFirst(a[0], b[0]) && j == 0 ==> PlaceB(a, b, j) == 0 < PlaceA(a, b, i)
    ensures !TakeFirst(a[0], b[0]) && j > 0 ==>
              PlaceA(a, b, i) == 1 + PlaceA(a, b[1..], i) && PlaceB(a, b, j) == 1 + PlaceB(a, b[1..], j - 1)
  {
    hide TakeFirst;
  }

  lemma HeldBackFirst(a: seq<EventKey>, i: nat, b: seq<EventKey>, j: nat)
    requires i < |a| && j < |b|
    ensures TakeFirst(a[0], b[0]) && i == 0 ==> HeldBack(a, i, b, j)
    ensures !TakeFirst(a[0], b[0]) && j == 0 ==> !HeldBack(a, i, b, j)
  {
    hide TakeFirst;
    if TakeFirst(a[0], b[0]) { assert PassedBy(a, 0, b[0]); }
  }

  lemma HeldBackTailA(a: seq<EventKey>, i: nat, b: seq<EventKey>, j: nat)
    requires 0 < i < |a| && j < |b| && TakeFirst(a[0], b[0])
    ensures HeldBack(a[1..], i - 1, b, j) <==> HeldBack(a, i, b, j)
  {
    if n :| 0 <= n <= j && PassedBy(a, i, b[n]) {
      forall m | 0 <= m <= i - 1 ensures TakeFirst(a[1..][m], b[n]) { assert a[1..][m] == a[m + 1]; }
      assert PassedBy(a[1..], i - 1, b[n]);
    }
    if n :| 0 <= n <= j && PassedBy(a[1..], i - 1, b[n]) {
      var k := if TakeFirst(a[0], b[n]) then n else 0;
      forall m | 0 <= m <= i ensures TakeFirst(a[m], b[k]) {
        if m > 0 {
          assert a[1..][m - 1] == a[m];
          TakeFirstOrder(a[0], b[n], a[0]);
          TakeFirstOrder(a[m], b[n], a[0]);
          TakeFirstOrder(a[m], a[0], b[0]);
        }
      }
      assert PassedBy(a, i, b[k]);
    }
  }

  lemma HeldBackTailB(a: seq<EventKey>, i: nat, b: seq<EventKey>, j: nat)
    requires i < |a| && 0 < j < |b| && !TakeFirst(a[0], b[0])
    ensures HeldBack(a, i, b[1..], j - 1) <==> HeldBack(a, i, b, j)
  {
    if n :| 0 <= n <= j && PassedBy(a, i, b[n]) {
      assert n > 0 && b[1..][n - 1] == b[n];
    }
    if n :| 0 <= n <= j - 1 && PassedBy(a, i, b[1..][n]) {
      assert b[n + 1] == b[1..][n];
    }
  }
}
