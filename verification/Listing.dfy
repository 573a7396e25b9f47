/** The page that `ListEvents` takes from the merged iterators. */
module Listing {
  import opened Wrappers
  import opened Keys
  import opened MergeIterators

  /** The keys that are not tombstones, in order. */
  function Live(keys: seq<EventKey>): seq<EventKey> {
    if keys == [] then []
    else if keys[0].isDeleted then Live(keys[1..])
    else [keys[0]] + Live(keys[1..])
  }

  /** The collecting loop: the first `pageSize` keys, or all when there are fewer; tombstones do not use up the page. */
  method Collect(iter: MergeIterator, pageSize: nat) returns (keys: seq<EventKey>)
    requires iter.Invariant() && !iter.end
    modifies iter, iter.iterators
    ensures keys <= Live(MergeAll(old(iter.Streams())))
    ensures |keys| <= pageSize && (|keys| < pageSize ==> keys == Live(MergeAll(old(iter.Streams()))))
  {
    keys := [];
    ghost var all := Live(MergeAll(iter.Streams()));
    hide Live, MergeNext, MergeAll, Total;
    while |keys| < pageSize
      invariant iter.Invariant() && !iter.end && |keys| <= pageSize
      invariant all == keys + Live(MergeAll(iter.Streams()))
      decreases Total(iter.Streams())
    {
      ghost var before := iter.Streams();
      ghost var seen := keys;
      var found := iter.Next();
      if !found {
        NoneLeft(before);
        assert all == keys;
        break;
      }
      OneTaken(before);
      MergeShrinks(before);
      if iter.currentKey.isDeleted {
        continue;
      }
      keys := keys + [iter.currentKey];
      Reassociate(seen, iter.currentKey, Live(MergeAll(iter.Streams())));
    }
  }

  /** A page of `size` keys, and the key after it, from which the next page starts, if there is one. */
  method Page(iter: MergeIterator, size: nat) returns (keys: seq<EventKey>, next: Option<EventKey>)
    requires iter.Invariant() && !iter.end
    modifies iter, iter.iterators
    ensures var all := Live(MergeAll(old(iter.Streams())));
      && (next.Some? <==> |all| > size)
      && if |all| > size then keys == all[..size] && next == Some(all[size]) else keys == all
  {
    keys := Collect(iter, size + 1);
    next := None;
    if |keys| == size + 1 {
      next := Some(keys[size]);
      keys := keys[..size];
    }
  }

  /** The keys are taken one by one, in order, unless they are tombstones. */
  lemma {:induction false} LiveConcat(a: seq<EventKey>, b: seq<EventKey>)
    ensures Live(a + b) == Live(a) + Live(b)
  {
    if a == [] {
      assert a + b == b;
    } else {
      assert (a + b)[1..] == a[1..] + b;
      LiveConcat(a[1..], b);
    }
  }

  lemma LiveOne(k: EventKey)
    ensures Live([k]) == if k.isDeleted then [] else [k]
  {
    assert [k][1..] == [];
  }

  lemma Reassociate<T>(xs: seq<T>, x: T, ys: seq<T>)
    ensures xs + ([x] + ys) == (xs + [x]) + ys
  {}

  lemma NoneLeft(rem: seq<seq<EventKey>>)
    requires MergeNext(rem).0.None?
    ensures Live(MergeAll(rem)) == []
  {}

  lemma OneTaken(rem: seq<seq<EventKey>>)
    requires MergeNext(rem).0.Some?
    ensures var (k, left) := MergeNext(rem);
      Live(MergeAll(rem)) == if k.value.isDeleted then Live(MergeAll(left)) else [k.value] + Live(MergeAll(left))
  {}

  lemma {:induction false} LiveMember(keys: seq<EventKey>, k: EventKey)
    ensures k in Live(keys) <==> k in keys && !k.isDeleted
  {
    if keys != [] {
      LiveMember(keys[1..], k);
      assert k in keys <==> k == keys[0] || k in keys[1..];
    }
  }

  /** When of every event the first stream that offers it offers a newest version, what is listed are these
      versions, except the tombstones: a deleted event is not listed, whatever older versions there are. */
  lemma ListedIff(rem: seq<seq<EventKey>>, k: EventKey)
    requires AllDescending(rem) && FirstListedNewest(rem)
    ensures k in Live(MergeAll(rem)) <==> !k.isDeleted && exists i: nat :: FirstHolder(rem, i, k)
  {
    var all := MergeAll(rem);
    LiveMember(all, k);
    hide Live, MergeAll, AllDescending, FirstListedNewest;
    if k in all {
      MergeSound(rem, k);
      var i: nat :| Offered(rem, i, k);
      var h, z := FirstHolderExists(rem, i, k);
      FirstHolderEmitted(rem, h, z);
      OnceIfFirstNewest(rem);
      var p :| 0 <= p < |all| && all[p] == k;
      var q :| 0 <= q < |all| && all[q] == z;
      KeyOrder(k, z);
      KeyOrder(z, k);
      assert p == q;
      assert FirstHolder(rem, h, k);
    }
    if i: nat :| FirstHolder(rem, i, k) { FirstHolderEmitted(rem, i, k); }
  }
}
