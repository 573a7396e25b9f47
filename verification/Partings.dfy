/** Where two numbers part: the bits below which they differ. */
module Partings {
  import opened Words

  /** The least `n` for which `a >> n` and `b >> n` are equal; above it the two have the same bits. */
  function Parting(a: nat, b: nat): nat
    decreases a + b
  {
    if a == b then 0 else 1 + Parting(a / 2, b / 2)
  }

  lemma PartingZero(a: nat, b: nat)
    ensures Parting(a, b) == 0 <==> a == b
  {}

  lemma {:induction false} PartingIsLeast(a: nat, b: nat, n: nat)
    ensures Parting(a, b) <= n <==> Shr(a, n) == Shr(b, n)
    decreases n
  {
    if n > 0 {
      ShrStep(a, n - 1);
      ShrStep(b, n - 1);
      if a != b { PartingIsLeast(a / 2, b / 2, n - 1); }
    }
  }

  lemma PartingSym(a: nat, b: nat)
    ensures Parting(a, b) == Parting(b, a)
  {
    PartingIsLeast(a, b, Parting(b, a));
    PartingIsLeast(b, a, Parting(a, b));
    PartingIsLeast(b, a, Parting(b, a));
    PartingIsLeast(a, b, Parting(a, b));
  }

  /** Of three numbers, the two widest partings are equal. */
  lemma PartingTriangle(a: nat, b: nat, c: nat)
    ensures Parting(a, c) <= if Parting(a, b) < Parting(b, c) then Parting(b, c) else Parting(a, b)
  {
    var n := if Parting(a, b) < Parting(b, c) then Parting(b, c) else Parting(a, b);
    PartingIsLeast(a, b, n);
    PartingIsLeast(b, c, n);
    PartingIsLeast(a, c, n);
  }

  /** Below their parting, two numbers are in strict order. */
  lemma PartingOrder(a: nat, b: nat, n: nat)
    requires a < b && n < Parting(a, b)
    ensures Shr(a, n) < Shr(b, n)
  {
    ShrMono(a, b, n);
    PartingIsLeast(a, b, n);
  }

  /** At the highest bit where they differ, two numbers have different bits. */
  lemma PartingBit(a: nat, b: nat, n: nat)
    requires Parting(a, b) == n + 1
    ensures Bit(a, n) != Bit(b, n)
  {
    PartingIsLeast(a, b, n + 1);
    PartingIsLeast(a, b, n);
  }

  /** From zero a number parts at its length. */
  lemma {:induction false} PartingFromZero(u: nat)
    ensures Parting(0, u) == Len64(u)
  {
    if u != 0 { PartingFromZero(u / 2); }
  }

  /** A number without bits below `n` is above all smaller ones from `n` on. */
  lemma {:induction false} NoLowBits(a: nat, u: nat, n: nat)
    requires Low(u, n) == 0 && a < u
    ensures Shr(a, n) < Shr(u, n)
  {
    if n > 0 {
      NoLowBits(a / 2, u / 2, n - 1);
      ShrStep(a, n - 1);
      ShrStep(u, n - 1);
    }
  }

  /** Otherwise its predecessor is not. */
  lemma {:induction false} SomeLowBits(u: nat, n: nat)
    requires Low(u, n) != 0
    ensures u > 0 && Shr(u - 1, n) == Shr(u, n)
  {
    ShrStep(u, n - 1);
    if u > 0 { ShrStep(u - 1, n - 1); }
    if u % 2 == 0 {
      SomeLowBits(u / 2, n - 1);
      assert (u - 1) / 2 == u / 2 - 1;
    }
  }

  /** A number with all bits below `n` is below all greater ones from `n` on. */
  lemma {:induction false} AllLowBits(u: nat, a: nat, n: nat)
    requires Low(u, n) == Pow2(n) - 1 && u < a
    ensures Shr(u, n) < Shr(a, n)
  {
    if n > 0 {
      LowBound(u / 2, n - 1);
      assert u % 2 == 1 && Low(u / 2, n - 1) == Pow2(n - 1) - 1;
      AllLowBits(u / 2, a / 2, n - 1);
      ShrStep(a, n - 1);
      ShrStep(u, n - 1);
    }
  }

  /** Otherwise its successor is not. */
  lemma {:induction false} SomeLowGaps(u: nat, n: nat)
    requires Low(u, n) != Pow2(n) - 1
    ensures Shr(u + 1, n) == Shr(u, n)
  {
    ShrStep(u, n - 1);
    ShrStep(u + 1, n - 1);
    if u % 2 == 1 {
      SomeLowGaps(u / 2, n - 1);
      assert (u + 1) / 2 == u / 2 + 1;
    }
  }
}
