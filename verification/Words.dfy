/** 64-bit words as integers: powers of two, single bits, bit length and two's complement. */
module Words {

  const TWO32: int := 0x1_0000_0000
  const TWO63: int := 0x8000_0000_0000_0000
  const TWO64: int := 0x1_0000_0000_0000_0000

  type int64 = v: int | -0x8000_0000_0000_0000 <= v < 0x8000_0000_0000_0000
  type uint64 = v: int | 0 <= v < 0x1_0000_0000_0000_0000

  function Pow2(n: nat): (p: nat)
    ensures p >= 1
  {
    if n == 0 then 1 else 2 * Pow2(n - 1)
  }

  /** `u >> j` */
  function Shr(u: nat, j: nat): nat {
    if j == 0 then u else Shr(u, j - 1) / 2
  }

  /** `u & (1 << j) > 0` */
  predicate Bit(u: nat, j: nat) {
    Shr(u, j) % 2 == 1
  }

  /** The `n` low bits of `u`. */
  function Low(u: nat, n: nat): nat {
    if n == 0 then 0 else u % 2 + 2 * Low(u / 2, n - 1)
  }

  /** `bits.Len64`: the number of bits needed to write `u`. */
  function Len64(u: nat): nat {
    if u == 0 then 0 else 1 + Len64(u / 2)
  }

  /** `uint64(v)` for a signed `v`. */
  function ToU64(v: int64): uint64 {
    if v < 0 then v + TWO64 else v
  }

  /** The signed reading of `u` modulo `2^64`. */
  function ToI64(u: int): int64 {
    var w := u % TWO64;
    if w < TWO63 then w else w - TWO64
  }

  lemma SignedRoundTrip(v: int64)
    ensures ToI64(ToU64(v)) == v
  {}

  /** `k << j` without wrap-around. */
  function Shl(k: nat, j: nat): nat {
    if j == 0 then k else 2 * Shl(k, j - 1)
  }

  /** Wrapping takes off whole words. */
  lemma Wrapped(a: int) returns (q: int)
    ensures a == ToI64(a) + q * TWO64
  {
    q := (a - ToI64(a)) / TWO64;
  }

  lemma WrapUnique(v: int64, a: int, q: int)
    requires a == v + q * TWO64
    ensures ToI64(a) == v
  {}

  lemma {:induction false} Pow2Values()
    ensures Pow2(32) == TWO32 && Pow2(63) == TWO63 && Pow2(64) == TWO64
  {
    assert Pow2(8) == 256;
    assert Pow2(16) == 65536;
    assert Pow2(24) == 0x100_0000;
    assert Pow2(32) == TWO32;
    assert Pow2(40) == 0x100_0000_0000;
    assert Pow2(48) == 0x1_0000_0000_0000;
    assert Pow2(56) == 0x100_0000_0000_0000;
  }

  /** The same for a variable exponent, which the verifier does not try to compute. */
  lemma Pow2Is(n: nat)
    ensures n == 32 ==> Pow2(n) == TWO32
    ensures n == 63 ==> Pow2(n) == TWO63
    ensures n == 64 ==> Pow2(n) == TWO64
  {
    Pow2Values();
  }

  lemma {:induction false} Pow2Mono(m: nat, n: nat)
    requires m <= n
    ensures Pow2(m) <= Pow2(n)
    decreases n
  {
    if m < n { Pow2Mono(m, n - 1); }
  }

  lemma {:induction false} ShrMono(a: nat, b: nat, j: nat)
    requires a <= b
    ensures Shr(a, j) <= Shr(b, j)
  {
    if j > 0 { ShrMono(a, b, j - 1); }
  }

  lemma {:induction false} ShrStep(u: nat, j: nat)
    ensures Shr(u, j + 1) == Shr(u / 2, j)
  {
    if j > 0 { ShrStep(u, j - 1); }
  }

  /** Numbers that agree above bit `j` and differ in bit `j` are ordered by it. */
  lemma FirstDifference(a: nat, b: nat, j: nat)
    requires Shr(a, j + 1) == Shr(b, j + 1)
    ensures Bit(a, j) && !Bit(b, j) ==> b < a
    ensures Bit(a, j) == Bit(b, j) ==> Shr(a, j) == Shr(b, j)
  {
    if a <= b { ShrMono(a, b, j); }
  }

  /** A number below `2^n` has no bit at or above `n`. */
  lemma {:induction false} ShrSmall(u: nat, n: nat)
    requires u < Pow2(n)
    ensures Shr(u, n) == 0
  {
    if n > 0 {
      ShrStep(u, n - 1);
      ShrSmall(u / 2, n - 1);
    }
  }

  lemma {:induction false} ShrZero(u: nat, n: nat, j: nat)
    requires n <= j && Shr(u, n) == 0
    ensures Shr(u, j) == 0
    decreases j
  {
    if n < j { ShrZero(u, n, j - 1); }
  }

  lemma {:induction false} LenIsLeast(u: nat, n: nat)
    ensures Len64(u) <= n <==> u < Pow2(n)
  {
    if u == 0 {
    } else if n == 0 {
    } else {
      LenIsLeast(u / 2, n - 1);
    }
  }

  lemma {:induction false} LowBound(u: nat, n: nat)
    ensures Low(u, n) < Pow2(n)
  {
    if n > 0 { LowBound(u / 2, n - 1); }
  }

  lemma {:induction false} LowBit(u: nat, n: nat, j: nat)
    requires j < n
    ensures Bit(Low(u, n), j) == Bit(u, j)
  {
    if j > 0 {
      var l := Low(u, n);
      assert l / 2 == Low(u / 2, n - 1);
      ShrStep(l, j - 1);
      ShrStep(u, j - 1);
      LowBit(u / 2, n - 1, j - 1);
    }
  }

  /** Dropping the high bits subtracts a multiple of `2^n`; here for at most one bit above. */
  lemma {:induction false} LowValue(u: nat, n: nat)
    requires u < 2 * Pow2(n)
    ensures Low(u, n) == if u < Pow2(n) then u else u - Pow2(n)
  {
    if n > 0 { LowValue(u / 2, n - 1); }
  }

  lemma {:induction false} LowMod(u: nat, n: nat) returns (q: nat)
    ensures u == Low(u, n) + q * Pow2(n)
  {
    if n == 0 {
      q := u;
    } else {
      q := LowMod(u / 2, n - 1);
      var p := Pow2(n - 1);
      assert 2 * (q * p) == q * (2 * p);
    }
  }

  /** The 64 low bits of `u` are `u` modulo `2^64`. */
  lemma LowIsMod64(u: nat, n: nat)
    requires n == 64
    ensures Low(u, n) == u % TWO64
  {
    Pow2Is(n);
    LowBound(u, n);
    var q := LowMod(u, n);
    ModUnique(u, Low(u, n), q);
  }

  lemma ModUnique(u: int, r: int, q: int)
    requires u == r + q * TWO64 && 0 <= r < TWO64
    ensures u % TWO64 == r
  {}

  /** One more low bit. */
  lemma {:induction false} LowStep(u: nat, n: nat)
    ensures Low(u, n + 1) == Low(u, n) + (if Bit(u, n) then Pow2(n) else 0)
  {
    if n > 0 {
      LowStep(u / 2, n - 1);
      ShrStep(u, n - 1);
    }
  }
}
