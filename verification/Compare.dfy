/** The bit-by-bit signed comparison of one column with a constant (`compareValue`). */
module Compare {
  import opened Words
  import opened Bitmaps
  import opened Planes
  import opened Partings

  datatype Operation = LT | LE | EQ | GE | GT | RANGE | MIN | MAX

  /** The operations that `compareValue` knows; it panics on the others. */
  predicate Comparison(op: Operation) {
    op != MIN && op != MAX
  }

  /** `^v + 1`: negation with wrap-around. */
  function Negate(v: int64): int64 {
    if v == -TWO63 then v else -v
  }

  /** `s` and `v` have different signs and the same magnitude bits. */
  predicate Clash(s: int64, v: int64) {
    (s < 0) != (v < 0) && (s + v == 0 || s + v == -TWO63)
  }

  lemma ClashIsDivisibility(s: int64, v: int64)
    ensures Clash(s, v) <==> (s < 0) != (v < 0) && (s + v) % TWO63 == 0
  {}

  /** The number of bits that the comparison looks at. */
  function Width(planes: nat, v: int64): nat {
    if Len64(ToU64(v)) > planes then Len64(ToU64(v)) else planes
  }

  /** The magnitude bits that the loop runs over: the sign bit of a full word is taken off first. */
  function Magnitude(x: nat): nat {
    if x == 64 then 63 else x
  }

  /** A stored value without its sign bit. */
  function Unsigned(s: int64): nat {
    if s < 0 then s + TWO63 else s
  }

  /** What the loop decides for `RANGE`, from the three signs and magnitudes: the stored value against the
      start and the end, whichever it parts from at a higher bit going first. */
  predicate RangeVerdict(isNegative: bool, startIsNegative: bool, endIsNegative: bool, s: nat, start: nat, end: nat) {
    if Parting(s, end) > Parting(s, start) then
      if s > end then isNegative && !endIsNegative
      else if s == start then !endIsNegative || isNegative
      else if s < start then startIsNegative && !endIsNegative
      else (startIsNegative || !isNegative) && (!endIsNegative || isNegative)
    else
      if s == start then true
      else if s < start then startIsNegative && !isNegative
      else (startIsNegative || !isNegative)
           && (s == end || if s < end then !endIsNegative || isNegative else isNegative && !endIsNegative)
  }

  /** The same for the numbers themselves; the constants are negated when their sign is not the value's. */
  predicate RangeAccepts(planes: nat, s: int64, start: int64, end: int64) {
    var x := Width(planes, end);
    var startIsNegative := x == 64 && start < 0;
    RangeVerdict(s < 0, startIsNegative, end < 0, Unsigned(s),
      Low(ToU64(if (s < 0) != startIsNegative then Negate(start) else start), Magnitude(x)),
      Low(ToU64(if (s < 0) != (end < 0) then Negate(end) else end), Magnitude(x)))
  }

  /** What each operation decides about a stored value `s`. */
  predicate Accepts(op: Operation, planes: nat, s: int64, v: int64, end: int64) {
    match op
    case LT => s < v && !Clash(s, v)
    case LE => s <= v
    case EQ => s == v || Clash(s, v)
    case GE => s >= v
    case GT => s > v && !Clash(s, v)
    case RANGE => RangeAccepts(planes, s, v, end)
    case _ => false
  }

  lemma LenBelow64(v: int64, x: nat, m: nat)
    requires x == 64 && m == 63
    ensures Len64(ToU64(v)) <= x
    ensures Len64(ToU64(v)) <= m <==> 0 <= v
  {
    Pow2Is(x); Pow2Is(m);
    LenIsLeast(ToU64(v), x);
    LenIsLeast(ToU64(v), m);
  }

  lemma WidthFits(planes: nat, v: int64)
    requires planes <= 64
    ensures planes <= Width(planes, v) <= 64 && Len64(ToU64(v)) <= Width(planes, v) && Width(planes, v) in {planes, Len64(ToU64(v))}
    ensures Width(planes, v) < 64 ==> 0 <= v
  {
    LenBelow64(v, 64, 63);
  }

  /** Splitting a full word into sign and magnitude bits. */
  lemma SplitSign(v: int64, m: nat)
    requires m == 63
    ensures Bit(ToU64(v), m) <==> v < 0
    ensures Low(ToU64(v), m) == if v < 0 then v + TWO63 else v
  {
    Pow2Is(m);
    LowValue(ToU64(v), m);
    LowStep(ToU64(v), m);
    LowIsMod64(ToU64(v), m + 1);
  }

  /** A short word is its own magnitude. */
  lemma ShortWord(u: nat, x: nat)
    requires Len64(u) <= x
    ensures Low(u, x) == u
  {}

  /** The constant as sign and magnitude bits. */
  lemma Parts(v: int64, x: nat)
    requires x <= 64
    ensures x == 64 ==> (Bit(ToU64(v), x - 1) <==> v < 0)
    ensures x == 64 ==> Low(ToU64(v), Magnitude(x)) == if v < 0 then v + TWO63 else v
    ensures x == 64 ==>
              Low(ToU64(Negate(v)), Magnitude(x)) == if v == -TWO63 || v == 0 then 0 else if v < 0 then -v else TWO63 - v
    ensures x < 64 && Len64(ToU64(v)) <= x ==> 0 <= v && Low(ToU64(v), Magnitude(x)) == v
  {
    LenBelow64(v, 64, 63);
    if x == 64 {
      SplitSign(v, x - 1);
      SplitSign(Negate(v), x - 1);
    } else if Len64(ToU64(v)) <= x {
      ShortWord(ToU64(v), x);
    }
  }

  /** The stored value as sign and magnitude bits. */
  lemma Stored(bA: seq<set<Row>>, c: Row, x: nat)
    requires |bA| <= x <= 64
    ensures var s := ToI64(ColVal(bA, c));
            (x < 64 ==> 0 <= s)
            && Low(ColVal(bA, c), Magnitude(x)) == (if s < 0 then s + TWO63 else s)
            && ((x == 64 && x - 1 < |bA| && c in bA[x - 1]) <==> s < 0)
  {
    var u := ColVal(bA, c);
    StoredWord(bA, c, x);
    var s := ToI64(u);
    if x == 64 {
      ColValBit(bA, c, x - 1);
      SplitSign(s, x - 1);
    } else {
      LowValue(u, x);
    }
  }

  lemma StoredWord(bA: seq<set<Row>>, c: Row, x: nat)
    requires |bA| <= x <= 64
    ensures ToU64(ToI64(ColVal(bA, c))) == ColVal(bA, c) < Pow2(x)
    ensures x < 64 ==> 0 <= ToI64(ColVal(bA, c))
  {
    var n, m := 64, 63;
    ColValBound(bA, c);
    Pow2Mono(|bA|, x);
    Pow2Mono(x, n);
    Pow2Is(n);
    if x < n { Pow2Mono(x, m); Pow2Is(m); }
  }

  /** What bit `j` says about two numbers that part at it or below. */
  lemma AtBit(u: nat, w: nat, m: nat, j: nat)
    requires j < m && Parting(Low(u, m), Low(w, m)) <= j + 1
    ensures Parting(Low(u, m), Low(w, m)) <= j <==> Bit(u, j) == Bit(w, j)
    ensures Bit(u, j) && !Bit(w, j) ==> Low(w, m) < Low(u, m)
    ensures !Bit(u, j) && Bit(w, j) ==> Low(u, m) < Low(w, m)
  {
    LowBit(u, m, j);
    LowBit(w, m, j);
    PartingIsLeast(Low(u, m), Low(w, m), j);
    PartingIsLeast(Low(u, m), Low(w, m), j + 1);
    FirstDifference(Low(u, m), Low(w, m), j);
    FirstDifference(Low(w, m), Low(u, m), j);
  }

  /** No two numbers of `m` bits part above `m`. */
  lemma AtTop(u: nat, w: nat, m: nat)
    ensures Parting(Low(u, m), Low(w, m)) <= m
  {
    LowBound(u, m);
    ShrSmall(Low(u, m), m);
    LowBound(w, m);
    ShrSmall(Low(w, m), m);
    PartingIsLeast(Low(u, m), Low(w, m), m);
  }

  /** The loop over the magnitude bits, most significant first. Away from `RANGE` it stops at the
      first bit where the column and the constant differ. */
  method ScanBits(bA: seq<set<Row>>, cID: Row, op: Operation, m: nat, isNegative: bool,
    startIsNegative: bool, endIsNegative: bool, compStartValue: int64, compEndValue: int64)
    returns (eq1: bool, eq2: bool, lt1: bool, lt2: bool, gt1: bool)
    ensures var sl, cl := Low(ColVal(bA, cID), m), Low(ToU64(compStartValue), m);
      op != RANGE ==>
        && eq1 == (sl == cl)
        && lt1 == ((op == LT || op == LE) &&
                   ((sl < cl && (!startIsNegative || isNegative)) || (sl > cl && isNegative && !startIsNegative)))
        && gt1 == ((op == GT || op == GE) &&
                   ((sl < cl && startIsNegative && !isNegative) || (sl > cl && (startIsNegative || !isNegative))))
    ensures var sl, cl, el := Low(ColVal(bA, cID), m), Low(ToU64(compStartValue), m), Low(ToU64(compEndValue), m);
      op == RANGE ==>
        ((eq1 || gt1) && (eq2 || lt2) <==> RangeVerdict(isNegative, startIsNegative, endIsNegative, sl, cl, el))
  {
    ghost var u, v, w := ColVal(bA, cID), ToU64(compStartValue), ToU64(compEndValue);
    ghost var sl, cl, el := Low(u, m), Low(v, m), Low(w, m);
    AtTop(u, v, m);
    AtTop(u, w, m);
    PartingZero(sl, cl);
    PartingZero(sl, el);
    hide Low, Parting, Bit, ToU64, ColVal;
    eq1, eq2 := true, true;
    lt1, lt2, gt1 := false, false, false;
    var j := m - 1;
    while j >= 0
      invariant -1 <= j < m
      invariant op != RANGE ==> eq1 && !lt1 && !gt1
      invariant eq1 <==> Parting(sl, cl) <= j + 1
      invariant op == RANGE ==> (eq2 <==> Parting(sl, el) <= j + 1)
      invariant op == RANGE && eq1 ==> !gt1
      invariant op == RANGE && !eq1 ==> cl < sl && gt1 == (startIsNegative || !isNegative)
      invariant op == RANGE && eq2 ==> !lt2
      invariant op == RANGE && !eq2 ==> sl < el && lt2 == (!endIsNegative || isNegative) && !(startIsNegative && !endIsNegative)
    {
      var sliceContainsBit: bool;
      if |bA| <= j {
        sliceContainsBit := false;
      } else {
        sliceContainsBit := cID in bA[j];
      }
      ColValBit(bA, cID, j);
      if Parting(sl, cl) <= j + 1 { AtBit(u, v, m, j); }
      if Parting(sl, el) <= j + 1 { AtBit(u, w, m, j); }

      if Bit(ToU64(compStartValue), j) {
        if !sliceContainsBit {
          if eq1 {
            if (op == GT || op == GE || op == RANGE) && startIsNegative && !isNegative {
              gt1 := true;
            }
            if op == LT || op == LE {
              if !startIsNegative || startIsNegative == isNegative {
                lt1 := true;
              }
            }
            eq1 := false;
            break;
          }
        }
      } else {
        if sliceContainsBit {
          if eq1 {
            if (op == LT || op == LE) && isNegative && !startIsNegative {
              lt1 := true;
            }
            if op == GT || op == GE || op == RANGE {
              if startIsNegative || startIsNegative == isNegative {
                gt1 := true;
              }
            }
            eq1 := false;
            if op != RANGE {
              break;
            }
          }
        }
      }

      if op == RANGE && Bit(ToU64(compEndValue), j) {
        if !sliceContainsBit {
          if eq2 {
            if !endIsNegative || endIsNegative == isNegative {
              lt2 := true;
            }
            eq2 := false;
            if startIsNegative && !endIsNegative {
              break;
            }
          }
        }
      } else if op == RANGE {
        if sliceContainsBit {
          if eq2 {
            if isNegative && !endIsNegative {
              lt2 := true;
            }
            eq2 := false;
            break;
          }
        }
      }
      j := j - 1;
    }
  }

  /** How the flags of the loop read once signs and magnitudes are known. */
  predicate Verdict(op: Operation, startIsNegative: bool, isNegative: bool, eq1: bool, eq2: bool,
    lt1: bool, lt2: bool, gt1: bool)
    requires Comparison(op)
  {
    match op
    case LT => lt1
    case LE => lt1 || (eq1 && (!startIsNegative || (startIsNegative && isNegative)))
    case EQ => eq1
    case GE => gt1 || (eq1 && (startIsNegative || (!startIsNegative && !isNegative)))
    case GT => gt1
    case RANGE => (eq1 || gt1) && (eq2 || lt2)
  }

  lemma VerdictIsOrder(op: Operation, s: int64, v: int64, full: bool, eq1: bool, lt1: bool, gt1: bool, sl: int, cl: int,
    planes: nat, end: int64, eq2: bool, lt2: bool)
    requires Comparison(op) && op != RANGE
    requires full || (0 <= s && 0 <= v)
    requires sl == if s < 0 then s + TWO63 else s
    requires cl == if (s < 0) == (v < 0) then if v < 0 then v + TWO63 else v
                   else if v == -TWO63 || v == 0 then 0 else if v < 0 then -v else TWO63 - v
    requires eq1 == (sl == cl)
    requires lt1 == ((op == LT || op == LE) &&
                     ((sl < cl && (0 <= v || s < 0)) || (sl > cl && s < 0 && 0 <= v)))
    requires gt1 == ((op == GT || op == GE) &&
                     ((sl < cl && v < 0 && 0 <= s) || (sl > cl && (v < 0 || 0 <= s))))
    ensures Verdict(op, v < 0, s < 0, eq1, eq2, lt1, lt2, gt1) == Accepts(op, planes, s, v, end)
  {}

  /** The signs and magnitudes of a column and a constant, on the width that a comparison uses. */
  lemma Prepared(bA: seq<set<Row>>, c: Row, v: int64, x: nat) returns (s: int64, sl: nat)
    requires |bA| <= x <= 64 && Len64(ToU64(v)) <= x
    ensures s == ToI64(ColVal(bA, c)) && sl == Low(ColVal(bA, c), Magnitude(x))
    ensures sl == if s < 0 then s + TWO63 else s
    ensures (x == 64 && x - 1 < |bA| && c in bA[x - 1]) <==> s < 0
    ensures (x == 64 && Bit(ToU64(v), x - 1)) <==> v < 0
    ensures x < 64 ==> 0 <= s
    ensures Low(ToU64(if (s < 0) == (v < 0) then v else Negate(v)), Magnitude(x))
         == if (s < 0) == (v < 0) then if v < 0 then v + TWO63 else v
            else if v == -TWO63 || v == 0 then 0 else if v < 0 then -v else TWO63 - v
  {
    Stored(bA, c, x);
    Parts(v, x);
    s, sl := ToI64(ColVal(bA, c)), Low(ColVal(bA, c), Magnitude(x));
  }

  lemma VerdictIsRange(planes: nat, s: int64, start: int64, end: int64, startIsNegative: bool, compStart: int64, compEnd: int64,
    eq1: bool, eq2: bool, lt1: bool, lt2: bool, gt1: bool)
    requires planes <= 64 && startIsNegative == (Width(planes, end) == 64 && start < 0)
    requires compStart == if (s < 0) != startIsNegative then Negate(start) else start
    requires compEnd == if (s < 0) != (end < 0) then Negate(end) else end
    requires var m := Magnitude(Width(planes, end));
      (eq1 || gt1) && (eq2 || lt2)
      <==> RangeVerdict(s < 0, startIsNegative, end < 0, Unsigned(s), Low(ToU64(compStart), m), Low(ToU64(compEnd), m))
    ensures Verdict(RANGE, startIsNegative, s < 0, eq1, eq2, lt1, lt2, gt1) == Accepts(RANGE, planes, s, start, end)
  {}

  method CompareColumn(bA: seq<set<Row>>, cID: Row, op: Operation, valueOrStart: int64, end: int64)
    returns (hit: bool)
    requires |bA| <= 64 && Comparison(op)
    ensures hit == Accepts(op, |bA|, ToI64(ColVal(bA, cID)), valueOrStart, end)
  {
    var value := if op == RANGE then end else valueOrStart;
    var x := Width(|bA|, value);
    WidthFits(|bA|, value);
    ghost var s := ToI64(ColVal(bA, cID));
    var startIsNegative := x == 64 && Bit(ToU64(valueOrStart), x - 1);
    var endIsNegative := x == 64 && Bit(ToU64(end), x - 1);
    var isNegative := x == 64 && x - 1 < |bA| && cID in bA[x - 1];
    assert startIsNegative == (x == 64 && valueOrStart < 0) && endIsNegative == (x == 64 && end < 0) by {
      Parts(valueOrStart, x);
      Parts(end, x);
    }
    assert isNegative == (s < 0) by { Stored(bA, cID, x); }
    var compStartValue := if isNegative != startIsNegative then Negate(valueOrStart) else valueOrStart;
    var compEndValue := if isNegative != endIsNegative then Negate(end) else end;
    hide Low, Len64, ColVal, Bit, ToI64, ToU64, RangeVerdict, RangeAccepts, Width, Magnitude, Accepts, Verdict, Negate;
    var eq1, eq2, lt1, lt2, gt1 := ScanBits(bA, cID, op, Magnitude(x), isNegative,
      startIsNegative, endIsNegative, compStartValue, compEndValue);
    hit := Verdict(op, startIsNegative, isNegative, eq1, eq2, lt1, lt2, gt1);
    if op != RANGE {
      ghost var _, sl := Prepared(bA, cID, value, x);
      VerdictIsOrder(op, s, value, x == 64, eq1, lt1, gt1, sl, Low(ToU64(compStartValue), Magnitude(x)),
        |bA|, end, eq2, lt2);
    } else {
      assert Low(ColVal(bA, cID), Magnitude(x)) == Unsigned(s) by { Stored(bA, cID, x); }
      VerdictIsRange(|bA|, s, valueOrStart, end, startIsNegative, compStartValue, compEndValue, eq1, eq2, lt1, lt2, gt1);
    }
  }
}
