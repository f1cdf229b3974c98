/** Reciprocal search for division by a constant: the two wrapping loops of
    `magic.rs`, proved to find a multiplier whose high product is the quotient. */
module Magic {
  import opened Word

  datatype Unsigned = Unsigned(multiplier: u64, add: bool, shift: nat)
  datatype Signed = Signed(multiplier: i64, shift: nat)

  // --- Unsigned ------------------------------------------------------------

  /** The code's threshold: the largest multiple of `d` below 2^64. */
  function UnsignedCap(d: u64): int
    requires d != 0
  {
    W - 1 - (W - 1 - d) % d
  }

  /** `d - 1 - (2^p - 1) % d`: how far `2^p` is from the next multiple of `d`. */
  function UnsignedGap(d: u64, p: nat): (g: int)
    requires d != 0
    ensures 0 <= g < d
  {
    d - 1 - (Pow2(p) - 1) % d
  }

  /** The multiplier before it is cut to 64 bits. */
  function TrueMultiplier(m: Unsigned): int {
    if m.add then m.multiplier + W else m.multiplier
  }

  /** The exit condition of the unsigned search at exponent `p`. */
  ghost predicate UnsignedStops(d: u64, p: nat)
    requires d != 0
  {
    UnsignedCap(d) * UnsignedGap(d, p) < Pow2(p)
  }

  /** `q` and `r` are quotient and remainder of `x` by `c`. */
  ghost predicate Splits(x: int, c: int, q: int, r: int) {
    0 <= r < c && q * c + r == x
  }

  /** What the search promises about its answer: the least exponent whose power
      of two exceeds `cap * gap`, and the reciprocal rounded up at that exponent. */
  ghost predicate IsUnsignedMagic(d: u64, m: Unsigned)
    requires d != 0
  {
    var p := 64 + m.shift;
    && TrueMultiplier(m) * d == Pow2(p) + UnsignedGap(d, p)
    && UnsignedStops(d, p)
    && forall k :: 64 <= k < p ==> !UnsignedStops(d, k)
  }

  /** The emitted unsigned sequence: high multiply, then a shift, with the
      averaging step when the multiplier needs a 65th bit. */
  function UnsignedSequence(n: u64, m: Unsigned): u64
    requires m.add ==> m.shift >= 1
  {
    var hi := Umulh(n, m.multiplier);
    if m.add then
      Lsr(Wrap(Lsr(Wrap(n - hi), 1) + hi), m.shift - 1)
    else
      Lsr(hi, m.shift)
  }

  lemma UnsignedCapFacts(d: u64)
    requires d != 0
    ensures UnsignedCap(d) == (W - 1) / d * d
    ensures W - 1 - UnsignedCap(d) == (W - 1) % d
    ensures d <= UnsignedCap(d) < W
    ensures 2 * UnsignedCap(d) >= W
  {
    var k := (W - 1) / d;
    var r := (W - 1) % d;
    assert W - 1 == k * d + r;
    assert (k - 1) * d == k * d - d;
    if k < 1 {
      MulMono(k, 0, d);
    }
    assert (k - 1) * d + r == W - 1 - d;
    DivUnique(W - 1 - d, d, k - 1);
    assert (W - 1 - d) / d == k - 1;
    assert (W - 1 - d) == (W - 1 - d) / d * d + (W - 1 - d) % d;
    assert (W - 1 - d) % d == r;
    assert k * d >= d by { MulMono(1, k, d); }
  }

  /** The comparison that both loops exit on, read as an inequality between products. */
  lemma ExitTest(x: int, c: int, q: int, r: int, g: int)
    requires Splits(x, c, q, r)
    ensures q < g || (q == g && r == 0) <==> x <= c * g
  {
    if q < g {
      MulMono(q + 1, g, c);
      assert (q + 1) * c == q * c + c;
    } else if q > g {
      MulMono(g + 1, q, c);
      assert (g + 1) * c == g * c + c;
    }
    assert c * g == g * c;
  }

  /** If the cap is exactly 2^63 then `d` divides every later power of two and the gap is 0. */
  lemma CapHalfMeansNoGap(d: u64, p: nat)
    requires d != 0 && p >= 63 && UnsignedCap(d) == HALF
    ensures UnsignedGap(d, p) == 0
  {
    UnsignedCapFacts(d);
    Pow2Values();
    DivisorOfPower(d, (W - 1) / d, 63, p);
  }

  /** A divisor of one power of two divides every later one. */
  lemma DivisorOfPower(d: u64, k: int, a: nat, p: nat)
    requires d != 0 && a <= p && k * d == Pow2(a)
    ensures UnsignedGap(d, p) == 0
  {
    var t := Pow2(p - a);
    Pow2Add(a, p - a);
    assert k * t * d == k * d * t;
    MultipleLeavesNoGap(d, k * t, p);
  }

  lemma MultipleLeavesNoGap(d: u64, k: int, p: nat)
    requires d != 0 && Pow2(p) == k * d
    ensures UnsignedGap(d, p) == 0
  {
    hide Pow2;
    assert (k - 1) * d == k * d - d;
    SplitUnique(Pow2(p) - 1, d, k - 1, d - 1);
  }

  lemma CapIsNotHalf(d: u64, p: nat)
    requires d != 0 && p >= 63 && !UnsignedStops(d, p)
    ensures UnsignedCap(d) != HALF
  {
    if UnsignedCap(d) == HALF {
      CapHalfMeansNoGap(d, p);
    }
  }

  lemma DivSplits(x: nat, c: int)
    requires c > 0
    ensures Splits(x, c, x / c, x % c) && 0 <= x / c <= x
  {
    DivShrinks(x, c);
  }

  /** Before the exponent reaches 128 the running quotient of `2^p` by the cap fits a word. */
  lemma CapQuotientFits(d: u64, q: int, r: int, p: nat)
    requires d != 0 && 63 <= p <= 127
    requires Splits(Pow2(p), UnsignedCap(d), q, r)
    requires p > 64 ==> !UnsignedStops(d, p - 1)
    ensures q < W
  {
    var nc := UnsignedCap(d);
    UnsignedCapFacts(d);
    Pow2Values();
    Pow2Mono(p, 127);
    if p <= 64 {
      Pow2Mono(p, 64);
    }
    if p > 64 {
      CapIsNotHalf(d, p - 1);
    }
    hide Pow2, UnsignedCap, UnsignedGap;
    if q >= W {
      MulMono(W, q, nc);
    }
  }

  /** The gap read off a division of `2^p - 1`. */
  lemma GapOf(d: u64, q: int, r: int, p: nat)
    requires d != 0 && Splits(Pow2(p) - 1, d, q, r)
    ensures UnsignedGap(d, p) == d - 1 - r
    ensures (q + 1) * d == Pow2(p) + (d - 1 - r)
  {
    SplitUnique(Pow2(p) - 1, d, q, r);
    assert (q + 1) * d == q * d + d;
  }

  /** At exponent 128 the exit inequality holds whatever the divisor. */
  lemma StopsAtTop(d: u64)
    requires d != 0
    ensures UnsignedStops(d, 128)
  {
    var g := UnsignedGap(d, 128);
    UnsignedCapFacts(d);
    Pow2Values();
    MulMono(UnsignedCap(d), W, g);
    MulMono(g, W - 1, W);
  }

  /** Not having stopped one step earlier bounds the power of two. */
  lemma PowerBound(d: u64, p: nat)
    requires d != 0 && 64 <= p
    requires p > 64 ==> !UnsignedStops(d, p - 1)
    ensures Pow2(p) <= 2 * ((W - 1) * d)
    ensures d >= 2 ==> Pow2(p) < 2 * ((W - 1) * d)
  {
    UnsignedCapFacts(d);
    if p == 64 {
      Pow2Values();
      MulMono(1, d, W - 1);
      if d >= 2 {
        MulMono(2, d, W - 1);
      }
    } else {
      var g := UnsignedGap(d, p - 1);
      MulMono(UnsignedCap(d), W - 1, g);
      MulStrict(g, d, W - 1);
    }
  }

  /** The multiplier found at the exit stays below 2^65, and the shift is usable. */
  lemma UnsignedRange(d: u64, t: int, r: int, p: nat)
    requires d != 0 && 64 <= p <= 128
    requires Splits(Pow2(p) - 1, d, t, r)
    requires p > 64 ==> !UnsignedStops(d, p - 1)
    ensures 0 <= t && t + 1 < 2 * W
    ensures p == 128 ==> t + 1 >= W
    ensures p == 64 && d >= 2 ==> t + 1 < W
  {
    hide Pow2, UnsignedCap, UnsignedGap;
    GapOf(d, t, r, p);
    PowerBound(d, p);
    if t < 0 {
      MulMono(t + 1, 0, d);
    }
    if t + 1 >= 2 * W {
      MulMono(2 * W, t + 1, d);
    }
    if p == 128 && t + 1 < W {
      Pow2Values();
      MulMono(t + 1, W - 1, d);
      MulMono(d, W, W - 1);
    }
    if p == 64 && d >= 2 && t + 1 >= W {
      Pow2Values();
      MulMono(W, t + 1, d);
      MulMono(2, d, W - 1);
    }
  }

  /** One doubling step of a quotient and remainder, as the code writes it on words. */
  lemma DoubleCarry(q: u64, r: u64, c: u64, p: nat)
    requires Splits(Pow2(p), c, q, r)
    ensures r >= c - r ==>
      Wrap(Wrap(r * 2) - c) == 2 * r - c && Splits(Pow2(p + 1), c, 2 * q + 1, 2 * r - c)
    ensures r < c - r ==>
      Wrap(r * 2) == 2 * r && Splits(Pow2(p + 1), c, 2 * q, 2 * r)
    ensures Wrap(Wrap(q * 2) + 1) == Wrap(2 * q + 1) && Wrap(q * 2) == Wrap(2 * q)
  {
    hide Wrap;
    assert (2 * q + 1) * c == 2 * (q * c) + c;
    assert 2 * q * c == 2 * (q * c);
    WrapNear(2 * r);
    WrapNear(2 * r - c);
    WrapInside(2 * r, c);
    WrapInside(q * 2, 1);
  }

  /** `2 * r + 1` reduced by `d` on words, without overflow surprises. */
  lemma WrapDoubleRemainder(r: u64, d: u64)
    requires r < d
    ensures Wrap(r + 1) == r + 1
    ensures r + 1 >= d - r ==> Wrap(Wrap(Wrap(r * 2) + 1) - d) == 2 * r + 1 - d
    ensures r + 1 < d - r ==> Wrap(Wrap(r * 2) + 1) == 2 * r + 1
  {
    hide Wrap;
    WrapNear(r + 1);
    WrapInside(2 * r, 1);
    WrapInside(2 * r + 1, d);
    if r + 1 >= d - r {
      WrapNear(2 * r + 1 - d);
    } else {
      WrapNear(2 * r + 1);
    }
  }

  /** The same step for `2^p - 1`, whose quotient `t` the code only keeps modulo 2^64. */
  lemma DoublePredecessor(q: u64, t: nat, r: u64, d: u64, p: nat)
    requires Splits(Pow2(p) - 1, d, t, r) && q == Wrap(t)
    ensures Wrap(Wrap(q * 2) + 1) == Wrap(2 * t + 1) && Wrap(q * 2) == Wrap(2 * t)
    ensures r + 1 >= d - r ==> Splits(Pow2(p + 1) - 1, d, 2 * t + 1, 2 * r + 1 - d)
    ensures r + 1 < d - r ==> Splits(Pow2(p + 1) - 1, d, 2 * t, 2 * r + 1)
  {
    hide Wrap;
    assert (2 * t + 1) * d == 2 * (t * d) + d;
    assert 2 * t * d == 2 * (t * d);
    WrapInside(t, 0);
    WrapInside(t * 2, 1);
  }

  /** The two thresholds on the 64-bit quotient detect the first 65-bit multiplier. */
  lemma AddFlag(q: u64, t: nat)
    requires q == Wrap(t)
    ensures t + 1 < W ==> q == t
    ensures t + 1 >= W ==> 2 * t + 1 >= W
  {
    WrapNear(t);
  }

  /** Where the search starts: exponent 63. */
  lemma UnsignedStart(d: u64)
    requires d != 0
    ensures 0 < UnsignedCap(d) < W
    ensures Splits(Pow2(63), UnsignedCap(d), HALF / UnsignedCap(d), HALF % UnsignedCap(d))
    ensures Splits(Pow2(63) - 1, d, (HALF - 1) / d, (HALF - 1) % d)
    ensures 0 <= HALF / UnsignedCap(d) < W && 0 <= (HALF - 1) / d && (HALF - 1) / d + 1 < W
  {
    UnsignedCapFacts(d);
    Pow2Values();
    hide Pow2, UnsignedCap, Splits;
    DivSplits(HALF, UnsignedCap(d));
    DivSplits(HALF - 1, d);
  }

  lemma UnsignedExit(d: u64, q: int, r: int, p: nat)
    requires d != 0 && Splits(Pow2(p), UnsignedCap(d), q, r)
    ensures q < UnsignedGap(d, p) || (q == UnsignedGap(d, p) && r == 0) <==> !UnsignedStops(d, p)
  {
    ExitTest(Pow2(p), UnsignedCap(d), q, r, UnsignedGap(d, p));
  }

  /** The loop's exit test on words decides `UnsignedStops`, and the answer it leaves is in range. */
  lemma UnsignedDecide(d: u64, q1: u64, t1: nat, r1: int, t2: nat, r2: int, p: nat)
    requires d != 0 && 64 <= p <= 128
    requires Splits(Pow2(p), UnsignedCap(d), t1, r1) && q1 == Wrap(t1)
    requires Splits(Pow2(p) - 1, d, t2, r2)
    requires p > 64 ==> !UnsignedStops(d, p - 1)
    ensures var delta := d - 1 - r2;
      p < 128 && (q1 < delta || (q1 == delta && r1 == 0)) <==> !UnsignedStops(d, p)
    ensures p < 128 ==> q1 == t1
    ensures UnsignedGap(d, p) == d - 1 - r2 && (t2 + 1) * d == Pow2(p) + (d - 1 - r2)
    ensures t2 + 1 < 2 * W
    ensures p == 128 ==> t2 + 1 >= W
    ensures p == 64 && d >= 2 ==> t2 + 1 < W
  {
    hide Pow2, Wrap, UnsignedCap, UnsignedGap, UnsignedStops, Splits;
    GapOf(d, t2, r2, p);
    UnsignedRange(d, t2, r2, p);
    if p == 128 {
      StopsAtTop(d);
    } else {
      CapQuotientFits(d, t1, r1, p);
      WrapNear(t1);
      UnsignedExit(d, t1, r1, p);
    }
  }

  lemma UnsignedAnswer(d: u64, m: Unsigned, q2: u64, t2: nat, p: nat)
    requires d != 0 && p == 64 + m.shift
    requires q2 == Wrap(t2) && m.multiplier == Wrap(q2 + 1) && t2 + 1 < 2 * W
    requires m.add <==> t2 + 1 >= W
    requires (t2 + 1) * d == Pow2(p) + UnsignedGap(d, p)
    requires UnsignedStops(d, p)
    requires forall k :: 64 <= k <= p - 1 ==> !UnsignedStops(d, k)
    ensures IsUnsignedMagic(d, m) && TrueMultiplier(m) == t2 + 1
  {
    hide Wrap, UnsignedStops, UnsignedGap, Pow2;
    WrapInside(t2, 1);
    WrapNear(t2 + 1);
  }

  /** First half of an iteration: double the quotient of `2^p` by the cap. */
  method DoubleCap(q: u64, r: u64, nc: u64, ghost p: nat) returns (q1: u64, r1: u64, ghost t1: nat)
    requires r < nc && Splits(Pow2(p), nc, q, r)
    ensures r1 < nc && q1 == Wrap(t1) && Splits(Pow2(p + 1), nc, t1, r1)
  {
    DoubleCarry(q, r, nc, p);
    hide Wrap, Splits, Pow2;
    if r >= nc - r {
      t1 := 2 * q + 1;
      q1 := Wrap(Wrap(q * 2) + 1);
      r1 := Wrap(Wrap(r * 2) - nc);
    } else {
      t1 := 2 * q;
      q1 := Wrap(q * 2);
      r1 := Wrap(r * 2);
    }
  }

  /** Second half: double the quotient of `2^p - 1` by the divisor, noting in `add` when the
      multiplier outgrows a word. `t` is that quotient before it wraps. */
  method DoubleDivisor(q: u64, r: u64, d: u64, add: bool, ghost t: nat, ghost p: nat)
    returns (q2: u64, r2: u64, add2: bool, ghost t2: nat)
    requires r < d && q == Wrap(t) && Splits(Pow2(p) - 1, d, t, r)
    requires add <==> t + 1 >= W
    ensures r2 < d && q2 == Wrap(t2) && Splits(Pow2(p + 1) - 1, d, t2, r2)
    ensures add2 <==> t2 + 1 >= W
  {
    DoublePredecessor(q, t, r, d, p);
    WrapDoubleRemainder(r, d);
    AddFlag(q, t);
    hide Wrap, Splits, Pow2;
    add2 := add;
    if Wrap(r + 1) >= d - r {
      if q >= HALF - 1 {
        add2 := true;
      }
      t2 := 2 * t + 1;
      q2 := Wrap(Wrap(q * 2) + 1);
      r2 := Wrap(Wrap(Wrap(r * 2) + 1) - d);
    } else {
      if q >= HALF {
        add2 := true;
      }
      t2 := 2 * t;
      q2 := Wrap(q * 2);
      r2 := Wrap(Wrap(r * 2) + 1);
    }
  }

  method UnsignedMagic(d: u64) returns (m: Unsigned)
    requires d != 0
    ensures IsUnsignedMagic(d, m)
    ensures m.add <==> TrueMultiplier(m) >= W
    ensures m.shift <= 64
    ensures !m.add ==> m.shift <= 63
    ensures m.add && d >= 2 ==> m.shift >= 1
  {
    hide UnsignedCap, UnsignedGap, Pow2, Wrap, UnsignedStops, Splits;
    UnsignedStart(d);
    var nc: u64 := UnsignedCap(d);
    var p: nat := 63;
    var q1: u64, r1: u64 := HALF / nc, HALF % nc;
    var q2: u64, r2: u64 := (HALF - 1) / d, (HALF - 1) % d;
    var add := false;
    ghost var t1: nat, t2: nat := q1, q2;
    WrapNear(q2);
    while true
      invariant 63 <= p <= 127
      invariant r1 < nc && Splits(Pow2(p), nc, q1, r1)
      invariant r2 < d && q2 == Wrap(t2) && Splits(Pow2(p) - 1, d, t2, r2)
      invariant add <==> t2 + 1 >= W
      invariant forall k :: 64 <= k <= p ==> !UnsignedStops(d, k)
      decreases 128 - p
    {
      q1, r1, t1 := DoubleCap(q1, r1, nc, p);
      q2, r2, add, t2 := DoubleDivisor(q2, r2, d, add, t2, p);
      p := p + 1;
      var delta := d - 1 - r2;
      UnsignedDecide(d, q1, t1, r1, t2, r2, p);
      if !(p < 128 && (q1 < delta || (q1 == delta && r1 == 0))) {
        break;
      }
    }
    m := Unsigned(Wrap(q2 + 1), add, p - 64);
    UnsignedAnswer(d, m, q2, t2, p);
  }

  /** Rounding the reciprocal up by `gap` leaves the quotient exact while the error stays
      below the distance to the next multiple of `d`. */
  lemma RoundedUpReciprocal(n: nat, d: int, mul: int, gap: int, pow: int)
    requires d > 0 && pow > 0 && gap >= 0
    requires mul * d == pow + gap
    requires n * gap < (d - n % d) * pow
    ensures n * mul / pow == n / d
  {
    var q, r := n / d, n % d;
    assert n == q * d + r;
    var prod := n * mul;
    assert prod * d == n * pow + n * gap by {
      assert n * mul * d == n * (mul * d);
    }
    assert q * pow <= prod by {
      if q * pow > prod {
        MulStrict(prod, q * pow, d);
        assert q * pow * d == q * d * pow;
        MulMono(q * d, n, pow);
      }
    }
    assert prod < (q + 1) * pow by {
      assert (n + (d - r)) * pow == n * pow + (d - r) * pow;
      assert (q + 1) * pow * d == (q * d + d) * pow;
      if prod >= (q + 1) * pow {
        MulMono((q + 1) * pow, prod, d);
      }
    }
    DivUnique(prod, pow, q);
  }

  /** Past the cap, remainders stay at or below the remainder of 2^64 - 1. */
  lemma PastCap(n: u64, d: u64)
    requires d >= 2 && n > UnsignedCap(d)
    ensures n % d <= (W - 1) % d
  {
    UnsignedCapFacts(d);
    var k := (W - 1) / d;
    assert n == k * d + (n - UnsignedCap(d));
    SplitUnique(n, d, k, n - UnsignedCap(d));
  }

  /** A remainder of d - 1 at 2^64 - 1 means `d` divides 2^64, so rounding leaves no gap. */
  lemma LastRemainder(d: u64, p: nat)
    requires d >= 2 && p >= 64 && (W - 1) % d == d - 1
    ensures UnsignedGap(d, p) == 0
  {
    var k := (W - 1) / d;
    assert (k + 1) * d == k * d + d;
    Pow2Values();
    DivisorOfPower(d, k + 1, 64, p);
  }

  /** n * gap against the room left by the remainder, given the exit inequality. */
  lemma ReachBy(n: nat, nc: int, g: int, room: int, pow: int)
    requires nc * g < pow && nc >= 0 && g >= 0
    requires (n <= nc && room >= 1) || (n <= 2 * nc && room >= 2)
    ensures n * g < room * pow
  {
    assert 0 <= nc * g by { MulMono(0, nc, g); }
    if n <= nc {
      MulMono(n, nc, g);
      MulMono(1, room, pow);
    } else {
      MulMono(n, 2 * nc, g);
      MulMono(2, room, pow);
      assert 2 * nc * g == 2 * (nc * g);
    }
  }

  /** Every dividend of a word is within reach of the exit inequality `cap * gap < 2^p`. */
  lemma UnsignedReach(n: u64, d: u64, p: nat)
    requires d >= 2 && p >= 64 && UnsignedStops(d, p)
    ensures n * UnsignedGap(d, p) < (d - n % d) * Pow2(p)
  {
    UnsignedCapFacts(d);
    hide UnsignedCap, UnsignedGap, Pow2;
    if n > UnsignedCap(d) && (W - 1) % d == d - 1 {
      LastRemainder(d, p);
      ReachBy(0, 0, 0, d - n % d, Pow2(p));
    } else {
      if n > UnsignedCap(d) {
        PastCap(n, d);
      }
      ReachBy(n, UnsignedCap(d), UnsignedGap(d, p), d - n % d, Pow2(p));
    }
  }

  lemma AverageShift(n: int, hi: int, s: nat)
    requires s >= 1
    ensures ((n - hi) / 2 + hi) / Pow2(s - 1) == (n + hi) / Pow2(s)
  {
    assert (n - hi) / 2 + hi == (n + hi) / 2;
    DivDiv(n + hi, 2, Pow2(s - 1));
  }

  /** The sequence computes `floor(n * M / 2^(64 + shift))` for the full 65-bit multiplier. */
  lemma UnsignedSequenceIs(n: u64, m: Unsigned)
    requires m.add ==> m.shift >= 1
    ensures UnsignedSequence(n, m) == n * TrueMultiplier(m) / Pow2(64 + m.shift)
  {
    var hi := n * m.multiplier / W;
    MulhBound(n, m.multiplier);
    assert Pow2(1) == 2;
    HighHalf(n, m.multiplier, n + 1, W);
    Pow2Values();
    Pow2Add(64, m.shift);
    hide Pow2;
    DivDiv(n * TrueMultiplier(m), W, Pow2(m.shift));
    if m.add {
      assert n * TrueMultiplier(m) == n * m.multiplier + n * W;
      SplitUnique(n * TrueMultiplier(m), W, hi + n, n * m.multiplier % W);
      WrapNear(n - hi);
      WrapNear((n - hi) / 2 + hi);
      AverageShift(n, hi, m.shift);
    }
  }

  /** Unsigned division by a constant: the sequence is `floor(n / d)` for every dividend. */
  lemma UnsignedQuotient(n: u64, d: u64, m: Unsigned)
    requires d >= 2 && IsUnsignedMagic(d, m)
    requires m.add ==> m.shift >= 1
    ensures UnsignedSequence(n, m) == n / d
  {
    var p := 64 + m.shift;
    UnsignedSequenceIs(n, m);
    UnsignedReach(n, d, p);
    RoundedUpReciprocal(n, d, TrueMultiplier(m), UnsignedGap(d, p), Pow2(p));
  }

  /** The routine's comment says it stays correct for any non-zero divisor. At `d == 1` it
      answers shift 0 together with `add`, so the sequence's `shift - 1` does not exist. */
  lemma UnsignedFailsAtOne(m: Unsigned)
    requires IsUnsignedMagic(1, m)
    ensures m.shift == 0 && TrueMultiplier(m) == W && m.add
  {
    Pow2Values();
    UnsignedCapFacts(1);
    assert UnsignedGap(1, 64) == 0;
    assert UnsignedStops(1, 64);
  }

  // --- Signed --------------------------------------------------------------

  /** 2^63, plus one for a negative divisor: one more than the largest dividend magnitude
      whose quotient is non-negative. */
  function SignedThreshold(d: i64): u64 {
    HALF + (if d < 0 then 1 else 0)
  }

  /** The largest value below the threshold that is one less than a multiple of `|d|`. */
  function SignedCap(d: i64): int
    requires d != 0
  {
    SignedThreshold(d) - 1 - SignedThreshold(d) % Abs(d)
  }

  /** How far `2^p` is from the next multiple of `|d|`; a whole `|d|` when it divides. */
  function SignedGap(d: i64, p: nat): (g: int)
    requires d != 0
    ensures 1 <= g <= Abs(d)
  {
    Abs(d) - Pow2(p) % Abs(d)
  }

  ghost predicate SignedStops(d: i64, p: nat)
    requires d != 0
  {
    SignedCap(d) * SignedGap(d, p) < Pow2(p)
  }

  /** The positive 64-bit reciprocal that the signed multiplier stands for. */
  function Reciprocal(d: i64, m: Signed): u64 {
    Wrap(if d < 0 then 0 - m.multiplier else m.multiplier)
  }

  ghost predicate IsSignedMagic(d: i64, m: Signed)
    requires d != 0
  {
    var p := 64 + m.shift;
    && Reciprocal(d, m) * Abs(d) == Pow2(p) + SignedGap(d, p)
    && SignedStops(d, p)
    && forall k :: 64 <= k < p ==> !SignedStops(d, k)
  }

  function WrapSigned(x: int): i64 {
    ToSigned(Wrap(x))
  }

  /** The high product, corrected by the dividend when the multiplier's sign disagrees with
      the divisor's. */
  function CorrectedHigh(n: i64, d: i64, multiplier: i64): i64 {
    var hi := Smulh(n, multiplier);
    if d > 0 && multiplier < 0 then WrapSigned(hi + n)
    else if d < 0 && multiplier > 0 then WrapSigned(hi - n)
    else hi
  }

  /** Adds the logical sign bit. */
  function AddSign(y: i64): i64 {
    WrapSigned(y + Lsr(ToUnsigned(y), 63))
  }

  /** The emitted signed sequence: corrected high product, arithmetic shift, add the sign bit. */
  function SignedSequence(n: i64, d: i64, m: Signed): i64 {
    AddSign(Asr(CorrectedHigh(n, d, m.multiplier), m.shift))
  }

  lemma SignedCapFacts(d: i64)
    requires Abs(d) >= 2
    ensures var t, cap := SignedThreshold(d), SignedCap(d);
      && 0 < cap < t
      && 2 * cap >= HALF
      && Abs(d) <= cap + 1
      && cap + 1 == t / Abs(d) * Abs(d)
      && t - 1 - cap == t % Abs(d)
  {
    var t, ad := SignedThreshold(d), Abs(d);
    var k := t / ad;
    assert t == k * ad + t % ad;
    if k < 1 {
      MulMono(k, 0, ad);
    }
    MulMono(1, k, ad);
  }

  lemma SignedGapOf(d: i64, q: int, r: int, p: nat)
    requires d != 0 && Splits(Pow2(p), Abs(d), q, r)
    ensures SignedGap(d, p) == Abs(d) - r
    ensures (q + 1) * Abs(d) == Pow2(p) + (Abs(d) - r)
  {
    SplitUnique(Pow2(p), Abs(d), q, r);
    assert (q + 1) * Abs(d) == q * Abs(d) + Abs(d);
  }

  lemma ParityTerms(i: int, j: int, x: int, y: int)
    requires 0 <= x <= 1 && 0 <= y <= 1
    ensures (2 * i + x) * (2 * j + y) == 2 * (i * (2 * j + y) + x * j) + x * y
    ensures 0 <= x * y <= 1
  {
    if x == 0 {
      assert (2 * i) * (2 * j + y) == 2 * (i * (2 * j + y));
    } else {
      assert (2 * i + 1) * (2 * j + y) == 2 * (i * (2 * j + y)) + (2 * j + y);
    }
  }

  lemma EvenPlus(k: int, z: int)
    requires 0 <= z <= 1
    ensures (2 * k + z) % 2 == z
  {
  }

  lemma ProductParity(a: int, b: int)
    ensures a * b % 2 == a % 2 * (b % 2)
  {
    var i, j, x, y := a / 2, b / 2, a % 2, b % 2;
    ParityTerms(i, j, x, y);
    EvenPlus(i * b + x * j, x * y);
  }

  /** No odd number above 1 divides a power of two. */
  lemma OddDivisor(c: int, k: int, p: nat)
    requires c >= 3 && c % 2 == 1
    ensures k * c != Pow2(p)
    decreases p
  {
    ProductParity(k, c);
    if p == 0 {
      if k >= 1 { MulMono(1, k, c); } else { MulMono(k, 0, c); }
    } else if k % 2 == 0 {
      assert k * c == 2 * (k / 2 * c);
      OddDivisor(c, k / 2, p - 1);
    }
  }

  /** If the cap reaches 2^63 then `|d|` divides 2^63 + 1, is odd, and never divides a power of two. */
  lemma CapAtHalf(d: i64, p: nat)
    requires Abs(d) >= 2 && SignedCap(d) >= HALF
    ensures SignedCap(d) == HALF && SignedGap(d, p) < Abs(d) < HALF
  {
    SignedCapFacts(d);
    var ad, k := Abs(d), SignedThreshold(d) / Abs(d);
    assert k * ad == HALF + 1;
    hide Pow2;
    ProductParity(k, ad);
    assert Pow2(p) == Pow2(p) / ad * ad + Pow2(p) % ad;
    OddDivisor(ad, Pow2(p) / ad, p);
  }

  /** The signed search has stopped by exponent 126, so its shift is at most 62. */
  lemma SignedStopsBy126(d: i64)
    requires Abs(d) >= 2
    ensures SignedStops(d, 126)
  {
    var cap, g := SignedCap(d), SignedGap(d, 126);
    SignedCapFacts(d);
    Pow2Values();
    Pow2Add(63, 63);
    if cap >= HALF {
      CapAtHalf(d, 126);
    }
    hide Pow2, SignedCap, SignedGap;
    MulMono(cap, HALF, g);
    MulMono(g, HALF, cap);
    if cap < HALF {
      MulStrict(cap, HALF, g);
      MulMono(g, HALF, HALF);
    } else {
      MulStrict(g, HALF, HALF);
    }
  }

  /** Not having stopped one step earlier bounds the power of two. */
  lemma SignedPowerBound(d: i64, p: nat)
    requires Abs(d) >= 2 && 64 <= p
    requires p > 64 ==> !SignedStops(d, p - 1)
    ensures Pow2(p) <= (W - 1) * Abs(d) - Abs(d)
  {
    var ad := Abs(d);
    if p == 64 {
      Pow2Values();
      MulMono(2, ad, W - 2);
    } else {
      SignedCapFacts(d);
      if SignedCap(d) >= HALF {
        CapAtHalf(d, p - 1);
      }
      assert Pow2(p) == 2 * Pow2(p - 1);
      hide Pow2, SignedCap, SignedGap;
      TwiceCapGap(SignedCap(d), SignedGap(d, p - 1), ad);
    }
  }

  lemma TwiceCapGap(cap: int, g: int, ad: int)
    requires 0 < cap <= HALF && 1 <= g <= ad <= HALF
    requires cap == HALF ==> g < ad
    ensures 2 * (cap * g) <= (W - 1) * ad - ad
  {
    if cap < HALF {
      MulMono(cap, HALF - 1, g);
      MulMono(g, ad, HALF - 1);
    } else {
      MulMono(g, ad - 1, HALF);
    }
  }

  /** While the search runs, the reciprocal fits a word. */
  lemma SignedRange(d: i64, t: int, r: int, p: nat)
    requires Abs(d) >= 2 && 64 <= p
    requires Splits(Pow2(p), Abs(d), t, r)
    requires p > 64 ==> !SignedStops(d, p - 1)
    ensures 0 < t + 1 < W
  {
    hide Pow2, SignedCap, SignedGap, SignedStops;
    SignedGapOf(d, t, r, p);
    SignedPowerBound(d, p);
    if t + 1 >= W {
      MulMono(W, t + 1, Abs(d));
    }
    if t + 1 <= 0 {
      MulMono(t + 1, 0, Abs(d));
    }
  }

  /** One doubling step on words below 2^63, where nothing wraps. */
  lemma SignedDouble(q: u64, r: u64, c: u64, p: nat)
    requires Splits(Pow2(p), c, q, r) && c <= HALF
    ensures Wrap(r * 2) == 2 * r
    ensures 2 * r >= c ==> Wrap(2 * r - c) == 2 * r - c && Splits(Pow2(p + 1), c, 2 * q + 1, 2 * r - c)
    ensures 2 * r < c ==> Splits(Pow2(p + 1), c, 2 * q, 2 * r)
    ensures Wrap(Wrap(q * 2) + 1) == Wrap(2 * q + 1) && Wrap(q * 2) == Wrap(2 * q)
  {
    hide Wrap;
    assert Pow2(p + 1) == 2 * Pow2(p);
    assert (2 * q + 1) * c == 2 * (q * c) + c;
    assert 2 * q * c == 2 * (q * c);
    WrapNear(2 * r);
    WrapNear(2 * r - c);
    WrapInside(q * 2, 1);
  }

  lemma CapPowers()
    ensures Pow2(63) == HALF && Pow2(125) == HALF * (HALF / 2)
  {
    Pow2Values();
    Pow2Add(63, 62);
  }

  /** Before exponent 126 the quotient by the cap stays below 2^63. */
  lemma SignedCapQuotientFits(d: i64, q: int, r: int, p: nat)
    requires Abs(d) >= 2 && 63 <= p <= 125
    requires Splits(Pow2(p), SignedCap(d), q, r)
    requires p > 63 ==> !SignedStops(d, p)
    ensures q < HALF
  {
    hide Pow2, SignedCap, SignedGap, Splits;
    SignedCapFacts(d);
    CapPowers();
    Pow2Mono(p, 125);
    Pow2Mono(63, p);
    if p == 63 {
      assert Pow2(p) == HALF;
    }
    QuotientBelowHalf(SignedCap(d), SignedGap(d, p), Abs(d), q, r, Pow2(p));
  }

  /** 2^62 is the smallest cap; reaching a quotient of 2^63 with it would need a gap above `|d|`. */
  lemma QuotientBelowHalf(cap: int, g: int, ad: int, q: int, r: int, pow: int)
    requires 2 * cap >= HALF && ad <= cap + 1 && 1 <= g <= ad
    requires Splits(pow, cap, q, r) && pow <= HALF * (HALF / 2)
    requires pow > HALF ==> pow <= cap * g
    ensures q < HALF
  {
    if q >= HALF {
      MulMono(HALF, q, cap);
      MulMono(g, HALF / 2 + 1, HALF / 2);
    }
  }

  /** Where the search starts: exponent 63. */
  lemma SignedStart(d: i64)
    requires Abs(d) >= 2
    ensures 0 < SignedCap(d) <= HALF
    ensures Splits(Pow2(63), SignedCap(d), HALF / SignedCap(d), HALF % SignedCap(d))
    ensures Splits(Pow2(63), Abs(d), HALF / Abs(d), HALF % Abs(d))
    ensures 0 <= HALF / SignedCap(d) < W && 0 <= HALF / Abs(d) < W
  {
    SignedCapFacts(d);
    Pow2Values();
    hide Pow2, SignedCap, Splits;
    DivSplits(HALF, SignedCap(d));
    DivSplits(HALF, Abs(d));
  }

  /** The loop's exit test decides `SignedStops`. */
  lemma SignedDecide(d: i64, q1: int, r1: int, q2: int, r2: int, p: nat)
    requires Abs(d) >= 2 && 64 <= p
    requires Splits(Pow2(p), SignedCap(d), q1, r1) && Splits(Pow2(p), Abs(d), q2, r2)
    ensures var delta := Abs(d) - r2; q1 < delta || (q1 == delta && r1 == 0) <==> !SignedStops(d, p)
    ensures SignedGap(d, p) == Abs(d) - r2 && (q2 + 1) * Abs(d) == Pow2(p) + (Abs(d) - r2)
  {
    SignedGapOf(d, q2, r2, p);
    hide Pow2, SignedCap, SignedGap;
    ExitTest(Pow2(p), SignedCap(d), q1, r1, Abs(d) - r2);
  }

  lemma SignedAnswer(d: i64, m: Signed, q2: u64, p: nat)
    requires Abs(d) >= 2 && p == 64 + m.shift && q2 + 1 < W
    requires m.multiplier ==
      if d < 0 then WrapSigned(0 - ToSigned(Wrap(q2 + 1))) else ToSigned(Wrap(q2 + 1))
    requires (q2 + 1) * Abs(d) == Pow2(p) + SignedGap(d, p)
    requires SignedStops(d, p)
    requires forall k :: 64 <= k <= p - 1 ==> !SignedStops(d, k)
    ensures IsSignedMagic(d, m) && Reciprocal(d, m) == q2 + 1
  {
    hide Wrap, SignedStops, SignedGap, Pow2;
    var r := q2 + 1;
    WrapNear(r);
    WrapNear(0 - ToSigned(r));
    WrapNear(m.multiplier);
    WrapNear(0 - m.multiplier);
  }

  /** One iteration's doubling of a quotient and remainder of `2^p`. */
  method SignedDoubleStep(q: u64, r: u64, c: u64, ghost p: nat) returns (q': u64, r': u64, ghost t: nat)
    requires r < c <= HALF && Splits(Pow2(p), c, q, r)
    ensures r' < c && q' == Wrap(t) && Splits(Pow2(p + 1), c, t, r')
    ensures t <= 2 * q + 1
  {
    SignedDouble(q, r, c, p);
    hide Wrap, Splits, Pow2;
    t := 2 * q;
    q' := Wrap(q * 2);
    r' := Wrap(r * 2);
    if r' >= c {
      t := t + 1;
      q' := Wrap(q' + 1);
      r' := Wrap(r' - c);
    }
  }

  method SignedMagic(d: i64) returns (m: Signed)
    requires d != 0 && d != 1 && d != -1
    ensures IsSignedMagic(d, m)
    ensures m.shift <= 62
  {
    hide SignedCap, SignedGap, Pow2, Wrap, SignedStops, Splits;
    SignedStart(d);
    SignedStopsBy126(d);
    var ad: u64 := Abs(d);
    var anc: u64 := SignedCap(d);
    var p: nat := 63;
    var q1: u64, r1: u64 := HALF / anc, HALF % anc;
    var q2: u64, r2: u64 := HALF / ad, HALF % ad;
    ghost var t1: nat, t2: nat;
    while true
      invariant 63 <= p <= 125
      invariant r1 < anc && Splits(Pow2(p), anc, q1, r1)
      invariant r2 < ad && Splits(Pow2(p), ad, q2, r2)
      invariant forall k :: 64 <= k <= p ==> !SignedStops(d, k)
      decreases 126 - p
    {
      SignedCapQuotientFits(d, q1, r1, p);
      q1, r1, t1 := SignedDoubleStep(q1, r1, anc, p);
      q2, r2, t2 := SignedDoubleStep(q2, r2, ad, p);
      p := p + 1;
      SignedRange(d, t2, r2, p);
      WrapNear(t1);
      WrapNear(t2);
      var delta := ad - r2;
      SignedDecide(d, q1, r1, q2, r2, p);
      if !(q1 < delta || (q1 == delta && r1 == 0)) {
        break;
      }
    }
    var multiplier: int := ToSigned(Wrap(q2 + 1));
    if d < 0 {
      multiplier := WrapSigned(-multiplier);
    }
    m := Signed(multiplier, p - 64);
    SignedAnswer(d, m, q2, p);
  }

  /** Remainders past the cap stop short of the threshold's remainder. */
  lemma SignedPastCap(d: i64, m: nat)
    requires Abs(d) >= 2 && SignedCap(d) < m <= SignedThreshold(d)
    ensures m % Abs(d) == m - SignedCap(d) - 1 <= SignedThreshold(d) % Abs(d)
  {
    SignedCapFacts(d);
    var k := SignedThreshold(d) / Abs(d);
    SplitUnique(m, Abs(d), k, m - SignedCap(d) - 1);
  }

  /** Dividends below the threshold are within strict reach of the exit inequality. */
  lemma SignedReach(d: i64, m: nat, p: nat)
    requires Abs(d) >= 2 && SignedStops(d, p)
    requires m < SignedThreshold(d) || (m == SignedThreshold(d) == HALF && HALF % Abs(d) <= Abs(d) - 2)
    ensures m * SignedGap(d, p) < (Abs(d) - m % Abs(d)) * Pow2(p)
  {
    SignedCapFacts(d);
    if m > SignedCap(d) {
      SignedPastCap(d, m);
    }
    hide SignedCap, SignedGap, Pow2;
    ReachBy(m, SignedCap(d), SignedGap(d, p), Abs(d) - m % Abs(d), Pow2(p));
  }

  /** The one dividend the cap does not cover: |n| == 2^63 when it leaves remainder |d| - 1.
      There the gap divides out exactly. */
  lemma ExactAtMinimum(ad: int, k: int, mul: int, gap: int, t: int)
    requires ad >= 2 && k * ad == HALF + 1
    requires 1 <= gap <= ad && t >= 1
    requires mul * ad == HALF * t + gap
    ensures gap <= t
  {
    var j := mul - k * t;
    assert j * ad == gap - t by {
      assert k * t * ad == k * ad * t;
      assert (HALF + 1) * t == HALF * t + t;
      assert j * ad == mul * ad - k * t * ad;
    }
    if gap > t {
      if j <= 0 {
        MulMono(j, 0, ad);
      } else {
        MulMono(1, j, ad);
      }
    }
  }

  /** For a negative product the floor lands one below the truncated quotient. */
  lemma RoundedUpNegative(m: int, d: int, mul: int, gap: int, pow: int)
    requires m >= 1 && d > 0 && pow > 0 && gap >= 1
    requires mul * d == pow + gap
    requires m * gap <= (d - m % d) * pow
    ensures -m * mul / pow == -(m / d) - 1
  {
    var q, r := m / d, m % d;
    assert m == q * d + r;
    var prod := m * mul;
    assert prod * d == m * pow + m * gap by {
      assert m * mul * d == m * (mul * d);
    }
    assert m * gap >= 1 by { MulMono(1, gap, m); }
    NegativeBounds(q, r, prod, d, pow, m * gap);
    assert -m * mul == -prod;
    assert (-q - 1) * pow == -((q + 1) * pow);
    DivUnique(-m * mul, pow, -q - 1);
  }

  lemma NegativeBounds(q: int, r: int, prod: int, d: int, pow: int, err: int)
    requires d > 0 && pow > 0 && 0 <= r < d
    requires prod * d == (q * d + r) * pow + err && 0 < err <= (d - r) * pow
    ensures q * pow < prod <= (q + 1) * pow
  {
    assert (q * d + r) * pow == q * pow * d + r * pow;
    assert (q + 1) * pow * d == q * pow * d + d * pow;
    assert (d - r) * pow == d * pow - r * pow;
    MulMono(0, r, pow);
    if q * pow >= prod {
      MulMono(prod, q * pow, d);
    }
    if prod > (q + 1) * pow {
      MulStrict((q + 1) * pow, prod, d);
    }
  }

  /** The largest magnitude on the rounding-up side is covered too. */
  lemma SignedReachNegative(d: i64, m: nat, p: nat, mul: int)
    requires Abs(d) >= 2 && p >= 64 && SignedStops(d, p)
    requires mul * Abs(d) == Pow2(p) + SignedGap(d, p)
    requires if d < 0 then m <= HALF - 1 else m <= HALF
    ensures m * SignedGap(d, p) <= (Abs(d) - m % Abs(d)) * Pow2(p)
  {
    var ad, t := Abs(d), SignedThreshold(d);
    if m < t || t % ad <= ad - 2 {
      SignedReach(d, m, p);
    } else {
      ReachAtMinimum(d, p, mul);
    }
  }

  lemma NextMultiple(x: int, b: int)
    requires b >= 1 && x % b == b - 1
    ensures (x / b + 1) * b == x + 1
  {
  }

  lemma ReachAtMinimum(d: i64, p: nat, mul: int)
    requires Abs(d) >= 2 && p >= 64 && HALF % Abs(d) == Abs(d) - 1
    requires mul * Abs(d) == Pow2(p) + SignedGap(d, p)
    ensures HALF * SignedGap(d, p) <= Pow2(p)
  {
    hide Pow2, SignedGap;
    var ad: int, g: int, t: int := Abs(d), SignedGap(d, p), Pow2(p - 63);
    assert Pow2(p) == HALF * t by {
      Pow2Values();
      Pow2Add(63, p - 63);
    }
    NextMultiple(HALF, ad);
    ExactAtMinimum(ad, HALF / ad + 1, mul, g, t);
  }

  /** x * M / 2^64 for |x| <= 2^63 and a 64-bit M is again a signed word. */
  lemma ScaledHigh(x: int, r: u64)
    requires -HALF <= x <= HALF
    ensures -HALF <= x * r / W < HALF
  {
    DivBounds(x * r, W);
    var q := x * r / W;
    if x >= 0 {
      MulMono(x, HALF, r);
      assert x * r >= 0;
    } else {
      MulMono(-x, HALF, r);
      assert x * r == -(-x * r);
      assert -x * r >= 0;
    }
    assert -(HALF * r) <= x * r <= HALF * r;
    if q >= HALF {
      MulMono(HALF, q, W);
    }
    if q < -HALF {
      MulMono(q + 1, -HALF, W);
    }
  }

  /** After the correction by the dividend, the high part belongs to the true reciprocal. */
  lemma SignedCorrected(n: i64, d: i64, m: Signed)
    requires d != 0
    ensures var x, r := (if d < 0 then -(n as int) else n), Reciprocal(d, m);
      x * r / W == CorrectedHigh(n, d, m.multiplier)
  {
    var mul: int, x: int := m.multiplier, if d < 0 then -(n as int) else n;
    var r: int := Reciprocal(d, m);
    ScaledHigh(x, r);
    SmulhBound(n, m.multiplier);
    WrapNear(mul);
    WrapNear(-mul);
    var hi, lo := n * mul / W, n * mul % W;
    assert n * mul == hi * W + lo;
    hide Wrap;
    if d > 0 && mul < 0 {
      assert n * (mul + W) == n * mul + n * W;
      SplitUnique(x * r, W, hi + n, lo);
      WrapNear(hi + n);
    } else if d < 0 && mul > 0 {
      assert -(n as int) * (W - mul) == n * mul - n * W;
      SplitUnique(x * r, W, hi - n, lo);
      WrapNear(hi - n);
    } else if d < 0 {
      assert -(n as int) * -mul == n * mul;
    }
  }

  lemma AddSignBit(y: i64)
    requires y < HALF - 1
    ensures AddSign(y) == if y < 0 then y + 1 else y
  {
    Pow2Values();
    hide Pow2;
    var u := ToUnsigned(y);
    if y < 0 {
      DivUnique(u, HALF, 1);
    } else {
      DivUnique(u, HALF, 0);
    }
    WrapNear(y + Lsr(u, 63));
  }

  /** Scaling the dividend's magnitude by the reciprocal truncates toward zero. */
  lemma SignedScaled(x: int, d: i64, mul: int, p: nat)
    requires Abs(d) >= 2 && p >= 64 && SignedStops(d, p)
    requires mul * Abs(d) == Pow2(p) + SignedGap(d, p)
    requires if d < 0 then -HALF < x <= HALF else -HALF <= x < HALF
    ensures x >= 0 ==> x * mul / Pow2(p) == x / Abs(d)
    ensures x < 0 ==> x * mul / Pow2(p) + 1 == -(-x / Abs(d))
  {
    if x >= 0 {
      SignedReach(d, x, p);
      RoundedUpReciprocal(x, Abs(d), mul, SignedGap(d, p), Pow2(p));
    } else {
      SignedReachNegative(d, -x, p, mul);
      RoundedUpNegative(-x, Abs(d), mul, SignedGap(d, p), Pow2(p));
    }
  }

  /** The sequence computes `floor(x * R / 2^(64 + shift))`, plus one when that is negative,
      where x is the dividend with the divisor's sign moved onto it. */
  lemma SignedSequenceIs(n: i64, d: i64, m: Signed)
    requires d != 0
    ensures var x: int := if d < 0 then -(n as int) else n;
      var y := x * Reciprocal(d, m) / Pow2(64 + m.shift);
      y < HALF - 1 ==> SignedSequence(n, d, m) == if y < 0 then y + 1 else y
  {
    var x: int, r := if d < 0 then -(n as int) else n, Reciprocal(d, m);
    Pow2Values();
    Pow2Add(64, m.shift);
    hide Pow2, Reciprocal, CorrectedHigh, AddSign;
    SignedCorrected(n, d, m);
    ScaledHigh(x, r);
    DivDiv(x * r, W, Pow2(m.shift));
    var y := Asr(x * r / W, m.shift);
    if y < HALF - 1 {
      AddSignBit(y);
    }
  }

  /** Signed division by a constant: the sequence truncates toward zero for every dividend,
      the minimum included, and for either sign of the divisor. */
  lemma SignedQuotient(n: i64, d: i64, m: Signed)
    requires Abs(d) >= 2 && IsSignedMagic(d, m)
    ensures SignedSequence(n, d, m) == TruncDiv(n, d)
  {
    var p := 64 + m.shift;
    var x: int := if d < 0 then -(n as int) else n;
    SignedSequenceIs(n, d, m);
    hide SignedSequence, Pow2, Reciprocal, SignedGap, SignedStops, TruncDiv;
    SignedScaled(x, d, Reciprocal(d, m), p);
    HalfQuotient(Abs(n), Abs(d));
    TruncByMagnitude(n, d);
  }

  lemma TruncByMagnitude(n: int, d: int)
    requires d != 0
    ensures var x := if d < 0 then -n else n;
      TruncDiv(n, d) == if x < 0 then -(-x / Abs(d)) else x / Abs(d)
  {
  }

  lemma HalfQuotient(x: nat, d: int)
    requires d >= 2 && x <= HALF
    ensures 0 <= x / d < HALF - 1
  {
    DivBounds(x, d);
    if x / d >= HALF - 1 {
      MulMono(HALF - 1, x / d, d);
      MulMono(2, d, HALF - 1);
    }
    if x / d < 0 {
      MulMono(x / d + 1, 0, d);
    }
  }
}
