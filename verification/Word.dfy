/** 64-bit machine words as bounded integers, with the wrapping operations,
    shifts and high multiplies that the ARM backend relies on. */
module Word {

  const W: int := 0x1_0000_0000_0000_0000
  const HALF: int := 0x8000_0000_0000_0000

  type u64 = x: int | 0 <= x < W witness 0
  type i64 = x: int | -HALF <= x < HALF witness 0

  function Wrap(x: int): u64 {
    x % W
  }

  function ToSigned(x: u64): i64 {
    if x < HALF then x else x - W
  }

  function ToUnsigned(x: i64): u64 {
    if x < 0 then x + W else x
  }

  function Abs(x: int): nat {
    if x < 0 then -x else x
  }

  function Pow2(k: nat): (r: nat)
    ensures r >= 1
  {
    if k == 0 then 1 else 2 * Pow2(k - 1)
  }

  /** Division rounding toward zero, as Rust's `/` and the `SDIV` instruction do. */
  function TruncDiv(n: int, d: int): int
    requires d != 0
  {
    if (n < 0) == (d < 0) then Abs(n) / Abs(d) else -(Abs(n) / Abs(d))
  }

  /** The remainder that goes with truncating division. */
  function TruncRem(n: int, d: int): int
    requires d != 0
  {
    n - TruncDiv(n, d) * d
  }

  /** High half of the 128-bit product; Dafny's `/` floors for a positive divisor,
      which is what an arithmetic shift of the signed product does. */
  function Umulh(a: u64, b: u64): u64 {
    MulhBound(a, b);
    a * b / W
  }

  function Smulh(a: i64, b: i64): i64 {
    SmulhBound(a, b);
    a * b / W
  }

  function Lsr(x: u64, k: nat): u64 {
    DivShrinks(x, Pow2(k));
    x / Pow2(k)
  }

  function Asr(x: i64, k: nat): i64 {
    FloorShrinks(x, Pow2(k));
    x / Pow2(k)
  }

  /** For |x| <= lim and 0 <= y < w, the high half of x * y stays within lim. */
  lemma HighHalf(x: int, y: int, lim: int, w: int)
    requires 0 <= x < lim && 0 <= y < w
    ensures 0 <= x * y / w < lim
  {
    assert 0 <= x * y;
    assert x * y < lim * w by {
      MulMono(x, lim - 1, y);
      MulMono(y, w, lim - 1);
      assert (lim - 1) * w == lim * w - w;
    }
    DivBounds(x * y, w);
    var q := x * y / w;
    if q < 0 {
      MulMono(q + 1, 0, w);
    }
    if q >= lim {
      MulMono(lim, q, w);
    }
  }

  lemma MulhBound(a: u64, b: u64)
    ensures 0 <= a * b / W < W
  {
    HighHalf(a, b, W, W);
  }

  lemma SmulhBound(a: i64, b: i64)
    ensures -HALF <= a * b / W < HALF
  {
    AbsMul(a, b);
    MulMono(Abs(a), HALF, Abs(b));
    MulMono(Abs(b), HALF, HALF);
    assert -(HALF * HALF) <= a * b <= HALF * HALF;
  }

  lemma AbsMul(a: int, b: int)
    ensures -(Abs(a) * Abs(b)) <= a * b <= Abs(a) * Abs(b)
    ensures Abs(a) * Abs(b) >= 0
  {
    if a >= 0 && b >= 0 {
    } else if a >= 0 {
      assert a * b == -(a * -b);
      assert a * -b >= 0;
    } else if b >= 0 {
      assert a * b == -(-a * b);
      assert -a * b >= 0;
    } else {
      assert a * b == -a * -b;
      assert -a * -b >= 0;
    }
  }

  lemma DivShrinks(x: nat, p: int)
    requires p >= 1
    ensures 0 <= x / p <= x
  {
    var q := x / p;
    assert x == q * p + x % p;
    if q < 0 {
      assert q * p <= -p by { MulMono(q, -1, p); }
      assert false;
    }
    assert q * p >= q by { MulMono(1, p, q); }
  }

  lemma FloorShrinks(x: int, p: int)
    requires p >= 1
    ensures x >= 0 ==> 0 <= x / p <= x
    ensures x < 0 ==> x <= x / p <= -1
  {
    if x >= 0 {
      DivShrinks(x, p);
    } else {
      DivBounds(x, p);
      var q := x / p;
      if q >= 0 {
        MulMono(0, q, p);
      }
      assert x * p <= x by {
        MulMono(1, p, -x);
        assert x * p == -(p * -x);
      }
      if q < x {
        MulMono(q + 1, x, p);
      }
    }
  }

  lemma MulMono(a: int, b: int, c: int)
    requires a <= b && c >= 0
    ensures a * c <= b * c
  {
  }

  lemma MulStrict(a: int, b: int, c: int)
    requires a < b && c > 0
    ensures a * c < b * c
  {
  }

  /** A quotient is determined by the interval its multiple opens. */
  lemma DivUnique(x: int, p: int, q: int)
    requires p > 0
    requires q * p <= x < (q + 1) * p
    ensures x / p == q
  {
    var k := x / p;
    assert x == k * p + x % p;
    assert (k + 1) * p == k * p + p;
    if k < q {
      MulMono(k + 1, q, p);
    } else if k > q {
      MulMono(q + 1, k, p);
    }
  }

  lemma DivBounds(x: int, p: int)
    requires p > 0
    ensures x / p * p <= x < (x / p + 1) * p
  {
    assert x == x / p * p + x % p;
    assert (x / p + 1) * p == x / p * p + p;
  }

  /** Splits `a * b + c` (0 <= c < b) into quotient and remainder. */
  lemma SplitUnique(x: int, b: int, a: int, c: int)
    requires b > 0 && x == a * b + c && 0 <= c < b
    ensures x / b == a && x % b == c
  {
    assert (a + 1) * b == a * b + b;
    DivUnique(x, b, a);
    assert x == x / b * b + x % b;
  }

  /** `Wrap(x)` is the one word that differs from `x` by a multiple of 2^64. */
  lemma WrapIs(x: int, k: int, r: u64)
    requires x == k * W + r
    ensures Wrap(x) == r
  {
    SplitUnique(x, W, k, r);
  }

  lemma WrapNear(x: int)
    ensures -W <= x < 0 ==> Wrap(x) == x + W
    ensures 0 <= x < W ==> Wrap(x) == x
    ensures W <= x < 2 * W ==> Wrap(x) == x - W
  {
    if -W <= x < 0 {
      WrapIs(x, -1, x + W);
    } else if 0 <= x < W {
      WrapIs(x, 0, x);
    } else if W <= x < 2 * W {
      WrapIs(x, 1, x - W);
    }
  }

  lemma WrapPeriod(x: int, k: int)
    ensures Wrap(x + k * W) == Wrap(x)
  {
    assert x + k * W == (x / W + k) * W + x % W;
    WrapIs(x + k * W, x / W + k, x % W);
  }

  /** Wrapping the operands of a doubling, an addition or a subtraction changes nothing. */
  lemma WrapInside(x: int, y: int)
    ensures Wrap(Wrap(x) * 2) == Wrap(x * 2)
    ensures Wrap(Wrap(x) + y) == Wrap(x + y)
    ensures Wrap(Wrap(x) - y) == Wrap(x - y)
    ensures Wrap(y - Wrap(x)) == Wrap(y - x)
  {
    var k := x / W;
    assert Wrap(x) == x - k * W;
    WrapPeriod(x * 2, -2 * k);
    WrapPeriod(x + y, -k);
    WrapPeriod(x - y, -k);
    WrapPeriod(y - x, k);
  }

  lemma DivDiv(x: int, a: int, b: int)
    requires a > 0 && b > 0
    ensures a * b > 0
    ensures x / a / b == x / (a * b)
  {
    assert a * b > 0 by { MulStrict(0, a, b); }
    var y := x / a;
    var z := y / b;
    DivBounds(x, a);
    DivBounds(y, b);
    assert z * (a * b) <= x by {
      MulMono(z * b, y, a);
      assert z * b * a == z * (a * b);
    }
    assert x < (z + 1) * (a * b) by {
      MulMono(y + 1, (z + 1) * b, a);
      assert (z + 1) * b * a == (z + 1) * (a * b);
    }
    DivUnique(x, a * b, z);
  }

  lemma Pow2Add(a: nat, b: nat)
    ensures Pow2(a + b) == Pow2(a) * Pow2(b)
  {
    if a > 0 {
      Pow2Add(a - 1, b);
      assert 2 * Pow2(a - 1) * Pow2(b) == 2 * (Pow2(a - 1) * Pow2(b));
    }
  }

  lemma Pow2Mono(a: nat, b: nat)
    requires a <= b
    ensures Pow2(a) <= Pow2(b)
    decreases b
  {
    if a < b {
      Pow2Mono(a, b - 1);
    }
  }

  /** The powers that are word sizes. */
  lemma Pow2Word()
    ensures Pow2(0) == 1 && Pow2(1) == 2
    ensures Pow2(63) == HALF && Pow2(64) == W
  {
    Pow2Values();
  }

  lemma Pow2Values()
    ensures Pow2(16) == 0x1_0000
    ensures Pow2(32) == 0x1_0000_0000
    ensures Pow2(62) * 4 == W
    ensures Pow2(63) == HALF
    ensures Pow2(64) == W
    ensures Pow2(127) == HALF * W
    ensures Pow2(128) == W * W
  {
    assert Pow2(8) == 256;
    Pow2Add(8, 8);
    Pow2Add(16, 16);
    Pow2Add(32, 32);
    Pow2Add(64, 64);
    Pow2Add(63, 64);
    assert Pow2(64) == 2 * Pow2(63);
    assert Pow2(63) == 2 * Pow2(62);
  }
}
