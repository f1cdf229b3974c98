/** Strength-reduced division and remainder by a constant: the ARM sequences emitted for `/`
    and `%`, proved on every dividend against truncating division. */
module ConstDivide {
  import opened Word
  import opened Arm
  import Magic
  import opened Wrappers

  predicate IsPowerOfTwo(x: nat) {
    exists k: nat :: k < 64 && x == Pow2(k)
  }

  function TrailingZeros(x: nat): nat
    requires x > 0
  {
    if x % 2 == 1 then 0 else 1 + TrailingZeros(x / 2)
  }

  lemma TrailingZerosOfPower(k: nat)
    ensures TrailingZeros(Pow2(k)) == k
  {
    if k > 0 {
      TrailingZerosOfPower(k - 1);
    }
  }

  /** `trailing_zeros` of a power of two is its exponent. */
  lemma PowerExponent(x: nat)
    requires IsPowerOfTwo(x)
    ensures x > 0 && TrailingZeros(x) < 64 && x == Pow2(TrailingZeros(x))
  {
    var k: nat :| k < 64 && x == Pow2(k);
    TrailingZerosOfPower(k);
  }

  // --- The emitted sequences -----------------------------------------------

  function UnsignedCode(quo: Reg, dividend: Reg, divisor: u64, m: Magic.Unsigned): seq<Insn>
    requires divisor != 0
    requires m.add ==> m.shift >= 1
  {
    if IsPowerOfTwo(divisor) then
      [LsrImm(quo, dividend, TrailingZeros(divisor))]
    else
      [MovImm(X16, m.multiplier), Insn.Umulh(X16, dividend, X16)] +
      if m.add then
        [Sub(X17, dividend, X16), LsrImm(X17, X17, 1), Add(X16, X17, X16), LsrImm(quo, X16, m.shift - 1)]
      else
        [LsrImm(quo, X16, m.shift)]
  }

  /** The correction step: add or subtract the dividend when the multiplier's sign is off. */
  function Correction(dividend: Reg, divisor: i64, multiplier: i64): seq<Insn> {
    if divisor > 0 && multiplier < 0 then [Add(X16, X16, dividend)]
    else if divisor < 0 && multiplier > 0 then [Sub(X16, X16, dividend)]
    else []
  }

  function SignedPowerCode(quo: Reg, dividend: Reg, divisor: i64): seq<Insn>
    requires divisor != 0 && IsPowerOfTwo(Abs(divisor))
  {
    PowerExponent(Abs(divisor));
    var k := TrailingZeros(Abs(divisor));
    [AsrImm(X16, dividend, 63), LsrImm(X16, X16, 64 - k), Add(X16, dividend, X16), AsrImm(quo, X16, k)] +
    if divisor < 0 then [Sub(quo, XZR, quo)] else []
  }

  function SignedMagicSequence(quo: Reg, dividend: Reg, divisor: i64, m: Magic.Signed): seq<Insn> {
    [MovImm(X16, ToUnsigned(m.multiplier)), Insn.Smulh(X16, dividend, X16)] +
    Correction(dividend, divisor, m.multiplier) +
    [AsrImm(X16, X16, m.shift), LsrImm(X17, X16, 63), Add(quo, X16, X17)]
  }

  function SignedCode(quo: Reg, dividend: Reg, divisor: i64, m: Magic.Signed): seq<Insn>
    requires divisor != 0
  {
    if IsPowerOfTwo(Abs(divisor)) then SignedPowerCode(quo, dividend, divisor)
    else SignedMagicSequence(quo, dividend, divisor, m)
  }

  // --- What they compute ---------------------------------------------------

  /** Everything but the quotient register and the scratch pair keeps its value. */
  ghost predicate KeepsOthers(quo: Reg, r: Regs, r': Regs) {
    forall x: Reg :: x != quo && x != X16 && x != X17 ==> Get(r', x) == Get(r, x)
  }

  /** The averaging tail: q = (((n - hi) >> 1) + hi) >> (shift - 1). */
  lemma AddTail(quo: Reg, dividend: Reg, m: Magic.Unsigned, n: u64, r: Regs)
    requires quo != XZR && dividend != X16 && dividend != X17
    requires m.add && 1 <= m.shift <= 64
    requires Get(r, dividend) == n && Get(r, X16) == Word.Umulh(n, m.multiplier)
    ensures var r' := Exec(
        [Sub(X17, dividend, X16), LsrImm(X17, X17, 1), Add(X16, X17, X16), LsrImm(quo, X16, m.shift - 1)], r);
      Get(r', quo) == Magic.UnsignedSequence(n, m) && KeepsOthers(quo, r, r')
  {
    hide Word.Umulh, Wrap, Lsr;
    var i1, i2, i3, i4 :=
      Sub(X17, dividend, X16), LsrImm(X17, X17, 1), Add(X16, X17, X16), LsrImm(quo, X16, m.shift - 1);
    Exec4(i1, i2, i3, i4, r);
    var hi := Get(r, X16);
    var r1 := Step(i1, r);
    assert Get(r1, X17) == Wrap(n - hi) && Get(r1, X16) == hi;
    var r2 := Step(i2, r1);
    assert Get(r2, X17) == Lsr(Wrap(n - hi), 1) && Get(r2, X16) == hi;
    var r3 := Step(i3, r2);
    assert Get(r3, X16) == Wrap(Lsr(Wrap(n - hi), 1) + hi);
  }

  /** Loading the multiplier and taking the high product. */
  lemma HighProduct(dividend: Reg, multiplier: u64, high: Insn, r: Regs)
    requires dividend != X16 && dividend != X17
    requires high == Insn.Umulh(X16, dividend, X16) || high == Insn.Smulh(X16, dividend, X16)
    ensures var n := Get(r, dividend); var r' := Exec([MovImm(X16, multiplier), high], r);
      && Get(r', dividend) == n
      && Get(r', X16) == (if high.Umulh? then Word.Umulh(n, multiplier)
                          else ToUnsigned(Word.Smulh(ToSigned(n), ToSigned(multiplier))))
      && forall x: Reg :: x != X16 && x != X17 ==> Get(r', x) == Get(r, x)
  {
    hide Word.Umulh, Word.Smulh;
    Exec2(MovImm(X16, multiplier), high, r);
  }

  /** The unsigned sequence leaves floor(n / d) in the quotient register. */
  lemma UnsignedConstQuotient(quo: Reg, dividend: Reg, d: u64, m: Magic.Unsigned, r: Regs)
    requires d != 0 && quo != XZR && dividend != X16 && dividend != X17
    requires m.add ==> m.shift >= 1
    requires !IsPowerOfTwo(d) ==> Magic.IsUnsignedMagic(d, m) && m.shift <= 64 && (!m.add ==> m.shift <= 63)
    ensures var r' := Exec(UnsignedCode(quo, dividend, d, m), r);
      Get(r', quo) == UnsignedDiv(Get(r, dividend), d) && KeepsOthers(quo, r, r')
  {
    var n := Get(r, dividend);
    if IsPowerOfTwo(d) {
      PowerExponent(d);
      Exec1(LsrImm(quo, dividend, TrailingZeros(d)), r);
    } else {
      hide Word.Umulh, Wrap, Lsr, IsPowerOfTwo, Magic.UnsignedSequence, Magic.IsUnsignedMagic;
      NotOne(d);
      var head := [MovImm(X16, m.multiplier), Insn.Umulh(X16, dividend, X16)];
      HighProduct(dividend, m.multiplier, head[1], r);
      var s := Exec(head, r);
      Magic.UnsignedQuotient(n, d, m);
      if m.add {
        var tail :=
          [Sub(X17, dividend, X16), LsrImm(X17, X17, 1), Add(X16, X17, X16), LsrImm(quo, X16, m.shift - 1)];
        ExecAppend(head, tail, r);
        AddTail(quo, dividend, m, n, s);
      } else {
        ExecAppend(head, [LsrImm(quo, X16, m.shift)], r);
        ShiftTail(quo, m, n, s);
      }
    }
  }

  lemma ShiftTail(quo: Reg, m: Magic.Unsigned, n: u64, r: Regs)
    requires quo != XZR && !m.add && m.shift <= 63
    requires Get(r, X16) == Word.Umulh(n, m.multiplier)
    ensures var r' := Exec([LsrImm(quo, X16, m.shift)], r);
      Get(r', quo) == Magic.UnsignedSequence(n, m) && KeepsOthers(quo, r, r')
  {
    hide Word.Umulh, Lsr;
    Exec1(LsrImm(quo, X16, m.shift), r);
  }

  lemma NotOne(d: nat)
    requires d > 0 && !IsPowerOfTwo(d)
    ensures d >= 2
  {
    assert Pow2(0) == 1;
  }

  /** The dividend as a signed number. */
  function SignedAt(r: Regs, x: Reg): i64 {
    ToSigned(Get(r, x))
  }

  lemma SignedRoundTrip(x: i64)
    ensures ToSigned(ToUnsigned(x)) == x
    ensures Wrap(x) == ToUnsigned(x)
  {
    WrapNear(x);
  }

  lemma UnsignedRoundTrip(x: u64)
    ensures ToUnsigned(ToSigned(x)) == x
  {
  }

  /** Adding register values wraps exactly as adding their signed readings does. */
  lemma SignedWrap(a: i64, b: i64)
    ensures Wrap(ToUnsigned(a) + ToUnsigned(b)) == Wrap(a + b)
    ensures Wrap(ToUnsigned(a) - ToUnsigned(b)) == Wrap(a - b)
  {
    hide Wrap;
    var i, j := if a < 0 then 1 else 0, if b < 0 then 1 else 0;
    WrapPeriod(a + b, i + j);
    WrapPeriod(a - b, i - j);
    assert ToUnsigned(a) == a + i * W && ToUnsigned(b) == b + j * W;
    assert (i + j) * W == i * W + j * W;
  }

  /** The tail after the correction: arithmetic shift, then add the sign bit. */
  lemma SignTail(quo: Reg, shift: nat, q: i64, r: Regs)
    requires quo != XZR && shift <= 63 && Get(r, X16) == ToUnsigned(q)
    ensures var r' := Exec([AsrImm(X16, X16, shift), LsrImm(X17, X16, 63), Add(quo, X16, X17)], r);
      SignedAt(r', quo) == Magic.AddSign(Asr(q, shift)) && KeepsOthers(quo, r, r')
  {
    hide Wrap, Lsr, Asr;
    var i1, i2, i3 := AsrImm(X16, X16, shift), LsrImm(X17, X16, 63), Add(quo, X16, X17);
    Exec3(i1, i2, i3, r);
    SignedRoundTrip(q);
    var y := Asr(q, shift);
    var r1 := Step(i1, r);
    assert Get(r1, X16) == ToUnsigned(y);
    var r2 := Step(i2, r1);
    var bit := Lsr(ToUnsigned(y), 63);
    assert Get(r2, X16) == ToUnsigned(y) && Get(r2, X17) == bit;
    WrapPeriod(y + bit, if y < 0 then 1 else 0);
  }

  lemma CorrectionTail(dividend: Reg, d: i64, multiplier: i64, n: i64, r: Regs)
    requires dividend != X16 && dividend != X17
    requires Get(r, dividend) == ToUnsigned(n)
    requires Get(r, X16) == ToUnsigned(Word.Smulh(n, multiplier))
    ensures var r' := Exec(Correction(dividend, d, multiplier), r);
      && Get(r', X16) == ToUnsigned(Magic.CorrectedHigh(n, d, multiplier))
      && forall x: Reg :: x != X16 ==> Get(r', x) == Get(r, x)
  {
    hide Wrap, Word.Smulh;
    var hi := Word.Smulh(n, multiplier);
    SignedWrap(hi, n);
    UnsignedRoundTrip(Wrap(hi + n));
    UnsignedRoundTrip(Wrap(hi - n));
    Exec1(Add(X16, X16, dividend), r);
    Exec1(Sub(X16, X16, dividend), r);
  }

  /** The magic sequence leaves the truncated quotient. */
  lemma SignedMagicCode(quo: Reg, dividend: Reg, d: i64, m: Magic.Signed, r: Regs)
    requires Abs(d) >= 2 && quo != XZR && dividend != X16 && dividend != X17
    requires !IsPowerOfTwo(Abs(d)) && Magic.IsSignedMagic(d, m) && m.shift <= 62
    ensures var r' := Exec(SignedCode(quo, dividend, d, m), r);
      SignedAt(r', quo) == TruncDiv(SignedAt(r, dividend), d) && KeepsOthers(quo, r, r')
  {
    hide IsPowerOfTwo, Word.Smulh, Magic.IsSignedMagic, Magic.CorrectedHigh, Magic.AddSign, TruncDiv, Asr;
    var n := SignedAt(r, dividend);
    UnsignedRoundTrip(Get(r, dividend));
    SignedRoundTrip(m.multiplier);
    var head := [MovImm(X16, ToUnsigned(m.multiplier)), Insn.Smulh(X16, dividend, X16)];
    var mid := Correction(dividend, d, m.multiplier);
    var tail := [AsrImm(X16, X16, m.shift), LsrImm(X17, X16, 63), Add(quo, X16, X17)];
    assert SignedCode(quo, dividend, d, m) == head + mid + tail;
    ExecAppend(head + mid, tail, r);
    ExecAppend(head, mid, r);
    HighProduct(dividend, ToUnsigned(m.multiplier), head[1], r);
    var s := Exec(head, r);
    CorrectionTail(dividend, d, m.multiplier, n, s);
    SignTail(quo, m.shift, Magic.CorrectedHigh(n, d, m.multiplier), Exec(mid, s));
    Magic.SignedQuotient(n, d, m);
  }

  /** The value the power-of-two path shifts: the dividend plus a bias for negative dividends.
      The bias is 2^k - 1 for k >= 1. At k == 0 the right shift by 64 encodes as a shift
      by 0, which leaves the bias at -1. */
  function Biased(n: i64, k: nat): i64
    requires k < 64
  {
    ToSigned(Wrap(ToUnsigned(n) + Bias(n, k)))
  }

  lemma AllOnesQuotient(a: int, b: int, w: int)
    requires a >= 1 && a * b == w
    ensures (w - 1) / a == b - 1
  {
    assert (b - 1) * a == w - a;
    DivUnique(w - 1, a, b - 1);
  }

  lemma ShiftAllOnes(k: nat)
    requires 1 <= k < 64
    ensures Lsr(W - 1, 64 - k) == Pow2(k) - 1
  {
    Pow2Word();
    Pow2Add(64 - k, k);
    hide Pow2;
    AllOnesQuotient(Pow2(64 - k), Pow2(k), W);
  }

  lemma SignMask(n: i64)
    ensures Asr(n, 63) == if n < 0 then -1 else 0
  {
    Pow2Word();
    hide Pow2;
    if n < 0 {
      DivUnique(n, HALF, -1);
    } else {
      DivUnique(n, HALF, 0);
    }
  }

  /** The bias before it is added. */
  function Bias(n: i64, k: nat): u64
    requires k < 64
  {
    Lsr(ToUnsigned(Asr(n, 63)), ShiftField(64 - k))
  }

  lemma NoBias(n: i64, k: nat)
    requires k < 64 && n >= 0
    ensures Biased(n, k) == n
  {
    SignMask(n);
    hide Wrap, Asr, Pow2;
    DivShrinks(0, Pow2(ShiftField(64 - k)));
    WrapNear(n);
  }

  lemma NegativeBias(n: i64, k: nat)
    requires 1 <= k < 64 && n < 0
    ensures Bias(n, k) == Pow2(k) - 1
  {
    hide Asr, Lsr, Pow2;
    SignMask(n);
    ShiftAllOnes(k);
    assert ToUnsigned(Asr(n, 63)) == W - 1;
    assert ShiftField(64 - k) == 64 - k;
  }

  lemma BiasWraps(n: i64, b: int)
    requires n < 0 && 0 <= b < HALF
    ensures ToSigned(Wrap(ToUnsigned(n) + b)) == n + b
  {
    hide Wrap;
    WrapNear(n as int + W + b);
  }

  lemma BiasNegative(n: i64, k: nat)
    requires 1 <= k < 64 && n < 0
    ensures Biased(n, k) == n + Pow2(k) - 1
  {
    hide Wrap, Bias, Pow2, ToSigned, ToUnsigned;
    Pow2Word();
    Pow2Mono(k, 63);
    NegativeBias(n, k);
    BiasWraps(n, Pow2(k) - 1);
  }

  lemma BiasEncodedAway(n: i64)
    requires n < 0
    ensures Biased(n, 0) == if n == -HALF then HALF - 1 else n - 1
  {
    SignMask(n);
    Pow2Word();
    hide Wrap, Asr, Pow2;
    assert Bias(n, 0) == W - 1;
    WrapNear(n + W + W - 1);
  }

  /** Adding 2^k - 1 before flooring rounds a negative dividend up, toward zero. */
  lemma CeilingShift(n: int, pow: int)
    requires n < 0 && pow >= 1
    ensures (n + pow - 1) / pow == -(-n / pow)
  {
    var q := -n / pow;
    DivBounds(-n, pow);
    assert -q * pow == -(q * pow);
    assert (-q + 1) * pow == -(q * pow) + pow;
    assert (q + 1) * pow == q * pow + pow;
    DivUnique(n + pow - 1, pow, -q);
  }

  /** The power-of-two path leaves `Biased >> k`, negated for a negative divisor. */
  lemma SignedPowerRun(quo: Reg, dividend: Reg, d: i64, m: Magic.Signed, r: Regs)
    requires d != 0 && quo != XZR && dividend != X16 && dividend != X17
    requires IsPowerOfTwo(Abs(d)) && TrailingZeros(Abs(d)) < 64
    ensures var r', k := Exec(SignedCode(quo, dividend, d, m), r), TrailingZeros(Abs(d));
      var y := Asr(Biased(SignedAt(r, dividend), k), k);
      Get(r', quo) == Wrap(if d < 0 then -(y as int) else y) && KeepsOthers(quo, r, r')
  {
    hide Wrap, Asr, Lsr, IsPowerOfTwo, TrailingZeros;
    var k := TrailingZeros(Abs(d));
    var n := SignedAt(r, dividend);
    UnsignedRoundTrip(Get(r, dividend));
    var i1, i2, i3, i4 :=
      AsrImm(X16, dividend, 63), LsrImm(X16, X16, 64 - k), Add(X16, dividend, X16), AsrImm(quo, X16, k);
    Exec4(i1, i2, i3, i4, r);
    var r1 := Step(i1, r);
    assert Get(r1, X16) == ToUnsigned(Asr(n, 63)) && Get(r1, dividend) == ToUnsigned(n);
    var r2 := Step(i2, r1);
    var r3 := Step(i3, r2);
    assert SignedAt(r3, X16) == Biased(n, k);
    var r4 := Step(i4, r3);
    var y := Asr(Biased(n, k), k);
    assert Get(r4, quo) == ToUnsigned(y);
    SignedRoundTrip(y);
    var tail := if d < 0 then [Sub(quo, XZR, quo)] else [];
    ExecAppend([i1, i2, i3, i4], tail, r);
    Exec1(Sub(quo, XZR, quo), r4);
    SignedWrap(0, y);
    WrapNear(0);
  }

  /** For |d| == 2^k the shifted value is the truncated quotient, except that dividing a
      negative dividend by 1 or -1 comes out one too low (in magnitude, one too high). */
  lemma PowerQuotient(n: i64, k: nat)
    requires k < 64
    ensures var y := Asr(Biased(n, k), k);
      if n >= 0 then y == n / Pow2(k)
      else if k >= 1 then y == -(-(n as int) / Pow2(k))
      else y == if n == -HALF then HALF - 1 else n - 1
  {
    hide Biased;
    if n >= 0 {
      NoBias(n, k);
    } else if k >= 1 {
      BiasNegative(n, k);
      CeilingShift(n, Pow2(k));
    } else {
      BiasEncodedAway(n);
    }
  }

  /** Signed division by a constant is truncating division, on every constant path, exactly when
      the dividend is not negative or the divisor is not 1 or -1. */
  lemma SignedConstQuotient(quo: Reg, dividend: Reg, d: i64, m: Magic.Signed, r: Regs)
    requires d != 0 && quo != XZR && dividend != X16 && dividend != X17
    requires !IsPowerOfTwo(Abs(d)) ==> Magic.IsSignedMagic(d, m) && m.shift <= 62
    ensures var n, r' := SignedAt(r, dividend), Exec(SignedCode(quo, dividend, d, m), r);
      && (Get(r', quo) == Wrap(TruncDiv(n, d)) <==> n >= 0 || Abs(d) >= 2)
      && KeepsOthers(quo, r, r')
  {
    hide Wrap, SignedCode, TruncDiv, IsPowerOfTwo, Magic.IsSignedMagic;
    if IsPowerOfTwo(Abs(d)) {
      SignedPowerExact(quo, dividend, d, m, r);
    } else {
      NotOne(Abs(d));
      SignedMagicCode(quo, dividend, d, m, r);
      var r' := Exec(SignedCode(quo, dividend, d, m), r);
      SignedRoundTrip(SignedAt(r', quo));
      UnsignedRoundTrip(Get(r', quo));
    }
  }

  lemma SignedPowerExact(quo: Reg, dividend: Reg, d: i64, m: Magic.Signed, r: Regs)
    requires d != 0 && quo != XZR && dividend != X16 && dividend != X17
    requires IsPowerOfTwo(Abs(d))
    ensures var n, r' := SignedAt(r, dividend), Exec(SignedCode(quo, dividend, d, m), r);
      && (Get(r', quo) == Wrap(TruncDiv(n, d)) <==> n >= 0 || Abs(d) >= 2)
      && KeepsOthers(quo, r, r')
  {
    var n, k := SignedAt(r, dividend), TrailingZeros(Abs(d));
    PowerExponent(Abs(d));
    ExponentZero(Abs(d));
    hide Wrap, SignedCode, Asr, Biased, Pow2, TrailingZeros, TruncDiv, IsPowerOfTwo;
    SignedPowerRun(quo, dividend, d, m, r);
    PowerQuotient(n, k);
    PowerSign(n, d, Asr(Biased(n, k), k));
  }

  lemma ExponentZero(x: nat)
    requires IsPowerOfTwo(x) && x > 0
    ensures TrailingZeros(x) == 0 <==> x == 1
  {
    PowerExponent(x);
    assert Pow2(0) == 1;
  }

  lemma PowerSign(n: i64, d: i64, y: i64)
    requires d != 0
    requires n >= 0 ==> y == n / Abs(d)
    requires n < 0 && Abs(d) >= 2 ==> y == -(-(n as int) / Abs(d))
    requires n < 0 && Abs(d) == 1 ==> y == if n == -HALF then HALF - 1 else n - 1
    ensures Wrap(if d < 0 then -(y as int) else y) == Wrap(TruncDiv(n, d)) <==> n >= 0 || Abs(d) >= 2
  {
    hide Wrap;
    if n < 0 && Abs(d) == 1 {
      WrapNear(y);
      WrapNear(-(y as int));
      WrapNear(TruncDiv(n, d));
    }
  }

  // --- Remainder -----------------------------------------------------------

  /** The truncated remainder is below the divisor in magnitude and never has the
      opposite sign of the dividend. */
  lemma TruncRemFacts(n: int, d: int)
    requires d != 0
    ensures n == TruncDiv(n, d) * d + TruncRem(n, d)
    ensures Abs(TruncRem(n, d)) < Abs(d)
    ensures n >= 0 ==> TruncRem(n, d) >= 0
    ensures n <= 0 ==> TruncRem(n, d) <= 0
  {
    var q, r := Abs(n) / Abs(d), Abs(n) % Abs(d);
    assert Abs(n) == q * Abs(d) + r;
    assert TruncDiv(n, d) * d == if n < 0 then -(q * Abs(d)) else q * Abs(d) by {
      assert q * d == if d < 0 then -(q * Abs(d)) else q * Abs(d);
      assert -q * d == -(q * d);
    }
  }

  /** A product of register words agrees with the product of their signed readings. */
  lemma SignedProduct(n: i64, q: i64, c: i64)
    ensures Wrap(ToUnsigned(n) - ToUnsigned(q) * ToUnsigned(c)) == Wrap(n - q * c)
  {
    hide Wrap;
    var h, i, j := if n < 0 then 1 else 0, if q < 0 then 1 else 0, if c < 0 then 1 else 0;
    assert (q + i * W) * (c + j * W) == q * c + (i * c + j * q + i * j * W) * W;
    WrapPeriod(n - q * c, h - (i * c + j * q + i * j * W));
    assert (h - (i * c + j * q + i * j * W)) * W == h * W - (i * c + j * q + i * j * W) * W;
  }

  /** Multiply back and subtract: `d = l - X17 * divisor`. */
  function RemainderTail(dst: Reg, dividend: Reg, divisor: u64): seq<Insn> {
    [MovImm(X16, divisor), Msub(dst, X17, X16, dividend)]
  }

  lemma MultiplyBack(dst: Reg, dividend: Reg, c: u64, r: Regs)
    requires dst != XZR && dividend != X16 && dividend != X17
    ensures var r' := Exec(RemainderTail(dst, dividend, c), r);
      && Get(r', dst) == Wrap(Get(r, dividend) - Get(r, X17) * c)
      && forall x: Reg :: x != dst && x != X16 ==> Get(r', x) == Get(r, x)
  {
    hide Wrap;
    Exec2(MovImm(X16, c), Msub(dst, X17, X16, dividend), r);
  }

  /** Unsigned `%` by a constant leaves n mod c. */
  lemma UnsignedRemainder(quotient: seq<Insn>, dst: Reg, dividend: Reg, c: u64, r: Regs)
    requires c != 0 && dst != XZR && dividend != X16 && dividend != X17
    requires DividesUnsigned(quotient, X17, dividend, c)
    ensures var r' := Exec(quotient + RemainderTail(dst, dividend, c), r);
      Get(r', dst) == Get(r, dividend) % c && KeepsOthers(dst, r, r')
  {
    hide Wrap;
    var n := Get(r, dividend);
    ExecAppend(quotient, RemainderTail(dst, dividend, c), r);
    MultiplyBack(dst, dividend, c, Exec(quotient, r));
    RemainderLeft(n, c, UnsignedDiv(n, c));
    hide UnsignedDiv;
    WrapNear(n % c);
  }

  lemma RemainderLeft(n: nat, c: int, q: int)
    requires c > 0 && q == n / c
    ensures n - q * c == n % c
  {
  }

  /** Signed `%` by a constant leaves the truncated remainder, exactly when the quotient was right. */
  lemma SignedRemainder(quotient: seq<Insn>, dst: Reg, dividend: Reg, c: i64, r: Regs)
    requires c != 0 && dst != XZR && dividend != X16 && dividend != X17
    requires DividesSigned(quotient, X17, dividend, c)
    ensures var n := SignedAt(r, dividend);
      var r' := Exec(quotient + RemainderTail(dst, dividend, ToUnsigned(c)), r);
      && (SignedAt(r', dst) == TruncRem(n, c) <==> n >= 0 || Abs(c) >= 2)
      && KeepsOthers(dst, r, r')
  {
    hide Wrap, TruncDiv;
    ExecAppend(quotient, RemainderTail(dst, dividend, ToUnsigned(c)), r);
    var s := Exec(quotient, r);
    MultiplyBack(dst, dividend, ToUnsigned(c), s);
    UnsignedRoundTrip(Get(r, dividend));
    UnsignedRoundTrip(Get(s, X17));
    SignedRoundTrip(SignedAt(s, X17));
    RemainderFromQuotient(SignedAt(r, dividend), c, SignedAt(s, X17));
  }

  /** Multiplying back a word quotient gives the right remainder exactly when the quotient is right. */
  lemma RemainderFromQuotient(n: i64, c: i64, q: i64)
    requires c != 0
    requires Abs(c) >= 2 ==> Wrap(q) == Wrap(TruncDiv(n, c))
    ensures ToSigned(Wrap(ToUnsigned(n) - ToUnsigned(q) * ToUnsigned(c))) == TruncRem(n, c) <==>
      Wrap(q) == Wrap(TruncDiv(n, c))
  {
    hide Wrap;
    SignedProduct(n, q, c);
    TruncRemFacts(n, c);
    SignedRoundTrip(TruncRem(n, c));
    UnsignedRoundTrip(Wrap(n - q * c));
    if Abs(c) >= 2 {
      Magic.HalfQuotient(Abs(n), Abs(c));
      SameWord(q, TruncDiv(n, c));
    } else {
      UnitQuotient(n, c, q);
    }
  }

  lemma SameWord(a: i64, b: i64)
    requires Wrap(a) == Wrap(b)
    ensures a == b
  {
    hide Wrap;
    WrapNear(a);
    WrapNear(b);
  }

  lemma UnitQuotient(n: i64, c: i64, q: i64)
    requires Abs(c) == 1
    ensures TruncRem(n, c) == 0
    ensures Wrap(n - q * c) == 0 <==> Wrap(q) == Wrap(TruncDiv(n, c))
  {
    hide Wrap;
    var x: int, y: int := n, q;
    if c == 1 {
      assert TruncDiv(n, c) == x && n * c == x && q * c == y;
      WrapNear(x - y);
    } else {
      assert TruncDiv(n, c) == -x && n * c == -x && q * c == -y;
      WrapNear(x + y);
    }
    WrapNear(y);
    WrapNear(x);
    WrapNear(-x);
  }

  // --- Emission ------------------------------------------------------------

  /** Emitted code that leaves floor(n / d) of an unsigned dividend in `quo`. */
  ghost predicate DividesUnsigned(out: seq<Insn>, quo: Reg, dividend: Reg, d: u64)
    requires d != 0
  {
    forall r: Regs :: var r' := Exec(out, r);
      Get(r', quo) == UnsignedDiv(Get(r, dividend), d) && KeepsOthers(quo, r, r')
  }

  /** Emitted code that truncates, but for a negative dividend over 1 or -1, where it does not. */
  ghost predicate DividesSigned(out: seq<Insn>, quo: Reg, dividend: Reg, d: i64)
    requires d != 0
  {
    forall r: Regs :: var n, r' := SignedAt(r, dividend), Exec(out, r);
      && (Get(r', quo) == Wrap(TruncDiv(n, d)) <==> n >= 0 || Abs(d) >= 2)
      && KeepsOthers(quo, r, r')
  }

  method EmitUnsignedConstQuotient(e: Emitter, quo: Reg, dividend: Reg, divisor: u64)
    returns (ghost out: seq<Insn>)
    requires divisor != 0 && quo != XZR && dividend != X16 && dividend != X17
    modifies e
    ensures e.code == old(e.code) + out && DividesUnsigned(out, quo, dividend, divisor)
  {
    var m := Magic.Unsigned(0, false, 0);
    if IsPowerOfTwo(divisor) {
      PowerExponent(divisor);
      e.Emit(LsrImm(quo, dividend, TrailingZeros(divisor)));
    } else {
      NotOne(divisor);
      m := Magic.UnsignedMagic(divisor);
      e.Emit(MovImm(X16, m.multiplier));
      e.Emit(Insn.Umulh(X16, dividend, X16));
      if m.add {
        e.Emit(Sub(X17, dividend, X16));
        e.Emit(LsrImm(X17, X17, 1));
        e.Emit(Add(X16, X17, X16));
        e.Emit(LsrImm(quo, X16, m.shift - 1));
      } else {
        e.Emit(LsrImm(quo, X16, m.shift));
      }
    }
    out := UnsignedCode(quo, dividend, divisor, m);
    forall r: Regs ensures var r' := Exec(out, r);
      Get(r', quo) == UnsignedDiv(Get(r, dividend), divisor) && KeepsOthers(quo, r, r')
    {
      hide IsPowerOfTwo, UnsignedCode, Magic.IsUnsignedMagic, KeepsOthers;
      UnsignedConstQuotient(quo, dividend, divisor, m, r);
    }
  }

  /** Power-of-two magnitudes: bias, shift, and negate for a negative divisor. */
  method EmitSignedPower(e: Emitter, quo: Reg, dividend: Reg, divisor: i64)
    requires divisor != 0 && quo != XZR && IsPowerOfTwo(Abs(divisor))
    modifies e
    ensures e.code == old(e.code) + SignedPowerCode(quo, dividend, divisor)
  {
    PowerExponent(Abs(divisor));
    var k := TrailingZeros(Abs(divisor));
    e.Emit(AsrImm(X16, dividend, 63));
    e.Emit(LsrImm(X16, X16, 64 - k));
    e.Emit(Add(X16, dividend, X16));
    e.Emit(AsrImm(quo, X16, k));
    if divisor < 0 {
      e.Emit(Sub(quo, XZR, quo));
    }
  }

  /** Every other magnitude: the high multiply by the reciprocal, and its corrections. */
  method EmitSignedMagic(e: Emitter, quo: Reg, dividend: Reg, divisor: i64) returns (m: Magic.Signed)
    requires Abs(divisor) >= 2
    modifies e
    ensures Magic.IsSignedMagic(divisor, m) && m.shift <= 62
    ensures e.code == old(e.code) + SignedMagicSequence(quo, dividend, divisor, m)
  {
    m := Magic.SignedMagic(divisor);
    e.Emit(MovImm(X16, ToUnsigned(m.multiplier)));
    e.Emit(Insn.Smulh(X16, dividend, X16));
    if divisor > 0 && m.multiplier < 0 {
      e.Emit(Add(X16, X16, dividend));
    } else if divisor < 0 && m.multiplier > 0 {
      e.Emit(Sub(X16, X16, dividend));
    }
    e.Emit(AsrImm(X16, X16, m.shift));
    e.Emit(LsrImm(X17, X16, 63));
    e.Emit(Add(quo, X16, X17));
  }

  method EmitSignedConstQuotient(e: Emitter, quo: Reg, dividend: Reg, divisor: i64)
    returns (ghost out: seq<Insn>)
    requires divisor != 0 && quo != XZR && dividend != X16 && dividend != X17
    modifies e
    ensures e.code == old(e.code) + out && DividesSigned(out, quo, dividend, divisor)
  {
    hide SignedPowerCode, SignedMagicSequence, DividesSigned;
    var m := Magic.Signed(0, 0);
    if IsPowerOfTwo(Abs(divisor)) {
      EmitSignedPower(e, quo, dividend, divisor);
    } else {
      NotOne(Abs(divisor));
      m := EmitSignedMagic(e, quo, dividend, divisor);
    }
    out := SignedCode(quo, dividend, divisor, m);
    SignedCodeDivides(quo, dividend, divisor, m);
  }

  lemma SignedCodeDivides(quo: Reg, dividend: Reg, divisor: i64, m: Magic.Signed)
    requires divisor != 0 && quo != XZR && dividend != X16 && dividend != X17
    requires !IsPowerOfTwo(Abs(divisor)) ==> Magic.IsSignedMagic(divisor, m) && m.shift <= 62
    ensures DividesSigned(SignedCode(quo, dividend, divisor, m), quo, dividend, divisor)
  {
    var out := SignedCode(quo, dividend, divisor, m);
    forall r: Regs ensures var n, r' := SignedAt(r, dividend), Exec(out, r);
      && (Get(r', quo) == Wrap(TruncDiv(n, divisor)) <==> n >= 0 || Abs(divisor) >= 2)
      && KeepsOthers(quo, r, r')
    {
      hide IsPowerOfTwo, SignedCode, Magic.IsSignedMagic, KeepsOthers, TruncDiv, Wrap;
      SignedConstQuotient(quo, dividend, divisor, m, r);
    }
  }

  /** The `/` arm: a non-zero constant divisor takes the constant path, anything else divides. */
  method EmitDiv(e: Emitter, dst: Reg, l: Reg, rr: Reg, constant: Option<u64>, isUnsigned: bool)
    returns (ghost out: seq<Insn>)
    requires dst != XZR && l != X16 && l != X17
    modifies e
    ensures e.code == old(e.code) + out
    ensures constant.Some? && constant.value != 0 ==>
      if isUnsigned then DividesUnsigned(out, dst, l, constant.value)
      else DividesSigned(out, dst, l, ToSigned(constant.value))
    ensures constant.None? || constant.value == 0 ==>
      out == [if isUnsigned then Udiv(dst, l, rr) else Sdiv(dst, l, rr)]
  {
    if constant.Some? && constant.value != 0 {
      if isUnsigned {
        out := EmitUnsignedConstQuotient(e, dst, l, constant.value);
      } else {
        out := EmitSignedConstQuotient(e, dst, l, ToSigned(constant.value));
      }
    } else {
      var i := if isUnsigned then Udiv(dst, l, rr) else Sdiv(dst, l, rr);
      e.Emit(i);
      out := [i];
    }
  }

  ghost predicate RemainsUnsigned(out: seq<Insn>, dst: Reg, l: Reg, c: u64)
    requires c != 0
  {
    forall r: Regs :: var r' := Exec(out, r); Get(r', dst) == Get(r, l) % c && KeepsOthers(dst, r, r')
  }

  ghost predicate RemainsSigned(out: seq<Insn>, dst: Reg, l: Reg, c: i64)
    requires c != 0
  {
    forall r: Regs :: var n, r' := SignedAt(r, l), Exec(out, r);
      && (SignedAt(r', dst) == TruncRem(n, c) <==> n >= 0 || Abs(c) >= 2)
      && KeepsOthers(dst, r, r')
  }

  lemma UnsignedRemains(quotient: seq<Insn>, dst: Reg, l: Reg, c: u64)
    requires c != 0 && dst != XZR && l != X16 && l != X17
    requires DividesUnsigned(quotient, X17, l, c)
    ensures RemainsUnsigned(quotient + RemainderTail(dst, l, c), dst, l, c)
  {
    hide KeepsOthers, DividesUnsigned;
    var out := quotient + RemainderTail(dst, l, c);
    forall r: Regs ensures var r' := Exec(out, r); Get(r', dst) == Get(r, l) % c && KeepsOthers(dst, r, r') {
      UnsignedRemainder(quotient, dst, l, c, r);
    }
  }

  lemma SignedRemains(quotient: seq<Insn>, dst: Reg, l: Reg, c: i64)
    requires c != 0 && dst != XZR && l != X16 && l != X17
    requires DividesSigned(quotient, X17, l, c)
    ensures RemainsSigned(quotient + RemainderTail(dst, l, ToUnsigned(c)), dst, l, c)
  {
    hide KeepsOthers, DividesSigned, TruncRem;
    var out := quotient + RemainderTail(dst, l, ToUnsigned(c));
    forall r: Regs ensures var n, r' := SignedAt(r, l), Exec(out, r);
      && (SignedAt(r', dst) == TruncRem(n, c) <==> n >= 0 || Abs(c) >= 2)
      && KeepsOthers(dst, r, r')
    {
      SignedRemainder(quotient, dst, l, c, r);
    }
  }

  /** The constant `%` arm: quotient into X17, divisor into X16, multiply back and subtract. */
  method EmitConstRem(e: Emitter, dst: Reg, l: Reg, c: u64, isUnsigned: bool) returns (ghost out: seq<Insn>)
    requires c != 0 && dst != XZR && l != X16 && l != X17
    modifies e
    ensures e.code == old(e.code) + out
    ensures if isUnsigned then RemainsUnsigned(out, dst, l, c) else RemainsSigned(out, dst, l, ToSigned(c))
  {
    ghost var quotient: seq<Insn>;
    if isUnsigned {
      quotient := EmitUnsignedConstQuotient(e, X17, l, c);
    } else {
      quotient := EmitSignedConstQuotient(e, X17, l, ToSigned(c));
    }
    e.Emit(MovImm(X16, c));
    e.Emit(Msub(dst, X17, X16, l));
    out := quotient + RemainderTail(dst, l, c);
    if isUnsigned {
      UnsignedRemains(quotient, dst, l, c);
    } else {
      UnsignedRoundTrip(c);
      SignedRemains(quotient, dst, l, ToSigned(c));
    }
  }
}
