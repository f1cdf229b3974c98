/** Printing a machine integer: digits written backwards from the end of a 32-byte stack buffer, the
    sign last. */
module Itoa {
  import opened Wrappers
  import opened Word

  type Mem = map<int, nat>

  const BUFFER_SIZE: nat := 32
  const BUFFER_END: nat := 31

  datatype Base = Binary | Octal | Decimal | Hexadecimal

  function Radix(b: Base): nat {
    match b
    case Binary => 2
    case Octal => 8
    case Decimal => 10
    case Hexadecimal => 16
  }

  const MINUS: nat := 45

  /** The character of a digit: `0`-`9`, then `a`-`f`. */
  function Ascii(d: nat): nat {
    if d < 10 then d + 0x30 else d + 0x57
  }

  /** Digits of `m`, most significant first, as characters. */
  function Digits(m: nat, radix: nat): (s: seq<nat>)
    requires radix >= 2
    ensures |s| >= 1
  {
    if m < radix then [Ascii(m)]
    else
      QuotientLess(m, radix);
      Digits(m / radix, radix) + [Ascii(m % radix)]
  }

  function Text(n: int, radix: nat): seq<nat>
    requires radix >= 2
  {
    (if n < 0 then [MINUS] else []) + Digits(Abs(n), radix)
  }

  function Rd(m: Mem, a: int): nat {
    if a in m then m[a] else 0
  }

  function Bytes(m: Mem, a: int, n: nat): (s: seq<nat>)
    ensures |s| == n
    decreases n
  {
    if n == 0 then [] else [Rd(m, a)] + Bytes(m, a + 1, n - 1)
  }

  // --- Reading back --------------------------------------------------------

  function DigitOf(c: nat, radix: nat): Option<nat> {
    var d := if 48 <= c <= 57 then c - 48 else if 97 <= c <= 102 then c - 87 else radix;
    if d < radix then Some(d) else None
  }

  function ParseDigits(s: seq<nat>, radix: nat): Option<nat> {
    if s == [] then None
    else
      match DigitOf(s[|s| - 1], radix)
      case None => None
      case Some(d) =>
        if |s| == 1 then Some(d)
        else
          match ParseDigits(s[..|s| - 1], radix)
          case None => None
          case Some(front) => Some(front * radix + d)
  }

  function Parse(s: seq<nat>, radix: nat): Option<int> {
    if s != [] && s[0] == MINUS then
      match ParseDigits(s[1..], radix)
      case None => None
      case Some(m) => var n: int := 0 - m; Some(n)
    else
      match ParseDigits(s, radix)
      case None => None
      case Some(m) => Some(m)
  }

  lemma AsciiRead(d: nat, radix: nat)
    requires d < radix <= 16
    ensures DigitOf(Ascii(d), radix) == Some(d) && Ascii(d) != MINUS
  {
  }

  lemma ParsePush(s: seq<nat>, c: nat, radix: nat, q: nat, d: nat)
    requires s != [] && ParseDigits(s, radix) == Some(q) && DigitOf(c, radix) == Some(d)
    ensures ParseDigits(s + [c], radix) == Some(q * radix + d)
  {
    hide DigitOf;
    assert (s + [c])[..|s|] == s;
  }

  lemma DigitsStep(m: nat, radix: nat)
    requires radix >= 2
    ensures m < radix ==> Digits(m, radix) == [Ascii(m)]
    ensures m >= radix ==> m / radix < m && Digits(m, radix) == Digits(m / radix, radix) + [Ascii(m % radix)]
  {
    hide Ascii;
  }

  lemma {:induction false} DigitsRead(m: nat, radix: nat)
    requires 2 <= radix <= 16
    ensures ParseDigits(Digits(m, radix), radix) == Some(m) && Digits(m, radix)[0] != MINUS
  {
    hide Digits, Ascii, DigitOf;
    DigitsStep(m, radix);
    DivMod(m, radix);
    if m < radix {
      AsciiRead(m, radix);
    } else {
      hide ParseDigits;
      AsciiRead(m % radix, radix);
      DigitsRead(m / radix, radix);
      ParsePush(Digits(m / radix, radix), Ascii(m % radix), radix, m / radix, m % radix);
    }
  }

  lemma DivMod(m: nat, r: nat)
    requires r > 0
    ensures m / r * r + m % r == m && m % r < r
  {
  }

  /** Printing and reading back gives the same integer, in every radix and for either sign; the minus
      stands in front of negative integers and of no others. */
  lemma TextReads(n: int, base: Base)
    ensures Parse(Text(n, Radix(base)), Radix(base)) == Some(n)
    ensures Text(n, Radix(base))[0] == MINUS <==> n < 0
  {
    var radix := Radix(base);
    DigitsRead(Abs(n), radix);
    var s := Text(n, radix);
    if n < 0 {
      assert s[1..] == Digits(Abs(n), radix);
    } else {
      assert s == Digits(n, radix);
    }
  }

  /** Thirty in the four radixes, and zero without a sign. */
  lemma Thirty()
    ensures Text(-30, Radix(Binary)) == [45, 49, 49, 49, 49, 48] && Text(30, Radix(Octal)) == [51, 54]
    ensures Text(30, Radix(Decimal)) == [51, 48] && Text(30, Radix(Hexadecimal)) == [49, 101]
    ensures Text(0, Radix(Decimal)) == [48]
  {
    DigitsStep(30, 2);
    DigitsStep(15, 2);
    DigitsStep(7, 2);
    DigitsStep(3, 2);
    DigitsStep(1, 2);
    DigitsStep(30, 8);
    DigitsStep(3, 8);
    DigitsStep(30, 10);
    DigitsStep(3, 10);
    DigitsStep(30, 16);
    DigitsStep(1, 16);
    hide Digits;
  }

  // --- Length --------------------------------------------------------------

  function Power(r: nat, k: nat): nat {
    if k == 0 then 1 else r * Power(r, k - 1)
  }

  /** A number has at most `k` digits exactly when it is below the `k`-th power of the radix. */
  lemma {:induction false} DigitCount(m: nat, radix: nat, k: nat)
    requires radix >= 2 && k >= 1
    ensures |Digits(m, radix)| <= k <==> m < Power(radix, k)
    decreases k
  {
    if k == 1 {
      assert Power(radix, 1) == radix * Power(radix, 0) == radix;
    } else if m < radix {
      PowerGrows(radix, k);
    } else {
      DigitCount(m / radix, radix, k - 1);
      DivBelow(m, radix, Power(radix, k - 1));
    }
  }

  lemma PowerGrows(r: nat, k: nat)
    requires r >= 2 && k >= 1
    ensures Power(r, k) >= r
  {
    if k > 1 {
      PowerGrows(r, k - 1);
      assert r * Power(r, k - 1) >= r * 1;
    }
  }

  lemma DivBelow(m: nat, r: nat, q: nat)
    requires r > 0
    ensures m / r < q <==> m < r * q
  {
    DivMod(m, r);
    if m / r < q {
      assert (m / r + 1) * r <= q * r;
    } else {
      assert m / r * r >= q * r;
    }
  }

  lemma PowersMatter()
    ensures Power(2, 31) == 0x8000_0000 && Power(2, 32) == 0x1_0000_0000
    ensures Power(8, 31) > 0x8000_0000_0000_0000 && Power(10, 31) > 0x8000_0000_0000_0000
    ensures Power(16, 31) > 0x8000_0000_0000_0000
  {
    hide Power;
    SmallPowers();
    PowerSum(2, 16, 16);
    PowerSum(2, 16, 15);
    PowerMono(8, 22, 31);
    PowerMono(10, 20, 31);
    PowerMono(16, 17, 31);
    PowerSum(8, 11, 11);
    PowerSum(10, 10, 10);
    PowerSum(16, 9, 8);
  }

  lemma SmallPowers()
    ensures Power(2, 15) == 0x8000 && Power(2, 16) == 0x1_0000
    ensures Power(8, 11) == 0x2_0000_0000 && Power(10, 10) == 10000000000
    ensures Power(16, 8) == 0x1_0000_0000 && Power(16, 9) == 0x10_0000_0000
  {
    assert Power(2, 8) == 256;
    PowerSum(2, 8, 8);
    PowerSum(2, 8, 7);
    assert Power(8, 6) == 262144;
    PowerSum(8, 6, 5);
    assert Power(10, 5) == 100000;
    PowerSum(10, 5, 5);
    assert Power(16, 4) == 0x1_0000;
    PowerSum(16, 4, 4);
    PowerSum(16, 5, 4);
  }

  lemma {:induction false} PowerSum(r: nat, a: nat, b: nat)
    ensures Power(r, a + b) == Power(r, a) * Power(r, b)
  {
    if a > 0 {
      PowerSum(r, a - 1, b);
      PowerStep(r, a);
      PowerStep(r, a + b);
      hide Power;
      MulAssoc(r, Power(r, a - 1), Power(r, b));
    }
  }

  lemma PowerStep(r: nat, k: nat)
    requires k > 0
    ensures Power(r, k) == r * Power(r, k - 1)
  {
  }

  lemma MulAssoc(x: nat, y: nat, z: nat)
    ensures x * (y * z) == (x * y) * z
  {
  }

  lemma PowerMono(r: nat, a: nat, b: nat)
    requires r >= 1 && a <= b
    ensures Power(r, a) <= Power(r, b)
    decreases b
  {
    if a < b {
      PowerMono(r, a, b - 1);
      assert r * Power(r, b - 1) >= Power(r, b - 1);
    }
  }

  /** Whether the characters fit the buffer: always, except in binary, where the magnitude decides. */
  lemma FitsExactly(n: i64, base: Base)
    ensures |Text(n, Radix(base))| <= BUFFER_SIZE <==> base != Binary || -0x8000_0000 < n < 0x1_0000_0000
  {
    PowersMatter();
    var radix := Radix(base);
    if n < 0 {
      DigitCount(Abs(n), radix, 31);
    } else {
      DigitCount(n, radix, 32);
      PowerMono(radix, 31, 32);
    }
    hide Power, Digits;
  }

  // --- The emitted loop ----------------------------------------------------

  /** Writes the characters of the integer in `value` ending at `sp + 31`, and nothing else; returns
      where they start and how many there are. */
  method Emit(value: u64, base: Base, sp: int, mem: Mem) returns (out: Mem, start: int, length: nat)
    ensures var s := Text(ToSigned(value), Radix(base));
      && length == |s| && start == sp + BUFFER_SIZE - length
      && Bytes(out, start, length) == s
      && forall a :: !(start <= a < sp + BUFFER_SIZE) ==> Rd(out, a) == Rd(mem, a)
  {
    hide Digits, Bytes, Ascii;
    var x0: u64 := value;
    var negative := ToSigned(x0) < 0;
    if negative {
      x0 := Wrap(0 - x0);
    }
    MagnitudeIs(value);
    var x3 := Radix(base);
    var x1 := sp + BUFFER_END;
    var x2 := 0;
    out := mem;
    ghost var m := x0 as int;
    NoBytes(out, x1 + 1);
    var done := false;
    while !done
      invariant x1 == sp + BUFFER_END - x2
      invariant !done ==> Digits(m, x3) == Digits(x0, x3) + Bytes(out, x1 + 1, x2)
      invariant done ==> Digits(m, x3) == Bytes(out, x1 + 1, x2)
      invariant forall a :: !(x1 < a < sp + BUFFER_SIZE) ==> Rd(out, a) == Rd(mem, a)
      decreases if done then 0 else x0 as int + 1
    {
      Shorter(x0, x3);
      var x4: u64 := x0 / x3;
      var x5 := x0 - x4 * x3;
      ghost var before, tail := out, Bytes(out, x1 + 1, x2);
      out := out[x1 := Ascii(x5)];
      BytesGrow(before, x1, x2, Ascii(x5));
      x1 := x1 - 1;
      x2 := x2 + 1;
      x0 := x4;
      done := x0 == 0;
    }
    x1 := x1 + 1;
    if negative {
      x1 := x1 - 1;
      BytesGrow(out, x1, x2, MINUS);
      out := out[x1 := MINUS];
      x2 := x2 + 1;
    }
    start, length := x1, x2;
  }

  lemma MagnitudeIs(value: u64)
    ensures Abs(ToSigned(value)) == if ToSigned(value) < 0 then Wrap(0 - value) else value
  {
  }

  lemma QuotientLess(m: nat, radix: nat)
    requires radix >= 2 && m >= radix
    ensures 0 < m / radix < m
  {
    var q := m / radix;
    assert m == q * radix + m % radix;
    if q < 1 {
      MulMono(q, 0, radix);
    } else {
      MulMono(2, radix, q);
    }
  }

  lemma SmallQuotient(x: nat, r: nat)
    requires x < r
    ensures x / r == 0 && x % r == x
  {
  }

  lemma DigitsOf(x: nat, r: nat)
    requires r >= 2
    ensures Digits(x, r) == if x < r then [Ascii(x)] else Digits(x / r, r) + [Ascii(x % r)]
  {
  }

  lemma Division(x: u64, r: nat)
    requires r >= 2
    ensures 0 <= x / r < W && x - x / r * r == x % r
  {
    DivShrinks(x, r);
  }

  /** One round of the loop: the last digit of `x` in front of what was written. */
  lemma Shorter(x: u64, r: nat)
    requires r >= 2
    ensures 0 <= x / r < W && x - x / r * r == x % r
    ensures x >= r ==> 0 < x / r < x && Digits(x, r) == Digits(x / r, r) + [Ascii(x % r)]
    ensures x < r ==> x / r == 0 && Digits(x, r) == [Ascii(x % r)]
  {
    hide Digits;
    DigitsOf(x, r);
    Division(x, r);
    if x >= r {
      QuotientLess(x, r);
    } else {
      SmallQuotient(x, r);
    }
  }

  lemma NoBytes(m: Mem, a: int)
    ensures Bytes(m, a, 0) == []
  {
  }

  lemma BytesGrow(m: Mem, a: int, n: nat, c: nat)
    ensures Bytes(m[a := c], a, n + 1) == [c] + Bytes(m, a + 1, n)
  {
    BytesKept(m, a, a + 1, n, c);
  }

  lemma {:induction false} BytesKept(m: Mem, a: int, from: int, n: nat, c: nat)
    requires a < from
    ensures Bytes(m[a := c], from, n) == Bytes(m, from, n)
    decreases n
  {
    if n > 0 {
      BytesKept(m, a, from + 1, n - 1, c);
    }
  }
}
