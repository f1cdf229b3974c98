/** A straight-line ARM64 register machine and the emitter's code buffer. */
module Arm {
  import opened Word

  /** Register numbers; 31 reads as zero and ignores writes. */
  type Reg = r: nat | r < 32 witness 0

  const X16: Reg := 16
  const X17: Reg := 17
  const XZR: Reg := 31

  datatype Insn =
    | MovImm(dst: Reg, imm: u64)
    | MovReg(dst: Reg, src: Reg)
    | Add(dst: Reg, a: Reg, b: Reg)
    | Sub(dst: Reg, a: Reg, b: Reg)
    | Msub(dst: Reg, n: Reg, m: Reg, a: Reg)
    | Umulh(dst: Reg, a: Reg, b: Reg)
    | Smulh(dst: Reg, a: Reg, b: Reg)
    | Udiv(dst: Reg, a: Reg, b: Reg)
    | Sdiv(dst: Reg, a: Reg, b: Reg)
    | LsrImm(dst: Reg, src: Reg, shift: nat)
    | AsrImm(dst: Reg, src: Reg, shift: nat)

  type Regs = r: seq<u64> | |r| == 31 witness seq(31, _ => 0)

  function Get(r: Regs, x: Reg): u64 {
    if x == XZR then 0 else r[x]
  }

  function Set(r: Regs, x: Reg, v: u64): Regs {
    if x == XZR then r else r[x := v]
  }

  /** The immediate shift forms keep six bits of the amount: the emitter ors `shift << 16`
      into the opcode, and bit 22, where an amount of 64 lands, is set there already. */
  function ShiftField(shift: nat): nat {
    shift % 64
  }

  function Result(i: Insn, r: Regs): u64 {
    match i
    case MovImm(_, imm) => imm
    case MovReg(_, s) => Get(r, s)
    case Add(_, a, b) => Wrap(Get(r, a) + Get(r, b))
    case Sub(_, a, b) => Wrap(Get(r, a) - Get(r, b))
    case Msub(_, n, m, a) => Wrap(Get(r, a) - Get(r, n) * Get(r, m))
    case Umulh(_, a, b) => Word.Umulh(Get(r, a), Get(r, b))
    case Smulh(_, a, b) => ToUnsigned(Word.Smulh(ToSigned(Get(r, a)), ToSigned(Get(r, b))))
    case Udiv(_, a, b) => if Get(r, b) == 0 then 0 else UnsignedDiv(Get(r, a), Get(r, b))
    case Sdiv(_, a, b) =>
      if Get(r, b) == 0 then 0 else Wrap(TruncDiv(ToSigned(Get(r, a)), ToSigned(Get(r, b))))
    case LsrImm(_, s, k) => Lsr(Get(r, s), ShiftField(k))
    case AsrImm(_, s, k) => ToUnsigned(Asr(ToSigned(Get(r, s)), ShiftField(k)))
  }

  function UnsignedDiv(a: u64, b: u64): u64
    requires b != 0
  {
    DivShrinks(a, b);
    a / b
  }

  function Step(i: Insn, r: Regs): Regs {
    Set(r, i.dst, Result(i, r))
  }

  function Exec(code: seq<Insn>, r: Regs): Regs
    decreases |code|
  {
    if code == [] then r else Exec(code[1..], Step(code[0], r))
  }

  lemma ExecAppend(a: seq<Insn>, b: seq<Insn>, r: Regs)
    ensures Exec(a + b, r) == Exec(b, Exec(a, r))
    decreases |a|
  {
    if a == [] {
      assert a + b == b;
    } else {
      assert (a + b)[1..] == a[1..] + b;
      ExecAppend(a[1..], b, Step(a[0], r));
    }
  }

  lemma Exec1(a: Insn, r: Regs)
    ensures Exec([a], r) == Step(a, r)
  {
    assert [a][1..] == [];
  }

  lemma Exec2(a: Insn, b: Insn, r: Regs)
    ensures Exec([a, b], r) == Step(b, Step(a, r))
  {
    assert [a, b] == [a] + [b];
    ExecAppend([a], [b], r);
    Exec1(a, r);
    Exec1(b, Step(a, r));
  }

  lemma Exec3(a: Insn, b: Insn, c: Insn, r: Regs)
    ensures Exec([a, b, c], r) == Step(c, Step(b, Step(a, r)))
  {
    assert [a, b, c] == [a, b] + [c];
    ExecAppend([a, b], [c], r);
    Exec2(a, b, r);
    Exec1(c, Step(b, Step(a, r)));
  }

  lemma Exec4(a: Insn, b: Insn, c: Insn, d: Insn, r: Regs)
    ensures Exec([a, b, c, d], r) == Step(d, Step(c, Step(b, Step(a, r))))
  {
    assert [a, b, c, d] == [a, b, c] + [d];
    ExecAppend([a, b, c], [d], r);
    Exec3(a, b, c, r);
    Exec1(d, Step(c, Step(b, Step(a, r))));
  }

  /** The emitter: an append-only code buffer. */
  class Emitter {
    var code: seq<Insn>

    constructor ()
      ensures code == []
    {
      code := [];
    }

    method Emit(i: Insn)
      modifies this
      ensures code == old(code) + [i]
    {
      code := code + [i];
    }
  }
}
