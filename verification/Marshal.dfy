/** Passing the arguments of a classified call: moves into the general argument registers, then each
    packed struct loaded field by field through the first of its own registers; moves into the FP
    argument registers, values from elsewhere, and the narrowing of 32-bit floats in place. */
module Marshal {
  import opened Wrappers
  import opened Word
  import opened Arm
  import opened ArgMoves
  import Abi

  type Memory = u64 -> u64

  /** Argument register `i`. */
  function GpReg(i: nat): Reg {
    if i < 8 then i else XZR
  }

  /** An argument passed in general registers. */
  predicate Moved(a: Abi.Arg) {
    a.Gp? || (a.Composite? && a.regs != [])
  }

  /** Where the argument's value or the struct's base goes first. */
  function FirstReg(a: Abi.Arg): nat
    requires Moved(a)
  {
    if a.Gp? then a.reg else a.regs[0]
  }

  /** The moves of the first `n` arguments, whose values or struct bases are in `srcs`. */
  function GpMoves(args: seq<Abi.Arg>, srcs: seq<Reg>, n: nat): seq<Move>
    requires n <= |args| == |srcs|
  {
    if n == 0 then []
    else
      var front := GpMoves(args, srcs, n - 1);
      if Moved(args[n - 1]) then front + [Move(GpReg(FirstReg(args[n - 1])), srcs[n - 1])] else front
  }

  /** Loads words `n - 1` down to 0 of the struct that `regs[0]` points at, each into its register. */
  function LoadWords(mem: Memory, regs: seq<nat>, n: nat, r: Regs): Regs
    requires n <= |regs|
  {
    if n == 0 then r
    else LoadWords(mem, regs, n - 1, Set(r, GpReg(regs[n - 1]), mem(Wrap(Get(r, GpReg(regs[0])) + 8 * (n - 1)))))
  }

  /** The packed structs of the first `n` arguments, one after the other. */
  function LoadStructs(mem: Memory, args: seq<Abi.Arg>, n: nat, r: Regs): Regs
    requires n <= |args|
  {
    if n == 0 then r
    else
      var s := LoadStructs(mem, args, n - 1, r);
      if args[n - 1].Composite? then LoadWords(mem, args[n - 1].regs, |args[n - 1].regs|, s) else s
  }

  function Marshalled(mem: Memory, args: seq<Abi.Arg>, srcs: seq<Reg>, r: Regs): Regs
    requires |args| == |srcs|
  {
    LoadStructs(mem, args, |args|, Exec(SafeMoves(GpMoves(args, srcs, |args|), [X16, X17]), r))
  }

  // --- The FP registers ----------------------------------------------------

  /** The scratch register of the FP moves. */
  const D16: Reg := 16

  /** A float in an FP register, or a constant or stack word that is loaded when the moves are done. */
  datatype FpSource = Register(reg: Reg) | Elsewhere(value: u64)

  /** Both register banks; FP registers hold bit patterns. */
  datatype Banks = Banks(gp: Regs, fp: Regs)

  function FpReg(i: nat): Reg {
    if i < 8 then i else XZR
  }

  function FpMoves(args: seq<Abi.Arg>, fsrcs: seq<FpSource>, n: nat): seq<Move>
    requires n <= |args| == |fsrcs|
  {
    if n == 0 then []
    else
      var front := FpMoves(args, fsrcs, n - 1);
      if args[n - 1].Fp? && fsrcs[n - 1].Register? then front + [Move(FpReg(args[n - 1].freg), fsrcs[n - 1].reg)]
      else front
  }

  /** The floats of the first `n` arguments that are in no FP register. */
  function FpLoads(args: seq<Abi.Arg>, fsrcs: seq<FpSource>, n: nat, f: Regs): Regs
    requires n <= |args| == |fsrcs|
  {
    if n == 0 then f
    else
      var g := FpLoads(args, fsrcs, n - 1, f);
      if args[n - 1].Fp? && fsrcs[n - 1].Elsewhere? then Set(g, FpReg(args[n - 1].freg), fsrcs[n - 1].value) else g
  }

  function FpNarrows(narrow: u64 -> u64, args: seq<Abi.Arg>, n: nat, f: Regs): Regs
    requires n <= |args|
  {
    if n == 0 then f
    else
      var g, a := FpNarrows(narrow, args, n - 1, f), args[n - 1];
      if a.Fp? && a.narrow then Set(g, FpReg(a.freg), narrow(Get(g, FpReg(a.freg)))) else g
  }

  function FpMarshalled(narrow: u64 -> u64, args: seq<Abi.Arg>, fsrcs: seq<FpSource>, f: Regs): Regs
    requires |args| == |fsrcs|
  {
    var moved := Exec(SafeMoves(FpMoves(args, fsrcs, |args|), [D16]), f);
    FpNarrows(narrow, args, |args|, FpLoads(args, fsrcs, |args|, moved))
  }

  function FpValue(src: FpSource, f: Regs): u64 {
    match src
    case Register(x) => Get(f, x)
    case Elsewhere(v) => v
  }

  /** Every FP argument register holds its float, narrowed if the callee expects 32 bits. */
  ghost predicate FpDelivered(narrow: u64 -> u64, args: seq<Abi.Arg>, fsrcs: seq<FpSource>, f: Regs, g: Regs)
    requires |args| == |fsrcs|
  {
    forall i :: 0 <= i < |args| && args[i].Fp? ==>
      var v := FpValue(fsrcs[i], f);
      Get(g, FpReg(args[i].freg)) == if args[i].narrow then narrow(v) else v
  }

  ghost predicate FpArrived(narrow: u64 -> u64, args: seq<Abi.Arg>, fsrcs: seq<FpSource>, f: Regs)
    requires |args| == |fsrcs|
  {
    FpDelivered(narrow, args, fsrcs, f, FpMarshalled(narrow, args, fsrcs, f))
  }

  /** What the source emits code for: anything else ends in a panic. */
  predicate Emitted(args: seq<Abi.Arg>) {
    forall i :: 0 <= i < |args| ==> !args[i].Indirect? && !args[i].Stack? && (args[i].Composite? ==> args[i].regs != [])
  }

  predicate NoFloatAggregate(args: seq<Abi.Arg>) {
    forall i :: 0 <= i < |args| ==> !args[i].Hfa?
  }

  /** The general registers first, then the FP registers; neither touches the other bank. */
  function Passed(mem: Memory, narrow: u64 -> u64, args: seq<Abi.Arg>, srcs: seq<Reg>, fsrcs: seq<FpSource>,
                  b: Banks): Option<Banks>
    requires |args| == |srcs| == |fsrcs|
  {
    if Emitted(args) then Some(Banks(Marshalled(mem, args, srcs, b.gp), FpMarshalled(narrow, args, fsrcs, b.fp)))
    else None
  }

  /** Every argument register holds its value, or its word of the struct. */
  ghost predicate Delivered(mem: Memory, args: seq<Abi.Arg>, srcs: seq<Reg>, r: Regs, s: Regs)
    requires |args| == |srcs|
  {
    forall i :: 0 <= i < |args| ==> Arrives(mem, args[i], Get(r, srcs[i]), s)
  }

  ghost predicate Arrives(mem: Memory, a: Abi.Arg, v: u64, s: Regs) {
    match a
    case Gp(reg) => Get(s, GpReg(reg)) == v
    case Composite(regs, _) => forall j :: 0 <= j < |regs| ==> Get(s, GpReg(regs[j])) == mem(Wrap(v + 8 * j))
    case _ => true
  }

  // --- Registers of a classified call --------------------------------------

  predicate Rising(regs: seq<nat>, base: nat) {
    base + |regs| <= 8 && forall j :: 0 <= j < |regs| ==> regs[j] == base + j
  }

  predicate Follows(args: seq<Abi.Arg>, i: nat)
    requires i < |args|
  {
    && Rising(Abi.GpRegs(args[i]), Abi.GpUsed(args, i))
    && Abi.GpUsed(args, i + 1) == Abi.GpUsed(args, i) + |Abi.GpRegs(args[i])|
  }

  /** Argument by argument, the registers follow one another. */
  ghost predicate Consecutive(args: seq<Abi.Arg>) {
    && (forall i :: 0 <= i < |args| ==> Follows(args, i))
    && forall i, k :: 0 <= i <= k <= |args| ==> Abi.GpUsed(args, i) <= Abi.GpUsed(args, k)
  }

  lemma StartNext(args: seq<Abi.Arg>, i: nat)
    requires i < |args|
    ensures Abi.AllGp(args[..i + 1]) == Abi.AllGp(args[..i]) + Abi.GpRegs(args[i])
  {
    assert args[..i + 1][..i] == args[..i];
  }

  lemma {:induction false} StartPrefix(args: seq<Abi.Arg>, i: nat, k: nat)
    requires i <= k <= |args|
    ensures Abi.AllGp(args[..i]) <= Abi.AllGp(args[..k])
    decreases k
  {
    hide Abi.AllGp, Abi.GpRegs;
    if i < k {
      StartPrefix(args, i, k - 1);
      StartNext(args, k - 1);
    }
  }

  lemma UptoFollows(args: seq<Abi.Arg>, i: nat)
    requires i < |args| && Abi.AllGp(args) == Abi.Upto(0, |Abi.AllGp(args)|) && |Abi.AllGp(args)| <= 8
    ensures Follows(args, i)
  {
    hide Abi.AllGp, Abi.GpRegs;
    StartNext(args, i);
    StartPrefix(args, i + 1, |args|);
    assert args[..|args|] == args;
    var all, upTo, regs := Abi.AllGp(args), Abi.AllGp(args[..i + 1]), Abi.GpRegs(args[i]);
    forall j: nat | j < |regs| ensures regs[j] == Abi.GpUsed(args, i) + j {
      assert upTo[Abi.GpUsed(args, i) + j] == regs[j];
      assert all[Abi.GpUsed(args, i) + j] == upTo[Abi.GpUsed(args, i) + j];
    }
  }

  lemma ClassifiedConsecutive(params: seq<Abi.Ty>, ret: Abi.Ty)
    requires Abi.Classify(params, ret).Some?
    ensures Consecutive(Abi.Classify(params, ret).value.args)
  {
    var args := Abi.Classify(params, ret).value.args;
    Abi.ClassifiedApart(params, ret);
    hide Abi.Classify, Abi.AllGp, Abi.GpRegs, Abi.Suits, Abi.Stacked, Abi.Upto, Follows;
    forall i: nat, k: nat | i <= k <= |args| ensures Abi.GpUsed(args, i) <= Abi.GpUsed(args, k) {
      StartPrefix(args, i, k);
    }
    forall i: nat | i < |args| ensures Follows(args, i) {
      UptoFollows(args, i);
    }
  }

  /** Where an argument's registers lie. */
  lemma RegsAt(args: seq<Abi.Arg>, i: nat, n: nat)
    requires i < n <= |args| && Consecutive(args)
    ensures args[i].Gp? ==> args[i].reg == Abi.GpUsed(args, i) < Abi.GpUsed(args, n) <= 8
    ensures args[i].Composite? ==>
      Rising(args[i].regs, Abi.GpUsed(args, i)) && Abi.GpUsed(args, i) + |args[i].regs| <= Abi.GpUsed(args, n) <= 8
  {
    hide Abi.GpUsed;
    assert Follows(args, i) && Abi.GpUsed(args, i + 1) <= Abi.GpUsed(args, n);
    assert Follows(args, n - 1);
    if args[i].Gp? {
      assert Abi.GpRegs(args[i])[0] == args[i].reg;
    }
  }

  // --- Moves ---------------------------------------------------------------

  /** No source is a scratch register or the zero register. */
  predicate SourcesApart(srcs: seq<Reg>) {
    forall x :: x in srcs ==> x != X16 && x != X17 && x != XZR
  }

  lemma {:induction false} MovesWellFormed(args: seq<Abi.Arg>, srcs: seq<Reg>, n: nat)
    requires n <= |args| == |srcs| && Consecutive(args) && SourcesApart(srcs)
    ensures WellFormed(GpMoves(args, srcs, n), [X16, X17])
    ensures forall m :: m in GpMoves(args, srcs, n) ==> m.dst < Abi.GpUsed(args, n)
    ensures forall i :: 0 <= i < n && Moved(args[i]) ==>
      Move(GpReg(FirstReg(args[i])), srcs[i]) in GpMoves(args, srcs, n)
    ensures forall m :: m in GpMoves(args, srcs, n) ==>
      exists i :: 0 <= i < n && Moved(args[i]) && m == Move(GpReg(FirstReg(args[i])), srcs[i])
  {
    hide Abi.GpUsed;
    if n > 0 {
      MovesWellFormed(args, srcs, n - 1);
      var front, a := GpMoves(args, srcs, n - 1), args[n - 1];
      if Moved(a) {
        var m := Move(GpReg(FirstReg(a)), srcs[n - 1]);
        RegsAt(args, n - 1, n);
        assert srcs[n - 1] in srcs;
        PushMove(front, m, Abi.GpUsed(args, n - 1));
      }
    }
  }

  lemma PushMove(front: seq<Move>, m: Move, top: nat)
    requires WellFormed(front, [X16, X17]) && (forall f :: f in front ==> f.dst < top) && m.dst == top < 8
    requires m.src != X16 && m.src != X17 && m.src != XZR
    ensures WellFormed(front + [m], [X16, X17])
  {
    forall j, k | 0 <= j < k < |front + [m]| ensures (front + [m])[j].dst != (front + [m])[k].dst {
      if k == |front| {
        assert front[j] in front;
      }
    }
  }

  // --- Loads ---------------------------------------------------------------

  /** Loading in descending order reads every word before the base register is overwritten. */
  lemma {:induction false} LoadsWords(mem: Memory, regs: seq<nat>, base: nat, n: nat, r: Regs)
    requires n <= |regs| && Rising(regs, base)
    ensures var s := LoadWords(mem, regs, n, r);
      && (forall j :: 0 <= j < n ==> Get(s, GpReg(regs[j])) == mem(Wrap(Get(r, GpReg(base)) + 8 * j)))
      && forall x: Reg :: x < base || base + n <= x ==> Get(s, x) == Get(r, x)
  {
    hide Wrap;
    if n > 0 {
      var v := mem(Wrap(Get(r, GpReg(regs[0])) + 8 * (n - 1)));
      LoadsWords(mem, regs, base, n - 1, Set(r, GpReg(regs[n - 1]), v));
    }
  }

  /** What `LoadStructs` has done with the first `n` arguments. */
  ghost predicate Loaded(mem: Memory, args: seq<Abi.Arg>, n: nat, r: Regs, s: Regs)
    requires n <= |args|
  {
    && (forall i, j :: 0 <= i < n && args[i].Composite? && 0 <= j < |args[i].regs| ==>
      Get(s, GpReg(args[i].regs[j])) == mem(Wrap(Get(r, GpReg(args[i].regs[0])) + 8 * j)))
    && (forall x: Reg :: Abi.GpUsed(args, n) <= x ==> Get(s, x) == Get(r, x))
    && (forall i :: 0 <= i < n && args[i].Gp? ==> Get(s, GpReg(args[i].reg)) == Get(r, GpReg(args[i].reg)))
  }

  /** What was loaded stays when only registers from `start` on change. */
  lemma EarlierStays(mem: Memory, args: seq<Abi.Arg>, n: nat, r: Regs, s: Regs, t: Regs)
    requires n <= |args| && Consecutive(args) && Loaded(mem, args, n, r, s)
    requires forall x: Reg :: x < Abi.GpUsed(args, n) ==> Get(t, x) == Get(s, x)
    ensures forall i, j :: 0 <= i < n && args[i].Composite? && 0 <= j < |args[i].regs| ==>
      Get(t, GpReg(args[i].regs[j])) == mem(Wrap(Get(r, GpReg(args[i].regs[0])) + 8 * j))
    ensures forall i :: 0 <= i < n && args[i].Gp? ==> Get(t, GpReg(args[i].reg)) == Get(r, GpReg(args[i].reg))
  {
    hide Consecutive, Abi.GpUsed, Wrap, Get;
    forall i: nat | i < n
      ensures args[i].Gp? ==> args[i].reg < Abi.GpUsed(args, n) <= 8
      ensures args[i].Composite? ==> forall j :: 0 <= j < |args[i].regs| ==> args[i].regs[j] < Abi.GpUsed(args, n) <= 8
    {
      RegsAt(args, i, n);
    }
  }

  lemma LoadsOne(mem: Memory, args: seq<Abi.Arg>, n: nat, r: Regs, s: Regs)
    requires 0 < n <= |args| && Consecutive(args) && Loaded(mem, args, n - 1, r, s)
    ensures var last := args[n - 1];
      Loaded(mem, args, n, r, if last.Composite? then LoadWords(mem, last.regs, |last.regs|, s) else s)
  {
    hide Consecutive, Abi.GpUsed, Wrap, Get, LoadWords;
    var a, start := args[n - 1], Abi.GpUsed(args, n - 1);
    RegsAt(args, n - 1, n);
    StartsGrow(args, n);
    var t := if a.Composite? then LoadWords(mem, a.regs, |a.regs|, s) else s;
    if a.Composite? {
      LoadsWords(mem, a.regs, start, |a.regs|, s);
    }
    EarlierStays(mem, args, n - 1, r, s, t);
  }

  lemma StartsGrow(args: seq<Abi.Arg>, n: nat)
    requires 0 < n <= |args| && Consecutive(args)
    ensures Abi.GpUsed(args, n - 1) <= Abi.GpUsed(args, n)
  {
    hide Abi.GpUsed, Follows;
  }

  /** After the first `n` structs their registers hold their words, and all others what they held. */
  lemma {:induction false} LoadsStructs(mem: Memory, args: seq<Abi.Arg>, n: nat, r: Regs)
    requires n <= |args| && Consecutive(args)
    ensures Loaded(mem, args, n, r, LoadStructs(mem, args, n, r))
  {
    hide Loaded, LoadWords, Consecutive;
    if n == 0 {
      NothingLoaded(mem, args, r);
    } else {
      LoadsStructs(mem, args, n - 1, r);
      LoadsOne(mem, args, n, r, LoadStructs(mem, args, n - 1, r));
    }
  }

  lemma NothingLoaded(mem: Memory, args: seq<Abi.Arg>, r: Regs)
    ensures Loaded(mem, args, 0, r, r)
  {
  }

  // --- The whole call ------------------------------------------------------

  lemma WrapWord(x: u64)
    ensures Wrap(x + 8 * 0) == x
  {
  }

  /** A parameter that finds its registers after `gps` general and `fps` FP registers were taken. */
  ghost predicate Takes(ty: Abi.Ty, gps: nat, fps: nat) {
    match ty
    case Float(_) => fps < 8
    case Struct(fields) =>
      Abi.FloatsFit(fields, fps) || (1 <= Abi.StructSize(ty) <= 16 && Abi.StructSize(ty) <= 8 * (8 - gps))
    case _ => gps < 8
  }

  /** General and FP registers that the first `n` parameters need: one each, two for a struct of more
      than 8 bytes, an FP register for every float of an aggregate that fits. */
  ghost function Needed(params: seq<Abi.Ty>, n: nat): (nat, nat)
    requires n <= |params|
  {
    if n == 0 then (0, 0)
    else
      var (gps, fps) := Needed(params, n - 1);
      match params[n - 1]
      case Float(_) => (gps, fps + 1)
      case Struct(fields) =>
        if Abi.FloatsFit(fields, fps) then (gps, fps + |fields|)
        else (gps + if Abi.StructSize(params[n - 1]) <= 8 then 1 else 2, fps)
      case _ => (gps + 1, fps)
  }

  /** Every parameter in turn finds its registers. */
  ghost predicate AllInRegisters(params: seq<Abi.Ty>) {
    forall i :: 0 <= i < |params| ==> Takes(params[i], Needed(params, i).0, Needed(params, i).1)
  }

  predicate Direct(a: Abi.Arg) {
    !a.Indirect? && !a.Stack? && (a.Composite? ==> a.regs != [])
  }

  lemma TakesDirect(params: seq<Abi.Ty>, i: nat, a: Abi.Arg)
    requires i < |params| && Needed(params, i).0 <= 8 && Needed(params, i).1 <= 8
    requires Abi.Suits(params[i], Needed(params, i).0, Needed(params, i).1, a)
    ensures Direct(a) <==> Takes(params[i], Needed(params, i).0, Needed(params, i).1)
    ensures Direct(a) ==>
      Needed(params, i + 1) == (Needed(params, i).0 + |Abi.GpRegs(a)|, Needed(params, i).1 + |Abi.FpRegs(a)|)
  {
    hide Abi.Floats, Abi.StructSize;
  }

  /** What the types need is what the placements take, as long as every parameter goes to registers. */
  lemma {:induction false} NeededIsUsed(params: seq<Abi.Ty>, ret: Abi.Ty, n: nat)
    requires Abi.Classify(params, ret).Some? && n <= |params| == |Abi.Classify(params, ret).value.args|
    requires forall i :: 0 <= i < n ==> Direct(Abi.Classify(params, ret).value.args[i])
    ensures var args := Abi.Classify(params, ret).value.args;
      && Needed(params, n) == (Abi.GpUsed(args, n), Abi.FpUsed(args, n))
      && Needed(params, n).0 <= 8 && Needed(params, n).1 <= 8
  {
    hide Abi.Classify, Direct, Needed, Takes, Abi.Suits, Abi.GpRegs, Abi.FpRegs, Abi.GpUsed, Abi.FpUsed;
    var args := Abi.Classify(params, ret).value.args;
    if n == 0 {
      NothingNeeded(params, args);
    } else {
      NeededIsUsed(params, ret, n - 1);
      UsedNext(params, ret, n - 1);
      TakesDirect(params, n - 1, args[n - 1]);
    }
  }

  /** What one placement takes. */
  lemma UsedNext(params: seq<Abi.Ty>, ret: Abi.Ty, i: nat)
    requires Abi.Classify(params, ret).Some? && i < |params| == |Abi.Classify(params, ret).value.args|
    ensures var args := Abi.Classify(params, ret).value.args;
      && Abi.Suits(params[i], Abi.GpUsed(args, i), Abi.FpUsed(args, i), args[i])
      && Abi.GpUsed(args, i + 1) == Abi.GpUsed(args, i) + |Abi.GpRegs(args[i])| <= 8
      && Abi.FpUsed(args, i + 1) == Abi.FpUsed(args, i) + |Abi.FpRegs(args[i])| <= 8
  {
    hide Abi.Classify, Abi.Suits, Abi.GpRegs, Abi.FpRegs, Abi.AllGp, Abi.AllFp, Abi.Stacked, Abi.Packed, Abi.Upto;
    Abi.ClassifiedApart(params, ret);
    var args := Abi.Classify(params, ret).value.args;
    StartNext(args, i);
    FpStartNext(args, i);
    StartPrefix(args, i + 1, |args|);
    FpPrefix(args, i + 1, |args|);
    assert args[..|args|] == args;
  }

  lemma NothingNeeded(params: seq<Abi.Ty>, args: seq<Abi.Arg>)
    ensures Needed(params, 0) == (0, 0) && Abi.GpUsed(args, 0) == Abi.FpUsed(args, 0) == 0
  {
  }

  /** Code is emitted exactly for the calls whose parameters all find their registers. */
  lemma EmittedExactly(params: seq<Abi.Ty>, ret: Abi.Ty)
    requires Abi.Classify(params, ret).Some?
    ensures Emitted(Abi.Classify(params, ret).value.args) <==> AllInRegisters(params)
  {
    hide Abi.Classify, Direct, Needed, Takes, Abi.Suits, Abi.GpUsed, Abi.FpUsed;
    Abi.ClassifiedApart(params, ret);
    var args := Abi.Classify(params, ret).value.args;
    EmittedDirect(args);
    if forall i :: 0 <= i < |args| ==> Direct(args[i]) {
      forall i: nat | i < |args| ensures Takes(params[i], Needed(params, i).0, Needed(params, i).1) {
        NeededIsUsed(params, ret, i);
        UsedNext(params, ret, i);
        TakesDirect(params, i, args[i]);
      }
    }
    if AllInRegisters(params) {
      AllDirect(params, ret, |params|);
    }
  }

  lemma EmittedDirect(args: seq<Abi.Arg>)
    ensures Emitted(args) <==> forall i :: 0 <= i < |args| ==> Direct(args[i])
  {
  }

  lemma {:induction false} AllDirect(params: seq<Abi.Ty>, ret: Abi.Ty, n: nat)
    requires Abi.Classify(params, ret).Some? && n <= |params| == |Abi.Classify(params, ret).value.args|
    requires AllInRegisters(params)
    ensures forall i :: 0 <= i < n ==> Direct(Abi.Classify(params, ret).value.args[i])
  {
    hide Abi.Classify, Direct, Needed, Takes, Abi.Suits, Abi.GpUsed, Abi.FpUsed;
    if n > 0 {
      AllDirect(params, ret, n - 1);
      NeededIsUsed(params, ret, n - 1);
      UsedNext(params, ret, n - 1);
      TakesDirect(params, n - 1, Abi.Classify(params, ret).value.args[n - 1]);
    }
  }

  /** For every classified call without float aggregates: if every parameter in turn finds its registers,
      each argument register of both banks receives its value, narrowed where the callee expects that,
      and each register of a packed struct its word, whatever registers and memory hold, if and only if
      neither bank's moves overwrite an unsaved source; if one goes to the stack or by address, or is an
      empty struct, the source panics. */
  lemma MarshalExact(params: seq<Abi.Ty>, ret: Abi.Ty, srcs: seq<Reg>, fsrcs: seq<FpSource>)
    requires Abi.Classify(params, ret).Some? && |srcs| == |fsrcs| == |params| == |Abi.Classify(params, ret).value.args|
    requires SourcesApart(srcs) && FpApart(fsrcs) && NoFloatAggregate(Abi.Classify(params, ret).value.args)
    ensures var args := Abi.Classify(params, ret).value.args;
      var moves, fmoves := GpMoves(args, srcs, |args|), FpMoves(args, fsrcs, |args|);
      if AllInRegisters(params) then
        ((forall mem: Memory, narrow: u64 -> u64, b: Banks :: Arrived(mem, narrow, args, srcs, fsrcs, b)) <==>
          NoUnsavedOverwrite(moves, Saves(moves, 2, |moves|)) && NoUnsavedOverwrite(fmoves, Saves(fmoves, 1, |fmoves|)))
      else forall mem: Memory, narrow: u64 -> u64, b: Banks :: Passed(mem, narrow, args, srcs, fsrcs, b) == None
  {
    ClassifiedConsecutive(params, ret);
    FpClassified(params, ret);
    EmittedExactly(params, ret);
    var args := Abi.Classify(params, ret).value.args;
    hide Abi.Classify, Consecutive, FpConsecutive, GpMoves, FpMoves, NoUnsavedOverwrite, Saves, Marshalled;
    hide FpMarshalled, AllInRegisters, Emitted;
    hide Delivered, FpDelivered, SourcesApart, FpApart;
    if Emitted(args) {
      DeliveredExactly(args, srcs);
      FpExactly(args, fsrcs);
      BanksApart(args, srcs, fsrcs);
    }
  }

  ghost predicate Arrived(mem: Memory, narrow: u64 -> u64, args: seq<Abi.Arg>, srcs: seq<Reg>, fsrcs: seq<FpSource>,
                          b: Banks)
    requires |args| == |srcs| == |fsrcs|
  {
    var out := Passed(mem, narrow, args, srcs, fsrcs, b);
    out.Some? && Delivered(mem, args, srcs, b.gp, out.value.gp) && FpDelivered(narrow, args, fsrcs, b.fp, out.value.fp)
  }

  /** The claim about both banks is one about each. */
  lemma BanksApart(args: seq<Abi.Arg>, srcs: seq<Reg>, fsrcs: seq<FpSource>)
    requires |args| == |srcs| == |fsrcs| && Emitted(args)
    ensures (forall mem: Memory, narrow: u64 -> u64, b: Banks :: Arrived(mem, narrow, args, srcs, fsrcs, b)) <==>
      (forall mem: Memory, r: Regs :: Delivered(mem, args, srcs, r, Marshalled(mem, args, srcs, r))) &&
      (forall narrow: u64 -> u64, f: Regs :: FpArrived(narrow, args, fsrcs, f))
  {
    hide Delivered, FpDelivered, Marshalled, FpMarshalled;
    if forall mem: Memory, narrow: u64 -> u64, b: Banks :: Arrived(mem, narrow, args, srcs, fsrcs, b) {
      forall mem: Memory, r: Regs ensures Delivered(mem, args, srcs, r, Marshalled(mem, args, srcs, r)) {
        assert Arrived(mem, v => v, args, srcs, fsrcs, Banks(r, r));
      }
      forall narrow: u64 -> u64, f: Regs ensures FpArrived(narrow, args, fsrcs, f) {
        assert Arrived(v => v, narrow, args, srcs, fsrcs, Banks(f, f));
      }
    } else if forall narrow: u64 -> u64, f: Regs :: FpArrived(narrow, args, fsrcs, f) {
      var mem: Memory, narrow: u64 -> u64, b: Banks :| !Arrived(mem, narrow, args, srcs, fsrcs, b);
      assert FpArrived(narrow, args, fsrcs, b.fp);
    }
  }

  lemma DeliveredExactly(args: seq<Abi.Arg>, srcs: seq<Reg>)
    requires |args| == |srcs| && Consecutive(args) && SourcesApart(srcs)
    ensures var moves := GpMoves(args, srcs, |args|);
      (forall mem: Memory, r: Regs :: Delivered(mem, args, srcs, r, Marshalled(mem, args, srcs, r))) <==>
        NoUnsavedOverwrite(moves, Saves(moves, 2, |moves|))
  {
    hide Consecutive, WellFormed, NoUnsavedOverwrite, Delivered, Marshalled, GpMoves, IsParallel, Saves;
    var moves := GpMoves(args, srcs, |args|);
    MovesWellFormed(args, srcs, |args|);
    SafeMovesExact(moves, [X16, X17]);
    if NoUnsavedOverwrite(moves, Saves(moves, 2, |moves|)) {
      forall mem: Memory, r: Regs ensures Delivered(mem, args, srcs, r, Marshalled(mem, args, srcs, r)) {
        ParallelDelivers(mem, args, srcs, r);
      }
    }
    if forall mem: Memory, r: Regs :: Delivered(mem, args, srcs, r, Marshalled(mem, args, srcs, r)) {
      forall r: Regs ensures IsParallel(moves, SafeMoves(moves, [X16, X17]), r) {
        DeliveredParallel(args, srcs, r);
      }
    }
  }

  lemma ParallelDelivers(mem: Memory, args: seq<Abi.Arg>, srcs: seq<Reg>, r: Regs)
    requires |args| == |srcs| && Consecutive(args) && SourcesApart(srcs)
    requires IsParallel(GpMoves(args, srcs, |args|), SafeMoves(GpMoves(args, srcs, |args|), [X16, X17]), r)
    ensures Delivered(mem, args, srcs, r, Marshalled(mem, args, srcs, r))
  {
    hide Consecutive, WellFormed, LoadStructs, Wrap, SafeMoves;
    var moves := GpMoves(args, srcs, |args|);
    MovesWellFormed(args, srcs, |args|);
    hide GpMoves;
    var s := Exec(SafeMoves(moves, [X16, X17]), r);
    LoadsStructs(mem, args, |args|, s);
    var t := LoadStructs(mem, args, |args|, s);
    forall i: nat | i < |args| ensures Arrives(mem, args[i], Get(r, srcs[i]), t) {
      if Moved(args[i]) {
        var m := Move(GpReg(FirstReg(args[i])), srcs[i]);
        var j :| 0 <= j < |moves| && moves[j] == m;
        hide Arrives, IsParallel, Loaded, Get;
        assert Get(s, m.dst) == Get(r, m.src) by {
          ParallelAt(moves, SafeMoves(moves, [X16, X17]), r, j);
        }
      }
      OneArrives(mem, args, i, Get(r, srcs[i]), s, t);
    }
  }

  lemma ParallelAt(moves: seq<Move>, code: seq<Insn>, r: Regs, j: nat)
    requires IsParallel(moves, code, r) && j < |moves|
    ensures Get(Exec(code, r), moves[j].dst) == Get(r, moves[j].src)
  {
  }

  lemma OneArrives(mem: Memory, args: seq<Abi.Arg>, i: nat, v: u64, s: Regs, t: Regs)
    requires i < |args| && Loaded(mem, args, |args|, s, t)
    requires Moved(args[i]) ==> Get(s, GpReg(FirstReg(args[i]))) == v
    ensures Arrives(mem, args[i], v, t)
  {
    hide Abi.GpUsed, Wrap, Get, GpReg;
  }

  /** In a memory that gives every address back, a wrong base shows in the first word. */
  lemma DeliveredParallel(args: seq<Abi.Arg>, srcs: seq<Reg>, r: Regs)
    requires |args| == |srcs| && Consecutive(args) && SourcesApart(srcs)
    requires forall mem: Memory, q: Regs :: Delivered(mem, args, srcs, q, Marshalled(mem, args, srcs, q))
    ensures IsParallel(GpMoves(args, srcs, |args|), SafeMoves(GpMoves(args, srcs, |args|), [X16, X17]), r)
  {
    hide Consecutive, WellFormed, LoadStructs, Wrap, SafeMoves;
    var moves := GpMoves(args, srcs, |args|);
    MovesWellFormed(args, srcs, |args|);
    hide GpMoves;
    var mem: Memory := a => a;
    var s := Exec(SafeMoves(moves, [X16, X17]), r);
    LoadsStructs(mem, args, |args|, s);
    assert Delivered(mem, args, srcs, r, Marshalled(mem, args, srcs, r));
    forall j | 0 <= j < |moves| ensures Get(s, moves[j].dst) == Get(r, moves[j].src) {
      assert moves[j] in moves;
      var i :| 0 <= i < |args| && Moved(args[i]) && moves[j] == Move(GpReg(FirstReg(args[i])), srcs[i]);
      assert Arrives(mem, args[i], Get(r, srcs[i]), Marshalled(mem, args, srcs, r));
      if args[i].Composite? {
        WrapWord(Get(r, srcs[i]));
        WrapWord(Get(s, GpReg(args[i].regs[0])));
      }
    }
  }

  // --- FP arguments --------------------------------------------------------

  /** FP registers are handed out one after the other. */
  ghost predicate FpConsecutive(args: seq<Abi.Arg>) {
    && (forall i :: 0 <= i < |args| && args[i].Fp? ==>
      args[i].freg == Abi.FpUsed(args, i) < Abi.FpUsed(args, i + 1) <= 8)
    && forall i, k :: 0 <= i <= k <= |args| ==> Abi.FpUsed(args, i) <= Abi.FpUsed(args, k)
  }

  lemma FpStartNext(args: seq<Abi.Arg>, i: nat)
    requires i < |args|
    ensures Abi.AllFp(args[..i + 1]) == Abi.AllFp(args[..i]) + Abi.FpRegs(args[i])
  {
    assert args[..i + 1][..i] == args[..i];
  }

  lemma {:induction false} FpPrefix(args: seq<Abi.Arg>, i: nat, k: nat)
    requires i <= k <= |args|
    ensures Abi.AllFp(args[..i]) <= Abi.AllFp(args[..k])
    decreases k
  {
    hide Abi.AllFp, Abi.FpRegs;
    if i < k {
      FpPrefix(args, i, k - 1);
      FpStartNext(args, k - 1);
    }
  }

  lemma FpFollows(args: seq<Abi.Arg>, i: nat)
    requires i < |args| && args[i].Fp?
    requires Abi.AllFp(args) == Abi.Upto(0, |Abi.AllFp(args)|) && |Abi.AllFp(args)| <= 8
    ensures args[i].freg == Abi.FpUsed(args, i) < Abi.FpUsed(args, i + 1) <= 8
  {
    hide Abi.AllFp;
    FpStartNext(args, i);
    FpPrefix(args, i + 1, |args|);
    assert args[..|args|] == args;
    assert Abi.AllFp(args[..i + 1])[Abi.FpUsed(args, i)] == args[i].freg;
  }

  lemma FpClassified(params: seq<Abi.Ty>, ret: Abi.Ty)
    requires Abi.Classify(params, ret).Some?
    ensures FpConsecutive(Abi.Classify(params, ret).value.args)
  {
    var args := Abi.Classify(params, ret).value.args;
    Abi.ClassifiedApart(params, ret);
    hide Abi.Classify, Abi.AllFp, Abi.Suits, Abi.Stacked, Abi.Upto;
    forall i: nat, k: nat | i <= k <= |args| ensures Abi.FpUsed(args, i) <= Abi.FpUsed(args, k) {
      FpPrefix(args, i, k);
    }
    forall i: nat | i < |args| && args[i].Fp?
      ensures args[i].freg == Abi.FpUsed(args, i) < Abi.FpUsed(args, i + 1) <= 8
    {
      FpFollows(args, i);
    }
  }

  /** No float is in the scratch register, nor in the one register the model has no contents for. */
  predicate FpApart(fsrcs: seq<FpSource>) {
    forall x :: x in fsrcs && x.Register? ==> x.reg != D16 && x.reg != XZR
  }

  lemma {:induction false} FpMovesWellFormed(args: seq<Abi.Arg>, fsrcs: seq<FpSource>, n: nat)
    requires n <= |args| == |fsrcs| && FpConsecutive(args) && FpApart(fsrcs)
    ensures WellFormed(FpMoves(args, fsrcs, n), [D16])
    ensures forall m :: m in FpMoves(args, fsrcs, n) ==> m.dst < Abi.FpUsed(args, n)
    ensures forall i :: 0 <= i < n && args[i].Fp? && fsrcs[i].Register? ==>
      Move(FpReg(args[i].freg), fsrcs[i].reg) in FpMoves(args, fsrcs, n)
    ensures forall m :: m in FpMoves(args, fsrcs, n) ==>
      exists i :: 0 <= i < n && args[i].Fp? && fsrcs[i].Register? && m == Move(FpReg(args[i].freg), fsrcs[i].reg)
  {
    hide Abi.FpUsed;
    if n > 0 {
      FpMovesWellFormed(args, fsrcs, n - 1);
      var front, a := FpMoves(args, fsrcs, n - 1), args[n - 1];
      assert Abi.FpUsed(args, n - 1) <= Abi.FpUsed(args, n);
      if a.Fp? && fsrcs[n - 1].Register? {
        assert fsrcs[n - 1] in fsrcs;
        PushFpMove(front, Move(FpReg(a.freg), fsrcs[n - 1].reg), Abi.FpUsed(args, n - 1));
      }
    }
  }

  lemma PushFpMove(front: seq<Move>, m: Move, top: nat)
    requires WellFormed(front, [D16]) && (forall f :: f in front ==> f.dst < top) && m.dst == top < 8
    requires m.src != D16 && m.src != XZR
    ensures WellFormed(front + [m], [D16])
  {
    forall j, k | 0 <= j < k < |front + [m]| ensures (front + [m])[j].dst != (front + [m])[k].dst {
      if k == |front| {
        assert front[j] in front;
      }
    }
  }

  /** Loads and narrowings, each in its own register: what argument `i` ends with. */
  lemma {:induction false} LoadsOwn(args: seq<Abi.Arg>, fsrcs: seq<FpSource>, n: nat, f: Regs)
    requires n <= |args| == |fsrcs| && FpConsecutive(args)
    ensures forall i :: 0 <= i < |args| && args[i].Fp? ==>
      Get(FpLoads(args, fsrcs, n, f), FpReg(args[i].freg)) ==
        if i < n && fsrcs[i].Elsewhere? then fsrcs[i].value else Get(f, FpReg(args[i].freg))
  {
    hide Abi.FpUsed;
    if n > 0 {
      LoadsOwn(args, fsrcs, n - 1, f);
      forall i | 0 <= i < |args| && args[i].Fp? && args[n - 1].Fp?
        ensures FpReg(args[i].freg) != XZR
        ensures i != n - 1 ==> FpReg(args[i].freg) != FpReg(args[n - 1].freg)
      {
        OwnReg(args, i);
        if i != n - 1 {
          OwnRegs(args, i, n - 1);
        }
      }
    }
  }

  lemma OwnReg(args: seq<Abi.Arg>, i: nat)
    requires i < |args| && args[i].Fp? && FpConsecutive(args)
    ensures args[i].freg < 8
  {
    hide Abi.FpUsed;
    assert args[i].freg == Abi.FpUsed(args, i) < Abi.FpUsed(args, i + 1) <= 8;
  }

  lemma OwnRegs(args: seq<Abi.Arg>, i: nat, k: nat)
    requires i < |args| && k < |args| && i != k && args[i].Fp? && args[k].Fp? && FpConsecutive(args)
    ensures FpReg(args[i].freg) != FpReg(args[k].freg) && args[i].freg < 8
  {
    hide Abi.FpUsed;
    assert args[i].freg == Abi.FpUsed(args, i) < Abi.FpUsed(args, i + 1) <= 8;
    assert args[k].freg == Abi.FpUsed(args, k) < Abi.FpUsed(args, k + 1) <= 8;
    if i < k {
      assert Abi.FpUsed(args, i + 1) <= Abi.FpUsed(args, k);
    } else {
      assert Abi.FpUsed(args, k + 1) <= Abi.FpUsed(args, i);
    }
  }

  lemma {:induction false} NarrowsOwn(narrow: u64 -> u64, args: seq<Abi.Arg>, n: nat, f: Regs)
    requires n <= |args| && FpConsecutive(args)
    ensures forall i :: 0 <= i < |args| && args[i].Fp? ==>
      var v := Get(f, FpReg(args[i].freg));
      Get(FpNarrows(narrow, args, n, f), FpReg(args[i].freg)) == if i < n && args[i].narrow then narrow(v) else v
  {
    hide Abi.FpUsed;
    if n > 0 {
      NarrowsOwn(narrow, args, n - 1, f);
      forall i | 0 <= i < |args| && args[i].Fp? && args[n - 1].Fp?
        ensures FpReg(args[i].freg) != XZR
        ensures i != n - 1 ==> FpReg(args[i].freg) != FpReg(args[n - 1].freg)
      {
        OwnReg(args, i);
        if i != n - 1 {
          OwnRegs(args, i, n - 1);
        }
      }
    }
  }

  /** The FP registers alone. */
  lemma FpExactly(args: seq<Abi.Arg>, fsrcs: seq<FpSource>)
    requires |args| == |fsrcs| && FpConsecutive(args) && FpApart(fsrcs)
    ensures var moves := FpMoves(args, fsrcs, |args|);
      (forall narrow: u64 -> u64, f: Regs :: FpArrived(narrow, args, fsrcs, f)) <==>
        NoUnsavedOverwrite(moves, Saves(moves, 1, |moves|))
  {
    hide FpConsecutive, WellFormed, NoUnsavedOverwrite, FpArrived, FpMoves, IsParallel, Saves;
    var moves := FpMoves(args, fsrcs, |args|);
    FpMovesWellFormed(args, fsrcs, |args|);
    SafeMovesExact(moves, [D16]);
    if NoUnsavedOverwrite(moves, Saves(moves, 1, |moves|)) {
      forall narrow: u64 -> u64, f: Regs ensures FpArrived(narrow, args, fsrcs, f) {
        FpParallelDelivers(narrow, args, fsrcs, f);
      }
    }
    if forall narrow: u64 -> u64, f: Regs :: FpArrived(narrow, args, fsrcs, f) {
      forall f: Regs ensures IsParallel(moves, SafeMoves(moves, [D16]), f) {
        assert FpArrived(v => v, args, fsrcs, f);
        FpDeliveredParallel(v => v, args, fsrcs, f);
      }
    }
  }

  lemma FpParallelDelivers(narrow: u64 -> u64, args: seq<Abi.Arg>, fsrcs: seq<FpSource>, f: Regs)
    requires |args| == |fsrcs| && FpConsecutive(args) && FpApart(fsrcs)
    requires IsParallel(FpMoves(args, fsrcs, |args|), SafeMoves(FpMoves(args, fsrcs, |args|), [D16]), f)
    ensures FpArrived(narrow, args, fsrcs, f)
  {
    hide FpConsecutive, WellFormed, SafeMoves, IsParallel, FpNarrows, FpLoads, Get;
    var moves := FpMoves(args, fsrcs, |args|);
    FpMovesWellFormed(args, fsrcs, |args|);
    hide FpMoves;
    var s := Exec(SafeMoves(moves, [D16]), f);
    LoadsOwn(args, fsrcs, |args|, s);
    NarrowsOwn(narrow, args, |args|, FpLoads(args, fsrcs, |args|, s));
    forall i | 0 <= i < |args| && args[i].Fp? && fsrcs[i].Register?
      ensures Get(s, FpReg(args[i].freg)) == Get(f, fsrcs[i].reg)
    {
      var j :| 0 <= j < |moves| && moves[j] == Move(FpReg(args[i].freg), fsrcs[i].reg);
      ParallelAt(moves, SafeMoves(moves, [D16]), f, j);
    }
  }

  /** Where nothing is narrowed a wrong source shows. */
  lemma FpDeliveredParallel(keep: u64 -> u64, args: seq<Abi.Arg>, fsrcs: seq<FpSource>, f: Regs)
    requires |args| == |fsrcs| && FpConsecutive(args) && FpApart(fsrcs) && forall v :: keep(v) == v
    requires FpArrived(keep, args, fsrcs, f)
    ensures IsParallel(FpMoves(args, fsrcs, |args|), SafeMoves(FpMoves(args, fsrcs, |args|), [D16]), f)
  {
    hide FpConsecutive, WellFormed, SafeMoves, FpNarrows, FpLoads, Get;
    var moves := FpMoves(args, fsrcs, |args|);
    FpMovesWellFormed(args, fsrcs, |args|);
    hide FpMoves;
    var s := Exec(SafeMoves(moves, [D16]), f);
    LoadsOwn(args, fsrcs, |args|, s);
    NarrowsOwn(keep, args, |args|, FpLoads(args, fsrcs, |args|, s));
    forall j | 0 <= j < |moves| ensures Get(s, moves[j].dst) == Get(f, moves[j].src) {
      assert moves[j] in moves;
      var i :| 0 <= i < |args| && args[i].Fp? && fsrcs[i].Register? &&
        moves[j] == Move(FpReg(args[i].freg), fsrcs[i].reg);
    }
  }
}
