/** Placing the arguments and the result of a C call: registers handed out in order while they last,
    everything else in consecutive stack ranges. */
module Abi {
  import opened Wrappers

  datatype FloatWidth = F32 | F64 | Arch

  /** `ArchInt` is as wide as a pointer, but a width of its own. */
  datatype IntWidth = S8 | S16 | S32 | S64 | U8 | U16 | U32 | U64 | ArchInt

  /** `Opaque` stands for every type without a size at the call boundary. */
  datatype Ty =
    | Int(signed: bool, bits: IntWidth)
    | Bool
    | Char
    | Str
    | Bytes
    | Float(width: FloatWidth)
    | Struct(fields: seq<Ty>)
    | Unit
    | Error
    | Opaque

  datatype Arg =
    | Gp(reg: nat)
    | Fp(freg: nat, narrow: bool)
    | Hfa(fregs: seq<nat>, width: FloatWidth)
    | Composite(regs: seq<nat>, size: nat)
    | Indirect(offset: nat, size: nat, ptr: nat)
    | Stack(offset: nat, size: nat)

  datatype Ret =
    | Void
    | GpRet(signExtend: bool)
    | FpRet(widen: bool)
    | HfaRet(fregs: seq<nat>, width: FloatWidth)
    | CompositeRet(regs: seq<nat>, size: nat)
    | IndirectRet(offset: nat, size: nat)

  datatype Call = Call(args: seq<Arg>, ret: Ret, stackBytes: nat)

  // --- Type queries --------------------------------------------------------

  function FloatBytes(w: FloatWidth): nat {
    if w.F32? then 4 else 8
  }

  function IntBytes(w: IntWidth): nat {
    match w
    case S8 => 1
    case U8 => 1
    case S16 => 2
    case U16 => 2
    case S32 => 4
    case U32 => 4
    case S64 => 8
    case U64 => 8
    case ArchInt => 8
  }

  function SizeOf(ty: Ty): Option<nat>
    decreases ty, 0
  {
    match ty
    case Bool => Some(1)
    case Char => Some(1)
    case Int(_, w) => Some(IntBytes(w))
    case Float(w) => Some(FloatBytes(w))
    case Str => Some(8)
    case Bytes => Some(8)
    case Struct(fields) => SumSizes(ty, |fields|)
    case _ => None
  }

  /** Size of the first `n` fields; None if one of them has no size. */
  function SumSizes(ty: Ty, n: nat): Option<nat>
    requires ty.Struct? && n <= |ty.fields|
    decreases ty, -1, n
  {
    if n == 0 then Some(0)
    else
      match SumSizes(ty, n - 1)
      case None => None
      case Some(total) =>
        match SizeOf(ty.fields[n - 1])
        case None => None
        case Some(size) => Some(total + size)
  }

  /** The size a struct is passed with: 0 if it has none. */
  function StructSize(ty: Ty): nat
    requires ty.Struct?
  {
    match SizeOf(ty)
    case None => 0
    case Some(size) => size
  }

  /** A homogeneous floating-point aggregate: one to four floats of one width. */
  predicate IsHfa(ty: Ty) {
    && ty.Struct? && 1 <= |ty.fields| <= 4 && ty.fields[0].Float?
    && forall f :: f in ty.fields ==> f == ty.fields[0]
  }

  function RoundUp8(n: nat): nat {
    (n + 7) / 8 * 8
  }

  function RoundUp16(n: nat): nat {
    (n + 15) / 16 * 16
  }

  /** Registers that hold `size` bytes. */
  function Words(size: nat): nat {
    (size + 7) / 8
  }

  function Upto(from: nat, n: nat): (r: seq<nat>)
    ensures |r| == n && forall i :: 0 <= i < n ==> r[i] == from + i
  {
    seq(n, i => from + i)
  }

  // --- Classification ------------------------------------------------------

  datatype State = State(nextGp: nat, nextFp: nat, stack: nat)

  function OnStack(s: State): (Arg, State) {
    (Stack(s.stack, 8), s.(stack := s.stack + 8))
  }

  function PlaceGp(s: State): (Arg, State) {
    if s.nextGp < 8 then (Gp(s.nextGp), s.(nextGp := s.nextGp + 1)) else OnStack(s)
  }

  function PlaceFp(w: FloatWidth, s: State): (Arg, State) {
    if s.nextFp < 8 then (Fp(s.nextFp, w.F32?), s.(nextFp := s.nextFp + 1)) else OnStack(s)
  }

  /** None when the pointer to a copied struct finds no register left: the source panics. */
  function PlaceStruct(ty: Ty, s: State): Option<(Arg, State)>
    requires ty.Struct?
  {
    var size := StructSize(ty);
    if IsHfa(ty) && s.nextFp + |ty.fields| <= 8 then
      Some((Hfa(Upto(s.nextFp, |ty.fields|), ty.fields[0].width), s.(nextFp := s.nextFp + |ty.fields|)))
    else if size <= 16 && s.nextGp + Words(size) <= 8 then
      Some((Composite(Upto(s.nextGp, Words(size)), size), s.(nextGp := s.nextGp + Words(size))))
    else if s.nextGp < 8 then
      Some((Indirect(s.stack, size, s.nextGp), s.(nextGp := s.nextGp + 1, stack := s.stack + RoundUp8(size))))
    else None
  }

  function Place(ty: Ty, s: State): Option<(Arg, State)> {
    match ty
    case Float(w) => Some(PlaceFp(w, s))
    case Struct(_) => PlaceStruct(ty, s)
    case _ => Some(PlaceGp(s))
  }

  function PlaceRet(ty: Ty, s: State): (Ret, State) {
    match ty
    case Unit => (Void, s)
    case Error => (Void, s)
    case Int(signed, w) => (GpRet(signed && w != S64 && w != U64), s)
    case Float(w) => (FpRet(w.F32?), s)
    case Struct(fields) =>
      if IsHfa(ty) then (HfaRet(Upto(0, |fields|), fields[0].width), s)
      else if StructSize(ty) <= 16 then (CompositeRet(Upto(0, Words(StructSize(ty))), StructSize(ty)), s)
      else (IndirectRet(s.stack, StructSize(ty)), s.(stack := s.stack + RoundUp8(StructSize(ty))))
    case _ => (GpRet(false), s)
  }

  /** The placements of the first `n` parameters, after the result's. */
  function PlaceAll(params: seq<Ty>, ret: Ty, n: nat): Option<(seq<Arg>, State)>
    requires n <= |params|
  {
    if n == 0 then Some(([], PlaceRet(ret, State(0, 0, 0)).1))
    else
      match PlaceAll(params, ret, n - 1)
      case None => None
      case Some((args, s)) =>
        match Place(params[n - 1], s)
        case None => None
        case Some((arg, s')) => Some((args + [arg], s'))
  }

  function Classify(params: seq<Ty>, ret: Ty): Option<Call> {
    match PlaceAll(params, ret, |params|)
    case None => None
    case Some((args, s)) => Some(Call(args, PlaceRet(ret, State(0, 0, 0)).0, RoundUp16(s.stack)))
  }

  /** The classifier as it runs: three counters advanced argument by argument. */
  class ClassState {
    var nextGp: nat
    var nextFp: nat
    var stack: nat

    ghost function Now(): State
      reads this
    {
      State(nextGp, nextFp, stack)
    }

    constructor ()
      ensures Now() == State(0, 0, 0)
    {
      nextGp, nextFp, stack := 0, 0, 0;
    }

    method Reserve(size: nat) returns (offset: nat)
      modifies this
      ensures offset == old(stack) && Now() == old(Now()).(stack := old(stack) + size)
    {
      offset := stack;
      stack := stack + size;
    }

    method ClassifyGp() returns (arg: Arg)
      modifies this
      ensures (arg, Now()) == PlaceGp(old(Now()))
    {
      if nextGp < 8 {
        arg := Gp(nextGp);
        nextGp := nextGp + 1;
      } else {
        var offset := Reserve(8);
        arg := Stack(offset, 8);
      }
    }

    method ClassifyFp(w: FloatWidth) returns (arg: Arg)
      modifies this
      ensures (arg, Now()) == PlaceFp(w, old(Now()))
    {
      if nextFp < 8 {
        arg := Fp(nextFp, w.F32?);
        nextFp := nextFp + 1;
      } else {
        var offset := Reserve(8);
        arg := Stack(offset, 8);
      }
    }

    method ClassifyStruct(ty: Ty) returns (arg: Option<Arg>)
      requires ty.Struct?
      modifies this
      ensures match PlaceStruct(ty, old(Now()))
        case None => arg.None?
        case Some((a, s)) => arg == Some(a) && Now() == s
    {
      var size := StructSize(ty);
      if IsHfa(ty) && nextFp + |ty.fields| <= 8 {
        arg := Some(Hfa(Upto(nextFp, |ty.fields|), ty.fields[0].width));
        nextFp := nextFp + |ty.fields|;
      } else if size <= 16 && nextGp + Words(size) <= 8 {
        arg := Some(Composite(Upto(nextGp, Words(size)), size));
        nextGp := nextGp + Words(size);
      } else {
        var offset := Reserve(RoundUp8(size));
        if nextGp >= 8 {
          return None;
        }
        arg := Some(Indirect(offset, size, nextGp));
        nextGp := nextGp + 1;
      }
    }

    method ClassifyArg(ty: Ty) returns (arg: Option<Arg>)
      modifies this
      ensures match Place(ty, old(Now()))
        case None => arg.None?
        case Some((a, s)) => arg == Some(a) && Now() == s
    {
      match ty
      case Float(w) =>
        var a := ClassifyFp(w);
        arg := Some(a);
      case Struct(_) => arg := ClassifyStruct(ty);
      case _ =>
        var a := ClassifyGp();
        arg := Some(a);
    }

    method ClassifyRet(ty: Ty) returns (ret: Ret)
      modifies this
      ensures (ret, Now()) == PlaceRet(ty, old(Now()))
    {
      match ty
      case Unit => ret := Void;
      case Error => ret := Void;
      case Int(signed, w) => ret := GpRet(signed && w != S64 && w != U64);
      case Float(w) => ret := FpRet(w.F32?);
      case Struct(fields) =>
        var size := StructSize(ty);
        if IsHfa(ty) {
          ret := HfaRet(Upto(0, |fields|), fields[0].width);
        } else if size <= 16 {
          ret := CompositeRet(Upto(0, Words(size)), size);
        } else {
          var offset := Reserve(RoundUp8(size));
          ret := IndirectRet(offset, size);
        }
      case _ => ret := GpRet(false);
    }
  }

  method ClassifyCall(params: seq<Ty>, ret: Ty) returns (call: Option<Call>)
    ensures call == Classify(params, ret)
  {
    var state := new ClassState();
    var r := state.ClassifyRet(ret);
    var args: seq<Arg> := [];
    for i := 0 to |params|
      invariant PlaceAll(params, ret, i) == Some((args, state.Now()))
    {
      var arg := state.ClassifyArg(params[i]);
      if arg.None? {
        NoneStays(params, ret, i + 1);
        return None;
      }
      args := args + [arg.value];
    }
    call := Some(Call(args, r, RoundUp16(state.stack)));
  }

  lemma NoneStays(params: seq<Ty>, ret: Ty, n: nat)
    requires n <= |params| && PlaceAll(params, ret, n).None?
    ensures PlaceAll(params, ret, |params|).None?
    decreases |params| - n
  {
    if n < |params| {
      NoneStays(params, ret, n + 1);
    }
  }

  // --- What a classification guarantees ------------------------------------

  function GpRegs(a: Arg): seq<nat> {
    match a
    case Gp(r) => [r]
    case Composite(regs, _) => regs
    case Indirect(_, _, ptr) => [ptr]
    case _ => []
  }

  function FpRegs(a: Arg): seq<nat> {
    match a
    case Fp(r, _) => [r]
    case Hfa(regs, _) => regs
    case _ => []
  }

  function AllGp(args: seq<Arg>): seq<nat> {
    if args == [] then [] else AllGp(args[..|args| - 1]) + GpRegs(args[|args| - 1])
  }

  function AllFp(args: seq<Arg>): seq<nat> {
    if args == [] then [] else AllFp(args[..|args| - 1]) + FpRegs(args[|args| - 1])
  }

  /** The stack bytes of an argument: first byte and length. */
  function Range(a: Arg): (nat, nat) {
    match a
    case Stack(offset, size) => (offset, size)
    case Indirect(offset, size, _) => (offset, RoundUp8(size))
    case _ => (0, 0)
  }

  predicate UsesStack(a: Arg) {
    a.Stack? || a.Indirect?
  }

  function RetBytes(r: Ret): nat {
    if r.IndirectRet? then RoundUp8(r.size) else 0
  }

  /** Stack bytes of the arguments. */
  function AllBytes(args: seq<Arg>): nat {
    if args == [] then 0 else AllBytes(args[..|args| - 1]) + Range(args[|args| - 1]).1
  }

  // What the first `i` arguments use of each bank and of the stack.

  function GpUsed(args: seq<Arg>, i: nat): nat
    requires i <= |args|
  {
    |AllGp(args[..i])|
  }

  function FpUsed(args: seq<Arg>, i: nat): nat
    requires i <= |args|
  {
    |AllFp(args[..i])|
  }

  function BytesUsed(args: seq<Arg>, i: nat): nat
    requires i <= |args|
  {
    AllBytes(args[..i])
  }

  /** Stack ranges in argument order without a gap, the first after the result's slot. */
  ghost predicate Packed(args: seq<Arg>, base: nat) {
    forall i :: 0 <= i < |args| && UsesStack(args[i]) ==> Range(args[i]).0 == base + BytesUsed(args, i)
  }

  /** Stack ranges in argument order, above the result's slot, none overlapping, all within `top`. */
  ghost predicate Stacked(args: seq<Arg>, base: nat, top: nat) {
    && (forall i :: 0 <= i < |args| && UsesStack(args[i]) ==>
      base <= Range(args[i]).0 && Range(args[i]).0 + Range(args[i]).1 <= top)
    && (forall i, j :: 0 <= i < j < |args| && UsesStack(args[i]) && UsesStack(args[j]) ==>
      Range(args[i]).0 + Range(args[i]).1 <= Range(args[j]).0)
  }

  /** One to four floats of width `w`. */
  predicate Floats(fields: seq<Ty>, w: FloatWidth) {
    0 < |fields| < 5 && forall i :: 0 <= i < |fields| ==> fields[i].Float? && fields[i].width == w
  }

  /** The floats go to the FP registers when `fps` of these are taken. */
  ghost predicate FloatsFit(fields: seq<Ty>, fps: nat) {
    fps + |fields| <= 8 && exists w :: Floats(fields, w)
  }

  /** `n` registers are what `size` bytes need. */
  predicate Holds(n: nat, size: nat) {
    8 * n - 8 < size <= 8 * n
  }

  /** The placement suits the type when `gps` and `fps` registers are taken: an integer or pointer in a
      register while one is left, else in a stack word; a float likewise, narrowed from 32 bits; a
      struct in as many FP registers as it has floats, else in as many general registers as it has
      words if these are two at most and left, else copied whole with its address in a register. */
  ghost predicate Suits(ty: Ty, gps: nat, fps: nat, a: Arg) {
    match ty
    case Float(w) => if fps < 8 then a.Fp? && (a.narrow <==> w == F32) else a.Stack? && a.size == 8
    case Struct(fields) =>
      var size := StructSize(ty);
      if FloatsFit(fields, fps) then a.Hfa? && |a.fregs| == |fields| && Floats(fields, a.width)
      else if size <= 16 && size <= 8 * (8 - gps) then a.Composite? && a.size == size && Holds(|a.regs|, size)
      else a.Indirect? && a.size == size && size <= Range(a).1 < size + 8
    case _ => if gps < 8 then a.Gp? else a.Stack? && a.size == 8
  }

  /** The counterpart for the result: signed integers below 64 bits, and those as wide as a pointer,
      are extended, 32-bit floats widened. */
  ghost predicate SuitsRet(ty: Ty, r: Ret) {
    match ty
    case Unit => r == Void
    case Error => r == Void
    case Int(signed, w) => r.GpRet? && (r.signExtend <==> signed && w in {S8, S16, S32, U8, U16, U32, ArchInt})
    case Float(w) => r.FpRet? && (r.widen <==> w == F32)
    case Struct(fields) =>
      var size := StructSize(ty);
      if exists w :: Floats(fields, w) then
        r.HfaRet? && r.fregs == Upto(0, |fields|) && Floats(fields, r.width)
      else if size <= 16 then
        r.CompositeRet? && r.size == size && r.regs == Upto(0, |r.regs|) && Holds(|r.regs|, size)
      else r == IndirectRet(0, size) && size <= RetBytes(r) < size + 8
    case _ => r == GpRet(false)
  }

  lemma PlaceFacts(ty: Ty, s: State)
    requires s.nextGp <= 8 && s.nextFp <= 8 && s.stack % 8 == 0 && Place(ty, s).Some?
    ensures var (a, t) := Place(ty, s).value;
      && Suits(ty, s.nextGp, s.nextFp, a)
      && t.nextGp == s.nextGp + |GpRegs(a)| <= 8 && GpRegs(a) == Upto(s.nextGp, |GpRegs(a)|)
      && t.nextFp == s.nextFp + |FpRegs(a)| <= 8 && FpRegs(a) == Upto(s.nextFp, |FpRegs(a)|)
      && t.stack % 8 == 0
      && (if UsesStack(a) then Range(a).0 == s.stack && t.stack == s.stack + Range(a).1 else t.stack == s.stack)
  {
    if ty.Struct? {
      hide SizeOf;
      HfaFloats(ty);
    }
  }

  lemma HfaFloats(ty: Ty)
    requires ty.Struct?
    ensures IsHfa(ty) <==> exists w :: Floats(ty.fields, w)
    ensures IsHfa(ty) ==> Floats(ty.fields, ty.fields[0].width)
  {
    if IsHfa(ty) {
      forall i | 0 <= i < |ty.fields| ensures ty.fields[i] == ty.fields[0] {
        assert ty.fields[i] in ty.fields;
      }
      assert Floats(ty.fields, ty.fields[0].width);
    }
    forall w | Floats(ty.fields, w) ensures IsHfa(ty) {
    }
  }

  lemma StackedPush(args: seq<Arg>, base: nat, top: nat, a: Arg, next: nat)
    requires Stacked(args, base, top) && base <= top
    requires if UsesStack(a) then Range(a).0 == top && next == top + Range(a).1 else next == top
    ensures Stacked(args + [a], base, next)
  {
    hide Range, UsesStack;
  }

  lemma UptoPush(k: nat, n: nat)
    ensures Upto(0, k) + Upto(k, n) == Upto(0, k + n)
  {
  }

  lemma AllPush(args: seq<Arg>, a: Arg)
    ensures AllGp(args + [a]) == AllGp(args) + GpRegs(a) && AllFp(args + [a]) == AllFp(args) + FpRegs(a)
    ensures AllBytes(args + [a]) == AllBytes(args) + Range(a).1
  {
    assert (args + [a])[..|args|] == args;
  }

  /** What holds of the first `n` placements and the counters after them. */
  ghost predicate LaidOut(params: seq<Ty>, n: nat, args: seq<Arg>, s: State, base: nat)
    requires n <= |params|
  {
    && |args| == n && (forall i :: 0 <= i < n ==> Suits(params[i], GpUsed(args, i), FpUsed(args, i), args[i]))
    && AllGp(args) == Upto(0, s.nextGp) && s.nextGp <= 8
    && AllFp(args) == Upto(0, s.nextFp) && s.nextFp <= 8
    && s.stack % 8 == 0 && s.stack == base + AllBytes(args) && Stacked(args, base, s.stack) && Packed(args, base)
  }

  lemma LaidOutPush(params: seq<Ty>, n: nat, args: seq<Arg>, s: State, base: nat)
    requires n < |params| && LaidOut(params, n, args, s, base) && Place(params[n], s).Some?
    ensures LaidOut(params, n + 1, args + [Place(params[n], s).value.0], Place(params[n], s).value.1, base)
  {
    hide Place, Suits, UsesStack, Range, GpRegs, FpRegs, AllGp, AllFp, AllBytes, Stacked, Packed, Upto;
    PlaceFacts(params[n], s);
    var (a, t) := Place(params[n], s).value;
    AllPush(args, a);
    UptoPush(s.nextGp, |GpRegs(a)|);
    UptoPush(s.nextFp, |FpRegs(a)|);
    StackedPush(args, base, s.stack, a, t.stack);
    PackedPush(args, base, a);
    NoBytes(a);
    forall i: nat | i <= n ensures (args + [a])[..i] == args[..i] {
    }
    assert args[..n] == args;
  }

  lemma NoBytes(a: Arg)
    ensures !UsesStack(a) ==> Range(a).1 == 0
  {
  }

  lemma PackedPush(args: seq<Arg>, base: nat, a: Arg)
    requires Packed(args, base) && (UsesStack(a) ==> Range(a).0 == base + AllBytes(args))
    ensures Packed(args + [a], base)
  {
    hide Range, UsesStack, AllBytes;
    assert args[..|args|] == args;
    forall i: nat | i <= |args| ensures (args + [a])[..i] == args[..i] {
    }
  }

  lemma {:induction false} Layout(params: seq<Ty>, ret: Ty, n: nat)
    requires n <= |params| && PlaceAll(params, ret, n).Some?
    ensures var (args, s) := PlaceAll(params, ret, n).value;
      LaidOut(params, n, args, s, RetBytes(PlaceRet(ret, State(0, 0, 0)).0))
  {
    hide PlaceRet, Place, LaidOut;
    if n == 0 {
      RetFacts(ret);
      NothingPlaced(params, PlaceRet(ret, State(0, 0, 0)).1);
    } else {
      Layout(params, ret, n - 1);
      var (args, s) := PlaceAll(params, ret, n - 1).value;
      LaidOutPush(params, n - 1, args, s, RetBytes(PlaceRet(ret, State(0, 0, 0)).0));
    }
  }

  lemma NothingPlaced(params: seq<Ty>, s: State)
    requires s.nextGp == 0 && s.nextFp == 0 && s.stack % 8 == 0
    ensures LaidOut(params, 0, [], s, s.stack)
  {
  }

  lemma RetFacts(ret: Ty)
    ensures var (r, s) := PlaceRet(ret, State(0, 0, 0));
      s.nextGp == 0 && s.nextFp == 0 && s.stack == RetBytes(r) && s.stack % 8 == 0 && SuitsRet(ret, r)
  {
    hide SizeOf;
    if ret.Struct? {
      HfaFloats(ret);
    }
  }

  /** For every parameter list that classifies: argument registers are handed out 0, 1, 2, ... in
      each bank without repetition or gap, at most eight; stack ranges follow the result's slot one
      after the other, disjoint and inside `stackBytes`, the least multiple of 16 with that room; and
      every placement suits its type and what is left when its turn comes, the result's placement
      included. */
  lemma ClassifiedApart(params: seq<Ty>, ret: Ty)
    requires Classify(params, ret).Some?
    ensures var c := Classify(params, ret).value;
      && |c.args| == |params| && SuitsRet(ret, c.ret)
      && (forall i :: 0 <= i < |params| ==> Suits(params[i], GpUsed(c.args, i), FpUsed(c.args, i), c.args[i]))
      && AllGp(c.args) == Upto(0, |AllGp(c.args)|) && |AllGp(c.args)| <= 8
      && AllFp(c.args) == Upto(0, |AllFp(c.args)|) && |AllFp(c.args)| <= 8
      && Stacked(c.args, RetBytes(c.ret), c.stackBytes) && Packed(c.args, RetBytes(c.ret))
      && RetBytes(c.ret) + AllBytes(c.args) <= c.stackBytes < RetBytes(c.ret) + AllBytes(c.args) + 16
      && c.stackBytes % 16 == 0
  {
    hide Suits, SuitsRet, AllGp, AllFp, AllBytes, Range, UsesStack, PlaceRet, PlaceAll, Stacked, Packed, RoundUp16;
    Layout(params, ret, |params|);
    RetFacts(ret);
    var (args, s) := PlaceAll(params, ret, |params|).value;
    Rounded(s.stack);
    StackedMore(args, RetBytes(PlaceRet(ret, State(0, 0, 0)).0), s.stack, RoundUp16(s.stack));
  }

  lemma Rounded(n: nat)
    ensures n <= RoundUp16(n) < n + 16 && RoundUp16(n) % 16 == 0
  {
  }

  lemma StackedMore(args: seq<Arg>, base: nat, top: nat, more: nat)
    requires Stacked(args, base, top) && top <= more
    ensures Stacked(args, base, more)
  {
    hide Range, UsesStack;
  }

  /** A struct whose address finds no register when `gps` and `fps` registers are taken. */
  ghost predicate NoRoom(ty: Ty, gps: nat, fps: nat) {
    ty.Struct? && gps == 8 && StructSize(ty) > 0 && !FloatsFit(ty.fields, fps)
  }

  /** Parameter `k` is reached and finds no room. */
  ghost predicate Blocked(params: seq<Ty>, ret: Ty, k: nat)
    requires k < |params|
  {
    match Classify(params[..k], ret)
    case None => false
    case Some(c) => NoRoom(params[k], |AllGp(c.args)|, |AllFp(c.args)|)
  }

  /** The parameters after the first `n` play no part in placing these. */
  lemma {:induction false} PlacePrefix(params: seq<Ty>, ret: Ty, k: nat, n: nat)
    requires n <= k <= |params|
    ensures PlaceAll(params[..k], ret, n) == PlaceAll(params, ret, n)
  {
    hide PlaceRet, Place;
    if n > 0 {
      PlacePrefix(params, ret, k, n - 1);
    }
  }

  lemma BlockedNow(params: seq<Ty>, ret: Ty, k: nat)
    requires k < |params| && PlaceAll(params, ret, k).Some?
    ensures PlaceAll(params, ret, k + 1).None? <==> Blocked(params, ret, k)
  {
    hide PlaceRet, Place, NoRoom, LaidOut;
    Layout(params, ret, k);
    PlacePrefix(params, ret, k, k);
    var (args, s) := PlaceAll(params, ret, k).value;
    Counters(params, k, args, s, RetBytes(PlaceRet(ret, State(0, 0, 0)).0));
    PlaceFails(params[k], s);
  }

  lemma {:induction false} FailsBefore(params: seq<Ty>, ret: Ty, n: nat)
    requires n <= |params|
    ensures PlaceAll(params, ret, n).None? <==> exists k :: 0 <= k < n && Blocked(params, ret, k)
  {
    hide PlaceRet, Place, Blocked;
    if n > 0 {
      FailsBefore(params, ret, n - 1);
      if PlaceAll(params, ret, n - 1).Some? {
        BlockedNow(params, ret, n - 1);
      }
    }
  }

  /** Classification fails exactly when a non-empty struct that does not fit the remaining FP registers
      arrives after all eight general registers are taken. */
  lemma FailsExactly(params: seq<Ty>, ret: Ty)
    ensures Classify(params, ret).None? <==> exists k :: 0 <= k < |params| && Blocked(params, ret, k)
  {
    hide PlaceAll, Blocked;
    FailsBefore(params, ret, |params|);
  }

  lemma Counters(params: seq<Ty>, n: nat, args: seq<Arg>, s: State, base: nat)
    requires n <= |params| && LaidOut(params, n, args, s, base)
    ensures s.nextGp == |AllGp(args)| <= 8 && s.nextFp == |AllFp(args)|
  {
  }

  lemma PlaceFails(ty: Ty, s: State)
    requires s.nextGp <= 8
    ensures Place(ty, s).None? <==> NoRoom(ty, s.nextGp, s.nextFp)
  {
    hide SizeOf;
    if ty.Struct? {
      HfaFloats(ty);
    }
  }

  // --- Sizes ---------------------------------------------------------------

  function Plus(a: Option<nat>, b: Option<nat>): Option<nat> {
    if a.Some? && b.Some? then Some(a.value + b.value) else None
  }

  /** A struct is as large as its parts, wherever it is cut and however it is nested: there is no
      padding. It has a size if and only if every field has one. */
  lemma {:induction false} SizesAdd(a: seq<Ty>, b: seq<Ty>)
    ensures SizeOf(Struct(a + b)) == Plus(SizeOf(Struct(a)), SizeOf(Struct(b)))
    decreases |b|
  {
    hide SizeOf, SumSizes;
    SumStep(a + b, |a + b|);
    SumStep(b, |b|);
    assert (a + b)[..|a + b|] == a + b && b[..|b|] == b;
    if b == [] {
      assert a + b == a;
    } else {
      var c := b[..|b| - 1];
      SizesAdd(a, c);
      assert (a + b)[..|a + b| - 1] == a + c;
    }
  }

  /** A struct around one type has its size; without a size it is passed as if it were empty. */
  lemma SizeAlone(ty: Ty)
    ensures SizeOf(Struct([ty])) == SizeOf(ty)
    ensures StructSize(Struct([ty])) == if SizeOf(ty).Some? then SizeOf(ty).value else 0
  {
    hide SizeOf, SumSizes;
    SumStep([ty], 1);
    SumStep([], 0);
    assert [ty][..1] == [ty] && [ty][..0] == [];
  }

  /** The size of a struct is that of its first fields and of its last. */
  lemma SumStep(fields: seq<Ty>, n: nat)
    requires n <= |fields|
    ensures SizeOf(Struct(fields[..n])) == SumSizes(Struct(fields), n)
    ensures fields == [] ==> SizeOf(Struct(fields)) == Some(0)
    ensures n > 0 ==> SizeOf(Struct(fields[..n])) == Plus(SizeOf(Struct(fields[..n - 1])), SizeOf(fields[n - 1]))
  {
    SumPrefix(fields, n, n);
    if n > 0 {
      SumPrefix(fields, n - 1, n - 1);
    }
  }

  lemma {:induction false} SumPrefix(fields: seq<Ty>, k: nat, n: nat)
    requires n <= k <= |fields|
    ensures SumSizes(Struct(fields[..k]), n) == SumSizes(Struct(fields), n)
  {
    if n > 0 {
      SumPrefix(fields, k, n - 1);
    }
  }

  /** The sizes of the parts, in bytes. */
  lemma ScalarSizes(signed: bool, w: IntWidth)
    ensures SizeOf(Bool) == SizeOf(Char) == Some(1) && SizeOf(Str) == SizeOf(Bytes) == Some(8)
    ensures SizeOf(Float(F32)) == Some(4) && SizeOf(Float(F64)) == SizeOf(Float(Arch)) == Some(8)
    ensures var bytes := if w in {S8, U8} then 1 else if w in {S16, U16} then 2 else if w in {S32, U32} then 4 else 8;
      SizeOf(Int(signed, w)) == Some(bytes)
    ensures SizeOf(Unit) == SizeOf(Error) == SizeOf(Opaque) == None
  {
  }
}
