/** Fusing a float multiply into the addition or subtraction that follows it. The multiply is held
    back, and the next instruction computes both at once. Arithmetic is over the reals. */
module Fma {
  import opened Wrappers

  type ValueId = nat

  datatype FOp = Add | Sub | Mul | Rest(id: nat)

  /** A binary operation, float or not, or any other instruction with its operands. */
  datatype Insn =
    | Bin(dst: ValueId, op: FOp, lhs: ValueId, rhs: ValueId, isFloat: bool)
    | Opaque(result: Option<ValueId>, args: seq<ValueId>)

  /** `a + m1 * m2`, `a - m1 * m2`, `m1 * m2 - a`. */
  datatype Form = Madd | Msub | Nmsub

  /** What one source instruction becomes. */
  datatype Code =
    | Plain
    | Multiply(product: ValueId, m1: ValueId, m2: ValueId)
    | Fused(form: Form, dst: ValueId, m1: ValueId, m2: ValueId, addend: ValueId)

  datatype Pending = Pending(mulIdx: nat, product: ValueId, m1: ValueId, m2: ValueId)

  // --- Deciding ------------------------------------------------------------

  function One(a: ValueId, v: ValueId): nat {
    if a == v then 1 else 0
  }

  function CountIn(s: seq<ValueId>, v: ValueId): nat {
    if s == [] then 0 else CountIn(s[..|s| - 1], v) + One(s[|s| - 1], v)
  }

  /** Value ids named by one instruction, its own result included. */
  function Mentions(i: Insn, v: ValueId): nat {
    match i
    case Bin(dst, _, lhs, rhs, _) => One(dst, v) + One(lhs, v) + One(rhs, v)
    case Opaque(result, args) => (if result.Some? then One(result.value, v) else 0) + CountIn(args, v)
  }

  function Count(insns: seq<Insn>, n: nat, v: ValueId): nat
    requires n <= |insns|
  {
    if n == 0 then 0 else Count(insns, n - 1, v) + Mentions(insns[n - 1], v)
  }

  /** Operand reads: every mention but the one definition. */
  function Uses(insns: seq<Insn>, v: ValueId): nat {
    var c := Count(insns, |insns|, v);
    if c == 0 then 0 else c - 1
  }

  function Tally(uses: map<ValueId, nat>, v: ValueId): nat {
    if v in uses then uses[v] else 0
  }

  predicate IsConsumer(i: Insn, product: ValueId) {
    i.Bin? && i.isFloat && (i.op == Add || i.op == Sub) && (i.lhs == product || i.rhs == product)
  }

  /** The multiply at `i` is held back. */
  predicate Defers(insns: seq<Insn>, i: nat)
    requires i < |insns|
  {
    && insns[i].Bin? && insns[i].isFloat && insns[i].op == Mul
    && Uses(insns, insns[i].dst) == 1
    && i + 1 < |insns| && IsConsumer(insns[i + 1], insns[i].dst)
  }

  function Hold(insns: seq<Insn>, i: nat): Pending
    requires i < |insns| && insns[i].Bin?
  {
    Pending(i, insns[i].dst, insns[i].lhs, insns[i].rhs)
  }

  /** The fused form of consumer `c`: the product may be either operand. */
  function FuseInto(c: Insn, p: Pending): Code
    requires c.Bin?
  {
    var productIsRhs := c.rhs == p.product;
    var form := if c.op == Add then Madd else if productIsRhs then Msub else Nmsub;
    Fused(form, c.dst, p.m1, p.m2, if productIsRhs then c.lhs else c.rhs)
  }

  /** The code of instruction `i`: none for a held-back multiply, the fused form for the instruction
      after one, its own code otherwise. */
  function CodeOf(insns: seq<Insn>, i: nat): seq<Code>
    requires i < |insns|
  {
    if Defers(insns, i) then []
    else if i > 0 && Defers(insns, i - 1) then [FuseInto(insns[i], Hold(insns, i - 1))]
    else [Plain]
  }

  /** Whether instruction `i` is the one that a waiting multiply is fused into. */
  predicate Fuses(p: Option<Pending>, insns: seq<Insn>, i: nat)
    requires i < |insns|
  {
    p.Some? && i == p.value.mulIdx + 1 && IsConsumer(insns[i], p.value.product)
  }

  /** One instruction with any multiply waiting: the code, and what waits afterwards. A multiply the
      instruction does not consume is emitted in front of it. */
  function Emitted(p: Option<Pending>, insns: seq<Insn>, i: nat): (seq<Code>, Option<Pending>)
    requires i < |insns|
  {
    var late := if p.Some? && !Fuses(p, insns, i) then [Multiply(p.value.product, p.value.m1, p.value.m2)] else [];
    if Defers(insns, i) then (late, Some(Hold(insns, i)))
    else if Fuses(p, insns, i) then (late + [FuseInto(insns[i], p.value)], None)
    else (late + [Plain], None)
  }

  // --- The emitter ---------------------------------------------------------

  class Emitter {
    var uses: map<ValueId, nat>
    var pending: Option<Pending>

    constructor ()
      ensures uses == map[] && pending.None?
    {
      uses, pending := map[], None;
    }

    method Mention(v: ValueId)
      modifies this
      ensures pending == old(pending) && uses == old(uses)[v := Tally(old(uses), v) + 1]
    {
      uses := uses[v := Tally(uses, v) + 1];
    }

    /** Counts the operand reads of every value of the function. */
    method EnterFunction(insns: seq<Insn>)
      modifies this
      ensures pending.None? && forall v :: Tally(uses, v) == Uses(insns, v)
    {
      hide Mentions, CountIn;
      uses, pending := map[], None;
      for i := 0 to |insns|
        invariant pending.None? && forall v :: Tally(uses, v) == Count(insns, i, v)
      {
        MentionInsn(insns[i]);
      }
      uses := map v | v in uses :: if uses[v] == 0 then 0 else uses[v] - 1;
    }

    method MentionInsn(i: Insn)
      modifies this
      ensures pending == old(pending)
      ensures forall v :: Tally(uses, v) == Tally(old(uses), v) + Mentions(i, v)
    {
      match i
      case Bin(dst, _, lhs, rhs, _) =>
        Mention(dst);
        Mention(lhs);
        Mention(rhs);
      case Opaque(result, args) =>
        if result.Some? {
          Mention(result.value);
        }
        ghost var before := uses;
        for k := 0 to |args|
          invariant pending == old(pending)
          invariant forall v :: Tally(uses, v) == Tally(before, v) + CountIn(args[..k], v)
        {
          assert args[..k + 1][..k] == args[..k];
          Mention(args[k]);
        }
        assert args[..|args|] == args;
    }

    /** Holds the multiply at `i` back if the next instruction alone consumes its product. */
    method TryDefer(insns: seq<Insn>, i: nat) returns (deferred: bool)
      requires i < |insns| && insns[i].Bin? && insns[i].op == Mul
      requires forall v :: Tally(uses, v) == Uses(insns, v)
      modifies `pending
      ensures deferred == Defers(insns, i)
      ensures pending == if deferred then Some(Hold(insns, i)) else old(pending)
    {
      hide Uses;
      var m := insns[i];
      deferred := m.isFloat && Tally(uses, m.dst) == 1 && i + 1 < |insns| && IsConsumer(insns[i + 1], m.dst);
      if deferred {
        pending := Some(Pending(i, m.dst, m.lhs, m.rhs));
      }
    }

    method Translate(insns: seq<Insn>, i: nat) returns (code: seq<Code>)
      requires i < |insns|
      requires forall v :: Tally(uses, v) == Uses(insns, v)
      modifies `pending
      ensures (code, pending) == Emitted(old(pending), insns, i)
    {
      hide Uses, FuseInto;
      code := [];
      var insn := insns[i];
      if pending.Some? {
        var p := pending.value;
        if !(i == p.mulIdx + 1 && IsConsumer(insn, p.product)) {
          code := [Multiply(p.product, p.m1, p.m2)];
          pending := None;
        }
      }
      if insn.Bin? && insn.isFloat {
        if insn.op == Mul {
          var deferred := TryDefer(insns, i);
          if deferred {
            return;
          }
        }
        if pending.Some? {
          var p := pending.value;
          if IsConsumer(insn, p.product) {
            code := code + [FuseInto(insn, p)];
            pending := None;
            return;
          }
        }
      }
      code := code + [Plain];
    }
  }

  /** The multiply waiting when instruction `i` is reached. */
  function HeldBack(insns: seq<Insn>, i: nat): Option<Pending>
    requires i <= |insns|
  {
    if i > 0 && Defers(insns, i - 1) then Some(Hold(insns, i - 1)) else None
  }

  /** What is held back is consumed by the very next instruction and nothing is emitted late. */
  lemma ConsumedNext(insns: seq<Insn>, i: nat)
    requires i < |insns|
    ensures Emitted(HeldBack(insns, i), insns, i) == (CodeOf(insns, i), HeldBack(insns, i + 1))
  {
    hide Uses;
    var none: seq<Code> := [];
    assert none + [Plain] == [Plain];
    if i > 0 && Defers(insns, i - 1) {
      assert none + [FuseInto(insns[i], Hold(insns, i - 1))] == [FuseInto(insns[i], Hold(insns, i - 1))];
    }
  }

  /** Every held-back multiply is consumed by the very next instruction: none is emitted late, none
      is still waiting at the end. */
  method EmitFunction(insns: seq<Insn>) returns (code: seq<seq<Code>>)
    ensures |code| == |insns| && forall i :: 0 <= i < |insns| ==> code[i] == CodeOf(insns, i)
  {
    hide Uses, CodeOf, Defers;
    var e := new Emitter();
    e.EnterFunction(insns);
    NothingWaiting(insns);
    code := [];
    for i := 0 to |insns|
      invariant |code| == i && forall k :: 0 <= k < i ==> code[k] == CodeOf(insns, k)
      invariant e.pending == HeldBack(insns, i)
      invariant forall v :: Tally(e.uses, v) == Uses(insns, v)
    {
      ConsumedNext(insns, i);
      var c := e.Translate(insns, i);
      code := code + [c];
    }
    assert e.pending.None?;
  }

  lemma NothingWaiting(insns: seq<Insn>)
    ensures HeldBack(insns, 0).None? && HeldBack(insns, |insns|).None?
  {
  }

  // --- Meaning -------------------------------------------------------------

  /** Everything an opaque instruction touches besides values. */
  type World = int

  /** What the other instructions do: given their place, operands and world, a result, a new world
      and the next instruction; and the operations that are never fused. */
  datatype Env = Env(step: (nat, seq<real>, World) -> (real, World, nat), rest: (FOp, real, real) -> real)

  datatype State =
    | Run(pc: nat, vals: map<ValueId, real>, world: World)
    | Ended(vals: map<ValueId, real>, world: World)
    | Stuck

  function Arith(env: Env, i: Insn, x: real, y: real): real
    requires i.Bin?
  {
    if !i.isFloat then env.rest(i.op, x, y)
    else
      match i.op
      case Add => x + y
      case Sub => x - y
      case Mul => x * y
      case Rest(_) => env.rest(i.op, x, y)
  }

  function Operands(vals: map<ValueId, real>, ids: seq<ValueId>): (r: Option<seq<real>>)
    ensures r.Some? <==> forall k :: 0 <= k < |ids| ==> ids[k] in vals
    ensures r.Some? ==> |r.value| == |ids| && forall k :: 0 <= k < |ids| ==> r.value[k] == vals[ids[k]]
  {
    if forall k :: 0 <= k < |ids| ==> ids[k] in vals then
      Some(seq(|ids|, k requires 0 <= k < |ids| && ids[k] in vals => vals[ids[k]]))
    else None
  }

  /** One instruction's own code. */
  function ExecPlain(env: Env, i: Insn, s: State): State
    requires s.Run?
  {
    match i
    case Bin(dst, _, lhs, rhs, _) =>
      if lhs in s.vals && rhs in s.vals then
        Run(s.pc + 1, s.vals[dst := Arith(env, i, s.vals[lhs], s.vals[rhs])], s.world)
      else Stuck
    case Opaque(result, args) =>
      match Operands(s.vals, args)
      case None => Stuck
      case Some(xs) =>
        var (x, world, next) := env.step(s.pc, xs, s.world);
        Run(next, if result.Some? then s.vals[result.value := x] else s.vals, world)
  }

  function Step(env: Env, insns: seq<Insn>, s: State): State {
    if !s.Run? then s
    else if s.pc >= |insns| then Ended(s.vals, s.world)
    else ExecPlain(env, insns[s.pc], s)
  }

  function Fuse(form: Form, m1: real, m2: real, a: real): real {
    match form
    case Madd => a + m1 * m2
    case Msub => a - m1 * m2
    case Nmsub => m1 * m2 - a
  }

  /** One piece of code of instruction `pc`. */
  function ExecCode(env: Env, insns: seq<Insn>, c: Code, s: State): State
    requires s.Run? && s.pc < |insns|
  {
    match c
    case Plain => ExecPlain(env, insns[s.pc], s)
    case Multiply(product, m1, m2) =>
      if m1 in s.vals && m2 in s.vals then Run(s.pc, s.vals[product := s.vals[m1] * s.vals[m2]], s.world) else Stuck
    case Fused(form, dst, m1, m2, a) =>
      if m1 in s.vals && m2 in s.vals && a in s.vals then
        Run(s.pc + 1, s.vals[dst := Fuse(form, s.vals[m1], s.vals[m2], s.vals[a])], s.world)
      else Stuck
  }

  /** The emitted code of instruction `pc`: nothing, or one piece. */
  function FusedStep(env: Env, insns: seq<Insn>, s: State): State {
    if !s.Run? then s
    else if s.pc >= |insns| then Ended(s.vals, s.world)
    else
      var code := CodeOf(insns, s.pc);
      if code == [] then s.(pc := s.pc + 1) else ExecCode(env, insns, code[0], s)
  }

  function Steps(env: Env, insns: seq<Insn>, s: State, n: nat): State {
    if n == 0 then s else Step(env, insns, Steps(env, insns, s, n - 1))
  }

  function FusedSteps(env: Env, insns: seq<Insn>, s: State, n: nat): State {
    if n == 0 then s else FusedStep(env, insns, FusedSteps(env, insns, s, n - 1))
  }

  // --- Preservation --------------------------------------------------------

  /** `v` is the product of a held-back multiply. */
  ghost predicate Dead(insns: seq<Insn>, v: ValueId) {
    exists i :: 0 <= i < |insns| && Defers(insns, i) && insns[i].dst == v
  }

  /** Control only arrives at a binary operation from the instruction before it: jumps land on
      labels. */
  ghost predicate JumpsLand(env: Env, insns: seq<Insn>) {
    forall pc: nat, xs, w :: var next := env.step(pc, xs, w).2;
      next == pc + 1 || next >= |insns| || insns[next].Opaque?
  }

  /** Values agree but for dead products; between a held-back multiply and its consumer, the unfused
      run holds the product of the multiplicands. */
  ghost predicate Match(insns: seq<Insn>, s: State, t: State) {
    match s
    case Run(pc, vals, world) =>
      && t.Run? && t.pc == pc && t.world == world && Agree(insns, vals, t.vals)
      && (0 < pc <= |insns| && Defers(insns, pc - 1) ==> Waiting(insns, pc - 1, vals))
    case Ended(vals, world) => t.Ended? && t.world == world && Agree(insns, vals, t.vals)
    case Stuck => false
  }

  ghost predicate Agree(insns: seq<Insn>, vals: map<ValueId, real>, other: map<ValueId, real>) {
    forall v :: v in vals && !Dead(insns, v) ==> v in other && other[v] == vals[v]
  }

  ghost predicate Waiting(insns: seq<Insn>, i: nat, vals: map<ValueId, real>)
    requires i < |insns| && insns[i].Bin?
  {
    insns[i].lhs in vals && insns[i].rhs in vals && insns[i].dst in vals
    && vals[insns[i].dst] == vals[insns[i].lhs] * vals[insns[i].rhs]
  }

  /** Instruction `i` reads `v`. */
  predicate ReadsValue(i: Insn, v: ValueId) {
    match i
    case Bin(_, _, lhs, rhs, _) => v == lhs || v == rhs
    case Opaque(_, args) => v in args
  }

  predicate Writes(i: Insn, v: ValueId) {
    match i
    case Bin(dst, _, _, _, _) => dst == v
    case Opaque(result, _) => result == Some(v)
  }

  lemma CountInPositive(s: seq<ValueId>, v: ValueId)
    requires v in s
    ensures CountIn(s, v) >= 1
  {
    if v in s[..|s| - 1] {
      CountInPositive(s[..|s| - 1], v);
    }
  }

  lemma MentionsReads(i: Insn, v: ValueId)
    ensures (if ReadsValue(i, v) then 1 else 0) + (if Writes(i, v) then 1 else 0) <= Mentions(i, v)
  {
    if i.Opaque? && v in i.args {
      CountInPositive(i.args, v);
    }
  }

  lemma {:induction false} CountPair(insns: seq<Insn>, n: nat, v: ValueId, i: nat, j: nat)
    requires i < j < n <= |insns|
    ensures Count(insns, n, v) >= Mentions(insns[i], v) + Mentions(insns[j], v)
  {
    if j < n - 1 {
      CountPair(insns, n - 1, v, i, j);
    } else {
      CountOne(insns, n - 1, v, i);
    }
  }

  lemma {:induction false} CountOne(insns: seq<Insn>, n: nat, v: ValueId, i: nat)
    requires i < n <= |insns|
    ensures Count(insns, n, v) >= Mentions(insns[i], v)
  {
    if i < n - 1 {
      CountOne(insns, n - 1, v, i);
    }
  }

  lemma {:induction false} CountThree(insns: seq<Insn>, n: nat, v: ValueId, i: nat, j: nat, k: nat)
    requires i < j < k < n <= |insns|
    ensures Count(insns, n, v) >= Mentions(insns[i], v) + Mentions(insns[j], v) + Mentions(insns[k], v)
  {
    if k < n - 1 {
      CountThree(insns, n - 1, v, i, j, k);
    } else {
      CountPair(insns, n - 1, v, i, j);
    }
  }

  /** A held-back product is written by its multiply alone, read by its consumer alone, and there
      by one operand only, whatever the rest of the stream looks like. */
  lemma ProductIsolated(insns: seq<Insn>, i: nat, j: nat)
    requires i < |insns| && Defers(insns, i) && j < |insns|
    ensures var p := insns[i].dst;
      && (ReadsValue(insns[j], p) ==> j == i + 1) && (Writes(insns[j], p) ==> j == i)
      && !(insns[i + 1].lhs == p && insns[i + 1].rhs == p)
  {
    var p := insns[i].dst;
    MentionsReads(insns[i], p);
    MentionsReads(insns[i + 1], p);
    MentionsReads(insns[j], p);
    CountPair(insns, |insns|, p, i, i + 1);
    assert Mentions(insns[i + 1], p) >= One(insns[i + 1].lhs, p) + One(insns[i + 1].rhs, p);
    hide Count, Mentions, CountIn, IsConsumer;
    if j < i {
      CountThree(insns, |insns|, p, j, i, i + 1);
    } else if j > i + 1 {
      CountThree(insns, |insns|, p, i, i + 1, j);
    }
  }

  lemma CountInNone(s: seq<ValueId>, v: ValueId)
    requires v !in s
    ensures CountIn(s, v) == 0
  {
    if s != [] {
      CountInNone(s[..|s| - 1], v);
    }
  }

  lemma MentionsNone(i: Insn, v: ValueId)
    requires !ReadsValue(i, v) && !Writes(i, v)
    ensures Mentions(i, v) == 0
  {
    if i.Opaque? {
      CountInNone(i.args, v);
    }
  }

  lemma {:induction false} CountTwo(insns: seq<Insn>, n: nat, v: ValueId, i: nat)
    requires n <= |insns| && i + 1 < |insns| && Mentions(insns[i], v) == Mentions(insns[i + 1], v) == 1
    requires forall j :: 0 <= j < |insns| && j != i && j != i + 1 ==> Mentions(insns[j], v) == 0
    ensures Count(insns, n, v) == (if n > i then 1 else 0) + if n > i + 1 then 1 else 0
  {
    hide Mentions;
    if n > 0 {
      CountTwo(insns, n - 1, v, i);
    }
  }

  /** Instruction `i` alone writes `v`, and the next one alone reads it, by one of its operands. */
  predicate Isolated(insns: seq<Insn>, i: nat, v: ValueId)
    requires i + 1 < |insns|
  {
    && insns[i + 1].Bin? && (insns[i + 1].lhs == v <==> insns[i + 1].rhs != v)
    && forall j :: 0 <= j < |insns| ==> (ReadsValue(insns[j], v) ==> j == i + 1) && (Writes(insns[j], v) ==> j == i)
  }

  /** A multiply is held back if and only if it is one of floats, its product is isolated, and what reads
      it is a float addition or subtraction. */
  lemma DefersExactly(insns: seq<Insn>, i: nat)
    requires i < |insns|
    ensures Defers(insns, i) <==>
      && insns[i].Bin? && insns[i].isFloat && insns[i].op == Mul && i + 1 < |insns|
      && Isolated(insns, i, insns[i].dst) && insns[i + 1].isFloat && insns[i + 1].op in [Add, Sub]
  {
    if Defers(insns, i) {
      forall j | 0 <= j < |insns|
        ensures ReadsValue(insns[j], insns[i].dst) ==> j == i + 1
        ensures Writes(insns[j], insns[i].dst) ==> j == i
      {
        ProductIsolated(insns, i, j);
      }
      ProductIsolated(insns, i, i);
    } else if insns[i].Bin? && i + 1 < |insns| && Isolated(insns, i, insns[i].dst) {
      var v := insns[i].dst;
      assert !ReadsValue(insns[i], v) && !Writes(insns[i + 1], v);
      forall j | 0 <= j < |insns| && j != i && j != i + 1 ensures Mentions(insns[j], v) == 0 {
        MentionsNone(insns[j], v);
      }
      CountTwo(insns, |insns|, v, i);
    }
  }

  // --- Multiplies emitted late ---------------------------------------------

  /** Pieces of code of instruction `s.pc` one after the other. */
  function ExecAll(env: Env, insns: seq<Insn>, code: seq<Code>, s: State): State
    requires s.Run? && s.pc < |insns|
  {
    if code == [] then s
    else if |code| == 1 then ExecCode(env, insns, code[0], s)
    else
      match ExecCode(env, insns, code[0], s)
      case Run(pc, vals, world) =>
        if pc == s.pc then ExecAll(env, insns, code[1..], Run(pc, vals, world)) else Stuck
      case _ => Stuck
  }

  /** A waiting multiply that instruction `i` does not consume is computed in front of it, and `i` is held
      back itself or does what it does. */
  lemma LateComputes(env: Env, insns: seq<Insn>, p: Pending, s: State)
    requires s.Run? && s.pc < |insns| && p.m1 in s.vals && p.m2 in s.vals && !Fuses(Some(p), insns, s.pc)
    ensures var (code, next) := Emitted(Some(p), insns, s.pc);
      var x := s.vals[p.m1] * s.vals[p.m2];
      var t := Run(s.pc, s.vals[p.product := x], s.world);
      && (next.Some? <==> Defers(insns, s.pc))
      && ExecAll(env, insns, code, s) == if Defers(insns, s.pc) then t else Step(env, insns, t)
  {
    hide Defers, Fuses, FuseInto;
    var late := Multiply(p.product, p.m1, p.m2);
    var code := Emitted(Some(p), insns, s.pc).0;
    assert code == if Defers(insns, s.pc) then [late] else [late, Plain];
    var x := s.vals[p.m1] * s.vals[p.m2];
    var t := Run(s.pc, s.vals[p.product := x], s.world);
    assert ExecCode(env, insns, late, s).vals[p.product] == x;
    assert ExecCode(env, insns, late, s) == t;
    if !Defers(insns, s.pc) {
      assert code[1..] == [Plain];
      assert ExecAll(env, insns, code[1..], t) == ExecCode(env, insns, Plain, t);
    }
  }

  /** With nothing waiting, `i` is held back or does what it does. */
  lemma PlainComputes(env: Env, insns: seq<Insn>, s: State)
    requires s.Run? && s.pc < |insns|
    ensures var (code, next) := Emitted(None, insns, s.pc);
      && (next.Some? <==> Defers(insns, s.pc))
      && ExecAll(env, insns, code, s) == if Defers(insns, s.pc) then s else Step(env, insns, s)
  {
    hide Defers;
    assert Emitted(None, insns, s.pc).0 == if Defers(insns, s.pc) then [] else [Plain];
  }

  /** An operand of an instruction that consumes no held-back product is alive. */
  lemma ReadsAlive(insns: seq<Insn>, j: nat, v: ValueId)
    requires j < |insns| && ReadsValue(insns[j], v)
    requires j > 0 && Defers(insns, j - 1) ==> v != insns[j - 1].dst
    ensures !Dead(insns, v)
  {
    hide Uses, IsConsumer;
    if Dead(insns, v) {
      var i :| 0 <= i < |insns| && Defers(insns, i) && insns[i].dst == v;
      Held(insns, i);
      ProductIsolated(insns, i, j);
    }
  }

  lemma Held(insns: seq<Insn>, i: nat)
    requires i < |insns| && Defers(insns, i)
    ensures insns[i].Bin? && insns[i].op == Mul && insns[i].isFloat
    ensures i + 1 < |insns| && IsConsumer(insns[i + 1], insns[i].dst) && !Defers(insns, i + 1)
    ensures i > 0 ==> !Defers(insns, i - 1)
  {
    hide Uses;
  }

  lemma DeferStep(env: Env, insns: seq<Insn>, s: State, t: State)
    requires Match(insns, s, t) && s.Run? && s.pc < |insns| && Defers(insns, s.pc) && Step(env, insns, s) != Stuck
    ensures Match(insns, Step(env, insns, s), FusedStep(env, insns, t))
  {
    var m := insns[s.pc];
    Held(insns, s.pc);
    ProductIsolated(insns, s.pc, s.pc);
    assert Dead(insns, m.dst);
    hide Defers;
  }

  /** The fused instruction computes what the multiply and its consumer did, whichever operand the
      product is. */
  lemma FuseStep(env: Env, insns: seq<Insn>, s: State, t: State)
    requires Match(insns, s, t) && s.Run? && 0 < s.pc < |insns| && Defers(insns, s.pc - 1)
    requires Step(env, insns, s) != Stuck
    ensures Match(insns, Step(env, insns, s), FusedStep(env, insns, t))
  {
    var c, m := insns[s.pc], insns[s.pc - 1];
    Held(insns, s.pc - 1);
    ProductIsolated(insns, s.pc - 1, s.pc - 1);
    ReadsAlive(insns, s.pc - 1, m.lhs);
    ReadsAlive(insns, s.pc - 1, m.rhs);
    var addend := if c.rhs == m.dst then c.lhs else c.rhs;
    ReadsAlive(insns, s.pc, addend);
    hide Defers, Dead, ReadsValue, Writes;
  }

  lemma PlainStep(env: Env, insns: seq<Insn>, s: State, t: State)
    requires JumpsLand(env, insns) && Match(insns, s, t) && s.Run? && s.pc < |insns| && Step(env, insns, s) != Stuck
    requires !Defers(insns, s.pc) && (s.pc > 0 ==> !Defers(insns, s.pc - 1))
    ensures Match(insns, Step(env, insns, s), FusedStep(env, insns, t))
  {
    var i := insns[s.pc];
    forall v | ReadsValue(i, v) ensures !Dead(insns, v) {
      ReadsAlive(insns, s.pc, v);
    }
    var next := Step(env, insns, s).pc;
    if 0 < next <= |insns| && Defers(insns, next - 1) {
      Held(insns, next - 1);
    }
    hide Defers, Dead, Uses;
    if i.Opaque? {
      SameOperands(insns, s.vals, t.vals, i.args);
    }
  }

  lemma SameOperands(insns: seq<Insn>, vals: map<ValueId, real>, other: map<ValueId, real>, ids: seq<ValueId>)
    requires Agree(insns, vals, other) && Operands(vals, ids).Some?
    requires forall v :: v in ids ==> !Dead(insns, v)
    ensures Operands(other, ids) == Operands(vals, ids)
  {
    hide Dead;
    forall k | 0 <= k < |ids| ensures ids[k] in other && other[ids[k]] == vals[ids[k]] {
      assert ids[k] in ids;
    }
    assert Operands(other, ids).value == Operands(vals, ids).value;
  }

  /** The fused program goes through the same places, with the same world, and ends with the same
      values but for the products that nothing else reads. */
  lemma {:induction false} FusionPreserves(env: Env, insns: seq<Insn>, world: World, n: nat)
    requires JumpsLand(env, insns) && Steps(env, insns, Run(0, map[], world), n) != Stuck
    ensures Match(insns, Steps(env, insns, Run(0, map[], world), n), FusedSteps(env, insns, Run(0, map[], world), n))
  {
    hide JumpsLand, Match, Step, FusedStep, Defers;
    if n == 0 {
      StartsAlike(insns, world);
    } else {
      var s, t := Steps(env, insns, Run(0, map[], world), n - 1), FusedSteps(env, insns, Run(0, map[], world), n - 1);
      StuckStays(env, insns, s);
      FusionPreserves(env, insns, world, n - 1);
      if !s.Run? || s.pc >= |insns| {
        EndStep(env, insns, s, t);
      } else if Defers(insns, s.pc) {
        DeferStep(env, insns, s, t);
      } else if s.pc > 0 && Defers(insns, s.pc - 1) {
        FuseStep(env, insns, s, t);
      } else {
        PlainStep(env, insns, s, t);
      }
    }
  }

  lemma StartsAlike(insns: seq<Insn>, world: World)
    ensures Match(insns, Run(0, map[], world), Run(0, map[], world))
  {
  }

  lemma StuckStays(env: Env, insns: seq<Insn>, s: State)
    ensures s == Stuck ==> Step(env, insns, s) == Stuck
  {
  }

  lemma EndStep(env: Env, insns: seq<Insn>, s: State, t: State)
    requires Match(insns, s, t) && (!s.Run? || s.pc >= |insns|)
    ensures Match(insns, Step(env, insns, s), FusedStep(env, insns, t))
  {
  }
}
