/** Cranelift IR as the CLIF backend builds it: basic blocks of instructions over SSA values and
    builder variables, with its well-formedness rule and its meaning. */
module Clif {
  import opened Wrappers
  import Sir

  type Val = Sir.Val
  type Heap = Sir.Heap
  type BlockId = nat
  type Value = nat
  type Variable = nat

  datatype Inst =
    | IConst(v: Value, literal: int)
    | UseVar(v: Value, variable: Variable)
    | DefVar(variable: Variable, v: Value)
    | Binary(v: Value, op: nat, lhs: Value, rhs: Value)
    | Unary(v: Value, op: nat, rhs: Value)
    | CallFn(v: Value, fn: Sir.Symbol, args: seq<Value>)
    | StackStore(v: Value, slot: nat, offset: nat)
    | StackAddr(v: Value, slot: nat)
    | MemLoad(v: Value, base: Value, offset: nat)
    | MemStore(v: Value, base: Value, offset: nat)
    | CallExit(code: Value)
    | JumpTo(target: BlockId)
    | Brif(cond: Value, whenTrue: BlockId, whenFalse: BlockId)
    | Ret(results: seq<Value>)
    | Trap

  predicate IsTerminator(i: Inst) {
    i.JumpTo? || i.Brif? || i.Ret? || i.Trap?
  }

  /** No terminator yet: the builder may still append. */
  predicate Open(b: seq<Inst>) {
    forall i :: 0 <= i < |b| ==> !IsTerminator(b[i])
  }

  /** Exactly one terminator, at the end. */
  predicate Closed(b: seq<Inst>) {
    b != [] && IsTerminator(b[|b| - 1]) && Open(b[..|b| - 1])
  }

  /** A function body: block 0 is the entry; parameter `i` seeds variable `i`; stack slot `k` has
      `slots[k]` cells. */
  datatype Function = Function(params: nat, slots: seq<nat>, blocks: seq<seq<Inst>>)

  type Program = map<Sir.Symbol, Function>

  /** `slots` says which block of the heap holds each stack slot in use. */
  datatype Frame = Frame(fn: Sir.Symbol, block: BlockId, index: nat, vals: map<Value, Val>, vars: map<Variable, Val>,
                         slots: map<nat, nat>)

  /** Blocks of the heap are named in the order in which they are first used. Those that held the
      slots of a returned activation are dead: reading or writing them is undefined. */
  datatype State =
    | Run(frames: seq<Frame>, heap: Heap, dead: set<nat>)
    | Done(value: Val, heap: Heap, dead: set<nat>)
    | Exited(code: Val)
    | Stuck

  function Enter(fn: Sir.Symbol, args: seq<Val>): Frame {
    Frame(fn, 0, 0, map[], map i | 0 <= i < |args| :: args[i], map[])
  }

  /** The frame and heap with the slot, of `n` cells, in use. */
  function Touch(n: nat, slot: nat, f: Frame, heap: Heap): (r: (Frame, Heap))
    ensures slot in r.0.slots
  {
    if slot in f.slots then (f, heap)
    else (f.(slots := f.slots[slot := |heap|]), heap + [seq(n, _ => Sir.Unit)])
  }

  function SetVal(f: Frame, v: Value, x: Val): Frame {
    f.(vals := f.vals[v := x])
  }

  predicate Usable(heap: Heap, dead: set<nat>, v: Val, offset: nat) {
    Sir.IsCell(heap, v, offset) && v.addr !in dead
  }

  /** One instruction that stays in its block. */
  function Plain(ops: Sir.Ops, sizes: seq<nat>, dead: set<nat>, i: Inst, f: Frame, heap: Heap): Option<(Frame, Heap)> {
    match i
    case IConst(v, c) => Some((SetVal(f, v, Sir.Prim(c)), heap))
    case UseVar(v, x) => if x in f.vars then Some((SetVal(f, v, f.vars[x]), heap)) else None
    case DefVar(x, v) => if v in f.vals then Some((f.(vars := f.vars[x := f.vals[v]]), heap)) else None
    case Binary(v, op, a, b) =>
      if a in f.vals && b in f.vals then Some((SetVal(f, v, ops.bin(op, f.vals[a], f.vals[b])), heap)) else None
    case Unary(v, op, a) => if a in f.vals then Some((SetVal(f, v, ops.un(op, f.vals[a])), heap)) else None
    case StackStore(v, slot, offset) =>
      if v in f.vals && slot < |sizes| then
        var (g, h) := Touch(sizes[slot], slot, f, heap);
        var a := g.slots[slot];
        if a < |h| && offset < |h[a]| then Some((g, h[a := h[a][offset := f.vals[v]]])) else None
      else None
    case StackAddr(v, slot) =>
      if slot < |sizes| then
        var (g, h) := Touch(sizes[slot], slot, f, heap);
        Some((SetVal(g, v, Sir.Ref(g.slots[slot])), h))
      else None
    case MemLoad(v, base, offset) =>
      if base in f.vals && Usable(heap, dead, f.vals[base], offset) then
        Some((SetVal(f, v, heap[f.vals[base].addr][offset]), heap))
      else None
    case MemStore(v, base, offset) =>
      if v in f.vals && base in f.vals && Usable(heap, dead, f.vals[base], offset) then
        var a := f.vals[base].addr;
        Some((f, heap[a := heap[a][offset := f.vals[v]]]))
      else None
    case _ => None
  }

  /** A call that returns nothing hands the caller the unit sentinel. */
  function Resume(q: Program, callers: seq<Frame>, value: Val, heap: Heap, dead: set<nat>): State {
    if callers == [] then Done(value, heap, dead)
    else
      var f := callers[0];
      if f.fn in q && f.block < |q[f.fn].blocks| && f.index < |q[f.fn].blocks[f.block]| &&
        q[f.fn].blocks[f.block][f.index].CallFn?
      then
        var v := q[f.fn].blocks[f.block][f.index].v;
        Run([SetVal(f, v, value).(index := f.index + 1)] + callers[1..], heap, dead)
      else Stuck
  }

  function Step(q: Program, ops: Sir.Ops, s: State): State {
    if !s.Run? then s
    else if s.frames == [] || s.frames[0].fn !in q then Stuck
    else
      var f, callers := s.frames[0], s.frames[1..];
      var blocks := q[f.fn].blocks;
      if f.block >= |blocks| || f.index >= |blocks[f.block]| then Stuck
      else
        match blocks[f.block][f.index]
        case JumpTo(b) => Run([f.(block := b, index := 0)] + callers, s.heap, s.dead)
        case Brif(c, b1, b2) =>
          if c !in f.vals then Stuck
          else Run([f.(block := if ops.truthy(f.vals[c]) then b1 else b2, index := 0)] + callers, s.heap, s.dead)
        case Ret(results) =>
          var dead := s.dead + f.slots.Values;
          if results == [] then Resume(q, callers, Sir.Unit, s.heap, dead)
          else if results[0] in f.vals then Resume(q, callers, f.vals[results[0]], s.heap, dead)
          else Stuck
        case CallFn(_, fn, args) =>
          var vs := Sir.Operands(f.vals, args);
          if vs.Some? && fn in q && q[fn].params == |args| then
            Run([Enter(fn, vs.value), f] + callers, s.heap, s.dead)
          else Stuck
        case CallExit(v) => if v in f.vals then Exited(f.vals[v]) else Stuck
        case i =>
          match Plain(ops, q[f.fn].slots, s.dead, i, f, s.heap)
          case None => Stuck
          case Some((g, h)) => Run([g.(index := f.index + 1)] + callers, h, s.dead)
  }

  function Steps(q: Program, ops: Sir.Ops, s: State, n: nat): State {
    if n == 0 then s else Step(q, ops, Steps(q, ops, s, n - 1))
  }

  function Start(q: Program, fn: Sir.Symbol, args: seq<Val>, heap: Heap): State {
    if fn in q && q[fn].params == |args| then Run([Enter(fn, args)], heap, {}) else Stuck
  }

  lemma StepsAdd(q: Program, ops: Sir.Ops, s: State, m: nat, n: nat)
    ensures Steps(q, ops, s, m + n) == Steps(q, ops, Steps(q, ops, s, m), n)
  {
    hide Step;
    if n > 0 {
      StepsAdd(q, ops, s, m, n - 1);
      assert m + n - 1 == m + (n - 1);
    }
  }

  lemma StaysEnded(q: Program, ops: Sir.Ops, s: State, n: nat)
    requires !s.Run?
    ensures Steps(q, ops, s, n) == s
  {
    if n > 0 {
      StaysEnded(q, ops, s, n - 1);
    }
  }
}
