/** The fragment of JavaScript that the web backend emits: functions whose body is
    `var pc=0;for(;;){switch(pc){case 0: ... default:return;}}` over function-scoped variables. */
module Js {
  import opened Wrappers
  import Sir

  type Val = Sir.Val
  type Heap = Sir.Heap

  /** `v{n}`, `l{n}` and the parameters `a{n}`. */
  datatype Var = V(n: nat) | L(n: nat) | A(n: nat)

  datatype Stmt =
    | Case(block: nat)                                     // case k:
    | Default                                              // default:return;
    | SetConst(x: Var, literal: int)                       // var x=c;
    | Copy(x: Var, y: Var)                                 // var x=y;
    | SetBin(x: Var, op: nat, lhs: Var, rhs: Var)          // var x=(lhs op rhs);
    | SetUn(x: Var, op: nat, rhs: Var)                     // var x=(op rhs);
    | SetIndex(x: Var, arr: Var, index: nat)               // var x=arr[i];
    | PutIndex(arr: Var, index: nat, y: Var)               // arr[i]=y;
    | NewArray(x: Var, tag: Option<int>, elems: seq<Var>)  // var x=[tag,...];
    | CallFn(x: Var, fn: Sir.Symbol, args: seq<Var>)       // var x=f(...);
    | Goto(target: nat)                                    // pc=k;break;
    | IfNotGoto(cond: Var, target: nat)                    // if(!cond){pc=k;break;}
    | Ret(result: Option<Var>)                             // return v;  or  return;
    | Empty

  datatype Function = Function(params: nat, body: seq<Stmt>)

  type Program = map<Sir.Symbol, Function>

  /** `at` is the next statement, or None when control is about to enter the switch. */
  datatype Frame = Frame(fn: Sir.Symbol, at: Option<nat>, pc: nat, vars: map<Var, Val>)

  datatype State = Run(frames: seq<Frame>, heap: Heap) | Done(value: Val, heap: Heap) | Throw

  /** `undefined` plays the part of the unit value; every local is declared up front. */
  function Read(f: Frame, x: Var): Val {
    if x in f.vars then f.vars[x] else Sir.Unit
  }

  function ReadAll(f: Frame, xs: seq<Var>): seq<Val> {
    seq(|xs|, i requires 0 <= i < |xs| => Read(f, xs[i]))
  }

  function Write(f: Frame, x: Var, v: Val): Frame {
    f.(vars := f.vars[x := v])
  }

  /** Where the switch jumps for `pc == k`: the first matching case, else the default. */
  function FindCase(body: seq<Stmt>, k: nat): (i: nat)
    ensures i <= |body|
  {
    if body == [] || body[0] == Case(k) then 0 else 1 + FindCase(body[1..], k)
  }

  function Enter(fn: Sir.Symbol, params: nat, args: seq<Val>): Frame {
    Frame(fn, None, 0, map i | 0 <= i < params && i < |args| :: A(i) := args[i])
  }

  /** One plain statement; None is an exception. */
  function Plain(ops: Sir.Ops, s: Stmt, f: Frame, heap: Heap): Option<(Frame, Heap)> {
    match s
    case SetConst(x, c) => Some((Write(f, x, Sir.Prim(c)), heap))
    case Copy(x, y) => Some((Write(f, x, Read(f, y)), heap))
    case SetBin(x, op, a, b) => Some((Write(f, x, ops.bin(op, Read(f, a), Read(f, b))), heap))
    case SetUn(x, op, b) => Some((Write(f, x, ops.un(op, Read(f, b))), heap))
    case SetIndex(x, arr, i) =>
      var v := Read(f, arr);
      if v.Ref? && v.addr < |heap| then
        Some((Write(f, x, if i < |heap[v.addr]| then heap[v.addr][i] else Sir.Unit), heap))
      else None
    case PutIndex(arr, i, y) =>
      var v := Read(f, arr);
      if v.Ref? && v.addr < |heap| then Some((f, heap[v.addr := Put(heap[v.addr], i, Read(f, y))])) else None
    case NewArray(x, tag, elems) =>
      Some((Write(f, x, Sir.Ref(|heap|)), heap + [Sir.Block(tag, ReadAll(f, elems))]))
    case Case(_) => Some((f, heap))
    case Empty => Some((f, heap))
    case _ => None
  }

  /** Assignment past the end of an array extends it. */
  function Put(a: seq<Val>, i: nat, v: Val): seq<Val> {
    if i < |a| then a[i := v] else a + seq(i - |a|, _ => Sir.Unit) + [v]
  }

  function Resume(q: Program, callers: seq<Frame>, value: Val, heap: Heap): State {
    if callers == [] then Done(value, heap)
    else
      var f := callers[0];
      if f.fn in q && f.at.Some? && f.at.value < |q[f.fn].body| && q[f.fn].body[f.at.value].CallFn? then
        Run([Write(f, q[f.fn].body[f.at.value].x, value).(at := Some(f.at.value + 1))] + callers[1..], heap)
      else Throw
  }

  function Step(q: Program, ops: Sir.Ops, s: State): State {
    if !s.Run? then s
    else if s.frames == [] || s.frames[0].fn !in q then Throw
    else
      var f, callers := s.frames[0], s.frames[1..];
      var body := q[f.fn].body;
      if f.at.None? then Run([f.(at := Some(FindCase(body, f.pc)))] + callers, s.heap)
      else if f.at.value >= |body| then Resume(q, callers, Sir.Unit, s.heap)
      else
        var next := f.(at := Some(f.at.value + 1));
        match body[f.at.value]
        case Default => Resume(q, callers, Sir.Unit, s.heap)
        case Goto(k) => Run([f.(pc := k, at := None)] + callers, s.heap)
        case IfNotGoto(c, k) =>
          Run([if ops.truthy(Read(f, c)) then next else f.(pc := k, at := None)] + callers, s.heap)
        case Ret(r) => Resume(q, callers, if r.Some? then Read(f, r.value) else Sir.Unit, s.heap)
        case CallFn(_, fn, args) =>
          if fn in q then Run([Enter(fn, q[fn].params, ReadAll(f, args)), f] + callers, s.heap) else Throw
        case i =>
          match Plain(ops, i, f, s.heap)
          case None => Throw
          case Some((f', heap')) => Run([f'.(at := next.at)] + callers, heap')
  }

  function Steps(q: Program, ops: Sir.Ops, s: State, n: nat): State {
    if n == 0 then s else Step(q, ops, Steps(q, ops, s, n - 1))
  }

  function Start(q: Program, fn: Sir.Symbol, args: seq<Val>, heap: Heap): State {
    if fn in q then Run([Enter(fn, q[fn].params, args)], heap) else Throw
  }

  lemma StepsAdd(q: Program, ops: Sir.Ops, s: State, m: nat, n: nat)
    ensures Steps(q, ops, s, m + n) == Steps(q, ops, Steps(q, ops, s, m), n)
  {
    hide Step;
    if n > 0 {
      StepsAdd(q, ops, s, m, n - 1);
      assert m + n - 1 == m + (n - 1);
    }
  }

  lemma StaysEnded(q: Program, ops: Sir.Ops, s: State, n: nat)
    requires !s.Run?
    ensures Steps(q, ops, s, n) == s
  {
    if n > 0 {
      StaysEnded(q, ops, s, n - 1);
    }
  }
}
