/** The compiler's intermediate representation: label/jump code over SSA values and named
    locals, with a small-step semantics shared by every backend model. Operators are
    uninterpreted; aggregates live in a heap and are passed by reference. */
module Sir {
  import opened Wrappers

  type ValueId = nat
  type Symbol = nat
  type LabelId = nat

  datatype Val = Unit | Prim(id: int) | Ref(addr: nat)

  datatype Source = Param(index: nat) | Local(sym: Symbol)

  datatype Insn =
    | Const(dst: ValueId, literal: int)
    | Load(dst: ValueId, src: Source)
    | Store(name: Symbol, value: ValueId)
    | BinOp(dst: ValueId, op: nat, lhs: ValueId, rhs: ValueId)
    | UnOp(dst: ValueId, op: nat, rhs: ValueId)
    | Call(dst: ValueId, name: Symbol, args: seq<ValueId>)
    | TupleIndex(dst: ValueId, tuple: ValueId, index: nat)
    | FieldStore(base: ValueId, index: nat, value: ValueId)
    | Construct(dst: ValueId, tag: Option<int>, fields: seq<ValueId>)
    | Label(id: LabelId)
    | Jump(target: LabelId)
    | BranchIfNot(cond: ValueId, target: LabelId)
    | Return(result: Option<ValueId>)
    | VarDef(name: Symbol, init: Option<ValueId>)
    | ArrayPush(arr: ValueId, value: ValueId, owner: Option<Symbol>)
    | Nop
    | Other

  datatype Function = Function(params: seq<Symbol>, body: seq<Insn>)

  type Program = map<Symbol, Function>

  /** The value operators every backend is trusted to agree on. */
  datatype Ops = Ops(bin: (nat, Val, Val) -> Val, un: (nat, Val) -> Val, truthy: Val -> bool)

  /** Operators give primitive values, never an aggregate. */
  ghost predicate PrimOps(ops: Ops) {
    (forall op, x, y :: !ops.bin(op, x, y).Ref?) && (forall op, x :: !ops.un(op, x).Ref?)
  }

  predicate Alike(x: Val, y: Val) {
    x == y || (x.Ref? && y.Ref?)
  }

  /** Operators see of two aggregates only whether they are the same one, of one aggregate nothing, and
      give none. */
  ghost predicate Blind(ops: Ops) {
    && PrimOps(ops)
    && (forall op, x, y, x', y' :: Alike(x, x') && Alike(y, y') && (x == y <==> x' == y') ==>
      ops.bin(op, x, y) == ops.bin(op, x', y'))
    && (forall op, x, x' :: Alike(x, x') ==> ops.un(op, x) == ops.un(op, x'))
    && (forall x, x' :: Alike(x, x') ==> ops.truthy(x) == ops.truthy(x'))
  }

  type Heap = seq<seq<Val>>

  predicate Exists(v: Val, n: nat) {
    v.Ref? ==> v.addr < n
  }

  /** The arguments and the heap of a call hold no dangling reference. */
  ghost predicate Whole(args: seq<Val>, heap: Heap) {
    && (forall v :: v in args ==> Exists(v, |heap|))
    && (forall x, v :: 0 <= x < |heap| && v in heap[x] ==> Exists(v, |heap|))
  }

  /** `pc` points at the next instruction, or at the pending call of a suspended frame. */
  datatype Frame = Frame(fn: Symbol, pc: nat, vals: map<ValueId, Val>, locals: map<Symbol, Val>)

  /** `frames[0]` is the running frame. */
  datatype State = Run(frames: seq<Frame>, heap: Heap) | Done(value: Val, heap: Heap) | Fault

  predicate UniqueLabels(body: seq<Insn>) {
    forall i, j :: 0 <= i < j < |body| && body[i].Label? && body[j].Label? ==> body[i].id != body[j].id
  }

  predicate Distinct(names: seq<Symbol>) {
    forall i, j :: 0 <= i < j < |names| ==> names[i] != names[j]
  }

  /** Index of the label `id`, the first one if there were several. */
  function LabelIndex(body: seq<Insn>, id: LabelId): (r: Option<nat>)
    ensures r.Some? ==> r.value < |body| && body[r.value] == Label(id)
    ensures r.None? ==> Label(id) !in body
  {
    if body == [] then None
    else if body[0] == Label(id) then Some(0)
    else
      match LabelIndex(body[1..], id)
      case None => None
      case Some(i) => Some(i + 1)
  }

  /** Not stepped over in place. */
  predicate Control(i: Insn) {
    i.Jump? || i.BranchIfNot? || i.Return? || i.Call?
  }

  /** Control can pass from instruction `i` to instruction `j` of the same activation. */
  predicate Successor(body: seq<Insn>, i: nat, j: nat)
    requires i < |body|
  {
    match body[i]
    case Jump(target) => LabelIndex(body, target) == Some(j)
    case BranchIfNot(_, target) => j == i + 1 || LabelIndex(body, target) == Some(j)
    case Return(_) => false
    case _ => j == i + 1
  }

  /** The value an instruction computes. */
  function Defines(i: Insn): Option<ValueId> {
    match i
    case Const(dst, _) => Some(dst)
    case Load(dst, _) => Some(dst)
    case BinOp(dst, _, _, _) => Some(dst)
    case UnOp(dst, _, _) => Some(dst)
    case Call(dst, _, _) => Some(dst)
    case TupleIndex(dst, _, _) => Some(dst)
    case Construct(dst, _, _) => Some(dst)
    case _ => None
  }

  /** Value `v` is defined by one of the first `i` instructions. */
  ghost predicate Defined(body: seq<Insn>, i: nat, v: ValueId)
    requires i <= |body|
  {
    exists j :: 0 <= j < i && Defines(body[j]) == Some(v)
  }

  ghost predicate SingleDefs(body: seq<Insn>) {
    forall i, j :: 0 <= i < j < |body| && Defines(body[i]).Some? ==> Defines(body[i]) != Defines(body[j])
  }

  function Lookup<K, V>(m: map<K, V>, k: K): Option<V> {
    if k in m then Some(m[k]) else None
  }

  /** All operands, or None if one has not been computed. */
  function Operands(vals: map<ValueId, Val>, ids: seq<ValueId>): (r: Option<seq<Val>>)
    ensures r.Some? <==> forall i :: 0 <= i < |ids| ==> ids[i] in vals
    ensures r.Some? ==> |r.value| == |ids| && forall i :: 0 <= i < |ids| ==> r.value[i] == vals[ids[i]]
  {
    if forall i :: 0 <= i < |ids| ==> ids[i] in vals then
      Some(seq(|ids|, i requires 0 <= i < |ids| && ids[i] in vals => vals[ids[i]]))
    else None
  }

  /** The local a load reads: a parameter shares the cell of its name. */
  function SourceName(params: seq<Symbol>, src: Source): Option<Symbol> {
    match src
    case Local(s) => Some(s)
    case Param(i) => if i < |params| then Some(params[i]) else None
  }

  /** The effect of a straight-line instruction on a frame and the heap; None is a fault. */
  function Straight(ops: Ops, params: seq<Symbol>, i: Insn, f: Frame, heap: Heap): Option<(Frame, Heap)> {
    match i
    case Const(dst, literal) => Some((SetVal(f, dst, Prim(literal)), heap))
    case Load(dst, src) =>
      var name := SourceName(params, src);
      if name.Some? && name.value in f.locals then Some((SetVal(f, dst, f.locals[name.value]), heap)) else None
    case Store(name, value) =>
      if value in f.vals then Some((f.(locals := f.locals[name := f.vals[value]]), heap)) else None
    case BinOp(dst, op, lhs, rhs) =>
      if lhs in f.vals && rhs in f.vals then
        Some((SetVal(f, dst, ops.bin(op, f.vals[lhs], f.vals[rhs])), heap))
      else None
    case UnOp(dst, op, rhs) =>
      if rhs in f.vals then Some((SetVal(f, dst, ops.un(op, f.vals[rhs])), heap)) else None
    case TupleIndex(dst, tuple, index) =>
      if tuple in f.vals && IsCell(heap, f.vals[tuple], index) then
        Some((SetVal(f, dst, heap[f.vals[tuple].addr][index]), heap))
      else None
    case FieldStore(base, index, value) =>
      if base in f.vals && value in f.vals && IsCell(heap, f.vals[base], index) then
        var a := f.vals[base].addr;
        Some((f, heap[a := heap[a][index := f.vals[value]]]))
      else None
    case Construct(dst, tag, fields) =>
      var vs := Operands(f.vals, fields);
      if vs.Some? then Some((SetVal(f, dst, Ref(|heap|)), heap + [Block(tag, vs.value)])) else None
    case ArrayPush(arr, value, _) =>
      if arr in f.vals && value in f.vals && f.vals[arr].Ref? && f.vals[arr].addr < |heap| then
        var a := f.vals[arr].addr;
        Some((f, heap[a := heap[a] + [f.vals[value]]]))
      else None
    case Label(_) => Some((f, heap))
    case VarDef(_, init) => if init.Some? && init.value !in f.vals then None else Some((f, heap))
    case Nop => Some((f, heap))
    case _ => None
  }

  function SetVal(f: Frame, dst: ValueId, v: Val): Frame {
    f.(vals := f.vals[dst := v])
  }

  predicate IsCell(heap: Heap, v: Val, index: nat) {
    v.Ref? && v.addr < |heap| && index < |heap[v.addr]|
  }

  /** An aggregate's cells: an enum puts its variant number first. */
  function Block(tag: Option<int>, fields: seq<Val>): seq<Val> {
    (if tag.Some? then [Prim(tag.value)] else []) + fields
  }

  function Enter(fn: Symbol, params: seq<Symbol>, args: seq<Val>): Frame
    requires |params| == |args|
  {
    Frame(fn, 0, map[], BindParams(params, args))
  }

  function BindParams(params: seq<Symbol>, args: seq<Val>): (m: map<Symbol, Val>)
    requires |params| == |args|
    ensures m.Keys == set s | s in params
    ensures Distinct(params) ==> forall i :: 0 <= i < |params| ==> m[params[i]] == args[i]
  {
    if params == [] then map[]
    else
      var n := |params| - 1;
      BindParams(params[..n], args[..n])[params[n] := args[n]]
  }

  /** Hands `value` to the caller's pending call, or finishes the run. */
  function Resume(p: Program, callers: seq<Frame>, value: Val, heap: Heap): State {
    if callers == [] then Done(value, heap)
    else
      var f := callers[0];
      if f.fn in p && f.pc < |p[f.fn].body| && p[f.fn].body[f.pc].Call? then
        Run([SetVal(f, p[f.fn].body[f.pc].dst, value).(pc := f.pc + 1)] + callers[1..], heap)
      else Fault
  }

  function Step(p: Program, ops: Ops, s: State): State {
    if !s.Run? then s
    else if s.frames == [] || s.frames[0].fn !in p then Fault
    else
      var f, callers := s.frames[0], s.frames[1..];
      var body := p[f.fn].body;
      if f.pc >= |body| then Fault
      else
        match body[f.pc]
        case Jump(target) => GoTo(s, LabelIndex(body, target))
        case BranchIfNot(cond, target) =>
          if cond !in f.vals then Fault
          else if ops.truthy(f.vals[cond]) then Run([f.(pc := f.pc + 1)] + callers, s.heap)
          else GoTo(s, LabelIndex(body, target))
        case Return(result) =>
          if result.None? then Resume(p, callers, Unit, s.heap)
          else if result.value in f.vals then Resume(p, callers, f.vals[result.value], s.heap)
          else Fault
        case Call(_, name, args) =>
          var vs := Operands(f.vals, args);
          if vs.Some? && name in p && |p[name].params| == |vs.value| then
            Run([Enter(name, p[name].params, vs.value), f] + callers, s.heap)
          else Fault
        case i =>
          match Straight(ops, p[f.fn].params, i, f, s.heap)
          case None => Fault
          case Some((f', heap')) => Run([f'.(pc := f.pc + 1)] + callers, heap')
  }

  function GoTo(s: State, target: Option<nat>): State
    requires s.Run? && s.frames != []
  {
    if target.Some? then Run([s.frames[0].(pc := target.value)] + s.frames[1..], s.heap) else Fault
  }

  function Steps(p: Program, ops: Ops, s: State, n: nat): State {
    if n == 0 then s else Step(p, ops, Steps(p, ops, s, n - 1))
  }

  function Start(p: Program, fn: Symbol, args: seq<Val>, heap: Heap): State {
    if fn in p && |p[fn].params| == |args| then Run([Enter(fn, p[fn].params, args)], heap) else Fault
  }

  lemma StepsAdd(p: Program, ops: Ops, s: State, m: nat, n: nat)
    ensures Steps(p, ops, s, m + n) == Steps(p, ops, Steps(p, ops, s, m), n)
  {
    hide Step;
    if n > 0 {
      StepsAdd(p, ops, s, m, n - 1);
      assert m + n - 1 == m + (n - 1);
    }
  }

  /** Once finished or faulted, a run stays where it is. */
  lemma StaysEnded(p: Program, ops: Ops, s: State, n: nat)
    requires !s.Run?
    ensures Steps(p, ops, s, n) == s
  {
    if n > 0 {
      StaysEnded(p, ops, s, n - 1);
    }
  }

  lemma FaultStays(p: Program, ops: Ops, s: State)
    ensures s == Fault ==> Step(p, ops, s) == Fault
  {
  }

  lemma {:induction false} FaultEarlier(p: Program, ops: Ops, s: State, k: nat, n: nat)
    requires k <= n && Steps(p, ops, s, n) != Fault
    ensures Steps(p, ops, s, k) != Fault
  {
    hide Step;
    if k < n {
      FaultStays(p, ops, Steps(p, ops, s, n - 1));
      FaultEarlier(p, ops, s, k, n - 1);
    }
  }
}
