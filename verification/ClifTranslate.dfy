/** Translation of a function body to Cranelift blocks: one block per label, a fresh block after
    every terminator, and a clean-up that gives every leftover block a terminator. */
module ClifTranslate {
  import opened Wrappers
  import opened Clif
  import Sir

  /** The builder and the per-function maps the translation threads through. */
  datatype Ctx = Ctx(
    blocks: seq<seq<Inst>>,
    current: BlockId,
    values: map<Sir.ValueId, Value>,
    labels: map<Sir.LabelId, BlockId>,
    vars: map<Sir.Symbol, Variable>,
    params: seq<Variable>,
    terminated: bool,
    nextValue: Value,
    nextVar: Variable,
    slots: seq<nat>)

  datatype Outcome = Go(c: Ctx) | Bail(c: Ctx)

  predicate Valid(c: Ctx) {
    && c.current < |c.blocks|
    && forall id :: id in c.labels ==> c.labels[id] < |c.blocks|
  }

  // --- Builder steps -------------------------------------------------------

  function Ins(c: Ctx, i: Inst): Ctx
    requires c.current < |c.blocks|
  {
    c.(blocks := c.blocks[c.current := c.blocks[c.current] + [i]])
  }

  /** Appends an instruction that defines the next SSA value, recorded for `dst`. */
  function Define(c: Ctx, dst: Sir.ValueId, i: Inst): Ctx
    requires c.current < |c.blocks|
  {
    Ins(c, i).(values := c.values[dst := c.nextValue], nextValue := c.nextValue + 1)
  }

  /** A new empty block; the builder moves to it when `switch` is set. */
  function NewBlock(c: Ctx, switch: bool): Ctx {
    c.(blocks := c.blocks + [[]], current := if switch then |c.blocks| else c.current)
  }

  /** The block of a label, created on first use. */
  function WithLabel(c: Ctx, id: Sir.LabelId): Ctx {
    if id in c.labels then c else NewBlock(c, false).(labels := c.labels[id := |c.blocks|])
  }

  /** `exit(1)` followed by a trap. */
  function ExitOne(c: Ctx): Ctx
    requires c.current < |c.blocks|
  {
    Ins(Ins(Ins(c, IConst(c.nextValue, 1)), CallExit(c.nextValue)), Trap).(nextValue := c.nextValue + 1)
  }

  function GiveUp(c: Ctx): Outcome
    requires c.current < |c.blocks|
  {
    Bail(ExitOne(c).(terminated := true))
  }

  function DeclareLocal(c: Ctx, name: Sir.Symbol): Ctx {
    c.(vars := c.vars[name := c.nextVar], nextVar := c.nextVar + 1)
  }

  /** Stores fields into consecutive cells of a slot, giving up at the first missing one. */
  function StoreFields(c: Ctx, fields: seq<Sir.ValueId>, slot: nat, offset: nat): Outcome
    requires Valid(c)
    decreases |fields|
  {
    if fields == [] then Go(c)
    else if fields[0] !in c.values then GiveUp(c)
    else StoreFields(Ins(c, StackStore(c.values[fields[0]], slot, offset)), fields[1..], slot, offset + 1)
  }

  /** Closes the current block and continues in a fresh one. */
  function Terminate(c: Ctx, i: Inst): Ctx
    requires c.current < |c.blocks|
  {
    NewBlock(Ins(c, i), true).(terminated := false)
  }

  function Mapped(c: Ctx, ids: seq<Sir.ValueId>): seq<Value>
    requires forall i :: 0 <= i < |ids| ==> ids[i] in c.values
  {
    seq(|ids|, i requires 0 <= i < |ids| => c.values[ids[i]])
  }

  function VariableOf(c: Ctx, src: Sir.Source): Option<Variable> {
    match src
    case Param(i) => if i < |c.params| then Some(c.params[i]) else None
    case Local(s) => if s in c.vars then Some(c.vars[s]) else None
  }

  // --- Instructions --------------------------------------------------------

  function TranslateInsn(known: set<Sir.Symbol>, c: Ctx, i: Sir.Insn): Outcome
    requires Valid(c)
  {
    match i
    case Const(dst, literal) => Go(Define(c, dst, IConst(c.nextValue, literal)))
    case Load(dst, src) =>
      var x := VariableOf(c, src);
      if x.Some? then Go(Define(c, dst, UseVar(c.nextValue, x.value))) else GiveUp(c)
    case Store(name, value) =>
      if value !in c.values then GiveUp(c)
      else
        var c1 := if name in c.vars then c else DeclareLocal(c, name);
        Go(Ins(c1, DefVar(c1.vars[name], c.values[value])))
    case VarDef(name, init) =>
      var c1 := DeclareLocal(c, name);
      if init.None? then Go(c1)
      else if init.value !in c.values then GiveUp(c1)
      else Go(Ins(c1, DefVar(c1.vars[name], c.values[init.value])))
    case BinOp(dst, op, lhs, rhs) =>
      if lhs !in c.values || rhs !in c.values then GiveUp(c)
      else Go(Define(c, dst, Binary(c.nextValue, op, c.values[lhs], c.values[rhs])))
    case UnOp(dst, op, rhs) =>
      if rhs !in c.values then GiveUp(c) else Go(Define(c, dst, Unary(c.nextValue, op, c.values[rhs])))
    case Call(dst, name, args) =>
      if name !in known || exists k :: 0 <= k < |args| && args[k] !in c.values then GiveUp(c)
      else Go(Define(c, dst, CallFn(c.nextValue, name, Mapped(c, args))))
    case TupleIndex(dst, tuple, index) =>
      if tuple !in c.values then GiveUp(c)
      else Go(Define(c, dst, MemLoad(c.nextValue, c.values[tuple], index)))
    case FieldStore(base, index, value) =>
      if base !in c.values || value !in c.values then GiveUp(c)
      else Go(Ins(c, MemStore(c.values[value], c.values[base], index)))
    case Construct(dst, tag, fields) => TranslateConstruct(c, dst, tag, fields)
    case Label(id) =>
      var c1 := WithLabel(c, id);
      var c2 := if c1.terminated then c1 else Ins(c1, JumpTo(c1.labels[id]));
      Go(c2.(terminated := false, current := c1.labels[id]))
    case Jump(target) =>
      var c1 := WithLabel(c, target);
      Go(Terminate(c1, JumpTo(c1.labels[target])))
    case BranchIfNot(cond, target) =>
      if cond !in c.values then GiveUp(c)
      else
        var c1 := WithLabel(c, target);
        Go(NewBlock(Ins(c1, Brif(c.values[cond], |c1.blocks|, c1.labels[target])), true))
    case Return(result) =>
      var rets := if result.Some? && result.value in c.values then [c.values[result.value]] else [];
      Go(Terminate(c, Ret(rets)))
    case Nop => Go(c)
    case ArrayPush(_, _, _) => GiveUp(c)
    case Other => GiveUp(c)
  }

  function CellCount(tag: Option<int>, fields: seq<Sir.ValueId>): nat {
    |fields| + if tag.Some? then 1 else 0
  }

  function TranslateConstruct(c: Ctx, dst: Sir.ValueId, tag: Option<int>, fields: seq<Sir.ValueId>): Outcome
    requires Valid(c)
  {
    var slot := |c.slots|;
    var c1 := c.(slots := c.slots + [CellCount(tag, fields)]);
    var c2 :=
      if tag.Some? then
        Ins(Ins(c1, IConst(c.nextValue, tag.value)), StackStore(c.nextValue, slot, 0)).(nextValue := c.nextValue + 1)
      else c1;
    match StoreFields(c2, fields, slot, if tag.Some? then 1 else 0)
    case Bail(c3) => Bail(c3)
    case Go(c3) => Go(if c3.current < |c3.blocks| then Define(c3, dst, StackAddr(c3.nextValue, slot)) else c3)
  }

  /** `c2` is `c` with `s` appended to the current block and the control-flow maps unchanged. */
  ghost predicate Grown(c: Ctx, c2: Ctx, s: seq<Inst>)
    requires Valid(c)
  {
    && c2.blocks == c.blocks[c.current := c.blocks[c.current] + s]
    && c2.current == c.current && c2.labels == c.labels && c2.params == c.params
  }

  predicate IsControl(i: Sir.Insn) {
    i.Label? || i.Jump? || i.BranchIfNot? || i.Return?
  }

  lemma GrownNothing(c: Ctx, c2: Ctx)
    requires Valid(c)
    requires c2.blocks == c.blocks && c2.current == c.current && c2.labels == c.labels && c2.params == c.params
    ensures Grown(c, c2, [])
  {
    assert c.blocks[c.current] + [] == c.blocks[c.current];
  }

  lemma GrownIns(c: Ctx, c2: Ctx, s: seq<Inst>, i: Inst)
    requires Valid(c) && Grown(c, c2, s)
    ensures Valid(c2) && Grown(c, Ins(c2, i), s + [i])
  {
    assert c.blocks[c.current] + s + [i] == c.blocks[c.current] + (s + [i]);
  }

  /** The instructions a refusal appends. */
  function ExitCode(v: Value): seq<Inst> {
    [IConst(v, 1), CallExit(v), Trap]
  }

  lemma GrownGiveUp(c: Ctx, c2: Ctx, s: seq<Inst>)
    requires Valid(c) && Grown(c, c2, s)
    ensures Valid(c2) && GiveUp(c2).c.terminated && Grown(c, GiveUp(c2).c, s + ExitCode(c2.nextValue))
  {
    assert c.blocks[c.current] + s + [IConst(c2.nextValue, 1)] + [CallExit(c2.nextValue)] + [Trap] ==
      c.blocks[c.current] + (s + ExitCode(c2.nextValue));
  }

  /** What a straight-line instruction leaves behind: an open extension of the current block,
      closed by the exit sequence if the instruction was refused. */
  ghost predicate PlainOutcome(c: Ctx, o: Outcome, s: seq<Inst>, v: Value)
    requires Valid(c)
  {
    && Open(s)
    && match o
       case Go(c2) => Grown(c, c2, s) && c2.terminated == c.terminated
       case Bail(c2) => Grown(c, c2, s + ExitCode(v)) && c2.terminated
  }

  lemma FieldsOutcome(c: Ctx, c2: Ctx, s: seq<Inst>, fields: seq<Sir.ValueId>, slot: nat, offset: nat)
    returns (t: seq<Inst>, v: Value)
    requires Valid(c) && Valid(c2) && Grown(c, c2, s) && Open(s) && c2.terminated == c.terminated
    ensures PlainOutcome(c, StoreFields(c2, fields, slot, offset), t, v)
    decreases |fields|
  {
    if fields == [] {
      t, v := s, 0;
    } else if fields[0] !in c2.values {
      GrownGiveUp(c, c2, s);
      t, v := s, c2.nextValue;
    } else {
      var i := StackStore(c2.values[fields[0]], slot, offset);
      GrownIns(c, c2, s, i);
      t, v := FieldsOutcome(c, Ins(c2, i), s + [i], fields[1..], slot, offset + 1);
    }
  }

  lemma ConstructOutcome(c: Ctx, dst: Sir.ValueId, tag: Option<int>, fields: seq<Sir.ValueId>)
    returns (t: seq<Inst>, v: Value)
    requires Valid(c)
    ensures PlainOutcome(c, TranslateConstruct(c, dst, tag, fields), t, v)
  {
    var slot := |c.slots|;
    var c1 := c.(slots := c.slots + [CellCount(tag, fields)]);
    GrownNothing(c, c1);
    var c2, s := c1, [];
    if tag.Some? {
      var i, j := IConst(c.nextValue, tag.value), StackStore(c.nextValue, slot, 0);
      GrownIns(c, c1, [], i);
      GrownIns(c, Ins(c1, i), [i], j);
      c2, s := Ins(Ins(c1, i), j).(nextValue := c.nextValue + 1), [i, j];
      assert [i] + [j] == [i, j];
    }
    t, v := FieldsOutcome(c, c2, s, fields, slot, if tag.Some? then 1 else 0);
    var o := StoreFields(c2, fields, slot, if tag.Some? then 1 else 0);
    if o.Go? {
      var i := StackAddr(o.c.nextValue, slot);
      GrownIns(c, o.c, t, i);
      t := t + [i];
    }
  }

  lemma DefineOutcome(c: Ctx, dst: Sir.ValueId, i: Inst)
    requires Valid(c) && !IsTerminator(i)
    ensures PlainOutcome(c, Go(Define(c, dst, i)), [i], 0)
  {
    GrownNothing(c, c);
    GrownIns(c, c, [], i);
    assert [] + [i] == [i];
  }

  lemma InsOutcome(c: Ctx, c1: Ctx, i: Inst)
    requires Valid(c) && !IsTerminator(i) && c1.terminated == c.terminated
    requires c1.blocks == c.blocks && c1.current == c.current && c1.labels == c.labels && c1.params == c.params
    ensures Valid(c1) && PlainOutcome(c, Go(Ins(c1, i)), [i], 0)
  {
    GrownNothing(c, c1);
    GrownIns(c, c1, [], i);
    assert [] + [i] == [i];
  }

  lemma RefusedOutcome(c: Ctx, c1: Ctx)
    requires Valid(c) && c1.blocks == c.blocks && c1.current == c.current && c1.labels == c.labels
    requires c1.params == c.params
    ensures Valid(c1) && PlainOutcome(c, GiveUp(c1), [], c1.nextValue)
  {
    GrownNothing(c, c1);
    GrownGiveUp(c, c1, []);
    assert [] + ExitCode(c1.nextValue) == ExitCode(c1.nextValue);
  }

  lemma LocalOutcome(known: set<Sir.Symbol>, c: Ctx, i: Sir.Insn) returns (t: seq<Inst>, v: Value)
    requires Valid(c) && (i.Store? || i.VarDef?)
    ensures PlainOutcome(c, TranslateInsn(known, c, i), t, v)
  {
    var c1 := if i.Store? && i.name in c.vars then c else DeclareLocal(c, i.name);
    if i.VarDef? && i.init.None? {
      GrownNothing(c, c1);
      t, v := [], 0;
    } else {
      hide PlainOutcome, GiveUp, Ins;
      var x := if i.Store? then i.value else i.init.value;
      if x in c.values {
        t, v := [DefVar(c1.vars[i.name], c.values[x])], 0;
        InsOutcome(c, c1, t[0]);
      } else {
        t, v := [], c.nextValue;
        RefusedOutcome(c, if i.Store? then c else c1);
      }
    }
  }

  /** An instruction that computes a value or writes a field, in one Cranelift instruction. */
  lemma SingleOutcome(known: set<Sir.Symbol>, c: Ctx, i: Sir.Insn) returns (t: seq<Inst>, v: Value)
    requires Valid(c) && !IsControl(i) && !i.Store? && !i.VarDef? && !i.Construct? && !i.Nop?
    ensures PlainOutcome(c, TranslateInsn(known, c, i), t, v)
  {
    var o := TranslateInsn(known, c, i);
    hide Define, GiveUp, Ins, PlainOutcome;
    if o.Bail? {
      t, v := [], c.nextValue;
      RefusedOutcome(c, c);
    } else if i.FieldStore? {
      t, v := [MemStore(c.values[i.value], c.values[i.base], i.index)], 0;
      InsOutcome(c, c, t[0]);
    } else {
      var x := match i
        case Const(_, literal) => IConst(c.nextValue, literal)
        case Load(_, src) => UseVar(c.nextValue, VariableOf(c, src).value)
        case BinOp(_, op, lhs, rhs) => Binary(c.nextValue, op, c.values[lhs], c.values[rhs])
        case UnOp(_, op, rhs) => Unary(c.nextValue, op, c.values[rhs])
        case Call(_, name, args) => CallFn(c.nextValue, name, Mapped(c, args))
        case TupleIndex(_, tuple, index) => MemLoad(c.nextValue, c.values[tuple], index);
      t, v := [x], 0;
      DefineOutcome(c, i.dst, x);
    }
  }

  lemma PlainInsn(known: set<Sir.Symbol>, c: Ctx, i: Sir.Insn) returns (t: seq<Inst>, v: Value)
    requires Valid(c) && !IsControl(i)
    ensures PlainOutcome(c, TranslateInsn(known, c, i), t, v)
  {
    if i.Construct? {
      hide TranslateConstruct, PlainOutcome;
      t, v := ConstructOutcome(c, i.dst, i.tag, i.fields);
    } else if i.Nop? {
      GrownNothing(c, c);
      t, v := [], 0;
    } else if i.Store? || i.VarDef? {
      hide TranslateInsn, PlainOutcome;
      t, v := LocalOutcome(known, c, i);
    } else {
      hide TranslateInsn, PlainOutcome;
      t, v := SingleOutcome(known, c, i);
    }
  }

  lemma LabelValid(c: Ctx, id: Sir.LabelId)
    requires Valid(c)
    ensures Valid(WithLabel(c, id)) && id in WithLabel(c, id).labels
  {
  }

  lemma InsValid(c: Ctx, i: Inst)
    requires Valid(c)
    ensures Valid(Ins(c, i)) && Valid(NewBlock(Ins(c, i), true)) && Ins(c, i).labels == c.labels
    ensures |Ins(c, i).blocks| == |c.blocks|
  {
  }

  lemma ControlValid(known: set<Sir.Symbol>, c: Ctx, i: Sir.Insn)
    requires Valid(c) && IsControl(i)
    ensures Valid(TranslateInsn(known, c, i).c)
  {
    hide WithLabel, Ins;
    match i
    case Label(id) =>
      LabelValid(c, id);
      InsValid(WithLabel(c, id), JumpTo(WithLabel(c, id).labels[id]));
    case Jump(t) =>
      LabelValid(c, t);
      InsValid(WithLabel(c, t), JumpTo(WithLabel(c, t).labels[t]));
    case BranchIfNot(v, t) =>
      if v in c.values {
        LabelValid(c, t);
        var c1 := WithLabel(c, t);
        InsValid(c1, Brif(c.values[v], |c1.blocks|, c1.labels[t]));
      } else {
        GrownNothing(c, c);
        GrownGiveUp(c, c, []);
      }
    case Return(r) => InsValid(c, Ret(if r.Some? && r.value in c.values then [c.values[r.value]] else []));
  }

  lemma InsnValid(known: set<Sir.Symbol>, c: Ctx, i: Sir.Insn)
    requires Valid(c)
    ensures Valid(TranslateInsn(known, c, i).c)
  {
    hide TranslateInsn;
    if IsControl(i) {
      ControlValid(known, c, i);
    } else {
      var t, v := PlainInsn(known, c, i);
    }
  }

  // --- Bodies --------------------------------------------------------------

  /** Entry block 0, one variable per parameter, mirrored under the parameter's name. */
  function StartCtx(params: seq<Sir.Symbol>): Ctx {
    Ctx([[]], 0, map[], map[], ParamVars(params), seq(|params|, i => i), false, 0, |params|, [])
  }

  function ParamVars(params: seq<Sir.Symbol>): (m: map<Sir.Symbol, Variable>)
    ensures m.Keys == set s | s in params
  {
    if params == [] then map[]
    else ParamVars(params[..|params| - 1])[params[|params| - 1] := |params| - 1]
  }

  /** A block for every label of the body, before any instruction is translated. */
  function Preallocate(c: Ctx, body: seq<Sir.Insn>, i: nat): Ctx
    requires i <= |body|
  {
    if i == 0 then c
    else
      var c1 := Preallocate(c, body, i - 1);
      if body[i - 1].Label? then NewBlock(c1, false).(labels := c1.labels[body[i - 1].id := |c1.blocks|]) else c1
  }

  function Prepared(f: Sir.Function): Ctx {
    Preallocate(StartCtx(f.params), f.body, |f.body|)
  }

  lemma PreallocateValid(c: Ctx, body: seq<Sir.Insn>, i: nat)
    requires i <= |body| && Valid(c)
    ensures Valid(Preallocate(c, body, i))
  {
    if i > 0 {
      PreallocateValid(c, body, i - 1);
    }
  }

  /** The context after `i` instructions, or after the one that gave up. */
  function Translate(known: set<Sir.Symbol>, f: Sir.Function, i: nat): (o: Outcome)
    requires i <= |f.body|
    ensures Valid(o.c)
  {
    if i == 0 then
      PreallocateValid(StartCtx(f.params), f.body, |f.body|);
      Go(Prepared(f))
    else
      match Translate(known, f, i - 1)
      case Bail(c) => Bail(c)
      case Go(c) =>
        InsnValid(known, c, f.body[i - 1]);
        TranslateInsn(known, c, f.body[i - 1])
  }

  /** Nothing is translated after a refusal. */
  lemma BailStays(known: set<Sir.Symbol>, f: Sir.Function, i: nat)
    requires i <= |f.body| && Translate(known, f, i).Bail?
    ensures Translate(known, f, |f.body|) == Translate(known, f, i)
    decreases |f.body| - i
  {
    hide TranslateInsn, Prepared;
    if i < |f.body| {
      BailStays(known, f, i + 1);
    }
  }

  predicate HasTerminator(b: seq<Inst>) {
    b != [] && IsTerminator(b[|b| - 1])
  }

  /** Gives `exit(1)` to every label block up to `b` that has no terminator. */
  function SealOrphans(c: Ctx, orphans: set<BlockId>, b: nat): Ctx
    requires b <= |c.blocks|
    ensures |SealOrphans(c, orphans, b).blocks| == |c.blocks|
  {
    if b == 0 then c
    else
      var c1 := SealOrphans(c, orphans, b - 1);
      if b - 1 in orphans && !HasTerminator(c1.blocks[b - 1]) then ExitOne(c1.(current := b - 1)) else c1
  }

  /** The clean-up after the body: close the current block, then every orphan. */
  function Finish(c: Ctx): Ctx
    requires Valid(c)
  {
    var c1 := if c.terminated then c else ExitOne(c);
    SealOrphans(c1, c1.labels.Values, |c1.blocks|)
  }

  function TranslateFn(known: set<Sir.Symbol>, f: Sir.Function): Function {
    var c := Finish(Translate(known, f, |f.body|).c);
    Function(|f.params|, c.slots, c.blocks)
  }

  // --- Well-formed blocks --------------------------------------------------

  /** Labels met in the first `i` instructions. */
  function Placed(body: seq<Sir.Insn>, i: nat): set<Sir.LabelId>
    requires i <= |body|
  {
    set k | 0 <= k < i && body[k].Label? :: body[k].id
  }

  /** While translating: the current block is open; a label not placed yet owns an empty block of
      its own; every other block is closed. */
  ghost predicate Shape(c: Ctx, placed: set<Sir.LabelId>) {
    && Valid(c)
    && (forall a, b :: a in c.labels && b in c.labels && a != b ==> c.labels[a] != c.labels[b])
    && Open(c.blocks[c.current])
    && (forall id :: id in c.labels && id !in placed ==> c.blocks[c.labels[id]] == [] && c.labels[id] != c.current)
    && (forall b :: 0 <= b < |c.blocks| && b != c.current && !Waiting(c, placed, b) ==> Closed(c.blocks[b]))
    && !c.terminated
  }

  /** Block `b` belongs to a label still to come. */
  ghost predicate Waiting(c: Ctx, placed: set<Sir.LabelId>, b: BlockId) {
    exists id :: id in c.labels && id !in placed && c.labels[id] == b
  }

  lemma WaitingStays(c: Ctx, c2: Ctx, placed: set<Sir.LabelId>, placed2: set<Sir.LabelId>, b: BlockId)
    requires forall id :: id in c.labels ==> id in c2.labels && c2.labels[id] == c.labels[id]
    requires forall id :: id in c.labels && id !in placed && id in placed2 ==> c.labels[id] != b
    ensures Waiting(c, placed, b) ==> Waiting(c2, placed2, b)
  {
    if Waiting(c, placed, b) {
      var id :| id in c.labels && id !in placed && c.labels[id] == b;
      assert id in c2.labels && id !in placed2;
    }
  }

  lemma ShapeGrown(c: Ctx, c2: Ctx, placed: set<Sir.LabelId>, s: seq<Inst>)
    requires Shape(c, placed) && Grown(c, c2, s) && Open(s) && !c2.terminated
    ensures Shape(c2, placed)
  {
    forall b | 0 <= b < |c2.blocks| && b != c2.current && !Waiting(c2, placed, b) ensures Closed(c2.blocks[b]) {
      WaitingStays(c, c2, placed, placed, b);
    }
  }

  lemma ShapeWithLabel(c: Ctx, placed: set<Sir.LabelId>, id: Sir.LabelId)
    requires Shape(c, placed) && (id in c.labels || id !in placed)
    ensures var c2 := WithLabel(c, id);
      && Shape(c2, placed) && id in c2.labels
      && c2.blocks[c.current] == c.blocks[c.current] && c2.current == c.current
  {
    var c2 := WithLabel(c, id);
    if id !in c.labels {
      assert Waiting(c2, placed, |c.blocks|);
      forall b | 0 <= b < |c2.blocks| && b != c2.current && !Waiting(c2, placed, b) ensures Closed(c2.blocks[b]) {
        WaitingStays(c, c2, placed, placed, b);
      }
    }
  }

  lemma CloseBlock(b: seq<Inst>, i: Inst)
    requires Open(b) && IsTerminator(i)
    ensures Closed(b + [i])
  {
    assert (b + [i])[..|b|] == b;
  }

  /** Closing the current block and opening a fresh one keeps the shape. */
  lemma ShapeTerminate(c: Ctx, placed: set<Sir.LabelId>, i: Inst)
    requires Shape(c, placed) && IsTerminator(i)
    ensures Shape(NewBlock(Ins(c, i), true), placed)
  {
    var c2 := NewBlock(Ins(c, i), true);
    CloseBlock(c.blocks[c.current], i);
    forall b | 0 <= b < |c2.blocks| && b != c2.current && !Waiting(c2, placed, b) ensures Closed(c2.blocks[b]) {
      WaitingStays(c, c2, placed, placed, b);
    }
  }

  /** Falling through to a label closes the current block and moves to the label's. */
  lemma ShapeLabel(c: Ctx, placed: set<Sir.LabelId>, id: Sir.LabelId)
    requires Shape(c, placed) && id in c.labels && id !in placed
    ensures Shape(Ins(c, JumpTo(c.labels[id])).(terminated := false, current := c.labels[id]), placed + {id})
  {
    var c2 := Ins(c, JumpTo(c.labels[id])).(terminated := false, current := c.labels[id]);
    CloseBlock(c.blocks[c.current], JumpTo(c.labels[id]));
    forall b | 0 <= b < |c2.blocks| && b != c2.current && !Waiting(c2, placed + {id}, b) ensures Closed(c2.blocks[b]) {
      WaitingStays(c, c2, placed, placed + {id}, b);
    }
  }

  /** After a refusal: the current block is closed and nothing more will be appended. */
  ghost predicate Abandoned(c: Ctx) {
    && Valid(c) && c.terminated
    && forall b :: 0 <= b < |c.blocks| ==> Closed(c.blocks[b]) || (c.blocks[b] == [] && b in c.labels.Values)
  }

  lemma ExitCloses(b: seq<Inst>, v: Value)
    requires Open(b)
    ensures Closed(b + ExitCode(v))
  {
    assert (b + ExitCode(v))[..|b| + 2] == b + [IConst(v, 1), CallExit(v)];
  }

  lemma ShapeAbandoned(c: Ctx, c2: Ctx, placed: set<Sir.LabelId>, s: seq<Inst>, v: Value)
    requires Shape(c, placed) && Grown(c, c2, s + ExitCode(v)) && Open(s) && c2.terminated
    ensures Abandoned(c2)
  {
    ExitCloses(c.blocks[c.current] + s, v);
    assert c.blocks[c.current] + (s + ExitCode(v)) == c.blocks[c.current] + s + ExitCode(v);
    forall b | 0 <= b < |c2.blocks| ensures Closed(c2.blocks[b]) || (c2.blocks[b] == [] && b in c2.labels.Values) {
      if b != c.current && Waiting(c, placed, b) {
        var a :| a in c.labels && a !in placed && c.labels[a] == b;
        assert a in c2.labels;
      }
    }
  }

  ghost predicate LabelsKnown(c: Ctx, body: seq<Sir.Insn>) {
    forall k :: 0 <= k < |body| && body[k].Label? ==> body[k].id in c.labels
  }

  lemma LabelKept(c: Ctx, id: Sir.LabelId)
    ensures forall x :: x in c.labels ==> x in WithLabel(c, id).labels
  {
  }

  lemma BranchShape(known: set<Sir.Symbol>, c: Ctx, cond: Sir.ValueId, target: Sir.LabelId, placed: set<Sir.LabelId>)
    requires Shape(c, placed) && (target in c.labels || target !in placed)
    ensures match TranslateInsn(known, c, Sir.BranchIfNot(cond, target))
      case Go(c2) => Shape(c2, placed) && forall id :: id in c.labels ==> id in c2.labels
      case Bail(c2) => Abandoned(c2)
  {
    ShapeOpen(c, placed);
    hide Shape, Abandoned, WithLabel;
    if cond !in c.values {
      GrownNothing(c, c);
      GrownGiveUp(c, c, []);
      ShapeAbandoned(c, GiveUp(c).c, placed, [], c.nextValue);
    } else {
      LabelKept(c, target);
      ShapeWithLabel(c, placed, target);
      var c1 := WithLabel(c, target);
      ShapeOpen(c1, placed);
      ShapeTerminate(c1, placed, Brif(c.values[cond], |c1.blocks|, c1.labels[target]));
    }
  }

  lemma ShapeOpen(c: Ctx, placed: set<Sir.LabelId>)
    requires Shape(c, placed)
    ensures Valid(c) && !c.terminated
  {
  }

  /** A jump, conditional branch or return keeps the shape. */
  lemma LeaveShape(known: set<Sir.Symbol>, c: Ctx, insn: Sir.Insn, placed: set<Sir.LabelId>)
    requires Shape(c, placed) && (insn.Jump? || insn.BranchIfNot? || insn.Return?)
    requires !insn.Return? ==> insn.target in c.labels || insn.target !in placed
    ensures match TranslateInsn(known, c, insn)
      case Go(c2) => Shape(c2, placed) && forall id :: id in c.labels ==> id in c2.labels
      case Bail(c2) => Abandoned(c2)
  {
    hide Shape, Abandoned, WithLabel;
    ShapeOpen(c, placed);
    match insn
    case Jump(target) =>
      ShapeWithLabel(c, placed, target);
      LabelKept(c, target);
      var c1 := WithLabel(c, target);
      ShapeOpen(c1, placed);
      ShapeTerminate(c1, placed, JumpTo(c1.labels[target]));
      TerminateIs(c1, JumpTo(c1.labels[target]));
    case BranchIfNot(cond, target) =>
      hide TranslateInsn;
      BranchShape(known, c, cond, target, placed);
    case Return(result) =>
      var i := Ret(if result.Some? && result.value in c.values then [c.values[result.value]] else []);
      ShapeTerminate(c, placed, i);
      TerminateIs(c, i);
  }

  lemma TerminateIs(c: Ctx, i: Inst)
    requires Valid(c) && !c.terminated
    ensures Terminate(c, i) == NewBlock(Ins(c, i), true)
  {
  }

  /** A return of a value that has none yet returns nothing, like a return without a value. */
  lemma UnknownReturn(known: set<Sir.Symbol>, c: Ctx, result: Option<Sir.ValueId>)
    requires Valid(c) && (result.Some? ==> result.value !in c.values)
    ensures var o := TranslateInsn(known, c, Sir.Return(result));
      && o.Go? && o.c.blocks[..|c.blocks|] == c.blocks[c.current := c.blocks[c.current] + [Ret([])]]
      && o.c.current == |c.blocks| && o.c.blocks[o.c.current] == [] && !o.c.terminated
  {
  }

  lemma PlacedNext(body: seq<Sir.Insn>, i: nat)
    requires i < |body| && Sir.UniqueLabels(body)
    ensures !body[i].Label? ==> Placed(body, i + 1) == Placed(body, i)
    ensures body[i].Label? ==> Placed(body, i + 1) == Placed(body, i) + {body[i].id} && body[i].id !in Placed(body, i)
  {
  }

  lemma InsnShape(known: set<Sir.Symbol>, f: Sir.Function, i: nat, c: Ctx)
    requires Sir.UniqueLabels(f.body) && i < |f.body|
    requires Shape(c, Placed(f.body, i)) && LabelsKnown(c, f.body)
    ensures match TranslateInsn(known, c, f.body[i])
      case Go(c2) => Shape(c2, Placed(f.body, i + 1)) && LabelsKnown(c2, f.body)
      case Bail(c2) => Abandoned(c2)
  {
    var insn, placed := f.body[i], Placed(f.body, i);
    PlacedNext(f.body, i);
    if insn.Label? {
      ShapeLabel(c, placed, insn.id);
    } else if IsControl(insn) {
      if !insn.Return? && insn.target in placed {
        assert insn.target in c.labels;
      }
      hide Shape;
      LeaveShape(known, c, insn, placed);
    } else {
      var t, v := PlainInsn(known, c, insn);
      hide TranslateInsn, Shape;
      match TranslateInsn(known, c, insn)
      case Go(c2) => PlainShape(c, c2, placed, t);
      case Bail(c2) => ShapeAbandoned(c, c2, placed, t, v);
    }
  }

  lemma PlainShape(c: Ctx, c2: Ctx, placed: set<Sir.LabelId>, t: seq<Inst>)
    requires Shape(c, placed) && Grown(c, c2, t) && Open(t) && c2.terminated == c.terminated
    ensures Shape(c2, placed) && c2.labels == c.labels
  {
    ShapeGrown(c, c2, placed, t);
  }

  /** Preallocation gives each label of the prefix its own empty block after the entry. */
  ghost predicate Allocated(c: Ctx, placed: set<Sir.LabelId>) {
    && c.current == 0 && !c.terminated && |c.blocks| >= 1
    && (forall b :: 0 <= b < |c.blocks| ==> c.blocks[b] == [])
    && (forall id :: id in c.labels <==> id in placed)
    && (forall id :: id in c.labels ==> 1 <= c.labels[id] < |c.blocks|)
    && (forall a, b :: a in c.labels && b in c.labels && a != b ==> c.labels[a] != c.labels[b])
    && (forall b :: 1 <= b < |c.blocks| ==> Waiting(c, {}, b))
  }

  lemma AllocateOne(c: Ctx, placed: set<Sir.LabelId>, id: Sir.LabelId)
    requires Allocated(c, placed) && id !in placed
    ensures Allocated(NewBlock(c, false).(labels := c.labels[id := |c.blocks|]), placed + {id})
  {
    var c2 := NewBlock(c, false).(labels := c.labels[id := |c.blocks|]);
    assert id in c2.labels;
    forall b | 1 <= b < |c2.blocks| ensures Waiting(c2, {}, b) {
      WaitingStays(c, c2, {}, {}, b);
    }
  }

  lemma NothingAllocatedYet(f: Sir.Function)
    ensures Allocated(StartCtx(f.params), Placed(f.body, 0))
  {
    assert Placed(f.body, 0) == {};
  }

  lemma PreparedShape(f: Sir.Function, i: nat)
    requires Sir.UniqueLabels(f.body) && i <= |f.body|
    ensures Allocated(Preallocate(StartCtx(f.params), f.body, i), Placed(f.body, i))
  {
    hide Allocated, Placed, StartCtx;
    if i == 0 {
      NothingAllocatedYet(f);
    } else {
      PreparedShape(f, i - 1);
      PlacedNext(f.body, i - 1);
      if f.body[i - 1].Label? {
        AllocateOne(Preallocate(StartCtx(f.params), f.body, i - 1), Placed(f.body, i - 1), f.body[i - 1].id);
      }
    }
  }

  lemma StartShape(f: Sir.Function)
    requires Sir.UniqueLabels(f.body)
    ensures Shape(Prepared(f), {}) && LabelsKnown(Prepared(f), f.body)
    ensures Placed(f.body, 0) == {}
  {
    PreparedShape(f, |f.body|);
  }

  lemma {:induction false} BodyShape(known: set<Sir.Symbol>, f: Sir.Function, i: nat)
    requires Sir.UniqueLabels(f.body) && i <= |f.body|
    ensures match Translate(known, f, i)
      case Go(c) => Shape(c, Placed(f.body, i)) && LabelsKnown(c, f.body)
      case Bail(c) => Abandoned(c)
  {
    hide Shape, TranslateInsn, Abandoned, LabelsKnown, Prepared;
    if i == 0 {
      StartShape(f);
    } else {
      BodyShape(known, f, i - 1);
      match Translate(known, f, i - 1)
      case Bail(_) =>
      case Go(c) => InsnShape(known, f, i - 1, c);
    }
  }

  /** Every block is closed, or is an untouched block of some label. */
  ghost predicate ClosedOrOrphan(c: Ctx, orphans: set<BlockId>) {
    forall k :: 0 <= k < |c.blocks| ==> Closed(c.blocks[k]) || (c.blocks[k] == [] && k in orphans)
  }

  /** From instruction `k` on, the block ends the process with code 1. */
  predicate EndsProcess(b: seq<Inst>, k: nat) {
    |b| == k + 3 && b[k].IConst? && b[k].literal == 1 && b[k + 1] == CallExit(b[k].v) && b[k + 2] == Trap
  }

  lemma SealOne(c: Ctx, b: BlockId)
    requires b < |c.blocks|
    ensures Closed(c.blocks[b]) ==> HasTerminator(c.blocks[b])
    ensures c.blocks[b] == [] ==> !HasTerminator(c.blocks[b])
    ensures c.blocks[b] == [] ==>
      var c2 := ExitOne(c.(current := b));
      Closed(c2.blocks[b]) && EndsProcess(c2.blocks[b], 0) && c2.blocks == c.blocks[b := c2.blocks[b]]
  {
    ExitCloses([], c.nextValue);
    assert [] + [IConst(c.nextValue, 1)] + [CallExit(c.nextValue)] + [Trap] == [] + ExitCode(c.nextValue);
  }

  /** The clean-up closes every block: an empty one ends the process, the others stay. */
  lemma SealsAll(c: Ctx, orphans: set<BlockId>, b: nat)
    requires b <= |c.blocks| && ClosedOrOrphan(c, orphans)
    ensures var c2 := SealOrphans(c, orphans, b);
      && (forall k :: 0 <= k < b ==> Closed(c2.blocks[k]) && Sealed(c.blocks[k], c2.blocks[k]))
      && (forall k :: b <= k < |c.blocks| ==> c2.blocks[k] == c.blocks[k])
  {
    hide Closed, ExitOne, HasTerminator, EndsProcess;
    if b > 0 {
      SealsAll(c, orphans, b - 1);
      var c1 := SealOrphans(c, orphans, b - 1);
      assert c1.blocks[b - 1] == c.blocks[b - 1];
      SealOne(c1, b - 1);
    }
  }

  /** An empty block ends the process, any other is left alone. */
  predicate Sealed(before: seq<Inst>, after: seq<Inst>) {
    if before == [] then EndsProcess(after, 0) else after == before
  }

  /** After a refusal the clean-up makes every label block that was left empty end the process with
      code 1, and leaves the others alone; then every block is closed. */
  lemma FinishCloses(c: Ctx)
    requires Abandoned(c)
    ensures |Finish(c).blocks| == |c.blocks|
    ensures forall b :: 0 <= b < |c.blocks| ==> Closed(Finish(c).blocks[b]) && Sealed(c.blocks[b], Finish(c).blocks[b])
  {
    SealsAll(c, c.labels.Values, |c.blocks|);
    assert Finish(c) == SealOrphans(c, c.labels.Values, |c.blocks|);
  }

  /** Every block of a translated function, label blocks, fall-through blocks and dead blocks
      alike, ends with exactly one terminator and holds nothing after it, whether the body was
      translated to the end or given up part-way. */
  lemma WellFormed(known: set<Sir.Symbol>, f: Sir.Function)
    requires Sir.UniqueLabels(f.body)
    ensures forall b :: 0 <= b < |TranslateFn(known, f).blocks| ==> Closed(TranslateFn(known, f).blocks[b])
  {
    var o := Translate(known, f, |f.body|);
    BodyShape(known, f, |f.body|);
    hide Translate;
    if o.Go? {
      OpenFinish(o.c, Placed(f.body, |f.body|));
    } else {
      FinishCloses(o.c);
    }
  }

  /** After a body translated to the end, the current block, wherever it stopped, ends the process too. */
  lemma OpenFinish(c: Ctx, placed: set<Sir.LabelId>)
    requires Shape(c, placed)
    ensures |Finish(c).blocks| == |c.blocks|
    ensures forall b :: 0 <= b < |c.blocks| ==> Closed(Finish(c).blocks[b])
    ensures forall b :: 0 <= b < |c.blocks| && b != c.current ==> Sealed(c.blocks[b], Finish(c).blocks[b])
    ensures var end := c.blocks[c.current];
      end <= Finish(c).blocks[c.current] && EndsProcess(Finish(c).blocks[c.current], |end|)
  {
    GrownNothing(c, c);
    GrownGiveUp(c, c, []);
    ShapeAbandoned(c, GiveUp(c).c, placed, [], c.nextValue);
    FinishCloses(GiveUp(c).c);
    var e := ExitOne(c);
    assert GiveUp(c).c == e.(terminated := true);
    SealIgnoresFlag(e, e.labels.Values, |e.blocks|);
    assert Finish(c) == SealOrphans(e, e.labels.Values, |e.blocks|);
    assert Finish(GiveUp(c).c) == SealOrphans(e.(terminated := true), e.labels.Values, |e.blocks|);
  }

  lemma SealIgnoresFlag(c: Ctx, orphans: set<BlockId>, b: nat)
    requires b <= |c.blocks|
    ensures SealOrphans(c.(terminated := true), orphans, b) == SealOrphans(c, orphans, b).(terminated := true)
  {
  }
}
