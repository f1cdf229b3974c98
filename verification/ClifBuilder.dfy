/** The translator as the backend runs it: a builder and maps updated in place, instruction by
    instruction. Each method is tied to the translation it implements. */
module ClifBuilder {
  import opened Wrappers
  import opened Clif
  import opened ClifTranslate
  import Sir

  class Translator {
    var blocks: seq<seq<Inst>>
    var current: BlockId
    var values: map<Sir.ValueId, Value>
    var labels: map<Sir.LabelId, BlockId>
    var vars: map<Sir.Symbol, Variable>
    var params: seq<Variable>
    var terminated: bool
    var nextValue: Value
    var nextVar: Variable
    var slots: seq<nat>

    ghost function State(): Ctx
      reads this
    {
      Ctx(blocks, current, values, labels, vars, params, terminated, nextValue, nextVar, slots)
    }

    ghost function Result(ok: bool): Outcome
      reads this
    {
      if ok then Go(State()) else Bail(State())
    }

    constructor (names: seq<Sir.Symbol>)
      ensures State() == StartCtx(names)
    {
      blocks, current, values, labels := [[]], 0, map[], map[];
      params, terminated, nextValue, nextVar, slots := seq(|names|, i => i), false, 0, |names|, [];
      vars := ParamVars(names);
    }

    method Emit(i: Inst)
      requires current < |blocks|
      modifies this
      ensures State() == Ins(old(State()), i)
    {
      blocks := blocks[current := blocks[current] + [i]];
    }

    method DefineValue(dst: Sir.ValueId, i: Inst)
      requires current < |blocks|
      modifies this
      ensures State() == Define(old(State()), dst, i)
    {
      Emit(i);
      values := values[dst := nextValue];
      nextValue := nextValue + 1;
    }

    method CreateBlock() returns (b: BlockId)
      modifies this
      ensures b == |old(blocks)| && State() == NewBlock(old(State()), false)
    {
      b := |blocks|;
      blocks := blocks + [[]];
    }

    method SwitchTo(b: BlockId)
      modifies this
      ensures State() == old(State()).(current := b)
    {
      current := b;
    }

    /** The block of a label, created if no instruction has asked for it before. */
    method BlockFor(id: Sir.LabelId) returns (b: BlockId)
      modifies this
      ensures State() == WithLabel(old(State()), id)
      ensures id in labels && b == labels[id]
    {
      if id !in labels {
        var created := CreateBlock();
        labels := labels[id := created];
      }
      b := labels[id];
    }

    method EmitExit()
      requires current < |blocks|
      modifies this
      ensures State() == ExitOne(old(State()))
    {
      var code := nextValue;
      Emit(IConst(code, 1));
      nextValue := nextValue + 1;
      Emit(CallExit(code));
      Emit(Trap);
    }

    /** Refuses an instruction: the current block ends in `exit(1)`. */
    method Refuse()
      requires current < |blocks|
      modifies this
      ensures State() == GiveUp(old(State())).c
    {
      EmitExit();
      terminated := true;
    }

    method Declare(name: Sir.Symbol)
      modifies this
      ensures State() == DeclareLocal(old(State()), name)
    {
      vars := vars[name := nextVar];
      nextVar := nextVar + 1;
    }

    /** Ends the current block and opens a stray one for whatever comes before the next label. */
    method EndBlock(i: Inst)
      requires current < |blocks|
      modifies this
      ensures State() == Terminate(old(State()), i)
    {
      Emit(i);
      terminated := true;
      var dead := CreateBlock();
      SwitchTo(dead);
      terminated := false;
    }

    /** Falls through to `next` unless the block is closed already. */
    method SealWithJump(next: BlockId)
      requires current < |blocks|
      modifies this
      ensures State() ==
        (if old(terminated) then old(State()) else Ins(old(State()), JumpTo(next))).(terminated := false)
    {
      if !terminated {
        Emit(JumpTo(next));
      }
      terminated := false;
    }

    method EmitLabel(id: Sir.LabelId)
      requires Valid(State())
      modifies this
      ensures forall known :: TranslateInsn(known, old(State()), Sir.Label(id)) == Go(State())
    {
      var b := BlockFor(id);
      SealWithJump(b);
      SwitchTo(b);
    }

    method EmitJump(target: Sir.LabelId)
      requires Valid(State())
      modifies this
      ensures forall known :: TranslateInsn(known, old(State()), Sir.Jump(target)) == Go(State())
    {
      var b := BlockFor(target);
      EndBlock(JumpTo(b));
    }

    method EmitBranch(cond: Sir.ValueId, target: Sir.LabelId) returns (ok: bool)
      requires Valid(State())
      modifies this
      ensures forall known ::
        TranslateInsn(known, old(State()), Sir.BranchIfNot(cond, target)) == Result(ok)
    {
      ok := cond in values;
      if ok {
        var b := BlockFor(target);
        var c := values[cond];
        Emit(Brif(c, |blocks|, b));
        var fallthrough := CreateBlock();
        SwitchTo(fallthrough);
      } else {
        Refuse();
      }
    }

    method EmitReturn(result: Option<Sir.ValueId>)
      requires Valid(State())
      modifies this
      ensures forall known :: TranslateInsn(known, old(State()), Sir.Return(result)) == Go(State())
    {
      EndBlock(Ret(if result.Some? && result.value in values then [values[result.value]] else []));
    }

    method EmitLocal(i: Sir.Insn) returns (ok: bool)
      requires Valid(State()) && (i.Store? || i.VarDef?)
      modifies this
      ensures forall known :: TranslateInsn(known, old(State()), i) == Result(ok)
    {
      ok := true;
      if i.VarDef? {
        Declare(i.name);
        if i.init.Some? {
          if i.init.value in values {
            Emit(DefVar(vars[i.name], values[i.init.value]));
          } else {
            Refuse();
            ok := false;
          }
        }
      } else if i.value in values {
        if i.name !in vars {
          Declare(i.name);
        }
        Emit(DefVar(vars[i.name], values[i.value]));
      } else {
        Refuse();
        ok := false;
      }
    }

    /** An aggregate gets a stack slot, its fields stored one cell after the other. */
    method EmitConstruct(dst: Sir.ValueId, tag: Option<int>, fields: seq<Sir.ValueId>) returns (ok: bool)
      requires Valid(State())
      modifies this
      ensures TranslateConstruct(old(State()), dst, tag, fields) == Result(ok)
    {
      var slot := |slots|;
      slots := slots + [CellCount(tag, fields)];
      if tag.Some? {
        Emit(IConst(nextValue, tag.value));
        Emit(StackStore(nextValue, slot, 0));
        nextValue := nextValue + 1;
      }
      ok := EmitFields(fields, slot, if tag.Some? then 1 else 0);
      if ok {
        DefineValue(dst, StackAddr(nextValue, slot));
      }
    }

    method EmitFields(fields: seq<Sir.ValueId>, slot: nat, first: nat) returns (ok: bool)
      requires Valid(State())
      modifies this
      ensures StoreFields(old(State()), fields, slot, first) == Result(ok) && Valid(State())
    {
      ghost var start := State();
      for i := 0 to |fields|
        invariant Valid(State())
        invariant StoreFields(start, fields, slot, first) == StoreFields(State(), fields[i..], slot, first + i)
      {
        assert fields[i..][0] == fields[i] && fields[i..][1..] == fields[i + 1..];
        if fields[i] !in values {
          Refuse();
          return false;
        }
        Emit(StackStore(values[fields[i]], slot, first + i));
      }
      ok := true;
    }

    method EmitInsn(known: set<Sir.Symbol>, i: Sir.Insn) returns (ok: bool)
      requires Valid(State())
      modifies this
      ensures TranslateInsn(known, old(State()), i) == Result(ok)
    {
      ok := true;
      match i
      case Label(id) => EmitLabel(id);
      case Jump(target) => EmitJump(target);
      case BranchIfNot(cond, target) => ok := EmitBranch(cond, target);
      case Return(result) => EmitReturn(result);
      case Store(_, _) => ok := EmitLocal(i);
      case VarDef(_, _) => ok := EmitLocal(i);
      case Construct(dst, tag, fields) => ok := EmitConstruct(dst, tag, fields);
      case Nop =>
      case _ => ok := EmitValue(known, i);
    }

    method EmitValue(known: set<Sir.Symbol>, i: Sir.Insn) returns (ok: bool)
      requires Valid(State()) && !IsControl(i) && !i.Store? && !i.VarDef? && !i.Construct? && !i.Nop?
      modifies this
      ensures TranslateInsn(known, old(State()), i) == Result(ok)
    {
      ok := Accepts(known, i);
      if !ok {
        Refuse();
        return;
      }
      match i
      case Const(dst, literal) => DefineValue(dst, IConst(nextValue, literal));
      case Load(dst, Param(k)) => DefineValue(dst, UseVar(nextValue, params[k]));
      case Load(dst, Local(s)) => DefineValue(dst, UseVar(nextValue, vars[s]));
      case BinOp(dst, op, lhs, rhs) => DefineValue(dst, Binary(nextValue, op, values[lhs], values[rhs]));
      case UnOp(dst, op, rhs) => DefineValue(dst, Unary(nextValue, op, values[rhs]));
      case Call(dst, name, args) =>
        var operands := seq(|args|, k requires 0 <= k < |args| && args[k] in values reads this => values[args[k]]);
        assert operands == Mapped(State(), args);
        DefineValue(dst, CallFn(nextValue, name, operands));
      case TupleIndex(dst, tuple, index) => DefineValue(dst, MemLoad(nextValue, values[tuple], index));
      case FieldStore(base, index, value) => Emit(MemStore(values[value], values[base], index));
      case _ =>
    }

    /** Every operand already has a value, and a called function is declared. */
    predicate Accepts(known: set<Sir.Symbol>, i: Sir.Insn)
      reads this
    {
      match i
      case Const(_, _) => true
      case Load(_, Param(k)) => k < |params|
      case Load(_, Local(s)) => s in vars
      case BinOp(_, _, lhs, rhs) => lhs in values && rhs in values
      case UnOp(_, _, rhs) => rhs in values
      case Call(_, name, args) => name in known && forall k :: 0 <= k < |args| ==> args[k] in values
      case TupleIndex(_, tuple, _) => tuple in values
      case FieldStore(base, _, value) => base in values && value in values
      case _ => false
    }

    /** A block for every label, before any instruction is translated. */
    method PreallocateLabels(body: seq<Sir.Insn>)
      modifies this
      ensures State() == Preallocate(old(State()), body, |body|)
    {
      ghost var start := State();
      for i := 0 to |body|
        invariant State() == Preallocate(start, body, i)
      {
        if body[i].Label? {
          var b := CreateBlock();
          labels := labels[body[i].id := b];
        }
      }
    }

    /** Translates instructions until the end or the first refusal. */
    method TranslateBody(known: set<Sir.Symbol>, f: Sir.Function)
      requires State() == Prepared(f)
      modifies this
      ensures State() == Translate(known, f, |f.body|).c
    {
      for i := 0 to |f.body|
        invariant Translate(known, f, i) == Go(State())
      {
        var ok := EmitInsn(known, f.body[i]);
        if !ok {
          BailStays(known, f, i + 1);
          return;
        }
      }
    }

    /** Closes whatever is still open, so that every block ends in a terminator. */
    method CloseBlocks()
      requires Valid(State())
      modifies this
      ensures State() == Finish(old(State()))
    {
      if !terminated {
        EmitExit();
      }
      ghost var start := State();
      var orphans := labels.Values;
      for b := 0 to |blocks|
        invariant State() == SealOrphans(start, orphans, b) && |blocks| == |start.blocks|
      {
        if b in orphans && !HasTerminator(blocks[b]) {
          SwitchTo(b);
          EmitExit();
        }
      }
    }
  }

  /** One function from parameters to finished blocks. */
  method TranslateFunction(known: set<Sir.Symbol>, f: Sir.Function) returns (r: Function)
    ensures r == TranslateFn(known, f)
  {
    var t := new Translator(f.params);
    PreallocateValid(StartCtx(f.params), f.body, |f.body|);
    t.PreallocateLabels(f.body);
    t.TranslateBody(known, f);
    t.CloseBlocks();
    r := Function(|f.params|, t.slots, t.blocks);
  }
}
