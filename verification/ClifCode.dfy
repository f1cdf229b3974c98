/** Where the code of each source instruction ends up in the finished blocks, for functions that are
    translated to the end. */
module ClifCode {
  import opened Wrappers
  import opened Clif
  import opened ClifTranslate
  import opened ClifMaps
  import Sir

  // --- The functions covered -----------------------------------------------

  /** The body is translated to the end and returns only values it knows. */
  ghost predicate AllReady(known: set<Sir.Symbol>, f: Sir.Function) {
    forall i :: 0 <= i < |f.body| ==>
      && Ready(known, f, i)
      && (f.body[i].Return? && f.body[i].result.Some? ==> Sir.Defined(f.body, i, f.body[i].result.value))
  }

  ghost predicate Simulable(known: set<Sir.Symbol>, f: Sir.Function) {
    Sir.UniqueLabels(f.body) && Sir.SingleDefs(f.body) && AllReady(known, f)
  }

  /** The context before instruction `i`. */
  ghost function At(known: set<Sir.Symbol>, f: Sir.Function, i: nat): (c: Ctx)
    requires i <= |f.body|
    ensures Valid(c)
  {
    Translate(known, f, i).c
  }

  ghost function Final(known: set<Sir.Symbol>, f: Sir.Function): Ctx {
    At(known, f, |f.body|)
  }

  lemma AtStep(known: set<Sir.Symbol>, f: Sir.Function, i: nat)
    requires i < |f.body| && AllReady(known, f)
    ensures var c := At(known, f, i);
      && KeysAre(f, i, c)
      && TranslateInsn(known, c, f.body[i]) == Go(At(known, f, i + 1))
  {
    hide TranslateInsn, KeysAre, Ready, Valid, Prepared;
    TranslatesExactly(known, f, i);
    TranslatesExactly(known, f, i + 1);
  }

  // --- Nothing is rewritten ------------------------------------------------

  /** `d` continues `c`: blocks only grow at their ends, and no label changes its block and no name
      its value. */
  ghost predicate Continues(c: Ctx, d: Ctx) {
    && |c.blocks| <= |d.blocks|
    && (forall b :: 0 <= b < |c.blocks| ==> c.blocks[b] <= d.blocks[b])
    && (forall id :: id in c.labels ==> id in d.labels && d.labels[id] == c.labels[id])
    && (forall v :: v in c.values ==> v in d.values && d.values[v] == c.values[v])
  }

  /** No two values share an SSA name. */
  ghost predicate Numbered(c: Ctx) {
    && (forall v :: v in c.values ==> c.values[v] < c.nextValue)
    && (forall v, w :: v in c.values && w in c.values && v != w ==> c.values[v] != c.values[w])
  }

  ghost predicate BlocksGrow(c: Ctx, d: Ctx) {
    && |c.blocks| <= |d.blocks|
    && (forall b :: 0 <= b < |c.blocks| ==> c.blocks[b] <= d.blocks[b])
    && (forall id :: id in c.labels ==> id in d.labels && d.labels[id] == c.labels[id])
  }

  lemma InsGrows(c: Ctx, i: Inst)
    requires Valid(c)
    ensures BlocksGrow(c, Ins(c, i)) && BlocksGrow(c, NewBlock(Ins(c, i), true))
  {
  }

  lemma LabelExists(c: Ctx, id: Sir.LabelId)
    requires Valid(c)
    ensures id in WithLabel(c, id).labels && Valid(WithLabel(c, id))
  {
  }

  lemma WithLabelGrows(c: Ctx, id: Sir.LabelId, i: Inst)
    requires Valid(c)
    ensures var c1 := WithLabel(c, id);
      && Valid(c1) && id in c1.labels
      && BlocksGrow(c, Ins(c1, i)) && BlocksGrow(c, NewBlock(Ins(c1, i), true)) && BlocksGrow(c, c1)
  {
    var c1 := WithLabel(c, id);
    LabelGrows(c, id);
    InsGrows(c1, i);
    hide WithLabel, Ins, BlocksGrow, NewBlock;
    GrowsTrans(c, c1, Ins(c1, i));
    GrowsTrans(c, c1, NewBlock(Ins(c1, i), true));
  }

  lemma LabelGrows(c: Ctx, id: Sir.LabelId)
    requires Valid(c)
    ensures Valid(WithLabel(c, id)) && id in WithLabel(c, id).labels && BlocksGrow(c, WithLabel(c, id))
  {
  }

  lemma GrowsTrans(c: Ctx, d: Ctx, e: Ctx)
    requires BlocksGrow(c, d) && BlocksGrow(d, e)
    ensures BlocksGrow(c, e)
  {
    forall b | 0 <= b < |c.blocks| ensures c.blocks[b] <= e.blocks[b] {
      assert c.blocks[b] <= d.blocks[b] <= e.blocks[b];
    }
  }

  lemma ControlGrows(known: set<Sir.Symbol>, c: Ctx, i: Sir.Insn)
    requires Valid(c) && IsControl(i)
    ensures BlocksGrow(c, TranslateInsn(known, c, i).c)
  {
    hide Ins, WithLabel, BlocksGrow;
    match i
    case Label(id) =>
      LabelExists(c, id);
      WithLabelGrows(c, id, JumpTo(WithLabel(c, id).labels[id]));
      SameBlocks(c, WithLabel(c, id), TranslateInsn(known, c, i).c);
      SameBlocks(c, Ins(WithLabel(c, id), JumpTo(WithLabel(c, id).labels[id])), TranslateInsn(known, c, i).c);
    case Jump(target) =>
      LabelExists(c, target);
      var c1 := WithLabel(c, target);
      WithLabelGrows(c, target, JumpTo(c1.labels[target]));
      SameBlocks(c, NewBlock(Ins(c1, JumpTo(c1.labels[target])), true), TranslateInsn(known, c, i).c);
    case BranchIfNot(cond, target) =>
      if cond in c.values {
        LabelExists(c, target);
        var c1 := WithLabel(c, target);
        WithLabelGrows(c, target, Brif(c.values[cond], |c1.blocks|, c1.labels[target]));
      } else {
        GiveUpGrows(c);
      }
    case Return(result) =>
      var rets := if result.Some? && result.value in c.values then [c.values[result.value]] else [];
      InsGrows(c, Ret(rets));
      SameBlocks(c, NewBlock(Ins(c, Ret(rets)), true), TranslateInsn(known, c, i).c);
  }

  lemma SameBlocks(c: Ctx, d: Ctx, e: Ctx)
    ensures BlocksGrow(c, d) && e.blocks == d.blocks && e.labels == d.labels ==> BlocksGrow(c, e)
  {
  }

  lemma GiveUpGrows(c: Ctx)
    requires Valid(c)
    ensures BlocksGrow(c, GiveUp(c).c)
  {
  }

  lemma InsnGrows(known: set<Sir.Symbol>, c: Ctx, i: Sir.Insn)
    requires Valid(c)
    ensures BlocksGrow(c, TranslateInsn(known, c, i).c)
  {
    hide TranslateInsn;
    if IsControl(i) {
      ControlGrows(known, c, i);
    } else {
      var t, v := PlainInsn(known, c, i);
    }
  }

  lemma MapsContinue(f: Sir.Function, i: nat, c: Ctx, d: Ctx)
    requires i < |f.body| && Sir.SingleDefs(f.body)
    requires KeysAre(f, i, c) && MapStep(c, d, f.body[i]) && BlocksGrow(c, d)
    ensures Continues(c, d)
  {
    var dst := Sir.Defines(f.body[i]);
    if dst.Some? {
      assert !Sir.Defined(f.body, i, dst.value);
    }
  }

  lemma MapsNumbered(c: Ctx, d: Ctx, i: Sir.Insn)
    requires Numbered(c) && MapStep(c, d, i)
    ensures Numbered(d)
  {
  }

  lemma StepContinues(known: set<Sir.Symbol>, f: Sir.Function, i: nat)
    requires i < |f.body| && Simulable(known, f)
    ensures Continues(At(known, f, i), At(known, f, i + 1))
    ensures Numbered(At(known, f, i)) ==> Numbered(At(known, f, i + 1))
  {
    var c, d := At(known, f, i), At(known, f, i + 1);
    AtStep(known, f, i);
    hide TranslateInsn, KeysAre, AllReady, At, MapStep, Numbered, Continues, BlocksGrow, Valid;
    InsnMaps(known, c, f.body[i]);
    InsnGrows(known, c, f.body[i]);
    MapsContinue(f, i, c, d);
    if Numbered(c) {
      MapsNumbered(c, d, f.body[i]);
    }
  }

  lemma ContinuesTrans(c: Ctx, d: Ctx, e: Ctx)
    requires Continues(c, d) && Continues(d, e)
    ensures Continues(c, e)
  {
    forall b | 0 <= b < |c.blocks| ensures c.blocks[b] <= e.blocks[b] {
      assert c.blocks[b] <= d.blocks[b] <= e.blocks[b];
    }
  }

  lemma {:induction false} ContinuesTo(known: set<Sir.Symbol>, f: Sir.Function, i: nat, j: nat)
    requires i <= j <= |f.body| && Simulable(known, f)
    ensures Continues(At(known, f, i), At(known, f, j))
    decreases j
  {
    hide At, Simulable;
    if i < j {
      ContinuesTo(known, f, i, j - 1);
      StepContinues(known, f, j - 1);
      hide Continues;
      ContinuesTrans(At(known, f, i), At(known, f, j - 1), At(known, f, j));
    }
  }

  lemma StartNumbered(known: set<Sir.Symbol>, f: Sir.Function)
    ensures Numbered(At(known, f, 0))
  {
    PreparedKeys(f, |f.body|);
  }

  lemma {:induction false} AllNumbered(known: set<Sir.Symbol>, f: Sir.Function, i: nat)
    requires i <= |f.body| && Simulable(known, f)
    ensures Numbered(At(known, f, i))
  {
    hide At, Numbered, Simulable;
    if i == 0 {
      StartNumbered(known, f);
    } else {
      AllNumbered(known, f, i - 1);
      StepContinues(known, f, i - 1);
    }
  }

  lemma SealGrows(c: Ctx, orphans: set<BlockId>, b: nat)
    requires b <= |c.blocks|
    ensures forall k :: 0 <= k < |c.blocks| ==> c.blocks[k] <= SealOrphans(c, orphans, b).blocks[k]
  {
    if b > 0 {
      SealGrows(c, orphans, b - 1);
    }
  }

  /** What was emitted before instruction `i` is still there in the finished function. */
  lemma BlocksStay(known: set<Sir.Symbol>, f: Sir.Function, i: nat)
    requires i <= |f.body| && Simulable(known, f)
    ensures var c, blocks := At(known, f, i), TranslateFn(known, f).blocks;
      |c.blocks| <= |blocks| && forall b :: 0 <= b < |c.blocks| ==> c.blocks[b] <= blocks[b]
  {
    ContinuesTo(known, f, i, |f.body|);
    var e := Final(known, f);
    var e1 := if e.terminated then e else ExitOne(e);
    SealGrows(e1, e1.labels.Values, |e1.blocks|);
    hide SealOrphans, Translate;
    var c := At(known, f, i);
    forall b | 0 <= b < |c.blocks| ensures c.blocks[b] <= Finish(e).blocks[b] {
      assert c.blocks[b] <= e.blocks[b] <= e1.blocks[b];
    }
  }

  // --- Variables and slots -------------------------------------------------

  /** Which variable each local name means before instruction `i`, and the next free number: every
      declaration makes a new variable. */
  function VarsAt(f: Sir.Function, i: nat): (map<Sir.Symbol, Variable>, Variable)
    requires i <= |f.body|
  {
    if i == 0 then (ParamVars(f.params), |f.params|)
    else
      var (vars, next) := VarsAt(f, i - 1);
      match f.body[i - 1]
      case VarDef(name, _) => (vars[name := next], next + 1)
      case Store(name, _) => if name in vars then (vars, next) else (vars[name := next], next + 1)
      case _ => (vars, next)
  }

  function LocalVar(f: Sir.Function, i: nat, s: Sir.Symbol): Variable
    requires i <= |f.body|
  {
    if s in VarsAt(f, i).0 then VarsAt(f, i).0[s] else 0
  }

  function SourceVar(f: Sir.Function, i: nat, src: Sir.Source): Variable
    requires i <= |f.body|
  {
    match src
    case Param(k) => k
    case Local(s) => LocalVar(f, i, s)
  }

  /** The sizes of the stack slots of the first `i` instructions. */
  function SlotsAt(body: seq<Sir.Insn>, i: nat): (s: seq<nat>)
    requires i <= |body|
  {
    if i == 0 then [] else SlotsAt(body, i - 1) + NewSlots(body[i - 1])
  }

  ghost predicate NumberedAs(f: Sir.Function, i: nat, c: Ctx)
    requires i <= |f.body|
  {
    && (c.vars, c.nextVar) == VarsAt(f, i) && c.slots == SlotsAt(f.body, i)
    && c.params == seq(|f.params|, k => k)
  }

  lemma NumberedNext(f: Sir.Function, i: nat, c: Ctx, d: Ctx)
    requires i < |f.body| && NumberedAs(f, i, c) && MapStep(c, d, f.body[i])
    ensures NumberedAs(f, i + 1, d)
  {
    hide ValueStep, NewSlots;
  }

  lemma NumberedFirst(f: Sir.Function)
    ensures NumberedAs(f, 0, Prepared(f))
  {
    PreparedKeys(f, |f.body|);
    PreparedSlots(f, |f.body|);
  }

  lemma {:induction false} Numbering(known: set<Sir.Symbol>, f: Sir.Function, i: nat)
    requires i <= |f.body| && Simulable(known, f)
    ensures NumberedAs(f, i, At(known, f, i))
  {
    hide TranslateInsn, KeysAre, Ready, Sir.SingleDefs, Sir.UniqueLabels, MapStep, NumberedAs, Prepared;
    if i == 0 {
      NumberedFirst(f);
    } else {
      Numbering(known, f, i - 1);
      AtStep(known, f, i - 1);
      InsnMaps(known, At(known, f, i - 1), f.body[i - 1]);
      NumberedNext(f, i - 1, At(known, f, i - 1), At(known, f, i));
    }
  }

  lemma PreparedSlots(f: Sir.Function, i: nat)
    requires i <= |f.body|
    ensures Preallocate(StartCtx(f.params), f.body, i).slots == []
  {
    hide ParamVars;
    if i > 0 {
      PreparedSlots(f, i - 1);
    }
  }

  lemma SlotsGrow(body: seq<Sir.Insn>, i: nat, j: nat)
    requires i <= j <= |body|
    ensures SlotsAt(body, i) <= SlotsAt(body, j)
    ensures i < j && body[i].Construct? ==>
      && |SlotsAt(body, i)| < |SlotsAt(body, j)|
      && SlotsAt(body, j)[|SlotsAt(body, i)|] == CellCount(body[i].tag, body[i].fields)
    decreases j
  {
    if i < j {
      SlotsGrow(body, i, j - 1);
    }
  }

  lemma SealSlots(c: Ctx, orphans: set<BlockId>, b: nat)
    requires b <= |c.blocks|
    ensures SealOrphans(c, orphans, b).slots == c.slots
  {
    if b > 0 {
      SealSlots(c, orphans, b - 1);
    }
  }

  /** The finished function has a slot for every aggregate, of the aggregate's size. */
  lemma FinalSlots(known: set<Sir.Symbol>, f: Sir.Function)
    requires Simulable(known, f)
    ensures TranslateFn(known, f).slots == SlotsAt(f.body, |f.body|)
  {
    var e := Final(known, f);
    Numbering(known, f, |f.body|);
    var e1 := if e.terminated then e else ExitOne(e);
    SealSlots(e1, e1.labels.Values, |e1.blocks|);
    hide SealOrphans, Translate, Simulable;
  }

  // --- What each instruction becomes ---------------------------------------

  function ValueOf(e: Ctx, v: Sir.ValueId): Value {
    if v in e.values then e.values[v] else 0
  }

  function ValuesOf(e: Ctx, ids: seq<Sir.ValueId>): seq<Value> {
    seq(|ids|, i requires 0 <= i < |ids| => ValueOf(e, ids[i]))
  }

  function LabelBlock(e: Ctx, id: Sir.LabelId): BlockId {
    if id in e.labels then e.labels[id] else 0
  }

  /** The variant number, through the value `temp`, into the first cell. */
  function TagCode(temp: Value, tag: Option<int>, slot: nat): seq<Inst> {
    if tag.Some? then [IConst(temp, tag.value), StackStore(temp, slot, 0)] else []
  }

  function FieldCode(e: Ctx, fields: seq<Sir.ValueId>, slot: nat, offset: nat): seq<Inst> {
    if fields == [] then []
    else [StackStore(ValueOf(e, fields[0]), slot, offset)] + FieldCode(e, fields[1..], slot, offset + 1)
  }

  function AggregateCode(e: Ctx, temp: Value, tag: Option<int>, fields: seq<Sir.ValueId>, dst: Value,
                         slot: nat): seq<Inst> {
    TagCode(temp, tag, slot) + FieldCode(e, fields, slot, if tag.Some? then 1 else 0) + [StackAddr(dst, slot)]
  }

  /** The Cranelift instructions of instruction `i` under the finished maps; `next` is the block that
      follows a conditional branch. */
  function Code(e: Ctx, f: Sir.Function, i: nat, temp: Value, next: BlockId): seq<Inst>
    requires i < |f.body|
  {
    match f.body[i]
    case Const(dst, literal) => [IConst(ValueOf(e, dst), literal)]
    case Load(dst, src) => [UseVar(ValueOf(e, dst), SourceVar(f, i, src))]
    case Store(name, v) => [DefVar(LocalVar(f, i + 1, name), ValueOf(e, v))]
    case VarDef(name, init) => if init.Some? then [DefVar(LocalVar(f, i + 1, name), ValueOf(e, init.value))] else []
    case BinOp(dst, op, a, b) => [Binary(ValueOf(e, dst), op, ValueOf(e, a), ValueOf(e, b))]
    case UnOp(dst, op, a) => [Unary(ValueOf(e, dst), op, ValueOf(e, a))]
    case Call(dst, name, args) => [CallFn(ValueOf(e, dst), name, ValuesOf(e, args))]
    case TupleIndex(dst, tuple, index) => [MemLoad(ValueOf(e, dst), ValueOf(e, tuple), index)]
    case FieldStore(base, index, v) => [MemStore(ValueOf(e, v), ValueOf(e, base), index)]
    case Construct(dst, tag, fields) =>
      AggregateCode(e, temp, tag, fields, ValueOf(e, dst), |SlotsAt(f.body, i)|)
    case Label(id) => [JumpTo(LabelBlock(e, id))]
    case Jump(t) => [JumpTo(LabelBlock(e, t))]
    case BranchIfNot(v, t) => [Brif(ValueOf(e, v), next, LabelBlock(e, t))]
    case Return(r) => [Ret(if r.Some? then [ValueOf(e, r.value)] else [])]
    case _ => []
  }

  /** `d` is `c` with the code of instruction `i` appended to the current block. */
  ghost predicate Appends(c: Ctx, d: Ctx, e: Ctx, f: Sir.Function, i: nat)
    requires i < |f.body|
  {
    && c.current < |c.blocks| && c.current < |d.blocks|
    && d.blocks[c.current] == c.blocks[c.current] + Code(e, f, i, c.nextValue, d.current)
  }

  lemma FinalNames(d: Ctx, e: Ctx)
    requires Continues(d, e)
    ensures forall v :: v in d.values ==> ValueOf(e, v) == d.values[v]
    ensures forall id :: id in d.labels ==> LabelBlock(e, id) == d.labels[id]
  {
  }

  lemma LocalNames(f: Sir.Function, i: nat, c: Ctx)
    requires i <= |f.body| && NumberedAs(f, i, c)
    ensures forall s :: s in c.vars ==> LocalVar(f, i, s) == c.vars[s]
    ensures forall src :: VariableOf(c, src).Some? ==> VariableOf(c, src).value == SourceVar(f, i, src)
    ensures |c.slots| == |SlotsAt(f.body, i)|
  {
  }

  lemma EmitsLocal(known: set<Sir.Symbol>, c: Ctx, d: Ctx, e: Ctx, f: Sir.Function, i: nat)
    requires i < |f.body| && Valid(c) && TranslateInsn(known, c, f.body[i]) == Go(d)
    requires f.body[i].Store? || f.body[i].VarDef?
    requires Continues(c, e) && NumberedAs(f, i + 1, d)
    ensures d.current == c.current && Appends(c, d, e, f, i)
  {
    hide Continues, ValueOf, LocalVar, LabelBlock, NumberedAs, SlotsAt, SourceVar;
    FinalNames(c, e);
    LocalNames(f, i + 1, d);
    assert c.blocks[c.current] + [] == c.blocks[c.current];
  }

  lemma FieldCodeIs(c: Ctx, e: Ctx, fields: seq<Sir.ValueId>, slot: nat, offset: nat)
    requires forall v :: v in c.values ==> ValueOf(e, v) == c.values[v]
    requires forall k :: 0 <= k < |fields| ==> fields[k] in c.values
    ensures FieldCode(e, fields, slot, offset) == FieldStores(c, fields, slot, offset)
  {
    if fields != [] {
      FieldCodeIs(c, e, fields[1..], slot, offset + 1);
      assert forall k :: 1 <= k < |fields| ==> fields[k] == fields[1..][k - 1];
    }
  }

  lemma EmitsConstruct(known: set<Sir.Symbol>, c: Ctx, d: Ctx, e: Ctx, f: Sir.Function, i: nat)
    requires i < |f.body| && Valid(c) && TranslateInsn(known, c, f.body[i]) == Go(d) && f.body[i].Construct?
    requires Continues(c, e) && Continues(d, e) && NumberedAs(f, i, c)
    ensures d.current == c.current && Appends(c, d, e, f, i)
  {
    hide Continues, ValueOf, LabelBlock, NumberedAs, SlotsAt, FieldCode, FieldStores, TranslateConstruct, MapStep;
    hide VarsAt;
    FinalNames(c, e);
    FinalNames(d, e);
    LocalNames(f, i, c);
    var insn := f.body[i];
    ConstructMaps(c, insn.dst, insn.tag, insn.fields);
    ConstructCode(c, insn.dst, insn.tag, insn.fields);
    FieldCodeIs(c, e, insn.fields, |c.slots|, if insn.tag.Some? then 1 else 0);
    var head, stores := TagCode(c.nextValue, insn.tag, |c.slots|), FieldCode(e, insn.fields, |c.slots|,
      if insn.tag.Some? then 1 else 0);
    assert c.blocks[c.current] + head + stores + [StackAddr(d.values[insn.dst], |c.slots|)] ==
      c.blocks[c.current] + (head + stores + [StackAddr(d.values[insn.dst], |c.slots|)]);
  }

  /** Computes a value or writes a field, in one instruction. */
  predicate Single(i: Sir.Insn) {
    i.Const? || i.Load? || i.BinOp? || i.UnOp? || i.Call? || i.TupleIndex? || i.FieldStore?
  }

  lemma EmitsSingle(known: set<Sir.Symbol>, c: Ctx, d: Ctx, e: Ctx, f: Sir.Function, i: nat)
    requires i < |f.body| && Valid(c) && TranslateInsn(known, c, f.body[i]) == Go(d) && Single(f.body[i])
    requires Continues(c, e) && Continues(d, e) && NumberedAs(f, i, c)
    ensures d.current == c.current && Appends(c, d, e, f, i)
  {
    hide Continues, ValueOf, LocalVar, SourceVar, LabelBlock, NumberedAs, SlotsAt, VariableOf;
    FinalNames(c, e);
    FinalNames(d, e);
    LocalNames(f, i, c);
    if f.body[i].Call? {
      assert Mapped(c, f.body[i].args) == ValuesOf(e, f.body[i].args);
    }
  }

  lemma EmitsPlain(known: set<Sir.Symbol>, c: Ctx, d: Ctx, e: Ctx, f: Sir.Function, i: nat)
    requires i < |f.body| && Valid(c) && TranslateInsn(known, c, f.body[i]) == Go(d) && !IsControl(f.body[i])
    requires Continues(c, e) && Continues(d, e) && NumberedAs(f, i, c) && NumberedAs(f, i + 1, d)
    ensures d.current == c.current && Appends(c, d, e, f, i)
  {
    if f.body[i].Nop? {
      assert c.blocks[c.current] + [] == c.blocks[c.current];
    } else {
      assert Single(f.body[i]) || f.body[i].Store? || f.body[i].VarDef? || f.body[i].Construct?;
      hide *;
      if Single(f.body[i]) {
        EmitsSingle(known, c, d, e, f, i);
      } else if f.body[i].Construct? {
        EmitsConstruct(known, c, d, e, f, i);
      } else {
        EmitsLocal(known, c, d, e, f, i);
      }
    }
  }

  /** Where control goes in the blocks after falling out of instruction `i`. */
  ghost predicate Lands(c: Ctx, d: Ctx, e: Ctx, i: Sir.Insn) {
    && d.current < |d.blocks|
    && match i
       case Label(id) => d.current == LabelBlock(e, id) && d.blocks[d.current] == []
       case BranchIfNot(_, _) => d.blocks[d.current] == []
       case Jump(_) => true
       case Return(_) => true
       case _ => d.current == c.current
  }

  lemma EmitsLabel(known: set<Sir.Symbol>, c: Ctx, d: Ctx, e: Ctx, f: Sir.Function, i: nat, placed: set<Sir.LabelId>)
    requires i < |f.body| && Shape(c, placed) && f.body[i].Label? && TranslateInsn(known, c, f.body[i]) == Go(d)
    requires Continues(d, e) && f.body[i].id in c.labels && f.body[i].id !in placed
    ensures Appends(c, d, e, f, i) && Lands(c, d, e, f.body[i])
  {
    hide Continues, ValueOf, LabelBlock;
    FinalNames(d, e);
  }

  lemma EmitsJump(known: set<Sir.Symbol>, c: Ctx, d: Ctx, e: Ctx, f: Sir.Function, i: nat)
    requires i < |f.body| && Valid(c) && f.body[i].Jump? && TranslateInsn(known, c, f.body[i]) == Go(d)
    requires Continues(d, e)
    ensures Appends(c, d, e, f, i) && Lands(c, d, e, f.body[i])
  {
    hide Continues, ValueOf, LabelBlock;
    FinalNames(d, e);
  }

  lemma EmitsBranch(known: set<Sir.Symbol>, c: Ctx, d: Ctx, e: Ctx, f: Sir.Function, i: nat)
    requires i < |f.body| && Valid(c) && f.body[i].BranchIfNot? && TranslateInsn(known, c, f.body[i]) == Go(d)
    requires Continues(c, e) && Continues(d, e)
    ensures Appends(c, d, e, f, i) && Lands(c, d, e, f.body[i])
  {
    hide Continues, ValueOf, LabelBlock;
    FinalNames(c, e);
    FinalNames(d, e);
  }

  lemma EmitsReturn(known: set<Sir.Symbol>, c: Ctx, d: Ctx, e: Ctx, f: Sir.Function, i: nat)
    requires i < |f.body| && Valid(c) && f.body[i].Return? && TranslateInsn(known, c, f.body[i]) == Go(d)
    requires Continues(c, e)
    requires f.body[i].result.Some? ==> f.body[i].result.value in c.values
    ensures Appends(c, d, e, f, i) && Lands(c, d, e, f.body[i])
  {
    hide Continues, ValueOf, LabelBlock;
    FinalNames(c, e);
  }

  lemma EmitsControl(known: set<Sir.Symbol>, c: Ctx, d: Ctx, e: Ctx, f: Sir.Function, i: nat, placed: set<Sir.LabelId>)
    requires i < |f.body| && Shape(c, placed) && IsControl(f.body[i]) && TranslateInsn(known, c, f.body[i]) == Go(d)
    requires Continues(c, e) && Continues(d, e)
    requires f.body[i].Label? ==> f.body[i].id in c.labels && f.body[i].id !in placed
    requires f.body[i].Return? && f.body[i].result.Some? ==> f.body[i].result.value in c.values
    ensures Appends(c, d, e, f, i) && Lands(c, d, e, f.body[i])
  {
    hide Continues, Shape, TranslateInsn, Appends, Lands, Valid;
    ShapeValid(c, placed);
    if f.body[i].Label? {
      EmitsLabel(known, c, d, e, f, i, placed);
    } else if f.body[i].Jump? {
      EmitsJump(known, c, d, e, f, i);
    } else if f.body[i].BranchIfNot? {
      EmitsBranch(known, c, d, e, f, i);
    } else {
      EmitsReturn(known, c, d, e, f, i);
    }
  }

  lemma ShapeValid(c: Ctx, placed: set<Sir.LabelId>)
    requires Shape(c, placed)
    ensures Valid(c)
  {
  }

  /** Where the code of instruction `i` starts. */
  ghost function Spot(known: set<Sir.Symbol>, f: Sir.Function, i: nat): (BlockId, nat)
    requires i <= |f.body|
  {
    var c := At(known, f, i);
    (c.current, |c.blocks[c.current]|)
  }

  ghost function CodeAt(known: set<Sir.Symbol>, f: Sir.Function, i: nat): seq<Inst>
    requires i < |f.body|
  {
    Code(Final(known, f), f, i, At(known, f, i).nextValue, At(known, f, i + 1).current)
  }

  lemma ControlReady(known: set<Sir.Symbol>, f: Sir.Function, i: nat, c: Ctx)
    requires i < |f.body| && Simulable(known, f) && KeysAre(f, i, c)
    ensures f.body[i].Return? && f.body[i].result.Some? ==> f.body[i].result.value in c.values
  {
    hide Sir.SingleDefs, Sir.UniqueLabels, Ready;
  }

  lemma Emits(known: set<Sir.Symbol>, f: Sir.Function, i: nat)
    requires i < |f.body| && Simulable(known, f)
    ensures var c, d, e := At(known, f, i), At(known, f, i + 1), Final(known, f);
      Appends(c, d, e, f, i) && Lands(c, d, e, f.body[i])
  {
    var c, d, e := At(known, f, i), At(known, f, i + 1), Final(known, f);
    AtStep(known, f, i);
    ContinuesTo(known, f, i, |f.body|);
    ContinuesTo(known, f, i + 1, |f.body|);
    Numbering(known, f, i);
    Numbering(known, f, i + 1);
    ControlReady(known, f, i, c);
    hide TranslateInsn, Continues, Appends, Shape, NumberedAs, KeysAre, Ready, AllReady, Sir.SingleDefs;
    TranslatesExactly(known, f, i);
    BodyShape(known, f, i);
    if IsControl(f.body[i]) {
      PlacedNext(f.body, i);
      EmitsControl(known, c, d, e, f, i, Placed(f.body, i));
    } else {
      EmitsPlain(known, c, d, e, f, i);
    }
  }

  /** `code` stands at position `k` of a block. */
  predicate StandsAt(block: seq<Inst>, k: nat, code: seq<Inst>) {
    k + |code| <= |block| && block[k..k + |code|] == code
  }

  /** The code of each instruction is found at its spot in the finished function, and the next
      spot is where control continues. */
  lemma Located(known: set<Sir.Symbol>, f: Sir.Function, i: nat)
    requires i < |f.body| && Simulable(known, f)
    ensures var (b, k), code, blocks := Spot(known, f, i), CodeAt(known, f, i), TranslateFn(known, f).blocks;
      && b < |blocks| && StandsAt(blocks[b], k, code)
      && match f.body[i]
         case Label(id) => Spot(known, f, i + 1) == (LabelBlock(Final(known, f), id), 0)
         case BranchIfNot(_, _) => Spot(known, f, i + 1) == (At(known, f, i + 1).current, 0)
         case Jump(_) => true
         case Return(_) => true
         case _ => Spot(known, f, i + 1) == (b, k + |code|)
  {
    hide TranslateFn, At, Simulable, Code;
    Emits(known, f, i);
    BlocksStay(known, f, i + 1);
    var c, d, blocks := At(known, f, i), At(known, f, i + 1), TranslateFn(known, f).blocks;
    assert d.blocks[c.current] <= blocks[c.current];
    assert blocks[c.current][..|d.blocks[c.current]|] == c.blocks[c.current] + CodeAt(known, f, i);
  }

  /** No value of the body is kept where the number of a variant passes through. */
  ghost predicate Unused(c: Ctx, temp: Value) {
    temp < c.nextValue && forall v :: v in c.values ==> c.values[v] != temp
  }

  lemma {:induction false} StaysUnused(known: set<Sir.Symbol>, f: Sir.Function, i: nat, j: nat, temp: Value)
    requires i <= j <= |f.body| && Simulable(known, f) && Unused(At(known, f, i), temp)
    ensures Unused(At(known, f, j), temp)
    decreases j
  {
    hide At, Simulable, Unused;
    if i < j {
      StaysUnused(known, f, i, j - 1, temp);
      var c := StepMaps(known, f, j - 1);
      UnusedNext(c, At(known, f, j), f.body[j - 1], temp);
    }
  }

  lemma StepMaps(known: set<Sir.Symbol>, f: Sir.Function, i: nat) returns (c: Ctx)
    requires i < |f.body| && Simulable(known, f)
    ensures c == At(known, f, i) && MapStep(c, At(known, f, i + 1), f.body[i])
  {
    AtStep(known, f, i);
    hide At, TranslateInsn, KeysAre, Simulable, MapStep;
    c := At(known, f, i);
    InsnMaps(known, c, f.body[i]);
  }

  lemma UnusedNext(c: Ctx, d: Ctx, i: Sir.Insn, temp: Value)
    requires Unused(c, temp) && MapStep(c, d, i)
    ensures Unused(d, temp)
  {
    hide VarStep, NewSlots;
  }

  lemma BuiltValue(known: set<Sir.Symbol>, c: Ctx, d: Ctx, i: Sir.Insn)
    requires Valid(c) && i.Construct? && TranslateInsn(known, c, i) == Go(d)
    ensures d.values == c.values[i.dst := c.nextValue + if i.tag.Some? then 1 else 0]
  {
    hide TranslateConstruct, FieldStores, MapStep;
    ConstructMaps(c, i.dst, i.tag, i.fields);
    ConstructCode(c, i.dst, i.tag, i.fields);
  }

  lemma TempFresh(known: set<Sir.Symbol>, f: Sir.Function, i: nat)
    requires i < |f.body| && Simulable(known, f) && f.body[i].Construct? && f.body[i].tag.Some?
    ensures forall v :: v in Final(known, f).values ==> Final(known, f).values[v] != At(known, f, i).nextValue
  {
    hide At, TranslateInsn, KeysAre, Simulable, Numbered, MapStep;
    AllNumbered(known, f, i);
    SimulableReady(known, f);
    AtStep(known, f, i);
    var c := StepMaps(known, f, i);
    BuiltValue(known, c, At(known, f, i + 1), f.body[i]);
    TempUnused(c, At(known, f, i + 1), f.body[i]);
    StaysUnused(known, f, i + 1, |f.body|, c.nextValue);
  }

  lemma SimulableReady(known: set<Sir.Symbol>, f: Sir.Function)
    requires Simulable(known, f)
    ensures AllReady(known, f)
  {
    hide AllReady, Sir.SingleDefs, Sir.UniqueLabels;
  }

  lemma TempUnused(c: Ctx, d: Ctx, i: Sir.Insn)
    requires Numbered(c) && MapStep(c, d, i) && i.Construct? && d.values == c.values[i.dst := c.nextValue + 1]
    ensures Unused(d, c.nextValue)
  {
    hide VarStep, NewSlots;
  }
}
