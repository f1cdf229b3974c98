/** Facts about a whole translation: which operands are known where, that the value and variable
    maps only ever grow and never confuse two names, and that emitted blocks are never rewritten. */
module ClifMaps {
  import opened Wrappers
  import opened Clif
  import opened ClifTranslate
  import Sir

  // --- What is known before an instruction ---------------------------------

  function Names(i: Sir.Insn): Option<Sir.Symbol> {
    match i
    case Store(name, _) => Some(name)
    case VarDef(name, _) => Some(name)
    case _ => None
  }

  /** Local `s` is a parameter or is declared or stored by one of the first `i` instructions. */
  ghost predicate Mentioned(f: Sir.Function, i: nat, s: Sir.Symbol)
    requires i <= |f.body|
  {
    s in f.params || exists j :: 0 <= j < i && Names(f.body[j]) == Some(s)
  }

  ghost predicate AllDefined(body: seq<Sir.Insn>, i: nat, ids: seq<Sir.ValueId>)
    requires i <= |body|
  {
    forall k :: 0 <= k < |ids| ==> Sir.Defined(body, i, ids[k])
  }

  /** Every operand of instruction `i` is defined earlier in the text, and it is one the backend
      knows how to translate. */
  ghost predicate Ready(known: set<Sir.Symbol>, f: Sir.Function, i: nat)
    requires i < |f.body|
  {
    match f.body[i]
    case Load(_, Param(k)) => k < |f.params|
    case Load(_, Local(s)) => Mentioned(f, i, s)
    case Store(_, v) => Sir.Defined(f.body, i, v)
    case VarDef(_, init) => init.Some? ==> Sir.Defined(f.body, i, init.value)
    case BinOp(_, _, a, b) => Sir.Defined(f.body, i, a) && Sir.Defined(f.body, i, b)
    case UnOp(_, _, a) => Sir.Defined(f.body, i, a)
    case Call(_, name, args) => name in known && AllDefined(f.body, i, args)
    case TupleIndex(_, t, _) => Sir.Defined(f.body, i, t)
    case FieldStore(b, _, v) => Sir.Defined(f.body, i, b) && Sir.Defined(f.body, i, v)
    case Construct(_, _, fields) => AllDefined(f.body, i, fields)
    case BranchIfNot(c, _) => Sir.Defined(f.body, i, c)
    case ArrayPush(_, _, _) => false
    case Other => false
    case _ => true
  }

  ghost predicate KeysAre(f: Sir.Function, i: nat, c: Ctx)
    requires i <= |f.body|
  {
    && (forall v :: v in c.values <==> Sir.Defined(f.body, i, v))
    && (forall s :: s in c.vars <==> Mentioned(f, i, s))
    && |c.params| == |f.params|
  }

  lemma StoreFieldsKeys(c: Ctx, fields: seq<Sir.ValueId>, slot: nat, offset: nat)
    requires Valid(c)
    ensures var o := StoreFields(c, fields, slot, offset);
      && (o.Go? <==> forall k :: 0 <= k < |fields| ==> fields[k] in c.values)
      && (o.Go? ==> Valid(o.c) && o.c.values == c.values && o.c.vars == c.vars && o.c.params == c.params
                    && o.c.nextValue == c.nextValue && o.c.nextVar == c.nextVar && o.c.slots == c.slots)
    decreases |fields|
  {
    if fields != [] && fields[0] in c.values {
      StoreFieldsKeys(Ins(c, StackStore(c.values[fields[0]], slot, offset)), fields[1..], slot, offset + 1);
      assert forall k :: 0 <= k < |fields| ==> fields[k] == if k == 0 then fields[0] else fields[1..][k - 1];
    }
  }

  /** One store per field, in order, into consecutive cells. */
  function FieldStores(c: Ctx, fields: seq<Sir.ValueId>, slot: nat, offset: nat): (s: seq<Inst>)
    requires forall k :: 0 <= k < |fields| ==> fields[k] in c.values
    ensures |s| == |fields| && forall k :: 0 <= k < |fields| ==>
      s[k] == StackStore(c.values[fields[k]], slot, offset + k)
  {
    seq(|fields|, k requires 0 <= k < |fields| => StackStore(c.values[fields[k]], slot, offset + k))
  }

  lemma FieldStoresNext(c: Ctx, fields: seq<Sir.ValueId>, slot: nat, offset: nat)
    requires Valid(c) && fields != [] && forall k :: 0 <= k < |fields| ==> fields[k] in c.values
    ensures var first := StackStore(c.values[fields[0]], slot, offset);
      && (forall k :: 0 <= k < |fields[1..]| ==> fields[1..][k] in c.values)
      && FieldStores(c, fields, slot, offset) == [first] + FieldStores(Ins(c, first), fields[1..], slot, offset + 1)
  {
    assert forall k :: 0 <= k < |fields[1..]| ==> fields[1..][k] == fields[k + 1];
  }

  lemma AppendTwice(c: Ctx, i: Inst, s: seq<Inst>)
    requires Valid(c)
    ensures Valid(Ins(c, i))
    ensures Ins(c, i).(blocks := Ins(c, i).blocks[c.current := Ins(c, i).blocks[c.current] + s]) ==
      c.(blocks := c.blocks[c.current := c.blocks[c.current] + ([i] + s)])
  {
    assert c.blocks[c.current] + [i] + s == c.blocks[c.current] + ([i] + s);
    assert Ins(c, i).blocks[c.current := Ins(c, i).blocks[c.current] + s] ==
      c.blocks[c.current := c.blocks[c.current] + ([i] + s)];
  }

  lemma {:induction false} StoreFieldsCode(c: Ctx, fields: seq<Sir.ValueId>, slot: nat, offset: nat)
    requires Valid(c) && forall k :: 0 <= k < |fields| ==> fields[k] in c.values
    ensures StoreFields(c, fields, slot, offset) ==
      Go(c.(blocks := c.blocks[c.current := c.blocks[c.current] + FieldStores(c, fields, slot, offset)]))
    decreases |fields|
  {
    hide FieldStores;
    if fields == [] {
      assert c.blocks[c.current] + FieldStores(c, fields, slot, offset) == c.blocks[c.current];
    } else {
      var first := StackStore(c.values[fields[0]], slot, offset);
      FieldStoresNext(c, fields, slot, offset);
      AppendTwice(c, first, FieldStores(Ins(c, first), fields[1..], slot, offset + 1));
      StoreFieldsCode(Ins(c, first), fields[1..], slot, offset + 1);
    }
  }

  /** The cells of a struct are its fields in order; those of an enum are its variant number and
      then its fields, each one cell later. */
  lemma ConstructCode(c: Ctx, dst: Sir.ValueId, tag: Option<int>, fields: seq<Sir.ValueId>)
    requires Valid(c) && forall k :: 0 <= k < |fields| ==> fields[k] in c.values
    ensures var o := TranslateConstruct(c, dst, tag, fields);
      var slot := |c.slots|;
      var head := if tag.Some? then [IConst(c.nextValue, tag.value), StackStore(c.nextValue, slot, 0)] else [];
      && o.Go? && dst in o.c.values && c.current < |o.c.blocks|
      && o.c.blocks[c.current] == c.blocks[c.current] + head +
          FieldStores(c, fields, slot, if tag.Some? then 1 else 0) + [StackAddr(o.c.values[dst], slot)]
      && o.c.slots == c.slots + [CellCount(tag, fields)] && o.c.current == c.current
      && o.c.values == c.values[dst := c.nextValue + if tag.Some? then 1 else 0]
  {
    var slot := |c.slots|;
    var c1 := c.(slots := c.slots + [CellCount(tag, fields)]);
    if tag.Some? {
      var i, j := IConst(c.nextValue, tag.value), StackStore(c.nextValue, slot, 0);
      var c2 := Ins(Ins(c1, i), j).(nextValue := c.nextValue + 1);
      StoreFieldsCode(c2, fields, slot, 1);
      assert c.blocks[c.current] + [i] + [j] == c.blocks[c.current] + [i, j];
      assert FieldStores(c2, fields, slot, 1) == FieldStores(c, fields, slot, 1);
    } else {
      StoreFieldsCode(c1, fields, slot, 0);
      assert c.blocks[c.current] + [] == c.blocks[c.current];
      assert FieldStores(c1, fields, slot, 0) == FieldStores(c, fields, slot, 0);
    }
  }

  /** How a translated instruction changes the maps. */
  ghost predicate MapStep(c: Ctx, c2: Ctx, i: Sir.Insn) {
    && c2.params == c.params
    && ValueStep(c, c2, Sir.Defines(i))
    && VarStep(c, c2, i)
    && c2.slots == c.slots + NewSlots(i)
  }

  /** An aggregate's instruction has a stack slot of its own. */
  function NewSlots(i: Sir.Insn): seq<nat> {
    if i.Construct? then [CellCount(i.tag, i.fields)] else []
  }

  ghost predicate ValueStep(c: Ctx, c2: Ctx, dst: Option<Sir.ValueId>) {
    match dst
    case None => c2.values == c.values && c.nextValue <= c2.nextValue
    case Some(d) =>
      && d in c2.values && c.nextValue <= c2.values[d] < c2.nextValue
      && c2.values == c.values[d := c2.values[d]]
  }

  ghost predicate VarStep(c: Ctx, c2: Ctx, i: Sir.Insn) {
    match Names(i)
    case None => c2.vars == c.vars && c2.nextVar == c.nextVar
    case Some(s) =>
      if i.Store? && s in c.vars then c2.vars == c.vars && c2.nextVar == c.nextVar
      else c2.vars == c.vars[s := c.nextVar] && c2.nextVar == c.nextVar + 1
  }

  /** `Ready` read off the maps. */
  ghost predicate Translatable(known: set<Sir.Symbol>, c: Ctx, i: Sir.Insn) {
    match i
    case Load(_, src) => VariableOf(c, src).Some?
    case Store(_, v) => v in c.values
    case VarDef(_, init) => init.Some? ==> init.value in c.values
    case BinOp(_, _, a, b) => a in c.values && b in c.values
    case UnOp(_, _, a) => a in c.values
    case Call(_, name, args) => name in known && forall k :: 0 <= k < |args| ==> args[k] in c.values
    case TupleIndex(_, t, _) => t in c.values
    case FieldStore(b, _, v) => b in c.values && v in c.values
    case Construct(_, _, fields) => forall k :: 0 <= k < |fields| ==> fields[k] in c.values
    case BranchIfNot(v, _) => v in c.values
    case ArrayPush(_, _, _) => false
    case Other => false
    case _ => true
  }

  lemma ReadyMaps(known: set<Sir.Symbol>, f: Sir.Function, i: nat, c: Ctx)
    requires i < |f.body| && KeysAre(f, i, c)
    ensures Ready(known, f, i) <==> Translatable(known, c, f.body[i])
  {
    hide Sir.Defined, Mentioned;
  }

  lemma InsnAccepted(known: set<Sir.Symbol>, c: Ctx, i: Sir.Insn)
    requires Valid(c)
    ensures TranslateInsn(known, c, i).Go? <==> Translatable(known, c, i)
  {
    if i.Construct? {
      ConstructMaps(c, i.dst, i.tag, i.fields);
    }
  }

  lemma ControlMaps(known: set<Sir.Symbol>, c: Ctx, i: Sir.Insn)
    requires Valid(c) && IsControl(i) && TranslateInsn(known, c, i).Go?
    ensures MapStep(c, TranslateInsn(known, c, i).c, i)
  {
    match i
    case Label(id) => LabelMaps(c, id);
    case Jump(t) => LabelMaps(c, t);
    case BranchIfNot(_, t) => LabelMaps(c, t);
    case Return(_) =>
  }

  /** Making a block for a label leaves values and variables alone. */
  lemma LabelMaps(c: Ctx, id: Sir.LabelId)
    requires Valid(c)
    ensures var d := WithLabel(c, id);
      && id in d.labels && d.current < |d.blocks|
      && d.values == c.values && d.vars == c.vars && d.params == c.params && d.slots == c.slots
      && d.nextValue == c.nextValue && d.nextVar == c.nextVar
  {
  }

  lemma LocalMaps(known: set<Sir.Symbol>, c: Ctx, i: Sir.Insn)
    requires Valid(c) && (i.Store? || i.VarDef?) && TranslateInsn(known, c, i).Go?
    ensures MapStep(c, TranslateInsn(known, c, i).c, i)
  {
  }

  lemma InsnMaps(known: set<Sir.Symbol>, c: Ctx, i: Sir.Insn)
    requires Valid(c) && TranslateInsn(known, c, i).Go?
    ensures MapStep(c, TranslateInsn(known, c, i).c, i)
  {
    if i.Construct? {
      ConstructMaps(c, i.dst, i.tag, i.fields);
    } else if IsControl(i) {
      ControlMaps(known, c, i);
    } else if i.Store? || i.VarDef? {
      LocalMaps(known, c, i);
    } else {
      assert Names(i).None?;
    }
  }

  lemma ConstructMaps(c: Ctx, dst: Sir.ValueId, tag: Option<int>, fields: seq<Sir.ValueId>)
    requires Valid(c)
    ensures var o := TranslateConstruct(c, dst, tag, fields);
      && (o.Go? <==> forall k :: 0 <= k < |fields| ==> fields[k] in c.values)
      && (o.Go? ==> MapStep(c, o.c, Sir.Construct(dst, tag, fields)))
  {
    var slot := |c.slots|;
    var c1 := c.(slots := c.slots + [CellCount(tag, fields)]);
    var c2 :=
      if tag.Some? then
        Ins(Ins(c1, IConst(c.nextValue, tag.value)), StackStore(c.nextValue, slot, 0)).(nextValue := c.nextValue + 1)
      else c1;
    StoreFieldsKeys(c2, fields, slot, if tag.Some? then 1 else 0);
  }

  lemma KeysNext(f: Sir.Function, i: nat, c: Ctx, c2: Ctx)
    requires i < |f.body| && KeysAre(f, i, c) && MapStep(c, c2, f.body[i])
    ensures KeysAre(f, i + 1, c2)
  {
    forall v ensures v in c2.values <==> Sir.Defined(f.body, i + 1, v) {
      assert Sir.Defined(f.body, i + 1, v) <==> Sir.Defined(f.body, i, v) || Sir.Defines(f.body[i]) == Some(v);
    }
    forall s ensures s in c2.vars <==> Mentioned(f, i + 1, s) {
      assert Mentioned(f, i + 1, s) <==> Mentioned(f, i, s) || Names(f.body[i]) == Some(s);
    }
  }

  lemma PreparedKeys(f: Sir.Function, i: nat)
    requires i <= |f.body|
    ensures var c := Preallocate(StartCtx(f.params), f.body, i);
      c.values == map[] && c.vars == ParamVars(f.params) && c.params == StartCtx(f.params).params
      && c.nextValue == 0 && c.nextVar == |f.params|
  {
    hide ParamVars;
    if i > 0 {
      PreparedKeys(f, i - 1);
    }
  }

  lemma StartKeys(f: Sir.Function)
    ensures KeysAre(f, 0, Prepared(f))
  {
    PreparedKeys(f, |f.body|);
  }

  /** The body is translated to the end exactly when every instruction is ready: every operand is
      defined earlier in the text. */
  lemma {:induction false} TranslatesExactly(known: set<Sir.Symbol>, f: Sir.Function, n: nat)
    requires n <= |f.body|
    ensures Translate(known, f, n).Go? <==> forall i :: 0 <= i < n ==> Ready(known, f, i)
    ensures Translate(known, f, n).Go? ==> KeysAre(f, n, Translate(known, f, n).c)
  {
    hide Ready, KeysAre, TranslateInsn, Prepared, MapStep, Translatable, Valid;
    if n == 0 {
      StartKeys(f);
    } else {
      TranslatesExactly(known, f, n - 1);
      if Translate(known, f, n - 1).Go? {
        var c := Translate(known, f, n - 1).c;
        InsnAccepted(known, c, f.body[n - 1]);
        ReadyMaps(known, f, n - 1, c);
        if Ready(known, f, n - 1) {
          InsnMaps(known, c, f.body[n - 1]);
          KeysNext(f, n - 1, c, TranslateInsn(known, c, f.body[n - 1]).c);
        }
      }
    }
  }
}
