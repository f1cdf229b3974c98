/** Functions that are refused part-way. Up to the refused instruction the blocks do what the source does;
    there, at every label after it, and past the end of a body, they end the process with code 1. */
module ClifRefused {
  import opened Wrappers
  import opened Clif
  import opened ClifTranslate
  import opened ClifMaps
  import opened ClifCode
  import opened ClifStraight
  import opened ClifSim
  import opened Trails
  import opened Places
  import ClifSafe
  import Regions
  import Sir

  // --- The part that is translated -----------------------------------------

  ghost function LimitFrom(known: set<Sir.Symbol>, f: Sir.Function, i: nat): (n: nat)
    requires i <= |f.body|
    ensures i <= n <= |f.body| && (forall k :: i <= k < n ==> Ready(known, f, k))
    ensures n < |f.body| ==> !Ready(known, f, n)
    decreases |f.body| - i
  {
    if i == |f.body| || !Ready(known, f, i) then i else LimitFrom(known, f, i + 1)
  }

  /** The first instruction that is refused, or the end of the body. */
  ghost function Limit(known: set<Sir.Symbol>, f: Sir.Function): (n: nat)
    ensures n <= |f.body| && (forall k :: 0 <= k < n ==> Ready(known, f, k))
    ensures n < |f.body| ==> !Ready(known, f, n)
  {
    LimitFrom(known, f, 0)
  }

  function Blank(i: Sir.Insn): Sir.Insn {
    if i.Label? then i else Sir.Nop
  }

  /** The function without its instructions from `n` on, but for labels. */
  function Cut(f: Sir.Function, n: nat): (g: Sir.Function)
    ensures |g.body| == |f.body| && g.params == f.params
    ensures forall i :: 0 <= i < |f.body| ==> g.body[i] == if i < n then f.body[i] else Blank(f.body[i])
  {
    f.(body := seq(|f.body|, i requires 0 <= i < |f.body| => if i < n then f.body[i] else Blank(f.body[i])))
  }

  /** What the backend asks of the part it translates, refusals apart. */
  ghost predicate Cuttable(known: set<Sir.Symbol>, f: Sir.Function) {
    && Sir.UniqueLabels(f.body) && Sir.SingleDefs(f.body)
    && forall i :: 0 <= i < Limit(known, f) && f.body[i].Return? && f.body[i].result.Some? ==>
      Sir.Defined(f.body, i, f.body[i].result.value)
  }

  ghost function CutFn(known: set<Sir.Symbol>, f: Sir.Function): (g: Sir.Function)
    ensures |g.body| == |f.body| && g.params == f.params
  {
    Cut(f, Limit(known, f))
  }

  lemma CutDefined(f: Sir.Function, n: nat, i: nat)
    requires i <= n <= |f.body|
    ensures forall v :: Sir.Defined(Cut(f, n).body, i, v) <==> Sir.Defined(f.body, i, v)
    ensures forall s :: Mentioned(Cut(f, n), i, s) <==> Mentioned(f, i, s)
  {
    var g := Cut(f, n);
    forall v: Sir.ValueId ensures Sir.Defined(g.body, i, v) <==> Sir.Defined(f.body, i, v) {
      if j :| 0 <= j < i && Sir.Defines(f.body[j]) == Some(v) {
        assert Sir.Defines(g.body[j]) == Some(v);
      }
    }
    forall s: Sir.Symbol ensures Mentioned(g, i, s) <==> Mentioned(f, i, s) {
      if j :| 0 <= j < i && Names(f.body[j]) == Some(s) {
        assert Names(g.body[j]) == Some(s);
      }
    }
  }

  lemma CutReady(known: set<Sir.Symbol>, f: Sir.Function, i: nat)
    requires i < |f.body|
    ensures Ready(known, CutFn(known, f), i)
  {
    var n := Limit(known, f);
    if i < n {
      CutDefined(f, n, i);
      hide Sir.Defined, Mentioned, Limit, Cut;
      assert Ready(known, f, i);
    }
  }

  lemma CutSimulable(known: set<Sir.Symbol>, f: Sir.Function)
    requires Cuttable(known, f)
    ensures Simulable(known, CutFn(known, f))
  {
    var n, g := Limit(known, f), CutFn(known, f);
    hide Ready, Limit;
    forall i | 0 <= i < |g.body|
      ensures Ready(known, g, i)
      ensures g.body[i].Return? && g.body[i].result.Some? ==> Sir.Defined(g.body, i, g.body[i].result.value)
    {
      CutReady(known, f, i);
      if i < n {
        CutDefined(f, n, i);
      }
    }
  }

  lemma {:induction false} PreallocateCut(f: Sir.Function, n: nat, i: nat)
    requires i <= |f.body|
    ensures Preallocate(StartCtx(f.params), Cut(f, n).body, i) == Preallocate(StartCtx(f.params), f.body, i)
  {
    hide StartCtx;
    if i > 0 {
      PreallocateCut(f, n, i - 1);
    }
  }

  /** Up to where it is cut, a function is translated as before. */
  lemma {:induction false} CutTranslates(known: set<Sir.Symbol>, f: Sir.Function, n: nat, i: nat)
    requires i <= n <= |f.body|
    ensures Translate(known, Cut(f, n), i) == Translate(known, f, i)
  {
    hide TranslateInsn, Preallocate, StartCtx;
    if i == 0 {
      PreallocateCut(f, n, |f.body|);
    } else {
      CutTranslates(known, f, n, i - 1);
    }
  }

  /** The context where translation stops. */
  ghost function Stop(known: set<Sir.Symbol>, f: Sir.Function): (c: Ctx)
    ensures Valid(c)
  {
    At(known, f, Limit(known, f))
  }

  lemma StopIs(known: set<Sir.Symbol>, f: Sir.Function)
    ensures Translate(known, f, Limit(known, f)) == Go(Stop(known, f))
    ensures At(known, CutFn(known, f), Limit(known, f)) == Stop(known, f)
    ensures Limit(known, f) < |f.body| ==> Translate(known, f, Limit(known, f) + 1).Bail?
  {
    var n := Limit(known, f);
    hide Translate, Ready;
    TranslatesExactly(known, f, n);
    CutTranslates(known, f, n, n);
    if n < |f.body| {
      TranslatesExactly(known, f, n + 1);
    }
  }

  // --- The code of a refusal -----------------------------------------------

  /** What stands in front of the exit: the variant number and the fields up to the first that is missing,
      if an aggregate is refused, and nothing otherwise. */
  ghost predicate Partial(c: Ctx, i: Sir.Insn, s: seq<Inst>) {
    if i.Construct? then
      exists j :: 0 <= j <= |i.fields| && (forall k :: 0 <= k < j ==> i.fields[k] in c.values) &&
        s == TagCode(c.nextValue, i.tag, |c.slots|)
          + FieldStores(c, i.fields[..j], |c.slots|, if i.tag.Some? then 1 else 0)
    else s == []
  }

  /** `d` is `c` with `s` and the exit appended to the current block. */
  ghost predicate Exits(c: Ctx, d: Ctx, s: seq<Inst>)
    requires Valid(c)
  {
    && |d.blocks| == |c.blocks| && d.labels == c.labels
    && (forall b :: 0 <= b < |c.blocks| && b != c.current ==> d.blocks[b] == c.blocks[b])
    && c.blocks[c.current] + s <= d.blocks[c.current]
    && EndsProcess(d.blocks[c.current], |c.blocks[c.current]| + |s|)
  }

  lemma GiveUpExits(c: Ctx)
    requires Valid(c)
    ensures Exits(c, GiveUp(c).c, [])
  {
    GrownNothing(c, c);
    GrownGiveUp(c, c, []);
  }

  lemma ExitsAfter(c: Ctx, c2: Ctx, d: Ctx, s: seq<Inst>, t: seq<Inst>)
    requires Valid(c) && Grown(c, c2, s) && Valid(c2) && Exits(c2, d, t)
    ensures Exits(c, d, s + t)
  {
    assert c.blocks[c.current] + s + t == c.blocks[c.current] + (s + t);
  }

  lemma {:induction false} FieldsExit(c: Ctx, fields: seq<Sir.ValueId>, slot: nat, offset: nat) returns (j: nat)
    requires Valid(c) && StoreFields(c, fields, slot, offset).Bail?
    ensures j <= |fields| && forall k :: 0 <= k < j ==> fields[k] in c.values
    ensures Exits(c, StoreFields(c, fields, slot, offset).c, FieldStores(c, fields[..j], slot, offset))
    ensures StoreFields(c, fields, slot, offset).c.slots == c.slots
    decreases |fields|
  {
    hide Exits, Grown, GiveUp, Ins;
    if fields[0] !in c.values {
      GiveUpExits(c);
      GiveUpSlots(c);
      j := 0;
      assert FieldStores(c, fields[..0], slot, offset) == [];
    } else {
      var i := StackStore(c.values[fields[0]], slot, offset);
      GrownNothing(c, c);
      GrownIns(c, c, [], i);
      InsKeeps(c, i);
      j := FieldsExit(Ins(c, i), fields[1..], slot, offset + 1);
      ExitsAfter(c, Ins(c, i), StoreFields(c, fields, slot, offset).c, [] + [i],
        FieldStores(Ins(c, i), fields[1..][..j], slot, offset + 1));
      FieldStoresFirst(c, Ins(c, i), fields, slot, offset, j);
      j := j + 1;
    }
  }

  lemma InsKeeps(c: Ctx, i: Inst)
    requires c.current < |c.blocks|
    ensures Ins(c, i).values == c.values && Ins(c, i).slots == c.slots
  {
  }

  /** The stores of `j + 1` fields are that of the first and those of the next `j`. */
  lemma FieldStoresFirst(c: Ctx, d: Ctx, fields: seq<Sir.ValueId>, slot: nat, offset: nat, j: nat)
    requires d.values == c.values && j < |fields| && fields[0] in c.values
    requires forall k :: 0 <= k < j ==> fields[1..][k] in c.values
    ensures forall k :: 0 <= k < j + 1 ==> fields[k] in c.values
    ensures [] + [StackStore(c.values[fields[0]], slot, offset)] + FieldStores(d, fields[1..][..j], slot, offset + 1) ==
      FieldStores(c, fields[..j + 1], slot, offset)
  {
    forall k | 0 <= k < j + 1 ensures fields[k] in c.values {
      if k > 0 {
        assert fields[1..][k - 1] == fields[k];
      }
    }
  }

  /** The variant number's code, if there is one. */
  lemma TagGrows(c: Ctx, tag: Option<int>, fields: seq<Sir.ValueId>) returns (c2: Ctx)
    requires Valid(c)
    ensures var c1 := c.(slots := c.slots + [CellCount(tag, fields)]);
      c2 == if tag.Some? then
          var c3 := Ins(Ins(c1, IConst(c.nextValue, tag.value)), StackStore(c.nextValue, |c.slots|, 0));
          c3.(nextValue := c.nextValue + 1)
        else c1
    ensures Valid(c2) && Grown(c, c2, TagCode(c.nextValue, tag, |c.slots|))
    ensures c2.slots == c.slots + [CellCount(tag, fields)] && c2.values == c.values
  {
    var c1 := c.(slots := c.slots + [CellCount(tag, fields)]);
    GrownNothing(c, c1);
    c2 := c1;
    if tag.Some? {
      var x, y := IConst(c.nextValue, tag.value), StackStore(c.nextValue, |c.slots|, 0);
      GrownIns(c, c1, [], x);
      GrownIns(c, Ins(c1, x), [x], y);
      assert [] + [x] == [x] && [x] + [y] == [x, y];
      c2 := Ins(Ins(c1, x), y).(nextValue := c.nextValue + 1);
    }
  }

  lemma ConstructExits(c: Ctx, i: Sir.Insn) returns (s: seq<Inst>)
    requires Valid(c) && i.Construct? && TranslateConstruct(c, i.dst, i.tag, i.fields).Bail?
    ensures var d := TranslateConstruct(c, i.dst, i.tag, i.fields).c;
      Exits(c, d, s) && Partial(c, i, s) && d.slots == c.slots + [CellCount(i.tag, i.fields)]
  {
    hide Grown, Exits, StoreFields, TagCode, Ins, Define;
    var c2 := TagGrows(c, i.tag, i.fields);
    var slot, offset := |c.slots|, if i.tag.Some? then 1 else 0;
    var j := FieldsExit(c2, i.fields, slot, offset);
    var head, stores := TagCode(c.nextValue, i.tag, slot), FieldStores(c2, i.fields[..j], slot, offset);
    ExitsAfter(c, c2, StoreFields(c2, i.fields, slot, offset).c, head, stores);
    s := head + stores;
    assert stores == FieldStores(c, i.fields[..j], slot, offset);
  }

  /** A refused instruction ends the current block in `exit(1)`. */
  lemma RefusalExits(known: set<Sir.Symbol>, c: Ctx, i: Sir.Insn) returns (s: seq<Inst>)
    requires Valid(c) && TranslateInsn(known, c, i).Bail?
    ensures var d := TranslateInsn(known, c, i).c;
      Exits(c, d, s) && Partial(c, i, s) && c.slots <= d.slots
      && (i.Construct? ==> d.slots == c.slots + [CellCount(i.tag, i.fields)])
  {
    if i.Construct? {
      hide TranslateConstruct, Exits, Partial;
      s := ConstructExits(c, i);
    } else {
      s := [];
      hide GiveUp, Exits;
      var c1 := if i.VarDef? then DeclareLocal(c, i.name) else c;
      GiveUpExits(c1);
      assert TranslateInsn(known, c, i) == GiveUp(c1);
      SameExits(c, c1, GiveUp(c1).c);
      GiveUpSlots(c1);
    }
  }

  lemma SameExits(c: Ctx, c1: Ctx, d: Ctx)
    requires Valid(c) && c1.blocks == c.blocks && c1.labels == c.labels && c1.current == c.current && Exits(c1, d, [])
    ensures Exits(c, d, [])
  {
  }

  lemma GiveUpSlots(c: Ctx)
    requires Valid(c)
    ensures GiveUp(c).c.slots == c.slots
  {
  }

  // --- The finished blocks -------------------------------------------------

  lemma FinishSlots(c: Ctx)
    requires Valid(c)
    ensures Finish(c).slots == c.slots
  {
    var e := if c.terminated then c else ExitOne(c);
    SealSlots(e, e.labels.Values, |e.blocks|);
  }

  /** From context `c`, with `s` emitted in front of the exit: the finished blocks end the process in the
      current block and in every block that was empty, and leave the others alone. */
  ghost predicate Ended(c: Ctx, s: seq<Inst>, blocks: seq<seq<Inst>>)
    requires Valid(c)
  {
    && |blocks| == |c.blocks|
    && (forall b :: 0 <= b < |c.blocks| && b != c.current ==> Sealed(c.blocks[b], blocks[b]))
    && c.blocks[c.current] + s <= blocks[c.current]
    && EndsProcess(blocks[c.current], |c.blocks[c.current]| + |s|)
  }

  lemma EndedOpen(c: Ctx, placed: set<Sir.LabelId>)
    requires Shape(c, placed)
    ensures Valid(c) && Ended(c, [], Finish(c).blocks)
  {
    OpenFinish(c, placed);
    hide Finish, EndsProcess;
    assert c.blocks[c.current] + [] == c.blocks[c.current];
  }

  lemma EndedRefused(c: Ctx, d: Ctx, s: seq<Inst>)
    requires Valid(c) && Exits(c, d, s) && Abandoned(d)
    ensures Ended(c, s, Finish(d).blocks)
  {
    FinishCloses(d);
    hide Finish, Abandoned;
    assert d.blocks[c.current] != [];
  }

  /** Where translation stops the finished function ends the process: in the current block, behind what
      the refused instruction had emitted, and in every label block that was still empty. */
  lemma RefusedBlocks(known: set<Sir.Symbol>, f: Sir.Function) returns (s: seq<Inst>)
    requires Sir.UniqueLabels(f.body)
    ensures var n, c, g := Limit(known, f), Stop(known, f), TranslateFn(known, f);
      && Ended(c, s, g.blocks) && c.slots <= g.slots
      && (if n < |f.body| then Partial(c, f.body[n], s) else s == [])
      && (n < |f.body| && f.body[n].Construct? ==>
          g.slots == c.slots + [CellCount(f.body[n].tag, f.body[n].fields)])
  {
    hide Shape, Partial, Finish, Abandoned, Limit, TranslateInsn, Ended, Exits, Prepared;
    var n, c := Limit(known, f), Stop(known, f);
    StopIs(known, f);
    BodyShape(known, f, n);
    if n == |f.body| {
      s := [];
      EndedOpen(c, Placed(f.body, n));
      FinishSlots(c);
    } else {
      BodyShape(known, f, n + 1);
      BailStays(known, f, n + 1);
      var d := Translate(known, f, n + 1).c;
      s := RefusalExits(known, c, f.body[n]);
      EndedRefused(c, d, s);
      FinishSlots(d);
    }
  }

  // --- Programs with refused functions -------------------------------------

  /** `q` holds the translation of every function of `p`, refused or not. */
  ghost predicate Partly(p: Sir.Program, q: Program) {
    && q.Keys == p.Keys
    && forall fn :: fn in p ==> Cuttable(p.Keys, p[fn]) && q[fn] == TranslateFn(p.Keys, p[fn])
  }

  /** The program with every function cut off where it is refused. */
  ghost function CutOff(p: Sir.Program): (c: Sir.Program)
    ensures c.Keys == p.Keys && forall fn :: fn in p ==> c[fn] == CutFn(p.Keys, p[fn])
  {
    map fn | fn in p :: CutFn(p.Keys, p[fn])
  }

  ghost function CutBlocks(p: Sir.Program): (r: Program)
    ensures r.Keys == p.Keys && forall fn :: fn in p ==> r[fn] == TranslateFn(p.Keys, CutFn(p.Keys, p[fn]))
  {
    map fn | fn in p :: TranslateFn(p.Keys, CutFn(p.Keys, p[fn]))
  }

  lemma CutCompiled(p: Sir.Program, q: Program)
    requires Partly(p, q)
    ensures Compiled(CutOff(p), CutBlocks(p))
  {
    hide Cuttable, Simulable, TranslateFn, CutFn;
    forall fn | fn in p ensures Simulable(p.Keys, CutFn(p.Keys, p[fn])) {
      CutSimulable(p.Keys, p[fn]);
    }
  }

  lemma PartlyFn(p: Sir.Program, q: Program, fn: Sir.Symbol)
    requires Partly(p, q) && fn in p
    ensures Cuttable(p.Keys, p[fn]) && Sir.UniqueLabels(p[fn].body) && fn in q && q[fn] == TranslateFn(p.Keys, p[fn])
    ensures q[fn].params == |p[fn].params| && CutFn(p.Keys, p[fn]) == CutOff(p)[fn]
    ensures fn in CutBlocks(p) && CutBlocks(p)[fn].params == |p[fn].params|
  {
    hide Finish, Translate, CutFn;
  }

  lemma CodeEnds(known: set<Sir.Symbol>, f: Sir.Function, i: nat)
    requires Cuttable(known, f) && i < Limit(known, f)
    ensures var g := CutFn(known, f); var (b, k) := Spot(known, g, i);
      && b < |Stop(known, f).blocks| && StandsAt(Stop(known, f).blocks[b], k, CodeAt(known, g, i))
  {
    hide *;
    CutSimulable(known, f);
    StopIs(known, f);
    CodeEndsBy(known, CutFn(known, f), i, Limit(known, f));
  }

  lemma CodeEndsBy(known: set<Sir.Symbol>, g: Sir.Function, i: nat, n: nat)
    requires Simulable(known, g) && i < n <= |g.body|
    ensures var (b, k) := Spot(known, g, i);
      b < |At(known, g, n).blocks| && StandsAt(At(known, g, n).blocks[b], k, CodeAt(known, g, i))
  {
    hide Simulable, At, Code, Appends, Lands, ClifCode.Continues, StandsAt;
    Emits(known, g, i);
    ContinuesTo(known, g, i + 1, n);
    AppendsStands(At(known, g, i), At(known, g, i + 1), At(known, g, n), Final(known, g), g, i);
  }

  lemma AppendsStands(c: Ctx, d: Ctx, later: Ctx, e: Ctx, f: Sir.Function, i: nat)
    requires i < |f.body| && Appends(c, d, e, f, i) && ClifCode.Continues(d, later)
    ensures c.current < |later.blocks|
    ensures StandsAt(later.blocks[c.current], |c.blocks[c.current]|, Code(e, f, i, c.nextValue, d.current))
  {
    hide Code;
    assert d.blocks[c.current] <= later.blocks[c.current];
    assert later.blocks[c.current][..|d.blocks[c.current]|] ==
      c.blocks[c.current] + Code(e, f, i, c.nextValue, d.current);
  }

  /** The code of what comes before the refusal stands where it would stand in the cut function. */
  lemma CodeStands(known: set<Sir.Symbol>, f: Sir.Function, i: nat)
    requires Cuttable(known, f) && i < Limit(known, f)
    ensures var g, blocks := CutFn(known, f), TranslateFn(known, f).blocks; var (b, k) := Spot(known, g, i);
      b < |blocks| && StandsAt(blocks[b], k, CodeAt(known, g, i))
  {
    CodeEnds(known, f, i);
    var s := RefusedBlocks(known, f);
    hide Limit, CutFn, TranslateFn, CodeAt, Spot, Partial, Cuttable, EndsProcess;
    var b := Spot(known, CutFn(known, f), i).0;
    assert Stop(known, f).blocks[b] <= TranslateFn(known, f).blocks[b];
  }

  // --- The same steps ------------------------------------------------------

  /** Both programs have the same instruction where the frame is. */
  ghost predicate Same(q: Program, r: Program, cf: Frame) {
    && cf.fn in q && cf.fn in r
    && cf.block < |q[cf.fn].blocks| && cf.index < |q[cf.fn].blocks[cf.block]|
    && cf.block < |r[cf.fn].blocks| && cf.index < |r[cf.fn].blocks[cf.block]|
    && q[cf.fn].blocks[cf.block][cf.index] == r[cf.fn].blocks[cf.block][cf.index]
  }

  /** An instruction that leaves its block does the same in both. */
  lemma SameStep(q: Program, r: Program, ops: Sir.Ops, t: State)
    requires t.Run? && t.frames != [] && Same(q, r, t.frames[0])
    requires var i := q[t.frames[0].fn].blocks[t.frames[0].block][t.frames[0].index];
      i.JumpTo? || i.Brif? || i.Ret? || i.CallFn?
    requires q[t.frames[0].fn].blocks[t.frames[0].block][t.frames[0].index].Ret? && |t.frames| > 1 ==>
      Same(q, r, t.frames[1])
    requires q.Keys == r.Keys && forall fn :: fn in q ==> q[fn].params == r[fn].params
    ensures Step(q, ops, t) == Step(r, ops, t)
  {
    hide Plain;
  }

  lemma {:induction false} ExecuteMore(ops: Sir.Ops, sizes: seq<nat>, more: seq<nat>, dead: set<nat>, code: seq<Inst>,
                                       f: Frame, heap: Heap)
    requires sizes <= more && Execute(ops, sizes, dead, code, f, heap).Some?
    ensures Execute(ops, more, dead, code, f, heap) == Execute(ops, sizes, dead, code, f, heap)
    decreases |code|
  {
    if code != [] {
      PlainMore(ops, sizes, more, dead, code[0], f, heap);
      hide Plain;
      var (g, h) := Plain(ops, sizes, dead, code[0], f, heap).value;
      ExecuteMore(ops, sizes, more, dead, code[1..], Advance(g), h);
    }
  }

  /** Further stack slots change nothing for code that does not use them. */
  lemma PlainMore(ops: Sir.Ops, sizes: seq<nat>, more: seq<nat>, dead: set<nat>, i: Inst, f: Frame, heap: Heap)
    requires sizes <= more && Plain(ops, sizes, dead, i, f, heap).Some?
    ensures Plain(ops, more, dead, i, f, heap) == Plain(ops, sizes, dead, i, f, heap)
  {
  }

  lemma SameLabels(x: seq<Sir.Insn>, y: seq<Sir.Insn>, id: Sir.LabelId)
    requires |x| == |y| && forall i :: 0 <= i < |x| && (x[i].Label? || y[i].Label?) ==> x[i] == y[i]
    ensures Sir.LabelIndex(x, id) == Sir.LabelIndex(y, id)
  {
    if x != [] {
      SameLabels(x[1..], y[1..], id);
    }
  }

  // --- One step of the source ----------------------------------------------

  /** The running activation has not come to what its function was refused for. */
  ghost predicate Inside(p: Sir.Program, s: Sir.State) {
    s.Run? && s.frames != [] && s.frames[0].fn in p ==> s.frames[0].pc < Limit(p.Keys, p[s.frames[0].fn])
  }

  ghost predicate Calling(p: Sir.Program, f: Sir.Frame) {
    f.fn in p && f.pc < Limit(p.Keys, p[f.fn]) && p[f.fn].body[f.pc].Call?
  }

  /** The other activations wait at calls before that. */
  ghost predicate CallersInside(p: Sir.Program, s: Sir.State) {
    s.Run? ==> forall i :: 1 <= i < |s.frames| ==> Calling(p, s.frames[i])
  }

  lemma CutAt(p: Sir.Program, fn: Sir.Symbol, pc: nat)
    requires fn in p && pc < Limit(p.Keys, p[fn])
    ensures pc < |p[fn].body| == |CutOff(p)[fn].body| && CutOff(p)[fn].body[pc] == p[fn].body[pc]
    ensures CutOff(p)[fn].params == p[fn].params
    ensures forall id :: Sir.LabelIndex(CutOff(p)[fn].body, id) == Sir.LabelIndex(p[fn].body, id)
  {
    hide Limit;
    forall id ensures Sir.LabelIndex(CutOff(p)[fn].body, id) == Sir.LabelIndex(p[fn].body, id) {
      SameLabels(CutOff(p)[fn].body, p[fn].body, id);
    }
  }

  /** Inside, the cut program does what the program does. */
  lemma SourceSame(p: Sir.Program, ops: Sir.Ops, s: Sir.State)
    requires Inside(p, s) && CallersInside(p, s)
    ensures Sir.Step(CutOff(p), ops, s) == Sir.Step(p, ops, s)
  {
    hide Limit, CutOff, Sir.Straight, Sir.LabelIndex;
    if s.Run? && s.frames != [] && s.frames[0].fn in p {
      CutAt(p, s.frames[0].fn, s.frames[0].pc);
      if |s.frames| > 1 {
        assert Calling(p, s.frames[1]);
        CutAt(p, s.frames[1].fn, s.frames[1].pc);
      }
      if p[s.frames[0].fn].body[s.frames[0].pc].Call? {
        CutParams(p, p[s.frames[0].fn].body[s.frames[0].pc].name);
      }
    }
  }

  lemma CutParams(p: Sir.Program, fn: Sir.Symbol)
    ensures fn in CutOff(p) <==> fn in p
    ensures fn in p ==> CutOff(p)[fn].params == p[fn].params
  {
    hide CutFn;
  }

  lemma CallersStay(p: Sir.Program, ops: Sir.Ops, s: Sir.State)
    requires Inside(p, s) && CallersInside(p, s)
    ensures CallersInside(p, Sir.Step(p, ops, s))
  {
    hide Limit, Sir.Straight, Sir.LabelIndex;
    var t := Sir.Step(p, ops, s);
    if s.Run? && t.Run? {
      assert |t.frames| == |s.frames| ==> t.frames[1..] == s.frames[1..];
      assert |t.frames| == |s.frames| + 1 ==> t.frames[1..] == s.frames && Calling(p, s.frames[0]);
      assert |t.frames| == |s.frames| - 1 ==> t.frames[1..] == s.frames[2..];
      forall i | 1 <= i < |t.frames| ensures Calling(p, t.frames[i]) {
        assert t.frames[i] == t.frames[1..][i - 1];
      }
    }
  }

  // --- One step of the blocks ----------------------------------------------

  /** The cut program is matched by the blocks and about to take a step. */
  ghost predicate Ahead(p: Sir.Program, q: Program, ops: Sir.Ops, s: Sir.State, h: History, t: State, w: Where) {
    Partly(p, q) && Active(CutOff(p), CutBlocks(p), ops, s, h, t, w) && Inside(p, s) && CallersInside(p, s)
  }

  lemma SpotSame(p: Sir.Program, q: Program, a: Act, sf: Sir.Frame, cf: Frame, w: Where, heap: Heap)
    requires Partly(p, q) && MatchFrame(CutOff(p), a, sf, cf, w, heap) && sf.pc < Limit(p.Keys, p[sf.fn])
    requires (cf.block, cf.index) == Spot(p.Keys, CutOff(p)[sf.fn], sf.pc)
    ensures var code := CodeAt(p.Keys, CutOff(p)[sf.fn], sf.pc);
      && cf.fn in q && cf.block < |q[cf.fn].blocks| && StandsAt(q[cf.fn].blocks[cf.block], cf.index, code)
      && cf.fn in CutBlocks(p) && cf.block < |CutBlocks(p)[cf.fn].blocks|
      && StandsAt(CutBlocks(p)[cf.fn].blocks[cf.block], cf.index, code)
      && (|code| == 1 ==> Same(q, CutBlocks(p), cf) && q[cf.fn].blocks[cf.block][cf.index] == code[0])
  {
    hide Partly, MatchFrame, Limit, CutOff, CutBlocks, Spot, CodeAt, Compiled, TranslateFn, CutFn, Cuttable;
    CutCompiled(p, q);
    MatchedFn(CutOff(p), a, sf, cf, w, heap);
    PartlyFn(p, q, sf.fn);
    Fetch(CutOff(p), CutBlocks(p), a, sf, cf, w, heap);
    CodeStands(p.Keys, p[sf.fn], sf.pc);
    var code := CodeAt(p.Keys, CutOff(p)[sf.fn], sf.pc);
    if |code| == 1 {
      assert q[cf.fn].blocks[cf.block][cf.index] == code[0];
    }
  }

  /** The single instruction that control leaves by. */
  lemma LeavesBy(known: set<Sir.Symbol>, f: Sir.Function, i: nat)
    requires i < |f.body| && (f.body[i].Jump? || f.body[i].BranchIfNot? || f.body[i].Return? || f.body[i].Call?)
    ensures var code := CodeAt(known, f, i);
      |code| == 1 && (code[0].JumpTo? || code[0].Brif? || code[0].Ret? || code[0].CallFn?)
    ensures !f.body[i].Return? ==> !CodeAt(known, f, i)[0].Ret?
    ensures f.body[i].Jump? ==> CodeAt(known, f, i) == [JumpTo(LabelBlock(Final(known, f), f.body[i].target))]
    ensures f.body[i].BranchIfNot? ==> CodeAt(known, f, i)[0].Brif?
    ensures f.body[i].BranchIfNot? ==>
      && CodeAt(known, f, i)[0].whenFalse == LabelBlock(Final(known, f), f.body[i].target)
      && CodeAt(known, f, i)[0].cond == ValueOf(Final(known, f), f.body[i].cond)
  {
    hide Final, At, LabelBlock, ValueOf;
  }

  lemma ProgramsAgree(p: Sir.Program, q: Program)
    requires Partly(p, q)
    ensures q.Keys == CutBlocks(p).Keys && forall fn :: fn in q ==> q[fn].params == CutBlocks(p)[fn].params
  {
    hide Cuttable, CutFn, Finish, Translate;
  }

  lemma AheadFacts(p: Sir.Program, q: Program, ops: Sir.Ops, s: Sir.State, h: History, t: State, w: Where)
    requires Ahead(p, q, ops, s, h, t, w)
    ensures Partly(p, q) && Active(CutOff(p), CutBlocks(p), ops, s, h, t, w)
    ensures s.Run? && t.Run? && |t.frames| == |s.frames| == |h.acts| && s.frames != [] && s.frames[0].fn in p
    ensures CutOff(p).Keys == p.Keys
    ensures s.frames[0].pc < Limit(p.Keys, p[s.frames[0].fn]) <= |p[s.frames[0].fn].body|
    ensures s.frames[0].pc < |CutOff(p)[s.frames[0].fn].body|
    ensures CutOff(p)[s.frames[0].fn].body[s.frames[0].pc] == p[s.frames[0].fn].body[s.frames[0].pc]
    ensures MatchFrame(CutOff(p), h.acts[0], s.frames[0], t.frames[0], w, t.heap) && t.frames[0].fn == s.frames[0].fn
    ensures |s.frames| > 1 ==>
      Calling(p, s.frames[1]) && MatchFrame(CutOff(p), h.acts[1], s.frames[1], t.frames[1], w, t.heap)
  {
    hide Partly, MatchFrame, Limit, CutOff, CutBlocks, Calling, Mirrored, Sir.Step, Compiled, Sir.Blind;
    ActiveFrame(CutOff(p), CutBlocks(p), ops, s, h, t, w);
    CutAt(p, s.frames[0].fn, s.frames[0].pc);
  }

  lemma CallerSame(p: Sir.Program, q: Program, a: Act, sf: Sir.Frame, cf: Frame, w: Where, heap: Heap)
    requires Partly(p, q) && MatchFrame(CutOff(p), a, sf, cf, w, heap) && Calling(p, sf)
    ensures Same(q, CutBlocks(p), cf)
  {
    hide Partly, MatchFrame, Limit, CutOff, CutBlocks, Spot, CodeAt, Same;
    MatchedFn(CutOff(p), a, sf, cf, w, heap);
    CutAt(p, sf.fn, sf.pc);
    AtSpot(CutOff(p), a, sf, cf, w, heap);
    SpotSame(p, q, a, sf, cf, w, heap);
    LeavesBy(p.Keys, CutOff(p)[sf.fn], sf.pc);
  }

  /** Jumps, branches, returns and calls take both programs the same way. */
  lemma ControlSame(p: Sir.Program, q: Program, ops: Sir.Ops, s: Sir.State, h: History, t: State, w: Where)
    requires Ahead(p, q, ops, s, h, t, w)
    requires var i := ClifSim.Next(CutOff(p), s); i.Jump? || i.BranchIfNot? || i.Return? || i.Call?
    ensures t.Run? && Step(q, ops, t) == Step(CutBlocks(p), ops, t)
  {
    hide Ahead, Active, Partly, MatchFrame, Limit, CutOff, CutBlocks, Spot, CodeAt, Step, Same;
    AheadFacts(p, q, ops, s, h, t, w);
    var sf, cf := s.frames[0], t.frames[0];
    AtSpot(CutOff(p), h.acts[0], sf, cf, w, t.heap);
    SpotSame(p, q, h.acts[0], sf, cf, w, t.heap);
    LeavesBy(p.Keys, CutOff(p)[sf.fn], sf.pc);
    ProgramsAgree(p, q);
    if |s.frames| > 1 {
      CallerSame(p, q, h.acts[1], s.frames[1], t.frames[1], w, t.heap);
    }
    SameStep(q, CutBlocks(p), ops, t);
  }

  lemma RunsBoth(q: Program, r: Program, ops: Sir.Ops, t: State, code: seq<Inst>)
    requires t.Run? && t.frames != [] && t.frames[0].fn in q && t.frames[0].fn in r
    requires t.frames[0].block < |q[t.frames[0].fn].blocks| && t.frames[0].block < |r[t.frames[0].fn].blocks|
    requires StandsAt(q[t.frames[0].fn].blocks[t.frames[0].block], t.frames[0].index, code)
    requires StandsAt(r[t.frames[0].fn].blocks[t.frames[0].block], t.frames[0].index, code)
    requires forall k :: 0 <= k < |code| ==> Ordinary(code[k])
    requires r[t.frames[0].fn].slots <= q[t.frames[0].fn].slots && Steps(r, ops, t, |code|) != Stuck
    ensures Steps(q, ops, t, |code|) == Steps(r, ops, t, |code|)
  {
    hide Steps, Execute, Ordinary, StandsAt;
    RunsCode(r, ops, t, code);
    RunsCode(q, ops, t, code);
    ExecuteMore(ops, r[t.frames[0].fn].slots, q[t.frames[0].fn].slots, t.dead, code, t.frames[0], t.heap);
  }

  /** The cut function has all the stack slots it uses. */
  lemma SlotsPrefix(p: Sir.Program, q: Program, fn: Sir.Symbol)
    requires Partly(p, q) && fn in p
    ensures fn in q && fn in CutBlocks(p) && CutBlocks(p)[fn].slots <= q[fn].slots
  {
    hide Cuttable, CutFn, TranslateFn, Partial, Ended, Limit, Stop, Simulable, Compiled;
    PartlyFn(p, q, fn);
    CutCompiled(p, q);
    CompiledFn(CutOff(p), CutBlocks(p), fn);
    StopSlots(p.Keys, p[fn]);
    var s := RefusedBlocks(p.Keys, p[fn]);
  }

  lemma StopSlots(known: set<Sir.Symbol>, f: Sir.Function)
    requires Cuttable(known, f)
    ensures var g := CutFn(known, f); SlotsAt(g.body, |g.body|) == Stop(known, f).slots
  {
    hide Cuttable, At, Simulable, Limit;
    var n, g := Limit(known, f), CutFn(known, f);
    CutSimulable(known, f);
    StopIs(known, f);
    Numbering(known, g, n);
    BlankSlots(f, n, |f.body|);
  }

  lemma {:induction false} BlankSlots(f: Sir.Function, n: nat, i: nat)
    requires n <= i <= |f.body|
    ensures SlotsAt(Cut(f, n).body, i) == SlotsAt(Cut(f, n).body, n)
  {
    if n < i {
      BlankSlots(f, n, i - 1);
    }
  }

  lemma StraightSame(p: Sir.Program, q: Program, ops: Sir.Ops, s: Sir.State, h: History, t: State, w: Where)
    returns (k: nat, w': Where)
    requires Ahead(p, q, ops, s, h, t, w) && StraightLine(ClifSim.Next(CutOff(p), s))
    requires SoundState(CutOff(p), ops, s, h)
    ensures w <= w' && Match(CutOff(p), Sir.Step(CutOff(p), ops, s), Record(CutOff(p), s, h), Steps(q, ops, t, k), w')
  {
    hide Ahead, Active, Partly, MatchFrame, Limit, CutOff, CutBlocks, Spot, CodeAt, Steps, Match, SoundState, Record;
    hide Sir.Step, StandsAt, Ordinary;
    AheadFacts(p, q, ops, s, h, t, w);
    var r, sf, cf := CutBlocks(p), s.frames[0], t.frames[0];
    k, w' := StraightStep(CutOff(p), r, ops, s, h, t, w);
    NotStuck(CutOff(p), Sir.Step(CutOff(p), ops, s), Record(CutOff(p), s, h), w');
    AtSpot(CutOff(p), h.acts[0], sf, cf, w, t.heap);
    SpotSame(p, q, h.acts[0], sf, cf, w, t.heap);
    SlotsPrefix(p, q, sf.fn);
    CodeOrdinary(p.Keys, CutOff(p)[sf.fn], sf.pc);
    RunsBoth(q, r, ops, t, CodeAt(p.Keys, CutOff(p)[sf.fn], sf.pc));
  }

  lemma LabelCode(known: set<Sir.Symbol>, f: Sir.Function, i: nat)
    requires i < |f.body| && f.body[i].Label?
    ensures |CodeAt(known, f, i)| == 1 && CodeAt(known, f, i)[0].JumpTo?
  {
    hide Final, At, LabelBlock;
  }

  lemma LabelSame(p: Sir.Program, q: Program, ops: Sir.Ops, s: Sir.State, h: History, t: State, w: Where)
    returns (k: nat)
    requires Ahead(p, q, ops, s, h, t, w) && ClifSim.Next(CutOff(p), s).Label?
    ensures Match(CutOff(p), Sir.Step(CutOff(p), ops, s), Record(CutOff(p), s, h), Steps(q, ops, t, k), w)
  {
    hide Ahead, Active, Partly, MatchFrame, Limit, CutOff, CutBlocks, Spot, CodeAt, Steps, Step, Match, Record;
    hide Sir.Step, StandsAt, Same;
    AheadFacts(p, q, ops, s, h, t, w);
    var r := CutBlocks(p);
    k := LabelStep(CutOff(p), r, ops, s, h, t, w);
    if k == 1 {
      FallsSame(p, q, ops, s.frames[0], h.acts[0], t, w);
    }
    SameUpToOne(q, r, ops, t, k);
  }

  lemma SameUpToOne(q: Program, r: Program, ops: Sir.Ops, t: State, k: nat)
    requires k <= 1 && (k == 1 ==> Step(q, ops, t) == Step(r, ops, t))
    ensures Steps(q, ops, t, k) == Steps(r, ops, t, k)
  {
    hide Step;
    OneStep(q, ops, t);
    OneStep(r, ops, t);
  }

  /** Falling through to a label is the same in both. */
  lemma FallsSame(p: Sir.Program, q: Program, ops: Sir.Ops, sf: Sir.Frame, a: Act, t: State, w: Where)
    requires Partly(p, q) && t.Run? && t.frames != [] && MatchFrame(CutOff(p), a, sf, t.frames[0], w, t.heap)
    requires sf.pc < Limit(p.Keys, p[sf.fn]) && CutOff(p)[sf.fn].body[sf.pc].Label?
    requires (t.frames[0].block, t.frames[0].index) == Spot(p.Keys, CutOff(p)[sf.fn], sf.pc)
    ensures Step(q, ops, t) == Step(CutBlocks(p), ops, t)
  {
    hide Partly, MatchFrame, Limit, CutOff, CutBlocks, Spot, CodeAt, Step, Same, StandsAt;
    MatchedFn(CutOff(p), a, sf, t.frames[0], w, t.heap);
    SpotSame(p, q, a, sf, t.frames[0], w, t.heap);
    LabelCode(p.Keys, CutOff(p)[sf.fn], sf.pc);
    hide *;
    JumpSame(q, CutBlocks(p), ops, t);
  }

  lemma JumpSame(q: Program, r: Program, ops: Sir.Ops, t: State)
    requires t.Run? && t.frames != [] && Same(q, r, t.frames[0])
    requires q[t.frames[0].fn].blocks[t.frames[0].block][t.frames[0].index].JumpTo?
    ensures Step(q, ops, t) == Step(r, ops, t)
  {
    hide Plain;
  }

  // --- Where the source comes out ------------------------------------------

  /** The blocks are at the start of the block of label `id`. */
  ghost predicate AtLabel(known: set<Sir.Symbol>, f: Sir.Function, id: Sir.LabelId, t: State) {
    t.Run? && t.frames != [] && t.frames[0].index == 0 && t.frames[0].block == LabelBlock(Final(known, f), id)
  }

  /** The source is past where its function was refused: it came there by a jump, and the blocks are at the
      start of the label's block. */
  ghost predicate Landed(p: Sir.Program, s: Sir.State, t: State) {
    s.Run? && s.frames != [] && s.frames[0].fn in p && s.frames[0].pc > Limit(p.Keys, p[s.frames[0].fn]) ==>
      var f := s.frames[0];
      && f.pc < |p[f.fn].body| && p[f.fn].body[f.pc].Label?
      && AtLabel(p.Keys, CutOff(p)[f.fn], p[f.fn].body[f.pc].id, t)
  }

  /** A step that is not a jump goes no further than to the refused instruction. */
  lemma StaysNear(p: Sir.Program, ops: Sir.Ops, s: Sir.State, t: State)
    requires Inside(p, s) && CallersInside(p, s) && s.Run? && s.frames != [] && s.frames[0].fn in p
    requires var i := p[s.frames[0].fn].body[s.frames[0].pc]; !i.Jump? && !i.BranchIfNot?
    ensures Landed(p, Sir.Step(p, ops, s), t)
  {
    var i := p[s.frames[0].fn].body[s.frames[0].pc];
    if i.Return? && |s.frames| > 1 {
      assert Calling(p, s.frames[1]);
    }
    if !Sir.Control(i) {
      hide Limit, Final, CutOff;
      KeepsFn(ops, p[s.frames[0].fn].params, i, s.frames[0], s.heap);
      hide Sir.Straight;
    } else {
      hide Limit, Final, CutOff, Sir.Straight;
    }
  }

  lemma KeepsFn(ops: Sir.Ops, params: seq<Sir.Symbol>, i: Sir.Insn, f: Sir.Frame, heap: Heap)
    ensures var out := Sir.Straight(ops, params, i, f, heap); out.Some? ==> out.value.0.fn == f.fn
  {
  }

  lemma JumpGoes(p: Sir.Program, ops: Sir.Ops, s: Sir.State)
    requires s.Run? && s.frames != [] && s.frames[0].fn in p && s.frames[0].pc < |p[s.frames[0].fn].body|
    requires var i := p[s.frames[0].fn].body[s.frames[0].pc]; i.Jump? || i.BranchIfNot?
    requires Sir.Step(p, ops, s) != Sir.Fault
    ensures var f := p[s.frames[0].fn];
      var i, t := f.body[s.frames[0].pc], Sir.Step(p, ops, s);
      && t.Run? && t.frames != [] && t.frames[0].fn == s.frames[0].fn
      && (if i.Jump? || !ops.truthy(s.frames[0].vals[i.cond]) then
            Sir.LabelIndex(f.body, i.target) == Some(t.frames[0].pc)
          else t.frames[0].pc == s.frames[0].pc + 1)
      && (i.BranchIfNot? ==> i.cond in s.frames[0].vals)
  {
    hide Sir.Straight, Sir.LabelIndex;
  }

  lemma BlocksGo(q: Program, ops: Sir.Ops, t: State)
    requires t.Run? && t.frames != [] && t.frames[0].fn in q
    requires var cf := t.frames[0]; cf.block < |q[cf.fn].blocks| && cf.index < |q[cf.fn].blocks[cf.block]|
    requires var i := q[t.frames[0].fn].blocks[t.frames[0].block][t.frames[0].index];
      i.JumpTo? || (i.Brif? && i.cond in t.frames[0].vals)
    ensures var cf, u := t.frames[0], Step(q, ops, t);
      var i := q[cf.fn].blocks[cf.block][cf.index];
      && u.Run? && u.frames != [] && u.frames[0].index == 0
      && u.frames[0].block ==
        if i.JumpTo? then i.target else if ops.truthy(cf.vals[i.cond]) then i.whenTrue else i.whenFalse
  {
    hide Plain;
  }

  lemma TruthSame(p: Sir.Program, q: Program, ops: Sir.Ops, s: Sir.State, h: History, t: State, w: Where,
                  v: Sir.ValueId)
    requires Ahead(p, q, ops, s, h, t, w) && s.Run? && t.Run? && s.frames != [] && t.frames != [] && s.frames[0].fn in p
    requires v in s.frames[0].vals
    ensures var x := ValueOf(Final(p.Keys, CutOff(p)[s.frames[0].fn]), v);
      x in t.frames[0].vals && (ops.truthy(t.frames[0].vals[x]) <==> ops.truthy(s.frames[0].vals[v]))
  {
    hide Ahead, Active, Partly, MatchFrame, Limit, CutOff, CutBlocks, Final, ValueOf, Sir.Blind, Stands;
    AheadFacts(p, q, ops, s, h, t, w);
    ActiveFrame(CutOff(p), CutBlocks(p), ops, s, h, t, w);
    var sf, cf := s.frames[0], t.frames[0];
    FrameVal(CutOff(p), h.acts[0], sf, cf, w, t.heap, v);
    var x := ValueOf(Final(p.Keys, CutOff(p)[sf.fn]), v);
    SameTruth(ops, w, sf.vals[v], cf.vals[x]);
  }

  ghost predicate Jumps(p: Sir.Program, ops: Sir.Ops, f: Sir.Frame) {
    f.fn in p && f.pc < |p[f.fn].body| && var i := p[f.fn].body[f.pc];
      i.Jump? || (i.BranchIfNot? && i.cond in f.vals && !ops.truthy(f.vals[i.cond]))
  }

  ghost predicate Gone(p: Sir.Program, f: Sir.Frame, t: State) {
    && f.fn in p && f.pc < |p[f.fn].body| && (p[f.fn].body[f.pc].Jump? || p[f.fn].body[f.pc].BranchIfNot?)
    && AtLabel(p.Keys, CutOff(p)[f.fn], p[f.fn].body[f.pc].target, t)
  }

  lemma BlocksLand(p: Sir.Program, q: Program, ops: Sir.Ops, s: Sir.State, h: History, t: State, w: Where)
    requires Ahead(p, q, ops, s, h, t, w) && s.Run? && s.frames != [] && Jumps(p, ops, s.frames[0])
    ensures Gone(p, s.frames[0], Step(q, ops, t))
  {
    hide Ahead, Active, Partly, MatchFrame, Limit, CutOff, CutBlocks, Spot, CodeAt, Step, Final, ValueOf;
    hide LabelBlock, StandsAt;
    AheadFacts(p, q, ops, s, h, t, w);
    var sf, cf := s.frames[0], t.frames[0];
    var i := p[sf.fn].body[sf.pc];
    AtSpot(CutOff(p), h.acts[0], sf, cf, w, t.heap);
    SpotSame(p, q, h.acts[0], sf, cf, w, t.heap);
    LeavesBy(p.Keys, CutOff(p)[sf.fn], sf.pc);
    if i.BranchIfNot? {
      TruthSame(p, q, ops, s, h, t, w, i.cond);
    }
    BlocksGo(q, ops, t);
    hide *;
    assert AtLabel(p.Keys, CutOff(p)[sf.fn], i.target, Step(q, ops, t));
  }

  /** A jump past the refused instruction takes the blocks to the start of the label's block. */
  lemma JumpLands(p: Sir.Program, q: Program, ops: Sir.Ops, s: Sir.State, h: History, t: State, w: Where)
    requires Ahead(p, q, ops, s, h, t, w) && Sir.Step(p, ops, s) != Sir.Fault
    requires ClifSim.Next(CutOff(p), s).Jump? || ClifSim.Next(CutOff(p), s).BranchIfNot?
    ensures Landed(p, Sir.Step(p, ops, s), Step(q, ops, t))
  {
    hide Ahead, Active, Partly, MatchFrame, Limit, CutOff, Step, Final, LabelBlock, Sir.Step, Sir.LabelIndex;
    AheadFacts(p, q, ops, s, h, t, w);
    JumpGoes(p, ops, s);
    if Jumps(p, ops, s.frames[0]) {
      BlocksLand(p, q, ops, s, h, t, w);
    }
  }

  // --- Runs ----------------------------------------------------------------

  lemma IsAhead(p: Sir.Program, q: Program, ops: Sir.Ops, s: Sir.State, h: History, t: State, w: Where)
    requires Partly(p, q) && Match(CutOff(p), s, h, t, w) && Sir.Blind(ops) && s.Run?
    requires Inside(p, s) && CallersInside(p, s) && Sir.Step(p, ops, s) != Sir.Fault
    ensures Ahead(p, q, ops, s, h, t, w) && Sir.Step(CutOff(p), ops, s) == Sir.Step(p, ops, s)
    ensures s.frames != [] && s.frames[0].fn in p
    ensures var i := p[s.frames[0].fn].body[s.frames[0].pc];
      i == ClifSim.Next(CutOff(p), s) && !i.Other? && !i.ArrayPush?
  {
    hide Partly, Match, Inside, CallersInside, CutOff, CutBlocks, Active, Sir.Step, Compiled;
    CutCompiled(p, q);
    SourceSame(p, ops, s);
    IsActive(CutOff(p), CutBlocks(p), ops, s, h, t, w);
    AheadFacts(p, q, ops, s, h, t, w);
  }

  /** As long as the source is inside, the blocks follow it, sound step by sound step. */
  lemma CutStep(p: Sir.Program, q: Program, ops: Sir.Ops, s: Sir.State, h: History, t: State, w: Where)
    returns (k: nat, w': Where)
    requires Partly(p, q) && Match(CutOff(p), s, h, t, w) && Sir.Blind(ops)
    requires Inside(p, s) && CallersInside(p, s) && Sir.Step(p, ops, s) != Sir.Fault
    requires SoundState(CutOff(p), ops, s, h)
    ensures w <= w' && Match(CutOff(p), Sir.Step(p, ops, s), Record(CutOff(p), s, h), Steps(q, ops, t, k), w')
    ensures Landed(p, Sir.Step(p, ops, s), Steps(q, ops, t, k))
  {
    hide Partly, Match, Inside, CallersInside, CutOff, CutBlocks, Ahead, Sir.Step, Step, Steps, SoundState, Record;
    hide Landed;
    k, w' := 1, w;
    OneStep(q, ops, t);
    if s.Run? {
      IsAhead(p, q, ops, s, h, t, w);
      AheadFacts(p, q, ops, s, h, t, w);
      var i := ClifSim.Next(CutOff(p), s);
      if i.Jump? || i.BranchIfNot? || i.Return? || i.Call? {
        ControlFollows(p, q, ops, s, h, t, w);
      } else {
        if i.Label? {
          k := LabelSame(p, q, ops, s, h, t, w);
        } else {
          k, w' := StraightSame(p, q, ops, s, h, t, w);
        }
        StaysNear(p, ops, s, Steps(q, ops, t, k));
      }
    } else {
      EndedSame(p, q, ops, s, h, t, w);
    }
  }

  lemma EndedSame(p: Sir.Program, q: Program, ops: Sir.Ops, s: Sir.State, h: History, t: State, w: Where)
    requires Match(CutOff(p), s, h, t, w) && !s.Run?
    ensures Match(CutOff(p), Sir.Step(p, ops, s), Record(CutOff(p), s, h), Step(q, ops, t), w)
    ensures Landed(p, Sir.Step(p, ops, s), Step(q, ops, t))
  {
    hide Mirrored, Stands;
  }

  lemma ControlFollows(p: Sir.Program, q: Program, ops: Sir.Ops, s: Sir.State, h: History, t: State, w: Where)
    requires Ahead(p, q, ops, s, h, t, w) && Sir.Step(p, ops, s) != Sir.Fault
    requires var i := ClifSim.Next(CutOff(p), s); i.Jump? || i.BranchIfNot? || i.Return? || i.Call?
    ensures Match(CutOff(p), Sir.Step(p, ops, s), Record(CutOff(p), s, h), Step(q, ops, t), w)
    ensures Landed(p, Sir.Step(p, ops, s), Step(q, ops, t))
  {
    hide Active, Partly, Inside, CallersInside, CutOff, CutBlocks, Match, Sir.Step, Step, Record, Landed, MatchFrame;
    ControlSame(p, q, ops, s, h, t, w);
    AheadFacts(p, q, ops, s, h, t, w);
    SourceSame(p, ops, s);
    var c, r := CutOff(p), CutBlocks(p);
    match ClifSim.Next(c, s)
    case Jump(_) =>
      JumpStep(c, r, ops, s, h, t, w);
      JumpLands(p, q, ops, s, h, t, w);
    case BranchIfNot(_, _) =>
      BranchStep(c, r, ops, s, h, t, w);
      JumpLands(p, q, ops, s, h, t, w);
    case Return(_) =>
      ReturnStep(c, r, ops, s, h, t, w);
      StaysNear(p, ops, s, Step(q, ops, t));
    case Call(_, _, _) =>
      CallStep(c, r, ops, s, h, t, w);
      StaysNear(p, ops, s, Step(q, ops, t));
  }

  /** Until a function comes to what it was refused for, the blocks follow every sound run. */
  lemma {:induction false} FollowsTo(p: Sir.Program, q: Program, ops: Sir.Ops, s: Sir.State, h: History, t: State,
                                     w: Where, n: nat)
    returns (m: nat, w': Where)
    requires Partly(p, q) && Match(CutOff(p), s, h, t, w) && Sir.Blind(ops) && CallersInside(p, s) && Landed(p, s, t)
    requires Sir.Steps(p, ops, s, n) != Sir.Fault
    requires forall k: nat :: k < n ==>
      && Inside(p, Sir.Steps(p, ops, s, k))
      && SoundState(CutOff(p), ops, Sir.Steps(p, ops, s, k), After(CutOff(p), ops, s, h, k))
    ensures Sir.Steps(CutOff(p), ops, s, n) == Sir.Steps(p, ops, s, n) && w <= w'
    ensures CallersInside(p, Sir.Steps(p, ops, s, n))
    ensures Match(CutOff(p), Sir.Steps(p, ops, s, n), After(CutOff(p), ops, s, h, n), Steps(q, ops, t, m), w')
    ensures Landed(p, Sir.Steps(p, ops, s, n), Steps(q, ops, t, m))
  {
    hide Partly, Match, Inside, CallersInside, CutOff, Sir.Step, Step, SoundState, Record, Landed, Sir.Blind;
    if n == 0 {
      m, w' := 0, w;
    } else {
      var before := Sir.Steps(p, ops, s, n - 1);
      Sir.FaultStays(p, ops, before);
      m, w' := FollowsTo(p, q, ops, s, h, t, w, n - 1);
      var k, u := CutStep(p, q, ops, before, After(CutOff(p), ops, s, h, n - 1), Steps(q, ops, t, m), w');
      SourceSame(p, ops, before);
      CallersStay(p, ops, before);
      StepsAdd(q, ops, t, m, k);
      m, w' := m + k, u;
    }
  }

  // --- The exit ------------------------------------------------------------

  /** Where a block ends the process, the run ends with code 1. */
  lemma ExitSteps(q: Program, ops: Sir.Ops, t: State)
    requires t.Run? && t.frames != [] && t.frames[0].fn in q && t.frames[0].block < |q[t.frames[0].fn].blocks|
    requires EndsProcess(q[t.frames[0].fn].blocks[t.frames[0].block], t.frames[0].index)
    ensures Steps(q, ops, t, 2) == Exited(Sir.Prim(1))
  {
    var f := t.frames[0];
    var i := q[f.fn].blocks[f.block][f.index];
    var u := Run([SetVal(f, i.v, Sir.Prim(1)).(index := f.index + 1)] + t.frames[1..], t.heap, t.dead);
    assert Step(q, ops, t) == u;
    assert Step(q, ops, u) == Exited(Sir.Prim(1));
    hide Step;
    assert Steps(q, ops, t, 0) == t && Steps(q, ops, t, 1) == u;
  }

  lemma LabelLater(f: Sir.Function, n: nat, l: nat)
    requires Sir.UniqueLabels(f.body) && n <= l < |f.body| && f.body[l].Label?
    ensures f.body[l].id !in Placed(f.body, n)
  {
  }

  lemma EmptyBlock(c: Ctx, placed: set<Sir.LabelId>, body: seq<Sir.Insn>, l: nat, s: seq<Inst>, blocks: seq<seq<Inst>>)
    requires Shape(c, placed) && LabelsKnown(c, body) && l < |body| && body[l].Label? && body[l].id !in placed
    requires Valid(c) && Ended(c, s, blocks)
    ensures body[l].id in c.labels
    ensures var b := c.labels[body[l].id]; b < |blocks| && EndsProcess(blocks[b], 0)
  {
    hide EndsProcess;
  }

  /** The block of every label after the refused instruction ends the process. */
  lemma LabelEnds(known: set<Sir.Symbol>, f: Sir.Function, l: nat)
    requires Cuttable(known, f) && Limit(known, f) < l < |f.body| && f.body[l].Label?
    ensures var b := LabelBlock(Final(known, CutFn(known, f)), f.body[l].id);
      b < |TranslateFn(known, f).blocks| && EndsProcess(TranslateFn(known, f).blocks[b], 0)
  {
    hide Limit, CutFn, Translate, Shape, LabelsKnown, Ended, Partial, TranslateFn, Simulable, At, EndsProcess;
    var n, c, g := Limit(known, f), Stop(known, f), CutFn(known, f);
    StopIs(known, f);
    BodyShape(known, f, n);
    LabelLater(f, n, l);
    CutSimulable(known, f);
    var s := RefusedBlocks(known, f);
    EmptyBlock(c, Placed(f.body, n), f.body, l, s, TranslateFn(known, f).blocks);
    ContinuesTo(known, g, n, |g.body|);
  }

  lemma NeverPlaced(c: Ctx, placed: set<Sir.LabelId>, id: Sir.LabelId, s: seq<Inst>, blocks: seq<seq<Inst>>)
    requires Shape(c, placed) && id in c.labels && id !in placed && Valid(c) && Ended(c, s, blocks)
    ensures var b := c.labels[id]; b < |blocks| && EndsProcess(blocks[b], 0)
  {
    hide EndsProcess;
  }

  lemma TargetKnown(known: set<Sir.Symbol>, c: Ctx, i: Sir.Insn)
    requires Valid(c) && (i.Jump? || i.BranchIfNot?) && TranslateInsn(known, c, i).Go?
    ensures i.target in TranslateInsn(known, c, i).c.labels
  {
  }

  /** A jump or branch to a label that the body does not have ends the process. */
  lemma MissingLabelEnds(known: set<Sir.Symbol>, f: Sir.Function, i: nat)
    requires Cuttable(known, f) && i < Limit(known, f) && (f.body[i].Jump? || f.body[i].BranchIfNot?)
    requires Sir.Label(f.body[i].target) !in f.body
    ensures var b := LabelBlock(Final(known, CutFn(known, f)), f.body[i].target);
      b < |TranslateFn(known, f).blocks| && EndsProcess(TranslateFn(known, f).blocks[b], 0)
  {
    hide Limit, CutFn, Translate, Shape, Ended, Partial, TranslateFn, Simulable, At, EndsProcess, TranslateInsn;
    hide LabelsKnown, AllReady, KeysAre;
    var n, c, g, id := Limit(known, f), Stop(known, f), CutFn(known, f), f.body[i].target;
    StopIs(known, f);
    BodyShape(known, f, n);
    CutSimulable(known, f);
    SimulableReady(known, g);
    AtStep(known, g, i);
    CutInsn(known, f, i);
    TargetKnown(known, At(known, g, i), f.body[i]);
    ContinuesTo(known, g, i + 1, n);
    ContinuesTo(known, g, n, |g.body|);
    var s := RefusedBlocks(known, f);
    NeverPlaced(c, Placed(f.body, n), id, s, TranslateFn(known, f).blocks);
  }

  lemma CutInsn(known: set<Sir.Symbol>, f: Sir.Function, i: nat)
    requires i < Limit(known, f)
    ensures CutFn(known, f).body[i] == f.body[i]
  {
    hide Limit;
  }

  /** Stores of known values into one slot run through. */
  lemma {:induction false} StoresRun(ops: Sir.Ops, sizes: seq<nat>, dead: set<nat>, code: seq<Inst>, slot: nat,
                                     f: Frame, heap: Heap)
    requires slot < |sizes| && (slot in f.slots ==> f.slots[slot] < |heap| && |heap[f.slots[slot]]| == sizes[slot])
    requires forall k :: 0 <= k < |code| ==>
      code[k].StackStore? && code[k].slot == slot && code[k].offset < sizes[slot] && code[k].v in f.vals
    ensures Execute(ops, sizes, dead, code, f, heap).Some?
    decreases |code|
  {
    if code != [] {
      StoreRuns(ops, sizes, dead, code[0], f, heap);
      hide Plain;
      var (g, h) := Plain(ops, sizes, dead, code[0], f, heap).value;
      StoresRun(ops, sizes, dead, code[1..], slot, Advance(g), h);
    }
  }

  lemma StoreRuns(ops: Sir.Ops, sizes: seq<nat>, dead: set<nat>, i: Inst, f: Frame, heap: Heap)
    requires i.StackStore? && i.slot < |sizes| && i.offset < sizes[i.slot] && i.v in f.vals
    requires i.slot in f.slots ==> f.slots[i.slot] < |heap| && |heap[f.slots[i.slot]]| == sizes[i.slot]
    ensures var out := Plain(ops, sizes, dead, i, f, heap);
      && out.Some? && out.value.0.vals == f.vals && i.slot in out.value.0.slots
      && out.value.0.slots[i.slot] < |out.value.1|
      && |out.value.1[out.value.0.slots[i.slot]]| == sizes[i.slot]
  {
  }

  lemma FieldsReady(c: Ctx, e: Ctx, w: Where, vals: map<Sir.ValueId, Sir.Val>, cvals: map<Value, Sir.Val>,
                    fields: seq<Sir.ValueId>, j: nat, slot: nat, offset: nat)
    requires MatchVals(e, w, vals, cvals) && ClifCode.Continues(c, e)
    requires Sir.Operands(vals, fields).Some? && j <= |fields|
    requires forall k :: 0 <= k < j ==> fields[k] in c.values
    ensures forall k :: 0 <= k < j ==>
      var i := FieldStores(c, fields[..j], slot, offset)[k];
      i.StackStore? && i.slot == slot && i.offset == offset + k && i.v in cvals
  {
    forall k | 0 <= k < j ensures c.values[fields[k]] in cvals {
      assert fields[k] in vals;
    }
  }

  lemma TaggedRun(ops: Sir.Ops, sizes: seq<nat>, dead: set<nat>, temp: Value, tag: int, slot: nat, stores: seq<Inst>,
                  cf: Frame, heap: Heap)
    requires slot < |sizes| && slot !in cf.slots && sizes[slot] > 0
    requires forall k :: 0 <= k < |stores| ==>
      stores[k].StackStore? && stores[k].slot == slot && stores[k].offset < sizes[slot] && stores[k].v in cf.vals
    ensures Execute(ops, sizes, dead, [IConst(temp, tag), StackStore(temp, slot, 0)] + stores, cf, heap).Some?
  {
    var x, y := IConst(temp, tag), StackStore(temp, slot, 0);
    var g := Advance(SetVal(cf, temp, Sir.Prim(tag)));
    ExecuteOne(ops, sizes, dead, x, cf, heap);
    assert Execute(ops, sizes, dead, [x], cf, heap) == Some((g, heap));
    hide Execute, Plain;
    assert [x, y] + stores == [x] + ([y] + stores);
    ExecuteThen(ops, sizes, dead, [x], [y] + stores, cf, heap);
    StoresRun(ops, sizes, dead, [y] + stores, slot, g, heap);
  }

  lemma FieldsThrough(ops: Sir.Ops, sizes: seq<nat>, dead: set<nat>, c: Ctx, e: Ctx, i: Sir.Insn, w: Where,
                      vals: map<Sir.ValueId, Sir.Val>, cf: Frame, heap: Heap, j: nat)
    requires i.Construct? && j <= |i.fields| && forall k :: 0 <= k < j ==> i.fields[k] in c.values
    requires MatchVals(e, w, vals, cf.vals) && ClifCode.Continues(c, e) && Sir.Operands(vals, i.fields).Some?
    requires |c.slots| !in cf.slots && sizes == c.slots + [CellCount(i.tag, i.fields)]
    ensures var code := TagCode(c.nextValue, i.tag, |c.slots|)
        + FieldStores(c, i.fields[..j], |c.slots|, if i.tag.Some? then 1 else 0);
      Execute(ops, sizes, dead, code, cf, heap).Some? && forall k :: 0 <= k < |code| ==> Ordinary(code[k])
  {
    hide MatchVals, ClifCode.Continues, Execute, Plain, Sir.Operands;
    var slot, offset := |c.slots|, if i.tag.Some? then 1 else 0;
    FieldsReady(c, e, w, vals, cf.vals, i.fields, j, slot, offset);
    var stores := FieldStores(c, i.fields[..j], slot, offset);
    hide FieldStores;
    if i.tag.Some? {
      TaggedRun(ops, sizes, dead, c.nextValue, i.tag.value, slot, stores, cf, heap);
    } else {
      assert [] + stores == stores;
      StoresRun(ops, sizes, dead, stores, slot, cf, heap);
    }
  }

  /** What a refused instruction had emitted runs through, unless the instruction itself would fault. */
  lemma PartialRuns(ops: Sir.Ops, sizes: seq<nat>, dead: set<nat>, c: Ctx, e: Ctx, i: Sir.Insn, w: Where,
                    vals: map<Sir.ValueId, Sir.Val>, cf: Frame, heap: Heap, s: seq<Inst>)
    requires Partial(c, i, s) && MatchVals(e, w, vals, cf.vals) && ClifCode.Continues(c, e)
    requires Sized(c.slots, cf.slots, heap)
    requires i.Construct? ==> Sir.Operands(vals, i.fields).Some? && sizes == c.slots + [CellCount(i.tag, i.fields)]
    ensures Execute(ops, sizes, dead, s, cf, heap).Some? && forall k :: 0 <= k < |s| ==> Ordinary(s[k])
  {
    if i.Construct? {
      hide MatchVals, ClifCode.Continues, Execute, FieldStores, TagCode, Ordinary, Sir.Operands;
      var j :| 0 <= j <= |i.fields| && (forall k :: 0 <= k < j ==> i.fields[k] in c.values) &&
        s == TagCode(c.nextValue, i.tag, |c.slots|)
          + FieldStores(c, i.fields[..j], |c.slots|, if i.tag.Some? then 1 else 0);
      assert |c.slots| !in cf.slots;
      FieldsThrough(ops, sizes, dead, c, e, i, w, vals, cf, heap, j);
    }
  }

  /** The source is at what its function was refused for, and an aggregate refused there has its parts. */
  ghost predicate AtRefused(p: Sir.Program, s: Sir.State) {
    && s.Run? && s.frames != [] && s.frames[0].fn in p && s.frames[0].pc <= |p[s.frames[0].fn].body|
    && var f, sf := p[s.frames[0].fn], s.frames[0];
      && Limit(p.Keys, f) <= sf.pc
      && (sf.pc < |f.body| && f.body[sf.pc].Construct? ==> Sir.Operands(sf.vals, f.body[sf.pc].fields).Some?)
  }

  lemma NotLabel(known: set<Sir.Symbol>, f: Sir.Function)
    ensures var n, g := Limit(known, f), CutFn(known, f); n < |f.body| ==> !f.body[n].Label? && !g.body[n].Label?
  {
    hide Sir.Defined, Mentioned, Sir.SingleDefs;
  }

  lemma StopState(p: Sir.Program, q: Program, a: Act, sf: Sir.Frame, cf: Frame, w: Where, heap: Heap)
    requires Partly(p, q) && MatchFrame(CutOff(p), a, sf, cf, w, heap) && sf.fn in p
    requires sf.pc == Limit(p.Keys, p[sf.fn])
    ensures var c, e := Stop(p.Keys, p[sf.fn]), Final(p.Keys, CutOff(p)[sf.fn]);
      && cf.fn == sf.fn && cf.block == c.current && cf.index == |c.blocks[c.current]|
      && MatchVals(e, w, sf.vals, cf.vals) && ClifCode.Continues(c, e) && Sized(c.slots, cf.slots, heap)
  {
    hide Partly, Limit, CutOff, At, CutFn, Simulable, MatchVals, MatchVars, MatchSlots, Sized, ClifCode.Continues;
    hide Cuttable, LabelBlock;
    PartlyFn(p, q, sf.fn);
    var f, n := p[sf.fn], Limit(p.Keys, p[sf.fn]);
    NotLabel(p.Keys, f);
    StopIs(p.Keys, f);
    StopSlots(p.Keys, f);
    CutSimulable(p.Keys, f);
    ContinuesTo(p.Keys, CutFn(p.Keys, f), n, |f.body|);
  }

  /** At the refused instruction itself. */
  lemma StopExits(p: Sir.Program, q: Program, ops: Sir.Ops, s: Sir.State, a: Act, t: State, w: Where) returns (m: nat)
    requires Partly(p, q) && AtRefused(p, s) && t.Run? && t.frames != []
    requires MatchFrame(CutOff(p), a, s.frames[0], t.frames[0], w, t.heap)
    requires s.frames[0].pc == Limit(p.Keys, p[s.frames[0].fn])
    ensures Steps(q, ops, t, m) == Exited(Sir.Prim(1))
  {
    hide Partly, Limit, CutOff, MatchFrame, MatchVals, ClifCode.Continues, Sized, Stop, Final, Partial, TranslateFn;
    hide EndsProcess, Steps, Step, Cuttable, Execute, Ordinary;
    var sf, cf := s.frames[0], t.frames[0];
    var f := p[sf.fn];
    PartlyFn(p, q, sf.fn);
    StopState(p, q, a, sf, cf, w, t.heap);
    var code := RefusedBlocks(p.Keys, f);
    var c, e := Stop(p.Keys, f), Final(p.Keys, CutOff(p)[sf.fn]);
    StopRuns(ops, q[sf.fn].slots, t.dead, c, e, f, sf, w, cf, t.heap, code);
    CodeBehind(c, code, q[sf.fn].blocks[cf.block]);
    RunsCode(q, ops, t, code);
    ExecuteStays(ops, q[sf.fn].slots, t.dead, code, cf, t.heap);
    var (g, h) := Execute(ops, q[sf.fn].slots, t.dead, code, cf, t.heap).value;
    ExitSteps(q, ops, Run([g] + t.frames[1..], h, t.dead));
    StepsAdd(q, ops, t, |code|, 2);
    m := |code| + 2;
  }

  lemma StopRuns(ops: Sir.Ops, sizes: seq<nat>, dead: set<nat>, c: Ctx, e: Ctx, f: Sir.Function, sf: Sir.Frame,
                 w: Where, cf: Frame, heap: Heap, s: seq<Inst>)
    requires MatchVals(e, w, sf.vals, cf.vals) && ClifCode.Continues(c, e) && Sized(c.slots, cf.slots, heap)
    requires sf.pc <= |f.body| && if sf.pc < |f.body| then Partial(c, f.body[sf.pc], s) else s == []
    requires sf.pc < |f.body| && f.body[sf.pc].Construct? ==>
      && Sir.Operands(sf.vals, f.body[sf.pc].fields).Some?
      && sizes == c.slots + [CellCount(f.body[sf.pc].tag, f.body[sf.pc].fields)]
    ensures Execute(ops, sizes, dead, s, cf, heap).Some? && forall k :: 0 <= k < |s| ==> Ordinary(s[k])
  {
    if sf.pc < |f.body| {
      hide *;
      PartialRuns(ops, sizes, dead, c, e, f.body[sf.pc], w, sf.vals, cf, heap, s);
    }
  }

  lemma CodeBehind(c: Ctx, s: seq<Inst>, block: seq<Inst>)
    requires Valid(c) && c.blocks[c.current] + s <= block
    ensures StandsAt(block, |c.blocks[c.current]|, s)
  {
  }

  /** A run that has come to what its function was refused for, or to a label after it, ends the process
      with code 1. */
  lemma RefusedExits(p: Sir.Program, q: Program, ops: Sir.Ops, s: Sir.State, h: History, t: State, w: Where)
    returns (m: nat)
    requires Partly(p, q) && Match(CutOff(p), s, h, t, w) && Landed(p, s, t) && AtRefused(p, s)
    ensures Steps(q, ops, t, m) == Exited(Sir.Prim(1))
  {
    hide Partly, Limit, CutOff, MatchFrame, Steps, EndsProcess, LabelBlock, Final, TranslateFn, Mirrored;
    var sf := s.frames[0];
    assert MatchFrame(CutOff(p), h.acts[0], sf, t.frames[0], w, t.heap);
    if sf.pc == Limit(p.Keys, p[sf.fn]) {
      m := StopExits(p, q, ops, s, h.acts[0], t, w);
    } else {
      MatchedFn(CutOff(p), h.acts[0], sf, t.frames[0], w, t.heap);
      PartlyFn(p, q, sf.fn);
      LabelEnds(p.Keys, p[sf.fn], sf.pc);
      ExitSteps(q, ops, t);
      m := 2;
    }
  }

  /** From the entry: the run follows the source, sound step by sound step, to the first state at which a
      function has come to what it was refused for, and there the process ends with code 1; until then
      the blocks match the source. */
  lemma RefusedRun(p: Sir.Program, q: Program, ops: Sir.Ops, fn: Sir.Symbol, args: seq<Sir.Val>, heap: Heap, n: nat)
    returns (m: nat, w: Where)
    requires Partly(p, q) && Sir.Blind(ops) && Sir.Whole(args, heap)
    requires Sir.Start(p, fn, args, heap) != Sir.Fault
    requires Sir.Steps(p, ops, Sir.Start(p, fn, args, heap), n) != Sir.Fault
    requires forall k: nat :: k < n ==>
      && Inside(p, Sir.Steps(p, ops, Sir.Start(p, fn, args, heap), k))
      && SoundState(CutOff(p), ops, Sir.Steps(p, ops, Sir.Start(p, fn, args, heap), k),
           After(CutOff(p), ops, Sir.Start(p, fn, args, heap), Begin(args), k))
    ensures var end := Sir.Steps(p, ops, Sir.Start(p, fn, args, heap), n);
      var t := Steps(q, ops, Start(q, fn, args, heap), m);
      if AtRefused(p, end) then t == Exited(Sir.Prim(1))
      else Match(CutOff(p), end, After(CutOff(p), ops, Sir.Start(p, fn, args, heap), Begin(args), n), t, w)
  {
    hide Partly, CutOff, CutBlocks, Match, Step, Sir.Step, Inside, SoundState, Record, AtRefused, Sir.Blind;
    hide Identity, Landed, Sir.Whole, Sir.Start, Start, CallersInside, Compiled, Steps;
    var s, t := Sir.Start(p, fn, args, heap), Start(q, fn, args, heap);
    CutCompiled(p, q);
    StartsSame(p, q, fn, args, heap);
    StartMatches(CutOff(p), CutBlocks(p), fn, args, heap);
    m, w := FollowsTo(p, q, ops, s, Begin(args), t, Identity(|heap|), n);
    var end := Sir.Steps(p, ops, s, n);
    if AtRefused(p, end) {
      var k := RefusedExits(p, q, ops, end, After(CutOff(p), ops, s, Begin(args), n), Steps(q, ops, t, m), w);
      StepsAdd(q, ops, t, m, k);
      m := m + k;
    }
  }

  lemma StartsSame(p: Sir.Program, q: Program, fn: Sir.Symbol, args: seq<Sir.Val>, heap: Heap)
    requires Partly(p, q) && Sir.Start(p, fn, args, heap) != Sir.Fault
    ensures Sir.Start(CutOff(p), fn, args, heap) == Sir.Start(p, fn, args, heap)
    ensures Start(q, fn, args, heap) == Start(CutBlocks(p), fn, args, heap)
    ensures forall t :: Landed(p, Sir.Start(p, fn, args, heap), t)
    ensures CallersInside(p, Sir.Start(p, fn, args, heap))
  {
    hide Cuttable, Limit, Finish, Translate;
    CutParams(p, fn);
  }

  /** Inside, the cut program takes the same steps. */
  lemma {:induction false} SameRun(p: Sir.Program, ops: Sir.Ops, s: Sir.State, n: nat)
    requires CallersInside(p, s) && forall k: nat :: k < n ==> Inside(p, Sir.Steps(p, ops, s, k))
    ensures Sir.Steps(CutOff(p), ops, s, n) == Sir.Steps(p, ops, s, n) && CallersInside(p, Sir.Steps(p, ops, s, n))
  {
    hide Inside, CallersInside, CutOff, Sir.Step;
    if n > 0 {
      SameRun(p, ops, s, n - 1);
      SourceSame(p, ops, Sir.Steps(p, ops, s, n - 1));
      CallersStay(p, ops, Sir.Steps(p, ops, s, n - 1));
    }
  }

  /** Where the part before the refusals meets the conditions on the text, every run goes like that. */
  lemma RefusedSafely(p: Sir.Program, q: Program, owns: map<Sir.Symbol, Regions.Own>, ops: Sir.Ops, fn: Sir.Symbol,
                      args: seq<Sir.Val>, heap: Heap, n: nat)
    returns (m: nat, w: Where)
    requires Partly(p, q) && ClifSafe.AllSafe(CutOff(p), owns) && Sir.Blind(ops) && Sir.Whole(args, heap)
    requires Sir.Start(p, fn, args, heap) != Sir.Fault
    requires Sir.Steps(p, ops, Sir.Start(p, fn, args, heap), n) != Sir.Fault
    requires forall k: nat :: k < n ==> Inside(p, Sir.Steps(p, ops, Sir.Start(p, fn, args, heap), k))
    ensures var end := Sir.Steps(p, ops, Sir.Start(p, fn, args, heap), n);
      var t := Steps(q, ops, Start(q, fn, args, heap), m);
      if AtRefused(p, end) then t == Exited(Sir.Prim(1))
      else Match(CutOff(p), end, After(CutOff(p), ops, Sir.Start(p, fn, args, heap), Begin(args), n), t, w)
  {
    hide Partly, CutOff, CutBlocks, Match, Step, Sir.Step, Inside, SoundState, Record, AtRefused;
    hide Identity, Landed, Sir.Whole, Sir.Start, Start, CallersInside, Compiled, Steps, ClifSafe.AllSafe;
    var s := Sir.Start(p, fn, args, heap);
    StartsSame(p, q, fn, args, heap);
    ClifSafe.SafeRun(CutOff(p), owns, ops, fn, args, heap);
    forall k: nat | k < n
      ensures SoundState(CutOff(p), ops, Sir.Steps(p, ops, s, k), After(CutOff(p), ops, s, Begin(args), k))
    {
      SameRun(p, ops, s, k);
      Sir.FaultEarlier(p, ops, s, k, n);
    }
    m, w := RefusedRun(p, q, ops, fn, args, heap, n);
  }
}
