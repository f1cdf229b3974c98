/** Programs on which the blocks and the source part: an initialised declaration without its store, an
    aggregate returned by the function that built it, and an aggregate built in a loop. */
module ClifBroken {
  import opened Wrappers
  import opened Clif
  import opened ClifTranslate
  import opened ClifStraight
  import ClifSim
  import Sir

  // --- Evaluating a translation --------------------------------------------

  lemma TranslateNext(known: set<Sir.Symbol>, f: Sir.Function, i: nat, c: Ctx, d: Ctx)
    requires i < |f.body| && Translate(known, f, i) == Go(c) && TranslateInsn(known, c, f.body[i]) == Go(d)
    ensures Translate(known, f, i + 1) == Go(d)
  {
    hide TranslateInsn, Prepared;
  }

  lemma NothingAllocated(f: Sir.Function, i: nat)
    requires i <= |f.body| && forall k :: 0 <= k < |f.body| ==> !f.body[k].Label?
    ensures Preallocate(StartCtx(f.params), f.body, i) == StartCtx(f.params)
  {
  }

  lemma SealNothing(c: Ctx, b: nat)
    requires b <= |c.blocks|
    ensures SealOrphans(c, {}, b) == c
  {
  }

  lemma StartsStraight(known: set<Sir.Symbol>, f: Sir.Function)
    requires f.params == [] && forall k :: 0 <= k < |f.body| ==> !f.body[k].Label?
    ensures Translate(known, f, 0) == Go(Straight([], map[], map[], 0, 0, []))
  {
    NothingAllocated(f, |f.body|);
    assert ParamVars([]) == map[];
    assert seq(|f.params|, i => i) == [];
  }

  /** A function without labels and branches: its code, and the dead block after its return. */
  function Straight(code: seq<Inst>, values: map<Sir.ValueId, Value>, vars: map<Sir.Symbol, Variable>, v: Value,
                    x: Variable,
                    slots: seq<nat>): Ctx {
    Ctx([code], 0, values, map[], vars, [], false, v, x, slots)
  }

  lemma StraightIns(code: seq<Inst>, values: map<Sir.ValueId, Value>, vars: map<Sir.Symbol, Variable>, v: Value,
                    x: Variable,
                    slots: seq<nat>, i: Inst)
    ensures Ins(Straight(code, values, vars, v, x, slots), i) == Straight(code + [i], values, vars, v, x, slots)
  {
    assert [code][0 := code + [i]] == [code + [i]];
  }

  /** The same after the return, in the dead block. */
  function Dead(code: seq<Inst>, last: seq<Inst>, values: map<Sir.ValueId, Value>, vars: map<Sir.Symbol, Variable>,
                v: Value, x: Variable,
                slots: seq<nat>): Ctx {
    Ctx([code, last], 1, values, map[], vars, [], false, v, x, slots)
  }

  lemma DeadIns(code: seq<Inst>, last: seq<Inst>, values: map<Sir.ValueId, Value>, vars: map<Sir.Symbol, Variable>,
                v: Value, x: Variable,
                slots: seq<nat>, i: Inst)
    ensures Ins(Dead(code, last, values, vars, v, x, slots), i) == Dead(code, last + [i], values, vars, v, x, slots)
  {
    assert [code, last][1 := last + [i]] == [code, last + [i]];
  }

  lemma DeadExits(code: seq<Inst>, values: map<Sir.ValueId, Value>, vars: map<Sir.Symbol, Variable>, v: Value,
                  x: Variable, slots: seq<nat>)
    ensures Finish(Dead(code, [], values, vars, v, x, slots)) == Dead(code, ExitCode(v), values, vars, v + 1, x, slots)
  {
    DeadIns(code, [], values, vars, v, x, slots, IConst(v, 1));
    DeadIns(code, [] + [IConst(v, 1)], values, vars, v, x, slots, CallExit(v));
    DeadIns(code, [] + [IConst(v, 1)] + [CallExit(v)], values, vars, v, x, slots, Trap);
    assert [] + [IConst(v, 1)] + [CallExit(v)] + [Trap] == ExitCode(v);
    var none: map<Sir.LabelId, BlockId> := map[];
    assert none.Values == {};
    hide Ins, ExitCode, SealOrphans;
    SealNothing(Dead(code, ExitCode(v), values, vars, v + 1, x, slots), 2);
  }

  lemma StraightReturns(known: set<Sir.Symbol>, code: seq<Inst>, values: map<Sir.ValueId, Value>,
                        vars: map<Sir.Symbol, Variable>, v: Value,
                        x: Variable, slots: seq<nat>, r: Sir.ValueId)
    requires r in values
    ensures TranslateInsn(known, Straight(code, values, vars, v, x, slots), Sir.Return(Some(r))) ==
      Go(Dead(code + [Ret([values[r]])], [], values, vars, v, x, slots))
  {
    var ret := Ret([values[r]]);
    StraightIns(code, values, vars, v, x, slots, ret);
    assert [code + [ret]] + [[]] == [code + [ret], []];
    hide Ins;
  }

  lemma StraightEnd(known: set<Sir.Symbol>, f: Sir.Function, code: seq<Inst>, values: map<Sir.ValueId, Value>,
                    vars: map<Sir.Symbol, Variable>, v: Value, x: Variable, slots: seq<nat>, r: Sir.ValueId)
    requires f.params == [] && |f.body| > 0 && f.body[|f.body| - 1] == Sir.Return(Some(r)) && r in values
    requires Translate(known, f, |f.body| - 1) == Go(Straight(code, values, vars, v, x, slots))
    ensures TranslateFn(known, f) == Function(0, slots, [code + [Ret([values[r]])], ExitCode(v)])
  {
    hide Translate, TranslateInsn, Finish, ExitCode, Straight;
    var ret := Ret([values[r]]);
    StraightReturns(known, code, values, vars, v, x, slots, r);
    TranslateNext(known, f, |f.body| - 1, Straight(code, values, vars, v, x, slots),
      Dead(code + [ret], [], values, vars, v, x, slots));
    DeadExits(code + [ret], values, vars, v, x, slots);
  }

  // --- Running -------------------------------------------------------------

  lemma NoSteps(p: Sir.Program, q: Program, ops: Sir.Ops, s: Sir.State, t: State)
    ensures Sir.Steps(p, ops, s, 0) == s && Steps(q, ops, t, 0) == t
  {
  }

  lemma SourceNext(p: Sir.Program, ops: Sir.Ops, s: Sir.State, n: nat, u: Sir.State, v: Sir.State)
    requires Sir.Steps(p, ops, s, n) == u && Sir.Step(p, ops, u) == v
    ensures Sir.Steps(p, ops, s, n + 1) == v
  {
    hide Sir.Step;
  }

  /** One ordinary instruction of the running activation. */
  lemma Runs(q: Program, ops: Sir.Ops, t: State, n: nat, cf: Frame, rest: seq<Frame>, heap: Heap, g: Frame, h: Heap)
    requires Steps(q, ops, t, n) == Run([cf] + rest, heap, {}) && cf.fn in q
    requires cf.block < |q[cf.fn].blocks| && cf.index < |q[cf.fn].blocks[cf.block]|
    requires Ordinary(q[cf.fn].blocks[cf.block][cf.index])
    requires Plain(ops, q[cf.fn].slots, {}, q[cf.fn].blocks[cf.block][cf.index], cf, heap) == Some((g, h))
    ensures Steps(q, ops, t, n + 1) == Run([g.(index := cf.index + 1)] + rest, h, {})
  {
    hide Step, Plain, Ordinary;
    ClifSim.OrdinaryStep(q, ops, Run([cf] + rest, heap, {}));
    assert ([cf] + rest)[1..] == rest;
  }

  /** One straight-line instruction of the running activation. */
  lemma SourceRuns(p: Sir.Program, ops: Sir.Ops, s: Sir.State, n: nat, sf: Sir.Frame, rest: seq<Sir.Frame>,
                   heap: Heap, g: Sir.Frame, h: Heap)
    requires Sir.Steps(p, ops, s, n) == Sir.Run([sf] + rest, heap) && sf.fn in p && sf.pc < |p[sf.fn].body|
    requires !Sir.Control(p[sf.fn].body[sf.pc])
    requires Sir.Straight(ops, p[sf.fn].params, p[sf.fn].body[sf.pc], sf, heap) == Some((g, h))
    ensures Sir.Steps(p, ops, s, n + 1) == Sir.Run([g.(pc := sf.pc + 1)] + rest, h)
  {
    hide Sir.Straight;
    assert ([sf] + rest)[1..] == rest;
  }

  lemma SourceReturns(p: Sir.Program, ops: Sir.Ops, s: Sir.State, n: nat, sf: Sir.Frame, rest: seq<Sir.Frame>,
                      heap: Heap, v: Val)
    requires Sir.Steps(p, ops, s, n) == Sir.Run([sf] + rest, heap) && sf.fn in p && sf.pc < |p[sf.fn].body|
    requires p[sf.fn].body[sf.pc].Return? && p[sf.fn].body[sf.pc].result.Some?
    requires Sir.Lookup(sf.vals, p[sf.fn].body[sf.pc].result.value) == Some(v)
    ensures Sir.Steps(p, ops, s, n + 1) == Sir.Resume(p, rest, v, heap)
  {
    hide Sir.Resume, Sir.Straight;
    assert ([sf] + rest)[1..] == rest;
  }

  lemma Returns(q: Program, ops: Sir.Ops, t: State, n: nat, cf: Frame, rest: seq<Frame>, heap: Heap, v: Value)
    requires Steps(q, ops, t, n) == Run([cf] + rest, heap, {}) && cf.fn in q
    requires cf.block < |q[cf.fn].blocks| && cf.index < |q[cf.fn].blocks[cf.block]|
    requires q[cf.fn].blocks[cf.block][cf.index] == Ret([v]) && v in cf.vals
    ensures Steps(q, ops, t, n + 1) == Resume(q, rest, cf.vals[v], heap, cf.slots.Values)
  {
    hide Resume, Plain;
    assert ([cf] + rest)[1..] == rest;
    assert {} + cf.slots.Values == cf.slots.Values;
  }

  /** A slot of one cell, filled for the first time. */
  lemma StoreFresh(ops: Sir.Ops, sizes: seq<nat>, cf: Frame, heap: Heap, v: Value)
    requires sizes == [1] && cf.slots == map[] && v in cf.vals
    ensures Plain(ops, sizes, {}, StackStore(v, 0, 0), cf, heap) ==
      Some((cf.(slots := map[0 := |heap|]), heap + [[cf.vals[v]]]))
  {
    var block: seq<Val> := seq(1, _ => Sir.Unit);
    assert block[0 := cf.vals[v]] == [cf.vals[v]];
    assert (heap + [block])[|heap| := [cf.vals[v]]] == heap + [[cf.vals[v]]];
  }

  lemma SourceBuilds(ops: Sir.Ops, params: seq<Sir.Symbol>, sf: Sir.Frame, dst: Sir.ValueId, v: Sir.ValueId, heap: Heap)
    requires v in sf.vals
    ensures Sir.Straight(ops, params, Sir.Construct(dst, None, [v]), sf, heap) ==
      Some((Sir.SetVal(sf, dst, Sir.Ref(|heap|)), heap + [[sf.vals[v]]]))
  {
    var vs := Sir.Operands(sf.vals, [v]);
    assert vs.Some? && Sir.Block(None, vs.value) == [sf.vals[v]];
  }

  lemma BlocksNext(q: Program, ops: Sir.Ops, t: State, n: nat, u: State, v: State)
    requires Steps(q, ops, t, n) == u && Step(q, ops, u) == v
    ensures Steps(q, ops, t, n + 1) == v
  {
    hide Step;
  }

  // --- An initialised declaration without its store ------------------------

  /** Local 9 is stored 1, then declared anew with 2 and read. */
  function Redeclares(): Sir.Function {
    Sir.Function([], [Sir.Const(0, 1), Sir.Store(9, 0), Sir.Const(1, 2), Sir.VarDef(9, Some(1)),
      Sir.Load(2, Sir.Local(9)),
      Sir.Return(Some(2))])
  }

  lemma RedeclaresText()
    ensures var f := Redeclares();
      && f.params == [] && |f.body| == 6 && (forall k :: 0 <= k < 6 ==> !f.body[k].Label?)
      && f.body[0] == Sir.Const(0, 1) && f.body[1] == Sir.Store(9, 0) && f.body[2] == Sir.Const(1, 2)
      && f.body[3] == Sir.VarDef(9, Some(1)) && f.body[4] == Sir.Load(2, Sir.Local(9))
      && f.body[5] == Sir.Return(Some(2))
  {
  }

  function RedeclaresCode(): seq<Inst> {
    [IConst(0, 1), DefVar(0, 0), IConst(1, 2), DefVar(1, 1), UseVar(2, 1), Ret([2])]
  }

  lemma RedeclaresInsns(known: set<Sir.Symbol>, k: seq<Inst>, v0: map<Sir.ValueId, Value>,
                        x0: map<Sir.Symbol, Variable>)
    requires v0 == map[] && x0 == map[]
    ensures Valid(Straight(k, v0, x0, 0, 0, []))
    ensures var c1 := Straight(k + [IConst(0, 1)], v0[0 := 0], x0, 1, 0, []);
      var c2 := Straight(k + [IConst(0, 1)] + [DefVar(0, 0)], v0[0 := 0], x0[9 := 0], 1, 1, []);
      && TranslateInsn(known, Straight(k, v0, x0, 0, 0, []), Sir.Const(0, 1)) == Go(c1)
      && TranslateInsn(known, c1, Sir.Store(9, 0)) == Go(c2)
  {
    StraightIns(k, v0, x0, 0, 0, [], IConst(0, 1));
    StraightIns(k + [IConst(0, 1)], v0[0 := 0], x0[9 := 0], 1, 1, [], DefVar(0, 0));
    hide Ins;
  }

  lemma RedeclaresRest(known: set<Sir.Symbol>, k: seq<Inst>, v1: map<Sir.ValueId, Value>, x2: map<Sir.Symbol, Variable>)
    ensures Valid(Straight(k, v1, x2, 1, 1, []))
    ensures var c3 := Straight(k + [IConst(1, 2)], v1[1 := 1], x2, 2, 1, []);
      var c4 := Straight(k + [IConst(1, 2)] + [DefVar(1, 1)], v1[1 := 1], x2[9 := 1], 2, 2, []);
      var c5 := Straight(k + [IConst(1, 2)] + [DefVar(1, 1)] + [UseVar(2, 1)], v1[1 := 1][2 := 2], x2[9 := 1], 3, 2,
        []);
      && TranslateInsn(known, Straight(k, v1, x2, 1, 1, []), Sir.Const(1, 2)) == Go(c3)
      && TranslateInsn(known, c3, Sir.VarDef(9, Some(1))) == Go(c4)
      && TranslateInsn(known, c4, Sir.Load(2, Sir.Local(9))) == Go(c5)
  {
    StraightIns(k, v1, x2, 1, 1, [], IConst(1, 2));
    StraightIns(k + [IConst(1, 2)], v1[1 := 1], x2[9 := 1], 2, 2, [], DefVar(1, 1));
    StraightIns(k + [IConst(1, 2)] + [DefVar(1, 1)], v1[1 := 1], x2[9 := 1], 2, 2, [], UseVar(2, 1));
    hide Ins;
  }

  lemma RedeclaresTranslated(known: set<Sir.Symbol>)
    ensures TranslateFn(known, Redeclares()) == Function(0, [], [RedeclaresCode(), ExitCode(3)])
  {
    var f := Redeclares();
    var k0: seq<Inst> := [];
    var v0: map<Sir.ValueId, Value>, x0: map<Sir.Symbol, Variable> := map[], map[];
    hide Translate, TranslateInsn, Straight, TranslateFn, ExitCode, Valid, Redeclares;
    RedeclaresText();
    StartsStraight(known, f);
    var k2 := k0 + [IConst(0, 1)] + [DefVar(0, 0)];
    RedeclaresInsns(known, k0, v0, x0);
    TranslateNext(known, f, 0, Straight(k0, v0, x0, 0, 0, []), Straight(k0 + [IConst(0, 1)], v0[0 := 0], x0, 1, 0, []));
    var v1, x2 := v0[0 := 0], x0[9 := 0];
    TranslateNext(known, f, 1, Straight(k0 + [IConst(0, 1)], v1, x0, 1, 0, []), Straight(k2, v1, x2, 1, 1, []));
    RedeclaresRest(known, k2, v1, x2);
    var k3, v3, x4 := k2 + [IConst(1, 2)], v1[1 := 1], x2[9 := 1];
    TranslateNext(known, f, 2, Straight(k2, v1, x2, 1, 1, []), Straight(k3, v3, x2, 2, 1, []));
    var k4 := k3 + [DefVar(1, 1)];
    TranslateNext(known, f, 3, Straight(k3, v3, x2, 2, 1, []), Straight(k4, v3, x4, 2, 2, []));
    var k5, v5 := k4 + [UseVar(2, 1)], v3[2 := 2];
    TranslateNext(known, f, 4, Straight(k4, v3, x4, 2, 2, []), Straight(k5, v5, x4, 3, 2, []));
    StraightEnd(known, f, k5, v5, x4, 3, 2, [], 2);
    assert k5 + [Ret([2])] == RedeclaresCode();
  }

  lemma RedeclaresSource(ops: Sir.Ops)
    ensures var p := map[0 := Redeclares()];
      Sir.Steps(p, ops, Sir.Start(p, 0, [], []), 6) == Sir.Done(Sir.Prim(1), [])
  {
    hide Sir.Steps, Sir.Step, Redeclares;
    RedeclaresText();
    var p := map[0 := Redeclares()];
    var s := Sir.Start(p, 0, [], []);
    NoSteps(p, map[], ops, s, Stuck);
    var f0 := Sir.Frame(0, 0, map[], map[]);
    assert s == Sir.Run([f0] + [], []);
    var f1 := Sir.Frame(0, 1, map[0 := Sir.Prim(1)], map[]);
    SourceRuns(p, ops, s, 0, f0, [], [], f1.(pc := 0), []);
    var f2 := f1.(pc := 2, locals := map[9 := Sir.Prim(1)]);
    SourceRuns(p, ops, s, 1, f1, [], [], f2.(pc := 1), []);
    var f3 := f2.(pc := 3, vals := f2.vals[1 := Sir.Prim(2)]);
    SourceRuns(p, ops, s, 2, f2, [], [], f3.(pc := 2), []);
    var f4 := f3.(pc := 4);
    SourceRuns(p, ops, s, 3, f3, [], [], f3, []);
    var f5 := f4.(pc := 5, vals := f4.vals[2 := Sir.Prim(1)]);
    SourceRuns(p, ops, s, 4, f4, [], [], f5.(pc := 4), []);
    SourceReturns(p, ops, s, 5, f5, [], [], Sir.Prim(1));
  }

  lemma RedeclaresBlocks(ops: Sir.Ops)
    ensures var q := map[0 := Function(0, [], [RedeclaresCode(), ExitCode(3)])];
      Steps(q, ops, Start(q, 0, [], []), 6) == Done(Sir.Prim(2), [], {})
  {
    var q := map[0 := Function(0, [], [RedeclaresCode(), ExitCode(3)])];
    var f0 := Frame(0, 0, 0, map[], map[], map[]);
    var t := Run([f0] + [], [], {});
    assert Start(q, 0, [], []) == t;
    NoSteps(map[], q, ops, Sir.Fault, t);
    hide Steps, Step;
    var f1 := f0.(index := 1, vals := map[0 := Sir.Prim(1)]);
    Runs(q, ops, t, 0, f0, [], [], f1.(index := 0), []);
    var f2 := f1.(index := 2, vars := map[0 := Sir.Prim(1)]);
    Runs(q, ops, t, 1, f1, [], [], f2.(index := 1), []);
    var f3 := f2.(index := 3, vals := f2.vals[1 := Sir.Prim(2)]);
    Runs(q, ops, t, 2, f2, [], [], f3.(index := 2), []);
    var f4 := f3.(index := 4, vars := f3.vars[1 := Sir.Prim(2)]);
    Runs(q, ops, t, 3, f3, [], [], f4.(index := 3), []);
    var f5 := f4.(index := 5, vals := f4.vals[2 := Sir.Prim(2)]);
    Runs(q, ops, t, 4, f4, [], [], f5.(index := 4), []);
    Returns(q, ops, t, 5, f5, [], [], 2);
    assert f5.slots.Values == {};
  }

  /** The blocks take the declared value at once, the source waits for a store that does not come. */
  lemma DeclarationTakenEarly(ops: Sir.Ops)
    ensures var p := map[0 := Redeclares()];
      var q := map[0 := TranslateFn(p.Keys, Redeclares())];
      && Sir.Steps(p, ops, Sir.Start(p, 0, [], []), 6) == Sir.Done(Sir.Prim(1), [])
      && Steps(q, ops, Start(q, 0, [], []), 6) == Done(Sir.Prim(2), [], {})
  {
    var p := map[0 := Redeclares()];
    RedeclaresTranslated(p.Keys);
    hide TranslateFn, Redeclares, RedeclaresCode, Sir.Steps, Steps;
    RedeclaresSource(ops);
    RedeclaresBlocks(ops);
  }

  // --- An aggregate returned by the function that built it -----------------

  function Maker(): Sir.Function {
    Sir.Function([], [Sir.Const(0, 5), Sir.Construct(1, None, [0]), Sir.Return(Some(1))])
  }

  function Reader(): Sir.Function {
    Sir.Function([], [Sir.Call(0, 1, []), Sir.TupleIndex(1, 0, 0), Sir.Return(Some(1))])
  }

  function MakerClif(): Function {
    Function(0, [1], [[IConst(0, 5), StackStore(0, 0, 0), StackAddr(1, 0), Ret([1])], ExitCode(2)])
  }

  function ReaderClif(): Function {
    Function(0, [], [[CallFn(0, 1, []), MemLoad(1, 0, 0), Ret([1])], ExitCode(2)])
  }

  lemma MakerInsns(known: set<Sir.Symbol>, k: seq<Inst>, v0: map<Sir.ValueId, Value>, x: map<Sir.Symbol, Variable>)
    ensures Valid(Straight(k, v0, x, 0, 0, []))
    ensures var c1 := Straight(k + [IConst(0, 5)], v0[0 := 0], x, 1, 0, []);
      var c2 := Straight(k + [IConst(0, 5)] + [StackStore(0, 0, 0)] + [StackAddr(1, 0)], v0[0 := 0][1 := 1], x, 2, 0,
        [1]);
      && TranslateInsn(known, Straight(k, v0, x, 0, 0, []), Sir.Const(0, 5)) == Go(c1)
      && TranslateConstruct(c1, 1, None, [0]) == Go(c2)
  {
    StraightIns(k, v0, x, 0, 0, [], IConst(0, 5));
    var k1, v1 := k + [IConst(0, 5)], v0[0 := 0];
    StraightIns(k1, v1, x, 1, 0, [1], StackStore(0, 0, 0));
    StraightIns(k1 + [StackStore(0, 0, 0)], v1, x, 1, 0, [1], StackAddr(1, 0));
    OneField(Straight(k1, v1, x, 1, 0, [1]), 0, 0);
    hide Ins, StoreFields;
  }

  lemma MakerTranslated(known: set<Sir.Symbol>)
    ensures TranslateFn(known, Maker()) == MakerClif()
  {
    var f := Maker();
    var k0: seq<Inst> := [];
    var v0: map<Sir.ValueId, Value>, x: map<Sir.Symbol, Variable> := map[], map[];
    StartsStraight(known, f);
    MakerInsns(known, k0, v0, x);
    var k1, v1 := k0 + [IConst(0, 5)], v0[0 := 0];
    var k3, v3 := k1 + [StackStore(0, 0, 0)] + [StackAddr(1, 0)], v1[1 := 1];
    ConstructsAs(known, Straight(k1, v1, x, 1, 0, []), 1, None, [0]);
    hide Translate, TranslateInsn, Straight, TranslateFn, ExitCode, TranslateConstruct;
    TranslateNext(known, f, 0, Straight(k0, v0, x, 0, 0, []), Straight(k1, v1, x, 1, 0, []));
    TranslateNext(known, f, 1, Straight(k1, v1, x, 1, 0, []), Straight(k3, v3, x, 2, 0, [1]));
    StraightEnd(known, f, k3, v3, x, 2, 0, [1], 1);
    assert k3 + [Ret([1])] == [IConst(0, 5), StackStore(0, 0, 0), StackAddr(1, 0), Ret([1])];
  }

  lemma ConstructsAs(known: set<Sir.Symbol>, c: Ctx, dst: Sir.ValueId, tag: Option<int>, fields: seq<Sir.ValueId>)
    requires Valid(c)
    ensures TranslateInsn(known, c, Sir.Construct(dst, tag, fields)) == TranslateConstruct(c, dst, tag, fields)
  {
    hide TranslateConstruct;
  }

  lemma OneField(c: Ctx, v: Sir.ValueId, slot: nat)
    requires Valid(c) && v in c.values
    ensures StoreFields(c, [v], slot, 0) == Go(Ins(c, StackStore(c.values[v], slot, 0)))
  {
    assert [v][1..] == [];
  }

  lemma ReaderInsns(known: set<Sir.Symbol>, k: seq<Inst>, v0: map<Sir.ValueId, Value>, x: map<Sir.Symbol, Variable>)
    requires 1 in known
    ensures Valid(Straight(k, v0, x, 0, 0, []))
    ensures var c1 := Straight(k + [CallFn(0, 1, [])], v0[0 := 0], x, 1, 0, []);
      var c2 := Straight(k + [CallFn(0, 1, [])] + [MemLoad(1, 0, 0)], v0[0 := 0][1 := 1], x, 2, 0, []);
      && TranslateInsn(known, Straight(k, v0, x, 0, 0, []), Sir.Call(0, 1, [])) == Go(c1)
      && TranslateInsn(known, c1, Sir.TupleIndex(1, 0, 0)) == Go(c2)
  {
    StraightIns(k, v0, x, 0, 0, [], CallFn(0, 1, []));
    assert Mapped(Straight(k, v0, x, 0, 0, []), []) == [];
    StraightIns(k + [CallFn(0, 1, [])], v0[0 := 0], x, 1, 0, [], MemLoad(1, 0, 0));
    hide Ins;
  }

  lemma ReaderTranslated(known: set<Sir.Symbol>)
    requires 1 in known
    ensures TranslateFn(known, Reader()) == ReaderClif()
  {
    var f := Reader();
    var k0: seq<Inst> := [];
    var v0: map<Sir.ValueId, Value>, x: map<Sir.Symbol, Variable> := map[], map[];
    StartsStraight(known, f);
    hide Translate, TranslateInsn, Straight, TranslateFn, ExitCode;
    ReaderInsns(known, k0, v0, x);
    var k1, v1 := k0 + [CallFn(0, 1, [])], v0[0 := 0];
    TranslateNext(known, f, 0, Straight(k0, v0, x, 0, 0, []), Straight(k1, v1, x, 1, 0, []));
    var k2, v2 := k1 + [MemLoad(1, 0, 0)], v1[1 := 1];
    TranslateNext(known, f, 1, Straight(k1, v1, x, 1, 0, []), Straight(k2, v2, x, 2, 0, []));
    StraightEnd(known, f, k2, v2, x, 2, 0, [], 1);
    assert k2 + [Ret([1])] == [CallFn(0, 1, []), MemLoad(1, 0, 0), Ret([1])];
  }

  lemma ReaderCallsSource(ops: Sir.Ops)
    ensures Sir.Step(map[0 := Reader(), 1 := Maker()], ops, Sir.Run([Sir.Frame(0, 0, map[], map[])], [])) ==
      Sir.Run([Sir.Frame(1, 0, map[], map[])] + [Sir.Frame(0, 0, map[], map[])], [])
  {
  }

  lemma ReaderCalls(ops: Sir.Ops)
    ensures Step(map[0 := ReaderClif(), 1 := MakerClif()], ops, Run([Frame(0, 0, 0, map[], map[], map[])], [], {})) ==
      Run([Frame(1, 0, 0, map[], map[], map[])] + [Frame(0, 0, 0, map[], map[], map[])], [], {})
  {
    var none: map<nat, Val> := map[];
    assert Enter(1, []).vars == none;
  }

  /** From its first instruction the maker returns the address of its aggregate. */
  lemma MakerSource(p: Sir.Program, ops: Sir.Ops, s: Sir.State, rest: seq<Sir.Frame>)
    requires 1 in p && p[1] == Maker() && Sir.Steps(p, ops, s, 1) == Sir.Run([Sir.Frame(1, 0, map[], map[])] + rest, [])
    ensures Sir.Steps(p, ops, s, 4) == Sir.Resume(p, rest, Sir.Ref(0), [[Sir.Prim(5)]])
  {
    hide Sir.Steps, Sir.Step, Sir.Resume;
    var m0 := Sir.Frame(1, 0, map[], map[]);
    var m1 := m0.(pc := 1, vals := map[0 := Sir.Prim(5)]);
    SourceRuns(p, ops, s, 1, m0, rest, [], m1.(pc := 0), []);
    var m2 := m1.(pc := 2, vals := m1.vals[1 := Sir.Ref(0)]);
    var heap := [[Sir.Prim(5)]];
    SourceBuilds(ops, [], m1, 1, 0, []);
    assert [] + [[Sir.Prim(5)]] == heap;
    SourceRuns(p, ops, s, 2, m1, rest, [], m2.(pc := 1), heap);
    SourceReturns(p, ops, s, 3, m2, rest, heap, Sir.Ref(0));
  }

  lemma ReaderSource(ops: Sir.Ops)
    ensures var p := map[0 := Reader(), 1 := Maker()];
      Sir.Steps(p, ops, Sir.Start(p, 0, [], []), 6) == Sir.Done(Sir.Prim(5), [[Sir.Prim(5)]])
  {
    hide Sir.Steps, Sir.Step, Maker, Reader, Sir.Start;
    var p := map[0 := Reader(), 1 := Maker()];
    var s := Sir.Start(p, 0, [], []);
    var r0, m0 := Sir.Frame(0, 0, map[], map[]), Sir.Frame(1, 0, map[], map[]);
    SourceStarts();
    NoSteps(p, map[], ops, s, Stuck);
    ReaderCallsSource(ops);
    SourceNext(p, ops, s, 0, s, Sir.Run([m0] + [r0], []));
    MakerSource(p, ops, s, [r0]);
    ReaderReads(p, ops, s);
  }

  lemma SourceStarts()
    ensures Sir.Start(map[0 := Reader(), 1 := Maker()], 0, [], []) == Sir.Run([Sir.Frame(0, 0, map[], map[])], [])
  {
    hide Maker;
  }

  /** The reader resumes and reads the field. */
  lemma ReaderReads(p: Sir.Program, ops: Sir.Ops, s: Sir.State)
    requires 0 in p && p[0] == Reader()
    requires Sir.Steps(p, ops, s, 4) == Sir.Resume(p, [Sir.Frame(0, 0, map[], map[])], Sir.Ref(0), [[Sir.Prim(5)]])
    ensures Sir.Steps(p, ops, s, 6) == Sir.Done(Sir.Prim(5), [[Sir.Prim(5)]])
  {
    hide Sir.Steps, Sir.Step;
    var r0 := Sir.Frame(0, 0, map[], map[]);
    var heap := [[Sir.Prim(5)]];
    var r1 := r0.(pc := 1, vals := map[0 := Sir.Ref(0)]);
    assert [r1] + [r0][1..] == [r1] + [];
    var r2 := r1.(pc := 2, vals := r1.vals[1 := Sir.Prim(5)]);
    SourceRuns(p, ops, s, 4, r1, [], heap, r2.(pc := 1), heap);
    SourceReturns(p, ops, s, 5, r2, [], heap, Sir.Prim(5));
  }

  /** So do its blocks, leaving the stack slot dead. */
  lemma MakerBlocks(q: Program, ops: Sir.Ops, t: State, rest: seq<Frame>)
    requires 1 in q && q[1] == MakerClif()
    requires Steps(q, ops, t, 1) == Run([Frame(1, 0, 0, map[], map[], map[])] + rest, [], {})
    ensures Steps(q, ops, t, 5) == Resume(q, rest, Sir.Ref(0), [[Sir.Prim(5)]], {0})
  {
    hide Steps, Step, Resume;
    var m0 := Frame(1, 0, 0, map[], map[], map[]);
    var m1 := m0.(index := 1, vals := map[0 := Sir.Prim(5)]);
    Runs(q, ops, t, 1, m0, rest, [], m1.(index := 0), []);
    var heap := [[Sir.Prim(5)]];
    var m2 := m1.(index := 2, slots := map[0 := 0]);
    StoreFresh(ops, [1], m1, [], 0);
    assert [] + [[Sir.Prim(5)]] == heap;
    Runs(q, ops, t, 2, m1, rest, [], m2.(index := 1), heap);
    var m3 := m2.(index := 3, vals := m2.vals[1 := Sir.Ref(0)]);
    Runs(q, ops, t, 3, m2, rest, heap, m3.(index := 2), heap);
    Returns(q, ops, t, 4, m3, rest, heap, 1);
    assert m3.slots.Values == {0};
  }

  lemma ReaderStarts()
    ensures Start(map[0 := ReaderClif(), 1 := MakerClif()], 0, [], []) == Run([Frame(0, 0, 0, map[], map[], map[])],
      [], {})
  {
    var none: map<nat, Val> := map[];
    assert Enter(0, []).vars == none;
    hide MakerClif;
  }

  lemma ReaderBlocks(ops: Sir.Ops)
    ensures var q := map[0 := ReaderClif(), 1 := MakerClif()];
      Steps(q, ops, Start(q, 0, [], []), 6) == Stuck
  {
    hide Steps, Step, MakerClif, Start, ReaderClif;
    var q := map[0 := ReaderClif(), 1 := MakerClif()];
    var r0, m0 := Frame(0, 0, 0, map[], map[], map[]), Frame(1, 0, 0, map[], map[], map[]);
    ReaderStarts();
    var t := Start(q, 0, [], []);
    NoSteps(map[], q, ops, Sir.Fault, t);
    ReaderCalls(ops);
    BlocksNext(q, ops, t, 0, t, Run([m0] + [r0], [], {}));
    MakerBlocks(q, ops, t, [r0]);
    ReaderStops(q, ops, t);
  }

  /** The reader resumes with an address into the slot that is gone. */
  lemma ReaderStops(q: Program, ops: Sir.Ops, t: State)
    requires 0 in q && q[0] == ReaderClif()
    requires Steps(q, ops, t, 5) == Resume(q, [Frame(0, 0, 0, map[], map[], map[])], Sir.Ref(0), [[Sir.Prim(5)]], {0})
    ensures Steps(q, ops, t, 6) == Stuck
  {
    hide Steps, Step;
    var r0 := Frame(0, 0, 0, map[], map[], map[]);
    var r1 := r0.(index := 1, vals := map[0 := Sir.Ref(0)]);
    var u := Run([r1] + [r0][1..], [[Sir.Prim(5)]], {0});
    Stops(q, ops, u);
    BlocksNext(q, ops, t, 5, u, Stuck);
  }

  /** Reading a dead block is undefined. */
  lemma Stops(q: Program, ops: Sir.Ops, u: State)
    requires u.Run? && u.frames != [] && u.frames[0].fn in q
    requires var cf := u.frames[0];
      && cf.block < |q[cf.fn].blocks| && cf.index < |q[cf.fn].blocks[cf.block]|
        && q[cf.fn].blocks[cf.block][cf.index].MemLoad?
      && var i := q[cf.fn].blocks[cf.block][cf.index];
        i.base in cf.vals && cf.vals[i.base].Ref? && cf.vals[i.base].addr in u.dead
    ensures Step(q, ops, u) == Stuck
  {
  }

  /** The source reads the field, the blocks read a stack slot that is gone. */
  lemma ReturnedAggregateGone(ops: Sir.Ops)
    ensures var p := map[0 := Reader(), 1 := Maker()];
      var q := map[0 := TranslateFn(p.Keys, Reader()), 1 := TranslateFn(p.Keys, Maker())];
      && Sir.Steps(p, ops, Sir.Start(p, 0, [], []), 6) == Sir.Done(Sir.Prim(5), [[Sir.Prim(5)]])
      && Steps(q, ops, Start(q, 0, [], []), 6) == Stuck
  {
    var p := map[0 := Reader(), 1 := Maker()];
    assert 1 in p.Keys;
    hide TranslateFn, Reader, Maker, ReaderClif, MakerClif, Sir.Steps, Steps;
    ReaderTranslated(p.Keys);
    MakerTranslated(p.Keys);
    ReaderSource(ops);
    ReaderBlocks(ops);
  }
}
