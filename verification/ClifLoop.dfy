/** An aggregate built in a loop: its one stack slot is filled again, under the address kept from the
    first time round. */
module ClifLoop {
  import opened Wrappers
  import opened Clif
  import opened ClifTranslate
  import opened ClifStraight
  import opened ClifBroken
  import Sir

  /** `fn(a) { loop { let s = (a,); if !a { break }; keep = s; a = 0 }; keep.0 }` */
  function Keeper(): Sir.Function {
    Sir.Function([7], KeeperFirst() + KeeperSecond())
  }

  function KeeperFirst(): seq<Sir.Insn> {
    [Sir.Label(0), Sir.Load(0, Sir.Param(0)), Sir.Construct(1, None, [0]), Sir.BranchIfNot(0, 1), Sir.Store(9, 1),
      Sir.Const(2, 0)]
  }

  function KeeperSecond(): seq<Sir.Insn> {
    [Sir.Store(7, 2), Sir.Jump(0), Sir.Label(1), Sir.Load(3, Sir.Local(9)), Sir.TupleIndex(4, 3, 0),
      Sir.Return(Some(4))]
  }

  function Head(): seq<Inst> { [UseVar(0, 0), StackStore(0, 0, 0), StackAddr(1, 0), Brif(0, 3, 2)] }

  function Tail(): seq<Inst> { [UseVar(3, 1), MemLoad(4, 3, 0), Ret([4])] }

  function Body(): seq<Inst> { [DefVar(1, 1), IConst(2, 0), DefVar(0, 2), JumpTo(1)] }

  function KeeperClif(): Function {
    Function(1, [1], [[JumpTo(1)], Head(), Tail(), Body(), [JumpTo(2)], ExitCode(5)])
  }

  // --- The translation -----------------------------------------------------

  function Numbers(n: nat): (m: map<Sir.ValueId, Value>)
    ensures forall i: nat :: (i in m <==> i < n) && (i in m ==> m[i] == i)
  {
    if n == 0 then map[] else Numbers(n - 1)[n - 1 := n - 1]
  }

  function Vars(n: nat): map<Sir.Symbol, Variable> {
    if n == 1 then map[7 := 0] else map[7 := 0, 9 := 1]
  }

  /** The first `v` values are numbered in order, and `n` variables. */
  function At(blocks: seq<seq<Inst>>, current: BlockId, v: nat, n: nat, slots: seq<nat>): Ctx {
    Ctx(blocks, current, Numbers(v), map[0 := 1, 1 := 2], Vars(n), [0], false, v, n, slots)
  }

  lemma NextNumber(n: nat)
    ensures Numbers(n)[n := n] == Numbers(n + 1)
  {
  }

  lemma KeeperStarts()
    ensures Prepared(Keeper()) == At([[], [], []], 0, 0, 1, [])
  {
    hide Keeper, Preallocate, StartCtx;
    KeeperInsns();
    var f := Keeper();
    var c0 := StartCtx(f.params);
    StartIs(f.params);
    Allocates(c0, f.body, 0, c0);
    var c1 := NewBlock(c0, false).(labels := map[0 := 1]);
    Skips(c0, f.body, 1, 8, c1);
    Allocates(c0, f.body, 8, c1);
    var c2 := NewBlock(c1, false).(labels := map[0 := 1, 1 := 2]);
    Skips(c0, f.body, 9, 12, c2);
    var none: seq<Inst> := [];
    assert [none] + [none] + [none] == [none, none, none];
  }

  lemma StartIs(params: seq<Sir.Symbol>)
    requires params == [7]
    ensures StartCtx(params) == Ctx([[]], 0, map[], map[], Vars(1), [0], false, 0, 1, [])
    ensures forall body :: Preallocate(StartCtx(params), body, 0) == StartCtx(params)
  {
    assert ParamVars(params) == map[7 := 0] by {
      assert params[..0] == [] && ParamVars([]) == map[];
    }
  }

  lemma Allocates(c: Ctx, body: seq<Sir.Insn>, i: nat, d: Ctx)
    requires i < |body| && body[i].Label? && Preallocate(c, body, i) == d
    ensures Preallocate(c, body, i + 1) == NewBlock(d, false).(labels := d.labels[body[i].id := |d.blocks|])
  {
  }

  lemma Skips(c: Ctx, body: seq<Sir.Insn>, i: nat, j: nat, d: Ctx)
    requires i <= j <= |body| && Preallocate(c, body, i) == d && forall k :: i <= k < j ==> !body[k].Label?
    ensures Preallocate(c, body, j) == d
  {
  }

  /** An instruction that defines the next value. */
  lemma Defines(blocks: seq<seq<Inst>>, current: BlockId, v: nat, n: nat, slots: seq<nat>, i: Inst, code: seq<Inst>)
    requires current < |blocks| && code == blocks[current] + [i]
    ensures Define(At(blocks, current, v, n, slots), v, i) == At(blocks[current := code], current, v + 1, n, slots)
  {
    NextNumber(v);
  }

  lemma HeadTranslated(known: set<Sir.Symbol>, c: Ctx)
    requires c == At([[JumpTo(1)], [], []], 1, 0, 1, [])
    ensures Valid(c)
    ensures var d := At([[JumpTo(1)], [UseVar(0, 0)], []], 1, 1, 1, []);
      && TranslateInsn(known, c, Sir.Load(0, Sir.Param(0))) == Go(d)
      && TranslateInsn(known, d, Sir.Construct(1, None, [0])) ==
           Go(At([[JumpTo(1)], [UseVar(0, 0), StackStore(0, 0, 0), StackAddr(1, 0)], []], 1, 2, 1, [1]))
  {
    var j: seq<Inst>, none: seq<Inst> := [JumpTo(1)], [];
    var k1, k2, k3 := [UseVar(0, 0)], [UseVar(0, 0), StackStore(0, 0, 0)], [UseVar(0, 0), StackStore(0, 0, 0),
      StackAddr(1, 0)];
    Defines([j, none, none], 1, 0, 1, [], UseVar(0, 0), k1);
    assert [j, none, none][1 := k1] == [j, k1, none];
    var e := At([j, k1, none], 1, 1, 1, [1]);
    OneField(e, 0, 0);
    assert k1 + [StackStore(0, 0, 0)] == k2 && [j, k1, none][1 := k2] == [j, k2, none];
    assert Ins(e, StackStore(0, 0, 0)) == At([j, k2, none], 1, 1, 1, [1]);
    Defines([j, k2, none], 1, 1, 1, [1], StackAddr(1, 0), k3);
    assert [j, k2, none][1 := k3] == [j, k3, none];
    hide Ins, Define;
  }

  lemma BranchTranslated(known: set<Sir.Symbol>, c: Ctx)
    requires c == At([[JumpTo(1)], [UseVar(0, 0), StackStore(0, 0, 0), StackAddr(1, 0)], []], 1, 2, 1, [1])
    ensures Valid(c)
    ensures TranslateInsn(known, c, Sir.BranchIfNot(0, 1)) == Go(At([[JumpTo(1)], Head(), [], []], 3, 2, 1, [1]))
  {
    var j: seq<Inst>, none: seq<Inst> := [JumpTo(1)], [];
    var k3 := [UseVar(0, 0), StackStore(0, 0, 0), StackAddr(1, 0)];
    assert k3 + [Brif(0, 3, 2)] == Head();
    assert [j, k3, none][1 := Head()] == [j, Head(), none];
    assert [j, Head(), none] + [none] == [j, Head(), none, none];
  }

  lemma BodyTranslated(known: set<Sir.Symbol>, c: Ctx)
    requires c == At([[JumpTo(1)], Head(), [], []], 3, 2, 1, [1])
    ensures Valid(c)
    ensures var d := At([[JumpTo(1)], Head(), [], [DefVar(1, 1)]], 3, 2, 2, [1]);
      var e := At([[JumpTo(1)], Head(), [], [DefVar(1, 1), IConst(2, 0)]], 3, 3, 2, [1]);
      var g := At([[JumpTo(1)], Head(), [], [DefVar(1, 1), IConst(2, 0), DefVar(0, 2)]], 3, 3, 2, [1]);
      && TranslateInsn(known, c, Sir.Store(9, 1)) == Go(d)
      && TranslateInsn(known, d, Sir.Const(2, 0)) == Go(e)
      && TranslateInsn(known, e, Sir.Store(7, 2)) == Go(g)
      && TranslateInsn(known, g, Sir.Jump(0)) == Go(At([[JumpTo(1)], Head(), [], Body(), []], 4, 3, 2, [1]))
  {
    hide Head;
    var j: seq<Inst>, none: seq<Inst> := [JumpTo(1)], [];
    var k1, k2, k3 := [DefVar(1, 1)], [DefVar(1, 1), IConst(2, 0)], [DefVar(1, 1), IConst(2, 0), DefVar(0, 2)];
    assert Vars(1)[9 := 1] == Vars(2);
    assert none + [DefVar(1, 1)] == k1 && [j, Head(), none, none][3 := k1] == [j, Head(), none, k1];
    Defines([j, Head(), none, k1], 3, 2, 2, [1], IConst(2, 0), k2);
    assert [j, Head(), none, k1][3 := k2] == [j, Head(), none, k2];
    assert k2 + [DefVar(0, 2)] == k3 && [j, Head(), none, k2][3 := k3] == [j, Head(), none, k3];
    assert k3 + [JumpTo(1)] == Body() && [j, Head(), none, k3][3 := Body()] == [j, Head(), none, Body()];
    assert [j, Head(), none, Body()] + [none] == [j, Head(), none, Body(), none];
  }

  lemma TailEntered(known: set<Sir.Symbol>, c: Ctx)
    requires c == At([[JumpTo(1)], Head(), [], Body(), []], 4, 3, 2, [1])
    ensures Valid(c)
    ensures var j: seq<Inst>, dead: seq<Inst> := [JumpTo(1)], [JumpTo(2)];
      var d := At([j, Head(), [], Body(), dead], 2, 3, 2, [1]);
      && TranslateInsn(known, c, Sir.Label(1)) == Go(d)
      && TranslateInsn(known, d, Sir.Load(3, Sir.Local(9))) == Go(At([j, Head(), [UseVar(3, 1)], Body(), dead], 2, 4,
        2, [1]))
  {
    hide Head, Body, Define;
    var j: seq<Inst>, none: seq<Inst>, dead: seq<Inst>, k1 := [JumpTo(1)], [], [JumpTo(2)], [UseVar(3, 1)];
    assert none + [JumpTo(2)] == dead && [j, Head(), none, Body(), none][4 := dead] == [j, Head(), none, Body(), dead];
    Defines([j, Head(), none, Body(), dead], 2, 3, 2, [1], UseVar(3, 1), k1);
    assert [j, Head(), none, Body(), dead][2 := k1] == [j, Head(), k1, Body(), dead];
  }

  lemma TailTranslated(known: set<Sir.Symbol>, e: Ctx)
    requires e == At([[JumpTo(1)], Head(), [UseVar(3, 1)], Body(), [JumpTo(2)]], 2, 4, 2, [1])
    ensures Valid(e)
    ensures var j: seq<Inst>, dead: seq<Inst> := [JumpTo(1)], [JumpTo(2)];
      var g := At([j, Head(), [UseVar(3, 1), MemLoad(4, 3, 0)], Body(), dead], 2, 5, 2, [1]);
      && TranslateInsn(known, e, Sir.TupleIndex(4, 3, 0)) == Go(g)
      && TranslateInsn(known, g, Sir.Return(Some(4))) == Go(At([j, Head(), Tail(), Body(), dead, []], 5, 5, 2, [1]))
  {
    hide Head, Body, Define;
    var j: seq<Inst>, none: seq<Inst>, dead: seq<Inst> := [JumpTo(1)], [], [JumpTo(2)];
    var k1, k2 := [UseVar(3, 1)], [UseVar(3, 1), MemLoad(4, 3, 0)];
    Defines([j, Head(), k1, Body(), dead], 2, 4, 2, [1], MemLoad(4, 3, 0), k2);
    assert [j, Head(), k1, Body(), dead][2 := k2] == [j, Head(), k2, Body(), dead];
    assert k2 + [Ret([4])] == Tail() && [j, Head(), k2, Body(), dead][2 := Tail()] == [j, Head(), Tail(), Body(), dead];
    assert [j, Head(), Tail(), Body(), dead] + [none] == [j, Head(), Tail(), Body(), dead, none];
  }

  lemma KeeperExits(c: Ctx)
    requires c == At([[JumpTo(1)], Head(), Tail(), Body(), [JumpTo(2)], []], 5, 5, 2, [1])
    ensures Valid(c) && !c.terminated
    ensures ExitOne(c).blocks == [[JumpTo(1)], Head(), Tail(), Body(), [JumpTo(2)], ExitCode(5)]
    ensures ExitOne(c).slots == [1] && ExitOne(c).labels == map[0 := 1, 1 := 2]
  {
    hide Head, Tail, Body;
    var j: seq<Inst>, none: seq<Inst>, dead: seq<Inst> := [JumpTo(1)], [], [JumpTo(2)];
    assert none + [IConst(5, 1)] + [CallExit(5)] + [Trap] == ExitCode(5);
    assert [j, Head(), Tail(), Body(), dead, none][5 := ExitCode(5)] == [j, Head(), Tail(), Body(), dead, ExitCode(5)];
  }

  lemma KeeperFinished(c: Ctx)
    requires c == At([[JumpTo(1)], Head(), Tail(), Body(), [JumpTo(2)], []], 5, 5, 2, [1])
    ensures Valid(c) && Finish(c).blocks == [[JumpTo(1)], Head(), Tail(), Body(), [JumpTo(2)], ExitCode(5)]
    ensures Finish(c).slots == [1]
  {
    KeeperExits(c);
    hide ExitOne, ExitCode, At, Body, SealOrphans;
    var labels: map<Sir.LabelId, BlockId> := map[0 := 1, 1 := 2];
    assert labels.Values == {1, 2} by {
      assert labels[0] == 1 && labels[1] == 2;
    }
    SealsNone(ExitOne(c), {1, 2}, 6);
  }

  /** Blocks that end in a terminator are left alone. */
  lemma SealsNone(c: Ctx, orphans: set<BlockId>, b: nat)
    requires b <= |c.blocks| && forall k :: 0 <= k < |c.blocks| && k in orphans ==> HasTerminator(c.blocks[k])
    ensures SealOrphans(c, orphans, b) == c
  {
    hide HasTerminator;
  }

  lemma KeeperTranslated(known: set<Sir.Symbol>)
    ensures TranslateFn(known, Keeper()) == KeeperClif()
  {
    var f := Keeper();
    KeeperStarts();
    var j: seq<Inst>, none: seq<Inst>, dead: seq<Inst> := [JumpTo(1)], [], [JumpTo(2)];
    var c0, c1 := At([none, none, none], 0, 0, 1, []), At([j, none, none], 1, 0, 1, []);
    LabelTranslated(known, c0);
    hide Keeper, TranslateInsn, At, Head, Tail, Body, Finish, ExitCode, Prepared;
    KeeperText();
    assert Translate(known, f, 0) == Go(c0);
    TranslateNext(known, f, 0, c0, c1);
    HeadTranslated(known, c1);
    var c2 := At([j, [UseVar(0, 0)], none], 1, 1, 1, []);
    TranslateNext(known, f, 1, c1, c2);
    var c3 := At([j, [UseVar(0, 0), StackStore(0, 0, 0), StackAddr(1, 0)], none], 1, 2, 1, [1]);
    TranslateNext(known, f, 2, c2, c3);
    BranchTranslated(known, c3);
    var c4 := At([j, Head(), none, none], 3, 2, 1, [1]);
    TranslateNext(known, f, 3, c3, c4);
    BodyTranslated(known, c4);
    var c5 := At([j, Head(), none, [DefVar(1, 1)]], 3, 2, 2, [1]);
    TranslateNext(known, f, 4, c4, c5);
    var c6 := At([j, Head(), none, [DefVar(1, 1), IConst(2, 0)]], 3, 3, 2, [1]);
    TranslateNext(known, f, 5, c5, c6);
    var c7 := At([j, Head(), none, [DefVar(1, 1), IConst(2, 0), DefVar(0, 2)]], 3, 3, 2, [1]);
    TranslateNext(known, f, 6, c6, c7);
    var c8 := At([j, Head(), none, Body(), none], 4, 3, 2, [1]);
    TranslateNext(known, f, 7, c7, c8);
    TailEntered(known, c8);
    var c9 := At([j, Head(), none, Body(), dead], 2, 3, 2, [1]);
    TranslateNext(known, f, 8, c8, c9);
    var c10 := At([j, Head(), [UseVar(3, 1)], Body(), dead], 2, 4, 2, [1]);
    TranslateNext(known, f, 9, c9, c10);
    TailTranslated(known, c10);
    var c11 := At([j, Head(), [UseVar(3, 1), MemLoad(4, 3, 0)], Body(), dead], 2, 5, 2, [1]);
    TranslateNext(known, f, 10, c10, c11);
    var c12 := At([j, Head(), Tail(), Body(), dead, none], 5, 5, 2, [1]);
    TranslateNext(known, f, 11, c11, c12);
    hide Translate;
    KeeperFinished(c12);
  }

  lemma LabelTranslated(known: set<Sir.Symbol>, c: Ctx)
    requires c == At([[], [], []], 0, 0, 1, [])
    ensures Valid(c)
    ensures TranslateInsn(known, c, Sir.Label(0)) == Go(At([[JumpTo(1)], [], []], 1, 0, 1, []))
  {
    var none: seq<Inst> := [];
    assert none + [JumpTo(1)] == [JumpTo(1)] && [none, none, none][0 := [JumpTo(1)]] == [[JumpTo(1)], none, none];
  }

  lemma KeeperText()
    ensures var f := Keeper();
      && f.params == [7] && |f.body| == 12
      && f.body[0] == Sir.Label(0) && f.body[1] == Sir.Load(0, Sir.Param(0)) && f.body[2] == Sir.Construct(1, None, [0])
      && f.body[3] == Sir.BranchIfNot(0, 1) && f.body[4] == Sir.Store(9, 1) && f.body[5] == Sir.Const(2, 0)
      && f.body[6] == Sir.Store(7, 2) && f.body[7] == Sir.Jump(0) && f.body[8] == Sir.Label(1)
      && f.body[9] == Sir.Load(3, Sir.Local(9)) && f.body[10] == Sir.TupleIndex(4, 3, 0)
      && f.body[11] == Sir.Return(Some(4))
    ensures Sir.LabelIndex(Keeper().body, 0) == Some(0) && Sir.LabelIndex(Keeper().body, 1) == Some(8)
  {
    KeeperInsns();
    hide Sir.LabelIndex, Keeper;
    LabelFound(Keeper().body, 0, 0);
    LabelFound(Keeper().body, 1, 8);
  }

  lemma KeeperInsns()
    ensures var f := Keeper();
      && f.params == [7] && |f.body| == 12
      && f.body[0] == Sir.Label(0) && f.body[1] == Sir.Load(0, Sir.Param(0)) && f.body[2] == Sir.Construct(1, None, [0])
      && f.body[3] == Sir.BranchIfNot(0, 1) && f.body[4] == Sir.Store(9, 1) && f.body[5] == Sir.Const(2, 0)
      && f.body[6] == Sir.Store(7, 2) && f.body[7] == Sir.Jump(0) && f.body[8] == Sir.Label(1)
      && f.body[9] == Sir.Load(3, Sir.Local(9)) && f.body[10] == Sir.TupleIndex(4, 3, 0)
      && f.body[11] == Sir.Return(Some(4))
  {
    var first, second := KeeperFirst(), KeeperSecond();
    assert |first| == 6 && |second| == 6;
    forall k | 0 <= k < 6 ensures Keeper().body[k] == first[k] && Keeper().body[k + 6] == second[k] {
    }
  }

  lemma LabelFound(body: seq<Sir.Insn>, id: Sir.LabelId, i: nat)
    requires i < |body| && body[i] == Sir.Label(id) && forall k :: 0 <= k < i ==> body[k] != Sir.Label(id)
    ensures Sir.LabelIndex(body, id) == Some(i)
  {
    if i > 0 {
      LabelFound(body[1..], id, i - 1);
    }
  }

  // --- The two runs --------------------------------------------------------

  ghost predicate ZeroIsFalse(ops: Sir.Ops) {
    ops.truthy(Sir.Prim(1)) && !ops.truthy(Sir.Prim(0))
  }

  /** A jump or branch of the only activation. */
  lemma SourceGoes(p: Sir.Program, ops: Sir.Ops, s: Sir.State, n: nat, sf: Sir.Frame, heap: Heap, pc: nat)
    requires Sir.Steps(p, ops, s, n) == Sir.Run([sf], heap) && sf.fn in p && sf.pc < |p[sf.fn].body|
    requires var body := p[sf.fn].body;
      match body[sf.pc]
      case Jump(id) => Sir.LabelIndex(body, id) == Some(pc)
      case BranchIfNot(c, id) =>
        c in sf.vals && if ops.truthy(sf.vals[c]) then pc == sf.pc + 1 else Sir.LabelIndex(body, id) == Some(pc)
      case _ => false
    ensures Sir.Steps(p, ops, s, n + 1) == Sir.Run([sf.(pc := pc)], heap)
  {
    hide Sir.LabelIndex, Sir.Straight, Sir.Resume, Sir.Enter, Sir.Operands;
    assert [sf.(pc := pc)] + [sf][1..] == [sf.(pc := pc)];
  }

  lemma SourceOne(p: Sir.Program, ops: Sir.Ops, s: Sir.State, n: nat, sf: Sir.Frame, heap: Heap, g: Sir.Frame, h: Heap)
    requires Sir.Steps(p, ops, s, n) == Sir.Run([sf], heap) && sf.fn in p && sf.pc < |p[sf.fn].body|
    requires !Sir.Control(p[sf.fn].body[sf.pc])
    requires Sir.Straight(ops, p[sf.fn].params, p[sf.fn].body[sf.pc], sf, heap) == Some((g, h))
    ensures Sir.Steps(p, ops, s, n + 1) == Sir.Run([g.(pc := sf.pc + 1)], h)
  {
    hide Sir.Straight, Sir.Steps;
    assert [sf] + [] == [sf] && [g.(pc := sf.pc + 1)] + [] == [g.(pc := sf.pc + 1)];
    SourceRuns(p, ops, s, n, sf, [], heap, g, h);
  }

  /** The first aggregate is built in the source. */
  lemma KeeperBuilds(p: Sir.Program, ops: Sir.Ops, s: Sir.State)
    requires p == map[0 := Keeper()] && ZeroIsFalse(ops)
    requires Sir.Steps(p, ops, s, 0) == Sir.Run([Sir.Frame(0, 0, map[], map[7 := Sir.Prim(1)])], [])
    ensures Sir.Steps(p, ops, s, 4) ==
      Sir.Run([Sir.Frame(0, 4, map[0 := Sir.Prim(1), 1 := Sir.Ref(0)], map[7 := Sir.Prim(1)])], [[Sir.Prim(1)]])
  {
    hide Keeper, Sir.Steps, Sir.LabelIndex;
    KeeperText();
    var f0 := Sir.Frame(0, 0, map[], map[7 := Sir.Prim(1)]);
    SourceOne(p, ops, s, 0, f0, [], f0, []);
    var f1 := f0.(pc := 1);
    var f2 := f1.(pc := 2, vals := map[0 := Sir.Prim(1)]);
    SourceOne(p, ops, s, 1, f1, [], f2.(pc := 1), []);
    var f3 := f2.(pc := 3, vals := f2.vals[1 := Sir.Ref(0)]);
    var heap := [[Sir.Prim(1)]];
    SourceBuilds(ops, [7], f2, 1, 0, []);
    assert [] + [[Sir.Prim(1)]] == heap;
    SourceOne(p, ops, s, 2, f2, [], f3.(pc := 2), heap);
    SourceGoes(p, ops, s, 3, f3, heap, 4);
    assert f3.vals == map[0 := Sir.Prim(1), 1 := Sir.Ref(0)];
  }

  /** Once round the loop: `keep` holds the first aggregate, and the parameter is 0. */
  lemma KeeperFirstRound(p: Sir.Program, ops: Sir.Ops, s: Sir.State)
    requires p == map[0 := Keeper()]
    requires Sir.Steps(p, ops, s, 4) ==
      Sir.Run([Sir.Frame(0, 4, map[0 := Sir.Prim(1), 1 := Sir.Ref(0)], map[7 := Sir.Prim(1)])], [[Sir.Prim(1)]])
    ensures var vals := map[0 := Sir.Prim(1), 1 := Sir.Ref(0), 2 := Sir.Prim(0)];
      var locals := map[7 := Sir.Prim(0), 9 := Sir.Ref(0)];
      Sir.Steps(p, ops, s, 8) == Sir.Run([Sir.Frame(0, 0, vals, locals)], [[Sir.Prim(1)]])
  {
    hide Keeper, Sir.Steps, Sir.LabelIndex;
    KeeperText();
    var heap := [[Sir.Prim(1)]];
    var f4 := Sir.Frame(0, 4, map[0 := Sir.Prim(1), 1 := Sir.Ref(0)], map[7 := Sir.Prim(1)]);
    var f5 := f4.(pc := 5, locals := f4.locals[9 := Sir.Ref(0)]);
    SourceOne(p, ops, s, 4, f4, heap, f5.(pc := 4), heap);
    var f6 := f5.(pc := 6, vals := f5.vals[2 := Sir.Prim(0)]);
    SourceOne(p, ops, s, 5, f5, heap, f6.(pc := 5), heap);
    var f7 := f6.(pc := 7, locals := f6.locals[7 := Sir.Prim(0)]);
    SourceOne(p, ops, s, 6, f6, heap, f7.(pc := 6), heap);
    SourceGoes(p, ops, s, 7, f7, heap, 0);
    assert f7.vals == map[0 := Sir.Prim(1), 1 := Sir.Ref(0), 2 := Sir.Prim(0)];
    assert f7.locals == map[7 := Sir.Prim(0), 9 := Sir.Ref(0)];
  }

  /** The second time round a second aggregate is built. */
  lemma KeeperSecondRound(p: Sir.Program, ops: Sir.Ops, s: Sir.State, vals: map<Sir.ValueId, Val>)
    requires p == map[0 := Keeper()] && ZeroIsFalse(ops)
    requires var locals := map[7 := Sir.Prim(0), 9 := Sir.Ref(0)];
      Sir.Steps(p, ops, s, 8) == Sir.Run([Sir.Frame(0, 0, vals, locals)], [[Sir.Prim(1)]])
    ensures var locals := map[7 := Sir.Prim(0), 9 := Sir.Ref(0)];
      Sir.Steps(p, ops, s, 12) ==
        Sir.Run([Sir.Frame(0, 8, vals[0 := Sir.Prim(0)][1 := Sir.Ref(1)], locals)], [[Sir.Prim(1)], [Sir.Prim(0)]])
  {
    hide Keeper, Sir.Steps, Sir.LabelIndex;
    KeeperText();
    var one := [[Sir.Prim(1)]];
    var f0 := Sir.Frame(0, 0, vals, map[7 := Sir.Prim(0), 9 := Sir.Ref(0)]);
    SourceOne(p, ops, s, 8, f0, one, f0, one);
    var f1 := f0.(pc := 1);
    var f2 := f1.(pc := 2, vals := f1.vals[0 := Sir.Prim(0)]);
    SourceOne(p, ops, s, 9, f1, one, f2.(pc := 1), one);
    var f3 := f2.(pc := 3, vals := f2.vals[1 := Sir.Ref(1)]);
    var heap := [[Sir.Prim(1)], [Sir.Prim(0)]];
    SourceBuilds(ops, [7], f2, 1, 0, one);
    assert one + [[Sir.Prim(0)]] == heap;
    SourceOne(p, ops, s, 10, f2, one, f3.(pc := 2), heap);
    SourceGoes(p, ops, s, 11, f3, heap, 8);
  }

  /** The first is read. */
  lemma KeeperReads(p: Sir.Program, ops: Sir.Ops, s: Sir.State, vals: map<Sir.ValueId, Val>)
    requires p == map[0 := Keeper()]
    requires var locals := map[7 := Sir.Prim(0), 9 := Sir.Ref(0)];
      Sir.Steps(p, ops, s, 12) == Sir.Run([Sir.Frame(0, 8, vals, locals)], [[Sir.Prim(1)], [Sir.Prim(0)]])
    ensures Sir.Steps(p, ops, s, 16) == Sir.Done(Sir.Prim(1), [[Sir.Prim(1)], [Sir.Prim(0)]])
  {
    hide Keeper, Sir.Steps, Sir.LabelIndex;
    KeeperText();
    var heap := [[Sir.Prim(1)], [Sir.Prim(0)]];
    var f4 := Sir.Frame(0, 8, vals, map[7 := Sir.Prim(0), 9 := Sir.Ref(0)]);
    SourceOne(p, ops, s, 12, f4, heap, f4, heap);
    var f5 := f4.(pc := 9);
    var f6 := f5.(pc := 10, vals := f5.vals[3 := Sir.Ref(0)]);
    SourceOne(p, ops, s, 13, f5, heap, f6.(pc := 9), heap);
    var f7 := f6.(pc := 11, vals := f6.vals[4 := Sir.Prim(1)]);
    SourceOne(p, ops, s, 14, f6, heap, f7.(pc := 10), heap);
    assert [f7] + [] == [f7];
    SourceReturns(p, ops, s, 15, f7, [], heap, Sir.Prim(1));
  }

  lemma KeeperStartsAt(p: Sir.Program)
    requires p == map[0 := Keeper()]
    ensures Sir.Start(p, 0, [Sir.Prim(1)], []) == Sir.Run([Sir.Frame(0, 0, map[], map[7 := Sir.Prim(1)])], [])
  {
    hide Keeper;
    KeeperInsns();
    assert Sir.BindParams([7], [Sir.Prim(1)]) == map[7 := Sir.Prim(1)] by {
      assert [7][..0] == [] && [Sir.Prim(1)][..0] == [];
    }
  }

  lemma KeeperSource(ops: Sir.Ops)
    requires ZeroIsFalse(ops)
    ensures var p := map[0 := Keeper()];
      Sir.Steps(p, ops, Sir.Start(p, 0, [Sir.Prim(1)], []), 16) == Sir.Done(Sir.Prim(1), [[Sir.Prim(1)], [Sir.Prim(0)]])
  {
    hide Keeper, ZeroIsFalse, Sir.Start, Sir.Steps;
    var p := map[0 := Keeper()];
    var s := Sir.Start(p, 0, [Sir.Prim(1)], []);
    KeeperStartsAt(p);
    NoSteps(p, map[], ops, s, Stuck);
    KeeperBuilds(p, ops, s);
    KeeperFirstRound(p, ops, s);
    var vals := map[0 := Sir.Prim(1), 1 := Sir.Ref(0), 2 := Sir.Prim(0)];
    KeeperSecondRound(p, ops, s, vals);
    KeeperReads(p, ops, s, vals[0 := Sir.Prim(0)][1 := Sir.Ref(1)]);
  }

  lemma Goes(q: Program, ops: Sir.Ops, t: State, n: nat, cf: Frame, heap: Heap, b: BlockId)
    requires Steps(q, ops, t, n) == Run([cf], heap, {}) && cf.fn in q
    requires cf.block < |q[cf.fn].blocks| && cf.index < |q[cf.fn].blocks[cf.block]|
    requires match q[cf.fn].blocks[cf.block][cf.index]
      case JumpTo(x) => x == b
      case Brif(c, x, y) => c in cf.vals && b == if ops.truthy(cf.vals[c]) then x else y
      case _ => false
    ensures Steps(q, ops, t, n + 1) == Run([cf.(block := b, index := 0)], heap, {})
  {
    hide Plain;
    assert [cf.(block := b, index := 0)] + [cf][1..] == [cf.(block := b, index := 0)];
  }

  lemma One(q: Program, ops: Sir.Ops, t: State, n: nat, cf: Frame, heap: Heap, g: Frame, h: Heap)
    requires Steps(q, ops, t, n) == Run([cf], heap, {}) && cf.fn in q
    requires cf.block < |q[cf.fn].blocks| && cf.index < |q[cf.fn].blocks[cf.block]|
    requires Ordinary(q[cf.fn].blocks[cf.block][cf.index])
    requires Plain(ops, q[cf.fn].slots, {}, q[cf.fn].blocks[cf.block][cf.index], cf, heap) == Some((g, h))
    ensures Steps(q, ops, t, n + 1) == Run([g.(index := cf.index + 1)], h, {})
  {
    hide Steps, Plain, Ordinary;
    assert [cf] + [] == [cf] && [g.(index := cf.index + 1)] + [] == [g.(index := cf.index + 1)];
    Runs(q, ops, t, n, cf, [], heap, g, h);
  }

  lemma KeeperBlocks()
    ensures var blocks := KeeperClif().blocks;
      && |blocks| == 6 && blocks[0] == [JumpTo(1)] && blocks[1] == Head() && blocks[2] == Tail() && blocks[3] == Body()
      && KeeperClif().slots == [1] && KeeperClif().params == 1
    ensures |Head()| == 4 && Head()[0] == UseVar(0, 0) && Head()[1] == StackStore(0, 0, 0)
    ensures Head()[2] == StackAddr(1, 0)
      && Head()[3] == Brif(0, 3, 2)
    ensures |Tail()| == 3 && Tail()[0] == UseVar(3, 1) && Tail()[1] == MemLoad(4, 3, 0) && Tail()[2] == Ret([4])
    ensures |Body()| == 4 && Body()[0] == DefVar(1, 1) && Body()[1] == IConst(2, 0) && Body()[2] == DefVar(0, 2)
    ensures Body()[3] == JumpTo(1)
  {
  }

  /** The loop is entered and the parameter read. */
  lemma BlocksEnter(q: Program, ops: Sir.Ops, t: State)
    requires q == map[0 := KeeperClif()]
    requires Steps(q, ops, t, 0) == Run([Frame(0, 0, 0, map[], map[0 := Sir.Prim(1)], map[])], [], {})
    ensures Steps(q, ops, t, 2) == Run([Frame(0, 1, 1, map[0 := Sir.Prim(1)], map[0 := Sir.Prim(1)], map[])], [], {})
  {
    hide KeeperClif, Steps, Head, Tail, Body;
    KeeperBlocks();
    var f0 := Frame(0, 0, 0, map[], map[0 := Sir.Prim(1)], map[]);
    Goes(q, ops, t, 0, f0, [], 1);
    var f1 := f0.(block := 1);
    One(q, ops, t, 1, f1, [], f1.(vals := map[0 := Sir.Prim(1)]), []);
  }

  /** The first aggregate is built in the blocks. */
  lemma BlocksBuild(q: Program, ops: Sir.Ops, t: State)
    requires q == map[0 := KeeperClif()] && ZeroIsFalse(ops)
    requires Steps(q, ops, t, 2) == Run([Frame(0, 1, 1, map[0 := Sir.Prim(1)], map[0 := Sir.Prim(1)], map[])], [], {})
    ensures var vals := map[0 := Sir.Prim(1), 1 := Sir.Ref(0)];
      Steps(q, ops, t, 5) == Run([Frame(0, 3, 0, vals, map[0 := Sir.Prim(1)], map[0 := 0])], [[Sir.Prim(1)]], {})
  {
    hide KeeperClif, Steps, Head, Tail, Body;
    KeeperBlocks();
    var f2 := Frame(0, 1, 1, map[0 := Sir.Prim(1)], map[0 := Sir.Prim(1)], map[]);
    var heap := [[Sir.Prim(1)]];
    StoreFresh(ops, [1], f2, [], 0);
    assert [] + [[Sir.Prim(1)]] == heap;
    var f3 := f2.(index := 2, slots := map[0 := 0]);
    One(q, ops, t, 2, f2, [], f3.(index := 1), heap);
    var f4 := f3.(index := 3, vals := f3.vals[1 := Sir.Ref(0)]);
    One(q, ops, t, 3, f3, heap, f4.(index := 2), heap);
    Goes(q, ops, t, 4, f4, heap, 3);
    assert f4.vals == map[0 := Sir.Prim(1), 1 := Sir.Ref(0)];
  }

  /** Its address is kept and the parameter cleared. */
  lemma BlocksKeep(q: Program, ops: Sir.Ops, t: State)
    requires q == map[0 := KeeperClif()]
    requires var vals := map[0 := Sir.Prim(1), 1 := Sir.Ref(0)];
      Steps(q, ops, t, 5) == Run([Frame(0, 3, 0, vals, map[0 := Sir.Prim(1)], map[0 := 0])], [[Sir.Prim(1)]], {})
    ensures var vals := map[0 := Sir.Prim(1), 1 := Sir.Ref(0), 2 := Sir.Prim(0)];
      var vars := map[0 := Sir.Prim(0), 1 := Sir.Ref(0)];
      Steps(q, ops, t, 9) == Run([Frame(0, 1, 0, vals, vars, map[0 := 0])], [[Sir.Prim(1)]], {})
  {
    hide KeeperClif, Steps, Head, Tail, Body;
    KeeperBlocks();
    var heap := [[Sir.Prim(1)]];
    var f5 := Frame(0, 3, 0, map[0 := Sir.Prim(1), 1 := Sir.Ref(0)], map[0 := Sir.Prim(1)], map[0 := 0]);
    var f6 := f5.(index := 1, vars := f5.vars[1 := Sir.Ref(0)]);
    One(q, ops, t, 5, f5, heap, f6.(index := 0), heap);
    var f7 := f6.(index := 2, vals := f6.vals[2 := Sir.Prim(0)]);
    One(q, ops, t, 6, f6, heap, f7.(index := 1), heap);
    var f8 := f7.(index := 3, vars := f7.vars[0 := Sir.Prim(0)]);
    One(q, ops, t, 7, f7, heap, f8.(index := 2), heap);
    Goes(q, ops, t, 8, f8, heap, 1);
    assert f8.vals == map[0 := Sir.Prim(1), 1 := Sir.Ref(0), 2 := Sir.Prim(0)];
    assert f8.vars == map[0 := Sir.Prim(0), 1 := Sir.Ref(0)];
  }

  /** The second time round the slot is overwritten. */
  lemma BlocksOverwrite(q: Program, ops: Sir.Ops, t: State, vals: map<Value, Val>)
    requires q == map[0 := KeeperClif()] && ZeroIsFalse(ops)
    requires var vars := map[0 := Sir.Prim(0), 1 := Sir.Ref(0)];
      Steps(q, ops, t, 9) == Run([Frame(0, 1, 0, vals, vars, map[0 := 0])], [[Sir.Prim(1)]], {})
    ensures var vars := map[0 := Sir.Prim(0), 1 := Sir.Ref(0)];
      Steps(q, ops, t, 13) ==
        Run([Frame(0, 2, 0, vals[0 := Sir.Prim(0)][1 := Sir.Ref(0)], vars, map[0 := 0])], [[Sir.Prim(0)]], {})
  {
    hide KeeperClif, Steps, Head, Tail, Body;
    KeeperBlocks();
    var one, heap := [[Sir.Prim(1)]], [[Sir.Prim(0)]];
    var f0 := Frame(0, 1, 0, vals, map[0 := Sir.Prim(0), 1 := Sir.Ref(0)], map[0 := 0]);
    var f1 := f0.(index := 1, vals := f0.vals[0 := Sir.Prim(0)]);
    One(q, ops, t, 9, f0, one, f1.(index := 0), one);
    StoreAgain(ops, [1], f1, Sir.Prim(1), 0);
    var f2 := f1.(index := 2);
    One(q, ops, t, 10, f1, one, f1, heap);
    var f3 := f2.(index := 3, vals := f2.vals[1 := Sir.Ref(0)]);
    One(q, ops, t, 11, f2, heap, f3.(index := 2), heap);
    Goes(q, ops, t, 12, f3, heap, 2);
  }

  /** What was kept is read, and it is the new value. */
  lemma BlocksRead(q: Program, ops: Sir.Ops, t: State, vals: map<Value, Val>)
    requires q == map[0 := KeeperClif()]
    requires var vars := map[0 := Sir.Prim(0), 1 := Sir.Ref(0)];
      Steps(q, ops, t, 13) == Run([Frame(0, 2, 0, vals, vars, map[0 := 0])], [[Sir.Prim(0)]], {})
    ensures Steps(q, ops, t, 16) == Done(Sir.Prim(0), [[Sir.Prim(0)]], {0})
  {
    hide KeeperClif, Steps, Head, Tail, Body;
    KeeperBlocks();
    var heap := [[Sir.Prim(0)]];
    var f4 := Frame(0, 2, 0, vals, map[0 := Sir.Prim(0), 1 := Sir.Ref(0)], map[0 := 0]);
    var f5 := f4.(index := 1, vals := f4.vals[3 := Sir.Ref(0)]);
    One(q, ops, t, 13, f4, heap, f5.(index := 0), heap);
    var f6 := f5.(index := 2, vals := f5.vals[4 := Sir.Prim(0)]);
    One(q, ops, t, 14, f5, heap, f6.(index := 1), heap);
    assert [f6] + [] == [f6];
    Returns(q, ops, t, 15, f6, [], heap, 4);
    OneSlot(f6.slots);
  }

  lemma OneSlot(slots: map<nat, nat>)
    requires slots == map[0 := 0]
    ensures slots.Values == {0}
  {
    assert slots[0] == 0;
  }

  lemma StoreAgain(ops: Sir.Ops, sizes: seq<nat>, cf: Frame, old0: Val, v: Value)
    requires sizes == [1] && cf.slots == map[0 := 0] && v in cf.vals
    ensures Plain(ops, sizes, {}, StackStore(v, 0, 0), cf, [[old0]]) == Some((cf, [[cf.vals[v]]]))
  {
    assert [old0][0 := cf.vals[v]] == [cf.vals[v]];
    assert [[old0]][0 := [cf.vals[v]]] == [[cf.vals[v]]];
  }

  lemma KeeperRuns(ops: Sir.Ops)
    requires ZeroIsFalse(ops)
    ensures var q := map[0 := KeeperClif()];
      Steps(q, ops, Start(q, 0, [Sir.Prim(1)], []), 16) == Done(Sir.Prim(0), [[Sir.Prim(0)]], {0})
  {
    var q := map[0 := KeeperClif()];
    KeeperBlocks();
    hide KeeperClif, ZeroIsFalse;
    var t := Start(q, 0, [Sir.Prim(1)], []);
    assert Enter(0, [Sir.Prim(1)]).vars == map[0 := Sir.Prim(1)];
    NoSteps(map[], q, ops, Sir.Fault, t);
    hide Steps;
    var vals := map[0 := Sir.Prim(1), 1 := Sir.Ref(0), 2 := Sir.Prim(0)];
    BlocksEnter(q, ops, t);
    BlocksBuild(q, ops, t);
    BlocksKeep(q, ops, t);
    BlocksOverwrite(q, ops, t, vals);
    BlocksRead(q, ops, t, vals[0 := Sir.Prim(0)][1 := Sir.Ref(0)]);
  }

  /** The source returns the field of the aggregate it kept, the blocks that of the last one built. */
  lemma LoopOverwritesSlot(ops: Sir.Ops)
    requires ZeroIsFalse(ops)
    ensures var p := map[0 := Keeper()];
      var q := map[0 := TranslateFn(p.Keys, Keeper())];
      && Sir.Steps(p, ops, Sir.Start(p, 0, [Sir.Prim(1)], []), 16) == Sir.Done(Sir.Prim(1),
        [[Sir.Prim(1)], [Sir.Prim(0)]])
      && Steps(q, ops, Start(q, 0, [Sir.Prim(1)], []), 16) == Done(Sir.Prim(0), [[Sir.Prim(0)]], {0})
  {
    hide TranslateFn, Keeper, KeeperClif, Sir.Steps, Steps, Sir.Start, Start, ZeroIsFalse;
    KeeperTranslated(map[0 := Keeper()].Keys);
    KeeperSource(ops);
    KeeperRuns(ops);
  }
}
