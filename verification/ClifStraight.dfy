/** Straight-line code on both sides. The blocks keep each declared variable in a cell of its own and
    each aggregate in a stack slot of the activation, so an aggregate built again takes the place of the
    one before. An instruction is followed exactly when the variable it reads is current, the cell it
    touches can be reached and holds what the source means, and an operator cannot tell two aggregates
    apart that share a slot. */
module ClifStraight {
  import opened Wrappers
  import opened Clif
  import opened ClifTranslate
  import opened ClifMaps
  import opened ClifCode
  import opened Trails
  import opened Places
  import Sir

  // --- What an activation's history leaves in the blocks -------------------

  /** What each variable was last given: its argument, a store, or an initialised declaration. */
  function Cells(f: Sir.Function, args: seq<Val>, past: seq<Event>): map<Variable, Val> {
    if past == [] then map i | 0 <= i < |args| :: args[i]
    else
      var front, e := Cells(f, args, past[..|past| - 1]), past[|past| - 1];
      if e.pc < |f.body| && Names(f.body[e.pc]).Some? && e.given.Some? then
        front[LocalVar(f, e.pc + 1, Names(f.body[e.pc]).value) := e.given.value]
      else front
  }

  /** The stack slot of the aggregate built at `i`. */
  function SlotOf(body: seq<Sir.Insn>, i: nat): nat
    requires i <= |body|
  {
    |SlotsAt(body, i)|
  }

  lemma SlotsDiffer(body: seq<Sir.Insn>, i: nat, j: nat)
    requires i < |body| && j < |body| && body[i].Construct? && body[j].Construct? && SlotOf(body, i) == SlotOf(body, j)
    ensures i == j
  {
    if i < j {
      SlotsGrow(body, i, j);
    } else if j < i {
      SlotsGrow(body, j, i);
    }
  }

  ghost predicate MatchVals(e: Ctx, w: Where, vals: map<Sir.ValueId, Val>, cvals: map<Value, Val>) {
    forall v :: v in vals ==> v in e.values && e.values[v] in cvals && Stands(w, vals[v], cvals[e.values[v]])
  }

  ghost predicate MatchVars(w: Where, cells: map<Variable, Val>, vars: map<Variable, Val>) {
    vars.Keys == cells.Keys && forall x :: x in cells ==> Stands(w, cells[x], vars[x])
  }

  /** The slots in use hold the last aggregate of each instruction, and every aggregate was built in one
      of them. */
  ghost predicate MatchSlots(body: seq<Sir.Insn>, newest: map<nat, nat>, built: set<nat>, w: Where,
                             slots: map<nat, nat>) {
    && (forall i :: i in newest ==>
      i < |body| && body[i].Construct? && newest[i] < |w| && SlotOf(body, i) in slots
        && slots[SlotOf(body, i)] == w[newest[i]])
    && (forall k :: k in slots ==> exists i :: i in newest && i <= |body| && SlotOf(body, i) == k)
    && (forall x :: x in built ==> x < |w| && w[x] in slots.Values)
  }

  /** A slot in use is a block of its size. */
  ghost predicate Sized(sizes: seq<nat>, slots: map<nat, nat>, heap: Heap) {
    forall k :: k in slots ==> k < |sizes| && slots[k] < |heap| && |heap[slots[k]]| == sizes[k]
  }

  ghost predicate MatchState(e: Ctx, f: Sir.Function, a: Act, sf: Sir.Frame, cf: Frame, w: Where, heap: Heap) {
    && MatchVals(e, w, sf.vals, cf.vals)
    && MatchVars(w, Cells(f, a.args, a.past), cf.vars)
    && MatchSlots(f.body, Newest(f.body, a.past), Built(f.body, a.past), w, cf.slots)
    && Sized(SlotsAt(f.body, |f.body|), cf.slots, heap)
  }

  /** A load finds in its variable the value of the local; a cell that is read can be reached and holds
      what the source reads; a cell that is written can be reached, and belongs to the aggregate that is
      written or holds what is written already; an operator does the same with the aggregates found
      today. Names and addresses apart, nothing else can go wrong. */
  ghost predicate Sound(ops: Sir.Ops, f: Sir.Function, a: Act, sf: Sir.Frame, heap: Heap, lost: Lost) {
    sf.pc < |f.body| ==>
      match f.body[sf.pc]
      case Load(_, src) =>
        var name, cells, x := Sir.SourceName(f.params, src), Cells(f, a.args, a.past), SourceVar(f, sf.pc, src);
        name.Some? && name.value in sf.locals ==> x in cells && Same(lost.later, sf.locals[name.value], cells[x])
      case BinOp(_, op, l, r) =>
        l in sf.vals && r in sf.vals ==>
          var x, y := sf.vals[l], sf.vals[r];
          ops.bin(op, x, y) == ops.bin(op, Today(lost.later, x), Today(lost.later, y))
      case TupleIndex(_, t, i) =>
        t in sf.vals && Sir.IsCell(heap, sf.vals[t], i) ==>
          var x := sf.vals[t].addr;
          Readable(lost, heap, x, i) && Same(lost.later, heap[x][i], heap[Held(lost.later, x)][i])
      case FieldStore(b, i, v) =>
        b in sf.vals && v in sf.vals && Sir.IsCell(heap, sf.vals[b], i) ==>
          var x := sf.vals[b].addr;
          && Readable(lost, heap, x, i)
          && (Held(lost.later, x) == x || Same(lost.later, heap[Held(lost.later, x)][i], sf.vals[v]))
      case _ => true
  }

  predicate Quiet(body: seq<Sir.Insn>, e: Event) {
    e.given.None? && e.pc < |body| && !body[e.pc].Construct?
  }

  lemma QuietNext(f: Sir.Function, a: Act, e: Event)
    requires Quiet(f.body, e)
    ensures Cells(f, a.args, Extend(a, e).past) == Cells(f, a.args, a.past)
    ensures Newest(f.body, Extend(a, e).past) == Newest(f.body, a.past)
    ensures Built(f.body, Extend(a, e).past) == Built(f.body, a.past)
  {
    assert Extend(a, e).past[..|a.past|] == a.past;
  }

  lemma GivenNext(f: Sir.Function, a: Act, e: Event)
    requires e.pc < |f.body| && Names(f.body[e.pc]).Some? && e.given.Some?
    ensures Cells(f, a.args, Extend(a, e).past) ==
      Cells(f, a.args, a.past)[LocalVar(f, e.pc + 1, Names(f.body[e.pc]).value) := e.given.value]
    ensures Newest(f.body, Extend(a, e).past) == Newest(f.body, a.past)
    ensures Built(f.body, Extend(a, e).past) == Built(f.body, a.past)
  {
    assert Extend(a, e).past[..|a.past|] == a.past;
  }

  lemma BuiltNext(f: Sir.Function, a: Act, e: Event, x: nat)
    requires e.pc < |f.body| && f.body[e.pc].Construct? && e.given == Some(Sir.Ref(x))
    ensures Cells(f, a.args, Extend(a, e).past) == Cells(f, a.args, a.past)
    ensures Newest(f.body, Extend(a, e).past) == Newest(f.body, a.past)[e.pc := x]
    ensures Built(f.body, Extend(a, e).past) == Built(f.body, a.past) + {x}
  {
    var past := Extend(a, e).past;
    assert past[..|a.past|] == a.past;
    assert past[|a.past|] == e && forall k :: 0 <= k < |a.past| ==> past[k] == a.past[k];
    assert e in past && forall b :: b in a.past ==> b in past;
  }

  // --- Values --------------------------------------------------------------

  lemma ReadVal(e: Ctx, w: Where, vals: map<Sir.ValueId, Val>, cvals: map<Value, Val>, v: Sir.ValueId)
    requires MatchVals(e, w, vals, cvals) && v in vals
    ensures ValueOf(e, v) in cvals && Stands(w, vals[v], cvals[ValueOf(e, v)])
  {
  }

  lemma WriteVal(e: Ctx, w: Where, vals: map<Sir.ValueId, Val>, cvals: map<Value, Val>, v: Sir.ValueId, x: Val, y: Val)
    requires MatchVals(e, w, vals, cvals) && Numbered(e) && v in e.values
    ensures MatchVals(e, w, vals[v := x], cvals[ValueOf(e, v) := y]) <==> Stands(w, x, y)
  {
    if !Stands(w, x, y) {
      assert v in vals[v := x];
    }
  }

  lemma ValsGrow(e: Ctx, w: Where, w': Where, vals: map<Sir.ValueId, Val>, cvals: map<Value, Val>)
    requires MatchVals(e, w, vals, cvals) && w <= w'
    ensures MatchVals(e, w', vals, cvals)
  {
  }

  lemma VarsGrow(w: Where, w': Where, cells: map<Variable, Val>, vars: map<Variable, Val>)
    requires MatchVars(w, cells, vars) && w <= w'
    ensures MatchVars(w', cells, vars)
  {
  }

  lemma SlotsKept(body: seq<Sir.Insn>, newest: map<nat, nat>, built: set<nat>, w: Where, w': Where,
                  slots: map<nat, nat>)
    requires MatchSlots(body, newest, built, w, slots) && w <= w'
    ensures MatchSlots(body, newest, built, w', slots)
  {
    hide SlotOf;
  }

  /** Blocks keep their number of cells. */
  ghost predicate SameSizes(heap: Heap, heap': Heap) {
    |heap| <= |heap'| && forall x :: 0 <= x < |heap| ==> |heap'[x]| == |heap[x]|
  }

  /** A frame stays matched while aggregates are built elsewhere. */
  lemma StateGrows(e: Ctx, f: Sir.Function, a: Act, sf: Sir.Frame, cf: Frame, w: Where, w': Where, heap: Heap,
                   heap': Heap)
    requires MatchState(e, f, a, sf, cf, w, heap) && w <= w' && SameSizes(heap, heap')
    ensures MatchState(e, f, a, sf, cf, w', heap')
  {
    hide MatchVals, MatchVars, MatchSlots, Cells, SlotsAt, Newest, Built;
    ValsGrow(e, w, w', sf.vals, cf.vals);
    VarsGrow(w, w', Cells(f, a.args, a.past), cf.vars);
    SlotsKept(f.body, Newest(f.body, a.past), Built(f.body, a.past), w, w', cf.slots);
  }

  lemma FinalFacts(known: set<Sir.Symbol>, f: Sir.Function)
    requires Simulable(known, f)
    ensures KeysAre(f, |f.body|, Final(known, f)) && Numbered(Final(known, f))
  {
    AllNumbered(known, f, |f.body|);
    hide Numbered, KeysAre, Ready, TranslateInsn;
    TranslatesExactly(known, f, |f.body|);
  }

  lemma DstKnown(known: set<Sir.Symbol>, f: Sir.Function, i: nat)
    requires i < |f.body| && Simulable(known, f)
    ensures Numbered(Final(known, f))
    ensures Sir.Defines(f.body[i]).Some? ==> Sir.Defines(f.body[i]).value in Final(known, f).values
  {
    FinalFacts(known, f);
    hide Final, Numbered, Simulable, Mentioned;
    if Sir.Defines(f.body[i]).Some? {
      assert Sir.Defined(f.body, |f.body|, Sir.Defines(f.body[i]).value);
    }
  }

  // --- Executing code in place ---------------------------------------------

  predicate Ordinary(x: Inst) {
    !IsTerminator(x) && !x.CallFn? && !x.CallExit?
  }

  function Advance(f: Frame): Frame {
    f.(index := f.index + 1)
  }

  /** A piece of code that stays in its block. */
  function Execute(ops: Sir.Ops, sizes: seq<nat>, dead: set<nat>, code: seq<Inst>, f: Frame,
                   heap: Heap): Option<(Frame, Heap)> {
    if code == [] then Some((f, heap))
    else
      match Plain(ops, sizes, dead, code[0], f, heap)
      case None => None
      case Some((g, h)) => Execute(ops, sizes, dead, code[1..], Advance(g), h)
  }

  lemma ExecuteOne(ops: Sir.Ops, sizes: seq<nat>, dead: set<nat>, x: Inst, f: Frame, heap: Heap)
    ensures Execute(ops, sizes, dead, [x], f, heap) ==
      match Plain(ops, sizes, dead, x, f, heap) case None => None case Some((g, h)) => Some((Advance(g), h))
  {
    hide Plain;
    assert [x][1..] == [];
  }

  lemma {:induction false} ExecuteThen(ops: Sir.Ops, sizes: seq<nat>, dead: set<nat>, c: seq<Inst>, d: seq<Inst>,
                                       f: Frame, heap: Heap)
    ensures Execute(ops, sizes, dead, c + d, f, heap) ==
      match Execute(ops, sizes, dead, c, f, heap) case None => None case Some((g, h)) => Execute(ops, sizes, dead, d,
        g, h)
    decreases |c|
  {
    hide Plain;
    if c == [] {
      assert c + d == d;
    } else {
      assert (c + d)[0] == c[0] && (c + d)[1..] == c[1..] + d;
      match Plain(ops, sizes, dead, c[0], f, heap)
      case None =>
      case Some((g, h)) => ExecuteThen(ops, sizes, dead, c[1..], d, Advance(g), h);
    }
  }

  lemma PlainSizes(ops: Sir.Ops, sizes: seq<nat>, dead: set<nat>, x: Inst, f: Frame, heap: Heap)
    ensures var out := Plain(ops, sizes, dead, x, f, heap); out.Some? ==> SameSizes(heap, out.value.1)
  {
  }

  lemma {:induction false} ExecuteSizes(ops: Sir.Ops, sizes: seq<nat>, dead: set<nat>, code: seq<Inst>, f: Frame,
                                        heap: Heap)
    ensures var out := Execute(ops, sizes, dead, code, f, heap); out.Some? ==> SameSizes(heap, out.value.1)
    decreases |code|
  {
    hide Plain;
    if code != [] {
      PlainSizes(ops, sizes, dead, code[0], f, heap);
      var out := Plain(ops, sizes, dead, code[0], f, heap);
      if out.Some? {
        ExecuteSizes(ops, sizes, dead, code[1..], Advance(out.value.0), out.value.1);
      }
    }
  }

  // --- Both sides of an instruction ----------------------------------------

  /** An activation of the source with its history, and the frame that executes its blocks. */
  datatype Both = Both(a: Act, sf: Sir.Frame, heap: Heap, lost: Lost, cf: Frame, cheap: Heap, dead: set<nat>, w: Where)

  ghost predicate Matched(e: Ctx, f: Sir.Function, b: Both) {
    MatchState(e, f, b.a, b.sf, b.cf, b.w, b.cheap) && Mirrored(b.lost, b.w, b.heap, b.cheap, b.dead)
  }

  /** Matched, and the instruction does not fault. */
  ghost predicate Paired(known: set<Sir.Symbol>, f: Sir.Function, ops: Sir.Ops, b: Both) {
    && b.sf.pc < |f.body| && Simulable(known, f) && Sir.Blind(ops) && Matched(Final(known, f), f, b)
    && Sir.Straight(ops, f.params, f.body[b.sf.pc], b.sf, b.heap).Some?
  }

  /** Where an aggregate that is built next goes: into the block of its slot, or a new one for it. */
  function Next(f: Sir.Function, b: Both): nat
    requires b.sf.pc < |f.body|
  {
    var slot := SlotOf(f.body, b.sf.pc);
    if slot in b.cf.slots then b.cf.slots[slot] else |b.cheap|
  }

  function Placing(f: Sir.Function, b: Both): Where
    requires b.sf.pc < |f.body|
  {
    if f.body[b.sf.pc].Construct? then b.w + [Next(f, b)] else b.w
  }

  function Losing(f: Sir.Function, a: Act, pc: nat, heap: Heap, lost: Lost): Lost
    requires pc < |f.body|
  {
    if f.body[pc].Construct? then Rebuilt(lost, f.body, a, pc, |heap|) else lost
  }

  ghost function Effect(known: set<Sir.Symbol>, f: Sir.Function, ops: Sir.Ops, b: Both): Option<(Frame, Heap)>
    requires b.sf.pc < |f.body|
  {
    Execute(ops, SlotsAt(f.body, |f.body|), b.dead, CodeAt(known, f, b.sf.pc), b.cf, b.cheap)
  }

  /** Both sides after the instruction, if the blocks have got to `out`. */
  ghost function Then(f: Sir.Function, ops: Sir.Ops, b: Both, out: (Frame, Heap)): Both
    requires b.sf.pc < |f.body| && Sir.Straight(ops, f.params, f.body[b.sf.pc], b.sf, b.heap).Some?
  {
    var (sf, heap) := Sir.Straight(ops, f.params, f.body[b.sf.pc], b.sf, b.heap).value;
    Both(Extend(b.a, Happened(f.body[b.sf.pc], b.sf, b.heap)), sf, heap, Losing(f, b.a, b.sf.pc, b.heap, b.lost),
      out.0, out.1, b.dead, Placing(f, b))
  }

  /** The code of the instruction does what the instruction does. */
  ghost predicate Follows(known: set<Sir.Symbol>, f: Sir.Function, ops: Sir.Ops, b: Both)
    requires b.sf.pc < |f.body| && Sir.Straight(ops, f.params, f.body[b.sf.pc], b.sf, b.heap).Some?
  {
    var out := Effect(known, f, ops, b);
    out.Some? && Matched(Final(known, f), f, Then(f, ops, b, out.value))
  }

  ghost predicate SoundNext(f: Sir.Function, ops: Sir.Ops, b: Both) {
    Sound(ops, f, b.a, b.sf, b.heap, b.lost)
  }

  predicate StraightLine(i: Sir.Insn) {
    !IsControl(i) && !i.Call? && !i.Other? && !i.ArrayPush?
  }

  lemma PairedParts(known: set<Sir.Symbol>, f: Sir.Function, ops: Sir.Ops, b: Both)
    requires Paired(known, f, ops, b)
    ensures b.sf.pc < |f.body| && Simulable(known, f) && Sir.Blind(ops)
    ensures MatchState(Final(known, f), f, b.a, b.sf, b.cf, b.w, b.cheap)
    ensures MatchVals(Final(known, f), b.w, b.sf.vals, b.cf.vals)
    ensures MatchVars(b.w, Cells(f, b.a.args, b.a.past), b.cf.vars)
    ensures Sized(SlotsAt(f.body, |f.body|), b.cf.slots, b.cheap)
    ensures Mirrored(b.lost, b.w, b.heap, b.cheap, b.dead) && Housed(b.lost.later, b.w, |b.cheap|)
    ensures Sir.Straight(ops, f.params, f.body[b.sf.pc], b.sf, b.heap).Some?
  {
    hide Sir.Blind, Simulable, Housed, MatchVals, MatchVars, Sir.Straight;
  }

  // --- Computing, loading and storing --------------------------------------

  /** An instruction that puts `y` where the source puts `x`, and does nothing else. */
  lemma WriteDst(known: set<Sir.Symbol>, f: Sir.Function, ops: Sir.Ops, b: Both, x: Val, y: Val)
    requires Paired(known, f, ops, b) && Sir.Defines(f.body[b.sf.pc]).Some?
    requires var i, ev := f.body[b.sf.pc], Happened(f.body[b.sf.pc], b.sf, b.heap);
      var dst := Sir.Defines(i).value;
      && Quiet(f.body, ev) && Sir.Straight(ops, f.params, i, b.sf, b.heap).value == (Sir.SetVal(b.sf, dst, x), b.heap)
      && Effect(known, f, ops, b) == Some((Advance(SetVal(b.cf, ValueOf(Final(known, f), dst), y)), b.cheap))
    ensures Follows(known, f, ops, b) <==> Stands(b.w, x, y)
  {
    hide Sir.Blind, Simulable, Final, MatchVals, MatchVars, MatchSlots, Numbered, Cells, Newest, Built, SlotsAt;
    hide Mirrored, Sir.Straight, Effect, Rebuilt;
    var ev, dst := Happened(f.body[b.sf.pc], b.sf, b.heap), Sir.Defines(f.body[b.sf.pc]).value;
    QuietNext(f, b.a, ev);
    DstKnown(known, f, b.sf.pc);
    WriteVal(Final(known, f), b.w, b.sf.vals, b.cf.vals, dst, x, y);
    assert Then(f, ops, b, Effect(known, f, ops, b).value) == b.(a := Extend(b.a, ev), sf := Sir.SetVal(b.sf, dst, x),
      cf := Advance(SetVal(b.cf, ValueOf(Final(known, f), dst), y)));
  }

  /** The result of a call is written on both sides. */
  lemma WriteResult(known: set<Sir.Symbol>, f: Sir.Function, a: Act, sf: Sir.Frame, cf: Frame, w: Where, heap: Heap,
                    x: Val, y: Val)
    requires Simulable(known, f) && MatchState(Final(known, f), f, a, sf, cf, w, heap) && Stands(w, x, y)
    requires sf.pc < |f.body| && f.body[sf.pc].Call?
    ensures var dst := f.body[sf.pc].dst;
      MatchState(Final(known, f), f, Extend(a, Event(sf.pc, None)), Sir.SetVal(sf, dst, x),
        Advance(SetVal(cf, ValueOf(Final(known, f), dst), y)), w, heap)
  {
    hide Simulable, Final, MatchVals, MatchVars, MatchSlots, Numbered, Cells, Newest, Built, SlotsAt, Stands;
    QuietNext(f, a, Event(sf.pc, None));
    DstKnown(known, f, sf.pc);
    WriteVal(Final(known, f), w, sf.vals, cf.vals, f.body[sf.pc].dst, x, y);
  }

  /** A constant is followed always, an operator if and only if it does the same with the aggregates
      found today. */
  lemma ComputeSim(known: set<Sir.Symbol>, f: Sir.Function, ops: Sir.Ops, b: Both)
    requires Paired(known, f, ops, b) && (f.body[b.sf.pc].Const? || f.body[b.sf.pc].BinOp? || f.body[b.sf.pc].UnOp?)
    ensures Follows(known, f, ops, b) <==> SoundNext(f, ops, b)
  {
    hide Paired, Simulable, Final, At, MatchState, MatchVals, MatchVars, Mirrored, Housed, Cells, SlotsAt, Advance;
    hide Execute;
    hide Sir.Blind, Stands, Follows, Today;
    PairedParts(known, f, ops, b);
    var e, i, sf, cf := Final(known, f), f.body[b.sf.pc], b.sf, b.cf;
    ExecuteOne(ops, SlotsAt(f.body, |f.body|), b.dead, CodeAt(known, f, sf.pc)[0], cf, b.cheap);
    match i {
      case Const(dst, c) =>
        PrimStands(b.w, c);
        WriteDst(known, f, ops, b, Sir.Prim(c), Sir.Prim(c));
      case BinOp(dst, op, l, r) =>
        ReadVal(e, b.w, sf.vals, cf.vals, l);
        ReadVal(e, b.w, sf.vals, cf.vals, r);
        var x, y, u, v := sf.vals[l], sf.vals[r], cf.vals[ValueOf(e, l)], cf.vals[ValueOf(e, r)];
        BlindToday(ops, b.lost.later, b.w, |b.cheap|, op, x, u, y, v);
        BlindResult(ops, b.w, op, x, y, u, v);
        WriteDst(known, f, ops, b, ops.bin(op, x, y), ops.bin(op, u, v));
      case UnOp(dst, op, r) =>
        ReadVal(e, b.w, sf.vals, cf.vals, r);
        var y, v := sf.vals[r], cf.vals[ValueOf(e, r)];
        BlindToday(ops, b.lost.later, b.w, |b.cheap|, op, y, v, y, v);
        BlindResult(ops, b.w, op, y, y, v, v);
        WriteDst(known, f, ops, b, ops.un(op, y), ops.un(op, v));
    }
  }

  lemma PrimStands(w: Where, c: int)
    ensures Stands(w, Sir.Prim(c), Sir.Prim(c))
  {
  }

  /** A load gives the source's value if and only if the variable was last given the same. */
  lemma LoadSim(known: set<Sir.Symbol>, f: Sir.Function, ops: Sir.Ops, b: Both)
    requires Paired(known, f, ops, b) && f.body[b.sf.pc].Load?
    ensures Follows(known, f, ops, b) <==> SoundNext(f, ops, b)
  {
    hide Paired, Simulable, Final, At, MatchState, MatchVals, Mirrored, Housed, Cells, SlotsAt, Advance, Execute;
    hide Sir.Blind, Stands, Same, SourceVar;
    PairedParts(known, f, ops, b);
    var i, sf, later := f.body[b.sf.pc], b.sf, b.lost.later;
    var x, cells := SourceVar(f, sf.pc, i.src), Cells(f, b.a.args, b.a.past);
    var v := sf.locals[Sir.SourceName(f.params, i.src).value];
    ExecuteOne(ops, SlotsAt(f.body, |f.body|), b.dead, CodeAt(known, f, sf.pc)[0], b.cf, b.cheap);
    if x in cells {
      StandsSame(later, b.w, |b.cheap|, v, cells[x], b.cf.vars[x]);
      hide Follows;
      WriteDst(known, f, ops, b, v, b.cf.vars[x]);
    }
  }

  lemma VarsSet(w: Where, cells: map<Variable, Val>, vars: map<Variable, Val>, x: Variable, v: Val, c: Val)
    requires MatchVars(w, cells, vars) && Stands(w, v, c)
    ensures MatchVars(w, cells[x := v], vars[x := c])
  {
  }

  lemma DefineSim(known: set<Sir.Symbol>, f: Sir.Function, ops: Sir.Ops, b: Both)
    requires Paired(known, f, ops, b) && Names(f.body[b.sf.pc]).Some?
    ensures Follows(known, f, ops, b)
  {
    hide Simulable, Final, At, MatchVals, MatchVars, MatchSlots, Mirrored, Cells, Newest, Built, LocalVar, SlotsAt;
    hide Sir.Blind, Stands, Rebuilt;
    var e, i, ev := Final(known, f), f.body[b.sf.pc], Happened(f.body[b.sf.pc], b.sf, b.heap);
    if i.VarDef? && i.init.None? {
      QuietNext(f, b.a, ev);
    } else {
      var v := if i.Store? then i.value else i.init.value;
      ReadVal(e, b.w, b.sf.vals, b.cf.vals, v);
      GivenNext(f, b.a, ev);
      var x := LocalVar(f, b.sf.pc + 1, i.name);
      VarsSet(b.w, Cells(f, b.a.args, b.a.past), b.cf.vars, x, b.sf.vals[v], b.cf.vals[ValueOf(e, v)]);
      ExecuteOne(ops, SlotsAt(f.body, |f.body|), b.dead, DefVar(x, ValueOf(e, v)), b.cf, b.cheap);
    }
  }

  // --- Fields --------------------------------------------------------------

  /** What the load of a field does. */
  lemma IndexEffect(known: set<Sir.Symbol>, f: Sir.Function, ops: Sir.Ops, b: Both, c: Val)
    requires b.sf.pc < |f.body| && f.body[b.sf.pc].TupleIndex?
    requires var base := ValueOf(Final(known, f), f.body[b.sf.pc].tuple); base in b.cf.vals && b.cf.vals[base] == c
    ensures var i := f.body[b.sf.pc];
      Effect(known, f, ops, b) ==
        if Usable(b.cheap, b.dead, c, i.index) then
          Some((Advance(SetVal(b.cf, ValueOf(Final(known, f), i.dst), b.cheap[c.addr][i.index])), b.cheap))
        else None
  {
    hide Final, At, SlotsAt, Execute, ValueOf;
    ExecuteOne(ops, SlotsAt(f.body, |f.body|), b.dead, CodeAt(known, f, b.sf.pc)[0], b.cf, b.cheap);
  }

  lemma IndexIs(ops: Sir.Ops, f: Sir.Function, sf: Sir.Frame, heap: Heap, later: map<nat, nat>)
    requires sf.pc < |f.body| && f.body[sf.pc].TupleIndex? && Sir.Straight(ops, f.params, f.body[sf.pc], sf, heap).Some?
    ensures var i := f.body[sf.pc];
      && i.tuple in sf.vals && Sir.IsCell(heap, sf.vals[i.tuple], i.index)
      && Sir.Straight(ops, f.params, i, sf, heap).value ==
        (Sir.SetVal(sf, i.dst, heap[sf.vals[i.tuple].addr][i.index]), heap)
      && Quiet(f.body, Happened(i, sf, heap))
  {
  }

  /** A field is read if and only if a cell is found where the aggregate was built, in the slot of an
      activation that has not returned, and it holds the same. */
  lemma IndexSim(known: set<Sir.Symbol>, f: Sir.Function, ops: Sir.Ops, b: Both)
    requires Paired(known, f, ops, b) && f.body[b.sf.pc].TupleIndex?
    ensures Follows(known, f, ops, b) <==> SoundNext(f, ops, b)
  {
    hide Paired, Simulable, Final, MatchState, MatchVals, MatchVars, Mirrored, Housed, Cells, Effect, ValueOf, SlotsAt;
    hide Sir.Blind, Same, Readable, Sir.Straight, Happened, Quiet, Then, Matched, Newest, Built;
    PairedParts(known, f, ops, b);
    IndexIs(ops, f, b.sf, b.heap, b.lost.later);
    var e, i, x := Final(known, f), f.body[b.sf.pc], b.sf.vals[f.body[b.sf.pc].tuple].addr;
    ReadVal(e, b.w, b.sf.vals, b.cf.vals, i.tuple);
    RefStands(b.w, b.sf.vals[i.tuple], b.cf.vals[ValueOf(e, i.tuple)]);
    IndexEffect(known, f, ops, b, Sir.Ref(b.w[x]));
    MirroredHoused(b.lost, b.w, b.heap, b.cheap, b.dead);
    Places.ReadExact(b.lost, b.w, b.heap, b.cheap, b.dead, x, i.index);
    if Readable(b.lost, b.heap, x, i.index) {
      hide Follows, Stands;
      WriteDst(known, f, ops, b, b.heap[x][i.index], b.cheap[b.w[x]][i.index]);
    }
  }

  lemma RefStands(w: Where, v: Val, c: Val)
    requires Stands(w, v, c) && v.Ref?
    ensures v.addr < |w| && c == Sir.Ref(w[v.addr])
  {
  }

  lemma PutEffect(known: set<Sir.Symbol>, f: Sir.Function, ops: Sir.Ops, b: Both, c: Val, v: Val)
    requires b.sf.pc < |f.body| && f.body[b.sf.pc].FieldStore?
    requires var base := ValueOf(Final(known, f), f.body[b.sf.pc].base); base in b.cf.vals && b.cf.vals[base] == c
    requires var w := ValueOf(Final(known, f), f.body[b.sf.pc].value); w in b.cf.vals && b.cf.vals[w] == v
    ensures var i := f.body[b.sf.pc];
      Effect(known, f, ops, b) ==
        if Usable(b.cheap, b.dead, c, i.index) then
          Some((Advance(b.cf), b.cheap[c.addr := b.cheap[c.addr][i.index := v]]))
        else None
  {
    hide Final, At, SlotsAt, Execute, ValueOf;
    ExecuteOne(ops, SlotsAt(f.body, |f.body|), b.dead, CodeAt(known, f, b.sf.pc)[0], b.cf, b.cheap);
  }

  /** The frame is still matched after a field was written. */
  lemma PutState(e: Ctx, f: Sir.Function, a: Act, ev: Event, sf: Sir.Frame, cf: Frame, w: Where, heap: Heap, x: nat,
                 i: nat, v: Val)
    requires MatchState(e, f, a, sf, cf, w, heap) && Quiet(f.body, ev) && x < |heap| && i < |heap[x]|
    ensures MatchState(e, f, Extend(a, ev), sf, Advance(cf), w, heap[x := heap[x][i := v]])
  {
    hide MatchVals, MatchVars, MatchSlots, Cells, Newest, Built, SlotsAt;
    QuietNext(f, a, ev);
  }

  /** A field is written if and only if a cell is found where the aggregate was built, in the slot of an
      activation that has not returned, and it is the aggregate's own or holds the same already. */
  lemma PutSim(known: set<Sir.Symbol>, f: Sir.Function, ops: Sir.Ops, b: Both)
    requires Paired(known, f, ops, b) && f.body[b.sf.pc].FieldStore?
    ensures Follows(known, f, ops, b) <==> SoundNext(f, ops, b)
  {
    hide Paired, Simulable, Final, MatchState, MatchVals, MatchVars, Mirrored, Housed, Cells, Effect, ValueOf, SlotsAt;
    hide Sir.Blind, Same, Readable, Sir.Straight, Quiet, Stands, Advance, Extend, Newest, Built;
    PairedParts(known, f, ops, b);
    PutIs(ops, f, b.sf, b.heap);
    var e, i, x := Final(known, f), f.body[b.sf.pc], b.sf.vals[f.body[b.sf.pc].base].addr;
    ReadVal(e, b.w, b.sf.vals, b.cf.vals, i.base);
    ReadVal(e, b.w, b.sf.vals, b.cf.vals, i.value);
    RefStands(b.w, b.sf.vals[i.base], b.cf.vals[ValueOf(e, i.base)]);
    var v, c := b.sf.vals[i.value], b.cf.vals[ValueOf(e, i.value)];
    PutEffect(known, f, ops, b, Sir.Ref(b.w[x]), c);
    MirroredHoused(b.lost, b.w, b.heap, b.cheap, b.dead);
    Places.ReadExact(b.lost, b.w, b.heap, b.cheap, b.dead, x, i.index);
    if Readable(b.lost, b.heap, x, i.index) {
      WriteExact(b.lost, b.w, b.heap, b.cheap, b.dead, x, i.index, v, c);
      PutQuiet(f.body, b.sf.pc);
      PutState(e, f, b.a, Event(b.sf.pc, None), b.sf, b.cf, b.w, b.cheap, b.w[x], i.index, c);
    }
  }

  lemma PutQuiet(body: seq<Sir.Insn>, i: nat)
    requires i < |body| && body[i].FieldStore?
    ensures Quiet(body, Event(i, None))
  {
  }

  // --- Aggregates ----------------------------------------------------------

  predicate UsesSlot(x: Inst, slot: nat) {
    (x.StackStore? && x.slot == slot) || (x.StackAddr? && x.slot == slot)
  }

  /** The first use of a slot brings it into use. */
  lemma TouchFirst(ops: Sir.Ops, sizes: seq<nat>, dead: set<nat>, code: seq<Inst>, slot: nat, f: Frame, heap: Heap)
    requires code != [] && UsesSlot(code[0], slot) && slot < |sizes|
    ensures var (g, h) := Touch(sizes[slot], slot, f, heap);
      Execute(ops, sizes, dead, code, f, heap) == Execute(ops, sizes, dead, code, g, h)
  {
    var (g, h) := Touch(sizes[slot], slot, f, heap);
    assert Plain(ops, sizes, dead, code[0], f, heap) == Plain(ops, sizes, dead, code[0], g, h);
  }

  /** The values of the fields in the blocks. */
  ghost predicate Holds(e: Ctx, fields: seq<Sir.ValueId>, vs: seq<Val>, cvals: map<Value, Val>) {
    |vs| == |fields| && forall k :: 0 <= k < |fields| ==>
      ValueOf(e, fields[k]) in cvals && cvals[ValueOf(e, fields[k])] == vs[k]
  }

  /** The block with `vs` written from cell `offset` on. */
  function Overlay(block: seq<Val>, offset: nat, vs: seq<Val>): (r: seq<Val>)
    requires offset + |vs| <= |block|
    ensures |r| == |block|
  {
    block[..offset] + vs + block[offset + |vs|..]
  }

  /** Storing the fields one after the other fills consecutive cells of the slot. */
  lemma {:induction false} FieldsRun(ops: Sir.Ops, sizes: seq<nat>, dead: set<nat>, e: Ctx, fields: seq<Sir.ValueId>,
                                     vs: seq<Val>, slot: nat,
                                     offset: nat, f: Frame, heap: Heap)
    requires slot < |sizes| && slot in f.slots && f.slots[slot] < |heap| && Holds(e, fields, vs, f.vals)
    requires offset + |fields| <= |heap[f.slots[slot]]|
    ensures Execute(ops, sizes, dead, FieldCode(e, fields, slot, offset), f, heap) ==
      Some((f.(index := f.index + |fields|), heap[f.slots[slot] := Overlay(heap[f.slots[slot]], offset, vs)]))
    decreases |fields|
  {
    var a := f.slots[slot];
    if fields == [] {
      assert Overlay(heap[a], offset, vs) == heap[a] && heap[a := heap[a]] == heap;
    } else {
      var code := FieldCode(e, fields, slot, offset);
      assert code[1..] == FieldCode(e, fields[1..], slot, offset + 1);
      var heap' := heap[a := heap[a][offset := vs[0]]];
      assert Plain(ops, sizes, dead, code[0], f, heap) == Some((f, heap'));
      FieldsRun(ops, sizes, dead, e, fields[1..], vs[1..], slot, offset + 1, Advance(f), heap');
      var block := Overlay(heap[a], offset, vs);
      assert Overlay(heap'[a], offset + 1, vs[1..]) == block;
      assert heap'[a := block] == heap[a := block];
    }
  }

  lemma FieldCodeUses(e: Ctx, fields: seq<Sir.ValueId>, slot: nat, offset: nat)
    ensures forall k :: 0 <= k < |FieldCode(e, fields, slot, offset)| ==>
      UsesSlot(FieldCode(e, fields, slot, offset)[k], slot)
  {
  }

  lemma LastBlock(heap: Heap, b: seq<Val>, c: seq<Val>)
    ensures (heap + [b])[|heap|] == b && (heap + [b])[|heap| := c] == heap + [c]
  {
  }

  lemma FieldCodeLength(e: Ctx, fields: seq<Sir.ValueId>, slot: nat, offset: nat)
    ensures |FieldCode(e, fields, slot, offset)| == |fields|
  {
  }

  lemma FillRest(ops: Sir.Ops, sizes: seq<nat>, dead: set<nat>, e: Ctx, fields: seq<Sir.ValueId>, vs: seq<Val>,
                 slot: nat, offset: nat,
                 dst: Value, f: Frame, heap: Heap)
    requires slot < |sizes| && slot in f.slots && f.slots[slot] < |heap| && Holds(e, fields, vs, f.vals)
    requires offset + |fields| <= |heap[f.slots[slot]]|
    ensures var a := f.slots[slot];
      Execute(ops, sizes, dead, FieldCode(e, fields, slot, offset) + [StackAddr(dst, slot)], f, heap) ==
        Some((f.(index := f.index + |fields| + 1, vals := f.vals[dst := Sir.Ref(a)]),
          heap[a := Overlay(heap[a], offset, vs)]))
  {
    var stores := FieldCode(e, fields, slot, offset);
    FieldsRun(ops, sizes, dead, e, fields, vs, slot, offset, f, heap);
    ExecuteThen(ops, sizes, dead, stores, [StackAddr(dst, slot)], f, heap);
    var h := heap[f.slots[slot] := Overlay(heap[f.slots[slot]], offset, vs)];
    ExecuteOne(ops, sizes, dead, StackAddr(dst, slot), f.(index := f.index + |fields|), h);
  }

  /** What stands in the code of an aggregate once its variant number has been computed. */
  function FillCode(e: Ctx, temp: Value, tag: Option<int>, fields: seq<Sir.ValueId>, dst: Value, slot: nat): seq<Inst> {
    (if tag.Some? then [StackStore(temp, slot, 0)] else []) +
    (FieldCode(e, fields, slot, if tag.Some? then 1 else 0) + [StackAddr(dst, slot)])
  }

  /** Filling a slot in use overwrites its block with the aggregate's cells. */
  lemma FillUsed(ops: Sir.Ops, sizes: seq<nat>, dead: set<nat>, e: Ctx, temp: Value, tag: Option<int>,
                 fields: seq<Sir.ValueId>, vs: seq<Val>, dst: Value, slot: nat, f: Frame, heap: Heap)
    requires slot < |sizes| && slot in f.slots && f.slots[slot] < |heap| && Holds(e, fields, vs, f.vals)
    requires |heap[f.slots[slot]]| == CellCount(tag, fields)
    requires tag.Some? ==> temp in f.vals && f.vals[temp] == Sir.Prim(tag.value)
    ensures var code, b := FillCode(e, temp, tag, fields, dst, slot), f.slots[slot];
      Execute(ops, sizes, dead, code, f, heap) ==
        Some((f.(index := f.index + |code|, vals := f.vals[dst := Sir.Ref(b)]), heap[b := Sir.Block(tag, vs)]))
  {
    hide Execute, Overlay, FieldCode, Sir.Block;
    var b, first := f.slots[slot], if tag.Some? then 1 else 0;
    FieldCodeLength(e, fields, slot, first);
    OverlaysBlock(tag, vs, heap[b]);
    var rest := FieldCode(e, fields, slot, first) + [StackAddr(dst, slot)];
    if tag.None? {
      assert FillCode(e, temp, tag, fields, dst, slot) == rest;
      FillRest(ops, sizes, dead, e, fields, vs, slot, 0, dst, f, heap);
    } else {
      var store, tagged := StackStore(temp, slot, 0), heap[b := heap[b][0 := Sir.Prim(tag.value)]];
      ExecuteOne(ops, sizes, dead, store, f, heap);
      ExecuteThen(ops, sizes, dead, [store], rest, f, heap);
      FillRest(ops, sizes, dead, e, fields, vs, slot, 1, dst, Advance(f), tagged);
      assert tagged[b := Sir.Block(tag, vs)] == heap[b := Sir.Block(tag, vs)];
    }
  }

  lemma OverlaysBlock(tag: Option<int>, vs: seq<Val>, block: seq<Val>)
    requires |block| == |vs| + if tag.Some? then 1 else 0
    ensures tag.None? ==> Overlay(block, 0, vs) == Sir.Block(tag, vs)
    ensures tag.Some? ==> Overlay(block[0 := Sir.Prim(tag.value)], 1, vs) == Sir.Block(tag, vs)
  {
  }

  ghost predicate Away(e: Ctx, fields: seq<Sir.ValueId>, temp: Value) {
    forall k :: 0 <= k < |fields| ==> ValueOf(e, fields[k]) != temp
  }

  /** An aggregate goes into the block of its slot, or into a new one if the slot is not in use yet. */
  lemma FillSlot(ops: Sir.Ops, sizes: seq<nat>, dead: set<nat>, e: Ctx, temp: Value, tag: Option<int>,
                 fields: seq<Sir.ValueId>, vs: seq<Val>, dst: Value, slot: nat, f: Frame, heap: Heap)
    requires slot < |sizes| && sizes[slot] == CellCount(tag, fields) && Sized(sizes, f.slots, heap)
    requires Holds(e, fields, vs, f.vals)
    requires tag.Some? ==> Away(e, fields, temp)
    ensures var code := AggregateCode(e, temp, tag, fields, dst, slot);
      var vals := if tag.Some? then f.vals[temp := Sir.Prim(tag.value)] else f.vals;
      var b := if slot in f.slots then f.slots[slot] else |heap|;
      Execute(ops, sizes, dead, code, f, heap) ==
        Some((f.(index := f.index + |code|, vals := vals[dst := Sir.Ref(b)], slots := f.slots[slot := b]),
          if slot in f.slots then heap[b := Sir.Block(tag, vs)] else heap + [Sir.Block(tag, vs)]))
  {
    hide Execute, FieldCode, Sir.Block;
    var part := FillCode(e, temp, tag, fields, dst, slot);
    var code := AggregateCode(e, temp, tag, fields, dst, slot);
    var g := if tag.Some? then Advance(SetVal(f, temp, Sir.Prim(tag.value))) else f;
    if tag.Some? {
      var i := IConst(temp, tag.value);
      assert code == [i] + part;
      ExecuteOne(ops, sizes, dead, i, f, heap);
      ExecuteThen(ops, sizes, dead, [i], part, f, heap);
    } else {
      assert code == part;
    }
    FieldCodeUses(e, fields, slot, if tag.Some? then 1 else 0);
    TouchFirst(ops, sizes, dead, part, slot, g, heap);
    var (t, h) := Touch(sizes[slot], slot, g, heap);
    FillUsed(ops, sizes, dead, e, temp, tag, fields, vs, dst, slot, t, h);
    if slot in f.slots {
      assert f.slots[slot := f.slots[slot]] == f.slots;
    } else {
      LastBlock(heap, seq(sizes[slot], _ => Sir.Unit), Sir.Block(tag, vs));
    }
  }

  lemma SlotSize(known: set<Sir.Symbol>, f: Sir.Function, i: nat)
    requires i < |f.body| && Simulable(known, f) && f.body[i].Construct?
    ensures var sizes := SlotsAt(f.body, |f.body|);
      SlotOf(f.body, i) < |sizes| && sizes[SlotOf(f.body, i)] == CellCount(f.body[i].tag, f.body[i].fields)
  {
    SlotsGrow(f.body, i, |f.body|);
  }

  /** The values of the fields on both sides; the variable of the variant number is none of them. */
  lemma FieldsHold(e: Ctx, w: Where, sf: Sir.Frame, cf: Frame, fields: seq<Sir.ValueId>, vs: seq<Val>)
    returns (cs: seq<Val>)
    requires MatchVals(e, w, sf.vals, cf.vals) && Sir.Operands(sf.vals, fields) == Some(vs)
    ensures Holds(e, fields, cs, cf.vals) && AllStand(w, vs, cs)
    ensures forall k :: 0 <= k < |fields| ==> fields[k] in e.values
  {
    hide MatchVals, ValueOf, Stands;
    forall k | 0 <= k < |fields|
      ensures fields[k] in e.values && ValueOf(e, fields[k]) in cf.vals
      ensures Stands(w, vs[k], cf.vals[ValueOf(e, fields[k])])
    {
      assert fields[k] in sf.vals;
      ReadVal(e, w, sf.vals, cf.vals, fields[k]);
      Known(e, w, sf.vals, cf.vals, fields[k]);
    }
    cs := seq(|fields|, k requires 0 <= k < |fields| => cf.vals[ValueOf(e, fields[k])]);
  }

  lemma Known(e: Ctx, w: Where, vals: map<Sir.ValueId, Val>, cvals: map<Value, Val>, v: Sir.ValueId)
    requires MatchVals(e, w, vals, cvals) && v in vals
    ensures v in e.values
  {
  }

  lemma PassThrough(e: Ctx, w: Where, vals: map<Sir.ValueId, Val>, cvals: map<Value, Val>, temp: Value, x: Val)
    requires MatchVals(e, w, vals, cvals) && forall v :: v in e.values ==> e.values[v] != temp
    ensures MatchVals(e, w, vals, cvals[temp := x])
  {
  }

  lemma BlocksStand(w: Where, tag: Option<int>, vs: seq<Val>, cs: seq<Val>)
    requires AllStand(w, vs, cs)
    ensures AllStand(w, Sir.Block(tag, vs), Sir.Block(tag, cs))
  {
  }

  /** The slots after aggregate `x` was built at `i`, in its slot's block or a new one. */
  lemma SlotsNext(body: seq<Sir.Insn>, newest: map<nat, nat>, built: set<nat>, w: Where, slots: map<nat, nat>, i: nat,
                  b: nat)
    requires MatchSlots(body, newest, built, w, slots) && i < |body| && body[i].Construct?
    requires var k := SlotOf(body, i); k in slots ==> b == slots[k]
    ensures MatchSlots(body, newest[i := |w|], built + {|w|}, w + [b], slots[SlotOf(body, i) := b])
  {
    hide SlotOf;
    var k, w' := SlotOf(body, i), w + [b];
    var newest', slots' := newest[i := |w|], slots[k := b];
    forall j | j in newest'
      ensures j < |body| && body[j].Construct? && newest'[j] < |w'|
      ensures SlotOf(body, j) in slots' && slots'[SlotOf(body, j)] == w'[newest'[j]]
    {
      if j != i && SlotOf(body, j) == k {
        SlotsDiffer(body, j, i);
      }
    }
    forall l | l in slots' ensures exists j :: j in newest' && j <= |body| && SlotOf(body, j) == l {
      if l == k {
        assert i in newest' && SlotOf(body, i) == k;
      } else {
        var j :| j in newest && j <= |body| && SlotOf(body, j) == l;
        assert j in newest';
      }
    }
    ValuesKept(slots, k, b);
  }

  lemma ValuesKept(slots: map<nat, nat>, k: nat, b: nat)
    requires k in slots ==> b == slots[k]
    ensures slots[k := b].Values == slots.Values + {b}
  {
    var m := slots[k := b];
    forall y ensures y in m.Values <==> y in slots.Values + {b} {
      if y in slots.Values {
        var j :| j in slots && slots[j] == y;
        assert m[j] == y;
      }
      assert m[k] == b;
    }
  }

  /** The slot of an instruction is in use exactly if it has built an aggregate, the last of which is
      there. */
  lemma SlotInUse(body: seq<Sir.Insn>, newest: map<nat, nat>, built: set<nat>, w: Where, slots: map<nat, nat>, i: nat)
    requires MatchSlots(body, newest, built, w, slots) && i < |body| && body[i].Construct?
    ensures
      && (i in newest <==> SlotOf(body, i) in slots)
      && (i in newest ==> newest[i] < |w| && w[newest[i]] == slots[SlotOf(body, i)])
  {
    hide SlotOf;
    if SlotOf(body, i) in slots {
      var j :| j in newest && j <= |body| && SlotOf(body, j) == SlotOf(body, i);
      SlotsDiffer(body, i, j);
    }
  }

  /** What building an aggregate makes of the blocks. */
  lemma Builds(f: Sir.Function, b: Both, vs: seq<Val>, cs: seq<Val>)
    requires b.sf.pc < |f.body| && f.body[b.sf.pc].Construct?
    requires MatchSlots(f.body, Newest(f.body, b.a.past), Built(f.body, b.a.past), b.w, b.cf.slots)
    requires Mirrored(b.lost, b.w, b.heap, b.cheap, b.dead) && AllStand(b.w, vs, cs)
    requires Sized(SlotsAt(f.body, |f.body|), b.cf.slots, b.cheap)
    ensures var slot := SlotOf(f.body, b.sf.pc);
      var cheap := if slot in b.cf.slots then b.cheap[b.cf.slots[slot] := cs] else b.cheap + [cs];
      Mirrored(Losing(f, b.a, b.sf.pc, b.heap, b.lost), Placing(f, b), b.heap + [vs], cheap, b.dead)
  {
    hide MatchSlots, Mirrored, AllStand, Newest, Built, Replaced, SlotOf, SlotsAt;
    SlotInUse(f.body, Newest(f.body, b.a.past), Built(f.body, b.a.past), b.w, b.cf.slots, b.sf.pc);
    var newest := Newest(f.body, b.a.past);
    if b.sf.pc in newest {
      BuildsAgain(b.lost, b.w, b.heap, b.cheap, b.dead, newest[b.sf.pc], vs, cs);
    } else {
      BuildsNew(b.lost, b.w, b.heap, b.cheap, b.dead, vs, cs);
    }
  }

  lemma SizedNext(sizes: seq<nat>, slots: map<nat, nat>, heap: Heap, slot: nat, block: seq<Val>)
    requires Sized(sizes, slots, heap) && slot < |sizes| && |block| == sizes[slot]
    ensures var b := if slot in slots then slots[slot] else |heap|;
      Sized(sizes, slots[slot := b], if slot in slots then heap[b := block] else heap + [block])
  {
  }

  lemma TempApart(e: Ctx, fields: seq<Sir.ValueId>, temp: Value)
    requires forall v :: v in e.values ==> e.values[v] != temp
    requires forall k :: 0 <= k < |fields| ==> fields[k] in e.values
    ensures Away(e, fields, temp)
  {
  }

  lemma AggregateUses(e: Ctx, temp: Value, tag: Option<int>, fields: seq<Sir.ValueId>, dst: Value, slot: nat)
    ensures var code := AggregateCode(e, temp, tag, fields, dst, slot);
      forall k :: 0 <= k < |code| ==> UsesSlot(code[k], slot) || code[k].IConst?
  {
    FieldCodeUses(e, fields, slot, if tag.Some? then 1 else 0);
  }

  /** The values once the variant number has been computed. */
  ghost function Tagged(known: set<Sir.Symbol>, f: Sir.Function, b: Both): map<Value, Val>
    requires b.sf.pc < |f.body| && f.body[b.sf.pc].Construct?
  {
    var tag := f.body[b.sf.pc].tag;
    if tag.Some? then b.cf.vals[At(known, f, b.sf.pc).nextValue := Sir.Prim(tag.value)] else b.cf.vals
  }

  /** Frame and heap of the blocks once an aggregate of cells `cs` has been built. */
  ghost function Filling(known: set<Sir.Symbol>, f: Sir.Function, b: Both, cs: seq<Val>): (Frame, Heap)
    requires b.sf.pc < |f.body| && f.body[b.sf.pc].Construct?
  {
    var slot, x := SlotOf(f.body, b.sf.pc), Next(f, b);
    (b.cf.(index := b.cf.index + |CodeAt(known, f, b.sf.pc)|,
      vals := Tagged(known, f, b)[ValueOf(Final(known, f), f.body[b.sf.pc].dst) := Sir.Ref(x)],
      slots := b.cf.slots[slot := x]),
    if slot in b.cf.slots && x < |b.cheap| then b.cheap[x := cs] else b.cheap + [cs])
  }

  /** What the code of an aggregate does. */
  lemma ConstructEffect(known: set<Sir.Symbol>, f: Sir.Function, ops: Sir.Ops, b: Both, vs: seq<Val>)
    returns (cs: seq<Val>)
    requires Paired(known, f, ops, b) && f.body[b.sf.pc].Construct?
    requires Sir.Operands(b.sf.vals, f.body[b.sf.pc].fields) == Some(vs)
    ensures MatchVals(Final(known, f), b.w, b.sf.vals, Tagged(known, f, b)) && AllStand(b.w, vs, cs)
    ensures Effect(known, f, ops, b) == Some(Filling(known, f, b, Sir.Block(f.body[b.sf.pc].tag, cs)))
  {
    hide Paired, Sir.Blind, Simulable, Final, At, MatchVals, MatchVars, MatchSlots, Mirrored, Housed, Cells, Built;
    hide Newest;
    hide Execute, SlotsAt, AggregateCode, Sized, AllStand, SlotOf, Holds, Sir.Block, Sir.Operands, ValueOf, Away;
    hide CodeAt, Sir.Straight, MatchState;
    PairedParts(known, f, ops, b);
    AggregateAt(known, f, b.sf.pc);
    var e, i := Final(known, f), f.body[b.sf.pc];
    var sizes, slot, temp := SlotsAt(f.body, |f.body|), SlotOf(f.body, b.sf.pc), At(known, f, b.sf.pc).nextValue;
    SlotSize(known, f, b.sf.pc);
    cs := FieldsHold(e, b.w, b.sf, b.cf, i.fields, vs);
    if i.tag.Some? {
      TempFresh(known, f, b.sf.pc);
      PassThrough(e, b.w, b.sf.vals, b.cf.vals, temp, Sir.Prim(i.tag.value));
      TempApart(e, i.fields, temp);
    }
    FillSlot(ops, sizes, b.dead, e, temp, i.tag, i.fields, cs, ValueOf(e, i.dst), slot, b.cf, b.cheap);
    SizedAt(sizes, b.cf.slots, b.cheap, slot);
  }

  lemma AggregateAt(known: set<Sir.Symbol>, f: Sir.Function, i: nat)
    requires i < |f.body| && f.body[i].Construct?
    ensures CodeAt(known, f, i) == AggregateCode(Final(known, f), At(known, f, i).nextValue, f.body[i].tag,
      f.body[i].fields, ValueOf(Final(known, f), f.body[i].dst), SlotOf(f.body, i))
  {
    hide AggregateCode, Final, At;
  }

  lemma SizedAt(sizes: seq<nat>, slots: map<nat, nat>, heap: Heap, slot: nat)
    requires Sized(sizes, slots, heap)
    ensures slot in slots ==> slots[slot] < |heap|
  {
  }

  /** An aggregate is always built: in a new block the first time its instruction runs in the
      activation, in the place of the one before after that. */
  lemma ConstructSim(known: set<Sir.Symbol>, f: Sir.Function, ops: Sir.Ops, b: Both)
    requires Paired(known, f, ops, b) && f.body[b.sf.pc].Construct?
    ensures Follows(known, f, ops, b)
  {
    PairedParts(known, f, ops, b);
    BuildIs(ops, f, b.sf, b.heap);
    var i, vs := f.body[b.sf.pc], Sir.Operands(b.sf.vals, f.body[b.sf.pc].fields).value;
    var cs := ConstructEffect(known, f, ops, b, vs);
    hide Paired, Sir.Blind, Simulable, Final, At, MatchVals, MatchVars, MatchSlots, Mirrored, Housed, Cells, Built;
    hide Newest;
    hide SlotsAt, Sized, AllStand, SlotOf, Sir.Block, Sir.Operands, ValueOf, Losing, CodeAt, Effect, Happened, Tagged;
    hide Sir.Straight, Extend;
    BlocksStand(b.w, i.tag, vs, cs);
    Builds(f, b, Sir.Block(i.tag, vs), Sir.Block(i.tag, cs));
    BlockSize(i.tag, cs);
    SlotSize(known, f, b.sf.pc);
    SizedAt(SlotsAt(f.body, |f.body|), b.cf.slots, b.cheap, SlotOf(f.body, b.sf.pc));
    SizedNext(SlotsAt(f.body, |f.body|), b.cf.slots, b.cheap, SlotOf(f.body, b.sf.pc), Sir.Block(i.tag, cs));
    MirroredHoused(b.lost, b.w, b.heap, b.cheap, b.dead);
    BuiltState(known, f, b);
    BuiltVals(known, f, b);
  }

  lemma BlockSize(tag: Option<int>, vs: seq<Val>)
    ensures |Sir.Block(tag, vs)| == |vs| + if tag.Some? then 1 else 0
  {
  }

  /** Values after an aggregate was built. */
  lemma BuiltVals(known: set<Sir.Symbol>, f: Sir.Function, b: Both)
    requires b.sf.pc < |f.body| && f.body[b.sf.pc].Construct? && Simulable(known, f) && |b.w| == |b.heap|
    requires MatchVals(Final(known, f), b.w, b.sf.vals, Tagged(known, f, b))
    ensures var e, dst := Final(known, f), f.body[b.sf.pc].dst;
      MatchVals(e, b.w + [Next(f, b)], b.sf.vals[dst := Sir.Ref(|b.heap|)],
        Tagged(known, f, b)[ValueOf(e, dst) := Sir.Ref(Next(f, b))])
  {
    hide Simulable, Final, MatchVals, Numbered, Tagged, Next;
    var e, dst, w' := Final(known, f), f.body[b.sf.pc].dst, b.w + [Next(f, b)];
    DstKnown(known, f, b.sf.pc);
    ValsGrow(e, b.w, w', b.sf.vals, Tagged(known, f, b));
    WriteVal(e, w', b.sf.vals, Tagged(known, f, b), dst, Sir.Ref(|b.heap|), Sir.Ref(Next(f, b)));
  }

  /** Variables and slots after an aggregate was built. */
  lemma BuiltState(known: set<Sir.Symbol>, f: Sir.Function, b: Both)
    requires b.sf.pc < |f.body| && f.body[b.sf.pc].Construct? && |b.w| == |b.heap|
    requires MatchState(Final(known, f), f, b.a, b.sf, b.cf, b.w, b.cheap)
    ensures var a, w := Extend(b.a, Event(b.sf.pc, Some(Sir.Ref(|b.heap|)))), b.w + [Next(f, b)];
      && MatchVars(w, Cells(f, a.args, a.past), b.cf.vars)
      && MatchSlots(f.body, Newest(f.body, a.past), Built(f.body, a.past), w,
        b.cf.slots[SlotOf(f.body, b.sf.pc) := Next(f, b)])
  {
    hide MatchVals, MatchVars, MatchSlots, Cells, Built, Newest, SlotsAt, Sized, SlotOf;
    VarsGrow(b.w, b.w + [Next(f, b)], Cells(f, b.a.args, b.a.past), b.cf.vars);
    SlotsNext(f.body, Newest(f.body, b.a.past), Built(f.body, b.a.past), b.w, b.cf.slots, b.sf.pc, Next(f, b));
    BuiltNext(f, b.a, Event(b.sf.pc, Some(Sir.Ref(|b.heap|))), |b.heap|);
  }

  lemma NopSim(known: set<Sir.Symbol>, f: Sir.Function, ops: Sir.Ops, b: Both)
    requires Paired(known, f, ops, b) && f.body[b.sf.pc].Nop?
    ensures Follows(known, f, ops, b)
  {
    hide Newest, Built, Cells, Final, At, MatchVals, MatchVars, MatchSlots, Mirrored, Simulable, Sir.Blind, SlotsAt;
    hide Rebuilt;
    QuietNext(f, b.a, Happened(f.body[b.sf.pc], b.sf, b.heap));
  }

  /** Straight-line code stays in its block. */
  lemma CodeOrdinary(known: set<Sir.Symbol>, f: Sir.Function, i: nat)
    requires i < |f.body| && StraightLine(f.body[i])
    ensures forall k :: 0 <= k < |CodeAt(known, f, i)| ==> Ordinary(CodeAt(known, f, i)[k])
  {
    hide Final, At, AggregateCode;
    if f.body[i].Construct? {
      AggregateUses(Final(known, f), At(known, f, i).nextValue, f.body[i].tag, f.body[i].fields,
        ValueOf(Final(known, f), f.body[i].dst), SlotOf(f.body, i));
    }
  }

  lemma AlwaysSound(f: Sir.Function, ops: Sir.Ops, b: Both)
    requires b.sf.pc < |f.body|
    requires var i := f.body[b.sf.pc]; Names(i).Some? || i.Construct? || i.Nop?
    ensures SoundNext(f, ops, b)
  {
  }

  /** A straight-line instruction is followed in values, variables, slots and heap if and only if it
      is sound. */
  lemma StraightSim(known: set<Sir.Symbol>, f: Sir.Function, ops: Sir.Ops, b: Both)
    requires Paired(known, f, ops, b) && StraightLine(f.body[b.sf.pc])
    ensures Follows(known, f, ops, b) <==> SoundNext(f, ops, b)
  {
    var i := f.body[b.sf.pc];
    hide Paired, SoundNext, Follows;
    if i.Load? {
      LoadSim(known, f, ops, b);
    } else if i.TupleIndex? {
      IndexSim(known, f, ops, b);
    } else if i.FieldStore? {
      PutSim(known, f, ops, b);
    } else if i.Construct? {
      ConstructSim(known, f, ops, b);
      AlwaysSound(f, ops, b);
    } else if i.Store? || i.VarDef? {
      DefineSim(known, f, ops, b);
      AlwaysSound(f, ops, b);
    } else if i.Nop? {
      NopSim(known, f, ops, b);
      AlwaysSound(f, ops, b);
    } else {
      ComputeSim(known, f, ops, b);
    }
  }
}
