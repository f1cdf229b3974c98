/** Which aggregates an activation can reach: what its caller could hand it and what it has built
    itself. If no function lets its own aggregates out, nothing ever reaches an aggregate of an
    activation that has returned. */
module Regions {
  import opened Wrappers
  import opened Sir
  import opened Trails

  // --- A condition on the text ---------------------------------------------

  /** The values and locals that may hold an aggregate of the activation itself, the instructions that
      may build one again, and whether own aggregates may hold own aggregates. */
  datatype Own = Own(vals: set<ValueId>, locals: set<Symbol>, again: set<nat>, nested: bool)

  /** Defined by building an aggregate. */
  ghost predicate Made(body: seq<Insn>, v: ValueId) {
    exists i :: 0 <= i < |body| && body[i].Construct? && body[i].dst == v
  }

  /** Defined by a constant or an operator, so never an aggregate. */
  ghost predicate Calculated(body: seq<Insn>, v: ValueId) {
    exists i :: 0 <= i < |body| && (body[i].Const? || body[i].BinOp? || body[i].UnOp?) && body[i].dst == v
  }

  predicate Passes(own: Own, args: seq<ValueId>) {
    exists k :: 0 <= k < |args| && args[k] in own.vals
  }

  /** Instruction `i` marks what it may fill with an own aggregate, does not return one, and stores
      aggregates only into those it has built, own ones only if they may be nested. */
  ghost predicate Keeps(f: Function, own: Own, i: nat)
    requires i < |f.body|
  {
    match f.body[i]
    case Construct(dst, _, fields) => dst in own.vals && (own.nested || !Passes(own, fields))
    case Load(dst, src) =>
      SourceName(f.params, src).Some? && SourceName(f.params, src).value in own.locals ==> dst in own.vals
    case Store(name, v) => v in own.vals ==> name in own.locals
    case TupleIndex(dst, t, _) => t in own.vals && own.nested ==> dst in own.vals
    case Call(dst, _, args) => Passes(own, args) ==> dst in own.vals
    case Return(r) => r.Some? ==> r.value !in own.vals
    case FieldStore(b, _, v) => (Made(f.body, b) && (own.nested || v !in own.vals)) || Calculated(f.body, v)
    case ArrayPush(_, _, _) => false
    case _ => true
  }

  /** Under some marking of values and locals, no instruction lets an own aggregate out. */
  ghost predicate Confined(f: Function, own: Own) {
    SingleDefs(f.body) && forall i :: 0 <= i < |f.body| ==> Keeps(f, own, i)
  }

  ghost predicate AllConfined(p: Program, owns: map<Symbol, Own>) {
    forall fn :: fn in p ==> fn in owns && Confined(p[fn], owns[fn])
  }

  // --- Regions -------------------------------------------------------------

  predicate Within(v: Val, a: set<nat>) {
    v.Ref? ==> v.addr in a
  }

  /** Every aggregate of `a` exists and holds only what `b` allows. */
  ghost predicate HoldsOnly(heap: Heap, a: set<nat>, b: set<nat>) {
    forall x :: x in a ==> x < |heap| && forall v :: v in heap[x] ==> Within(v, b)
  }

  /** What own aggregates may hold. */
  function Inner(own: Own, outer: set<nat>, built: set<nat>): set<nat> {
    if own.nested then outer + built else outer
  }

  /** A frame whose caller could hand it `outer`, having built `built`. */
  ghost predicate FrameIn(f: Function, own: Own, outer: set<nat>, built: set<nat>, sf: Frame, heap: Heap) {
    && HoldsOnly(heap, outer, outer)
    && HoldsOnly(heap, built, Inner(own, outer, built))
    && (forall v :: v in sf.vals ==> Within(sf.vals[v], if v in own.vals then outer + built else outer))
    && (forall s :: s in sf.locals ==> Within(sf.locals[s], if s in own.locals then outer + built else outer))
    && (forall v :: v in sf.vals && Made(f.body, v) ==> sf.vals[v].Ref? && sf.vals[v].addr in built)
    && (forall v :: v in sf.vals && Calculated(f.body, v) ==> !sf.vals[v].Ref?)
  }

  function BuiltBy(p: Program, sf: Frame, a: Act): set<nat> {
    if sf.fn in p then Built(p[sf.fn].body, a.past) else {}
  }

  /** Everything alive: what there was before the run and what the activations have built. */
  function Alive(p: Program, frames: seq<Frame>, acts: seq<Act>, base: set<nat>): set<nat>
    requires |frames| == |acts|
  {
    if frames == [] then base else BuiltBy(p, frames[0], acts[0]) + Alive(p, frames[1..], acts[1..], base)
  }

  /** What the caller of the first frame could hand it. */
  function Outer(p: Program, owns: map<Symbol, Own>, frames: seq<Frame>, acts: seq<Act>, base: set<nat>): set<nat>
    requires |frames| == |acts|
  {
    if |frames| <= 1 then base
    else
      var outer, f := Outer(p, owns, frames[1..], acts[1..], base), frames[1];
      if f.fn in p && f.fn in owns && f.pc < |p[f.fn].body| && p[f.fn].body[f.pc].Call?
        && Passes(owns[f.fn], p[f.fn].body[f.pc].args)
      then outer + BuiltBy(p, f, acts[1]) else outer
  }

  ghost predicate AllIn(p: Program, owns: map<Symbol, Own>, frames: seq<Frame>, acts: seq<Act>, heap: Heap,
                        base: set<nat>)
    requires |frames| == |acts|
  {
    frames != [] ==>
      && frames[0].fn in p && frames[0].fn in owns
      && FrameIn(p[frames[0].fn], owns[frames[0].fn], Outer(p, owns, frames, acts, base),
        BuiltBy(p, frames[0], acts[0]), frames[0], heap)
      && BuiltBy(p, frames[0], acts[0]) !! Alive(p, frames[1..], acts[1..], base)
      && AllIn(p, owns, frames[1..], acts[1..], heap, base)
  }

  /** Every activation keeps to its region, and nothing alive is dead. */
  ghost predicate Apart(p: Program, owns: map<Symbol, Own>, s: State, h: History, base: set<nat>) {
    s.Run? ==>
      && |s.frames| == |h.acts|
      && AllIn(p, owns, s.frames, h.acts, s.heap, base)
      && h.lost.dead !! Alive(p, s.frames, h.acts, base)
      && (forall x :: x in h.lost.dead || x in Alive(p, s.frames, h.acts, base) ==> x < |s.heap|)
  }

  /** What a frame reaches is alive. */
  lemma OuterAlive(p: Program, owns: map<Symbol, Own>, frames: seq<Frame>, acts: seq<Act>, base: set<nat>)
    requires |frames| == |acts| && frames != []
    ensures Outer(p, owns, frames, acts, base) <= Alive(p, frames[1..], acts[1..], base)
  {
    if |frames| > 1 {
      OuterAlive(p, owns, frames[1..], acts[1..], base);
    }
  }

  /** Where `a` is concerned, nothing was handed out that was not there before. */
  ghost predicate Tame(heap: Heap, heap': Heap, a: set<nat>) {
    |heap| <= |heap'| && forall x, v :: x in a && x < |heap| && v in heap'[x] && v.Ref? ==> v in heap[x]
  }

  lemma TameFrame(f: Function, own: Own, outer: set<nat>, built: set<nat>, sf: Frame, heap: Heap, heap': Heap)
    requires FrameIn(f, own, outer, built, sf, heap) && Tame(heap, heap', outer + built)
    ensures FrameIn(f, own, outer, built, sf, heap')
  {
    hide Made, Calculated;
    TameHolds(heap, heap', outer, outer);
    TameHolds(heap, heap', built, Inner(own, outer, built));
  }

  lemma TameHolds(heap: Heap, heap': Heap, a: set<nat>, b: set<nat>)
    requires HoldsOnly(heap, a, b) && Tame(heap, heap', a)
    ensures HoldsOnly(heap', a, b)
  {
    forall x: nat, v: Val | x in a && v in heap'[x] ensures Within(v, b) {
      if v.Ref? {
        assert v in heap[x];
      }
    }
  }

  lemma {:induction false} TameAll(p: Program, owns: map<Symbol, Own>, frames: seq<Frame>, acts: seq<Act>, heap: Heap,
                                   heap': Heap, base: set<nat>)
    requires |frames| == |acts| && AllIn(p, owns, frames, acts, heap, base)
    requires Tame(heap, heap', Alive(p, frames, acts, base))
    ensures AllIn(p, owns, frames, acts, heap', base)
    decreases |frames|
  {
    hide FrameIn, BuiltBy, Outer;
    if frames != [] {
      OuterAlive(p, owns, frames, acts, base);
      assert Tame(heap, heap', Alive(p, frames[1..], acts[1..], base));
      TameAll(p, owns, frames[1..], acts[1..], heap, heap', base);
      TameFrame(p[frames[0].fn], owns[frames[0].fn], Outer(p, owns, frames, acts, base),
        BuiltBy(p, frames[0], acts[0]), frames[0],
        heap, heap');
    }
  }

  // --- One instruction -----------------------------------------------------

  lemma NotMade(f: Function, i: nat, v: ValueId)
    requires SingleDefs(f.body) && i < |f.body| && Defines(f.body[i]) == Some(v)
    ensures Made(f.body, v) ==> f.body[i].Construct?
    ensures Calculated(f.body, v) ==> f.body[i].Const? || f.body[i].BinOp? || f.body[i].UnOp?
  {
  }

  /** Defining a value that fits. */
  lemma SetFits(f: Function, own: Own, outer: set<nat>, built: set<nat>, sf: Frame, heap: Heap, i: nat, x: Val, pc: nat)
    requires FrameIn(f, own, outer, built, sf, heap) && SingleDefs(f.body) && i < |f.body| && Defines(f.body[i]).Some?
    requires Within(x, if Defines(f.body[i]).value in own.vals then outer + built else outer)
    requires f.body[i].Construct? ==> x.Ref? && x.addr in built
    requires f.body[i].Const? || f.body[i].BinOp? || f.body[i].UnOp? ==> !x.Ref?
    ensures FrameIn(f, own, outer, built, SetVal(sf, Defines(f.body[i]).value, x).(pc := pc), heap)
  {
    hide Made, Calculated, HoldsOnly;
    NotMade(f, i, Defines(f.body[i]).value);
  }

  lemma StoreFits(f: Function, own: Own, outer: set<nat>, built: set<nat>, sf: Frame, heap: Heap, s: Symbol, x: Val,
                  pc: nat)
    requires FrameIn(f, own, outer, built, sf, heap)
    requires Within(x, if s in own.locals then outer + built else outer)
    ensures FrameIn(f, own, outer, built, sf.(locals := sf.locals[s := x], pc := pc), heap)
  {
    hide Made, Calculated, HoldsOnly;
  }

  lemma PcFits(f: Function, own: Own, outer: set<nat>, built: set<nat>, sf: Frame, heap: Heap, pc: nat)
    requires FrameIn(f, own, outer, built, sf, heap)
    ensures FrameIn(f, own, outer, built, sf.(pc := pc), heap)
  {
    hide Made, Calculated, HoldsOnly;
  }

  lemma ReadFits(f: Function, own: Own, outer: set<nat>, built: set<nat>, sf: Frame, heap: Heap, t: ValueId, index: nat)
    requires FrameIn(f, own, outer, built, sf, heap) && t in sf.vals && IsCell(heap, sf.vals[t], index)
    ensures Within(heap[sf.vals[t].addr][index], if t in own.vals then Inner(own, outer, built) else outer)
  {
    hide Made, Calculated;
    assert heap[sf.vals[t].addr][index] in heap[sf.vals[t].addr];
  }

  /** The straight-line instructions that leave the heap alone. */
  lemma CalmFits(f: Function, own: Own, outer: set<nat>, built: set<nat>, ops: Ops, sf: Frame, heap: Heap)
    requires FrameIn(f, own, outer, built, sf, heap) && Confined(f, own) && PrimOps(ops)
    requires sf.pc < |f.body| && !Control(f.body[sf.pc]) && !f.body[sf.pc].Construct? && !f.body[sf.pc].FieldStore?
    requires Straight(ops, f.params, f.body[sf.pc], sf, heap).Some?
    ensures var (sf', heap') := Straight(ops, f.params, f.body[sf.pc], sf, heap).value;
      heap' == heap && FrameIn(f, own, outer, built, sf'.(pc := sf.pc + 1), heap)
  {
    hide FrameIn, PrimOps, Made, Calculated, SingleDefs;
    assert Keeps(f, own, sf.pc);
    InFrame(f, own, outer, built, sf, heap);
    OpsPrim(ops);
    match f.body[sf.pc]
    case Const(dst, c) => SetFits(f, own, outer, built, sf, heap, sf.pc, Prim(c), sf.pc + 1);
    case Load(dst, src) =>
      SetFits(f, own, outer, built, sf, heap, sf.pc, sf.locals[SourceName(f.params, src).value], sf.pc + 1);
    case Store(name, v) => StoreFits(f, own, outer, built, sf, heap, name, sf.vals[v], sf.pc + 1);
    case BinOp(dst, op, l, r) => SetFits(f, own, outer, built, sf, heap, sf.pc, ops.bin(op, sf.vals[l], sf.vals[r]),
      sf.pc + 1);
    case UnOp(dst, op, r) => SetFits(f, own, outer, built, sf, heap, sf.pc, ops.un(op, sf.vals[r]), sf.pc + 1);
    case TupleIndex(dst, t, index) =>
      ReadFits(f, own, outer, built, sf, heap, t, index);
      SetFits(f, own, outer, built, sf, heap, sf.pc, heap[sf.vals[t].addr][index], sf.pc + 1);
    case VarDef(_, _) => PcFits(f, own, outer, built, sf, heap, sf.pc + 1);
    case Label(_) => PcFits(f, own, outer, built, sf, heap, sf.pc + 1);
    case Nop => PcFits(f, own, outer, built, sf, heap, sf.pc + 1);
    case _ =>
  }

  lemma OpsPrim(ops: Ops)
    requires PrimOps(ops)
    ensures forall op, x, y :: !ops.bin(op, x, y).Ref?
    ensures forall op, x :: !ops.un(op, x).Ref?
  {
  }

  lemma InFrame(f: Function, own: Own, outer: set<nat>, built: set<nat>, sf: Frame, heap: Heap)
    requires FrameIn(f, own, outer, built, sf, heap)
    ensures forall v :: v in sf.vals ==> Within(sf.vals[v], if v in own.vals then outer + built else outer)
    ensures forall s :: s in sf.locals ==> Within(sf.locals[s], if s in own.locals then outer + built else outer)
    ensures forall v :: v in sf.vals ==> Within(sf.vals[v], outer + built)
  {
    hide Made, Calculated, HoldsOnly;
  }

  /** Building an aggregate of what the frame holds. */
  lemma BuildFits(f: Function, own: Own, outer: set<nat>, built: set<nat>, ops: Ops, sf: Frame, heap: Heap)
    requires FrameIn(f, own, outer, built, sf, heap) && Confined(f, own)
    requires sf.pc < |f.body| && f.body[sf.pc].Construct?
    requires Straight(ops, f.params, f.body[sf.pc], sf, heap).Some?
    ensures var (sf', heap') := Straight(ops, f.params, f.body[sf.pc], sf, heap).value;
      FrameIn(f, own, outer, built + {|heap|}, sf'.(pc := sf.pc + 1), heap')
  {
    assert Keeps(f, own, sf.pc);
    var i, built' := f.body[sf.pc], built + {|heap|};
    var block := Block(i.tag, Operands(sf.vals, i.fields).value);
    InFrame(f, own, outer, built, sf, heap);
    BlockWithin(own, i.tag, sf.vals, i.fields, outer, built');
    GrowFits(f, own, outer, built, sf, heap, block);
    hide FrameIn, Block, Operands;
    SetFits(f, own, outer, built', sf, heap + [block], sf.pc, Ref(|heap|), sf.pc + 1);
  }

  lemma BlockWithin(own: Own, tag: Option<int>, vals: map<ValueId, Val>, fields: seq<ValueId>, outer: set<nat>,
                    built: set<nat>)
    requires Operands(vals, fields).Some? && (own.nested || !Passes(own, fields))
    requires forall v :: v in vals ==> Within(vals[v], if v in own.vals then outer + built else outer)
    ensures forall x :: x in Block(tag, Operands(vals, fields).value) ==> Within(x, Inner(own, outer, built))
  {
    var vs := Operands(vals, fields).value;
    forall x | x in Block(tag, vs) ensures Within(x, Inner(own, outer, built)) {
      if x in vs {
        var k :| 0 <= k < |vs| && vs[k] == x;
        assert fields[k] in vals;
      }
    }
  }

  lemma GrowFits(f: Function, own: Own, outer: set<nat>, built: set<nat>, sf: Frame, heap: Heap, block: seq<Val>)
    requires FrameIn(f, own, outer, built, sf, heap)
    requires forall x :: x in block ==> Within(x, Inner(own, outer, built + {|heap|}))
    ensures FrameIn(f, own, outer, built + {|heap|}, sf, heap + [block])
  {
    hide Made, Calculated;
    var built' := built + {|heap|};
    assert forall x :: 0 <= x < |heap| ==> (heap + [block])[x] == heap[x];
    assert (heap + [block])[|heap|] == block;
    assert HoldsOnly(heap + [block], outer, outer);
    assert HoldsOnly(heap + [block], built', Inner(own, outer, built'));
  }

  /** Writing a field of an own aggregate, or writing a value that is none. */
  lemma PutFits(f: Function, own: Own, outer: set<nat>, built: set<nat>, sf: Frame, heap: Heap, x: nat, index: nat,
                v: Val)
    requires FrameIn(f, own, outer, built, sf, heap) && x < |heap| && index < |heap[x]|
    requires v.Ref? ==> x in built && x !in outer && Within(v, Inner(own, outer, built))
    ensures FrameIn(f, own, outer, built, sf.(pc := sf.pc + 1), heap[x := heap[x][index := v]])
  {
    hide Made, Calculated;
    var heap' := heap[x := heap[x][index := v]];
    PutHolds(heap, outer, outer, x, index, v);
    PutHolds(heap, built, Inner(own, outer, built), x, index, v);
  }

  lemma PutHolds(heap: Heap, a: set<nat>, b: set<nat>, x: nat, index: nat, v: Val)
    requires HoldsOnly(heap, a, b) && x < |heap| && index < |heap[x]| && (x in a ==> Within(v, b))
    ensures HoldsOnly(heap[x := heap[x][index := v]], a, b)
  {
    var heap' := heap[x := heap[x][index := v]];
    forall y: nat, w: Val | y in a && w in heap'[y] ensures Within(w, b) {
      if y == x {
        assert w == v || w in heap[x];
      } else {
        assert heap'[y] == heap[y];
      }
    }
  }

  lemma PutTame(heap: Heap, a: set<nat>, x: nat, index: nat, v: Val)
    requires x < |heap| && index < |heap[x]| && (v.Ref? ==> x !in a)
    ensures Tame(heap, heap[x := heap[x][index := v]], a)
  {
    var heap' := heap[x := heap[x][index := v]];
    forall y: nat, w: Val | y in a && y < |heap| && w in heap'[y] && w.Ref? ensures w in heap[y] {
      if y == x {
        assert w in heap[x][index := v];
      } else {
        assert heap'[y] == heap[y];
      }
    }
  }

  // --- One step ------------------------------------------------------------

  /** Replacing the running frame by one that fits, the heap having changed tamely below it. */
  lemma Replaces(p: Program, owns: map<Symbol, Own>, s: State, h: History, base: set<nat>, a: Act, sf: Frame,
                 heap: Heap, lost: Lost)
    requires s.Run? && s.frames != [] && Apart(p, owns, s, h, base) && sf.fn == s.frames[0].fn
    requires FrameIn(p[sf.fn], owns[sf.fn], Outer(p, owns, s.frames, h.acts, base), BuiltBy(p, sf, a), sf, heap)
    requires Tame(s.heap, heap, Alive(p, s.frames[1..], h.acts[1..], base))
    requires forall x :: x in BuiltBy(p, sf, a) ==> x in BuiltBy(p, s.frames[0], h.acts[0]) || |s.heap| <= x < |heap|
    requires lost.dead == h.lost.dead
    ensures Apart(p, owns, Run([sf] + s.frames[1..], heap), History([a] + h.acts[1..], lost), base)
  {
    hide FrameIn, BuiltBy;
    var frames, acts := [sf] + s.frames[1..], [a] + h.acts[1..];
    assert frames[1..] == s.frames[1..] && acts[1..] == h.acts[1..];
    SameOuter(p, owns, s.frames, frames, h.acts, acts, base);
    TameAll(p, owns, s.frames[1..], h.acts[1..], s.heap, heap, base);
  }

  lemma SameOuter(p: Program, owns: map<Symbol, Own>, frames: seq<Frame>, frames': seq<Frame>, acts: seq<Act>,
                  acts': seq<Act>, base: set<nat>)
    requires |frames| == |acts| == |frames'| == |acts'| && frames != [] && frames[1..] == frames'[1..]
    requires acts[1..] == acts'[1..]
    ensures Outer(p, owns, frames', acts', base) == Outer(p, owns, frames, acts, base)
  {
    if |frames| > 1 {
      assert frames[1] == frames[1..][0] == frames'[1..][0] == frames'[1];
      assert acts[1] == acts[1..][0] == acts'[1..][0] == acts'[1];
    }
  }

  lemma TopIn(p: Program, owns: map<Symbol, Own>, s: State, h: History, base: set<nat>)
    requires s.Run? && s.frames != [] && Apart(p, owns, s, h, base)
    ensures |s.frames| == |h.acts| && s.frames[0].fn in p && s.frames[0].fn in owns
    ensures var f, outer := p[s.frames[0].fn], Outer(p, owns, s.frames, h.acts, base);
      var built := Built(f.body, h.acts[0].past);
      && FrameIn(f, owns[s.frames[0].fn], outer, built, s.frames[0], s.heap)
      && BuiltBy(p, s.frames[0], h.acts[0]) == built
      && built !! Alive(p, s.frames[1..], h.acts[1..], base) && outer <= Alive(p, s.frames[1..], h.acts[1..], base)
      && Alive(p, s.frames, h.acts, base) == built + Alive(p, s.frames[1..], h.acts[1..], base)
    ensures forall x :: x in Alive(p, s.frames, h.acts, base) ==> x < |s.heap| && x !in h.lost.dead
  {
    hide FrameIn, Outer;
    OuterAlive(p, owns, s.frames, h.acts, base);
  }

  /** What the running activation holds is alive. */
  lemma HeldAlive(p: Program, owns: map<Symbol, Own>, s: State, h: History, base: set<nat>, v: ValueId)
    requires s.Run? && s.frames != [] && Apart(p, owns, s, h, base) && v in s.frames[0].vals && s.frames[0].vals[v].Ref?
    ensures s.frames[0].vals[v].addr !in h.lost.dead
  {
    TopIn(p, owns, s, h, base);
    hide FrameIn, Apart, Outer, Built;
    var sf := s.frames[0];
    InFrame(p[sf.fn], owns[sf.fn], Outer(p, owns, s.frames, h.acts, base), Built(p[sf.fn].body, h.acts[0].past), sf,
      s.heap);
  }

  lemma SameBuilt(body: seq<Insn>, a: Act, e: Event)
    ensures e.pc < |body| && !body[e.pc].Construct? ==> Built(body, Extend(a, e).past) == Built(body, a.past)
    ensures e.pc < |body| && body[e.pc].Construct? && e.given.Some? && e.given.value.Ref? ==>
      Built(body, Extend(a, e).past) == Built(body, a.past) + {e.given.value.addr}
  {
    var past := Extend(a, e).past;
    assert forall b :: b in past <==> b in a.past || b == e;
  }

  lemma KeepsAt(f: Function, own: Own, i: nat)
    requires Confined(f, own) && i < |f.body|
    ensures Keeps(f, own, i) && SingleDefs(f.body)
  {
    hide Keeps, SingleDefs;
  }

  lemma PutStep(p: Program, owns: map<Symbol, Own>, ops: Ops, s: State, h: History, base: set<nat>)
    requires AllConfined(p, owns) && Apart(p, owns, s, h, base) && s.Run? && s.frames != [] && s.frames[0].fn in p
    requires s.frames[0].pc < |p[s.frames[0].fn].body| && p[s.frames[0].fn].body[s.frames[0].pc].FieldStore?
    requires Step(p, ops, s) != Fault
    ensures Apart(p, owns, Step(p, ops, s), Record(p, s, h), base)
  {
    hide FrameIn, Apart, Outer, Alive, Built, AllConfined, Confined, Made, Calculated, Extend, Straight, Step, Record;
    hide Tame, IsCell, BuiltBy, Happened;
    TopIn(p, owns, s, h, base);
    InPlace(p, ops, s, h);
    var sf, a := s.frames[0], h.acts[0];
    ConfinedFn(p, owns, sf.fn);
    var f, i, own := p[sf.fn], p[sf.fn].body[sf.pc], owns[sf.fn];
    KeepsAt(f, own, sf.pc);
    PutIs(ops, f, sf, s.heap);
    PutsTamely(p, owns, s, h, base, f, own, i.base, i.index, i.value);
    SameBuilt(f.body, a, Event(sf.pc, None));
    BuiltIs(p, sf, Extend(a, Event(sf.pc, None)));
    BuiltIs(p, sf.(pc := sf.pc + 1), Extend(a, Event(sf.pc, None)));
    var x := sf.vals[i.base].addr;
    assert IsCell(s.heap, sf.vals[i.base], i.index);
    SameLength(s.heap, x, i.index, sf.vals[i.value], sf.vals[i.base]);
    Replaces(p, owns, s, h, base, Extend(a, Event(sf.pc, None)), sf.(pc := sf.pc + 1),
      s.heap[x := s.heap[x][i.index := sf.vals[i.value]]], h.lost);
  }

  lemma SameLength(heap: Heap, x: nat, index: nat, v: Val, base: Val)
    requires IsCell(heap, base, index) && base.addr == x
    ensures x < |heap| && index < |heap[x]| && |heap[x := heap[x][index := v]]| == |heap|
  {
  }

  lemma BuiltIs(p: Program, sf: Frame, a: Act)
    requires sf.fn in p
    ensures BuiltBy(p, sf, a) == Built(p[sf.fn].body, a.past)
  {
    hide Built;
  }

  /** The written aggregate is the activation's own, or what is written is none. */
  lemma PutsTamely(p: Program, owns: map<Symbol, Own>, s: State, h: History, base: set<nat>, f: Function, own: Own,
                   b: ValueId, index: nat,
                   v: ValueId)
    requires s.Run? && s.frames != [] && Apart(p, owns, s, h, base) && |h.acts| == |s.frames|
    requires s.frames[0].fn in p && s.frames[0].fn in owns && f == p[s.frames[0].fn] && own == owns[s.frames[0].fn]
    requires b in s.frames[0].vals && v in s.frames[0].vals && IsCell(s.heap, s.frames[0].vals[b], index)
    requires (Made(f.body, b) && (own.nested || v !in own.vals)) || Calculated(f.body, v)
    ensures var sf, x := s.frames[0], s.frames[0].vals[b].addr;
      var heap := s.heap[x := s.heap[x][index := sf.vals[v]]];
      && FrameIn(f, own, Outer(p, owns, s.frames, h.acts, base), Built(f.body, h.acts[0].past), sf.(pc := sf.pc + 1),
        heap)
      && Tame(s.heap, heap, Alive(p, s.frames[1..], h.acts[1..], base))
  {
    hide FrameIn, Apart, Outer, Alive, Built, Made, Calculated, Tame;
    TopIn(p, owns, s, h, base);
    var sf, x := s.frames[0], s.frames[0].vals[b].addr;
    var outer, built := Outer(p, owns, s.frames, h.acts, base), Built(f.body, h.acts[0].past);
    InFrame(f, own, outer, built, sf, s.heap);
    MadeIn(f, own, outer, built, sf, s.heap, b, v);
    PutFits(f, own, outer, built, sf, s.heap, x, index, sf.vals[v]);
    PutTame(s.heap, Alive(p, s.frames[1..], h.acts[1..], base), x, index, sf.vals[v]);
  }

  lemma MadeIn(f: Function, own: Own, outer: set<nat>, built: set<nat>, sf: Frame, heap: Heap, b: ValueId, v: ValueId)
    requires FrameIn(f, own, outer, built, sf, heap) && b in sf.vals && v in sf.vals
    requires (Made(f.body, b) && (own.nested || v !in own.vals)) || Calculated(f.body, v)
    ensures sf.vals[v].Ref? ==>
      sf.vals[b].Ref? && sf.vals[b].addr in built && Within(sf.vals[v], Inner(own, outer, built))
  {
    hide Made, Calculated, HoldsOnly;
  }

  lemma BuildTame(heap: Heap, block: seq<Val>, a: set<nat>)
    requires forall x :: x in a ==> x < |heap|
    ensures Tame(heap, heap + [block], a)
  {
  }

  lemma RebuiltDead(lost: Lost, body: seq<Insn>, a: Act, pc: nat, y: nat)
    ensures Rebuilt(lost, body, a, pc, y).dead == lost.dead
  {
  }

  lemma BuildStep(p: Program, owns: map<Symbol, Own>, ops: Ops, s: State, h: History, base: set<nat>)
    requires AllConfined(p, owns) && Apart(p, owns, s, h, base) && s.Run? && s.frames != [] && s.frames[0].fn in p
    requires s.frames[0].pc < |p[s.frames[0].fn].body| && p[s.frames[0].fn].body[s.frames[0].pc].Construct?
    requires Step(p, ops, s) != Fault
    ensures Apart(p, owns, Step(p, ops, s), Record(p, s, h), base)
  {
    hide FrameIn, Apart, Outer, Alive, Built, AllConfined, Confined, Extend, Straight, Step, Record, Tame, BuiltBy;
    hide Happened, Rebuilt, Block, Operands;
    TopIn(p, owns, s, h, base);
    InPlace(p, ops, s, h);
    var sf, a := s.frames[0], h.acts[0];
    ConfinedFn(p, owns, sf.fn);
    var f, own := p[sf.fn], owns[sf.fn];
    BuildIs(ops, f, sf, s.heap);
    BuildTame(s.heap, Block(f.body[sf.pc].tag, Operands(sf.vals, f.body[sf.pc].fields).value),
      Alive(p, s.frames[1..], h.acts[1..], base));
    RebuiltDead(h.lost, f.body, a, sf.pc, |s.heap|);
    BuildFits(f, own, Outer(p, owns, s.frames, h.acts, base), Built(f.body, a.past), ops, sf, s.heap);
    var (sf', heap') := Straight(ops, f.params, f.body[sf.pc], sf, s.heap).value;
    var e := Event(sf.pc, Some(Ref(|s.heap|)));
    SameBuilt(f.body, a, e);
    BuiltIs(p, sf'.(pc := sf.pc + 1), Extend(a, e));
    BuiltIs(p, sf, a);
    Replaces(p, owns, s, h, base, Extend(a, e), sf'.(pc := sf.pc + 1), heap',
      Rebuilt(h.lost, f.body, a, sf.pc, |s.heap|));
  }

  lemma CalmStep(p: Program, owns: map<Symbol, Own>, ops: Ops, s: State, h: History, base: set<nat>)
    requires AllConfined(p, owns) && PrimOps(ops) && Apart(p, owns, s, h, base) && s.Run? && s.frames != []
    requires s.frames[0].fn in p
    requires s.frames[0].pc < |p[s.frames[0].fn].body|
    requires var i := p[s.frames[0].fn].body[s.frames[0].pc]; !Control(i) && !i.Construct? && !i.FieldStore?
    requires Step(p, ops, s) != Fault
    ensures Apart(p, owns, Step(p, ops, s), Record(p, s, h), base)
  {
    hide FrameIn, Apart, Outer, Alive, Built, AllConfined, Confined, PrimOps, Extend, Straight, Step, Record, Tame;
    hide BuiltBy, Given;
    TopIn(p, owns, s, h, base);
    InPlace(p, ops, s, h);
    var sf, a := s.frames[0], h.acts[0];
    ConfinedFn(p, owns, sf.fn);
    var f, own := p[sf.fn], owns[sf.fn];
    var e := Happened(f.body[sf.pc], sf, s.heap);
    StraightStays(ops, f, sf, s.heap);
    CalmFits(f, own, Outer(p, owns, s.frames, h.acts, base), Built(f.body, a.past), ops, sf, s.heap);
    var sf' := Straight(ops, f.params, f.body[sf.pc], sf, s.heap).value.0;
    SameBuilt(f.body, a, e);
    BuiltIs(p, sf'.(pc := sf.pc + 1), Extend(a, e));
    BuiltIs(p, sf, a);
    SameTame(s.heap, Alive(p, s.frames[1..], h.acts[1..], base));
    Replaces(p, owns, s, h, base, Extend(a, e), sf'.(pc := sf.pc + 1), s.heap, h.lost);
  }

  lemma SameTame(heap: Heap, a: set<nat>)
    ensures Tame(heap, heap, a)
  {
  }

  lemma StraightStays(ops: Ops, f: Function, sf: Frame, heap: Heap)
    requires sf.pc < |f.body| && Straight(ops, f.params, f.body[sf.pc], sf, heap).Some?
    ensures Straight(ops, f.params, f.body[sf.pc], sf, heap).value.0.fn == sf.fn
  {
  }

  lemma ConfinedFn(p: Program, owns: map<Symbol, Own>, fn: Symbol)
    requires AllConfined(p, owns) && fn in p
    ensures fn in owns && Confined(p[fn], owns[fn])
  {
    hide Confined;
  }

  lemma GoStep(p: Program, owns: map<Symbol, Own>, s: State, h: History, base: set<nat>, pc: nat)
    requires Apart(p, owns, s, h, base) && s.Run? && s.frames != [] && s.frames[0].fn in p
    requires s.frames[0].pc < |p[s.frames[0].fn].body| && !p[s.frames[0].fn].body[s.frames[0].pc].Construct?
    ensures var e := Happened(p[s.frames[0].fn].body[s.frames[0].pc], s.frames[0], s.heap);
      && h.acts != []
      && Apart(p, owns, Run([s.frames[0].(pc := pc)] + s.frames[1..], s.heap),
        h.(acts := [Extend(h.acts[0], e)] + h.acts[1..]), base)
  {
    var sf, a := s.frames[0], h.acts[0];
    var f, i := p[sf.fn], p[sf.fn].body[sf.pc];
    TopIn(p, owns, s, h, base);
    var e := Happened(i, sf, s.heap);
    SameBuilt(f.body, a, e);
    hide FrameIn, Apart, Outer, Alive, Built;
    PcFits(f, owns[sf.fn], Outer(p, owns, s.frames, h.acts, base), Built(f.body, a.past), sf, s.heap, pc);
    Replaces(p, owns, s, h, base, Extend(a, e), sf.(pc := pc), s.heap, h.lost);
  }

  /** The regions when an activation is entered. */
  lemma OuterEntered(p: Program, owns: map<Symbol, Own>, frames: seq<Frame>, acts: seq<Act>, base: set<nat>, g: Frame,
                     b: Act)
    requires |frames| == |acts| && frames != [] && frames[0].fn in p && frames[0].fn in owns
    requires frames[0].pc < |p[frames[0].fn].body| && p[frames[0].fn].body[frames[0].pc].Call?
    ensures var outer := Outer(p, owns, frames, acts, base);
      Outer(p, owns, [g] + frames, [b] + acts, base) ==
        if Passes(owns[frames[0].fn], p[frames[0].fn].body[frames[0].pc].args)
        then outer + BuiltBy(p, frames[0], acts[0])
        else outer
    ensures Alive(p, [g] + frames, [b] + acts, base) == BuiltBy(p, g, b) + Alive(p, frames, acts, base)
  {
    hide BuiltBy, Passes;
    assert ([g] + frames)[1..] == frames && ([b] + acts)[1..] == acts;
  }

  lemma EntersApart(p: Program, owns: map<Symbol, Own>, s: State, h: History, base: set<nat>, g: Frame, b: Act)
    requires s.Run? && s.frames != [] && Apart(p, owns, s, h, base) && |h.acts| == |s.frames| && g.fn in p
    requires g.fn in owns && b.past == []
    requires FrameIn(p[g.fn], owns[g.fn], Outer(p, owns, [g] + s.frames, [b] + h.acts, base), {}, g, s.heap)
    requires Alive(p, [g] + s.frames, [b] + h.acts, base) == BuiltBy(p, g, b) + Alive(p, s.frames, h.acts, base)
    ensures Apart(p, owns, Run([g] + s.frames, s.heap), h.(acts := [b] + h.acts), base)
  {
    hide FrameIn, Outer;
    assert BuiltBy(p, g, b) == {};
    assert ([g] + s.frames)[1..] == s.frames && ([b] + h.acts)[1..] == h.acts;
  }

  lemma CallIs(p: Program, ops: Ops, s: State, h: History)
    requires s.Run? && s.frames != [] && s.frames[0].fn in p && s.frames[0].pc < |p[s.frames[0].fn].body|
    requires |h.acts| == |s.frames|
    requires p[s.frames[0].fn].body[s.frames[0].pc].Call? && Step(p, ops, s) != Fault
    ensures var i := p[s.frames[0].fn].body[s.frames[0].pc];
      var vs := Operands(s.frames[0].vals, i.args);
      && vs.Some? && i.name in p && |p[i.name].params| == |vs.value|
      && Step(p, ops, s) == Run([Enter(i.name, p[i.name].params, vs.value)] + s.frames, s.heap)
      && Record(p, s, h) == h.(acts := [Act(vs.value, [])] + h.acts)
  {
    hide Enter, Operands;
    var i := p[s.frames[0].fn].body[s.frames[0].pc];
    var g := Enter(i.name, p[i.name].params, Operands(s.frames[0].vals, i.args).value);
    assert [g, s.frames[0]] + s.frames[1..] == [g] + s.frames;
  }

  /** A callee may reach what its arguments may: the caller's own aggregates only if it is handed one. */
  lemma CallStep(p: Program, owns: map<Symbol, Own>, ops: Ops, s: State, h: History, base: set<nat>)
    requires AllConfined(p, owns) && Apart(p, owns, s, h, base) && s.Run? && s.frames != [] && s.frames[0].fn in p
    requires s.frames[0].pc < |p[s.frames[0].fn].body| && p[s.frames[0].fn].body[s.frames[0].pc].Call?
    requires Step(p, ops, s) != Fault
    ensures Apart(p, owns, Step(p, ops, s), Record(p, s, h), base)
  {
    hide FrameIn, Apart, Outer, Alive, Built, AllConfined, Confined, Step, Record, BuiltBy, Operands, Enter, Passes;
    TopIn(p, owns, s, h, base);
    CallIs(p, ops, s, h);
    var sf, a := s.frames[0], h.acts[0];
    var f, own := p[sf.fn], owns[sf.fn];
    var i := f.body[sf.pc];
    ConfinedFn(p, owns, i.name);
    var vs := Operands(sf.vals, i.args).value;
    var g := Enter(i.name, p[i.name].params, vs);
    var outer, built := Outer(p, owns, s.frames, h.acts, base), Built(f.body, a.past);
    OuterEntered(p, owns, s.frames, h.acts, base, g, Act(vs, []));
    InFrame(f, own, outer, built, sf, s.heap);
    ArgsWithin(own, outer, built, sf, i.args);
    EnterFits(p[i.name], owns[i.name], f, own, outer, built, sf, if Passes(own, i.args) then outer + built else outer,
      i.name, vs, s.heap);
    EntersAs(i.name, p[i.name].params, vs);
    EntersApart(p, owns, s, h, base, g, Act(vs, []));
  }

  lemma EntersAs(fn: Symbol, params: seq<Symbol>, args: seq<Val>)
    requires |params| == |args|
    ensures Enter(fn, params, args).fn == fn
  {
  }

  lemma ArgsWithin(own: Own, outer: set<nat>, built: set<nat>, sf: Frame, args: seq<ValueId>)
    requires Operands(sf.vals, args).Some?
    requires forall v :: v in sf.vals ==> Within(sf.vals[v], if v in own.vals then outer + built else outer)
    ensures forall x :: x in Operands(sf.vals, args).value ==>
      Within(x, if Passes(own, args) then outer + built else outer)
  {
    var vs := Operands(sf.vals, args).value;
    forall x | x in vs ensures Within(x, if Passes(own, args) then outer + built else outer) {
      var k :| 0 <= k < |vs| && vs[k] == x;
      assert args[k] in sf.vals;
    }
  }

  lemma BindWithin(params: seq<Symbol>, args: seq<Val>, a: set<nat>)
    requires |params| == |args| && forall x :: x in args ==> Within(x, a)
    ensures forall s :: s in BindParams(params, args) ==> Within(BindParams(params, args)[s], a)
  {
    if params != [] {
      BindWithin(params[..|params| - 1], args[..|args| - 1], a);
      assert args[|args| - 1] in args;
    }
  }

  lemma EnterFits(g: Function, ownG: Own, f: Function, own: Own, outer: set<nat>, built: set<nat>, sf: Frame,
                  outer': set<nat>, fn: Symbol,
                  args: seq<Val>, heap: Heap)
    requires FrameIn(f, own, outer, built, sf, heap) && (outer' == outer || outer' == outer + built)
    requires |args| == |g.params| && forall x :: x in args ==> Within(x, outer')
    ensures FrameIn(g, ownG, outer', {}, Enter(fn, g.params, args), heap)
  {
    hide Made, Calculated;
    BindWithin(g.params, args, outer');
    assert outer' + {} == outer';
  }

  /** What a callee returns fits where the caller puts it. */
  lemma ReturnStep(p: Program, owns: map<Symbol, Own>, ops: Ops, s: State, h: History, base: set<nat>)
    requires AllConfined(p, owns) && Apart(p, owns, s, h, base) && s.Run? && s.frames != [] && s.frames[0].fn in p
    requires s.frames[0].pc < |p[s.frames[0].fn].body| && p[s.frames[0].fn].body[s.frames[0].pc].Return?
    requires Step(p, ops, s) != Fault
    ensures Apart(p, owns, Step(p, ops, s), Record(p, s, h), base)
  {
    var sf, a := s.frames[0], h.acts[0];
    var f, own := p[sf.fn], owns[sf.fn];
    TopIn(p, owns, s, h, base);
    assert Keeps(f, own, sf.pc);
    var result := f.body[sf.pc].result;
    var v := if result.Some? then sf.vals[result.value] else Unit;
    InFrame(f, own, Outer(p, owns, s.frames, h.acts, base), Built(f.body, a.past), sf, s.heap);
    var lost := h.lost.(dead := h.lost.dead + Built(f.body, a.past));
    hide FrameIn, Resume, Outer, Keeps, AllConfined;
    if |s.frames| == 1 {
      ResumeDone(p, s.frames[1..], v, s.heap);
    } else {
      ResumeStep(p, owns, s, h, base, v, lost);
    }
  }

  lemma ResumeDone(p: Program, callers: seq<Frame>, v: Val, heap: Heap)
    requires callers == []
    ensures Resume(p, callers, v, heap) == Done(v, heap)
  {
  }

  lemma ResumeStep(p: Program, owns: map<Symbol, Own>, s: State, h: History, base: set<nat>, v: Val, lost: Lost)
    requires AllConfined(p, owns) && Apart(p, owns, s, h, base) && s.Run? && |s.frames| > 1 && |h.acts| == |s.frames|
    requires lost.dead == h.lost.dead + BuiltBy(p, s.frames[0], h.acts[0])
    requires Within(v, Outer(p, owns, s.frames, h.acts, base)) && Resume(p, s.frames[1..], v, s.heap) != Fault
    ensures Apart(p, owns, Resume(p, s.frames[1..], v, s.heap),
      History([Extend(h.acts[1], Event(s.frames[1].pc, None))] + h.acts[2..], lost), base)
  {
    var rest, restActs, f, a := s.frames[1..], h.acts[1..], s.frames[1], h.acts[1];
    var t, g := Run(rest, s.heap), History(restActs, lost);
    assert Apart(p, owns, t, g, base) by {
      hide FrameIn, Outer, BuiltBy;
    }
    assert rest[0] == f && restActs[0] == a && rest[1..] == s.frames[2..] && restActs[1..] == h.acts[2..];
    TopIn(p, owns, t, g, base);
    var fn, own, outer := p[f.fn], owns[f.fn], Outer(p, owns, rest, restActs, base);
    var built := Built(fn.body, a.past);
    ConfinedFn(p, owns, f.fn);
    assert Keeps(fn, own, f.pc);
    var e := Event(f.pc, None);
    SameBuilt(fn.body, a, e);
    assert Within(v, if fn.body[f.pc].dst in own.vals then outer + built else outer);
    hide FrameIn, Outer, AllConfined, Apart, Alive, Built, Keeps;
    SetFits(fn, own, outer, built, f, s.heap, f.pc, v, f.pc + 1);
    Replaces(p, owns, t, g, base, Extend(a, e), SetVal(f, fn.body[f.pc].dst, v).(pc := f.pc + 1), s.heap, g.lost);
  }

  lemma StepApart(p: Program, owns: map<Symbol, Own>, ops: Ops, s: State, h: History, base: set<nat>)
    requires AllConfined(p, owns) && PrimOps(ops) && Apart(p, owns, s, h, base) && Step(p, ops, s) != Fault
    ensures Apart(p, owns, Step(p, ops, s), Record(p, s, h), base)
  {
    if s.Run? {
      var sf := s.frames[0];
      var body := p[sf.fn].body;
      assert |h.acts| == |s.frames|;
      hide Apart, AllConfined, PrimOps, Straight, Happened, Built, Extend;
      match body[sf.pc]
      case Jump(target) => GoStep(p, owns, s, h, base, LabelIndex(body, target).value);
      case BranchIfNot(c, target) =>
        GoStep(p, owns, s, h, base, if ops.truthy(sf.vals[c]) then sf.pc + 1 else LabelIndex(body, target).value);
      case Return(_) => ReturnStep(p, owns, ops, s, h, base);
      case Call(_, _, _) => CallStep(p, owns, ops, s, h, base);
      case Construct(_, _, _) => BuildStep(p, owns, ops, s, h, base);
      case FieldStore(_, _, _) => PutStep(p, owns, ops, s, h, base);
      case _ => CalmStep(p, owns, ops, s, h, base);
    }
  }

  function Below(n: nat): (a: set<nat>)
    ensures forall x: nat :: x in a <==> x < n
  {
    if n == 0 then {} else Below(n - 1) + {n - 1}
  }

  lemma EntryFits(f: Function, own: Own, fn: Symbol, args: seq<Val>, heap: Heap)
    requires |args| == |f.params| && Whole(args, heap)
    ensures FrameIn(f, own, Below(|heap|), {}, Enter(fn, f.params, args), heap)
  {
    hide Made, Calculated;
    forall x | x in args ensures Within(x, Below(|heap|)) {
      assert Exists(x, |heap|);
    }
    BindWithin(f.params, args, Below(|heap|));
    forall x, v | x in Below(|heap|) && v in heap[x] ensures Within(v, Below(|heap|)) {
      assert Exists(v, |heap|);
    }
  }

  lemma StartApart(p: Program, owns: map<Symbol, Own>, fn: Symbol, args: seq<Val>, heap: Heap)
    requires AllConfined(p, owns) && Start(p, fn, args, heap) != Fault && Whole(args, heap)
    ensures Apart(p, owns, Start(p, fn, args, heap), Begin(args), Below(|heap|))
  {
    hide Made, Calculated, Confined, Whole, FrameIn, Below;
    var sf := Enter(fn, p[fn].params, args);
    EntryFits(p[fn], owns[fn], fn, args, heap);
    assert Built(p[fn].body, []) == {};
    assert Begin(args).acts[1..] == [] && [sf][1..] == [];
    assert Below(|heap|) + {} == Below(|heap|);
    assert AllIn(p, owns, [], [], heap, Below(|heap|)) && Alive(p, [], [], Below(|heap|)) == Below(|heap|);
    assert Outer(p, owns, [sf], [Act(args, [])], Below(|heap|)) == Below(|heap|);
  }

  /** No step of the run ever reaches an aggregate of an activation that has returned. */
  lemma {:induction false} RunApart(p: Program, owns: map<Symbol, Own>, ops: Ops, fn: Symbol, args: seq<Val>,
                                    heap: Heap, n: nat)
    requires AllConfined(p, owns) && PrimOps(ops) && Whole(args, heap)
    requires Steps(p, ops, Start(p, fn, args, heap), n) != Fault
    ensures Apart(p, owns, Steps(p, ops, Start(p, fn, args, heap), n),
      After(p, ops, Start(p, fn, args, heap), Begin(args), n), Below(|heap|))
  {
    hide AllConfined, Apart, Step, Record, PrimOps, Start, Whole;
    var s := Start(p, fn, args, heap);
    if n == 0 {
      StartApart(p, owns, fn, args, heap);
    } else {
      FaultEarlier(p, ops, s, n - 1, n);
      RunApart(p, owns, ops, fn, args, heap, n - 1);
      StepApart(p, owns, ops, Steps(p, ops, s, n - 1), After(p, ops, s, Begin(args), n - 1), Below(|heap|));
    }
  }
}
