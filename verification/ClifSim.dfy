/** The translated blocks simulate the source over whole runs, recursive calls and aggregates
    included: the same branches are taken, the same values, variables and fields are read and written,
    the same result is returned, exactly as long as every instruction is sound. */
module ClifSim {
  import opened Wrappers
  import opened Clif
  import opened ClifTranslate
  import opened ClifCode
  import opened ClifStraight
  import opened Trails
  import opened Places
  import Sir

  /** Every function of `p` is translated to the end and `q` holds its translation. */
  ghost predicate Compiled(p: Sir.Program, q: Program) {
    && q.Keys == p.Keys
    && forall fn :: fn in p ==> Simulable(p.Keys, p[fn]) && q[fn] == TranslateFn(p.Keys, p[fn])
  }

  /** At the spot of `pc`, or already inside the block of the label found there. */
  ghost predicate Positioned(known: set<Sir.Symbol>, f: Sir.Function, pc: nat, b: BlockId, k: nat)
    requires pc <= |f.body|
  {
    || (b, k) == Spot(known, f, pc)
    || (pc < |f.body| && f.body[pc].Label? && (b, k) == (LabelBlock(Final(known, f), f.body[pc].id), 0))
  }

  ghost predicate MatchFrame(p: Sir.Program, a: Act, sf: Sir.Frame, cf: Frame, w: Where, heap: Heap) {
    && sf.fn in p && cf.fn == sf.fn
    && sf.pc <= |p[sf.fn].body|
    && Positioned(p.Keys, p[sf.fn], sf.pc, cf.block, cf.index)
    && MatchState(Final(p.Keys, p[sf.fn]), p[sf.fn], a, sf, cf, w, heap)
  }

  /** `w` says which block of the one heap stands for each aggregate of the other. */
  ghost predicate Match(p: Sir.Program, s: Sir.State, h: History, t: State, w: Where) {
    match s
    case Run(frames, heap) =>
      && t.Run? && Mirrored(h.lost, w, heap, t.heap, t.dead) && |t.frames| == |frames| && |h.acts| == |frames|
      && forall i :: 0 <= i < |frames| ==> MatchFrame(p, h.acts[i], frames[i], t.frames[i], w, t.heap)
    case Done(v, heap) => t.Done? && Stands(w, v, t.value) && Mirrored(h.lost, w, heap, t.heap, t.dead)
    case Fault => false
  }

  /** What the running activation does next is sound. */
  ghost predicate SoundState(p: Sir.Program, ops: Sir.Ops, s: Sir.State, h: History) {
    s.Run? && s.frames != [] && |h.acts| == |s.frames| && s.frames[0].fn in p ==>
      Sound(ops, p[s.frames[0].fn], h.acts[0], s.frames[0], s.heap, h.lost)
  }

  // --- Frames --------------------------------------------------------------

  /** A matched pair of running states whose next source step succeeds. */
  ghost predicate Active(p: Sir.Program, q: Program, ops: Sir.Ops, s: Sir.State, h: History, t: State, w: Where) {
    && Compiled(p, q) && Match(p, s, h, t, w) && s.Run? && s.frames != []
    && s.frames[0].fn in p && s.frames[0].pc < |p[s.frames[0].fn].body|
    && Sir.Blind(ops) && Sir.Step(p, ops, s) != Sir.Fault
  }

  function Next(p: Sir.Program, s: Sir.State): Sir.Insn
    requires s.Run? && s.frames != [] && s.frames[0].fn in p && s.frames[0].pc < |p[s.frames[0].fn].body|
  {
    p[s.frames[0].fn].body[s.frames[0].pc]
  }

  lemma ActiveFrame(p: Sir.Program, q: Program, ops: Sir.Ops, s: Sir.State, h: History, t: State, w: Where)
    requires Active(p, q, ops, s, h, t, w)
    ensures s.Run? && t.Run? && |t.frames| == |s.frames| == |h.acts| && s.frames != [] && Sir.Blind(ops)
    ensures Mirrored(h.lost, w, s.heap, t.heap, t.dead)
    ensures s.frames[0].fn in p && s.frames[0].pc < |p[s.frames[0].fn].body| && Sir.Step(p, ops, s) != Sir.Fault
    ensures MatchFrame(p, h.acts[0], s.frames[0], t.frames[0], w, t.heap) && t.frames[0].fn == s.frames[0].fn
    ensures s.frames[0].fn in q && Compiled(p, q) && Match(p, s, h, t, w)
  {
    hide MatchState, Positioned, Simulable, TranslateFn, Sir.Step, Mirrored, Sir.Blind;
  }

  lemma CompiledFn(p: Sir.Program, q: Program, fn: Sir.Symbol)
    requires Compiled(p, q) && fn in p
    ensures Simulable(p.Keys, p[fn]) && fn in q && q[fn] == TranslateFn(p.Keys, p[fn])
    ensures q[fn].params == |p[fn].params| && q[fn].slots == SlotsAt(p[fn].body, |p[fn].body|)
  {
    hide Simulable, SlotsAt, Finish, Translate;
    FinalSlots(p.Keys, p[fn]);
  }

  lemma FrameGrows(p: Sir.Program, a: Act, sf: Sir.Frame, cf: Frame, w: Where, w': Where, heap: Heap, heap': Heap)
    requires MatchFrame(p, a, sf, cf, w, heap) && w <= w' && SameSizes(heap, heap')
    ensures MatchFrame(p, a, sf, cf, w', heap')
  {
    hide MatchState, Positioned, SameSizes;
    StateGrows(Final(p.Keys, p[sf.fn]), p[sf.fn], a, sf, cf, w, w', heap, heap');
  }

  /** Replacing the running frames by a matching pair, while aggregates may be built, keeps the states
      matched, and only that. */
  lemma Reassemble(p: Sir.Program, s: Sir.State, h: History, t: State, w: Where, g: History, sf: Sir.Frame, heap: Heap,
                   cf: Frame, cheap: Heap, w': Where)
    requires s.Run? && s.frames != [] && Match(p, s, h, t, w) && w <= w' && SameSizes(t.heap, cheap) && g.acts != []
    ensures g.acts[1..] == h.acts[1..] ==>
      (Match(p, Sir.Run([sf] + s.frames[1..], heap), g, Run([cf] + t.frames[1..], cheap, t.dead), w') <==>
        MatchFrame(p, g.acts[0], sf, cf, w', cheap) && Mirrored(g.lost, w', heap, cheap, t.dead))
    ensures (g.acts[1..] == h.acts && MatchFrame(p, g.acts[0], sf, cf, w', cheap)
        && Mirrored(g.lost, w', heap, cheap, t.dead)) ==>
      Match(p, Sir.Run([sf] + s.frames, heap), g, Run([cf] + t.frames, cheap, t.dead), w')
  {
    hide MatchFrame, Mirrored, SameSizes;
    forall i | 0 <= i < |s.frames| ensures MatchFrame(p, h.acts[i], s.frames[i], t.frames[i], w', cheap) {
      FrameGrows(p, h.acts[i], s.frames[i], t.frames[i], w, w', t.heap, cheap);
    }
    if g.acts[1..] == h.acts[1..] {
      var u, v := Sir.Run([sf] + s.frames[1..], heap), Run([cf] + t.frames[1..], cheap, t.dead);
      forall i | 1 <= i < |s.frames| ensures MatchFrame(p, g.acts[i], u.frames[i], v.frames[i], w', cheap) {
        assert g.acts[1..][i - 1] == g.acts[i] && h.acts[1..][i - 1] == h.acts[i];
      }
      if Match(p, u, g, v, w') {
        assert MatchFrame(p, g.acts[0], u.frames[0], v.frames[0], w', cheap);
      }
    } else if g.acts[1..] == h.acts {
      var u, v := [sf] + s.frames, [cf] + t.frames;
      forall i | 1 <= i < |u| ensures MatchFrame(p, g.acts[i], u[i], v[i], w', cheap) {
        assert g.acts[1..][i - 1] == g.acts[i];
      }
    }
  }

  lemma SameSizesSelf(heap: Heap)
    ensures SameSizes(heap, heap)
  {
  }

  /** The same when nothing is built. */
  lemma Advances(p: Sir.Program, s: Sir.State, h: History, t: State, w: Where, a: Act, sf: Sir.Frame, cf: Frame)
    requires s.Run? && s.frames != [] && Match(p, s, h, t, w) && MatchFrame(p, a, sf, cf, w, t.heap)
    ensures t.Run? && Match(p, Sir.Run([sf] + s.frames[1..], s.heap), h.(acts := [a] + h.acts[1..]),
      Run([cf] + t.frames[1..], t.heap, t.dead), w)
    ensures Match(p, Sir.Run([sf] + s.frames, s.heap), h.(acts := [a] + h.acts),
      Run([cf] + t.frames, t.heap, t.dead), w)
  {
    hide MatchFrame, Mirrored;
    SameSizesSelf(t.heap);
    Reassemble(p, s, h, t, w, h.(acts := [a] + h.acts[1..]), sf, s.heap, cf, t.heap, w);
    Reassemble(p, s, h, t, w, h.(acts := [a] + h.acts), sf, s.heap, cf, t.heap, w);
  }

  lemma SpotPositions(known: set<Sir.Symbol>, f: Sir.Function, pc: nat)
    requires pc <= |f.body|
    ensures Positioned(known, f, pc, Spot(known, f, pc).0, Spot(known, f, pc).1)
  {
  }

  /** Anything but a label is found at its spot. */
  lemma AtSpot(p: Sir.Program, a: Act, sf: Sir.Frame, cf: Frame, w: Where, heap: Heap)
    requires MatchFrame(p, a, sf, cf, w, heap) && sf.pc < |p[sf.fn].body| && !p[sf.fn].body[sf.pc].Label?
    ensures (cf.block, cf.index) == Spot(p.Keys, p[sf.fn], sf.pc)
  {
    hide Spot, MatchState;
  }

  /** At its spot, a frame is about to execute the code of its instruction. */
  lemma Fetch(p: Sir.Program, q: Program, a: Act, sf: Sir.Frame, cf: Frame, w: Where, heap: Heap)
    requires Compiled(p, q) && MatchFrame(p, a, sf, cf, w, heap) && sf.pc < |p[sf.fn].body|
    requires (cf.block, cf.index) == Spot(p.Keys, p[sf.fn], sf.pc)
    ensures var code, blocks := CodeAt(p.Keys, p[sf.fn], sf.pc), q[sf.fn].blocks;
      && cf.block < |blocks| && StandsAt(blocks[cf.block], cf.index, code)
      && (|code| == 1 ==> cf.index < |blocks[cf.block]| && blocks[cf.block][cf.index] == code[0])
  {
    hide MatchState, Positioned, Simulable, TranslateFn, CodeAt, Spot;
    Located(p.Keys, p[sf.fn], sf.pc);
    var code, block := CodeAt(p.Keys, p[sf.fn], sf.pc), q[sf.fn].blocks[cf.block];
    if |code| == 1 {
      assert block[cf.index..cf.index + 1][0] == block[cf.index];
    }
  }

  lemma MatchedFn(p: Sir.Program, a: Act, sf: Sir.Frame, cf: Frame, w: Where, heap: Heap)
    requires MatchFrame(p, a, sf, cf, w, heap)
    ensures sf.fn in p && cf.fn == sf.fn && sf.pc <= |p[sf.fn].body|
    ensures MatchState(Final(p.Keys, p[sf.fn]), p[sf.fn], a, sf, cf, w, heap)
  {
  }

  /** Control moves and nothing else changes. */
  lemma Moves(p: Sir.Program, a: Act, ev: Event, sf: Sir.Frame, cf: Frame, w: Where, heap: Heap, pc: nat, b: BlockId,
              k: nat)
    requires MatchFrame(p, a, sf, cf, w, heap) && Quiet(p[sf.fn].body, ev)
    requires pc <= |p[sf.fn].body| && Positioned(p.Keys, p[sf.fn], pc, b, k)
    ensures MatchFrame(p, Extend(a, ev), sf.(pc := pc), cf.(block := b, index := k), w, heap)
  {
    hide Positioned, Final, MatchVals, MatchVars, MatchSlots, Cells, Newest, Built, SlotsAt;
    QuietNext(p[sf.fn], a, ev);
  }

  // --- Straight-line code --------------------------------------------------

  lemma PlainStays(ops: Sir.Ops, sizes: seq<nat>, dead: set<nat>, x: Inst, f: Frame, heap: Heap)
    ensures var out := Plain(ops, sizes, dead, x, f, heap);
      out.Some? ==> out.value.0.fn == f.fn && out.value.0.block == f.block && out.value.0.index == f.index
  {
  }

  lemma {:induction false} ExecuteStays(ops: Sir.Ops, sizes: seq<nat>, dead: set<nat>, code: seq<Inst>, f: Frame,
                                        heap: Heap)
    ensures var out := Execute(ops, sizes, dead, code, f, heap);
      out.Some? ==> out.value.0.fn == f.fn && out.value.0.block == f.block && out.value.0.index == f.index + |code|
    decreases |code|
  {
    hide Plain;
    if code != [] {
      PlainStays(ops, sizes, dead, code[0], f, heap);
      var out := Plain(ops, sizes, dead, code[0], f, heap);
      if out.Some? {
        ExecuteStays(ops, sizes, dead, code[1..], Advance(out.value.0), out.value.1);
      }
    }
  }

  lemma OrdinaryStep(q: Program, ops: Sir.Ops, t: State)
    requires t.Run? && t.frames != [] && t.frames[0].fn in q
    requires var cf := t.frames[0];
      cf.block < |q[cf.fn].blocks| && cf.index < |q[cf.fn].blocks[cf.block]|
        && Ordinary(q[cf.fn].blocks[cf.block][cf.index])
    ensures var cf := t.frames[0];
      var out := Plain(ops, q[cf.fn].slots, t.dead, q[cf.fn].blocks[cf.block][cf.index], cf, t.heap);
      Step(q, ops, t) ==
        match out case None => Stuck case Some((g, h)) => Run([g.(index := cf.index + 1)] + t.frames[1..], h, t.dead)
  {
    hide Plain;
  }

  /** Ordinary code that stands where the frame is takes one step an instruction. */
  lemma {:induction false} RunsCode(q: Program, ops: Sir.Ops, t: State, code: seq<Inst>)
    requires t.Run? && t.frames != [] && t.frames[0].fn in q
    requires t.frames[0].block < |q[t.frames[0].fn].blocks|
    requires StandsAt(q[t.frames[0].fn].blocks[t.frames[0].block], t.frames[0].index, code)
    requires forall k :: 0 <= k < |code| ==> Ordinary(code[k])
    ensures Steps(q, ops, t, |code|) ==
      match Execute(ops, q[t.frames[0].fn].slots, t.dead, code, t.frames[0], t.heap)
      case None => Stuck
      case Some((g, h)) => Run([g] + t.frames[1..], h, t.dead)
    decreases |code|
  {
    hide Plain, Step, Ordinary;
    var cf := t.frames[0];
    if code == [] {
      assert [cf] + t.frames[1..] == t.frames;
    } else {
      var block := q[cf.fn].blocks[cf.block];
      assert block[cf.index] == block[cf.index..cf.index + |code|][0] == code[0];
      OrdinaryStep(q, ops, t);
      OneStep(q, ops, t);
      StepsAdd(q, ops, t, 1, |code| - 1);
      PlainStays(ops, q[cf.fn].slots, t.dead, code[0], cf, t.heap);
      match Plain(ops, q[cf.fn].slots, t.dead, code[0], cf, t.heap)
      case None => StaysEnded(q, ops, Stuck, |code| - 1);
      case Some((g, h)) =>
        assert block[cf.index + 1..cf.index + |code|] == code[1..];
        RunsCode(q, ops, Run([Advance(g)] + t.frames[1..], h, t.dead), code[1..]);
    }
  }

  lemma OneStep(q: Program, ops: Sir.Ops, t: State)
    ensures Steps(q, ops, t, 0) == t && Steps(q, ops, t, 1) == Step(q, ops, t)
  {
    hide Step;
  }

  lemma StraightNotControl(i: Sir.Insn)
    ensures StraightLine(i) ==> !Sir.Control(i)
  {
  }

  /** At a proper position, frames match exactly when their states do. */
  lemma FrameIff(p: Sir.Program, a: Act, sf: Sir.Frame, cf: Frame, w: Where, heap: Heap, pc: nat)
    requires sf.fn in p && cf.fn == sf.fn && pc <= |p[sf.fn].body|
    requires Positioned(p.Keys, p[sf.fn], pc, cf.block, cf.index)
    ensures MatchFrame(p, a, sf.(pc := pc), cf, w, heap) <==>
      MatchState(Final(p.Keys, p[sf.fn]), p[sf.fn], a, sf, cf, w, heap)
  {
    hide Positioned, MatchVals, MatchVars, MatchSlots, Cells, Final, Newest, Built, SlotsAt;
  }

  lemma StraightSpot(p: Sir.Program, q: Program, a: Act, sf: Sir.Frame, cf: Frame, w: Where, heap: Heap)
    requires Compiled(p, q) && MatchFrame(p, a, sf, cf, w, heap) && sf.pc < |p[sf.fn].body|
    requires StraightLine(p[sf.fn].body[sf.pc])
    ensures Positioned(p.Keys, p[sf.fn], sf.pc + 1, cf.block, cf.index + |CodeAt(p.Keys, p[sf.fn], sf.pc)|)
  {
    hide MatchFrame, Positioned, CodeAt, Spot, TranslateFn, StandsAt, Compiled;
    MatchedFn(p, a, sf, cf, w, heap);
    CompiledFn(p, q, sf.fn);
    AtSpot(p, a, sf, cf, w, heap);
    Located(p.Keys, p[sf.fn], sf.pc);
    SpotPositions(p.Keys, p[sf.fn], sf.pc + 1);
  }

  /** The running activation on both sides. */
  function Top(s: Sir.State, h: History, t: State, w: Where): Both
    requires s.Run? && t.Run? && s.frames != [] && t.frames != [] && h.acts != []
  {
    Both(h.acts[0], s.frames[0], s.heap, h.lost, t.frames[0], t.heap, t.dead, w)
  }

  ghost predicate Continues(p: Sir.Program, c: Both, pc: nat) {
    MatchFrame(p, c.a, c.sf.(pc := pc), c.cf, c.w, c.cheap) && Mirrored(c.lost, c.w, c.heap, c.cheap, c.dead)
  }

  lemma StraightKeepsFn(ops: Sir.Ops, f: Sir.Function, sf: Sir.Frame, heap: Heap)
    requires sf.pc < |f.body| && Sir.Straight(ops, f.params, f.body[sf.pc], sf, heap).Some?
    ensures Sir.Straight(ops, f.params, f.body[sf.pc], sf, heap).value.0.fn == sf.fn
  {
  }

  /** The frames after a straight-line instruction match exactly if its code follows it. */
  lemma StraightFrames(p: Sir.Program, q: Program, ops: Sir.Ops, s: Sir.State, h: History, t: State, w: Where)
    requires Active(p, q, ops, s, h, t, w) && StraightLine(Next(p, s)) && t.Run? && t.frames != [] && h.acts != []
    requires Sir.Straight(ops, p[s.frames[0].fn].params, Next(p, s), s.frames[0], s.heap).Some?
    ensures var f, b := p[s.frames[0].fn], Top(s, h, t, w);
      var out := Effect(p.Keys, f, ops, b);
      && s.frames[0].fn in q && q[s.frames[0].fn].slots == SlotsAt(f.body, |f.body|)
      && (out.Some? ==> SameSizes(t.heap, out.value.1) && w <= Placing(f, b))
      && (SoundState(p, ops, s, h) <==> (out.Some? && Continues(p, Then(f, ops, b, out.value), b.sf.pc + 1)))
  {
    hide Active, MatchFrame, Positioned, CodeAt, Compiled, Sir.Straight, Execute, MatchState, SlotsAt, Happened;
    hide Mirrored;
    hide Simulable, Final, Extend, StraightLine, At, TranslateFn, SameSizes, Sir.Blind, Losing, Sound, Match;
    ActiveFrame(p, q, ops, s, h, t, w);
    var b, f := Top(s, h, t, w), p[s.frames[0].fn];
    MatchedFn(p, b.a, b.sf, b.cf, w, t.heap);
    CompiledFn(p, q, b.sf.fn);
    StraightSim(p.Keys, f, ops, b);
    StraightSpot(p, q, b.a, b.sf, b.cf, w, t.heap);
    StraightKeepsFn(ops, f, b.sf, s.heap);
    var out, code := Effect(p.Keys, f, ops, b), CodeAt(p.Keys, f, b.sf.pc);
    ExecuteStays(ops, SlotsAt(f.body, |f.body|), b.dead, code, b.cf, b.cheap);
    ExecuteSizes(ops, SlotsAt(f.body, |f.body|), b.dead, code, b.cf, b.cheap);
    if out.Some? {
      var c := Then(f, ops, b, out.value);
      FrameIff(p, c.a, c.sf, c.cf, c.w, c.cheap, b.sf.pc + 1);
    }
  }

  /** A straight-line instruction takes as many steps as it has code, and the states match after it if
      and only if it is sound. */
  lemma StraightStep(p: Sir.Program, q: Program, ops: Sir.Ops, s: Sir.State, h: History, t: State, w: Where)
    returns (k: nat, w': Where)
    requires Active(p, q, ops, s, h, t, w) && StraightLine(Next(p, s))
    ensures w <= w' && k == |CodeAt(p.Keys, p[s.frames[0].fn], s.frames[0].pc)|
    ensures Match(p, Sir.Step(p, ops, s), Record(p, s, h), Steps(q, ops, t, k), w') <==> SoundState(p, ops, s, h)
  {
    hide Active, Compiled, Match, MatchFrame, CodeAt, Spot, Ordinary, Step, Sir.Step, Sir.Straight, Execute, Sound;
    hide Record, Happened, StandsAt, Steps, Mirrored, SameSizes, SlotsAt, Rebuilt, Placing, SoundState;
    ActiveFrame(p, q, ops, s, h, t, w);
    var f, b := p[s.frames[0].fn], Top(s, h, t, w);
    AtSpot(p, b.a, b.sf, b.cf, w, t.heap);
    Fetch(p, q, b.a, b.sf, b.cf, w, t.heap);
    StraightNotControl(Next(p, s));
    InPlace(p, ops, s, h);
    StraightFrames(p, q, ops, s, h, t, w);
    CodeOrdinary(p.Keys, f, b.sf.pc);
    var code := CodeAt(p.Keys, f, b.sf.pc);
    RunsCode(q, ops, t, code);
    k, w' := |code|, w;
    var out := Effect(p.Keys, f, ops, b);
    if out.Some? {
      var c := Then(f, ops, b, out.value);
      w' := c.w;
      assert Record(p, s, h).acts[1..] == h.acts[1..];
      Reassemble(p, s, h, t, w, Record(p, s, h), c.sf.(pc := b.sf.pc + 1), c.heap, c.cf, c.cheap, w');
    } else {
      NotStuck(p, Sir.Step(p, ops, s), Record(p, s, h), w');
    }
  }

  lemma NotStuck(p: Sir.Program, s: Sir.State, h: History, w: Where)
    ensures !Match(p, s, h, Stuck, w)
  {
  }

  // --- Control -------------------------------------------------------------

  lemma HappenedQuiet(f: Sir.Function, sf: Sir.Frame, heap: Heap)
    requires sf.pc < |f.body| && (IsControl(f.body[sf.pc]) || f.body[sf.pc].Call?)
    ensures Quiet(f.body, Happened(f.body[sf.pc], sf, heap)) && Quiet(f.body, Event(sf.pc, None))
  {
  }

  /** A label's block is where a jump to it lands. */
  lemma LabelTarget(known: set<Sir.Symbol>, f: Sir.Function, id: Sir.LabelId)
    requires Sir.LabelIndex(f.body, id).Some?
    ensures Positioned(known, f, Sir.LabelIndex(f.body, id).value, LabelBlock(Final(known, f), id), 0)
  {
    hide Final, Spot, Sir.LabelIndex;
  }

  lemma JumpFrames(p: Sir.Program, a: Act, sf: Sir.Frame, cf: Frame, w: Where, cheap: Heap, heap: Heap, id: Sir.LabelId)
    requires MatchFrame(p, a, sf, cf, w, cheap) && sf.pc < |p[sf.fn].body| && IsControl(p[sf.fn].body[sf.pc])
    requires Sir.LabelIndex(p[sf.fn].body, id).Some?
    ensures MatchFrame(p, Extend(a, Happened(p[sf.fn].body[sf.pc], sf, heap)),
      sf.(pc := Sir.LabelIndex(p[sf.fn].body, id).value),
      cf.(block := LabelBlock(Final(p.Keys, p[sf.fn]), id), index := 0), w, cheap)
  {
    hide MatchFrame, Positioned, Final, Sir.LabelIndex, Quiet, Happened;
    MatchedFn(p, a, sf, cf, w, cheap);
    LabelTarget(p.Keys, p[sf.fn], id);
    HappenedQuiet(p[sf.fn], sf, heap);
    Moves(p, a, Happened(p[sf.fn].body[sf.pc], sf, heap), sf, cf, w, cheap, Sir.LabelIndex(p[sf.fn].body, id).value,
      LabelBlock(Final(p.Keys, p[sf.fn]), id), 0);
  }

  /** The block control falls into. */
  ghost function FallBlock(known: set<Sir.Symbol>, f: Sir.Function, i: nat): BlockId
    requires i < |f.body|
  {
    if f.body[i].Label? then LabelBlock(Final(known, f), f.body[i].id) else At(known, f, i + 1).current
  }

  /** Stepping over an instruction that ends a block without a jump. */
  lemma PassFrames(p: Sir.Program, q: Program, a: Act, sf: Sir.Frame, cf: Frame, w: Where, cheap: Heap, heap: Heap)
    requires Compiled(p, q) && MatchFrame(p, a, sf, cf, w, cheap) && sf.pc < |p[sf.fn].body|
    requires p[sf.fn].body[sf.pc].Label? || p[sf.fn].body[sf.pc].BranchIfNot?
    ensures MatchFrame(p, Extend(a, Happened(p[sf.fn].body[sf.pc], sf, heap)), sf.(pc := sf.pc + 1),
      cf.(block := FallBlock(p.Keys, p[sf.fn], sf.pc), index := 0), w, cheap)
  {
    hide Compiled, MatchFrame, Positioned, Final, Simulable, Spot, At, Quiet, Happened, TranslateFn, StandsAt, CodeAt;
    MatchedFn(p, a, sf, cf, w, cheap);
    CompiledFn(p, q, sf.fn);
    Located(p.Keys, p[sf.fn], sf.pc);
    SpotPositions(p.Keys, p[sf.fn], sf.pc + 1);
    HappenedQuiet(p[sf.fn], sf, heap);
    Moves(p, a, Happened(p[sf.fn].body[sf.pc], sf, heap), sf, cf, w, cheap, sf.pc + 1,
      FallBlock(p.Keys, p[sf.fn], sf.pc), 0);
  }

  lemma RecordControl(p: Sir.Program, ops: Sir.Ops, s: Sir.State, h: History)
    requires s.Run? && s.frames != [] && s.frames[0].fn in p && s.frames[0].pc < |p[s.frames[0].fn].body|
    requires |h.acts| == |s.frames|
    requires Next(p, s).Label? || Next(p, s).Jump? || Next(p, s).BranchIfNot?
    ensures Record(p, s, h) == h.(acts := [Extend(h.acts[0], Happened(Next(p, s), s.frames[0], s.heap))] + h.acts[1..])
    ensures SoundState(p, ops, s, h)
  {
    hide Happened, Cells;
  }

  lemma LabelSteps(p: Sir.Program, ops: Sir.Ops, s: Sir.State)
    requires s.Run? && s.frames != [] && s.frames[0].fn in p && s.frames[0].pc < |p[s.frames[0].fn].body|
    requires Next(p, s).Label?
    ensures Sir.Step(p, ops, s) == Sir.Run([s.frames[0].(pc := s.frames[0].pc + 1)] + s.frames[1..], s.heap)
  {
  }

  /** Reaching a label by falling through costs one jump; reaching it by a jump costs nothing. */
  lemma LabelStep(p: Sir.Program, q: Program, ops: Sir.Ops, s: Sir.State, h: History, t: State, w: Where)
    returns (k: nat)
    requires Active(p, q, ops, s, h, t, w) && Next(p, s).Label?
    ensures k <= 1 && Match(p, Sir.Step(p, ops, s), Record(p, s, h), Steps(q, ops, t, k), w)
    ensures k == 1 ==>
      (t.frames[0].block, t.frames[0].index) == Spot(p.Keys, p[s.frames[0].fn], s.frames[0].pc)
  {
    hide Active, Compiled, Match, MatchFrame, Spot, At, Final, Steps, LabelBlock, Sir.Step, Record, Happened;
    ActiveFrame(p, q, ops, s, h, t, w);
    var sf, cf := s.frames[0], t.frames[0];
    PassFrames(p, q, h.acts[0], sf, cf, w, t.heap, s.heap);
    RecordControl(p, ops, s, h);
    LabelSteps(p, ops, s);
    OneStep(q, ops, t);
    var b := FallBlock(p.Keys, p[sf.fn], sf.pc);
    Advances(p, s, h, t, w, Extend(h.acts[0], Happened(Next(p, s), sf, s.heap)), sf.(pc := sf.pc + 1),
      cf.(block := b, index := 0));
    if (cf.block, cf.index) == (b, 0) {
      k := 0;
      assert [cf.(block := b, index := 0)] + t.frames[1..] == t.frames;
    } else {
      k := 1;
      AtSpotOrLabel(p, h.acts[0], sf, cf, w, t.heap);
      Fetch(p, q, h.acts[0], sf, cf, w, t.heap);
    }
  }

  lemma AtSpotOrLabel(p: Sir.Program, a: Act, sf: Sir.Frame, cf: Frame, w: Where, heap: Heap)
    requires MatchFrame(p, a, sf, cf, w, heap) && sf.pc < |p[sf.fn].body| && p[sf.fn].body[sf.pc].Label?
    requires (cf.block, cf.index) != (LabelBlock(Final(p.Keys, p[sf.fn]), p[sf.fn].body[sf.pc].id), 0)
    ensures (cf.block, cf.index) == Spot(p.Keys, p[sf.fn], sf.pc)
  {
    hide Spot, MatchState;
  }

  lemma JumpStep(p: Sir.Program, q: Program, ops: Sir.Ops, s: Sir.State, h: History, t: State, w: Where)
    requires Active(p, q, ops, s, h, t, w) && Next(p, s).Jump?
    ensures Match(p, Sir.Step(p, ops, s), Record(p, s, h), Step(q, ops, t), w)
  {
    hide Active, Compiled, Match, MatchFrame, Spot, At, Final, LabelBlock, Sir.LabelIndex, Record, Happened;
    ActiveFrame(p, q, ops, s, h, t, w);
    RecordControl(p, ops, s, h);
    var sf, cf := s.frames[0], t.frames[0];
    AtSpot(p, h.acts[0], sf, cf, w, t.heap);
    Fetch(p, q, h.acts[0], sf, cf, w, t.heap);
    var id := p[sf.fn].body[sf.pc].target;
    JumpFrames(p, h.acts[0], sf, cf, w, t.heap, s.heap, id);
    Advances(p, s, h, t, w, Extend(h.acts[0], Happened(Next(p, s), sf, s.heap)),
      sf.(pc := Sir.LabelIndex(p[sf.fn].body, id).value),
      cf.(block := LabelBlock(Final(p.Keys, p[sf.fn]), id), index := 0));
  }

  lemma FrameVal(p: Sir.Program, a: Act, sf: Sir.Frame, cf: Frame, w: Where, heap: Heap, v: Sir.ValueId)
    requires MatchFrame(p, a, sf, cf, w, heap) && v in sf.vals
    ensures var x := ValueOf(Final(p.Keys, p[sf.fn]), v); x in cf.vals && Stands(w, sf.vals[v], cf.vals[x])
  {
    hide Final, Positioned, MatchVars, MatchSlots, Cells, SlotsAt;
  }

  lemma SameTruth(ops: Sir.Ops, w: Where, v: Val, c: Val)
    requires Sir.Blind(ops) && Stands(w, v, c)
    ensures ops.truthy(c) == ops.truthy(v)
  {
    assert Sir.Alike(v, c);
  }

  /** `brif` goes to the fall-through block when the condition holds, to the label's otherwise. */
  lemma BranchStep(p: Sir.Program, q: Program, ops: Sir.Ops, s: Sir.State, h: History, t: State, w: Where)
    requires Active(p, q, ops, s, h, t, w) && Next(p, s).BranchIfNot?
    ensures Match(p, Sir.Step(p, ops, s), Record(p, s, h), Step(q, ops, t), w)
  {
    hide Active, Compiled, Match, MatchFrame, Spot, At, Final, LabelBlock, ValueOf, Sir.LabelIndex, Record, Happened;
    hide FallBlock;
    ActiveFrame(p, q, ops, s, h, t, w);
    RecordControl(p, ops, s, h);
    var sf, cf := s.frames[0], t.frames[0];
    AtSpot(p, h.acts[0], sf, cf, w, t.heap);
    Fetch(p, q, h.acts[0], sf, cf, w, t.heap);
    var insn, a := p[sf.fn].body[sf.pc], Extend(h.acts[0], Happened(Next(p, s), sf, s.heap));
    FrameVal(p, h.acts[0], sf, cf, w, t.heap, insn.cond);
    SameTruth(ops, w, sf.vals[insn.cond], cf.vals[ValueOf(Final(p.Keys, p[sf.fn]), insn.cond)]);
    if ops.truthy(sf.vals[insn.cond]) {
      PassFrames(p, q, h.acts[0], sf, cf, w, t.heap, s.heap);
      FallsInto(p.Keys, p[sf.fn], sf.pc);
      Advances(p, s, h, t, w, a, sf.(pc := sf.pc + 1), cf.(block := FallBlock(p.Keys, p[sf.fn], sf.pc), index := 0));
    } else {
      JumpFrames(p, h.acts[0], sf, cf, w, t.heap, s.heap, insn.target);
      Advances(p, s, h, t, w, a, sf.(pc := Sir.LabelIndex(p[sf.fn].body, insn.target).value),
        cf.(block := LabelBlock(Final(p.Keys, p[sf.fn]), insn.target), index := 0));
    }
  }

  lemma FallsInto(known: set<Sir.Symbol>, f: Sir.Function, i: nat)
    requires i < |f.body| && f.body[i].BranchIfNot?
    ensures FallBlock(known, f, i) == At(known, f, i + 1).current
  {
  }

  // --- Calls ---------------------------------------------------------------

  lemma CallSpot(p: Sir.Program, q: Program, a: Act, sf: Sir.Frame, cf: Frame, w: Where, heap: Heap)
    requires Compiled(p, q) && MatchFrame(p, a, sf, cf, w, heap)
    requires sf.pc < |p[sf.fn].body| && p[sf.fn].body[sf.pc].Call?
    ensures var dst := ValueOf(Final(p.Keys, p[sf.fn]), p[sf.fn].body[sf.pc].dst);
      && cf.fn in q && cf.block < |q[cf.fn].blocks| && cf.index < |q[cf.fn].blocks[cf.block]|
      && q[cf.fn].blocks[cf.block][cf.index].CallFn? && q[cf.fn].blocks[cf.block][cf.index].v == dst
    ensures Positioned(p.Keys, p[sf.fn], sf.pc + 1, cf.block, cf.index + 1)
  {
    hide MatchFrame, Positioned, Spot, TranslateFn, StandsAt, Compiled, Final, At, ValueOf;
    MatchedFn(p, a, sf, cf, w, heap);
    CompiledFn(p, q, sf.fn);
    AtSpot(p, a, sf, cf, w, heap);
    Fetch(p, q, a, sf, cf, w, heap);
    Located(p.Keys, p[sf.fn], sf.pc);
    SpotPositions(p.Keys, p[sf.fn], sf.pc + 1);
  }

  /** A pending call's frame, once its result is stored, continues after the call. */
  lemma ResumeFrames(p: Sir.Program, q: Program, a: Act, sf: Sir.Frame, cf: Frame, w: Where, heap: Heap, v: Sir.Val,
                     c: Sir.Val)
    requires Compiled(p, q) && MatchFrame(p, a, sf, cf, w, heap) && Stands(w, v, c)
    requires sf.pc < |p[sf.fn].body| && p[sf.fn].body[sf.pc].Call?
    ensures var dst := ValueOf(Final(p.Keys, p[sf.fn]), p[sf.fn].body[sf.pc].dst);
      && cf.fn in q && cf.block < |q[cf.fn].blocks| && cf.index < |q[cf.fn].blocks[cf.block]|
      && q[cf.fn].blocks[cf.block][cf.index].CallFn? && q[cf.fn].blocks[cf.block][cf.index].v == dst
      && MatchFrame(p, Extend(a, Event(sf.pc, None)), Sir.SetVal(sf, p[sf.fn].body[sf.pc].dst, v).(pc := sf.pc + 1),
           SetVal(cf, dst, c).(index := cf.index + 1), w, heap)
  {
    hide MatchFrame, Positioned, Compiled, Final, MatchState, ValueOf, Simulable, Stands;
    MatchedFn(p, a, sf, cf, w, heap);
    CompiledFn(p, q, sf.fn);
    CallSpot(p, q, a, sf, cf, w, heap);
    var f := p[sf.fn];
    var dst := f.body[sf.pc].dst;
    WriteResult(p.Keys, f, a, sf, cf, w, heap, v, c);
    FrameIff(p, Extend(a, Event(sf.pc, None)), Sir.SetVal(sf, dst, v),
      SetVal(cf, ValueOf(Final(p.Keys, f), dst), c).(index := cf.index + 1), w, heap, sf.pc + 1);
  }

  /** Handing a return value to the caller's pending call. */
  lemma ResumeSim(p: Sir.Program, q: Program, s: Sir.State, h: History, t: State, w: Where, v: Sir.Val, c: Sir.Val)
    requires Compiled(p, q) && Match(p, s, h, t, w) && s.Run? && Stands(w, v, c)
    requires Sir.Resume(p, s.frames, v, s.heap) != Sir.Fault
    ensures t.Run?
    ensures var acts := if h.acts == [] then [] else [Extend(h.acts[0], Event(s.frames[0].pc, None))] + h.acts[1..];
      Match(p, Sir.Resume(p, s.frames, v, s.heap), h.(acts := acts), Resume(q, t.frames, c, t.heap, t.dead), w)
  {
    hide Compiled, MatchFrame, Final, ValueOf, Extend, Mirrored, Stands;
    if s.frames != [] {
      var sf, cf, a := s.frames[0], t.frames[0], h.acts[0];
      assert MatchFrame(p, a, sf, cf, w, t.heap);
      MatchedFn(p, a, sf, cf, w, t.heap);
      ResumeFrames(p, q, a, sf, cf, w, t.heap, v, c);
      var dst := ValueOf(Final(p.Keys, p[sf.fn]), p[sf.fn].body[sf.pc].dst);
      Advances(p, s, h, t, w, Extend(a, Event(sf.pc, None)),
        Sir.SetVal(sf, p[sf.fn].body[sf.pc].dst, v).(pc := sf.pc + 1), SetVal(cf, dst, c).(index := cf.index + 1));
    }
  }

  /** The callers stay matched when the slots of the returning activation go. */
  lemma Callers(p: Sir.Program, s: Sir.State, h: History, t: State, w: Where)
    requires s.Run? && s.frames != [] && Match(p, s, h, t, w)
    ensures t.Run? && t.frames != [] && h.acts != [] && s.frames[0].fn in p
    ensures var lost := h.lost.(dead := h.lost.dead + Built(p[s.frames[0].fn].body, h.acts[0].past));
      Match(p, Sir.Run(s.frames[1..], s.heap), History(h.acts[1..], lost),
        Run(t.frames[1..], t.heap, t.dead + t.frames[0].slots.Values), w)
  {
    hide MatchFrame, Mirrored, Built;
    assert MatchFrame(p, h.acts[0], s.frames[0], t.frames[0], w, t.heap);
    SlotsDie(p, h.acts[0], s.frames[0], t.frames[0], w, t.heap, h.lost, s.heap, t.dead);
  }

  /** The slots of an activation hold what it has built. */
  lemma SlotsDie(p: Sir.Program, a: Act, sf: Sir.Frame, cf: Frame, w: Where, cheap: Heap, lost: Lost, heap: Heap,
                 dead: set<nat>)
    requires MatchFrame(p, a, sf, cf, w, cheap) && Mirrored(lost, w, heap, cheap, dead)
    ensures sf.fn in p
    ensures Mirrored(lost.(dead := lost.dead + Built(p[sf.fn].body, a.past)), w, heap, cheap, dead + cf.slots.Values)
  {
    hide Positioned, MatchVals, MatchVars, Cells, Built, Newest, Housed, Kept;
    var body := p[sf.fn].body;
    NewestBuilt(body, a.past);
    SlotsAreBuilt(body, Newest(body, a.past), Built(body, a.past), w, cf.slots);
    ImageUnion(lost.dead, Built(body, a.past), w);
  }

  lemma {:induction false} NewestBuilt(body: seq<Sir.Insn>, past: seq<Event>)
    ensures forall i :: i in Newest(body, past) ==> Newest(body, past)[i] in Built(body, past)
  {
    if past != [] {
      var n := |past| - 1;
      NewestBuilt(body, past[..n]);
      assert forall e :: e in past[..n] ==> e in past;
      assert past[n] in past;
    }
  }

  function Image(x: set<nat>, w: Where): set<nat> {
    set y | y in x && y < |w| :: w[y]
  }

  lemma SlotsAreBuilt(body: seq<Sir.Insn>, newest: map<nat, nat>, built: set<nat>, w: Where, slots: map<nat, nat>)
    requires MatchSlots(body, newest, built, w, slots) && forall i :: i in newest ==> newest[i] in built
    ensures slots.Values == Image(built, w) && forall x :: x in built ==> x < |w|
  {
    hide SlotOf;
    forall b ensures b in slots.Values <==> b in Image(built, w) {
      if b in slots.Values {
        var k :| k in slots && slots[k] == b;
        var i :| i in newest && i <= |body| && SlotOf(body, i) == k;
        assert newest[i] in built && w[newest[i]] == b;
      }
    }
  }

  lemma ImageUnion(x: set<nat>, y: set<nat>, w: Where)
    ensures Image(x + y, w) == Image(x, w) + Image(y, w)
  {
  }

  lemma ReturnStep(p: Sir.Program, q: Program, ops: Sir.Ops, s: Sir.State, h: History, t: State, w: Where)
    requires Active(p, q, ops, s, h, t, w) && Next(p, s).Return?
    ensures Match(p, Sir.Step(p, ops, s), Record(p, s, h), Step(q, ops, t), w)
  {
    hide Active, Compiled, Match, MatchFrame, Spot, At, Final, ValueOf, Resume, Sir.Resume, Built, Extend, Mirrored;
    hide Stands;
    ActiveFrame(p, q, ops, s, h, t, w);
    var sf, cf := s.frames[0], t.frames[0];
    AtSpot(p, h.acts[0], sf, cf, w, t.heap);
    Fetch(p, q, h.acts[0], sf, cf, w, t.heap);
    var result := p[sf.fn].body[sf.pc].result;
    if result.Some? {
      FrameVal(p, h.acts[0], sf, cf, w, t.heap, result.value);
    }
    UnitStands(w);
    Callers(p, s, h, t, w);
    var lost := h.lost.(dead := h.lost.dead + Built(p[sf.fn].body, h.acts[0].past));
    var v := if result.Some? then sf.vals[result.value] else Sir.Unit;
    var c := if result.Some? then cf.vals[ValueOf(Final(p.Keys, p[sf.fn]), result.value)] else Sir.Unit;
    ResumeSim(p, q, Sir.Run(s.frames[1..], s.heap), History(h.acts[1..], lost),
      Run(t.frames[1..], t.heap, t.dead + cf.slots.Values), w, v, c);
    if |h.acts| > 1 {
      assert h.acts[1..][0] == h.acts[1] && h.acts[1..][1..] == h.acts[2..] && s.frames[1..][0] == s.frames[1];
    }
  }

  lemma UnitStands(w: Where)
    ensures Stands(w, Sir.Unit, Sir.Unit)
  {
  }

  lemma EntrySpot(known: set<Sir.Symbol>, f: Sir.Function)
    requires Sir.UniqueLabels(f.body)
    ensures Spot(known, f, 0) == (0, 0)
  {
    hide StartCtx, Preallocate;
    PreparedShape(f, |f.body|);
  }

  lemma EnterFrames(p: Sir.Program, q: Program, fn: Sir.Symbol, args: seq<Sir.Val>, cargs: seq<Sir.Val>, w: Where,
                    heap: Heap)
    requires Compiled(p, q) && fn in p && |args| == |p[fn].params| && AllStand(w, args, cargs)
    ensures MatchFrame(p, Act(args, []), Sir.Enter(fn, p[fn].params, args), Enter(fn, cargs), w, heap)
  {
    hide Final, Spot, Compiled, Sir.SingleDefs, AllReady, TranslateFn, SlotsAt;
    CompiledFn(p, q, fn);
    EntrySpot(p.Keys, p[fn]);
    assert Built(p[fn].body, []) == {};
  }

  lemma FrameVals(p: Sir.Program, a: Act, sf: Sir.Frame, cf: Frame, w: Where, heap: Heap, ids: seq<Sir.ValueId>)
    requires MatchFrame(p, a, sf, cf, w, heap) && Sir.Operands(sf.vals, ids).Some?
    ensures var cs := Sir.Operands(cf.vals, ValuesOf(Final(p.Keys, p[sf.fn]), ids));
      cs.Some? && AllStand(w, Sir.Operands(sf.vals, ids).value, cs.value)
  {
    hide Final, MatchFrame, ValueOf, Stands;
    MatchedFn(p, a, sf, cf, w, heap);
    hide MatchState;
    var e := Final(p.Keys, p[sf.fn]);
    forall i | 0 <= i < |ids|
      ensures ValuesOf(e, ids)[i] in cf.vals && Stands(w, sf.vals[ids[i]], cf.vals[ValuesOf(e, ids)[i]])
    {
      assert ids[i] in sf.vals;
      FrameVal(p, a, sf, cf, w, heap, ids[i]);
    }
  }

  /** The call on the side of the blocks. */
  lemma BlocksCall(q: Program, ops: Sir.Ops, t: State, v: Value, fn: Sir.Symbol, args: seq<Value>, vs: seq<Sir.Val>)
    requires t.Run? && t.frames != [] && t.frames[0].fn in q && fn in q && q[fn].params == |args| == |vs|
    requires var cf := t.frames[0];
      && cf.block < |q[cf.fn].blocks| && cf.index < |q[cf.fn].blocks[cf.block]|
      && q[cf.fn].blocks[cf.block][cf.index] == CallFn(v, fn, args) && Sir.Operands(cf.vals, args) == Some(vs)
    ensures Step(q, ops, t) == Run([Enter(fn, vs)] + t.frames, t.heap, t.dead)
  {
    hide Enter, Sir.Operands, Plain;
    assert [Enter(fn, vs), t.frames[0]] + t.frames[1..] == [Enter(fn, vs)] + t.frames;
  }

  lemma SourceCall(p: Sir.Program, ops: Sir.Ops, s: Sir.State)
    requires s.Run? && s.frames != [] && s.frames[0].fn in p && s.frames[0].pc < |p[s.frames[0].fn].body|
    requires Next(p, s).Call?
    requires Sir.Step(p, ops, s) != Sir.Fault
    ensures var insn := Next(p, s);
      var vs := Sir.Operands(s.frames[0].vals, insn.args);
      && vs.Some? && |vs.value| == |insn.args| && insn.name in p && |p[insn.name].params| == |vs.value|
      && Sir.Step(p, ops, s) == Sir.Run([Sir.Enter(insn.name, p[insn.name].params, vs.value)] + s.frames, s.heap)
  {
    hide Sir.Enter, Sir.Straight;
    var insn := Next(p, s);
    var g := Sir.Enter(insn.name, p[insn.name].params, Sir.Operands(s.frames[0].vals, insn.args).value);
    assert [g, s.frames[0]] + s.frames[1..] == [g] + s.frames;
  }

  /** The call itself: a frame for the callee is pushed on both sides. */
  lemma CallPushes(p: Sir.Program, q: Program, ops: Sir.Ops, s: Sir.State, h: History, t: State, w: Where)
    returns (vs: seq<Sir.Val>, cs: seq<Sir.Val>)
    requires Active(p, q, ops, s, h, t, w) && Next(p, s).Call?
    ensures var insn := Next(p, s);
      && t.Run? && Sir.Operands(s.frames[0].vals, insn.args) == Some(vs)
      && insn.name in p && |p[insn.name].params| == |vs| && AllStand(w, vs, cs)
      && Step(q, ops, t) == Run([Enter(insn.name, cs)] + t.frames, t.heap, t.dead)
      && Sir.Step(p, ops, s) == Sir.Run([Sir.Enter(insn.name, p[insn.name].params, vs)] + s.frames, s.heap)
  {
    hide Active, Compiled, Match, MatchFrame, Spot, At, Final, ValueOf, Sir.Enter, Enter, StandsAt, Step, Sir.Step;
    hide Sir.Operands, Simulable, TranslateFn, SlotsAt, Stands, Mirrored;
    ActiveFrame(p, q, ops, s, h, t, w);
    var sf, cf := s.frames[0], t.frames[0];
    AtSpot(p, h.acts[0], sf, cf, w, t.heap);
    Fetch(p, q, h.acts[0], sf, cf, w, t.heap);
    SourceCall(p, ops, s);
    var insn := p[sf.fn].body[sf.pc];
    FrameVals(p, h.acts[0], sf, cf, w, t.heap, insn.args);
    CompiledFn(p, q, insn.name);
    var e := Final(p.Keys, p[sf.fn]);
    vs, cs := Sir.Operands(sf.vals, insn.args).value, Sir.Operands(cf.vals, ValuesOf(e, insn.args)).value;
    BlocksCall(q, ops, t, ValueOf(e, insn.dst), insn.name, ValuesOf(e, insn.args), cs);
  }

  lemma CallStep(p: Sir.Program, q: Program, ops: Sir.Ops, s: Sir.State, h: History, t: State, w: Where)
    requires Active(p, q, ops, s, h, t, w) && Next(p, s).Call?
    ensures Match(p, Sir.Step(p, ops, s), Record(p, s, h), Step(q, ops, t), w)
  {
    hide Active, Compiled, Match, MatchFrame, Sir.Operands, Sir.Enter, Enter, Step, Sir.Step, AllStand, Mirrored;
    ActiveFrame(p, q, ops, s, h, t, w);
    var insn := Next(p, s);
    var vs, cs := CallPushes(p, q, ops, s, h, t, w);
    EnterFrames(p, q, insn.name, vs, cs, w, t.heap);
    Advances(p, s, h, t, w, Act(vs, []), Sir.Enter(insn.name, p[insn.name].params, vs), Enter(insn.name, cs));
  }

  // --- One step ------------------------------------------------------------

  function TopPc(s: Sir.State): nat {
    if s.Run? && s.frames != [] then s.frames[0].pc else 0
  }

  /** A step with no counterpart moves on to the next instruction. */
  lemma SilentStep(p: Sir.Program, ops: Sir.Ops, s: Sir.State)
    requires s.Run? && s.frames != [] && s.frames[0].fn in p && s.frames[0].pc < |p[s.frames[0].fn].body|
    requires StraightLine(Next(p, s)) || Next(p, s).Label?
    requires Sir.Step(p, ops, s) != Sir.Fault
    ensures TopPc(Sir.Step(p, ops, s)) == TopPc(s) + 1
  {
  }

  lemma InFragment(known: set<Sir.Symbol>, f: Sir.Function, i: nat)
    requires Simulable(known, f) && i < |f.body|
    ensures !f.body[i].Other? && !f.body[i].ArrayPush?
  {
    hide Sir.SingleDefs, Sir.UniqueLabels;
  }

  lemma IsActive(p: Sir.Program, q: Program, ops: Sir.Ops, s: Sir.State, h: History, t: State, w: Where)
    requires Compiled(p, q) && Match(p, s, h, t, w) && s.Run? && Sir.Blind(ops) && Sir.Step(p, ops, s) != Sir.Fault
    ensures Active(p, q, ops, s, h, t, w)
    ensures !Next(p, s).Other? && !Next(p, s).ArrayPush?
    ensures IsControl(Next(p, s)) || Next(p, s).Call? ==> SoundState(p, ops, s, h)
  {
    hide Match, Simulable, TranslateFn, Sir.Straight, Cells;
    InFragment(p.Keys, p[s.frames[0].fn], s.frames[0].pc);
  }

  /** One source step is matched by the code of its instruction if and only if it is sound. An aggregate
      it builds is added to those that have a block. */
  lemma SimulateStep(p: Sir.Program, q: Program, ops: Sir.Ops, s: Sir.State, h: History, t: State, w: Where)
    returns (k: nat, w': Where)
    requires Compiled(p, q) && Match(p, s, h, t, w) && Sir.Blind(ops) && Sir.Step(p, ops, s) != Sir.Fault
    ensures w <= w'
    ensures Match(p, Sir.Step(p, ops, s), Record(p, s, h), Steps(q, ops, t, k), w') <==> SoundState(p, ops, s, h)
    ensures k == 0 ==> TopPc(Sir.Step(p, ops, s)) == TopPc(s) + 1
  {
    hide Compiled, Match, Active, Sir.Step, Step, Steps, TopPc, SoundState, Record, Sir.Blind;
    OneStep(q, ops, t);
    k, w' := 1, w;
    if s.Run? {
      IsActive(p, q, ops, s, h, t, w);
      ActiveFrame(p, q, ops, s, h, t, w);
      match Next(p, s)
      case Jump(_) => JumpStep(p, q, ops, s, h, t, w);
      case BranchIfNot(_, _) => BranchStep(p, q, ops, s, h, t, w);
      case Return(_) => ReturnStep(p, q, ops, s, h, t, w);
      case Call(_, _, _) => CallStep(p, q, ops, s, h, t, w);
      case Label(_) =>
        k := LabelStep(p, q, ops, s, h, t, w);
        SilentStep(p, ops, s);
      case _ =>
        k, w' := StraightStep(p, q, ops, s, h, t, w);
        SilentStep(p, ops, s);
    } else {
      EndedStep(p, q, ops, s, h, t, w);
    }
  }

  lemma EndedStep(p: Sir.Program, q: Program, ops: Sir.Ops, s: Sir.State, h: History, t: State, w: Where)
    requires Match(p, s, h, t, w) && !s.Run?
    ensures Match(p, Sir.Step(p, ops, s), Record(p, s, h), Step(q, ops, t), w) && SoundState(p, ops, s, h)
  {
    hide Mirrored, Stands;
  }

  // --- Whole runs ----------------------------------------------------------

  /** How far the source can get while the blocks take `m` steps, if no body is longer than `b`. */
  function Budget(b: nat, m: nat): nat {
    (b + 1) * m
  }

  ghost predicate Bounded(p: Sir.Program, b: nat) {
    forall fn :: fn in p ==> |p[fn].body| <= b
  }

  lemma BoundExists(p: Sir.Program, names: set<Sir.Symbol>) returns (b: nat)
    requires names <= p.Keys
    ensures forall fn :: fn in names ==> |p[fn].body| <= b
  {
    if names == {} {
      b := 0;
    } else {
      var fn :| fn in names;
      b := BoundExists(p, names - {fn});
      b := b + |p[fn].body|;
    }
  }

  lemma TopInBody(p: Sir.Program, ops: Sir.Ops, s: Sir.State, b: nat)
    requires Bounded(p, b) && Sir.Step(p, ops, s) != Sir.Fault
    ensures TopPc(s) <= b
  {
    if s.Run? {
      assert s.frames[0].fn in p;
    }
  }

  /** Every run that does not fault and stays sound is followed, state by state, by the blocks, which
      fall behind by at most the silent instructions of one body per step. */
  lemma {:induction false} SimulateRun(p: Sir.Program, q: Program, ops: Sir.Ops, s: Sir.State, h: History, t: State,
                                       w: Where, b: nat, n: nat)
    returns (m: nat, w': Where)
    requires Compiled(p, q) && Match(p, s, h, t, w) && Bounded(p, b) && Sir.Blind(ops)
    requires Sir.Steps(p, ops, s, n) != Sir.Fault
    requires forall k: nat :: k < n ==> SoundState(p, ops, Sir.Steps(p, ops, s, k), After(p, ops, s, h, k))
    ensures w <= w' && n <= Budget(b, m) + TopPc(Sir.Steps(p, ops, s, n))
    ensures Match(p, Sir.Steps(p, ops, s, n), After(p, ops, s, h, n), Steps(q, ops, t, m), w')
  {
    hide Compiled, Match, TopPc, Bounded, Sir.Step, Step, SoundState, Record, Budget, Sir.Blind;
    if n == 0 {
      m, w' := 0, w;
      BudgetMono(b, 0, 0);
    } else {
      var before := Sir.Steps(p, ops, s, n - 1);
      Sir.FaultStays(p, ops, before);
      m, w' := SimulateRun(p, q, ops, s, h, t, w, b, n - 1);
      var k, u := SimulateStep(p, q, ops, before, After(p, ops, s, h, n - 1), Steps(q, ops, t, m), w');
      StepsAdd(q, ops, t, m, k);
      TopInBody(p, ops, before, b);
      BudgetNext(b, m, k);
      m, w' := m + k, u;
    }
  }

  lemma BudgetNext(b: nat, m: nat, k: nat)
    ensures k > 0 ==> Budget(b, m + k) >= Budget(b, m) + b + 1
  {
    if k > 0 {
      assert (b + 1) * (m + k) == (b + 1) * m + (b + 1) * k;
      assert (b + 1) * k >= b + 1;
    }
  }

  lemma StartMatches(p: Sir.Program, q: Program, fn: Sir.Symbol, args: seq<Sir.Val>, heap: Heap)
    requires Compiled(p, q) && Sir.Start(p, fn, args, heap) != Sir.Fault && Sir.Whole(args, heap)
    ensures Match(p, Sir.Start(p, fn, args, heap), Begin(args), Start(q, fn, args, heap), Identity(|heap|))
  {
    hide MatchFrame, Compiled, Enter, Sir.Enter, Sir.Whole, Mirrored, AllStand, Identity;
    CompiledFn(p, q, fn);
    StartsMirrored(args, heap);
    EnterFrames(p, q, fn, args, args, Identity(|heap|), heap);
  }

  /** Every step of the run is sound. */
  ghost predicate SoundRun(p: Sir.Program, ops: Sir.Ops, fn: Sir.Symbol, args: seq<Sir.Val>, heap: Heap) {
    var s := Sir.Start(p, fn, args, heap);
    forall k: nat :: Sir.Steps(p, ops, s, k) != Sir.Fault ==>
      SoundState(p, ops, Sir.Steps(p, ops, s, k), After(p, ops, s, Begin(args), k))
  }

  /** The blocks have ended like the source: with the same value, and with the same in every aggregate
      whose place was not taken by a later one. Those that there were before the run are where they
      were. */
  ghost predicate EndsLike(end: Sir.State, lost: Lost, t: State, w: Where, n: nat) {
    && end.Done? && t.Done? && Stands(w, end.value, t.value)
    && Mirrored(lost, w, end.heap, t.heap, t.dead) && Identity(n) <= w
  }

  /** Whatever the source returns, the blocks return. */
  lemma Forward(p: Sir.Program, q: Program, ops: Sir.Ops, fn: Sir.Symbol, args: seq<Sir.Val>, heap: Heap, n: nat)
    returns (m: nat, w: Where)
    requires Compiled(p, q) && Sir.Blind(ops) && Sir.Whole(args, heap)
    requires Sir.Start(p, fn, args, heap) != Sir.Fault && SoundRun(p, ops, fn, args, heap)
    requires Sir.Steps(p, ops, Sir.Start(p, fn, args, heap), n).Done?
    ensures EndsLike(Sir.Steps(p, ops, Sir.Start(p, fn, args, heap), n),
      After(p, ops, Sir.Start(p, fn, args, heap), Begin(args), n).lost,
      Steps(q, ops, Start(q, fn, args, heap), m), w, |heap|)
  {
    hide Compiled, MatchFrame, Sir.Start, Start, Sir.Step, Step, SoundState, Mirrored, Stands, Sir.Blind, Sir.Whole;
    hide Identity;
    StartMatches(p, q, fn, args, heap);
    var b := BoundExists(p, p.Keys);
    forall k: nat | k < n ensures Sir.Steps(p, ops, Sir.Start(p, fn, args, heap), k) != Sir.Fault {
      Sir.FaultEarlier(p, ops, Sir.Start(p, fn, args, heap), k, n);
    }
    m, w := SimulateRun(p, q, ops, Sir.Start(p, fn, args, heap), Begin(args), Start(q, fn, args, heap),
      Identity(|heap|), b, n);
  }

  /** Conversely, if the source never faults, the blocks never get stuck or exit, and when they end the
      source has ended alike. */
  lemma Backward(p: Sir.Program, q: Program, ops: Sir.Ops, fn: Sir.Symbol, args: seq<Sir.Val>, heap: Heap, m: nat)
    returns (n: nat, w: Where)
    requires Compiled(p, q) && SoundRun(p, ops, fn, args, heap) && Sir.Blind(ops) && Sir.Whole(args, heap)
    requires forall n: nat :: Sir.Steps(p, ops, Sir.Start(p, fn, args, heap), n) != Sir.Fault
    ensures var end := Steps(q, ops, Start(q, fn, args, heap), m);
      && (end.Run? || end.Done?)
      && (end.Done? ==>
        EndsLike(Sir.Steps(p, ops, Sir.Start(p, fn, args, heap), n),
          After(p, ops, Sir.Start(p, fn, args, heap), Begin(args), n).lost, end, w, |heap|))
  {
    hide Compiled, MatchFrame, Sir.Start, Start, Step, Sir.Step, Bounded, SoundState, Budget, TopPc, Record, Mirrored;
    hide Stands, Sir.Blind, Sir.Whole, Identity;
    var s, t := Sir.Start(p, fn, args, heap), Start(q, fn, args, heap);
    assert Sir.Steps(p, ops, s, 0) == s;
    StartMatches(p, q, fn, args, heap);
    var b := BoundExists(p, p.Keys);
    KeysBounded(p, b);
    n := Budget(b, m) + b + 1;
    var later;
    later, w := SimulateRun(p, q, ops, s, Begin(args), t, Identity(|heap|), b, n);
    assert m <= later by {
      BehindAtMost(p, ops, s, b, n);
      BudgetMono(b, m, later);
    }
    StepsAdd(q, ops, t, m, later - m);
    var end := Steps(q, ops, t, m);
    if !end.Run? {
      StaysEnded(q, ops, end, later - m);
    }
  }

  lemma KeysBounded(p: Sir.Program, b: nat)
    requires forall fn :: fn in p.Keys ==> |p[fn].body| <= b
    ensures Bounded(p, b)
  {
  }

  lemma BehindAtMost(p: Sir.Program, ops: Sir.Ops, s: Sir.State, b: nat, n: nat)
    requires Bounded(p, b) && Sir.Steps(p, ops, s, n + 1) != Sir.Fault
    ensures TopPc(Sir.Steps(p, ops, s, n)) <= b
  {
    TopInBody(p, ops, Sir.Steps(p, ops, s, n), b);
  }

  lemma BudgetMono(b: nat, m: nat, k: nat)
    ensures Budget(b, m) < Budget(b, k) + 1 ==> m <= k
    ensures Budget(b, 0) == 0
  {
    if k < m {
      assert (b + 1) * m >= (b + 1) * (k + 1);
    }
  }
}
