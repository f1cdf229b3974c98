/** What every activation of a source run has done so far: the arguments it was given and the
    instructions it has executed. The backends keep some of it in places of their own, so their
    conditions are about it. */
module Trails {
  import opened Wrappers
  import opened Sir

  /** An executed instruction with the value it gave its local, if it is a store or an initialised
      declaration, or the aggregate it built. */
  datatype Event = Event(pc: nat, given: Option<Val>)

  datatype Act = Act(args: seq<Val>, past: seq<Event>)

  /** What is no longer where it was built: `dead` holds the aggregates of returned activations, and
      `later[x]` is the last aggregate that the instruction which built `x` has built since then, in the
      same activation. */
  datatype Lost = Lost(dead: set<nat>, later: map<nat, nat>)

  /** `acts[i]` belongs to frame `i`. */
  datatype History = History(acts: seq<Act>, lost: Lost)

  function Given(i: Insn, f: Frame, heap: Heap): Option<Val> {
    match i
    case Store(_, v) => Lookup(f.vals, v)
    case VarDef(_, init) => if init.Some? then Lookup(f.vals, init.value) else None
    case Construct(_, _, _) => Some(Ref(|heap|))
    case _ => None
  }

  function Happened(i: Insn, f: Frame, heap: Heap): Event {
    Event(f.pc, Given(i, f, heap))
  }

  /** The aggregates an activation has built. */
  function Built(body: seq<Insn>, past: seq<Event>): set<nat> {
    set e | e in past && e.pc < |body| && body[e.pc].Construct? && e.given.Some? && e.given.value.Ref?
      :: e.given.value.addr
  }

  /** The last aggregate each instruction has built in an activation. */
  function Newest(body: seq<Insn>, past: seq<Event>): map<nat, nat> {
    if past == [] then map[]
    else
      var front, e := Newest(body, past[..|past| - 1]), past[|past| - 1];
      if e.pc < |body| && body[e.pc].Construct? && e.given.Some? && e.given.value.Ref?
      then front[e.pc := e.given.value.addr]
      else front
  }

  /** The aggregate found today where `x` was built. */
  function Held(later: map<nat, nat>, x: nat): nat {
    if x in later then later[x] else x
  }

  /** Aggregate `y` takes the place of `x`. */
  function Replaced(later: map<nat, nat>, x: nat, y: nat): map<nat, nat> {
    var r := Held(later, x);
    (map z | z in later :: if later[z] == r then y else later[z])[r := y]
  }

  /** What is lost once the instruction at `pc` has built aggregate `y`. */
  function Rebuilt(lost: Lost, body: seq<Insn>, a: Act, pc: nat, y: nat): Lost {
    var newest := Newest(body, a.past);
    if pc in newest then lost.(later := Replaced(lost.later, newest[pc], y)) else lost
  }

  /** The last value stored to each local, parameters included. */
  function Stores(body: seq<Insn>, past: seq<Event>): map<Symbol, Val> {
    if past == [] then map[]
    else
      var front, e := Stores(body, past[..|past| - 1]), past[|past| - 1];
      if e.pc < |body| && body[e.pc].Store? && e.given.Some? then front[body[e.pc].name := e.given.value] else front
  }

  function Extend(a: Act, e: Event): Act {
    a.(past := a.past + [e])
  }

  /** The history after the step that `s` is about to take. */
  function Record(p: Program, s: State, h: History): History {
    if !s.Run? || s.frames == [] || |h.acts| != |s.frames| || s.frames[0].fn !in p
      || s.frames[0].pc >= |p[s.frames[0].fn].body| then h
    else
      var f, a := s.frames[0], h.acts[0];
      var body := p[f.fn].body;
      match body[f.pc]
      case Call(_, _, args) =>
        var vs := Operands(f.vals, args);
        if vs.Some? then h.(acts := [Act(vs.value, [])] + h.acts) else h
      case Return(_) =>
        History(if |h.acts| == 1 then [] else [Extend(h.acts[1], Event(s.frames[1].pc, None))] + h.acts[2..],
          h.lost.(dead := h.lost.dead + Built(body, a.past)))
      case Construct(_, _, _) =>
        History([Extend(a, Happened(body[f.pc], f, s.heap))] + h.acts[1..], Rebuilt(h.lost, body, a, f.pc, |s.heap|))
      case i => h.(acts := [Extend(a, Happened(i, f, s.heap))] + h.acts[1..])
  }

  function Begin(args: seq<Val>): History {
    History([Act(args, [])], Lost({}, map[]))
  }

  /** The history after `n` steps from `s`. */
  function After(p: Program, ops: Ops, s: State, h: History, n: nat): History {
    if n == 0 then h else Record(p, Steps(p, ops, s, n - 1), After(p, ops, s, h, n - 1))
  }

  // --- Paths from the entry ------------------------------------------------

  /** A way control can go from the first instruction. */
  ghost predicate EntryPath(body: seq<Insn>, q: seq<nat>) {
    && q != [] && q[0] == 0
    && forall k :: 0 <= k < |q| - 1 ==> q[k] < |body| && Successor(body, q[k], q[k + 1])
  }

  /** The instructions executed, then the next one. */
  function Route(past: seq<Event>, pc: nat): (q: seq<nat>)
    ensures |q| == |past| + 1 && q[|past|] == pc && forall k :: 0 <= k < |past| ==> q[k] == past[k].pc
  {
    seq(|past|, k requires 0 <= k < |past| => past[k].pc) + [pc]
  }

  /** The activation went from the entry to where it is, was given an argument for each parameter,
      and its locals hold the last values stored, else its arguments. */
  ghost predicate Tracks(f: Function, a: Act, sf: Frame) {
    && EntryPath(f.body, Route(a.past, sf.pc))
    && |a.args| == |f.params|
    && sf.locals == BindParams(f.params, a.args) + Stores(f.body, a.past)
    && forall k :: 0 <= k < |a.past| ==> Gives(f.body, a.past[k])
  }

  /** Stores, initialised declarations and constructions give a value, nothing else does. */
  predicate Gives(body: seq<Insn>, e: Event) {
    e.pc < |body| && match body[e.pc]
      case Store(_, _) => e.given.Some?
      case VarDef(_, init) => e.given.Some? <==> init.Some?
      case Construct(_, _, _) => e.given.Some? && e.given.value.Ref?
      case _ => e.given.None?
  }

  ghost predicate Tracked(p: Program, s: State, h: History) {
    s.Run? ==> |h.acts| == |s.frames| && forall i :: 0 <= i < |s.frames| ==> FrameTracked(p, h.acts[i], s.frames[i])
  }

  ghost predicate FrameTracked(p: Program, a: Act, sf: Frame) {
    sf.fn in p && Tracks(p[sf.fn], a, sf)
  }

  lemma ExtendTracks(f: Function, a: Act, e: Event, sf: Frame, sf': Frame)
    requires Tracks(f, a, sf) && e.pc == sf.pc < |f.body| && Successor(f.body, sf.pc, sf'.pc)
    requires Gives(f.body, e)
    requires sf'.locals == if f.body[sf.pc].Store? then sf.locals[f.body[sf.pc].name := e.given.value] else sf.locals
    ensures Tracks(f, Extend(a, e), sf')
  {
    hide Successor;
    var past := a.past + [e];
    var q, r := Route(a.past, sf.pc), Route(past, sf'.pc);
    forall k | 0 <= k < |r| - 1 ensures r[k] < |f.body| && Successor(f.body, r[k], r[k + 1]) {
      assert r[k] == q[k];
      if k < |q| - 1 {
        assert r[k + 1] == q[k + 1];
      }
    }
    assert past[..|past| - 1] == a.past;
    assert forall k :: 0 <= k < |past| ==> past[k] == if k < |a.past| then a.past[k] else e;
  }

  /** A step over a straight-line instruction, and what is recorded of it. */
  lemma InPlace(p: Program, ops: Ops, s: State, h: History)
    requires s.Run? && s.frames != [] && s.frames[0].fn in p && s.frames[0].pc < |p[s.frames[0].fn].body|
    requires |h.acts| == |s.frames|
    requires !Control(p[s.frames[0].fn].body[s.frames[0].pc]) && Step(p, ops, s) != Fault
    ensures var sf := s.frames[0];
      var i := p[sf.fn].body[sf.pc];
      var out := Straight(ops, p[sf.fn].params, i, sf, s.heap);
      && out.Some? && Step(p, ops, s) == Run([out.value.0.(pc := sf.pc + 1)] + s.frames[1..], out.value.1)
      && Record(p, s, h) == History([Extend(h.acts[0], Happened(i, sf, s.heap))] + h.acts[1..],
        if i.Construct? then Rebuilt(h.lost, p[sf.fn].body, h.acts[0], sf.pc, |s.heap|) else h.lost)
  {
    hide Straight, Happened, Rebuilt;
  }

  lemma PutIs(ops: Ops, f: Function, sf: Frame, heap: Heap)
    requires sf.pc < |f.body| && f.body[sf.pc].FieldStore? && Straight(ops, f.params, f.body[sf.pc], sf, heap).Some?
    ensures var i := f.body[sf.pc];
      i.base in sf.vals && i.value in sf.vals && IsCell(heap, sf.vals[i.base], i.index)
    ensures var i, x := f.body[sf.pc], sf.vals[f.body[sf.pc].base].addr;
      Straight(ops, f.params, i, sf, heap) == Some((sf, heap[x := heap[x][i.index := sf.vals[i.value]]]))
    ensures Happened(f.body[sf.pc], sf, heap) == Event(sf.pc, None)
  {
  }

  lemma BuildIs(ops: Ops, f: Function, sf: Frame, heap: Heap)
    requires sf.pc < |f.body| && f.body[sf.pc].Construct? && Straight(ops, f.params, f.body[sf.pc], sf, heap).Some?
    ensures var i, vs := f.body[sf.pc], Operands(sf.vals, f.body[sf.pc].fields);
      && vs.Some?
      && Straight(ops, f.params, i, sf, heap) ==
        Some((SetVal(sf, i.dst, Ref(|heap|)), heap + [Block(i.tag, vs.value)]))
      && Happened(i, sf, heap) == Event(sf.pc, Some(Ref(|heap|)))
  {
  }

  lemma StraightTracks(f: Function, ops: Ops, a: Act, sf: Frame, heap: Heap)
    requires Tracks(f, a, sf) && sf.pc < |f.body| && !Control(f.body[sf.pc])
    requires Straight(ops, f.params, f.body[sf.pc], sf, heap).Some?
    ensures var sf' := Straight(ops, f.params, f.body[sf.pc], sf, heap).value.0;
      sf'.fn == sf.fn && Tracks(f, Extend(a, Happened(f.body[sf.pc], sf, heap)), sf'.(pc := sf.pc + 1))
  {
    hide Tracks, Straight, Successor, Gives, Happened;
    StraightGives(f, ops, sf, heap);
    ExtendTracks(f, a, Happened(f.body[sf.pc], sf, heap), sf,
      Straight(ops, f.params, f.body[sf.pc], sf, heap).value.0.(pc := sf.pc + 1));
  }

  lemma StraightGives(f: Function, ops: Ops, sf: Frame, heap: Heap)
    requires sf.pc < |f.body| && !Control(f.body[sf.pc]) && Straight(ops, f.params, f.body[sf.pc], sf, heap).Some?
    ensures var sf', e := Straight(ops, f.params, f.body[sf.pc], sf, heap).value.0, Happened(f.body[sf.pc], sf, heap);
      && sf'.fn == sf.fn && e.pc == sf.pc && Gives(f.body, e) && Successor(f.body, sf.pc, sf.pc + 1)
      && sf'.locals == if f.body[sf.pc].Store? then sf.locals[f.body[sf.pc].name := e.given.value] else sf.locals
  {
    hide Operands, Block, IsCell;
  }

  lemma GoTracks(f: Function, a: Act, sf: Frame, heap: Heap, pc: nat)
    requires Tracks(f, a, sf) && sf.pc < |f.body| && Successor(f.body, sf.pc, pc)
    requires f.body[sf.pc].Jump? || f.body[sf.pc].BranchIfNot?
    ensures Tracks(f, Extend(a, Happened(f.body[sf.pc], sf, heap)), sf.(pc := pc))
  {
    hide Tracks, Successor;
    ExtendTracks(f, a, Happened(f.body[sf.pc], sf, heap), sf, sf.(pc := pc));
  }

  lemma EnterTracks(f: Function, fn: Symbol, args: seq<Val>)
    requires |args| == |f.params|
    ensures Tracks(f, Act(args, []), Enter(fn, f.params, args)) && Enter(fn, f.params, args).fn == fn
  {
    assert BindParams(f.params, args) + map[] == BindParams(f.params, args);
  }

  lemma Replace(p: Program, s: State, h: History, a: Act, sf: Frame, heap: Heap, lost: Lost)
    requires s.Run? && s.frames != [] && Tracked(p, s, h) && FrameTracked(p, a, sf)
    ensures Tracked(p, Run([sf] + s.frames[1..], heap), History([a] + h.acts[1..], lost))
    ensures Tracked(p, Run([sf] + s.frames, heap), History([a] + h.acts, lost))
  {
    hide FrameTracked;
  }

  lemma ResumeTracks(p: Program, s: State, h: History, value: Val, lost: Lost)
    requires s.Run? && s.frames != [] && Tracked(p, s, h)
    requires Resume(p, s.frames[1..], value, s.heap) != Fault
    ensures var acts := if |h.acts| == 1 then [] else [Extend(h.acts[1], Event(s.frames[1].pc, None))] + h.acts[2..];
      Tracked(p, Resume(p, s.frames[1..], value, s.heap), History(acts, lost))
  {
    hide Tracks;
    if |s.frames| > 1 {
      var rest, f := s.frames[1..], s.frames[1];
      assert rest[0] == f && rest[1..] == s.frames[2..];
      var fn := p[f.fn];
      var f' := SetVal(f, fn.body[f.pc].dst, value).(pc := f.pc + 1);
      ExtendTracks(fn, h.acts[1], Event(f.pc, None), f, f');
      assert Tracked(p, Run(rest, s.heap), History(h.acts[1..], lost));
      assert h.acts[1..][1..] == h.acts[2..];
      Replace(p, Run(rest, s.heap), History(h.acts[1..], lost), Extend(h.acts[1], Event(f.pc, None)), f', s.heap, lost);
    }
  }

  /** The history recorded along a run fits every state of it. */
  lemma StepTracks(p: Program, ops: Ops, s: State, h: History)
    requires Tracked(p, s, h) && Step(p, ops, s) != Fault
    ensures Tracked(p, Step(p, ops, s), Record(p, s, h))
  {
    hide Tracks, Straight, Resume, Enter, Happened, Extend, Built, Rebuilt, LabelIndex;
    if s.Run? {
      var f := s.frames[0];
      assert FrameTracked(p, h.acts[0], f);
      var fn := p[f.fn];
      match fn.body[f.pc]
      case Jump(target) =>
        GoTracks(fn, h.acts[0], f, s.heap, LabelIndex(fn.body, target).value);
        Replace(p, s, h, Extend(h.acts[0], Happened(fn.body[f.pc], f, s.heap)),
          f.(pc := LabelIndex(fn.body, target).value), s.heap, h.lost);
      case BranchIfNot(c, target) =>
        var pc := if ops.truthy(f.vals[c]) then f.pc + 1 else LabelIndex(fn.body, target).value;
        GoTracks(fn, h.acts[0], f, s.heap, pc);
        Replace(p, s, h, Extend(h.acts[0], Happened(fn.body[f.pc], f, s.heap)), f.(pc := pc), s.heap, h.lost);
      case Return(result) =>
        ResumeTracks(p, s, h, if result.Some? then f.vals[result.value] else Unit,
          h.lost.(dead := h.lost.dead + Built(fn.body, h.acts[0].past)));
      case Call(_, name, args) =>
        var vs := Operands(f.vals, args).value;
        EnterTracks(p[name], name, vs);
        Replace(p, s, h, Act(vs, []), Enter(name, p[name].params, vs), s.heap, h.lost);
        assert [Enter(name, p[name].params, vs), f] + s.frames[1..] == [Enter(name, p[name].params, vs)] + s.frames;
      case _ =>
        var out := Straight(ops, fn.params, fn.body[f.pc], f, s.heap).value;
        StraightTracks(fn, ops, h.acts[0], f, s.heap);
        Replace(p, s, h, Extend(h.acts[0], Happened(fn.body[f.pc], f, s.heap)), out.0.(pc := f.pc + 1), out.1,
          Record(p, s, h).lost);
    }
  }

  lemma {:induction false} RunTracks(p: Program, ops: Ops, s: State, h: History, n: nat)
    requires Tracked(p, s, h) && Steps(p, ops, s, n) != Fault
    ensures Tracked(p, Steps(p, ops, s, n), After(p, ops, s, h, n))
  {
    hide Tracked, Step, Record;
    if n > 0 {
      FaultStays(p, ops, Steps(p, ops, s, n - 1));
      RunTracks(p, ops, s, h, n - 1);
      StepTracks(p, ops, Steps(p, ops, s, n - 1), After(p, ops, s, h, n - 1));
    }
  }

  lemma StartTracks(p: Program, fn: Symbol, args: seq<Val>, heap: Heap)
    requires Start(p, fn, args, heap) != Fault
    ensures Tracked(p, Start(p, fn, args, heap), Begin(args))
  {
    hide Tracks, Enter;
    EnterTracks(p[fn], fn, args);
  }
}
