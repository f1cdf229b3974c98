/** The emitted JavaScript simulates the source over whole runs, calls included. The backend keeps
    the argument of a parameter in `a{i}` and what is stored to a name in `l{name}`, where the source
    has one cell; a run is followed exactly as long as every load finds its value where it looks. */
module JsSim {
  import opened Wrappers
  import opened Transpile
  import opened Trails
  import Sir
  import Js

  /** `q` holds the lowering of functions of `p`, closed under calls. */
  ghost predicate Compiled(p: Sir.Program, q: Js.Program) {
    forall fn :: fn in q ==>
      && fn in p
      && TranspileFn(p[fn]) == Some(q[fn])
      && Sir.UniqueLabels(p[fn].body)
      && forall i :: 0 <= i < |p[fn].body| && p[fn].body[i].Call? ==> p[fn].body[i].name in q
  }

  /** `a{i}` keeps the argument for the whole activation; `l{name}` holds the last store. */
  ghost predicate MatchVars(f: Sir.Function, a: Act, sf: Sir.Frame, jf: Js.Frame) {
    && (forall n :: n in sf.vals ==> Js.V(n) in jf.vars && jf.vars[Js.V(n)] == sf.vals[n])
    && |a.args| == |f.params|
    && (forall i :: 0 <= i < |a.args| ==> Js.A(i) in jf.vars && jf.vars[Js.A(i)] == a.args[i])
    && MatchStores(Stores(f.body, a.past), jf.vars)
  }

  ghost predicate MatchStores(stores: map<Symbol, Sir.Val>, vars: map<Js.Var, Sir.Val>) {
    forall s :: (s in stores <==> Js.L(s) in vars) && (s in stores ==> vars[Js.L(s)] == stores[s])
  }

  ghost predicate MatchFrame(p: Sir.Program, q: Js.Program, a: Act, sf: Sir.Frame, jf: Js.Frame)
    requires Compiled(p, q)
  {
    && sf.fn in q && jf.fn == sf.fn
    && var body := p[sf.fn].body;
      && sf.pc <= |body|
      && (sf.pc < |body| ==> Live(body, sf.pc))
      && jf.at == Some(Pos(body, sf.pc))
      && MatchVars(p[sf.fn], a, sf, jf)
  }

  ghost predicate Match(p: Sir.Program, q: Js.Program, s: Sir.State, h: History, t: Js.State)
    requires Compiled(p, q)
  {
    match s
    case Run(frames, heap) =>
      && t.Run? && t.heap == heap && |t.frames| == |frames| && |h.acts| == |frames|
      && forall i :: 0 <= i < |frames| ==> MatchFrame(p, q, h.acts[i], frames[i], t.frames[i])
    case Done(v, heap) => t == Js.Done(v, heap)
    case Fault => false
  }

  // --- Reads of parameters -------------------------------------------------

  /** Where a load looks. */
  function Place(src: Sir.Source): Js.Var {
    match src
    case Param(n) => Js.A(n)
    case Local(s) => Js.L(s)
  }

  /** A load by index finds the argument, a load by name the last store or `undefined`: `src` is
      current if the source's cell holds just that. */
  predicate CurrentRead(f: Sir.Function, a: Act, sf: Sir.Frame, src: Sir.Source) {
    match src
    case Param(n) => n < |f.params| && n < |a.args| && f.params[n] in sf.locals ==> sf.locals[f.params[n]] == a.args[n]
    case Local(s) => s in sf.locals ==> s in Stores(f.body, a.past) || sf.locals[s] == Sir.Unit
  }

  predicate CurrentLoad(f: Sir.Function, a: Act, sf: Sir.Frame) {
    sf.pc < |f.body| && f.body[sf.pc].Load? ==> CurrentRead(f, a, sf, f.body[sf.pc].src)
  }

  /** What a state is about to load is where the emitted code looks for it. */
  predicate CurrentState(p: Sir.Program, s: Sir.State, h: History) {
    s.Run? && s.frames != [] && |h.acts| == |s.frames| && s.frames[0].fn in p ==>
      CurrentLoad(p[s.frames[0].fn], h.acts[0], s.frames[0])
  }

  /** A load gives the source's value if and only if it is current. */
  lemma ReadExact(f: Sir.Function, a: Act, sf: Sir.Frame, jf: Js.Frame, src: Sir.Source)
    requires MatchVars(f, a, sf, jf) && Tracks(f, a, sf)
    requires var name := Sir.SourceName(f.params, src); name.Some? && name.value in sf.locals
    ensures Js.Read(jf, Place(src)) == sf.locals[Sir.SourceName(f.params, src).value] <==> CurrentRead(f, a, sf, src)
  {
    if src.Local? {
      var stores := Stores(f.body, a.past);
      assert src.sym in stores <==> Js.L(src.sym) in jf.vars;
    }
  }

  // --- Straight-line code --------------------------------------------------

  lemma ReadVal(f: Sir.Function, a: Act, sf: Sir.Frame, jf: Js.Frame, n: Sir.ValueId)
    requires MatchVars(f, a, sf, jf) && n in sf.vals
    ensures Js.Read(jf, Js.V(n)) == sf.vals[n]
  {
    hide MatchStores, Stores;
  }

  lemma ReadsAgree(f: Sir.Function, a: Act, sf: Sir.Frame, jf: Js.Frame, ids: seq<Sir.ValueId>)
    requires MatchVars(f, a, sf, jf) && Sir.Operands(sf.vals, ids).Some?
    ensures Js.ReadAll(jf, Values(ids)) == Sir.Operands(sf.vals, ids).value
  {
    hide MatchVars;
    forall i | 0 <= i < |ids| ensures Js.Read(jf, Values(ids)[i]) == sf.vals[ids[i]] {
      assert ids[i] in sf.vals;
      ReadVal(f, a, sf, jf, ids[i]);
    }
  }

  lemma StoresNext(f: Sir.Function, a: Act, e: Event)
    ensures Stores(f.body, Extend(a, e).past) ==
      if e.pc < |f.body| && f.body[e.pc].Store? && e.given.Some?
      then Stores(f.body, a.past)[f.body[e.pc].name := e.given.value]
      else Stores(f.body, a.past)
  {
    assert (a.past + [e])[..|a.past|] == a.past;
  }

  predicate Keeps(f: Sir.Function, e: Event) {
    e.pc >= |f.body| || !f.body[e.pc].Store? || e.given.None?
  }

  /** Writing `v{dst}` while executing anything but a store. */
  lemma WriteVal(f: Sir.Function, a: Act, e: Event, sf: Sir.Frame, jf: Js.Frame, dst: Sir.ValueId, v: Sir.Val,
                 w: Sir.Val)
    requires MatchVars(f, a, sf, jf) && Keeps(f, e)
    ensures MatchVars(f, Extend(a, e), Sir.SetVal(sf, dst, v), Js.Write(jf, Js.V(dst), w)) <==> v == w
  {
    hide Stores;
    StoresNext(f, a, e);
    if v != w {
      assert dst in Sir.SetVal(sf, dst, v).vals;
    }
  }

  lemma WriteLocal(f: Sir.Function, a: Act, e: Event, sf: Sir.Frame, jf: Js.Frame, v: Sir.Val)
    requires MatchVars(f, a, sf, jf) && e.pc < |f.body| && f.body[e.pc].Store? && e.given == Some(v)
    ensures var name := f.body[e.pc].name;
      MatchVars(f, Extend(a, e), sf.(locals := sf.locals[name := v]), Js.Write(jf, Js.L(name), v))
  {
    hide Stores;
    StoresNext(f, a, e);
  }

  lemma Passes(f: Sir.Function, a: Act, e: Event, sf: Sir.Frame, sf': Sir.Frame, jf: Js.Frame, jf': Js.Frame)
    requires MatchVars(f, a, sf, jf) && Keeps(f, e) && sf'.vals == sf.vals && jf'.vars == jf.vars
    ensures MatchVars(f, Extend(a, e), sf', jf')
  {
    hide Stores;
    StoresNext(f, a, e);
  }

  /** Straight-line instructions leave the heap alike, and values and variables too if and only if
      what they load is current. */
  lemma StraightSim(ops: Sir.Ops, f: Sir.Function, a: Act, sf: Sir.Frame, jf: Js.Frame, heap: Sir.Heap)
    requires sf.pc < |f.body| && MatchVars(f, a, sf, jf) && Tracks(f, a, sf)
    requires Sir.Straight(ops, f.params, f.body[sf.pc], sf, heap).Some? && Lower(f.body[sf.pc]).Some?
    ensures Js.Plain(ops, Lower(f.body[sf.pc]).value, jf, heap).Some?
    ensures var (sf', h) := Sir.Straight(ops, f.params, f.body[sf.pc], sf, heap).value;
      var (jf', h') := Js.Plain(ops, Lower(f.body[sf.pc]).value, jf, heap).value;
      && h == h' && jf'.fn == jf.fn && sf'.fn == sf.fn
      && (MatchVars(f, Extend(a, Happened(f.body[sf.pc], sf, heap)), sf', jf') <==> CurrentLoad(f, a, sf))
  {
    hide MatchVars, Tracks, CurrentRead, Extend;
    var (sf', h) := Sir.Straight(ops, f.params, f.body[sf.pc], sf, heap).value;
    var e := Happened(f.body[sf.pc], sf, heap);
    match f.body[sf.pc]
    case Construct(dst, tag, fields) =>
      ReadsAgree(f, a, sf, jf, fields);
      WriteVal(f, a, e, sf, jf, dst, Sir.Ref(|heap|), Sir.Ref(|heap|));
    case Load(dst, src) =>
      ReadExact(f, a, sf, jf, src);
      WriteVal(f, a, e, sf, jf, dst, sf'.vals[dst], Js.Read(jf, Place(src)));
    case Const(dst, _) => WriteVal(f, a, e, sf, jf, dst, sf'.vals[dst], sf'.vals[dst]);
    case BinOp(dst, _, lhs, rhs) =>
      ReadVal(f, a, sf, jf, lhs);
      ReadVal(f, a, sf, jf, rhs);
      WriteVal(f, a, e, sf, jf, dst, sf'.vals[dst], sf'.vals[dst]);
    case UnOp(dst, _, rhs) =>
      ReadVal(f, a, sf, jf, rhs);
      WriteVal(f, a, e, sf, jf, dst, sf'.vals[dst], sf'.vals[dst]);
    case TupleIndex(dst, tuple, _) =>
      ReadVal(f, a, sf, jf, tuple);
      WriteVal(f, a, e, sf, jf, dst, sf'.vals[dst], sf'.vals[dst]);
    case FieldStore(base, _, value) =>
      ReadVal(f, a, sf, jf, base);
      ReadVal(f, a, sf, jf, value);
      Passes(f, a, e, sf, sf, jf, jf);
    case Store(name, value) =>
      ReadVal(f, a, sf, jf, value);
      WriteLocal(f, a, e, sf, jf, sf.vals[value]);
    case _ =>
      Passes(f, a, e, sf, sf, jf, jf);
  }

  // --- One step ------------------------------------------------------------

  /** JavaScript steps taken for one source step. */
  function Stutter(p: Sir.Program, ops: Sir.Ops, s: Sir.State): (k: nat)
    ensures 1 <= k <= 3
  {
    if s.Run? && s.frames != [] && s.frames[0].fn in p && s.frames[0].pc < |p[s.frames[0].fn].body| then
      match p[s.frames[0].fn].body[s.frames[0].pc]
      case Jump(_) => 2
      case BranchIfNot(c, _) => if c in s.frames[0].vals && !ops.truthy(s.frames[0].vals[c]) then 2 else 1
      case Call(_, _, _) => 3
      case _ => 1
    else 1
  }

  /** A matched pair of running states whose next source step succeeds. */
  ghost predicate Active(p: Sir.Program, q: Js.Program, ops: Sir.Ops, s: Sir.State, h: History, t: Js.State)
    requires Compiled(p, q)
  {
    && s.Run? && s.frames != [] && Match(p, q, s, h, t) && Tracked(p, s, h)
    && s.frames[0].fn in p && s.frames[0].pc < |p[s.frames[0].fn].body|
    && Sir.Step(p, ops, s) != Sir.Fault
  }

  /** The running frames of a matched pair and the statement that comes next. */
  lemma Current(p: Sir.Program, q: Js.Program, ops: Sir.Ops, s: Sir.State, h: History, t: Js.State)
    requires Compiled(p, q) && Active(p, q, ops, s, h, t)
    ensures s.Run? && s.frames != [] && t.Run? && t.frames != [] && t.heap == s.heap
    ensures |t.frames| == |s.frames| == |h.acts|
    ensures Sir.Step(p, ops, s) != Sir.Fault
    ensures var sf, jf := s.frames[0], t.frames[0];
      && sf.fn in q && sf.fn in p && jf.fn == sf.fn && jf.at.Some? && jf.at.value < |q[sf.fn].body|
      && var f := p[sf.fn];
      && sf.pc < |f.body| && MatchFrame(p, q, h.acts[0], sf, jf) && MatchVars(f, h.acts[0], sf, jf) && Tracks(f,
        h.acts[0], sf)
      && LowerAt(BlockOf(f.body, |f.body|), f.body[sf.pc]) == Some(q[sf.fn].body[jf.at.value])
      && (f.body[sf.pc].Call? ==> f.body[sf.pc].name in q)
  {
    hide MatchVars, Tracks, Sir.Step;
    var sf := s.frames[0];
    assert MatchFrame(p, q, h.acts[0], sf, t.frames[0]) && FrameTracked(p, h.acts[0], sf);
    StatementAt(p[sf.fn], sf.pc);
  }

  /** Replacing the running frames by a matching pair keeps the states matched, and only that. */
  lemma Reassemble(p: Sir.Program, q: Js.Program, s: Sir.State, h: History, t: Js.State, a: Act, sf: Sir.Frame,
                   jf: Js.Frame,
                   heap: Sir.Heap, lost: Lost)
    requires Compiled(p, q) && s.Run? && s.frames != [] && Match(p, q, s, h, t)
    ensures Match(p, q, Sir.Run([sf] + s.frames[1..], heap), History([a] + h.acts[1..], lost),
      Js.Run([jf] + t.frames[1..], heap)) <==>
      MatchFrame(p, q, a, sf, jf)
    ensures MatchFrame(p, q, a, sf, jf) ==>
      Match(p, q, Sir.Run([sf] + s.frames, heap), History([a] + h.acts, lost), Js.Run([jf] + t.frames, heap))
  {
    hide Compiled, MatchFrame;
    var u, g, v := Sir.Run([sf] + s.frames[1..], heap), History([a] + h.acts[1..], lost), Js.Run([jf] + t.frames[1..],
      heap);
    if Match(p, q, u, g, v) {
      assert MatchFrame(p, q, g.acts[0], u.frames[0], v.frames[0]);
    }
  }

  lemma NextLive(body: seq<Sir.Insn>, i: nat)
    requires i + 1 <= |body| && Live(body, i) && !body[i].Jump? && !body[i].Return?
    ensures i + 1 < |body| ==> Live(body, i + 1)
  {
  }

  /** The frame after an instruction that neither jumps nor returns. */
  lemma NextFrame(p: Sir.Program, q: Js.Program, a: Act, sf: Sir.Frame, jf: Js.Frame, a': Act, sf': Sir.Frame,
                  jf': Js.Frame)
    requires Compiled(p, q) && MatchFrame(p, q, a, sf, jf)
    requires sf.pc < |p[sf.fn].body| && !p[sf.fn].body[sf.pc].Jump? && !p[sf.fn].body[sf.pc].Return?
    requires sf'.fn == sf.fn && jf'.fn == jf.fn
    ensures MatchFrame(p, q, a', sf'.(pc := sf.pc + 1), jf'.(at := Some(jf.at.value + 1))) <==>
      MatchVars(p[sf.fn], a', sf', jf')
  {
    hide BlockOf, Dead, Sir.UniqueLabels, Emit, Stores, MatchStores;
    var f := p[sf.fn];
    StatementAt(f, sf.pc);
    NextLive(f.body, sf.pc);
  }

  /** Dispatching on a label's block number puts the frame at that label. */
  lemma JumpFrame(p: Sir.Program, q: Js.Program, a: Act, e: Event, sf: Sir.Frame, jf: Js.Frame, id: Sir.LabelId)
    requires Compiled(p, q) && MatchFrame(p, q, a, sf, jf) && Keeps(p[sf.fn], e)
    requires Sir.LabelIndex(p[sf.fn].body, id).Some?
    ensures var body := p[sf.fn].body; var j := Sir.LabelIndex(body, id).value;
      && id in BlockOf(body, |body|)
      && MatchFrame(p, q, Extend(a, e), sf.(pc := j),
           jf.(pc := BlockOf(body, |body|)[id], at := Some(Js.FindCase(q[sf.fn].body, BlockOf(body, |body|)[id]))))
  {
    hide MatchVars, Emit;
    DispatchLands(p[sf.fn], id);
    var body := p[sf.fn].body;
    var k := BlockOf(body, |body|)[id];
    Passes(p[sf.fn], a, e, sf, sf.(pc := Sir.LabelIndex(body, id).value), jf,
      jf.(pc := k, at := Some(Js.FindCase(q[sf.fn].body, k))));
  }

  /** After setting `pc` and leaving the switch, one more step lands on the target label. */
  lemma JumpLands(p: Sir.Program, q: Js.Program, ops: Sir.Ops, s: Sir.State, h: History, t: Js.State, id: Sir.LabelId)
    requires Compiled(p, q) && Active(p, q, ops, s, h, t) && !p[s.frames[0].fn].body[s.frames[0].pc].Store?
    requires Sir.LabelIndex(p[s.frames[0].fn].body, id).Some? && t.Run? && t.frames != [] && h.acts != []
    ensures var body := p[s.frames[0].fn].body;
      && id in BlockOf(body, |body|)
      && var gone := t.frames[0].(pc := BlockOf(body, |body|)[id], at := None);
        var e := Happened(body[s.frames[0].pc], s.frames[0], s.heap);
        Match(p, q, Sir.GoTo(s, Sir.LabelIndex(body, id)), h.(acts := [Extend(h.acts[0], e)] + h.acts[1..]),
          Js.Step(q, ops, Js.Run([gone] + t.frames[1..], t.heap)))
  {
    Current(p, q, ops, s, h, t);
    var sf, jf := s.frames[0], t.frames[0];
    var body := p[sf.fn].body;
    var e := Happened(body[sf.pc], sf, s.heap);
    hide MatchFrame, Compiled, BlockOf, MatchVars, Tracks, Sir.Step, Sir.LabelIndex;
    JumpFrame(p, q, h.acts[0], e, sf, jf, id);
    var k := BlockOf(body, |body|)[id];
    var landed := jf.(pc := k, at := Some(Js.FindCase(q[sf.fn].body, k)));
    Reassemble(p, q, s, h, t, Extend(h.acts[0], e), sf.(pc := Sir.LabelIndex(body, id).value), landed, s.heap, h.lost);
  }

  lemma PlainStep(p: Sir.Program, q: Js.Program, ops: Sir.Ops, s: Sir.State, h: History, t: Js.State)
    requires Compiled(p, q) && Active(p, q, ops, s, h, t) && !Sir.Control(p[s.frames[0].fn].body[s.frames[0].pc])
    ensures Match(p, q, Sir.Step(p, ops, s), Record(p, s, h), Js.Step(q, ops, t)) <==> CurrentState(p, s, h)
  {
    hide Compiled, Active, MatchFrame, Match, BlockOf, MatchVars, Tracks, CurrentLoad, Extend, Tracked, Sir.Straight;
    hide Js.Plain, Rebuilt;
    Current(p, q, ops, s, h, t);
    var sf, jf, a := s.frames[0], t.frames[0], h.acts[0];
    var f := p[sf.fn];
    var e := Happened(f.body[sf.pc], sf, s.heap);
    ActiveMatch(p, q, ops, s, h, t);
    if f.body[sf.pc].Label? {
      LabelSim(ops, f, a, sf, jf, s.heap);
      NextFrame(p, q, a, sf, jf, Extend(a, e), sf, jf);
      Reassemble(p, q, s, h, t, Extend(a, e), sf.(pc := sf.pc + 1), jf.(at := Some(jf.at.value + 1)), s.heap, h.lost);
    } else {
      StraightSim(ops, f, a, sf, jf, s.heap);
      var (sf', g) := Sir.Straight(ops, f.params, f.body[sf.pc], sf, s.heap).value;
      var (jf', g') := Js.Plain(ops, Lower(f.body[sf.pc]).value, jf, s.heap).value;
      NextFrame(p, q, a, sf, jf, Extend(a, e), sf', jf');
      Reassemble(p, q, s, h, t, Extend(a, e), sf'.(pc := sf.pc + 1), jf'.(at := Some(jf.at.value + 1)), g,
        Record(p, s, h).lost);
    }
  }

  lemma ActiveMatch(p: Sir.Program, q: Js.Program, ops: Sir.Ops, s: Sir.State, h: History, t: Js.State)
    requires Compiled(p, q) && Active(p, q, ops, s, h, t)
    ensures Match(p, q, s, h, t) && s.Run? && s.frames != []
  {
  }

  lemma LabelSim(ops: Sir.Ops, f: Sir.Function, a: Act, sf: Sir.Frame, jf: Js.Frame, heap: Sir.Heap)
    requires sf.pc < |f.body| && f.body[sf.pc].Label? && MatchVars(f, a, sf, jf)
    ensures MatchVars(f, Extend(a, Happened(f.body[sf.pc], sf, heap)), sf, jf) && CurrentLoad(f, a, sf)
    ensures Sir.Straight(ops, f.params, f.body[sf.pc], sf, heap) == Some((sf, heap))
    ensures forall k :: Js.Plain(ops, Js.Case(k), jf, heap) == Some((jf, heap))
  {
    hide MatchVars;
    Passes(f, a, Happened(f.body[sf.pc], sf, heap), sf, sf, jf, jf);
  }

  lemma JumpStep(p: Sir.Program, q: Js.Program, ops: Sir.Ops, s: Sir.State, h: History, t: Js.State)
    requires Compiled(p, q) && Active(p, q, ops, s, h, t) && p[s.frames[0].fn].body[s.frames[0].pc].Jump?
    ensures Match(p, q, Sir.Step(p, ops, s), Record(p, s, h), Js.Step(q, ops, Js.Step(q, ops, t)))
  {
    hide Compiled, Active, Match, MatchFrame, MatchVars, BlockOf, Tracks, Extend, Happened;
    Current(p, q, ops, s, h, t);
    JumpLands(p, q, ops, s, h, t, p[s.frames[0].fn].body[s.frames[0].pc].target);
  }

  /** The branch leaves for its target exactly when the condition is not true. */
  lemma BranchStep(p: Sir.Program, q: Js.Program, ops: Sir.Ops, s: Sir.State, h: History, t: Js.State)
    requires Compiled(p, q) && Active(p, q, ops, s, h, t) && p[s.frames[0].fn].body[s.frames[0].pc].BranchIfNot?
    ensures var sf := s.frames[0]; var c := p[sf.fn].body[sf.pc].cond;
      && c in sf.vals
      && Match(p, q, Sir.Step(p, ops, s), Record(p, s, h),
           if ops.truthy(sf.vals[c]) then Js.Step(q, ops, t) else Js.Step(q, ops, Js.Step(q, ops, t)))
  {
    hide Compiled, Active, Match, MatchFrame, MatchVars, BlockOf, Tracks, Extend;
    Current(p, q, ops, s, h, t);
    ActiveMatch(p, q, ops, s, h, t);
    var sf, jf, a := s.frames[0], t.frames[0], h.acts[0];
    var f := p[sf.fn];
    var c := f.body[sf.pc].cond;
    ReadVal(f, a, sf, jf, c);
    var e := Happened(f.body[sf.pc], sf, s.heap);
    if ops.truthy(sf.vals[c]) {
      Passes(f, a, e, sf, sf, jf, jf);
      NextFrame(p, q, a, sf, jf, Extend(a, e), sf, jf);
      Reassemble(p, q, s, h, t, Extend(a, e), sf.(pc := sf.pc + 1), jf.(at := Some(jf.at.value + 1)), s.heap, h.lost);
    } else {
      JumpLands(p, q, ops, s, h, t, f.body[sf.pc].target);
    }
  }

  /** A pending call's frame, once its result is stored, continues after the call. */
  lemma ResumeFrame(p: Sir.Program, q: Js.Program, a: Act, sf: Sir.Frame, jf: Js.Frame, v: Sir.Val)
    requires Compiled(p, q) && MatchFrame(p, q, a, sf, jf)
    requires sf.pc < |p[sf.fn].body| && p[sf.fn].body[sf.pc].Call?
    ensures var dst := p[sf.fn].body[sf.pc].dst;
      && jf.at.value < |q[jf.fn].body|
      && q[jf.fn].body[jf.at.value].CallFn? && q[jf.fn].body[jf.at.value].x == Js.V(dst)
      && MatchFrame(p, q, Extend(a, Event(sf.pc, None)), Sir.SetVal(sf, dst, v).(pc := sf.pc + 1),
           Js.Write(jf, Js.V(dst), v).(at := Some(jf.at.value + 1)))
  {
    hide MatchVars, BlockOf, Dead, Sir.UniqueLabels, Emit, Extend;
    var f := p[sf.fn];
    StatementAt(f, sf.pc);
    var dst := f.body[sf.pc].dst;
    WriteVal(f, a, Event(sf.pc, None), sf, jf, dst, v, v);
    NextFrame(p, q, a, sf, jf, Extend(a, Event(sf.pc, None)), Sir.SetVal(sf, dst, v), Js.Write(jf, Js.V(dst), v));
  }

  /** Handing a return value to the caller's pending call. */
  lemma ResumeSim(p: Sir.Program, q: Js.Program, callers: seq<Sir.Frame>, acts: seq<Act>, jcallers: seq<Js.Frame>,
                  v: Sir.Val,
                  heap: Sir.Heap, lost: Lost)
    requires Compiled(p, q) && Match(p, q, Sir.Run(callers, heap), History(acts, lost), Js.Run(jcallers, heap))
    requires Sir.Resume(p, callers, v, heap) != Sir.Fault
    ensures var acts' := if acts == [] then [] else [Extend(acts[0], Event(callers[0].pc, None))] + acts[1..];
      Match(p, q, Sir.Resume(p, callers, v, heap), History(acts', lost), Js.Resume(q, jcallers, v, heap))
  {
    hide Compiled, MatchVars, Live, Pos, Extend;
    if callers != [] {
      var s, h, t := Sir.Run(callers, heap), History(acts, lost), Js.Run(jcallers, heap);
      var sf, jf, a := callers[0], jcallers[0], acts[0];
      assert MatchFrame(p, q, a, sf, jf);
      assert jf.fn == sf.fn && jf.at.Some? && sf.fn in q;
      ResumeFrame(p, q, a, sf, jf, v);
      hide MatchFrame, Match;
      var dst := p[sf.fn].body[sf.pc].dst;
      Reassemble(p, q, s, h, t, Extend(a, Event(sf.pc, None)), Sir.SetVal(sf, dst, v).(pc := sf.pc + 1),
        Js.Write(jf, Js.V(dst), v).(at := Some(jf.at.value + 1)), heap, lost);
    }
  }

  lemma Callers(p: Sir.Program, q: Js.Program, s: Sir.State, h: History, t: Js.State, lost: Lost)
    requires Compiled(p, q) && s.Run? && s.frames != [] && Match(p, q, s, h, t)
    ensures t.Run? && t.frames != [] && h.acts != []
    ensures Match(p, q, Sir.Run(s.frames[1..], s.heap), History(h.acts[1..], lost), Js.Run(t.frames[1..], s.heap))
  {
    hide Compiled, MatchFrame;
  }

  lemma ReturnStep(p: Sir.Program, q: Js.Program, ops: Sir.Ops, s: Sir.State, h: History, t: Js.State)
    requires Compiled(p, q) && Active(p, q, ops, s, h, t) && p[s.frames[0].fn].body[s.frames[0].pc].Return?
    ensures Match(p, q, Sir.Step(p, ops, s), Record(p, s, h), Js.Step(q, ops, t))
  {
    hide Compiled, Active, Match, MatchFrame, MatchVars, BlockOf, Tracks, Extend, Built, Sir.Resume, Js.Resume;
    Current(p, q, ops, s, h, t);
    ActiveMatch(p, q, ops, s, h, t);
    var sf, jf := s.frames[0], t.frames[0];
    var f := p[sf.fn];
    var lost := h.lost.(dead := h.lost.dead + Built(f.body, h.acts[0].past));
    Callers(p, q, s, h, t, lost);
    var result := f.body[sf.pc].result;
    if result.Some? && result.value in sf.vals {
      ReadVal(f, h.acts[0], sf, jf, result.value);
    }
    var v := if result.Some? then sf.vals[result.value] else Sir.Unit;
    ResumeSim(p, q, s.frames[1..], h.acts[1..], t.frames[1..], v, s.heap, lost);
    if |h.acts| > 1 {
      assert h.acts[1..][0] == h.acts[1] && h.acts[1..][1..] == h.acts[2..] && s.frames[1..][0] == s.frames[1];
    }
  }

  /** A call dispatches on 0, which finds the entry case at once. */
  lemma EntryStatement(p: Sir.Program, q: Js.Program, fn: Symbol)
    requires Compiled(p, q) && fn in q
    ensures q[fn].body != [] && q[fn].body[0] == Js.Case(0) && Pos(p[fn].body, 0) == 1 && fn in p
    ensures Js.FindCase(q[fn].body, 0) == 0 && q[fn].params == |p[fn].params|
    ensures p[fn].body != [] ==> Live(p[fn].body, 0)
  {
    EmitPrefix(p[fn].body, 0);
  }

  lemma EntrySteps(q: Js.Program, ops: Sir.Ops, fn: Symbol, args: seq<Sir.Val>, t: Js.State)
    requires fn in q && q[fn].body != [] && q[fn].body[0] == Js.Case(0) && Js.FindCase(q[fn].body, 0) == 0
    requires t.Run? && t.frames != [] && t.frames[0] == Js.Enter(fn, q[fn].params, args)
    ensures Js.Step(q, ops, t) == Js.Run([t.frames[0].(at := Some(0))] + t.frames[1..], t.heap)
    ensures Js.Step(q, ops, Js.Step(q, ops, t)) == Js.Run([t.frames[0].(at := Some(1))] + t.frames[1..], t.heap)
  {
    hide Js.FindCase;
    var u := Js.Step(q, ops, t);
    assert u == Js.Run([t.frames[0].(at := Some(0))] + t.frames[1..], t.heap);
    assert u.frames[1..] == t.frames[1..];
  }

  lemma EnterFrame(p: Sir.Program, q: Js.Program, fn: Symbol, args: seq<Sir.Val>)
    requires Compiled(p, q) && fn in q && |args| == |p[fn].params|
    ensures MatchFrame(p, q, Act(args, []), Sir.Enter(fn, p[fn].params, args),
      Js.Enter(fn, q[fn].params, args).(at := Some(1)))
  {
    hide Emit, Live, Compiled, Pos, TranspileFn;
    EntryStatement(p, q, fn);
    var jf := Js.Enter(fn, q[fn].params, args);
    assert forall s :: Js.L(s) !in jf.vars;
    assert Stores(p[fn].body, []) == map[];
  }

  /** The call itself: a frame for the callee is pushed. */
  lemma CallPushes(p: Sir.Program, q: Js.Program, ops: Sir.Ops, s: Sir.State, h: History, t: Js.State)
    requires Compiled(p, q) && Active(p, q, ops, s, h, t) && p[s.frames[0].fn].body[s.frames[0].pc].Call?
    ensures var sf := s.frames[0];
      var insn := p[sf.fn].body[sf.pc];
      var vs := Sir.Operands(sf.vals, insn.args);
      && t.Run? && vs.Some? && insn.name in q && |p[insn.name].params| == |vs.value|
      && Js.Step(q, ops, t) == Js.Run([Js.Enter(insn.name, q[insn.name].params, vs.value)] + t.frames, t.heap)
      && Sir.Step(p, ops, s) == Sir.Run([Sir.Enter(insn.name, p[insn.name].params, vs.value)] + s.frames, s.heap)
  {
    hide Compiled, Active, Match, MatchFrame, MatchVars, BlockOf, Tracks, Js.Enter, Sir.Enter;
    Current(p, q, ops, s, h, t);
    var sf, jf := s.frames[0], t.frames[0];
    var insn := p[sf.fn].body[sf.pc];
    var name, vs := insn.name, Sir.Operands(sf.vals, insn.args).value;
    ReadsAgree(p[sf.fn], h.acts[0], sf, jf, insn.args);
    assert [Js.Enter(name, q[name].params, vs), jf] + t.frames[1..] == [Js.Enter(name, q[name].params, vs)] + t.frames;
    assert [Sir.Enter(name, p[name].params, vs), sf] + s.frames[1..] ==
      [Sir.Enter(name, p[name].params, vs)] + s.frames;
  }

  lemma CallStep(p: Sir.Program, q: Js.Program, ops: Sir.Ops, s: Sir.State, h: History, t: Js.State)
    requires Compiled(p, q) && Active(p, q, ops, s, h, t) && p[s.frames[0].fn].body[s.frames[0].pc].Call?
    ensures Match(p, q, Sir.Step(p, ops, s), Record(p, s, h), Js.Step(q, ops, Js.Step(q, ops, Js.Step(q, ops, t))))
  {
    hide Compiled, Active, Match, MatchFrame, MatchVars, BlockOf, Tracks, Js.Enter, Sir.Enter, Js.Step, Sir.Step;
    hide LowerAt, Sir.Operands;
    Current(p, q, ops, s, h, t);
    ActiveMatch(p, q, ops, s, h, t);
    CallPushes(p, q, ops, s, h, t);
    var insn := p[s.frames[0].fn].body[s.frames[0].pc];
    var name, vs := insn.name, Sir.Operands(s.frames[0].vals, insn.args).value;
    EntryStatement(p, q, name);
    EntrySteps(q, ops, name, vs, Js.Step(q, ops, t));
    EnterFrame(p, q, name, vs);
    Reassemble(p, q, s, h, t, Act(vs, []), Sir.Enter(name, p[name].params, vs),
      Js.Enter(name, q[name].params, vs).(at := Some(1)), s.heap, h.lost);
    assert Js.Step(q, ops, t).frames[1..] == t.frames;
  }

  lemma IsActive(p: Sir.Program, q: Js.Program, ops: Sir.Ops, s: Sir.State, h: History, t: Js.State)
    requires Compiled(p, q) && Match(p, q, s, h, t) && Tracked(p, s, h) && s.Run? && Sir.Step(p, ops, s) != Sir.Fault
    ensures Active(p, q, ops, s, h, t)
    ensures !p[s.frames[0].fn].body[s.frames[0].pc].Load? ==> CurrentState(p, s, h)
  {
    hide Match, Tracked, CurrentRead, Sir.Straight;
  }

  /** One source step is matched by one to three JavaScript steps if and only if what it loads is
      current. */
  lemma SimulateStep(p: Sir.Program, q: Js.Program, ops: Sir.Ops, s: Sir.State, h: History, t: Js.State)
    requires Compiled(p, q) && Match(p, q, s, h, t) && Tracked(p, s, h) && Sir.Step(p, ops, s) != Sir.Fault
    ensures Match(p, q, Sir.Step(p, ops, s), Record(p, s, h), Js.Steps(q, ops, t, Stutter(p, ops, s))) <==>
      CurrentState(p, s, h)
  {
    hide Compiled, Active, Js.Step, Sir.Step, CurrentState, Record, Tracked, Js.Steps;
    Unfold(q, ops, t);
    if s.Run? {
      IsActive(p, q, ops, s, h, t);
      hide Match;
      assert s.frames != [] && s.frames[0].fn in p && s.frames[0].pc < |p[s.frames[0].fn].body| by {
        ActiveTop(p, q, ops, s, h, t);
      }
      match p[s.frames[0].fn].body[s.frames[0].pc]
      case Jump(_) => JumpStep(p, q, ops, s, h, t);
      case BranchIfNot(_, _) => BranchStep(p, q, ops, s, h, t);
      case Return(_) => ReturnStep(p, q, ops, s, h, t);
      case Call(_, _, _) => CallStep(p, q, ops, s, h, t);
      case _ => PlainStep(p, q, ops, s, h, t);
    } else {
      EndedStep(p, q, ops, s, h, t);
    }
  }

  lemma ActiveTop(p: Sir.Program, q: Js.Program, ops: Sir.Ops, s: Sir.State, h: History, t: Js.State)
    requires Compiled(p, q) && Active(p, q, ops, s, h, t)
    ensures s.frames != [] && s.frames[0].fn in p && s.frames[0].pc < |p[s.frames[0].fn].body|
  {
  }

  lemma EndedStep(p: Sir.Program, q: Js.Program, ops: Sir.Ops, s: Sir.State, h: History, t: Js.State)
    requires Compiled(p, q) && Match(p, q, s, h, t) && !s.Run?
    ensures Match(p, q, Sir.Step(p, ops, s), Record(p, s, h), Js.Step(q, ops, t)) && CurrentState(p, s, h)
    ensures Stutter(p, ops, s) == 1
  {
  }

  lemma Unfold(q: Js.Program, ops: Sir.Ops, t: Js.State)
    ensures Js.Steps(q, ops, t, 1) == Js.Step(q, ops, t)
    ensures Js.Steps(q, ops, t, 2) == Js.Step(q, ops, Js.Step(q, ops, t))
    ensures Js.Steps(q, ops, t, 3) == Js.Step(q, ops, Js.Step(q, ops, Js.Step(q, ops, t)))
  {
    hide Js.Step;
    assert Js.Steps(q, ops, t, 0) == t;
  }

  // --- Whole runs ----------------------------------------------------------

  function JsLength(p: Sir.Program, ops: Sir.Ops, s: Sir.State, n: nat): (m: nat)
    ensures n <= m <= 3 * n
  {
    if n == 0 then 0 else JsLength(p, ops, s, n - 1) + Stutter(p, ops, Sir.Steps(p, ops, s, n - 1))
  }

  /** Every run that does not fault is followed, state by state, by the emitted program as long as
      what it loads is current. */
  lemma {:induction false} SimulateRun(p: Sir.Program, q: Js.Program, ops: Sir.Ops, s: Sir.State, h: History,
                                       t: Js.State, n: nat)
    requires Compiled(p, q) && Match(p, q, s, h, t) && Tracked(p, s, h)
    requires Sir.Steps(p, ops, s, n) != Sir.Fault
    requires forall k: nat :: k < n ==> CurrentState(p, Sir.Steps(p, ops, s, k), After(p, ops, s, h, k))
    ensures Match(p, q, Sir.Steps(p, ops, s, n), After(p, ops, s, h, n), Js.Steps(q, ops, t, JsLength(p, ops, s, n)))
  {
    hide Compiled, Match, Sir.Step, Js.Step, Stutter, CurrentState, Record, Tracked;
    if n > 0 {
      var before := Sir.Steps(p, ops, s, n - 1);
      Sir.FaultStays(p, ops, before);
      SimulateRun(p, q, ops, s, h, t, n - 1);
      RunTracks(p, ops, s, h, n - 1);
      var m := JsLength(p, ops, s, n - 1);
      SimulateStep(p, q, ops, before, After(p, ops, s, h, n - 1), Js.Steps(q, ops, t, m));
      Js.StepsAdd(q, ops, t, m, Stutter(p, ops, before));
    }
  }

  lemma StartMatches(p: Sir.Program, q: Js.Program, ops: Sir.Ops, fn: Symbol, args: seq<Sir.Val>, heap: Sir.Heap)
    requires Compiled(p, q) && fn in q && |args| == |p[fn].params|
    ensures Match(p, q, Sir.Start(p, fn, args, heap), Begin(args), Js.Steps(q, ops, Js.Start(q, fn, args, heap), 2))
  {
    hide MatchFrame, Js.Step, Js.Enter, Sir.Enter, Js.Steps;
    Unfold(q, ops, Js.Start(q, fn, args, heap));
    EntryStatement(p, q, fn);
    EntrySteps(q, ops, fn, args, Js.Start(q, fn, args, heap));
    EnterFrame(p, q, fn, args);
  }

  /** Every load of a run finds its value where the emitted code looks. */
  ghost predicate CurrentRun(p: Sir.Program, ops: Sir.Ops, fn: Symbol, args: seq<Sir.Val>, heap: Sir.Heap) {
    var s := Sir.Start(p, fn, args, heap);
    forall k: nat :: Sir.Steps(p, ops, s, k) != Sir.Fault ==>
      CurrentState(p, Sir.Steps(p, ops, s, k), After(p, ops, s, Begin(args), k))
  }

  /** A call that returns a value in the source language returns the same value, with the same
      heap, in JavaScript. */
  lemma Forward(p: Sir.Program, q: Js.Program, ops: Sir.Ops, fn: Symbol, args: seq<Sir.Val>, heap: Sir.Heap, n: nat)
    requires Compiled(p, q) && fn in q && CurrentRun(p, ops, fn, args, heap)
    requires Sir.Steps(p, ops, Sir.Start(p, fn, args, heap), n).Done?
    ensures var s := Sir.Steps(p, ops, Sir.Start(p, fn, args, heap), n);
      exists m: nat :: Js.Steps(q, ops, Js.Start(q, fn, args, heap), m) == Js.Done(s.value, s.heap)
  {
    var s := Sir.Start(p, fn, args, heap);
    Sir.FaultEarlier(p, ops, s, 0, n);
    StartMatches(p, q, ops, fn, args, heap);
    StartTracks(p, fn, args, heap);
    var t := Js.Steps(q, ops, Js.Start(q, fn, args, heap), 2);
    forall k: nat | k < n ensures Sir.Steps(p, ops, s, k) != Sir.Fault {
      Sir.FaultEarlier(p, ops, s, k, n);
    }
    hide Compiled, Sir.Start, Js.Start, Tracked, CurrentState;
    SimulateRun(p, q, ops, s, Begin(args), t, n);
    Js.StepsAdd(q, ops, Js.Start(q, fn, args, heap), 2, JsLength(p, ops, s, n));
  }

  /** Conversely, when the JavaScript program ends, whether by returning or by throwing, the
      source run has ended by then: with the same value, or in a fault. In particular the
      emitted code never throws and never returns anything else on a run without faults, and
      it runs forever when the source does. */
  lemma Backward(p: Sir.Program, q: Js.Program, ops: Sir.Ops, fn: Symbol, args: seq<Sir.Val>, heap: Sir.Heap, m: nat)
    requires Compiled(p, q) && fn in q && |args| == |p[fn].params| && CurrentRun(p, ops, fn, args, heap)
    requires !Js.Steps(q, ops, Js.Start(q, fn, args, heap), m).Run?
    ensures var s := Sir.Steps(p, ops, Sir.Start(p, fn, args, heap), m);
      s == Sir.Fault || (s.Done? && Js.Steps(q, ops, Js.Start(q, fn, args, heap), m) == Js.Done(s.value, s.heap))
  {
    var s, j := Sir.Start(p, fn, args, heap), Js.Start(q, fn, args, heap);
    if Sir.Steps(p, ops, s, m) != Sir.Fault {
      StartMatches(p, q, ops, fn, args, heap);
      StartTracks(p, fn, args, heap);
      forall k: nat | k < m ensures Sir.Steps(p, ops, s, k) != Sir.Fault {
        Sir.FaultEarlier(p, ops, s, k, m);
      }
      hide Compiled, Sir.Start, Js.Start, Tracked, CurrentState;
      SimulateRun(p, q, ops, s, Begin(args), Js.Steps(q, ops, j, 2), m);
      var k := JsLength(p, ops, s, m);
      EndedEarly(q, ops, j, m, k);
    }
  }

  lemma EndedEarly(q: Js.Program, ops: Sir.Ops, j: Js.State, m: nat, k: nat)
    requires !Js.Steps(q, ops, j, m).Run? && k >= m
    ensures Js.Steps(q, ops, Js.Steps(q, ops, j, 2), k) == Js.Steps(q, ops, j, m)
  {
    hide Js.Step, Js.Steps;
    assert m + (2 + k - m) == 2 + k;
    Js.StepsAdd(q, ops, j, 2, k);
    Js.StepsAdd(q, ops, j, m, 2 + k - m);
    Js.StaysEnded(q, ops, Js.Steps(q, ops, j, m), 2 + k - m);
  }

  // --- What the emitter hands out ------------------------------------------

  /** A successful emission is a program to which the simulation applies: it never calls a
      function that was not emitted. */
  lemma EmissionCompiles(p: Sir.Program, roots: seq<Symbol>, out: seq<(Symbol, Js.Function)>)
    requires Sir.Distinct(Names(out)) && forall name :: name in Names(out) <==> Reachable(p, roots, name)
    requires forall i :: 0 <= i < |out| ==> out[i].0 in p && TranspileFn(p[out[i].0]) == Some(out[i].1)
    requires forall fn :: fn in p ==> Sir.UniqueLabels(p[fn].body)
    ensures Compiled(p, ToProgram(out))
    ensures forall r :: r in roots ==> r in ToProgram(out)
  {
    var q := ToProgram(out);
    hide TranspileFn, Transpile.Reachable, Sir.UniqueLabels;
    forall r | r in roots ensures r in q {
      RootReachable(p, roots, r);
    }
    forall fn, i | fn in q && 0 <= i < |p[fn].body| && p[fn].body[i].Call? ensures p[fn].body[i].name in q {
      assert Calls(p[fn], p[fn].body[i].name);
      ExtendPath(p, roots, fn, p[fn].body[i].name);
    }
    forall fn | fn in q ensures fn in p && TranspileFn(p[fn]) == Some(q[fn]) {
      assert q[fn] == out[IndexOf(out, fn)].1;
    }
  }
}
