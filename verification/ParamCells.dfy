/** When the two places the JavaScript backend keeps for a parameter can stand for the one cell of the
    source: a condition on the text of a function, that every load looks where the value is. */
module ParamCells {
  import opened Wrappers
  import opened Transpile
  import opened Trails
  import opened JsSim
  import Sir
  import Js

  /** Some instruction of the way, before its end, stores to `s`. */
  predicate StoredOn(body: seq<Sir.Insn>, q: seq<nat>, s: Symbol) {
    exists k :: 0 <= k < |q| - 1 && q[k] < |body| && body[q[k]].Store? && body[q[k]].name == s
  }

  /** What a load at the end of the way finds is current: by index, nothing was stored to the
      parameter; by name, something was. */
  predicate FreshAt(f: Sir.Function, q: seq<nat>)
    requires q != []
  {
    var l := q[|q| - 1];
    l < |f.body| && f.body[l].Load? ==>
      match f.body[l].src
      case Param(n) => n < |f.params| ==> !StoredOn(f.body, q, f.params[n])
      case Local(s) => s in f.params ==> StoredOn(f.body, q, s)
  }

  /** No load of a parameter by index can be reached from a store to it, and every way to a load of
      it by name stores to it first. */
  ghost predicate ParamsApart(f: Sir.Function) {
    Sir.Distinct(f.params) && forall q :: EntryPath(f.body, q) ==> FreshAt(f, q)
  }

  lemma {:induction false} StoresExact(body: seq<Sir.Insn>, past: seq<Event>, s: Symbol)
    requires forall k :: 0 <= k < |past| ==> Gives(body, past[k])
    ensures s in Stores(body, past) <==>
      exists k :: 0 <= k < |past| && past[k].pc < |body| && body[past[k].pc].Store? && body[past[k].pc].name == s
  {
    if past != [] {
      var front, e := past[..|past| - 1], past[|past| - 1];
      StoresExact(body, front, s);
      if k :| 0 <= k < |front| && front[k].pc < |body| && body[front[k].pc].Store? && body[front[k].pc].name == s {
        assert past[k] == front[k];
      }
      if body[e.pc].Store? && body[e.pc].name == s {
        assert s in Stores(body, past);
      }
    }
  }

  /** On the way an activation has come, something was stored to `s` exactly when it has a store. */
  lemma RouteStores(f: Sir.Function, a: Act, sf: Sir.Frame, s: Symbol)
    requires Tracks(f, a, sf)
    ensures s in Stores(f.body, a.past) <==> StoredOn(f.body, Route(a.past, sf.pc), s)
  {
    hide Stores;
    StoresExact(f.body, a.past, s);
    var q := Route(a.past, sf.pc);
    var body := f.body;
    if k :| 0 <= k < |a.past| && a.past[k].pc < |body| && body[a.past[k].pc].Store? && body[a.past[k].pc].name == s {
      assert q[k] == a.past[k].pc;
    }
  }

  /** The condition on the text makes every load current. */
  lemma ApartCurrent(f: Sir.Function, a: Act, sf: Sir.Frame)
    requires ParamsApart(f) && Tracks(f, a, sf)
    ensures CurrentLoad(f, a, sf)
  {
    hide Stores, StoredOn;
    if sf.pc < |f.body| && f.body[sf.pc].Load? {
      assert FreshAt(f, Route(a.past, sf.pc));
      match f.body[sf.pc].src
      case Param(n) =>
        if n < |f.params| {
          RouteStores(f, a, sf, f.params[n]);
        }
      case Local(s) => RouteStores(f, a, sf, s);
    }
  }

  ghost predicate AllApart(p: Sir.Program, q: Js.Program)
    requires Compiled(p, q)
  {
    forall fn :: fn in q ==> ParamsApart(p[fn])
  }

  lemma StateCurrent(p: Sir.Program, q: Js.Program, s: Sir.State, h: History, t: Js.State)
    requires Compiled(p, q) && AllApart(p, q) && Match(p, q, s, h, t) && Tracked(p, s, h)
    ensures CurrentState(p, s, h)
  {
    hide Compiled, ParamsApart, Tracks, CurrentLoad, MatchVars;
    if s.Run? && s.frames != [] {
      assert MatchFrame(p, q, h.acts[0], s.frames[0], t.frames[0]) && FrameTracked(p, h.acts[0], s.frames[0]);
      ApartCurrent(p[s.frames[0].fn], h.acts[0], s.frames[0]);
    }
  }

  lemma {:induction false} ApartUpTo(p: Sir.Program, q: Js.Program, ops: Sir.Ops, fn: Symbol, args: seq<Sir.Val>,
                                     heap: Sir.Heap, n: nat)
    requires Compiled(p, q) && AllApart(p, q) && fn in q && |args| == |p[fn].params|
    requires Sir.Steps(p, ops, Sir.Start(p, fn, args, heap), n) != Sir.Fault
    ensures forall k: nat :: k <= n ==>
      CurrentState(p, Sir.Steps(p, ops, Sir.Start(p, fn, args, heap), k),
        Trails.After(p, ops, Sir.Start(p, fn, args, heap), Begin(args), k))
  {
    hide Compiled, AllApart, Match, Tracked, CurrentState, Sir.Step, Js.Step, Js.Start, Sir.Start, Record;
    var s, t := Sir.Start(p, fn, args, heap), Js.Steps(q, ops, Js.Start(q, fn, args, heap), 2);
    Sir.FaultEarlier(p, ops, s, 0, n);
    StartTracks(p, fn, args, heap);
    StartMatches(p, q, ops, fn, args, heap);
    if n > 0 {
      Sir.FaultEarlier(p, ops, s, n - 1, n);
      ApartUpTo(p, q, ops, fn, args, heap, n - 1);
    }
    SimulateRun(p, q, ops, s, Begin(args), t, n);
    RunTracks(p, ops, s, Begin(args), n);
    StateCurrent(p, q, Sir.Steps(p, ops, s, n), Trails.After(p, ops, s, Begin(args), n),
      Js.Steps(q, ops, t, JsLength(p, ops, s, n)));
  }

  /** Every run of functions whose parameters are kept apart is followed to its end by JavaScript, so
      that `Forward` and `Backward` apply to it. */
  lemma ApartRun(p: Sir.Program, q: Js.Program, ops: Sir.Ops, fn: Symbol, args: seq<Sir.Val>, heap: Sir.Heap)
    requires Compiled(p, q) && AllApart(p, q) && fn in q && |args| == |p[fn].params|
    ensures CurrentRun(p, ops, fn, args, heap)
  {
    hide Compiled, AllApart, CurrentState;
    forall k: nat | Sir.Steps(p, ops, Sir.Start(p, fn, args, heap), k) != Sir.Fault
      ensures CurrentState(p, Sir.Steps(p, ops, Sir.Start(p, fn, args, heap), k),
                Trails.After(p, ops, Sir.Start(p, fn, args, heap), Begin(args), k))
    {
      ApartUpTo(p, q, ops, fn, args, heap, k);
    }
  }

  /** Whatever the source returns, the emitted code returns. */
  lemma ApartForward(p: Sir.Program, q: Js.Program, ops: Sir.Ops, fn: Symbol, args: seq<Sir.Val>, heap: Sir.Heap,
                     n: nat)
    requires Compiled(p, q) && AllApart(p, q) && fn in q
    requires Sir.Steps(p, ops, Sir.Start(p, fn, args, heap), n).Done?
    ensures var s := Sir.Steps(p, ops, Sir.Start(p, fn, args, heap), n);
      exists m: nat :: Js.Steps(q, ops, Js.Start(q, fn, args, heap), m) == Js.Done(s.value, s.heap)
  {
    hide Compiled, AllApart, CurrentRun, Js.Start;
    Sir.FaultEarlier(p, ops, Sir.Start(p, fn, args, heap), 0, n);
    ApartRun(p, q, ops, fn, args, heap);
    Forward(p, q, ops, fn, args, heap, n);
  }

  /** When the emitted code ends, the source has ended with the same value, or faulted. */
  lemma ApartBackward(p: Sir.Program, q: Js.Program, ops: Sir.Ops, fn: Symbol, args: seq<Sir.Val>, heap: Sir.Heap,
                      m: nat)
    requires Compiled(p, q) && AllApart(p, q) && fn in q && |args| == |p[fn].params|
    requires !Js.Steps(q, ops, Js.Start(q, fn, args, heap), m).Run?
    ensures var s := Sir.Steps(p, ops, Sir.Start(p, fn, args, heap), m);
      s == Sir.Fault || (s.Done? && Js.Steps(q, ops, Js.Start(q, fn, args, heap), m) == Js.Done(s.value, s.heap))
  {
    hide Compiled, AllApart, CurrentRun, Js.Start;
    ApartRun(p, q, ops, fn, args, heap);
    Backward(p, q, ops, fn, args, heap, m);
  }

  // --- The parameter cell --------------------------------------------------

  /** `fn(n) { n = 5; return n }`, with the read lowered to a parameter read. */
  function AssignsParam(): Sir.Function {
    Sir.Function([7], [Sir.Const(0, 5), Sir.Store(7, 0), Sir.Load(1, Sir.Param(0)), Sir.Return(Some(1))])
  }

  function AssignsParamJs(): Js.Function {
    Js.Function(1, [
      Js.Case(0), Js.SetConst(Js.V(0), 5), Js.Copy(Js.L(7), Js.V(0)), Js.Copy(Js.V(1), Js.A(0)),
      Js.Ret(Some(Js.V(1))), Js.Default])
  }

  lemma AssignsParamLowered()
    ensures TranspileFn(AssignsParam()) == Some(AssignsParamJs())
    ensures Sir.UniqueLabels(AssignsParam().body)
  {
    var b := AssignsParam().body;
    var e0 := [Js.Case(0)];
    var e1 := e0 + [Js.SetConst(Js.V(0), 5)];
    var e2 := e1 + [Js.Copy(Js.L(7), Js.V(0))];
    var e3 := e2 + [Js.Copy(Js.V(1), Js.A(0))];
    assert Emit(b, 0) == Some(e0);
    assert b[0] == Sir.Const(0, 5) && Emit(b, 1) == Some(e1);
    assert b[1] == Sir.Store(7, 0) && Emit(b, 2) == Some(e2);
    assert b[2] == Sir.Load(1, Sir.Param(0)) && Emit(b, 3) == Some(e3);
    assert b[3] == Sir.Return(Some(1)) && Emit(b, 4) == Some(e3 + [Js.Ret(Some(Js.V(1)))]);
    assert AssignsParamJs().body == e3 + [Js.Ret(Some(Js.V(1)))] + [Js.Default];
  }

  lemma SourceReturnsFive(ops: Sir.Ops)
    ensures var p := map[0 := AssignsParam()];
      Sir.Steps(p, ops, Sir.Start(p, 0, [Sir.Prim(3)], []), 4) == Sir.Done(Sir.Prim(5), [])
  {
    var p := map[0 := AssignsParam()];
    var s0 := Sir.Start(p, 0, [Sir.Prim(3)], []);
    assert Sir.Steps(p, ops, s0, 0) == s0;
    var s1 := Sir.Steps(p, ops, s0, 1);
    assert s1.Run? && |s1.frames| == 1 && s1.frames[0].pc == 1 && s1.frames[0].vals == map[0 := Sir.Prim(5)];
    var s2 := Sir.Steps(p, ops, s0, 2);
    assert s2.Run? && |s2.frames| == 1 && s2.frames[0].pc == 2 && s2.frames[0].locals[7] == Sir.Prim(5);
    hide Sir.LabelIndex, Sir.Operands;
    var s3 := Sir.Steps(p, ops, s0, 3);
    assert s3.Run? && |s3.frames| == 1 && s3.frames[0].pc == 3 && s3.frames[0].vals[1] == Sir.Prim(5);
  }

  /** The emitted code is about to run statement `k`, the parameter unchanged. */
  ghost predicate EmittedAt(t: Js.State, k: nat) {
    && t.Run? && |t.frames| == 1 && t.heap == [] && t.frames[0].fn == 0 && t.frames[0].at == Some(k)
    && Js.Read(t.frames[0], Js.A(0)) == Sir.Prim(3)
    && (k == 4 ==> Js.Read(t.frames[0], Js.V(1)) == Sir.Prim(3))
  }

  lemma EmittedStep(ops: Sir.Ops, t: Js.State, k: nat)
    requires k <= 4 && EmittedAt(t, k)
    ensures var next := Js.Step(map[0 := AssignsParamJs()], ops, t);
      if k < 4 then EmittedAt(next, k + 1) else next == Js.Done(Sir.Prim(3), [])
  {
  }

  lemma EmittedStarts(ops: Sir.Ops)
    ensures var q := map[0 := AssignsParamJs()];
      EmittedAt(Js.Step(q, ops, Js.Start(q, 0, [Sir.Prim(3)], [])), 0)
  {
  }

  lemma {:induction false} EmittedReaches(ops: Sir.Ops, k: nat)
    requires k <= 4
    ensures var q := map[0 := AssignsParamJs()];
      EmittedAt(Js.Steps(q, ops, Js.Start(q, 0, [Sir.Prim(3)], []), k + 1), k)
  {
    hide EmittedAt, Js.Step, Js.Start, AssignsParamJs;
    var q := map[0 := AssignsParamJs()];
    var start := Js.Start(q, 0, [Sir.Prim(3)], []);
    if k == 0 {
      EmittedStarts(ops);
      assert Js.Steps(q, ops, start, 0) == start;
    } else {
      EmittedReaches(ops, k - 1);
      EmittedStep(ops, Js.Steps(q, ops, start, k), k - 1);
    }
  }

  lemma EmittedReturnsThree(ops: Sir.Ops)
    ensures var q := map[0 := AssignsParamJs()];
      Js.Steps(q, ops, Js.Start(q, 0, [Sir.Prim(3)], []), 6) == Js.Done(Sir.Prim(3), [])
  {
    hide EmittedAt, Js.Step, Js.Start, AssignsParamJs;
    var q := map[0 := AssignsParamJs()];
    EmittedReaches(ops, 4);
    EmittedStep(ops, Js.Steps(q, ops, Js.Start(q, 0, [Sir.Prim(3)], []), 5), 4);
  }

  /** A parameter read after it is assigned: the source returns the assigned value, the emitted code
      the incoming argument. */
  lemma ParamAssignmentLost(ops: Sir.Ops)
    ensures TranspileFn(AssignsParam()) == Some(AssignsParamJs()) && !ParamsApart(AssignsParam())
    ensures var p, q := map[0 := AssignsParam()], map[0 := AssignsParamJs()];
      && Sir.Steps(p, ops, Sir.Start(p, 0, [Sir.Prim(3)], []), 4) == Sir.Done(Sir.Prim(5), [])
      && Js.Steps(q, ops, Js.Start(q, 0, [Sir.Prim(3)], []), 6) == Js.Done(Sir.Prim(3), [])
  {
    var way: seq<nat> := [0, 1, 2];
    assert EntryPath(AssignsParam().body, way) && AssignsParam().body[way[1]] == Sir.Store(7, 0);
    assert !FreshAt(AssignsParam(), way);
    AssignsParamLowered();
    SourceReturnsFive(ops);
    EmittedReturnsThree(ops);
  }

  /** A parameter that is read first and assigned later is kept apart. */
  lemma ReadThenAssigned(f: Sir.Function)
    requires f == Sir.Function([7], [Sir.Load(0, Sir.Param(0)), Sir.Store(7, 0), Sir.Return(Some(0))])
    ensures ParamsApart(f)
  {
    forall q | EntryPath(f.body, q) ensures FreshAt(f, q) {
      if |q| > 1 {
        assert Sir.Successor(f.body, q[|q| - 2], q[|q| - 1]);
      }
    }
  }
}
