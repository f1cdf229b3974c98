/** When the Cranelift blocks run like the source: conditions on the text of the functions that keep
    every step sound. */
module ClifSafe {
  import opened Wrappers
  import opened Clif
  import opened ClifTranslate
  import opened ClifMaps
  import opened ClifCode
  import opened ClifStraight
  import opened ClifSim
  import opened Trails
  import opened Places
  import Regions
  import Rounds
  import Sir

  // --- Variables are current -----------------------------------------------

  /** Instruction `w` gives variable `x` a value. */
  predicate Gives(f: Sir.Function, w: nat, x: Variable)
    requires w < |f.body|
  {
    var i := f.body[w];
    (i.Store? || (i.VarDef? && i.init.Some?)) && LocalVar(f, w + 1, i.name) == x
  }

  /** After the first `n` instructions of the way, variable `x` holds what local `s` does: both were
      last given a value by the same store, or by the call. */
  predicate Fresh(f: Sir.Function, q: seq<nat>, n: nat, s: Sir.Symbol, x: Variable)
    requires n <= |q|
  {
    if n == 0 then s in f.params ==> x < |f.params| && f.params[x] == s
    else if q[n - 1] >= |f.body| then false
    else
      var w := q[n - 1];
      var stored := f.body[w].Store? && f.body[w].name == s;
      if stored && Gives(f, w, x) then true else !stored && !Gives(f, w, x) && Fresh(f, q, n - 1, s, x)
  }

  predicate FreshAt(f: Sir.Function, q: seq<nat>)
    requires q != []
  {
    var l := q[|q| - 1];
    l < |f.body| && f.body[l].Load? && Sir.SourceName(f.params, f.body[l].src).Some? ==>
      Fresh(f, q, |q| - 1, Sir.SourceName(f.params, f.body[l].src).value, SourceVar(f, l, f.body[l].src))
  }

  /** On every way to a load, the variable it reads and the local it means were last given a value
      together. */
  ghost predicate ReadsFresh(f: Sir.Function) {
    Sir.Distinct(f.params) && forall q :: Trails.EntryPath(f.body, q) ==> FreshAt(f, q)
  }

  lemma FreshStart(f: Sir.Function, args: seq<Val>, s: Sir.Symbol, x: Variable)
    requires Sir.Distinct(f.params) && |args| == |f.params| && (s in f.params ==> x < |f.params| && f.params[x] == s)
    ensures s in Sir.BindParams(f.params, args) ==>
      Sir.Lookup(Cells(f, args, []), x) == Some(Sir.BindParams(f.params, args)[s])
  {
  }

  /** The last event decides, or neither the local nor the variable is given anything by it. */
  lemma LastGiven(f: Sir.Function, args: seq<Val>, past: seq<Event>, s: Sir.Symbol, x: Variable)
    requires past != [] && Trails.Gives(f.body, past[|past| - 1])
    ensures var front, e := past[..|past| - 1], past[|past| - 1];
      var stored := f.body[e.pc].Store? && f.body[e.pc].name == s;
      && (stored ==> s in Stores(f.body, past) && Some(Stores(f.body, past)[s]) == e.given)
      && (Gives(f, e.pc, x) ==> Sir.Lookup(Cells(f, args, past), x) == e.given)
      && (!stored ==> Sir.Lookup(Stores(f.body, past), s) == Sir.Lookup(Stores(f.body, front), s))
      && (!Gives(f, e.pc, x) ==> Sir.Lookup(Cells(f, args, past), x) == Sir.Lookup(Cells(f, args, front), x))
  {
    hide LocalVar;
  }

  lemma {:induction false} FreshCells(f: Sir.Function, args: seq<Val>, past: seq<Event>, q: seq<nat>, s: Sir.Symbol,
                                      x: Variable)
    requires Sir.Distinct(f.params) && |args| == |f.params| && |past| <= |q|
    requires forall k :: 0 <= k < |past| ==> q[k] == past[k].pc && Trails.Gives(f.body, past[k])
    requires Fresh(f, q, |past|, s, x)
    ensures var locals := Sir.BindParams(f.params, args) + Stores(f.body, past);
      s in locals ==> Sir.Lookup(Cells(f, args, past), x) == Some(locals[s])
  {
    hide Cells, Stores, Gives, Sir.BindParams, Sir.Distinct;
    if past == [] {
      FreshStart(f, args, s, x);
      NoStores(f.body);
    } else {
      var n := |past| - 1;
      assert q[n] == past[n].pc;
      LastGiven(f, args, past, s, x);
      if !(f.body[q[n]].Store? && f.body[q[n]].name == s) {
        FreshCells(f, args, past[..n], q, s, x);
      }
    }
  }

  lemma NoStores(body: seq<Sir.Insn>)
    ensures Stores(body, []) == map[]
  {
  }

  lemma LoadFresh(ops: Sir.Ops, f: Sir.Function, a: Act, sf: Sir.Frame, heap: Heap, lost: Lost)
    requires ReadsFresh(f) && Tracks(f, a, sf) && sf.pc < |f.body| && f.body[sf.pc].Load?
    ensures Sound(ops, f, a, sf, heap, lost)
  {
    hide SourceVar, Cells, Fresh, Readable;
    var q := Route(a.past, sf.pc);
    assert FreshAt(f, q);
    var name := Sir.SourceName(f.params, f.body[sf.pc].src);
    if name.Some? {
      FreshCells(f, a.args, a.past, q, name.value, SourceVar(f, sf.pc, f.body[sf.pc].src));
    }
  }

  // --- Declarations as the front end makes them ----------------------------

  /** A local is declared before any other mention, and an initialised declaration is followed by the
      store of its initial value. */
  ghost predicate DeclaredFirst(f: Sir.Function) {
    && (forall i :: 0 <= i < |f.body| && f.body[i].VarDef? ==> f.body[i].name !in VarsAt(f, i).0)
    && (forall i :: 0 <= i < |f.body| && f.body[i].VarDef? && f.body[i].init.Some? ==>
      i + 1 < |f.body| && f.body[i + 1].Store? && f.body[i + 1].name == f.body[i].name)
  }

  /** Numbers are given out in order, to one name each. */
  ghost predicate OneEach(vars: map<Sir.Symbol, Variable>, next: Variable) {
    && (forall s :: s in vars ==> vars[s] < next)
    && forall s, r :: s in vars && r in vars && s != r ==> vars[s] != vars[r]
  }

  lemma ParamNumbers(params: seq<Sir.Symbol>, i: nat)
    requires i < |params| && Sir.Distinct(params)
    ensures ParamVars(params)[params[i]] == i
  {
    var n := |params| - 1;
    if i < n {
      ParamNumbers(params[..n], i);
    }
  }

  lemma ParamsOneEach(params: seq<Sir.Symbol>)
    requires Sir.Distinct(params)
    ensures OneEach(ParamVars(params), |params|)
    ensures forall s :: s in ParamVars(params) ==> ParamVars(params)[s] < |params| && params[ParamVars(params)[s]] == s
  {
    forall s | s in ParamVars(params) ensures ParamVars(params)[s] < |params| && params[ParamVars(params)[s]] == s {
      var i :| 0 <= i < |params| && params[i] == s;
      ParamNumbers(params, i);
    }
  }

  lemma {:induction false} VarsOneEach(f: Sir.Function, i: nat)
    requires i <= |f.body| && Sir.Distinct(f.params)
    ensures OneEach(VarsAt(f, i).0, VarsAt(f, i).1)
  {
    if i == 0 {
      ParamsOneEach(f.params);
    } else {
      VarsOneEach(f, i - 1);
    }
  }

  lemma VarsNext(f: Sir.Function, i: nat, s: Sir.Symbol)
    requires i < |f.body| && s in VarsAt(f, i).0 && !(f.body[i].VarDef? && f.body[i].name == s)
    ensures s in VarsAt(f, i + 1).0 && VarsAt(f, i + 1).0[s] == VarsAt(f, i).0[s]
  {
  }

  lemma {:induction false} VarsStay(f: Sir.Function, i: nat, j: nat, s: Sir.Symbol)
    requires i <= j <= |f.body| && DeclaredFirst(f) && s in VarsAt(f, i).0
    ensures s in VarsAt(f, j).0 && VarsAt(f, j).0[s] == VarsAt(f, i).0[s]
    decreases j
  {
    hide VarsAt;
    if i < j {
      VarsStay(f, i, j - 1, s);
      VarsNext(f, j - 1, s);
    }
  }

  /** Only stores and declarations of `s` give a value to its variable. */
  lemma GivesOwn(f: Sir.Function, w: nat, l: nat, s: Sir.Symbol)
    requires Sir.Distinct(f.params) && DeclaredFirst(f) && w < |f.body| && l <= |f.body| && s in VarsAt(f, l).0
    ensures Gives(f, w, VarsAt(f, l).0[s]) <==>
      (f.body[w].Store? || (f.body[w].VarDef? && f.body[w].init.Some?)) && f.body[w].name == s
  {
    var i := f.body[w];
    if i.Store? || i.VarDef? {
      NamedAfter(f, w);
      VarsStay(f, w + 1, |f.body|, i.name);
      VarsStay(f, l, |f.body|, s);
      VarsOneEach(f, |f.body|);
      hide VarsAt;
    }
  }

  lemma NamedAfter(f: Sir.Function, w: nat)
    requires w < |f.body| && (f.body[w].Store? || f.body[w].VarDef?)
    ensures f.body[w].name in VarsAt(f, w + 1).0
  {
  }

  /** Along any way the variable is fresh, but for the moment between a declaration and its store. */
  lemma {:induction false} FreshAlong(f: Sir.Function, q: seq<nat>, n: nat, l: nat, s: Sir.Symbol)
    requires Sir.Distinct(f.params) && DeclaredFirst(f) && Trails.EntryPath(f.body, q) && n < |q|
    requires l <= |f.body| && s in VarsAt(f, l).0
    ensures Fresh(f, q, n, s, VarsAt(f, l).0[s]) ||
      (n > 0 && f.body[q[n - 1]].VarDef? && f.body[q[n - 1]].init.Some? && f.body[q[n - 1]].name == s)
  {
    var x := VarsAt(f, l).0[s];
    if n == 0 {
      if s in f.params {
        ParamsOneEach(f.params);
        VarsStay(f, 0, |f.body|, s);
        VarsStay(f, l, |f.body|, s);
      }
    } else {
      assert Sir.Successor(f.body, q[n - 1], q[n]);
      FreshAlong(f, q, n - 1, l, s);
      GivesOwn(f, q[n - 1], l, s);
      if n > 1 {
        assert Sir.Successor(f.body, q[n - 2], q[n - 1]);
      }
      hide VarsAt, Gives;
    }
  }

  /** Code that declares its locals like that reads every variable fresh, parameters included. */
  lemma DeclaredFresh(known: set<Sir.Symbol>, f: Sir.Function)
    requires Sir.Distinct(f.params) && DeclaredFirst(f) && Simulable(known, f)
    ensures ReadsFresh(f)
  {
    hide Simulable, DeclaredFirst, VarsAt;
    forall l, s | 0 <= l < |f.body| && f.body[l].Load? && f.body[l].src == Sir.Local(s) ensures s in VarsAt(f, l).0 {
      LocalReady(known, f, l, s);
    }
    KnownFresh(f);
  }

  /** A load by name mentions a local that was mentioned before. */
  ghost predicate LoadsKnown(f: Sir.Function) {
    forall l, s :: 0 <= l < |f.body| && f.body[l].Load? && f.body[l].src == Sir.Local(s) ==> s in VarsAt(f, l).0
  }

  lemma KnownFresh(f: Sir.Function)
    requires Sir.Distinct(f.params) && DeclaredFirst(f) && LoadsKnown(f)
    ensures ReadsFresh(f)
  {
    forall q | Trails.EntryPath(f.body, q) ensures FreshAt(f, q) {
      var n := |q| - 1;
      var l := q[n];
      if l < |f.body| && f.body[l].Load? && Sir.SourceName(f.params, f.body[l].src).Some? {
        var s := Sir.SourceName(f.params, f.body[l].src).value;
        LoadKnown(f, l);
        FreshAlong(f, q, n, l, s);
        if n > 0 {
          assert Sir.Successor(f.body, q[n - 1], q[n]);
        }
        hide VarsAt, Fresh;
      }
    }
  }

  /** What a load reads has a variable, that of its name. */
  lemma LoadKnown(f: Sir.Function, l: nat)
    requires Sir.Distinct(f.params) && DeclaredFirst(f) && LoadsKnown(f) && l < |f.body| && f.body[l].Load?
    ensures var name := Sir.SourceName(f.params, f.body[l].src);
      name.Some? ==> name.value in VarsAt(f, l).0 && SourceVar(f, l, f.body[l].src) == VarsAt(f, l).0[name.value]
  {
    match f.body[l].src
    case Param(k) =>
      if k < |f.params| {
        ParamNumbers(f.params, k);
        VarsStay(f, 0, l, f.params[k]);
      }
    case Local(s) =>
  }

  lemma LocalReady(known: set<Sir.Symbol>, f: Sir.Function, l: nat, s: Sir.Symbol)
    requires Simulable(known, f) && l < |f.body| && f.body[l].Load? && f.body[l].src == Sir.Local(s)
    ensures s in VarsAt(f, l).0
  {
    Numbering(known, f, l);
    AtStep(known, f, l);
    assert Ready(known, f, l);
    hide At, VarsAt, Simulable;
  }

  // --- Every run is sound --------------------------------------------------

  /** Variables are current, no aggregate is let out of its activation, and those that may be built again
      are used only until then. */
  ghost predicate SafeText(f: Sir.Function, own: Regions.Own) {
    ReadsFresh(f) && Regions.Confined(f, own) && Rounds.Settled(f, own.again)
  }

  ghost predicate AllSafe(p: Sir.Program, owns: map<Sir.Symbol, Regions.Own>) {
    forall fn :: fn in p ==> fn in owns && SafeText(p[fn], owns[fn])
  }

  lemma SafeParts(p: Sir.Program, owns: map<Sir.Symbol, Regions.Own>)
    requires AllSafe(p, owns)
    ensures Regions.AllConfined(p, owns) && Rounds.AllSettled(p, owns)
    ensures forall fn :: fn in p ==> ReadsFresh(p[fn])
  {
    hide ReadsFresh, Regions.Confined, Rounds.Settled;
  }

  /** An aggregate that is used while it is the latest is found where it was built. */
  lemma Found(f: Sir.Function, again: set<nat>, a: Act, sf: Sir.Frame, m: set<nat>, n: nat, lost: Lost, v: Sir.ValueId)
    requires Rounds.FrameRolls(f, again, a, sf, m, n, lost.later) && lost.later.Keys <= m
    requires forall y :: y in lost.dead && y in lost.later ==> lost.later[y] in lost.dead
    requires v in sf.vals && (sf.vals[v].Ref? ==> sf.vals[v].addr !in lost.dead)
    requires Rounds.Latest(Rounds.Visits(a.past), Rounds.TraceOf(f, again, Rounds.Visits(a.past)), v)
    ensures Today(lost.later, sf.vals[v]) == sf.vals[v]
    ensures sf.vals[v].Ref? ==> Lives(lost, sf.vals[v].addr) && Held(lost.later, sf.vals[v].addr) == sf.vals[v].addr
  {
    hide Rounds.FrameRolls, Rounds.Latest, Rounds.TraceOf;
    if sf.vals[v].Ref? {
      Rounds.LatestHeld(f, again, a, sf, m, n, lost.later, v);
    }
  }

  lemma InstructionSound(ops: Sir.Ops, f: Sir.Function, again: set<nat>, a: Act, sf: Sir.Frame, m: set<nat>, heap: Heap,
                         lost: Lost)
    requires ReadsFresh(f) && Tracks(f, a, sf) && Rounds.SettledAt(f, again, Rounds.Visits(a.past), sf.pc)
    requires Rounds.FrameRolls(f, again, a, sf, m, |heap|, lost.later) && lost.later.Keys <= m
    requires forall y :: y in lost.dead && y in lost.later ==> lost.later[y] in lost.dead
    requires forall v :: v in sf.vals && sf.vals[v].Ref? ==> sf.vals[v].addr !in lost.dead
    ensures Sound(ops, f, a, sf, heap, lost)
  {
    hide ReadsFresh, Tracks, Cells, SourceVar, Rounds.FrameRolls, Rounds.Latest, Rounds.TraceOf, Rounds.Handed, Lives;
    hide Held;
    if sf.pc < |f.body| {
      match f.body[sf.pc]
      case Load(_, _) => LoadFresh(ops, f, a, sf, heap, lost);
      case BinOp(_, _, l, r) =>
        if l in sf.vals && r in sf.vals {
          Found(f, again, a, sf, m, |heap|, lost, l);
          Found(f, again, a, sf, m, |heap|, lost, r);
        }
      case TupleIndex(_, t, _) =>
        if t in sf.vals {
          Found(f, again, a, sf, m, |heap|, lost, t);
        }
      case FieldStore(b, _, _) =>
        if b in sf.vals {
          Found(f, again, a, sf, m, |heap|, lost, b);
        }
      case _ =>
    }
  }

  /** A state that a run of safe functions has come to takes a sound step. */
  lemma StateSound(p: Sir.Program, owns: map<Sir.Symbol, Regions.Own>, ops: Sir.Ops, s: Sir.State, h: History,
                   base: set<nat>, m: set<nat>)
    requires AllSafe(p, owns) && Tracked(p, s, h) && Regions.Apart(p, owns, s, h, base)
    requires Rounds.Rolls(p, owns, s, h, m)
    ensures SoundState(p, ops, s, h)
  {
    hide AllSafe, Tracks, Regions.Apart, Rounds.Rolls, Sound, ReadsFresh, Regions.AllConfined, Rounds.AllSettled;
    hide Rounds.FrameRolls, Rounds.SettledAt, Rounds.Traced, Rounds.Current;
    if s.Run? && s.frames != [] && |h.acts| == |s.frames| && s.frames[0].fn in p {
      var f, a, sf := p[s.frames[0].fn], h.acts[0], s.frames[0];
      assert FrameTracked(p, a, sf);
      SafeParts(p, owns);
      Rounds.TopRolls(p, owns, s, h, m);
      Rounds.ClosedBefore(p, owns, s, h, m);
      forall v | v in sf.vals && sf.vals[v].Ref? ensures sf.vals[v].addr !in h.lost.dead {
        Regions.HeldAlive(p, owns, s, h, base, v);
      }
      InstructionSound(ops, f, owns[sf.fn].again, a, sf, m, s.heap, h.lost);
    }
  }

  /** Every run of safe functions stays sound, so that `Forward` and `Backward` apply to it. */
  lemma SafeRun(p: Sir.Program, owns: map<Sir.Symbol, Regions.Own>, ops: Sir.Ops, fn: Sir.Symbol, args: seq<Val>,
                heap: Heap)
    requires AllSafe(p, owns) && Sir.PrimOps(ops) && Sir.Whole(args, heap)
    requires Sir.Start(p, fn, args, heap) != Sir.Fault
    ensures SoundRun(p, ops, fn, args, heap)
  {
    hide AllSafe, Sir.PrimOps, Sir.Whole, SoundState, Regions.Apart, Regions.AllConfined, Tracked, Rounds.Rolls;
    hide Sir.Start, Sir.Step, Record, ReadsFresh, Rounds.AllSettled;
    var s := Sir.Start(p, fn, args, heap);
    SafeParts(p, owns);
    StartTracks(p, fn, args, heap);
    forall k: nat | Sir.Steps(p, ops, s, k) != Sir.Fault
      ensures SoundState(p, ops, Sir.Steps(p, ops, s, k), After(p, ops, s, Begin(args), k))
    {
      RunTracks(p, ops, s, Begin(args), k);
      Regions.RunApart(p, owns, ops, fn, args, heap, k);
      var m := Rounds.RunRolls(p, owns, ops, fn, args, heap, k);
      StateSound(p, owns, ops, Sir.Steps(p, ops, s, k), After(p, ops, s, Begin(args), k), Regions.Below(|heap|), m);
    }
  }

  /** Whatever a call of safe functions returns, the blocks return. */
  lemma SafeForward(p: Sir.Program, q: Program, owns: map<Sir.Symbol, Regions.Own>, ops: Sir.Ops, fn: Sir.Symbol,
                    args: seq<Val>, heap: Heap, n: nat) returns (m: nat, w: Where)
    requires Compiled(p, q) && AllSafe(p, owns) && Sir.Blind(ops) && Sir.Whole(args, heap)
    requires Sir.Steps(p, ops, Sir.Start(p, fn, args, heap), n).Done?
    ensures EndsLike(Sir.Steps(p, ops, Sir.Start(p, fn, args, heap), n),
      After(p, ops, Sir.Start(p, fn, args, heap), Begin(args), n).lost,
      Steps(q, ops, Start(q, fn, args, heap), m), w, |heap|)
  {
    hide Compiled, AllSafe, Sir.PrimOps, Sir.Whole, SoundRun, Start, EndsLike;
    Sir.FaultEarlier(p, ops, Sir.Start(p, fn, args, heap), 0, n);
    SafeRun(p, owns, ops, fn, args, heap);
    m, w := Forward(p, q, ops, fn, args, heap, n);
  }

  /** When the blocks of safe functions end, the source has ended alike. */
  lemma SafeBackward(p: Sir.Program, q: Program, owns: map<Sir.Symbol, Regions.Own>, ops: Sir.Ops, fn: Sir.Symbol,
                     args: seq<Val>, heap: Heap, m: nat) returns (n: nat, w: Where)
    requires Compiled(p, q) && AllSafe(p, owns) && Sir.Blind(ops) && Sir.Whole(args, heap)
    requires forall n: nat :: Sir.Steps(p, ops, Sir.Start(p, fn, args, heap), n) != Sir.Fault
    ensures var end := Steps(q, ops, Start(q, fn, args, heap), m);
      && (end.Run? || end.Done?)
      && (end.Done? ==>
        EndsLike(Sir.Steps(p, ops, Sir.Start(p, fn, args, heap), n),
          After(p, ops, Sir.Start(p, fn, args, heap), Begin(args), n).lost, end, w, |heap|))
  {
    hide Compiled, AllSafe, Sir.PrimOps, Sir.Whole, SoundRun, Start, EndsLike, Sir.Start, Sir.Step;
    assert Sir.Steps(p, ops, Sir.Start(p, fn, args, heap), 0) == Sir.Start(p, fn, args, heap);
    SafeRun(p, owns, ops, fn, args, heap);
    n, w := Backward(p, q, ops, fn, args, heap, m);
  }
}
