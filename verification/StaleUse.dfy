/** When promotion is safe: a condition on the text of a function, that no path from a promoted load
    to a use of the loaded value stores to the local in between, and the proof that it makes every
    run of the promoted program agree with the memory version. */
module StaleUse {
  import opened Wrappers
  import Sir
  import PromotionPlan
  import opened PromotedCode

  ghost predicate Path(body: seq<Sir.Insn>, q: seq<nat>) {
    && |q| >= 2
    && forall k :: 0 <= k < |q| - 1 ==> q[k] < |body| && Sir.Successor(body, q[k], q[k + 1])
  }

  /** `q` leaves the load at `l` and does not come back to it before its end. */
  ghost predicate From(body: seq<Sir.Insn>, l: nat, q: seq<nat>) {
    Path(body, q) && q[0] == l && forall k :: 0 < k < |q| - 1 ==> q[k] != l
  }

  /** No instruction strictly between the ends of `q` stores to `s`. */
  ghost predicate Untouched(body: seq<Sir.Insn>, q: seq<nat>, s: Symbol)
    requires Path(body, q)
  {
    forall k :: 0 < k < |q| - 1 ==> !(body[q[k]].Store? && body[q[k]].name == s)
  }

  /** The local that the load at `l` reads. */
  function Loaded(u: Compiled, l: nat): Option<Symbol>
    requires l < |u.f.body| && u.f.body[l].Load?
  {
    Sir.SourceName(u.f.params, u.f.body[l].src)
  }

  /** A value loaded from a promoted local is never used after a later store to that local. */
  ghost predicate NoStaleUse(u: Compiled) {
    forall l: nat, q: seq<nat> ::
      l < |u.f.body| && Promoted(u, l) && From(u.f.body, l, q) && q[|q| - 1] < |u.f.body|
        && u.f.body[l].dst in Uses(u.f.body[q[|q| - 1]]) && Loaded(u, l).Some?
      ==> Untouched(u.f.body, q, Loaded(u, l).value)
  }

  // --- What every activation remembers -------------------------------------

  /** Some path from the load at `l` led to `pc`; if it stored nothing to the local, the local still
      holds the loaded value. */
  ghost predicate Witness(u: Compiled, sf: Sir.Frame, l: nat, q: seq<nat>)
    requires l < |u.f.body| && u.f.body[l].Load? && u.f.body[l].dst in sf.vals
  {
    && From(u.f.body, l, q) && q[|q| - 1] == sf.pc
    && Loaded(u, l).Some? && Loaded(u, l).value in sf.locals
    && (Untouched(u.f.body, q, Loaded(u, l).value) ==> sf.vals[u.f.body[l].dst] == sf.locals[Loaded(u, l).value])
  }

  ghost predicate Remembers(u: Compiled, sf: Sir.Frame) {
    forall l: nat | l < |u.f.body| && Promoted(u, l) && u.f.body[l].dst in sf.vals :: exists q :: Witness(u, sf, l, q)
  }

  /** What an instruction may change in its frame. */
  ghost predicate Effect(u: Compiled, sf: Sir.Frame, sf': Sir.Frame)
    requires sf.pc < |u.f.body|
  {
    var i := u.f.body[sf.pc];
    && (forall v :: v in sf'.vals && Sir.Defines(i) != Some(v) ==> v in sf.vals && sf'.vals[v] == sf.vals[v])
    && (forall s :: s in sf.locals ==> s in sf'.locals)
    && (forall s :: s in sf.locals && !(i.Store? && i.name == s) ==> sf'.locals[s] == sf.locals[s])
    && (i.Load? ==>
      var name := Sir.SourceName(u.f.params, i.src);
      name.Some? && name.value in sf'.locals && i.dst in sf'.vals && sf'.vals[i.dst] == sf'.locals[name.value])
  }

  lemma ExtendPath(body: seq<Sir.Insn>, l: nat, q: seq<nat>, j: nat)
    requires From(body, l, q) && q[|q| - 1] != l && q[|q| - 1] < |body| && Sir.Successor(body, q[|q| - 1], j)
    ensures From(body, l, q + [j])
  {
    hide Sir.Successor;
    var r := q + [j];
    forall k | 0 <= k < |r| - 1 ensures r[k] < |body| && Sir.Successor(body, r[k], r[k + 1]) {
      if k < |q| - 1 {
        assert r[k] == q[k] && r[k + 1] == q[k + 1];
      }
    }
  }

  lemma Forget(u: Compiled, sf: Sir.Frame, sf': Sir.Frame, l: nat) returns (q: seq<nat>)
    requires Sir.SingleDefs(u.f.body) && Remembers(u, sf) && sf.pc < |u.f.body|
    requires Effect(u, sf, sf') && Sir.Successor(u.f.body, sf.pc, sf'.pc)
    requires l < |u.f.body| && Promoted(u, l) && u.f.body[l].dst in sf'.vals
    ensures Witness(u, sf', l, q)
  {
    hide Sir.Successor;
    if sf.pc == l {
      q := [l, sf'.pc];
    } else {
      assert Sir.Defines(u.f.body[l]) == Some(u.f.body[l].dst);
      assert Sir.Defines(u.f.body[sf.pc]) != Sir.Defines(u.f.body[l]);
      var before :| Witness(u, sf, l, before);
      ExtendPath(u.f.body, l, before, sf'.pc);
      q := before + [sf'.pc];
      var s := Loaded(u, l).value;
      if Untouched(u.f.body, q, s) {
        var k := |before| - 1;
        assert q[k] == sf.pc;
        forall k | 0 < k < |before| - 1 ensures !(u.f.body[before[k]].Store? && u.f.body[before[k]].name == s) {
          assert q[k] == before[k];
        }
      }
    }
  }

  lemma RemembersStep(u: Compiled, sf: Sir.Frame, sf': Sir.Frame)
    requires Sir.SingleDefs(u.f.body) && Remembers(u, sf) && sf.pc < |u.f.body|
    requires Effect(u, sf, sf') && Sir.Successor(u.f.body, sf.pc, sf'.pc)
    ensures Remembers(u, sf')
  {
    hide Effect, Sir.Successor, Witness;
    forall l: nat | l < |u.f.body| && Promoted(u, l) && u.f.body[l].dst in sf'.vals
      ensures exists q :: Witness(u, sf', l, q)
    {
      var q := Forget(u, sf, sf', l);
    }
  }

  /** Without stale uses, what is about to be used is current. */
  lemma RememberedIsCurrent(u: Compiled, sf: Sir.Frame)
    requires NoStaleUse(u) && Remembers(u, sf)
    ensures UseCurrent(u, sf)
  {
    if sf.pc < |u.f.body| {
      forall v | v in Uses(u.f.body[sf.pc]) && v in sf.vals ensures Current(u, sf, v) {
        var b := BoundBy(u, sf.pc, v);
        if b.Some? {
          var q :| Witness(u, sf, b.value, q);
          assert Untouched(u.f.body, q, Loaded(u, b.value).value);
        }
      }
    }
  }

  // --- Runs ----------------------------------------------------------------

  ghost predicate AllRemember(p: Program, s: Sir.State) {
    s.Run? ==> forall i :: 0 <= i < |s.frames| ==> s.frames[i].fn in p && Remembers(p[s.frames[i].fn], s.frames[i])
  }

  ghost predicate Safe(u: Compiled) {
    WellFormed(u) && NoStaleUse(u)
  }

  ghost predicate AllSafe(p: Program) {
    forall fn :: fn in p ==> Safe(p[fn])
  }

  lemma StraightEffect(u: Compiled, ops: Sir.Ops, sf: Sir.Frame, heap: Heap)
    requires sf.pc < |u.f.body| && !Sir.Control(u.f.body[sf.pc])
    requires Sir.Straight(ops, u.f.params, u.f.body[sf.pc], sf, heap).Some?
    ensures var sf' := Sir.Straight(ops, u.f.params, u.f.body[sf.pc], sf, heap).value.0;
      sf'.fn == sf.fn && Effect(u, sf, sf'.(pc := sf.pc + 1)) && Sir.Successor(u.f.body, sf.pc, sf.pc + 1)
  {
  }

  lemma FrontRemembers(p: Program, s: Sir.State, f: Sir.Frame, heap: Heap)
    requires s.Run? && s.frames != [] && AllRemember(p, s) && f.fn in p && Remembers(p[f.fn], f)
    ensures AllRemember(p, Sir.Run([f] + s.frames[1..], heap)) && AllRemember(p, Sir.Run([f] + s.frames, heap))
  {
    hide Remembers;
  }

  lemma NothingRemembered(u: Compiled, fn: Symbol, args: seq<Val>)
    requires |args| == |u.f.params|
    ensures Remembers(u, Sir.Enter(fn, u.f.params, args)) && Sir.Enter(fn, u.f.params, args).fn == fn
  {
    hide Promoted, Witness;
  }

  lemma ResumeRemembers(p: Program, callers: seq<Sir.Frame>, value: Val, heap: Heap)
    requires AllSafe(p) && AllRemember(p, Sir.Run(callers, heap))
    ensures AllRemember(p, Sir.Resume(Source(p), callers, value, heap))
  {
    hide Remembers, Safe;
    var out := Sir.Resume(Source(p), callers, value, heap);
    if callers != [] && out.Run? {
      var f := callers[0];
      var u := p[f.fn];
      var f' := Sir.SetVal(f, u.f.body[f.pc].dst, value).(pc := f.pc + 1);
      SafeParts(u);
      RemembersStep(u, f, f');
      FrontRemembers(p, Sir.Run(callers, heap), f', heap);
    }
  }

  lemma SafeParts(u: Compiled)
    requires Safe(u)
    ensures Sir.SingleDefs(u.f.body) && NoStaleUse(u) && WellFormed(u)
  {
    hide NoStaleUse;
  }

  lemma GoRemembers(p: Program, s: Sir.State, pc: nat)
    requires AllSafe(p) && AllRemember(p, s) && s.Run? && s.frames != [] && s.frames[0].pc < |p[s.frames[0].fn].f.body|
    requires Sir.Control(p[s.frames[0].fn].f.body[s.frames[0].pc])
    requires Sir.Successor(p[s.frames[0].fn].f.body, s.frames[0].pc, pc)
    requires !p[s.frames[0].fn].f.body[s.frames[0].pc].Call?
    ensures AllRemember(p, Sir.Run([s.frames[0].(pc := pc)] + s.frames[1..], s.heap))
  {
    hide Remembers, Safe, Sir.Successor;
    var f := s.frames[0];
    SafeParts(p[f.fn]);
    RemembersStep(p[f.fn], f, f.(pc := pc));
    FrontRemembers(p, s, f.(pc := pc), s.heap);
  }

  /** Every step of the memory version keeps what its activations remember. */
  lemma StepRemembers(p: Program, ops: Sir.Ops, s: Sir.State)
    requires AllSafe(p) && AllRemember(p, s)
    ensures AllRemember(p, Sir.Step(Source(p), ops, s))
  {
    hide AllSafe, Remembers, Sir.Straight, Sir.Resume, Sir.Enter;
    if s.Run? && s.frames != [] && s.frames[0].pc < |p[s.frames[0].fn].f.body| {
      var f := s.frames[0];
      var u := p[f.fn];
      AllSafeFn(p, f.fn);
      match u.f.body[f.pc]
      case Jump(target) =>
        if Sir.LabelIndex(u.f.body, target).Some? {
          GoRemembers(p, s, Sir.LabelIndex(u.f.body, target).value);
        }
      case BranchIfNot(_, target) =>
        if Sir.LabelIndex(u.f.body, target).Some? {
          GoRemembers(p, s, Sir.LabelIndex(u.f.body, target).value);
        }
        GoRemembers(p, s, f.pc + 1);
      case Return(result) =>
        TailRemembers(p, s);
        if result.None? {
          ResumeRemembers(p, s.frames[1..], Sir.Unit, s.heap);
        } else if result.value in f.vals {
          ResumeRemembers(p, s.frames[1..], f.vals[result.value], s.heap);
        }
      case Call(_, name, args) =>
        var vs := Sir.Operands(f.vals, args);
        if vs.Some? && name in p && |p[name].f.params| == |vs.value| {
          NothingRemembered(p[name], name, vs.value);
          FrontRemembers(p, s, Sir.Enter(name, p[name].f.params, vs.value), s.heap);
          assert [Sir.Enter(name, p[name].f.params, vs.value), f] + s.frames[1..] ==
            [Sir.Enter(name, p[name].f.params, vs.value)] + s.frames;
        }
      case _ =>
        PlainRemembers(p, ops, s);
    }
  }

  lemma PlainRemembers(p: Program, ops: Sir.Ops, s: Sir.State)
    requires AllSafe(p) && AllRemember(p, s) && s.Run? && s.frames != [] && s.frames[0].pc < |p[s.frames[0].fn].f.body|
    requires !Sir.Control(p[s.frames[0].fn].f.body[s.frames[0].pc])
    ensures var f := s.frames[0];
      var out := Sir.Straight(ops, p[f.fn].f.params, p[f.fn].f.body[f.pc], f, s.heap);
      out.Some? ==> AllRemember(p, Sir.Run([out.value.0.(pc := f.pc + 1)] + s.frames[1..], out.value.1))
  {
    hide AllSafe, Remembers, Sir.Straight;
    var f := s.frames[0];
    var u := p[f.fn];
    AllSafeFn(p, f.fn);
    var out := Sir.Straight(ops, u.f.params, u.f.body[f.pc], f, s.heap);
    if out.Some? {
      StraightEffect(u, ops, f, s.heap);
      RemembersStep(u, f, out.value.0.(pc := f.pc + 1));
      FrontRemembers(p, s, out.value.0.(pc := f.pc + 1), out.value.1);
    }
  }

  lemma AllSafeFn(p: Program, fn: Symbol)
    requires AllSafe(p) && fn in p
    ensures Sir.SingleDefs(p[fn].f.body) && NoStaleUse(p[fn]) && WellFormed(p[fn])
  {
    hide Safe;
    SafeParts(p[fn]);
  }

  lemma TailRemembers(p: Program, s: Sir.State)
    requires s.Run? && s.frames != [] && AllRemember(p, s)
    ensures AllRemember(p, Sir.Run(s.frames[1..], s.heap))
  {
    hide Remembers;
  }

  lemma {:induction false} RunRemembers(p: Program, ops: Sir.Ops, fn: Symbol, args: seq<Val>, heap: Heap, n: nat)
    requires AllSafe(p) && fn in p && |args| == |p[fn].f.params|
    ensures AllRemember(p, Sir.Steps(Source(p), ops, Sir.Start(Source(p), fn, args, heap), n))
  {
    hide AllSafe, Sir.Step, Remembers, Sir.Enter;
    if n == 0 {
      NothingRemembered(p[fn], fn, args);
    } else {
      RunRemembers(p, ops, fn, args, heap, n - 1);
      StepRemembers(p, ops, Sir.Steps(Source(p), ops, Sir.Start(Source(p), fn, args, heap), n - 1));
    }
  }

  lemma RememberedState(p: Program, s: Sir.State)
    requires AllSafe(p) && AllRemember(p, s)
    ensures CurrentState(p, s)
  {
    hide Remembers, AllSafe, UseCurrent;
    if s.Run? && s.frames != [] && s.frames[0].fn in p {
      AllSafeFn(p, s.frames[0].fn);
      RememberedIsCurrent(p[s.frames[0].fn], s.frames[0]);
    }
  }

  /** A program without stale uses runs the same with its hottest locals in registers as with every
      local in memory, over whole runs and recursive calls included. */
  lemma PromotionSafe(p: Program, ops: Sir.Ops, fn: Symbol, args: seq<Val>, regs0: Regs, heap: Heap, n: nat)
    requires AllSafe(p) && HasRegs(p, regs0) && fn in p && |args| == |p[fn].f.params|
    requires Sir.Steps(Source(p), ops, Sir.Start(Source(p), fn, args, heap), n) != Sir.Fault
    ensures Match(p, Sir.Steps(Source(p), ops, Sir.Start(Source(p), fn, args, heap), n),
                  Steps(p, ops, Start(p, fn, args, regs0, heap), n), regs0)
  {
    hide AllSafe, AllRemember, CurrentState, Match, WellFormed, Sir.Steps, Steps, Sir.Start, Start, HasRegs;
    forall k: nat | k < n ensures CurrentState(p, Sir.Steps(Source(p), ops, Sir.Start(Source(p), fn, args, heap), k)) {
      RunRemembers(p, ops, fn, args, heap, k);
      RememberedState(p, Sir.Steps(Source(p), ops, Sir.Start(Source(p), fn, args, heap), k));
    }
    forall g | g in p ensures WellFormed(p[g]) {
      AllSafeFn(p, g);
    }
    PromotionPreserves(p, ops, fn, args, regs0, heap, n);
  }

  /** In particular a call returns the same value and heap, and gives back every register. */
  lemma PromotedResult(p: Program, ops: Sir.Ops, fn: Symbol, args: seq<Val>, regs0: Regs, heap: Heap, n: nat)
    requires AllSafe(p) && HasRegs(p, regs0) && fn in p && |args| == |p[fn].f.params|
    requires Sir.Steps(Source(p), ops, Sir.Start(Source(p), fn, args, heap), n).Done?
    ensures var end := Sir.Steps(Source(p), ops, Sir.Start(Source(p), fn, args, heap), n);
      Steps(p, ops, Start(p, fn, args, regs0, heap), n) == Done(end.value, regs0, end.heap)
  {
    hide AllSafe, HasRegs, Sir.Steps, Steps;
    PromotionSafe(p, ops, fn, args, regs0, heap, n);
  }

  // --- The condition is needed ---------------------------------------------

  /** `fn(a, b) { a, b = b, a; return b }`, both values loaded before either store. */
  function Swap(): Sir.Function {
    Sir.Function([0, 1], [
      Sir.Load(0, Sir.Local(0)), Sir.Load(1, Sir.Local(1)), Sir.Store(0, 1), Sir.Store(1, 0),
      Sir.Load(2, Sir.Local(1)), Sir.Return(Some(2))])
  }

  function SwapPlan(): Plan {
    PromotionPlan.Plan(map[0 := 20, 1 := 19], [19, 20], map[], [])
  }

  function SwapCompiled(): Compiled {
    Compiled(Swap(), SwapPlan(), [false, false])
  }

  function Integers(): seq<PromotionPlan.LocalKind> {
    seq(6, _ => PromotionPlan.GpScalar)
  }

  lemma SwapKinds(s: Symbol)
    ensures PromotionPlan.KindOf(Swap().body, Integers(), 6, s) == if s <= 1 then Some(PromotionPlan.GpScalar) else None
  {
    hide PromotionPlan.KindOf;
    PromotionPlan.KindExact(Swap().body, Integers(), 6, s);
    if s <= 1 {
      assert Swap().body[2 + s].Store? && Swap().body[2 + s].name == s;
      assert PromotionPlan.StoredIn(Swap().body, 6, s);
    } else {
      assert !PromotionPlan.StoredIn(Swap().body, 6, s);
    }
  }

  lemma SwapCandidates()
    ensures PromotionPlan.Candidates(Swap().body, Integers(), PromotionPlan.GpScalar) == {0, 1}
    ensures PromotionPlan.Candidates(Swap().body, Integers(), PromotionPlan.Float) == {}
  {
    hide PromotionPlan.KindOf;
    forall s
      ensures PromotionPlan.KindOf(Swap().body, Integers(), 6, s) ==
        if s <= 1 then Some(PromotionPlan.GpScalar) else None
    {
      SwapKinds(s);
    }
    var b := Swap().body;
    assert b[2].Store? && b[2].name == 0 && b[3].Store? && b[3].name == 1;
  }

  /** Accesses of a local among the first `k` instructions; the body has no loop. */
  lemma SwapScore(k: nat, s: Symbol)
    requires k <= 6
    ensures PromotionPlan.Score(Swap().body, k, s) ==
      if s == 0 then (if k == 0 then 0 else if k <= 2 then 1 else 2)
      else if s == 1 then (if k <= 1 then 0 else if k <= 3 then 1 else if k == 4 then 2 else 3)
      else 0
  {
    if k > 0 {
      SwapScore(k - 1, s);
      assert PromotionPlan.Covering(Swap().body, 6, k - 1) == {};
    }
  }

  lemma SwapRanks()
    ensures PromotionPlan.Rank(Swap().body, {0, 1}, 0) == 1 && PromotionPlan.Rank(Swap().body, {0, 1}, 1) == 0
  {
    SwapScore(6, 0);
    SwapScore(6, 1);
    hide PromotionPlan.Score;
    assert PromotionPlan.Ahead(Swap().body, {0, 1}, 0) == {1};
    assert PromotionPlan.Ahead(Swap().body, {0, 1}, 1) == {};
  }

  /** The analysis promotes both locals. */
  lemma SwapIsPlanned()
    ensures PromotionPlan.IsPlan(Swap().body, Integers(), true, SwapPlan())
  {
    SwapCandidates();
    SwapRanks();
    hide PromotionPlan.Rank, PromotionPlan.Candidates;
  }

  /** The memory version before its instruction `k`. */
  ghost predicate SwapSourceAt(s: Sir.State, x: Val, y: Val, k: nat) {
    && s.Run? && |s.frames| == 1 && s.heap == []
    && var f := s.frames[0];
      && f.fn == 0 && f.pc == k
      && (k >= 1 ==> 0 in f.vals && f.vals[0] == x) && (k >= 2 ==> 1 in f.vals && f.vals[1] == y)
      && 0 in f.locals && 1 in f.locals
      && f.locals[0] == (if k <= 2 then x else y) && f.locals[1] == (if k <= 3 then y else x)
      && (k >= 5 ==> 2 in f.vals && f.vals[2] == x)
  }

  lemma SwapSourceStep(ops: Sir.Ops, s: Sir.State, x: Val, y: Val, k: nat)
    requires k <= 5 && SwapSourceAt(s, x, y, k)
    ensures var after := Sir.Step(Source(map[0 := SwapCompiled()]), ops, s);
      if k < 5 then SwapSourceAt(after, x, y, k + 1) else after == Sir.Done(x, [])
  {
    assert Source(map[0 := SwapCompiled()])[0] == Swap();
    hide Source;
  }

  /** The promoted version before its instruction `k`: the store of the second local into the first
      has overwritten the only copy of the first. */
  ghost predicate SwapPromotedAt(t: State, x: Val, y: Val, k: nat) {
    && t.Run? && |t.frames| == 1 && t.heap == []
    && t.frames[0].fn == 0 && t.frames[0].pc == k
    && X(19) in t.regs && X(20) in t.regs
    && t.regs[X(20)] == (if k <= 2 then x else y) && t.regs[X(19)] == y
  }

  lemma SwapBindings()
    ensures var u := SwapCompiled();
      && Binding(u, 2, 1) == Some(X(19)) && Binding(u, 3, 0) == Some(X(20)) && Binding(u, 5, 2) == Some(X(19))
  {
  }

  lemma SwapPromotedStep(ops: Sir.Ops, t: State, x: Val, y: Val, k: nat)
    requires k <= 5 && SwapPromotedAt(t, x, y, k)
    ensures var after := Step(map[0 := SwapCompiled()], ops, t);
      if k < 5 then SwapPromotedAt(after, x, y, k + 1) else after.Done? && after.value == y
  {
    SwapBindings();
    hide BoundBy, Binding;
  }

  lemma SwapStarts(ops: Sir.Ops, x: Val, y: Val, regs: Regs)
    ensures SwapSourceAt(Sir.Start(Source(map[0 := SwapCompiled()]), 0, [x, y], []), x, y, 0)
    ensures SwapPromotedAt(Start(map[0 := SwapCompiled()], 0, [x, y], regs, []), x, y, 0)
  {
    var u := SwapCompiled();
    assert Sir.Distinct([0, 1]);
    assert PromoteParams(u, [x, y], regs, 0) == regs;
    assert PromoteParams(u, [x, y], regs, 1) == regs[X(20) := x];
    assert PromoteParams(u, [x, y], regs, 2) == regs[X(20) := x][X(19) := y];
  }

  lemma {:induction false} SwapRuns(ops: Sir.Ops, x: Val, y: Val, regs: Regs, k: nat)
    requires k <= 5
    ensures var p := map[0 := SwapCompiled()];
      && SwapSourceAt(Sir.Steps(Source(p), ops, Sir.Start(Source(p), 0, [x, y], []), k), x, y, k)
      && SwapPromotedAt(Steps(p, ops, Start(p, 0, [x, y], regs, []), k), x, y, k)
  {
    hide Sir.Step, Step, Sir.Start, Start, Source, SwapSourceAt, SwapPromotedAt, SwapCompiled;
    var p := map[0 := SwapCompiled()];
    if k == 0 {
      SwapStarts(ops, x, y, regs);
    } else {
      SwapRuns(ops, x, y, regs, k - 1);
      SwapSourceStep(ops, Sir.Steps(Source(p), ops, Sir.Start(Source(p), 0, [x, y], []), k - 1), x, y, k - 1);
      SwapPromotedStep(ops, Steps(p, ops, Start(p, 0, [x, y], regs, []), k - 1), x, y, k - 1);
    }
  }

  /** With a stale use the promoted program is wrong: the analysis promotes both locals, and the
      swap returns its first argument from memory but its second from registers. */
  lemma SwapBroken(ops: Sir.Ops, x: Val, y: Val, regs: Regs)
    ensures PromotionPlan.IsPlan(Swap().body, Integers(), true, SwapPlan())
    ensures var p := map[0 := SwapCompiled()];
      && Sir.Steps(Source(p), ops, Sir.Start(Source(p), 0, [x, y], []), 6) == Sir.Done(x, [])
      && Steps(p, ops, Start(p, 0, [x, y], regs, []), 6).Done?
      && Steps(p, ops, Start(p, 0, [x, y], regs, []), 6).value == y
  {
    hide Sir.Step, Step, Sir.Start, Start, Source, SwapSourceAt, SwapPromotedAt, SwapCompiled;
    var p := map[0 := SwapCompiled()];
    SwapIsPlanned();
    SwapRuns(ops, x, y, regs, 5);
    SwapSourceStep(ops, Sir.Steps(Source(p), ops, Sir.Start(Source(p), 0, [x, y], []), 5), x, y, 5);
    SwapPromotedStep(ops, Steps(p, ops, Start(p, 0, [x, y], regs, []), 5), x, y, 5);
  }
}
