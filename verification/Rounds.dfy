/** Aggregates that are built again, round after round. The way an activation has come decides which
    values and locals still hold one of them; if those that are overtaken are not used any more and none
    is handed on, no step ever meets an aggregate whose place has been taken. */
module Rounds {
  import opened Wrappers
  import opened Sir
  import opened Trails
  import opened Regions

  // --- A condition on the text ---------------------------------------------

  /** For the values and locals that hold an aggregate that may be built again: the visit, counted along
      the way, at which it was built. */
  datatype Trace = Trace(vals: map<ValueId, nat>, locals: map<Symbol, nat>)

  function Mark<K>(m: map<K, nat>, k: K, visit: Option<nat>): map<K, nat> {
    if visit.Some? then m[k := visit.value] else m - {k}
  }

  /** What visiting instruction `i` as the `visit`-th changes. */
  function TraceStep(f: Function, again: set<nat>, t: Trace, visit: nat, i: nat): Trace
    requires i < |f.body|
  {
    match f.body[i]
    case Construct(dst, _, _) => t.(vals := Mark(t.vals, dst, if i in again then Some(visit) else None))
    case Load(dst, src) =>
      var name := SourceName(f.params, src);
      t.(vals := Mark(t.vals, dst, if name.Some? then Lookup(t.locals, name.value) else None))
    case Store(name, v) => t.(locals := Mark(t.locals, name, Lookup(t.vals, v)))
    case x => if Defines(x).Some? then t.(vals := Mark(t.vals, Defines(x).value, None)) else t
  }

  function TraceOf(f: Function, again: set<nat>, q: seq<nat>): Trace {
    if q == [] then Trace(map[], map[])
    else
      var n := |q| - 1;
      var t := TraceOf(f, again, q[..n]);
      if q[n] < |f.body| then TraceStep(f, again, t, n, q[n]) else t
  }

  /** If `v` holds an aggregate that may be built again, its instruction has not been visited since. */
  predicate Latest(q: seq<nat>, t: Trace, v: ValueId) {
    v in t.vals && t.vals[v] < |q| ==> forall j :: t.vals[v] < j < |q| ==> q[j] != q[t.vals[v]]
  }

  /** None of the values holds an aggregate that may be built again. */
  predicate Handed(t: Trace, vs: seq<ValueId>) {
    forall k :: 0 <= k < |vs| ==> vs[k] !in t.vals
  }

  /** On the way `q` to instruction `l`: an aggregate that may be built again is used only until then,
      and is put in no field, passed to no call and not returned; no other is built twice. */
  predicate SettledAt(f: Function, again: set<nat>, q: seq<nat>, l: nat) {
    l < |f.body| ==>
      var t := TraceOf(f, again, q);
      match f.body[l]
      case TupleIndex(_, b, _) => Latest(q, t, b)
      case FieldStore(b, _, v) => Latest(q, t, b) && Handed(t, [v])
      case BinOp(_, _, x, y) => Latest(q, t, x) && Latest(q, t, y)
      case Construct(_, _, fields) => Handed(t, fields) && (l in again || l !in q)
      case Call(_, _, args) => Handed(t, args)
      case Return(r) => r.Some? ==> Handed(t, [r.value])
      case _ => true
  }

  ghost predicate Settled(f: Function, again: set<nat>) {
    forall q :: EntryPath(f.body, q) ==> SettledAt(f, again, q[..|q| - 1], q[|q| - 1])
  }

  // --- What a run keeps ----------------------------------------------------

  /** An aggregate that exists and is none of `m`. */
  predicate Good(v: Val, m: set<nat>, n: nat) {
    v.Ref? ==> v.addr < n && v.addr !in m
  }

  function Visits(past: seq<Event>): (q: seq<nat>)
    ensures |q| == |past| && forall k :: 0 <= k < |q| ==> q[k] == past[k].pc
  {
    seq(|past|, k requires 0 <= k < |past| => past[k].pc)
  }

  /** Visit `k` built aggregate `x`. */
  predicate BuiltAt(body: seq<Insn>, past: seq<Event>, k: nat, x: Val) {
    k < |past| && past[k].pc < |body| && body[past[k].pc].Construct? && past[k].given == Some(x) && x.Ref?
  }

  /** The traced values and locals hold what was built then, the others nothing of `m`. */
  ghost predicate Traced(f: Function, a: Act, t: Trace, sf: Frame, m: set<nat>, n: nat) {
    && (forall v :: v in t.vals ==> v in sf.vals && BuiltAt(f.body, a.past, t.vals[v], sf.vals[v]))
    && (forall s :: s in t.locals ==> s in sf.locals && BuiltAt(f.body, a.past, t.locals[s], sf.locals[s]))
    && (forall v :: v in sf.vals ==> v in t.vals || Good(sf.vals[v], m, n))
    && (forall s :: s in sf.locals ==> s in t.locals || Good(sf.locals[s], m, n))
  }

  /** The last aggregate of each instruction is where it was built, and whatever was replaced was
      replaced by one of the same activation. */
  ghost predicate Current(newest: map<nat, nat>, built: set<nat>, again: set<nat>, m: set<nat>, n: nat,
                          later: map<nat, nat>) {
    && (forall i :: i in newest ==> newest[i] !in later && newest[i] in built && (i in again ==> newest[i] in m))
    && (forall i, j :: i in newest && j in newest && i != j ==> newest[i] != newest[j])
    && (forall y :: y in built ==> y < n && (y in later ==> later[y] in built))
  }

  ghost predicate FrameRolls(f: Function, again: set<nat>, a: Act, sf: Frame, m: set<nat>, n: nat,
                             later: map<nat, nat>) {
    && Traced(f, a, TraceOf(f, again, Visits(a.past)), sf, m, n)
    && Current(Newest(f.body, a.past), Built(f.body, a.past), again, m, n, later)
  }

  ghost predicate HeapGood(heap: Heap, m: set<nat>) {
    forall x, v :: 0 <= x < |heap| && v in heap[x] ==> Good(v, m, |heap|)
  }

  /** `m` holds every aggregate that was built by an instruction that may build again. */
  ghost predicate Rolls(p: Program, owns: map<Symbol, Own>, s: State, h: History, m: set<nat>) {
    s.Run? ==>
      && |s.frames| == |h.acts| && HeapGood(s.heap, m) && h.lost.later.Keys <= m
      && (forall x :: x in m ==> x < |s.heap|)
      && (forall y :: y in h.lost.dead && y in h.lost.later ==> h.lost.later[y] in h.lost.dead)
      && forall i :: 0 <= i < |s.frames| ==> RollsIn(p, owns, h.acts[i], s.frames[i], m, |s.heap|, h.lost.later)
  }

  ghost predicate RollsIn(p: Program, owns: map<Symbol, Own>, a: Act, sf: Frame, m: set<nat>, n: nat,
                          later: map<nat, nat>) {
    sf.fn in p && sf.fn in owns && FrameRolls(p[sf.fn], owns[sf.fn].again, a, sf, m, n, later)
  }

  // --- One frame -----------------------------------------------------------

  lemma TraceNext(f: Function, again: set<nat>, a: Act, e: Event)
    requires e.pc < |f.body|
    ensures TraceOf(f, again, Visits(Extend(a, e).past)) ==
      TraceStep(f, again, TraceOf(f, again, Visits(a.past)), |a.past|, e.pc)
  {
    hide TraceStep;
    assert Visits(Extend(a, e).past)[..|a.past|] == Visits(a.past);
  }

  lemma BuiltAtStays(body: seq<Insn>, a: Act, e: Event, k: nat, x: Val)
    requires BuiltAt(body, a.past, k, x)
    ensures BuiltAt(body, Extend(a, e).past, k, x)
  {
  }

  /** A value that was built at a traced visit, or is nothing of `m`, is given to `dst`. */
  lemma TracedSet(f: Function, a: Act, e: Event, t: Trace, sf: Frame, dst: ValueId, x: Val, visit: Option<nat>, pc: nat,
                  m: set<nat>, n: nat)
    requires Traced(f, a, t, sf, m, n)
    requires if visit.Some? then BuiltAt(f.body, Extend(a, e).past, visit.value, x) else Good(x, m, n)
    ensures Traced(f, Extend(a, e), t.(vals := Mark(t.vals, dst, visit)), SetVal(sf, dst, x).(pc := pc), m, n)
  {
    hide BuiltAt, Extend;
    var t' := t.(vals := Mark(t.vals, dst, visit));
    forall v | v in t'.vals && v != dst ensures BuiltAt(f.body, Extend(a, e).past, t'.vals[v], sf.vals[v]) {
      BuiltAtStays(f.body, a, e, t.vals[v], sf.vals[v]);
    }
    forall s | s in t.locals ensures BuiltAt(f.body, Extend(a, e).past, t.locals[s], sf.locals[s]) {
      BuiltAtStays(f.body, a, e, t.locals[s], sf.locals[s]);
    }
  }

  lemma TracedStore(f: Function, a: Act, e: Event, t: Trace, sf: Frame, s: Symbol, v: ValueId, pc: nat, m: set<nat>,
                    n: nat)
    requires Traced(f, a, t, sf, m, n) && v in sf.vals
    ensures Traced(f, Extend(a, e), t.(locals := Mark(t.locals, s, Lookup(t.vals, v))),
      sf.(locals := sf.locals[s := sf.vals[v]], pc := pc), m, n)
  {
    hide BuiltAt, Extend;
    forall u | u in t.vals ensures BuiltAt(f.body, Extend(a, e).past, t.vals[u], sf.vals[u]) {
      BuiltAtStays(f.body, a, e, t.vals[u], sf.vals[u]);
    }
    forall r | r in t.locals ensures BuiltAt(f.body, Extend(a, e).past, t.locals[r], sf.locals[r]) {
      BuiltAtStays(f.body, a, e, t.locals[r], sf.locals[r]);
    }
  }

  lemma TracedGo(f: Function, a: Act, e: Event, t: Trace, sf: Frame, pc: nat, m: set<nat>, n: nat)
    requires Traced(f, a, t, sf, m, n)
    ensures Traced(f, Extend(a, e), t, sf.(pc := pc), m, n)
  {
    hide BuiltAt, Extend;
    forall u | u in t.vals ensures BuiltAt(f.body, Extend(a, e).past, t.vals[u], sf.vals[u]) {
      BuiltAtStays(f.body, a, e, t.vals[u], sf.vals[u]);
    }
    forall r | r in t.locals ensures BuiltAt(f.body, Extend(a, e).past, t.locals[r], sf.locals[r]) {
      BuiltAtStays(f.body, a, e, t.locals[r], sf.locals[r]);
    }
  }

  /** Nothing is built. */
  lemma SameNewest(body: seq<Insn>, a: Act, e: Event)
    requires e.pc < |body| && !body[e.pc].Construct?
    ensures Newest(body, Extend(a, e).past) == Newest(body, a.past)
    ensures Built(body, Extend(a, e).past) == Built(body, a.past)
  {
    assert Extend(a, e).past[..|a.past|] == a.past;
    SameBuilt(body, a, e);
  }

  /** The straight-line instructions that build nothing. */
  lemma CalmTraced(f: Function, again: set<nat>, ops: Ops, a: Act, t: Trace, sf: Frame, heap: Heap, m: set<nat>)
    requires Traced(f, a, t, sf, m, |heap|) && HeapGood(heap, m) && PrimOps(ops)
    requires sf.pc < |f.body| && !Control(f.body[sf.pc]) && !f.body[sf.pc].Construct? && !f.body[sf.pc].ArrayPush?
    requires Straight(ops, f.params, f.body[sf.pc], sf, heap).Some?
    ensures var sf' := Straight(ops, f.params, f.body[sf.pc], sf, heap).value.0;
      Traced(f, Extend(a, Happened(f.body[sf.pc], sf, heap)), TraceStep(f, again, t, |a.past|, sf.pc),
        sf'.(pc := sf.pc + 1), m, |heap|)
  {
    hide Traced, PrimOps, HeapGood, Happened, Good, BuiltAt;
    var e, n := Happened(f.body[sf.pc], sf, heap), |heap|;
    OpsPrim(ops);
    match f.body[sf.pc]
    case Const(dst, c) =>
      NoRef(Prim(c), m, n);
      TracedSet(f, a, e, t, sf, dst, Prim(c), None, sf.pc + 1, m, n);
    case Load(dst, src) =>
      var name := SourceName(f.params, src).value;
      LocalTraced(f, a, e, t, sf, name, m, n);
      TracedSet(f, a, e, t, sf, dst, sf.locals[name], Lookup(t.locals, name), sf.pc + 1, m, n);
    case Store(name, v) => TracedStore(f, a, e, t, sf, name, v, sf.pc + 1, m, n);
    case BinOp(dst, op, l, r) =>
      NoRef(ops.bin(op, sf.vals[l], sf.vals[r]), m, n);
      TracedSet(f, a, e, t, sf, dst, ops.bin(op, sf.vals[l], sf.vals[r]), None, sf.pc + 1, m, n);
    case UnOp(dst, op, r) =>
      NoRef(ops.un(op, sf.vals[r]), m, n);
      TracedSet(f, a, e, t, sf, dst, ops.un(op, sf.vals[r]), None, sf.pc + 1, m, n);
    case TupleIndex(dst, b, i) =>
      CellGood(heap, m, sf.vals[b].addr, i);
      TracedSet(f, a, e, t, sf, dst, heap[sf.vals[b].addr][i], None, sf.pc + 1, m, n);
    case FieldStore(_, _, _) => TracedGo(f, a, e, t, sf, sf.pc + 1, m, n);
    case Label(_) => TracedGo(f, a, e, t, sf, sf.pc + 1, m, n);
    case VarDef(_, _) => TracedGo(f, a, e, t, sf, sf.pc + 1, m, n);
    case Nop => TracedGo(f, a, e, t, sf, sf.pc + 1, m, n);
    case _ =>
  }

  lemma NoRef(v: Val, m: set<nat>, n: nat)
    requires !v.Ref?
    ensures Good(v, m, n)
  {
  }

  lemma LocalTraced(f: Function, a: Act, e: Event, t: Trace, sf: Frame, s: Symbol, m: set<nat>, n: nat)
    requires Traced(f, a, t, sf, m, n) && s in sf.locals
    ensures if s in t.locals then BuiltAt(f.body, Extend(a, e).past, t.locals[s], sf.locals[s])
      else Good(sf.locals[s], m, n)
  {
    hide BuiltAt, Extend;
    if s in t.locals {
      BuiltAtStays(f.body, a, e, t.locals[s], sf.locals[s]);
    }
  }

  lemma CellGood(heap: Heap, m: set<nat>, x: nat, i: nat)
    requires HeapGood(heap, m) && x < |heap| && i < |heap[x]|
    ensures Good(heap[x][i], m, |heap|)
  {
    var v := heap[x][i];
    assert v in heap[x];
  }

  /** What is not traced is nothing of `m`. */
  lemma HandedGood(f: Function, a: Act, t: Trace, sf: Frame, vs: seq<ValueId>, m: set<nat>, n: nat)
    requires Traced(f, a, t, sf, m, n) && Handed(t, vs) && Operands(sf.vals, vs).Some?
    ensures forall x :: x in Operands(sf.vals, vs).value ==> Good(x, m, n)
  {
    hide BuiltAt, Good;
    var xs := Operands(sf.vals, vs).value;
    forall x | x in xs ensures Good(x, m, n) {
      var k :| 0 <= k < |xs| && xs[k] == x;
      assert vs[k] in sf.vals && vs[k] !in t.vals;
    }
  }

  /** Frames on which nothing is built keep to `m` and `n` while these grow by one new aggregate. */
  lemma TracedGrows(f: Function, a: Act, t: Trace, sf: Frame, m: set<nat>, m': set<nat>, n: nat)
    requires Traced(f, a, t, sf, m, n) && m' <= m + {n}
    ensures Traced(f, a, t, sf, m', n + 1)
  {
    hide BuiltAt;
  }

  // --- What was built last -------------------------------------------------

  lemma {:induction false} NewestIs(body: seq<Insn>, past: seq<Event>, k: nat, x: Val)
    requires BuiltAt(body, past, k, x) && forall j :: k < j < |past| ==> past[j].pc != past[k].pc
    ensures past[k].pc in Newest(body, past) && Newest(body, past)[past[k].pc] == x.addr
  {
    var n := |past| - 1;
    if k < n {
      NewestIs(body, past[..n], k, x);
    }
  }

  lemma {:induction false} NewestVisited(body: seq<Insn>, past: seq<Event>, i: nat)
    requires i in Newest(body, past)
    ensures i in Visits(past) && i < |body| && body[i].Construct?
  {
    var n := |past| - 1;
    assert Visits(past)[n] == past[n].pc;
    if !(i == past[n].pc && past[n].given.Some? && BuiltAt(body, past, n, past[n].given.value)) {
      NewestVisited(body, past[..n], i);
      var k :| 0 <= k < n && Visits(past[..n])[k] == i;
      assert Visits(past)[k] == i;
    }
  }

  /** What is used while it is the latest has not been replaced. */
  lemma LatestHeld(f: Function, again: set<nat>, a: Act, sf: Frame, m: set<nat>, n: nat, later: map<nat, nat>,
                   v: ValueId)
    requires FrameRolls(f, again, a, sf, m, n, later) && later.Keys <= m && v in sf.vals && sf.vals[v].Ref?
    requires Latest(Visits(a.past), TraceOf(f, again, Visits(a.past)), v)
    ensures sf.vals[v].addr !in later
  {
    hide TraceOf, Newest, Built;
    var t := TraceOf(f, again, Visits(a.past));
    if v in t.vals {
      assert forall j :: t.vals[v] < j < |a.past| ==> Visits(a.past)[j] == a.past[j].pc;
      NewestIs(f.body, a.past, t.vals[v], sf.vals[v]);
    }
  }

  // --- One step ------------------------------------------------------------

  lemma SettledNow(f: Function, again: set<nat>, a: Act, sf: Frame)
    requires Settled(f, again) && Tracks(f, a, sf)
    ensures SettledAt(f, again, Visits(a.past), sf.pc)
  {
    hide SettledAt;
    var q := Route(a.past, sf.pc);
    assert q[..|q| - 1] == Visits(a.past);
  }

  ghost predicate AllSettled(p: Program, owns: map<Symbol, Own>) {
    forall fn :: fn in p ==> fn in owns && Settled(p[fn], owns[fn].again)
  }

  /** The running activation. */
  lemma TopRolls(p: Program, owns: map<Symbol, Own>, s: State, h: History, m: set<nat>)
    requires AllSettled(p, owns) && Rolls(p, owns, s, h, m) && Tracked(p, s, h) && s.Run? && s.frames != []
    ensures |h.acts| == |s.frames| && s.frames[0].fn in p && s.frames[0].fn in owns && HeapGood(s.heap, m)
    ensures var sf, a := s.frames[0], h.acts[0];
      var f, again := p[sf.fn], owns[sf.fn].again;
      && FrameRolls(f, again, a, sf, m, |s.heap|, h.lost.later)
      && Traced(f, a, TraceOf(f, again, Visits(a.past)), sf, m, |s.heap|)
      && Current(Newest(f.body, a.past), Built(f.body, a.past), again, m, |s.heap|, h.lost.later)
      && SettledAt(f, again, Visits(a.past), sf.pc)
    ensures h.lost.later.Keys <= m && (forall x :: x in m ==> x < |s.heap|)
  {
    hide Traced, Current, TraceOf, SettledAt, HeapGood, Tracks, Settled;
    assert RollsIn(p, owns, h.acts[0], s.frames[0], m, |s.heap|, h.lost.later);
    assert FrameTracked(p, h.acts[0], s.frames[0]);
    SettledNow(p[s.frames[0].fn], owns[s.frames[0].fn].again, h.acts[0], s.frames[0]);
  }

  /** Replacing the running frame while nothing is built. */
  lemma RollsOn(p: Program, owns: map<Symbol, Own>, s: State, h: History, m: set<nat>, a: Act, sf: Frame, heap: Heap)
    requires Rolls(p, owns, s, h, m) && s.Run? && s.frames != [] && HeapGood(heap, m) && |heap| == |s.heap|
    requires RollsIn(p, owns, a, sf, m, |s.heap|, h.lost.later)
    ensures Rolls(p, owns, Run([sf] + s.frames[1..], heap), h.(acts := [a] + h.acts[1..]), m)
    ensures Rolls(p, owns, Run([sf] + s.frames, heap), h.(acts := [a] + h.acts), m)
  {
    hide RollsIn, HeapGood;
  }

  lemma PutGood(heap: Heap, m: set<nat>, x: nat, i: nat, v: Val)
    requires HeapGood(heap, m) && x < |heap| && i < |heap[x]| && Good(v, m, |heap|)
    ensures HeapGood(heap[x := heap[x][i := v]], m)
  {
    var heap' := heap[x := heap[x][i := v]];
    forall y, u | 0 <= y < |heap'| && u in heap'[y] ensures Good(u, m, |heap'|) {
      if y == x {
        assert u == v || u in heap[x];
      } else {
        assert heap'[y] == heap[y];
      }
    }
  }

  lemma OneHanded(f: Function, a: Act, t: Trace, sf: Frame, v: ValueId, m: set<nat>, n: nat)
    requires Traced(f, a, t, sf, m, n) && Handed(t, [v]) && v in sf.vals
    ensures Good(sf.vals[v], m, n)
  {
    hide BuiltAt, Good;
    assert [v][0] == v;
  }

  /** What the heap holds after an instruction that builds nothing. */
  lemma CalmHeap(f: Function, again: set<nat>, ops: Ops, a: Act, t: Trace, q: seq<nat>, sf: Frame, heap: Heap,
                 m: set<nat>)
    requires Traced(f, a, t, sf, m, |heap|) && HeapGood(heap, m) && sf.pc < |f.body|
    requires t == TraceOf(f, again, q) && SettledAt(f, again, q, sf.pc)
    requires !f.body[sf.pc].Construct? && !f.body[sf.pc].ArrayPush?
    requires Straight(ops, f.params, f.body[sf.pc], sf, heap).Some?
    ensures var (sf', heap') := Straight(ops, f.params, f.body[sf.pc], sf, heap).value;
      HeapGood(heap', m) && |heap'| == |heap| && sf'.fn == sf.fn
  {
    hide Traced, HeapGood, TraceOf, Good;
    if f.body[sf.pc].FieldStore? {
      PutIs(ops, f, sf, heap);
      var i := f.body[sf.pc];
      OneHanded(f, a, t, sf, i.value, m, |heap|);
      PutGood(heap, m, sf.vals[i.base].addr, i.index, sf.vals[i.value]);
    }
  }

  lemma CalmStep(p: Program, owns: map<Symbol, Own>, ops: Ops, s: State, h: History, m: set<nat>)
    requires AllSettled(p, owns) && Rolls(p, owns, s, h, m) && Tracked(p, s, h) && PrimOps(ops)
    requires s.Run? && s.frames != [] && s.frames[0].fn in p && s.frames[0].pc < |p[s.frames[0].fn].body|
    requires var i := p[s.frames[0].fn].body[s.frames[0].pc]; !Control(i) && !i.Construct? && !i.ArrayPush?
    requires Step(p, ops, s) != Fault
    ensures Rolls(p, owns, Step(p, ops, s), Record(p, s, h), m)
  {
    hide AllSettled, Rolls, Tracked, PrimOps, Traced, Current, TraceOf, SettledAt, HeapGood, Straight, Step, Record;
    hide Newest, Built, TraceStep, Extend, Happened;
    TopRolls(p, owns, s, h, m);
    InPlace(p, ops, s, h);
    var sf, a := s.frames[0], h.acts[0];
    var f, again := p[sf.fn], owns[sf.fn].again;
    var e, t := Happened(f.body[sf.pc], sf, s.heap), TraceOf(f, again, Visits(a.past));
    CalmTraced(f, again, ops, a, t, sf, s.heap, m);
    CalmHeap(f, again, ops, a, t, Visits(a.past), sf, s.heap, m);
    HappenedAt(f.body[sf.pc], sf, s.heap);
    TraceNext(f, again, a, e);
    SameNewest(f.body, a, e);
    var (sf', heap') := Straight(ops, f.params, f.body[sf.pc], sf, s.heap).value;
    RollsOn(p, owns, s, h, m, Extend(a, e), sf'.(pc := sf.pc + 1), heap');
  }

  lemma HappenedAt(i: Insn, sf: Frame, heap: Heap)
    ensures Happened(i, sf, heap).pc == sf.pc
  {
  }

  lemma GoStep(p: Program, owns: map<Symbol, Own>, s: State, h: History, m: set<nat>, pc: nat)
    requires AllSettled(p, owns) && Rolls(p, owns, s, h, m) && Tracked(p, s, h)
    requires s.Run? && s.frames != [] && s.frames[0].fn in p && s.frames[0].pc < |p[s.frames[0].fn].body|
    requires var i := p[s.frames[0].fn].body[s.frames[0].pc]; i.Jump? || i.BranchIfNot?
    ensures var e := Happened(p[s.frames[0].fn].body[s.frames[0].pc], s.frames[0], s.heap);
      h.acts != [] && Rolls(p, owns, Run([s.frames[0].(pc := pc)] + s.frames[1..], s.heap),
        h.(acts := [Extend(h.acts[0], e)] + h.acts[1..]), m)
  {
    hide AllSettled, Rolls, Tracked, Traced, Current, TraceOf, SettledAt, HeapGood, Newest, Built, Extend;
    TopRolls(p, owns, s, h, m);
    var sf, a := s.frames[0], h.acts[0];
    var f, again := p[sf.fn], owns[sf.fn].again;
    var e, t := Happened(f.body[sf.pc], sf, s.heap), TraceOf(f, again, Visits(a.past));
    TracedGo(f, a, e, t, sf, pc, m, |s.heap|);
    TraceNext(f, again, a, e);
    SameNewest(f.body, a, e);
    RollsOn(p, owns, s, h, m, Extend(a, e), sf.(pc := pc), s.heap);
  }

  lemma EnterRolls(f: Function, again: set<nat>, fn: Symbol, args: seq<Val>, m: set<nat>, n: nat, later: map<nat, nat>)
    requires |args| == |f.params| && forall x :: x in args ==> Good(x, m, n)
    ensures FrameRolls(f, again, Act(args, []), Enter(fn, f.params, args), m, n, later)
    ensures Enter(fn, f.params, args).fn == fn
  {
    hide Good;
    BindGood(f.params, args, m, n);
    assert Newest(f.body, []) == map[] && Built(f.body, []) == {};
  }

  lemma {:induction false} BindGood(params: seq<Symbol>, args: seq<Val>, m: set<nat>, n: nat)
    requires |params| == |args| && forall x :: x in args ==> Good(x, m, n)
    ensures forall s :: s in BindParams(params, args) ==> Good(BindParams(params, args)[s], m, n)
    decreases |params|
  {
    hide Good;
    if params != [] {
      BindGood(params[..|params| - 1], args[..|args| - 1], m, n);
      assert args[|args| - 1] in args;
    }
  }

  lemma CallStep(p: Program, owns: map<Symbol, Own>, ops: Ops, s: State, h: History, m: set<nat>)
    requires AllSettled(p, owns) && Rolls(p, owns, s, h, m) && Tracked(p, s, h)
    requires s.Run? && s.frames != [] && s.frames[0].fn in p && s.frames[0].pc < |p[s.frames[0].fn].body|
    requires p[s.frames[0].fn].body[s.frames[0].pc].Call? && Step(p, ops, s) != Fault
    ensures Rolls(p, owns, Step(p, ops, s), Record(p, s, h), m)
  {
    TopRolls(p, owns, s, h, m);
    CallIs(p, ops, s, h);
    var sf, a := s.frames[0], h.acts[0];
    var f, i := p[sf.fn], p[sf.fn].body[sf.pc];
    var vs := Operands(sf.vals, i.args).value;
    assert i.name in owns;
    hide AllSettled, Rolls, Tracked, Traced, Current, HeapGood, Step, Record, Enter, Operands, TraceOf, FrameRolls;
    HandedGood(f, a, TraceOf(f, owns[sf.fn].again, Visits(a.past)), sf, i.args, m, |s.heap|);
    EnterRolls(p[i.name], owns[i.name].again, i.name, vs, m, |s.heap|, h.lost.later);
    RollsOn(p, owns, s, h, m, Act(vs, []), Enter(i.name, p[i.name].params, vs), s.heap);
  }

  /** What the callee returns is given to the caller's value. */
  lemma ReturnStep(p: Program, owns: map<Symbol, Own>, ops: Ops, s: State, h: History, m: set<nat>)
    requires AllSettled(p, owns) && Rolls(p, owns, s, h, m) && Tracked(p, s, h)
    requires s.Run? && s.frames != [] && s.frames[0].fn in p && s.frames[0].pc < |p[s.frames[0].fn].body|
    requires p[s.frames[0].fn].body[s.frames[0].pc].Return? && Step(p, ops, s) != Fault
    ensures Rolls(p, owns, Step(p, ops, s), Record(p, s, h), m)
  {
    hide AllSettled, Rolls, Tracked, Traced, Current, HeapGood, TraceOf, Good, Newest, Built, Resume, FrameRolls;
    hide Tracks;
    hide Handed, Straight, Operands, Enter, Happened;
    TopRolls(p, owns, s, h, m);
    var sf, a := s.frames[0], h.acts[0];
    var f := p[sf.fn];
    var result := f.body[sf.pc].result;
    var v := if result.Some? then sf.vals[result.value] else Unit;
    if result.Some? {
      OneHanded(f, a, TraceOf(f, owns[sf.fn].again, Visits(a.past)), sf, result.value, m, |s.heap|);
    } else {
      NoRef(v, m, |s.heap|);
    }
    if |s.frames| == 1 {
      ResumeDone(p, s.frames[1..], v, s.heap);
      EndRolls(p, owns, Step(p, ops, s), Record(p, s, h), m);
    } else {
      ResumeRolls(p, owns, s, h, m, v);
    }
  }

  lemma EndRolls(p: Program, owns: map<Symbol, Own>, s: State, h: History, m: set<nat>)
    requires !s.Run?
    ensures Rolls(p, owns, s, h, m)
  {
  }

  lemma FirstRolls(p: Program, owns: map<Symbol, Own>, s: State, h: History, m: set<nat>)
    requires Rolls(p, owns, s, h, m) && s.Run? && s.frames != []
    ensures |h.acts| == |s.frames| && HeapGood(s.heap, m)
    ensures RollsIn(p, owns, h.acts[0], s.frames[0], m, |s.heap|, h.lost.later)
  {
    hide RollsIn, HeapGood;
  }

  lemma CallersRoll(p: Program, owns: map<Symbol, Own>, s: State, h: History, m: set<nat>)
    requires Rolls(p, owns, s, h, m) && s.Run? && |s.frames| > 1
    ensures s.frames[0].fn in p && h.acts != []
    ensures var lost := h.lost.(dead := h.lost.dead + Built(p[s.frames[0].fn].body, h.acts[0].past));
      Rolls(p, owns, Run(s.frames[1..], s.heap), History(h.acts[1..], lost), m)
  {
    hide HeapGood, Traced, Built, Newest;
    assert RollsIn(p, owns, h.acts[0], s.frames[0], m, |s.heap|, h.lost.later);
    hide RollsIn;
  }

  lemma ResumeRolls(p: Program, owns: map<Symbol, Own>, s: State, h: History, m: set<nat>, v: Val)
    requires Rolls(p, owns, s, h, m) && s.Run? && |s.frames| > 1 && |h.acts| == |s.frames| && Good(v, m, |s.heap|)
    requires Resume(p, s.frames[1..], v, s.heap) != Fault
    ensures s.frames[0].fn in p
    ensures var lost := h.lost.(dead := h.lost.dead + Built(p[s.frames[0].fn].body, h.acts[0].past));
      Rolls(p, owns, Resume(p, s.frames[1..], v, s.heap),
        History([Extend(h.acts[1], Event(s.frames[1].pc, None))] + h.acts[2..], lost), m)
  {
    hide HeapGood, Traced, Current, Built, Newest, TraceOf, Good, Rolls, Extend;
    CallersRoll(p, owns, s, h, m);
    var rest, sf, a := s.frames[1..], s.frames[1], h.acts[1];
    var lost := h.lost.(dead := h.lost.dead + Built(p[s.frames[0].fn].body, h.acts[0].past));
    var t, g := Run(rest, s.heap), History(h.acts[1..], lost);
    assert rest[0] == sf && g.acts[0] == a && rest[1..] == s.frames[2..] && g.acts[1..] == h.acts[2..];
    FirstRolls(p, owns, t, g, m);
    var f, again := p[sf.fn], owns[sf.fn].again;
    var e, dst := Event(sf.pc, None), f.body[sf.pc].dst;
    TracedSet(f, a, e, TraceOf(f, again, Visits(a.past)), sf, dst, v, None, sf.pc + 1, m, |s.heap|);
    TraceNext(f, again, a, e);
    SameNewest(f.body, a, e);
    RollsOn(p, owns, t, g, m, Extend(a, e), SetVal(sf, dst, v).(pc := sf.pc + 1), s.heap);
  }

  // --- Building an aggregate -----------------------------------------------

  lemma AliveHas(p: Program, frames: seq<Frame>, acts: seq<Act>, base: set<nat>, i: nat)
    requires |frames| == |acts| && i < |frames|
    ensures BuiltBy(p, frames[i], acts[i]) <= Alive(p, frames, acts, base)
    decreases i
  {
    hide BuiltBy;
    if i > 0 {
      assert frames[1..][i - 1] == frames[i] && acts[1..][i - 1] == acts[i];
      AliveHas(p, frames[1..], acts[1..], base, i - 1);
    }
  }

  /** What the running activation has built is neither dead nor anyone else's. */
  lemma BuiltApart(p: Program, owns: map<Symbol, Own>, s: State, h: History, base: set<nat>)
    requires s.Run? && s.frames != [] && Apart(p, owns, s, h, base)
    ensures |h.acts| == |s.frames|
    ensures BuiltBy(p, s.frames[0], h.acts[0]) !! h.lost.dead
    ensures forall i :: 0 < i < |s.frames| ==>
      BuiltBy(p, s.frames[0], h.acts[0]) !! BuiltBy(p, s.frames[i], h.acts[i])
  {
    TopIn(p, owns, s, h, base);
    hide Alive, Outer, FrameIn, BuiltBy, Apart;
    forall i | 0 < i < |s.frames|
      ensures BuiltBy(p, s.frames[0], h.acts[0]) !! BuiltBy(p, s.frames[i], h.acts[i])
    {
      assert s.frames[1..][i - 1] == s.frames[i] && h.acts[1..][i - 1] == h.acts[i];
      AliveHas(p, s.frames[1..], h.acts[1..], base, i - 1);
    }
  }

  /** An aggregate of another activation has taken the place of `x`. */
  lemma OthersCurrent(newest: map<nat, nat>, built: set<nat>, again: set<nat>, m: set<nat>, m': set<nat>, n: nat,
                      later: map<nat, nat>, x: nat)
    requires Current(newest, built, again, m, n, later) && m <= m' && x !in built && x !in later
    ensures Current(newest, built, again, m', n + 1, Replaced(later, x, n))
  {
  }

  /** The instruction at `pc` builds aggregate `n`, the first one or in the place of the one before. */
  lemma NextCurrent(newest: map<nat, nat>, built: set<nat>, again: set<nat>, m: set<nat>, m': set<nat>, n: nat,
                    later: map<nat, nat>, pc: nat)
    requires Current(newest, built, again, m, n, later) && m <= m' && (pc in again ==> n in m')
    requires forall x :: x in later ==> x < n
    ensures var later' := if pc in newest then Replaced(later, newest[pc], n) else later;
      Current(newest[pc := n], built + {n}, again, m', n + 1, later')
  {
    if pc in newest {
      var x := newest[pc];
      assert Held(later, x) == x;
      forall i | i in newest && i != pc ensures newest[i] !in Replaced(later, x, n) {
        assert newest[i] != x;
      }
    }
  }

  /** Dead aggregates stay replaced by dead ones. */
  lemma DeadClosed(dead: set<nat>, later: map<nat, nat>, x: nat, n: nat)
    requires forall y :: y in dead && y in later ==> later[y] in dead
    requires x !in dead && x !in later
    ensures forall y :: y in dead && y in Replaced(later, x, n) ==> Replaced(later, x, n)[y] in dead
  {
  }

  lemma GoodGrows(v: Val, m: set<nat>, m': set<nat>, n: nat)
    requires Good(v, m, n) && m' <= m + {n}
    ensures Good(v, m', n + 1)
  {
  }

  lemma HeapGrows(heap: Heap, m: set<nat>, m': set<nat>, block: seq<Val>)
    requires HeapGood(heap, m) && m' <= m + {|heap|} && forall v :: v in block ==> Good(v, m, |heap|)
    ensures HeapGood(heap + [block], m')
  {
    var heap' := heap + [block];
    forall x, v | 0 <= x < |heap'| && v in heap'[x] ensures Good(v, m', |heap'|) {
      if x < |heap| {
        assert v in heap[x];
      }
      GoodGrows(v, m, m', |heap|);
    }
  }

  lemma BlockGood(tag: Option<int>, vs: seq<Val>, m: set<nat>, n: nat)
    requires forall v :: v in vs ==> Good(v, m, n)
    ensures forall v :: v in Block(tag, vs) ==> Good(v, m, n)
  {
  }

  /** The aggregates that may be built again, with a new one. */
  function Joined(m: set<nat>, again: set<nat>, pc: nat, n: nat): set<nat> {
    if pc in again then m + {n} else m
  }

  lemma NewestNext(body: seq<Insn>, a: Act, pc: nat, x: nat)
    requires pc < |body| && body[pc].Construct?
    ensures var past := Extend(a, Event(pc, Some(Ref(x)))).past;
      Newest(body, past) == Newest(body, a.past)[pc := x] && Built(body, past) == Built(body, a.past) + {x}
  {
    assert Extend(a, Event(pc, Some(Ref(x)))).past[..|a.past|] == a.past;
    SameBuilt(body, a, Event(pc, Some(Ref(x))));
  }

  /** The running frame once it has built an aggregate. */
  lemma FrameBuilds(f: Function, again: set<nat>, a: Act, sf: Frame, m: set<nat>, n: nat, lost: Lost)
    requires FrameRolls(f, again, a, sf, m, n, lost.later) && sf.pc < |f.body| && f.body[sf.pc].Construct?
    requires lost.later.Keys <= m && forall x :: x in m ==> x < n
    ensures FrameRolls(f, again, Extend(a, Event(sf.pc, Some(Ref(n)))),
      SetVal(sf, f.body[sf.pc].dst, Ref(n)).(pc := sf.pc + 1), Joined(m, again, sf.pc, n), n + 1,
      Rebuilt(lost, f.body, a, sf.pc, n).later)
  {
    hide Traced, Current, TraceOf, Newest, Built, Replaced, BuiltAt, Good;
    var e, m', t := Event(sf.pc, Some(Ref(n))), Joined(m, again, sf.pc, n), TraceOf(f, again, Visits(a.past));
    TracedGrows(f, a, t, sf, m, m', n);
    NewBuilt(f.body, a, again, sf.pc, m, n);
    TracedSet(f, a, e, t, sf, f.body[sf.pc].dst, Ref(n), if sf.pc in again then Some(|a.past|) else None, sf.pc + 1,
      m', n + 1);
    TraceNext(f, again, a, e);
    NewestNext(f.body, a, sf.pc, n);
    NextCurrent(Newest(f.body, a.past), Built(f.body, a.past), again, m, m', n, lost.later, sf.pc);
  }

  lemma NewBuilt(body: seq<Insn>, a: Act, again: set<nat>, pc: nat, m: set<nat>, n: nat)
    requires pc < |body| && body[pc].Construct? && forall x :: x in m ==> x < n
    ensures BuiltAt(body, Extend(a, Event(pc, Some(Ref(n)))).past, |a.past|, Ref(n))
    ensures pc !in again ==> Good(Ref(n), Joined(m, again, pc, n), n + 1)
  {
  }

  /** A frame that waits while another activation builds an aggregate. */
  lemma FrameWaits(p: Program, owns: map<Symbol, Own>, a: Act, sf: Frame, m: set<nat>, m': set<nat>, n: nat, lost: Lost,
                   body: seq<Insn>, b: Act, pc: nat)
    requires RollsIn(p, owns, a, sf, m, n, lost.later) && m <= m' <= m + {n}
    requires pc in Newest(body, b.past) ==>
      Newest(body, b.past)[pc] !in BuiltBy(p, sf, a) && Newest(body, b.past)[pc] !in lost.later
    ensures RollsIn(p, owns, a, sf, m', n + 1, Rebuilt(lost, body, b, pc, n).later)
  {
    hide Traced, Current, TraceOf, Newest, Built, Replaced;
    var f, again := p[sf.fn], owns[sf.fn].again;
    TracedGrows(f, a, TraceOf(f, again, Visits(a.past)), sf, m, m', n);
    var newest := Newest(body, b.past);
    if pc in newest {
      OthersCurrent(Newest(f.body, a.past), Built(f.body, a.past), again, m, m', n, lost.later, newest[pc]);
    } else {
      SameCurrent(Newest(f.body, a.past), Built(f.body, a.past), again, m, m', n, lost.later);
    }
  }

  lemma SameCurrent(newest: map<nat, nat>, built: set<nat>, again: set<nat>, m: set<nat>, m': set<nat>, n: nat,
                    later: map<nat, nat>)
    requires Current(newest, built, again, m, n, later) && m <= m'
    ensures Current(newest, built, again, m', n + 1, later)
  {
  }

  /** What is lost by building an aggregate, and that the dead stay apart from it. */
  lemma LostNext(lost: Lost, body: seq<Insn>, a: Act, again: set<nat>, pc: nat, m: set<nat>, n: nat)
    requires Current(Newest(body, a.past), Built(body, a.past), again, m, n, lost.later)
    requires pc < |body| && body[pc].Construct? && SettledPc(again, a, pc)
    requires Built(body, a.past) !! lost.dead && lost.later.Keys <= m
    requires forall y :: y in lost.dead && y in lost.later ==> lost.later[y] in lost.dead
    ensures var lost' := Rebuilt(lost, body, a, pc, n);
      && lost'.dead == lost.dead && lost'.later.Keys <= m
      && forall y :: y in lost'.dead && y in lost'.later ==> lost'.later[y] in lost'.dead
  {
    hide Built;
    var newest := Newest(body, a.past);
    if pc in newest {
      NewestVisited(body, a.past, pc);
      hide Newest;
      DeadClosed(lost.dead, lost.later, newest[pc], n);
    }
  }

  /** Only an instruction that may build again has been visited before. */
  predicate SettledPc(again: set<nat>, a: Act, pc: nat) {
    pc in again || pc !in Visits(a.past)
  }

  lemma BuildStep(p: Program, owns: map<Symbol, Own>, ops: Ops, s: State, h: History, base: set<nat>, m: set<nat>)
    returns (m': set<nat>)
    requires AllSettled(p, owns) && Rolls(p, owns, s, h, m) && Tracked(p, s, h) && Apart(p, owns, s, h, base)
    requires s.Run? && s.frames != [] && s.frames[0].fn in p && s.frames[0].pc < |p[s.frames[0].fn].body|
    requires p[s.frames[0].fn].body[s.frames[0].pc].Construct? && Step(p, ops, s) != Fault
    ensures Rolls(p, owns, Step(p, ops, s), Record(p, s, h), m')
  {
    hide AllSettled, Rolls, Tracked, Apart, Traced, Current, HeapGood, TraceOf, Good, Newest, Built, FrameRolls, Tracks;
    hide Straight, Operands, Block, Happened, Step, Record, Rebuilt, Handed, Extend, BuiltBy, Visits;
    TopRolls(p, owns, s, h, m);
    InPlace(p, ops, s, h);
    var sf, a, n := s.frames[0], h.acts[0], |s.heap|;
    var f, again := p[sf.fn], owns[sf.fn].again;
    BuildIs(ops, f, sf, s.heap);
    var vs := Operands(sf.vals, f.body[sf.pc].fields).value;
    HandedGood(f, a, TraceOf(f, again, Visits(a.past)), sf, f.body[sf.pc].fields, m, n);
    BlockGood(f.body[sf.pc].tag, vs, m, n);
    m' := Joined(m, again, sf.pc, n);
    HeapGrows(s.heap, m, m', Block(f.body[sf.pc].tag, vs));
    BuiltApart(p, owns, s, h, base);
    BuiltIs(p, sf, a);
    ClosedBefore(p, owns, s, h, m);
    LostNext(h.lost, f.body, a, again, sf.pc, m, n);
    FrameBuilds(f, again, a, sf, m, n, h.lost);
    OthersWait(p, owns, s, h, m, m', f.body, again, sf.pc);
    var g := Record(p, s, h);
    assert g.acts[1..] == h.acts[1..];
    RollsNext(p, owns, s, h, g, SetVal(sf, f.body[sf.pc].dst, Ref(n)).(pc := sf.pc + 1),
      s.heap + [Block(f.body[sf.pc].tag, vs)], m');
  }

  lemma ClosedBefore(p: Program, owns: map<Symbol, Own>, s: State, h: History, m: set<nat>)
    requires Rolls(p, owns, s, h, m) && s.Run?
    ensures forall y :: y in h.lost.dead && y in h.lost.later ==> h.lost.later[y] in h.lost.dead
  {
    hide HeapGood, RollsIn;
  }

  lemma OthersWait(p: Program, owns: map<Symbol, Own>, s: State, h: History, m: set<nat>, m': set<nat>, body: seq<Insn>,
                   again: set<nat>, pc: nat)
    requires Rolls(p, owns, s, h, m) && s.Run? && s.frames != [] && |h.acts| == |s.frames| && m <= m' <= m + {|s.heap|}
    requires Current(Newest(body, h.acts[0].past), Built(body, h.acts[0].past), again, m, |s.heap|, h.lost.later)
    requires BuiltBy(p, s.frames[0], h.acts[0]) == Built(body, h.acts[0].past)
    requires forall i :: 0 < i < |s.frames| ==>
      BuiltBy(p, s.frames[0], h.acts[0]) !! BuiltBy(p, s.frames[i], h.acts[i])
    ensures forall i :: 0 < i < |s.frames| ==> RollsIn(p, owns, h.acts[i], s.frames[i], m', |s.heap| + 1,
      Rebuilt(h.lost, body, h.acts[0], pc, |s.heap|).later)
  {
    hide HeapGood, RollsIn, Newest, Built, BuiltBy, Rebuilt;
    forall i | 0 < i < |s.frames|
      ensures RollsIn(p, owns, h.acts[i], s.frames[i], m', |s.heap| + 1,
        Rebuilt(h.lost, body, h.acts[0], pc, |s.heap|).later)
    {
      FrameWaits(p, owns, h.acts[i], s.frames[i], m, m', |s.heap|, h.lost, body, h.acts[0], pc);
    }
  }

  lemma RollsNext(p: Program, owns: map<Symbol, Own>, s: State, h: History, g: History, sf: Frame, heap: Heap,
                  m: set<nat>)
    requires s.Run? && s.frames != [] && |h.acts| == |s.frames| == |g.acts| && g.acts[1..] == h.acts[1..]
    requires HeapGood(heap, m) && g.lost.later.Keys <= m && forall x :: x in m ==> x < |heap|
    requires forall y :: y in g.lost.dead && y in g.lost.later ==> g.lost.later[y] in g.lost.dead
    requires RollsIn(p, owns, g.acts[0], sf, m, |heap|, g.lost.later)
    requires forall i :: 0 < i < |s.frames| ==> RollsIn(p, owns, h.acts[i], s.frames[i], m, |heap|, g.lost.later)
    ensures Rolls(p, owns, Run([sf] + s.frames[1..], heap), g, m)
  {
    hide RollsIn, HeapGood;
    forall i | 0 < i < |s.frames| ensures g.acts[i] == h.acts[i] {
      assert g.acts[1..][i - 1] == h.acts[1..][i - 1];
    }
  }

  // --- Runs ----------------------------------------------------------------

  lemma StepRolls(p: Program, owns: map<Symbol, Own>, ops: Ops, s: State, h: History, base: set<nat>, m: set<nat>)
    returns (m': set<nat>)
    requires AllSettled(p, owns) && Rolls(p, owns, s, h, m) && Tracked(p, s, h) && Apart(p, owns, s, h, base)
    requires AllConfined(p, owns) && PrimOps(ops) && Step(p, ops, s) != Fault
    ensures Rolls(p, owns, Step(p, ops, s), Record(p, s, h), m')
  {
    hide AllSettled, Rolls, Tracked, Apart, AllConfined, PrimOps, Straight, Happened, Rebuilt, Extend, Built;
    m' := m;
    if s.Run? {
      TopTracked(p, s, h);
      var sf := s.frames[0];
      var body := p[sf.fn].body;
      NoPush(p, owns, sf.fn, sf.pc);
      match body[sf.pc]
      case Jump(target) => GoStep(p, owns, s, h, m, LabelIndex(body, target).value);
      case BranchIfNot(c, target) =>
        GoStep(p, owns, s, h, m, if ops.truthy(sf.vals[c]) then sf.pc + 1 else LabelIndex(body, target).value);
      case Return(_) => ReturnStep(p, owns, ops, s, h, m);
      case Call(_, _, _) => CallStep(p, owns, ops, s, h, m);
      case Construct(_, _, _) => m' := BuildStep(p, owns, ops, s, h, base, m);
      case _ => CalmStep(p, owns, ops, s, h, m);
    } else {
      EndRolls(p, owns, Step(p, ops, s), Record(p, s, h), m);
    }
  }

  lemma TopTracked(p: Program, s: State, h: History)
    requires Tracked(p, s, h) && s.Run?
    ensures |h.acts| == |s.frames| && (s.frames != [] ==> s.frames[0].fn in p)
  {
    hide Tracks;
    if s.frames != [] {
      assert FrameTracked(p, h.acts[0], s.frames[0]);
    }
  }

  lemma NoPush(p: Program, owns: map<Symbol, Own>, fn: Symbol, i: nat)
    requires AllConfined(p, owns) && fn in p && i < |p[fn].body|
    ensures !p[fn].body[i].ArrayPush?
  {
    hide Made, Calculated, SingleDefs;
    assert Keeps(p[fn], owns[fn], i);
  }

  /** Wherever a run of such functions has come, no aggregate that is still used has been replaced. */
  lemma {:induction false} RunRolls(p: Program, owns: map<Symbol, Own>, ops: Ops, fn: Symbol, args: seq<Val>,
                                    heap: Heap, n: nat) returns (m: set<nat>)
    requires AllSettled(p, owns) && AllConfined(p, owns) && PrimOps(ops) && Whole(args, heap)
    requires Steps(p, ops, Start(p, fn, args, heap), n) != Fault
    ensures Rolls(p, owns, Steps(p, ops, Start(p, fn, args, heap), n),
      After(p, ops, Start(p, fn, args, heap), Begin(args), n), m)
  {
    hide AllSettled, AllConfined, Rolls, Apart, Tracked, Step, Record, PrimOps, Start, Whole;
    var s := Start(p, fn, args, heap);
    if n == 0 {
      m := {};
      StartRolls(p, owns, fn, args, heap);
    } else {
      FaultEarlier(p, ops, s, n - 1, n);
      FaultEarlier(p, ops, s, 0, n);
      m := RunRolls(p, owns, ops, fn, args, heap, n - 1);
      RunApart(p, owns, ops, fn, args, heap, n - 1);
      StartTracks(p, fn, args, heap);
      RunTracks(p, ops, s, Begin(args), n - 1);
      m := StepRolls(p, owns, ops, Steps(p, ops, s, n - 1), After(p, ops, s, Begin(args), n - 1), Below(|heap|), m);
    }
  }

  lemma StartRolls(p: Program, owns: map<Symbol, Own>, fn: Symbol, args: seq<Val>, heap: Heap)
    requires AllSettled(p, owns) && Start(p, fn, args, heap) != Fault && Whole(args, heap)
    ensures Rolls(p, owns, Start(p, fn, args, heap), Begin(args), {})
  {
    assert fn in owns;
    hide AllSettled, FrameRolls, Enter;
    forall x | x in args ensures Good(x, {}, |heap|) {
      assert Exists(x, |heap|);
    }
    EnterRolls(p[fn], owns[fn].again, fn, args, {}, |heap|, map[]);
    forall x, v | 0 <= x < |heap| && v in heap[x] ensures Good(v, {}, |heap|) {
      assert Exists(v, |heap|);
    }
  }
}
