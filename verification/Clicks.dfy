/** Runs of clicks on a page. A click leaves alone the slots its handler does not fire, and whether
    they still show the state afterwards depends on the arrays and structs they reach: the page stays as
    a full repaint would make it exactly when no slot left alone reaches what the click changed. */
module Clicks {
  import opened Wrappers
  import opened Reactive
  import opened Repaint
  import Sir

  // --- Clicks --------------------------------------------------------------

  function Entered(s: State): Frame {
    Frame(map[], s.vars, s.heap)
  }

  /** How many of the first `n` statements are executed before one throws. */
  function Progress(env: Env, body: seq<Stmt>, n: nat, s: State): (k: nat)
    requires n <= |body|
    ensures k <= n && Run(env.ops, env.calls, body, k, Entered(s)).Some?
    ensures k < n ==> Run(env.ops, env.calls, body, k + 1, Entered(s)).None?
  {
    if n == 0 then 0
    else
      var k := Progress(env, body, n - 1, s);
      if k == n - 1 && Run(env.ops, env.calls, body, n, Entered(s)).Some? then n else k
  }

  function Executed(env: Env, h: Handler, s: State): (k: nat)
    ensures k <= |h.body| && Run(env.ops, env.calls, h.body, k, Entered(s)).Some?
  {
    Progress(env, h.body, |h.body|, s)
  }

  predicate Throws(env: Env, h: Handler, s: State) {
    Executed(env, h, s) < |h.body|
  }

  function StateAt(env: Env, body: seq<Stmt>, k: nat, s: State): State
    requires k <= |body| && Run(env.ops, env.calls, body, k, Entered(s)).Some?
  {
    var f := Run(env.ops, env.calls, body, k, Entered(s)).value;
    State(f.state, f.heap)
  }

  /** The state after a click; a handler that throws has already changed part of it. */
  function After(env: Env, h: Handler, s: State): State {
    StateAt(env, h.body, Executed(env, h, s), s)
  }

  /** What a click fires: nothing, if its handler throws on the way. */
  function Fires(env: Env, h: Handler, s: State): seq<Symbol> {
    if Throws(env, h, s) then [] else h.dirty
  }

  /** State and document after the first `n` clicks. */
  function RunPage(env: Env, page: Page, clicks: seq<Handler>, n: nat, s0: State, dom0: Dom): (State, Dom)
    requires n <= |clicks|
  {
    if n == 0 then (s0, FireAll(env, page, Keys(page.graph), s0, dom0))
    else
      var (s, dom) := RunPage(env, page, clicks, n - 1, s0, dom0);
      var t := After(env, clicks[n - 1], s);
      (t, FireAll(env, page, Fires(env, clicks[n - 1], s), t, dom))
  }

  /** Present, and no fired variable drives it. */
  ghost predicate LeftAlone(env: Env, page: Page, h: Handler, s: State, v: Symbol, op: Op) {
    && Drives(page.graph, v, op) && op.cmd in page.present
    && !Refreshed(page, Set(Fires(env, h, s)), KeyOf(op))
  }

  /** A click after which every slot left alone shows what it showed. */
  ghost predicate Contained(env: Env, page: Page, h: Handler, s: State) {
    forall v, op :: LeftAlone(env, page, h, s, v, op) ==>
      Show(env, page, v, op, After(env, h, s)) == Show(env, page, v, op, s)
  }

  /** A painted page stays painted over a click if and only if the click is contained. */
  lemma ClickPaints(env: Env, page: Page, h: Handler, s: State, dom: Dom)
    requires OneBinding(page.graph) && Painted(env, page, s, dom)
    ensures var t := After(env, h, s);
      Painted(env, page, t, FireAll(env, page, Fires(env, h, s), t, dom)) <==> Contained(env, page, h, s)
  {
    hide OneBinding, Show, KeyOf, FireAll, Drives, Painted, After, Fires;
    FireExact(env, page, Fires(env, h, s), s, After(env, h, s), dom);
  }

  // --- What a value reaches ------------------------------------------------

  /** `c` leads from `v` through the heap. */
  ghost predicate Chain(h: Heap, v: Val, c: seq<nat>) {
    && c != [] && v == Sir.Ref(c[0])
    && forall i :: 0 <= i < |c| - 1 ==> c[i] < |h| && Sir.Ref(c[i + 1]) in h[c[i]]
  }

  ghost predicate Reaches(h: Heap, v: Val, x: nat) {
    exists c :: Chain(h, v, c) && c[|c| - 1] == x
  }

  predicate Unchanged(h: Heap, k: Heap, x: nat) {
    x < |h| && x < |k| && k[x] == h[x]
  }

  /** Everything `v` reaches is the same in both heaps. */
  ghost predicate SameReached(v: Val, h: Heap, k: Heap) {
    forall x: nat :: Reaches(h, v, x) ==> Unchanged(h, k, x)
  }

  /** What a value shows depends only on what it reaches. */
  ghost predicate ShowsReachable(view: View) {
    forall v: Val, h: Heap, k: Heap :: SameReached(v, h, k) ==>
      && view.text(v, h) == view.text(v, k) && view.items(v, h) == view.items(v, k)
      && forall name: nat :: view.attr(name, v, h) == view.attr(name, v, k)
  }

  lemma ChainFront(h: Heap, v: Val, c: seq<nat>)
    requires Chain(h, v, c) && |c| > 1
    ensures Chain(h, v, c[..|c| - 1])
  {
  }

  /** Where all that is reached is the same, the same is reached. */
  lemma {:induction false} SameChains(v: Val, h: Heap, k: Heap, c: seq<nat>)
    requires SameReached(v, h, k)
    ensures Chain(h, v, c) <==> Chain(k, v, c)
    decreases |c|
  {
    if |c| > 1 {
      var front := c[..|c| - 1];
      SameChains(v, h, k, front);
      if Chain(h, v, c) || Chain(k, v, c) {
        assert Chain(h, v, front) by {
          if Chain(h, v, c) {
            ChainFront(h, v, c);
          } else {
            ChainFront(k, v, c);
          }
        }
        var i := |c| - 2;
        assert front[|front| - 1] == c[i] && Reaches(h, v, c[i]);
        assert Unchanged(h, k, c[i]);
        forall j | 0 <= j < |c| - 1
          ensures c[j] < |h| && c[j] < |k| && (Sir.Ref(c[j + 1]) in h[c[j]] <==> Sir.Ref(c[j + 1]) in k[c[j]])
        {
          assert Chain(h, v, c[..j + 1]) by {
            assert c[..j + 1] == front[..j + 1];
          }
          assert c[..j + 1][j] == c[j] && Reaches(h, v, c[j]);
        }
      }
    }
  }

  lemma SameReaches(v: Val, h: Heap, k: Heap, x: nat)
    requires SameReached(v, h, k)
    ensures Reaches(h, v, x) <==> Reaches(k, v, x)
  {
    hide SameReached;
    if Reaches(h, v, x) {
      var c :| Chain(h, v, c) && c[|c| - 1] == x;
      SameChains(v, h, k, c);
    }
    if Reaches(k, v, x) {
      var c :| Chain(k, v, c) && c[|c| - 1] == x;
      SameChains(v, h, k, c);
    }
  }

  // --- Views that tell things apart ----------------------------------------

  /** Shows whether a value is `v`. */
  ghost function TellValue(v: Val): View {
    var same: (Val, Heap) -> Out := (w, _) => if w == v then "1" else "0";
    View(same, (_, w, h) => same(w, h), same)
  }

  /** Shows whether a value reaches block `x` with contents `block`. */
  ghost predicate Seen(x: nat, block: seq<Val>, w: Val, h: Heap) {
    Reaches(h, w, x) && x < |h| && h[x] == block
  }

  ghost function TellBlock(x: nat, block: seq<Val>): View {
    var seen: (Val, Heap) -> Out := (w, h) => if Seen(x, block, w, h) then "1" else "0";
    View(seen, (_, w, h) => seen(w, h), seen)
  }

  lemma TellBlockShows(x: nat, block: seq<Val>)
    ensures ShowsReachable(TellBlock(x, block))
  {
    forall v: Val, h: Heap, k: Heap | SameReached(v, h, k) ensures Seen(x, block, v, h) == Seen(x, block, v, k) {
      SameReaches(v, h, k, x);
    }
    hide SameReached, Seen;
  }

  lemma TellValueShows(v: Val)
    ensures ShowsReachable(TellValue(v))
  {
    hide SameReached;
  }

  lemma Tells(op: Op, v: Val, w: Val, h: Heap, k: Heap, x: nat, block: seq<Val>)
    ensures (ShowAs(TellValue(v), op, v, h) == ShowAs(TellValue(v), op, w, k)) <==> v == w
    ensures (ShowAs(TellBlock(x, block), op, v, h) == ShowAs(TellBlock(x, block), op, v, k)) <==>
      (Seen(x, block, v, h) <==> Seen(x, block, v, k))
  {
    hide Seen;
  }

  /** Nothing dangling is reached. */
  ghost predicate ReachesWhole(h: Heap, v: Val) {
    forall x: nat :: Reaches(h, v, x) ==> x < |h|
  }

  /** Whatever the page shows of it, a slot shows the same if and only if it has the same value and all
      it reaches is unchanged. */
  lemma ShowsSame(op: Op, v: Val, w: Val, h: Heap, k: Heap)
    requires ReachesWhole(h, v)
    ensures (forall view: View :: ShowsReachable(view) ==> ShowAs(view, op, w, k) == ShowAs(view, op, v, h)) <==>
      w == v && SameReached(v, h, k)
  {
    hide Reaches;
    if w != v {
      TellValueShows(v);
      Tells(op, v, w, h, k, 0, []);
      hide TellValue;
      assert ShowAs(TellValue(v), op, w, k) != ShowAs(TellValue(v), op, v, h);
    } else if !SameReached(v, h, k) {
      var x: nat :| Reaches(h, v, x) && !Unchanged(h, k, x);
      TellBlockShows(x, h[x]);
      Tells(op, v, v, h, k, x, h[x]);
      assert Seen(x, h[x], v, h) && !Seen(x, h[x], v, k);
      hide TellBlock;
      assert ShowAs(TellBlock(x, h[x]), op, v, k) != ShowAs(TellBlock(x, h[x]), op, v, h);
    }
  }

  // --- Whole states --------------------------------------------------------

  predicate Exists(v: Val, h: Heap) {
    v.Ref? ==> v.addr < |h|
  }

  ghost predicate WholeHeap(h: Heap) {
    forall x, v :: 0 <= x < |h| && v in h[x] ==> Exists(v, h)
  }

  /** No dangling reference. */
  ghost predicate Whole(s: State) {
    WholeHeap(s.heap) && forall v :: v in s.vars ==> Exists(s.vars[v], s.heap)
  }

  ghost predicate WholeFrame(f: Frame) {
    && WholeHeap(f.heap)
    && (forall v :: v in f.vals ==> Exists(f.vals[v], f.heap))
    && (forall v :: v in f.state ==> Exists(f.state[v], f.heap))
  }

  /** User functions never lose a block and return and store no dangling reference. */
  ghost predicate SoundCalls(calls: Calls) {
    forall fn, args, heap ::
      calls(fn, args, heap).Some? && WholeHeap(heap) && (forall v :: v in args ==> Exists(v, heap)) ==>
      var (v, heap') := calls(fn, args, heap).value;
      |heap| <= |heap'| && WholeHeap(heap') && Exists(v, heap')
  }

  lemma GetExists<K>(m: map<K, Val>, k: K, h: Heap)
    requires forall v :: v in m ==> Exists(m[v], h)
    ensures Exists(Get(m, k), h)
  {
  }

  lemma ExecWhole(ops: Sir.Ops, calls: Calls, st: Stmt, f: Frame)
    requires Sir.PrimOps(ops) && SoundCalls(calls) && WholeFrame(f) && Exec(ops, calls, st, f).Some?
    ensures var g := Exec(ops, calls, st, f).value; WholeFrame(g) && |f.heap| <= |g.heap|
  {
    match st
    case CallFn(dst, fn, args) =>
      var vs := GetAll(f.vals, args);
      forall v | v in vs ensures Exists(v, f.heap) {
        var k :| 0 <= k < |vs| && vs[k] == v;
        GetExists(f.vals, args[k], f.heap);
      }
    case PushState(sym, v) =>
      GetExists(f.vals, v, f.heap);
      var a := Get(f.state, sym).addr;
      var heap := f.heap[a := f.heap[a] + [Get(f.vals, v)]];
      forall x: nat, w: Val | x < |heap| && w in heap[x] ensures Exists(w, heap) {
        if x != a {
          assert heap[x] == f.heap[x];
        }
        assert w in f.heap[x] || w == Get(f.vals, v);
        assert Exists(w, f.heap);
      }
    case _ =>
  }

  lemma {:induction false} RunWhole(env: Env, body: seq<Stmt>, n: nat, s: State)
    requires n <= |body| && Sir.PrimOps(env.ops) && SoundCalls(env.calls) && Whole(s)
    requires Run(env.ops, env.calls, body, n, Entered(s)).Some?
    ensures var f := Run(env.ops, env.calls, body, n, Entered(s)).value; WholeFrame(f) && |s.heap| <= |f.heap|
  {
    hide Sir.PrimOps, SoundCalls, Exec, WholeHeap;
    if n > 0 {
      RunWhole(env, body, n - 1, s);
      hide WholeFrame;
      ExecWhole(env.ops, env.calls, body[n - 1], Run(env.ops, env.calls, body, n - 1, Entered(s)).value);
    }
  }

  lemma AfterWhole(env: Env, h: Handler, s: State)
    requires Sir.PrimOps(env.ops) && SoundCalls(env.calls) && Whole(s)
    ensures Whole(After(env, h, s)) && |s.heap| <= |After(env, h, s).heap|
  {
    hide WholeHeap, Sir.PrimOps, SoundCalls;
    RunWhole(env, h.body, Executed(env, h, s), s);
  }

  lemma {:induction false} ChainWhole(h: Heap, v: Val, c: seq<nat>)
    requires WholeHeap(h) && Exists(v, h) && Chain(h, v, c)
    ensures c[|c| - 1] < |h|
  {
    if |c| > 1 {
      assert Sir.Ref(c[|c| - 2 + 1]) in h[c[|c| - 2]];
      assert Exists(Sir.Ref(c[|c| - 1]), h);
    }
  }

  lemma WholeReaches(h: Heap, v: Val)
    requires WholeHeap(h) && Exists(v, h)
    ensures ReachesWhole(h, v)
  {
    forall x: nat | Reaches(h, v, x) ensures x < |h| {
      var c :| Chain(h, v, c) && c[|c| - 1] == x;
      ChainWhole(h, v, c);
    }
  }

  // --- Computed slots ------------------------------------------------------

  /** A closure that calculates neither throws nor touches the heap, its values exist, and it gives the
      same in two states that agree on what it reads. */
  lemma {:induction false} CalculatesAlike(env: Env, body: seq<Stmt>, n: nat, s: State, t: State)
    requires n <= |body| && Sir.PrimOps(env.ops) && Whole(s)
    requires forall i :: 0 <= i < |body| ==> Calculates(body[i])
    ensures var a := Run(env.ops, env.calls, body, n, Entered(s));
      var b := Run(env.ops, env.calls, body, n, Entered(t));
      && a.Some? && b.Some? && a.value.state == s.vars && b.value.state == t.vars
      && (forall v :: v in a.value.vals ==> Exists(a.value.vals[v], s.heap))
      && ((forall i :: 0 <= i < |body| && body[i].ReadState? ==>
        Get(t.vars, body[i].sym) == Get(s.vars, body[i].sym)) ==>
        a.value.vals == b.value.vals)
  {
    hide WholeHeap;
    if n > 0 {
      CalculatesAlike(env, body, n - 1, s, t);
      assert Calculates(body[n - 1]);
      if body[n - 1].ReadState? {
        GetExists(s.vars, body[n - 1].sym, s.heap);
      }
    }
  }

  lemma ShownExists(env: Env, page: Page, v: Symbol, op: Op, s: State)
    requires PureValues(page) && Sir.PrimOps(env.ops) && Whole(s)
    ensures Exists(Shown(env, page, v, op, s), s.heap)
  {
    hide Run, WholeHeap, Sir.PrimOps;
    GetExists(s.vars, v, s.heap);
    if op.Computed? && op.cmd in page.values {
      var value := page.values[op.cmd];
      CalculatesAlike(env, value.body, |value.body|, s, s);
    }
  }

  lemma NotFired(page: Page, fired: seq<Symbol>, v: Symbol, op: Op)
    requires Drives(page.graph, v, op) && op.cmd in page.present && !Refreshed(page, Set(fired), KeyOf(op))
    ensures v !in fired
  {
    hide Drives;
    assert Fired(page, Set(fired), v, op) <==> v in fired;
  }

  /** After a click that does not throw, a slot left alone has the value it had, computed or not. */
  lemma LeftAloneSame(env: Env, page: Page, h: Handler, s: State, v: Symbol, op: Op)
    requires ReadsCaptures(page) && PureValues(page) && Sir.PrimOps(env.ops) && Whole(s)
    requires h.dirty == Dirty(h.body) && !Throws(env, h, s) && LeftAlone(env, page, h, s, v, op)
    ensures Shown(env, page, v, op, After(env, h, s)) == Shown(env, page, v, op, s)
  {
    hide Run, Drives, WholeHeap, Sir.PrimOps, Dirty, Refreshed;
    var t := After(env, h, s);
    RunChanges(env, h.body, |h.body|, s);
    NotFired(page, h.dirty, v, op);
    if op.Computed? && op.cmd in page.values {
      var value := page.values[op.cmd];
      forall i | 0 <= i < |value.body| && value.body[i].ReadState? ensures value.body[i].sym !in h.dirty {
        NotFired(page, h.dirty, value.body[i].sym, op);
      }
      CalculatesAlike(env, value.body, |value.body|, s, t);
    }
  }

  /** A handler changes no variable that it does not fire. */
  lemma {:induction false} RunChanges(env: Env, body: seq<Stmt>, n: nat, s: State)
    requires n <= |body| && Run(env.ops, env.calls, body, n, Entered(s)).Some?
    ensures forall v :: v !in Dirty(body) ==>
      Get(Run(env.ops, env.calls, body, n, Entered(s)).value.state, v) == Get(s.vars, v)
  {
    hide Dirty;
    if n > 0 {
      RunChanges(env, body, n - 1, s);
      DirtyExact(body);
      assert Changed(body[n - 1]).Some? ==> Changed(body[n - 1]).value in Dirty(body);
    }
  }

  // --- When a click is contained -------------------------------------------

  /** No slot left alone gets another value or reaches a block that the click changed. */
  ghost predicate Untouching(env: Env, page: Page, h: Handler, s: State) {
    forall v, op :: LeftAlone(env, page, h, s, v, op) ==>
      && Shown(env, page, v, op, After(env, h, s)) == Shown(env, page, v, op, s)
      && SameReached(Shown(env, page, v, op, s), s.heap, After(env, h, s).heap)
  }

  function Viewed(env: Env, view: View): Env {
    env.(view := view)
  }

  lemma ViewedSame(env: Env, view: View, page: Page, h: Handler, s: State, v: Symbol, op: Op)
    ensures After(Viewed(env, view), h, s) == After(env, h, s) && Fires(Viewed(env, view), h, s) == Fires(env, h, s)
    ensures Shown(Viewed(env, view), page, v, op, s) == Shown(env, page, v, op, s)
    ensures LeftAlone(Viewed(env, view), page, h, s, v, op) <==> LeftAlone(env, page, h, s, v, op)
  {
    ProgressViewed(env, view, h.body, |h.body|, s);
    hide Refreshed, Drives;
  }

  lemma ProgressViewed(env: Env, view: View, body: seq<Stmt>, n: nat, s: State)
    requires n <= |body|
    ensures Progress(Viewed(env, view), body, n, s) == Progress(env, body, n, s)
  {
  }

  /** What a slot shows before and after the click, through `view`. */
  ghost predicate Steady(env: Env, view: View, page: Page, h: Handler, s: State, v: Symbol, op: Op) {
    var t := After(env, h, s);
    ShowAs(view, op, Shown(env, page, v, op, t), t.heap) == ShowAs(view, op, Shown(env, page, v, op, s), s.heap)
  }

  lemma ContainedSteady(env: Env, view: View, page: Page, h: Handler, s: State)
    ensures Contained(Viewed(env, view), page, h, s) <==>
      forall v, op :: LeftAlone(env, page, h, s, v, op) ==> Steady(env, view, page, h, s, v, op)
  {
    hide LeftAlone, Shown, ShowAs, After, Fires;
    forall v: Symbol, op: Op
      ensures LeftAlone(Viewed(env, view), page, h, s, v, op) <==> LeftAlone(env, page, h, s, v, op)
      ensures
        Show(Viewed(env, view), page, v, op, After(Viewed(env, view), h, s)) == Show(Viewed(env, view), page, v, op, s)
        <==> Steady(env, view, page, h, s, v, op)
    {
      ViewedSame(env, view, page, h, s, v, op);
      ViewedSame(env, view, page, h, After(env, h, s), v, op);
    }
  }

  lemma SteadyExact(env: Env, page: Page, h: Handler, s: State, v: Symbol, op: Op)
    requires PureValues(page) && Sir.PrimOps(env.ops) && Whole(s)
    ensures (forall view: View :: ShowsReachable(view) ==> Steady(env, view, page, h, s, v, op)) <==>
      Shown(env, page, v, op, After(env, h, s)) == Shown(env, page, v, op, s)
      && SameReached(Shown(env, page, v, op, s), s.heap, After(env, h, s).heap)
  {
    hide PureValues, Sir.PrimOps, Whole, ShowsReachable, SameReached, Shown, ShowAs, After, ReachesWhole;
    var t := After(env, h, s);
    SlotWhole(env, page, v, op, s);
    ShowsSame(op, Shown(env, page, v, op, s), Shown(env, page, v, op, t), s.heap, t.heap);
  }

  /** A click is contained however the page shows its values, if and only if no slot left alone reaches
      what the click changed: in particular whatever user functions do to arrays and structs. */
  lemma ContainedExact(env: Env, page: Page, h: Handler, s: State)
    requires PureValues(page) && Sir.PrimOps(env.ops) && Whole(s)
    ensures (forall view: View :: ShowsReachable(view) ==>
      Contained(Viewed(env, view), page, h, s)) <==> Untouching(env, page, h, s)
  {
    hide PureValues, Sir.PrimOps, Whole, ShowsReachable, SameReached, LeftAlone, Shown, After, Steady, Contained;
    hide Viewed;
    forall view: View ensures Contained(Viewed(env, view), page, h, s) <==>
      forall v, op :: LeftAlone(env, page, h, s, v, op) ==> Steady(env, view, page, h, s, v, op)
    {
      ContainedSteady(env, view, page, h, s);
    }
    forall v: Symbol, op: Op
      ensures (forall view: View :: ShowsReachable(view) ==> Steady(env, view, page, h, s, v, op)) <==>
        Shown(env, page, v, op, After(env, h, s)) == Shown(env, page, v, op, s)
        && SameReached(Shown(env, page, v, op, s), s.heap, After(env, h, s).heap)
    {
      SteadyExact(env, page, h, s, v, op);
    }
  }

  lemma SlotWhole(env: Env, page: Page, v: Symbol, op: Op, s: State)
    requires PureValues(page) && Sir.PrimOps(env.ops) && Whole(s)
    ensures ReachesWhole(s.heap, Shown(env, page, v, op, s))
  {
    hide PureValues, Sir.PrimOps, WholeHeap, Shown, ReachesWhole;
    ShownExists(env, page, v, op, s);
    WholeReaches(s.heap, Shown(env, page, v, op, s));
  }

  // --- Array pushes --------------------------------------------------------

  /** User functions may build arrays and structs but leave those there are as they are. */
  ghost predicate KeepsCells(calls: Calls) {
    forall fn, args, heap :: calls(fn, args, heap).Some? ==> heap <= calls(fn, args, heap).value.1
  }

  /** The array a statement pushes to. */
  function PushTarget(env: Env, body: seq<Stmt>, k: nat, s: State): set<nat>
    requires k < |body|
  {
    var f := Run(env.ops, env.calls, body, k, Entered(s));
    if body[k].PushState? && f.Some? && Get(f.value.state, body[k].sym).Ref?
    then {Get(f.value.state, body[k].sym).addr}
    else {}
  }

  /** The arrays that the first `n` statements push to. */
  function Pushed(env: Env, body: seq<Stmt>, n: nat, s: State): set<nat>
    requires n <= |body|
  {
    if n == 0 then {} else Pushed(env, body, n - 1, s) + PushTarget(env, body, n - 1, s)
  }

  /** Every block there was is still there, longer exactly if it was pushed to. */
  ghost predicate Lengthened(h: Heap, k: Heap, pushed: set<nat>) {
    |h| <= |k| && forall x :: 0 <= x < |h| ==> h[x] <= k[x] && (x in pushed <==> |h[x]| < |k[x]|)
  }

  lemma ExecLengthens(env: Env, body: seq<Stmt>, k: nat, s: State, pushed: set<nat>)
    requires k < |body| && KeepsCells(env.calls) && Run(env.ops, env.calls, body, k + 1, Entered(s)).Some?
    requires Run(env.ops, env.calls, body, k, Entered(s)).Some?
    requires Lengthened(s.heap, Run(env.ops, env.calls, body, k, Entered(s)).value.heap, pushed)
    ensures Lengthened(s.heap, Run(env.ops, env.calls, body, k + 1, Entered(s)).value.heap,
      pushed + PushTarget(env, body, k, s))
  {
    var f := Run(env.ops, env.calls, body, k, Entered(s)).value;
    var g := Run(env.ops, env.calls, body, k + 1, Entered(s)).value;
    if body[k].CallFn? {
      var args := GetAll(f.vals, body[k].args);
      assert env.calls(body[k].fn, args, f.heap).Some? && f.heap <= g.heap;
      forall x | 0 <= x < |f.heap| ensures g.heap[x] == f.heap[x] {
      }
    }
  }

  lemma {:induction false} PushesLengthen(env: Env, body: seq<Stmt>, n: nat, s: State)
    requires n <= |body| && KeepsCells(env.calls) && Run(env.ops, env.calls, body, n, Entered(s)).Some?
    ensures Lengthened(s.heap, Run(env.ops, env.calls, body, n, Entered(s)).value.heap, Pushed(env, body, n, s))
  {
    hide Lengthened, KeepsCells, PushTarget, Exec;
    if n == 0 {
      SameLengths(s.heap);
    } else {
      PushesLengthen(env, body, n - 1, s);
      ExecLengthens(env, body, n - 1, s, Pushed(env, body, n - 1, s));
    }
  }

  lemma SameLengths(h: Heap)
    ensures Lengthened(h, h, {})
  {
  }

  /** No slot left alone reaches an array that the handler pushes to. */
  ghost predicate ApartFromPushes(env: Env, page: Page, h: Handler, s: State) {
    forall v, op, x :: LeftAlone(env, page, h, s, v, op) && Reaches(s.heap, Shown(env, page, v, op, s), x) ==>
      x !in Pushed(env, h.body, Executed(env, h, s), s)
  }

  lemma SlotApart(h: Heap, k: Heap, v: Val, pushed: set<nat>)
    requires ReachesWhole(h, v) && Lengthened(h, k, pushed)
    ensures SameReached(v, h, k) <==> forall x: nat :: Reaches(h, v, x) ==> x !in pushed
  {
    hide Reaches;
    forall x: nat | Reaches(h, v, x) ensures Unchanged(h, k, x) <==> x !in pushed {
      assert h[x] <= k[x];
    }
  }

  /** A handler that does not throw, whose calls leave existing arrays and structs alone, is contained
      however the page shows its values if and only if no slot left alone reaches an array it pushes
      to. */
  lemma PushContained(env: Env, page: Page, h: Handler, s: State)
    requires ReadsCaptures(page) && PureValues(page) && Sir.PrimOps(env.ops) && Whole(s) && KeepsCells(env.calls)
    requires h.dirty == Dirty(h.body) && !Throws(env, h, s)
    ensures (forall view: View :: ShowsReachable(view) ==>
      Contained(Viewed(env, view), page, h, s)) <==> ApartFromPushes(env, page, h, s)
  {
    hide ReadsCaptures, PureValues, Sir.PrimOps, Whole, KeepsCells, ShowsReachable, Contained, Dirty, LeftAlone;
    hide Shown, Run, Pushed, Reaches, SameReached, Lengthened, ReachesWhole;
    ContainedExact(env, page, h, s);
    PushesLengthen(env, h.body, |h.body|, s);
    var t, pushed := After(env, h, s), Pushed(env, h.body, |h.body|, s);
    forall v: Symbol, op: Op | LeftAlone(env, page, h, s, v, op)
      ensures Shown(env, page, v, op, t) == Shown(env, page, v, op, s)
      ensures SameReached(Shown(env, page, v, op, s), s.heap, t.heap) <==>
        forall x: nat :: Reaches(s.heap, Shown(env, page, v, op, s), x) ==> x !in pushed
    {
      LeftAloneSame(env, page, h, s, v, op);
      SlotWhole(env, page, v, op, s);
      SlotApart(s.heap, t.heap, Shown(env, page, v, op, s), pushed);
    }
  }

  /** If no variable pushed to is also assigned, the arrays pushed to are those the variables hold when
      the click comes. */
  lemma {:induction false} PushedAtEntry(env: Env, body: seq<Stmt>, n: nat, s: State, x: nat)
    requires n <= |body| && Run(env.ops, env.calls, body, n, Entered(s)).Some?
    requires forall i, j :: 0 <= i < |body| && 0 <= j < |body| && body[i].PushState? && body[j].WriteState? ==>
      body[i].sym != body[j].sym
    ensures forall i :: 0 <= i < |body| && body[i].PushState? ==>
      Get(Run(env.ops, env.calls, body, n, Entered(s)).value.state, body[i].sym) == Get(s.vars, body[i].sym)
    ensures x in Pushed(env, body, n, s) <==>
      exists i :: 0 <= i < n && body[i].PushState? && Get(s.vars, body[i].sym) == Sir.Ref(x)
  {
    if n > 0 {
      PushedAtEntry(env, body, n - 1, s, x);
      hide Pushed;
      PushedNext(env, body, n, s);
    }
  }

  lemma PushedNext(env: Env, body: seq<Stmt>, n: nat, s: State)
    requires 0 < n <= |body|
    ensures Pushed(env, body, n, s) == Pushed(env, body, n - 1, s) + PushTarget(env, body, n - 1, s)
  {
    hide PushTarget;
  }

  lemma {:induction false} NothingPushed(env: Env, body: seq<Stmt>, n: nat, s: State)
    requires n <= |body| && forall i :: 0 <= i < |body| ==> !body[i].PushState?
    ensures Pushed(env, body, n, s) == {}
  {
    if n > 0 {
      NothingPushed(env, body, n - 1, s);
    }
  }

  // --- Runs of clicks ------------------------------------------------------

  ghost predicate PaintedAfter(env: Env, page: Page, clicks: seq<Handler>, k: nat, s0: State, dom0: Dom)
    requires k <= |clicks|
  {
    var (s, dom) := RunPage(env, page, clicks, k, s0, dom0);
    Painted(env, page, s, dom)
  }

  lemma PaintsNext(env: Env, page: Page, clicks: seq<Handler>, k: nat, s0: State, dom0: Dom)
    requires OneBinding(page.graph) && k < |clicks| && PaintedAfter(env, page, clicks, k, s0, dom0)
    ensures PaintedAfter(env, page, clicks, k + 1, s0, dom0) <==>
      Contained(env, page, clicks[k], RunPage(env, page, clicks, k, s0, dom0).0)
  {
    hide OneBinding, Painted, Contained, FireAll, After, Fires;
    var (s, dom) := RunPage(env, page, clicks, k, s0, dom0);
    ClickPaints(env, page, clicks[k], s, dom);
  }

  /** After the initial paint and after every click, the document is what a full repaint from the
      state would make it, for every run of contained clicks. */
  lemma {:induction false} StaysPainted(env: Env, page: Page, clicks: seq<Handler>, n: nat, s0: State, dom0: Dom)
    requires OneBinding(page.graph) && n <= |clicks|
    requires forall k :: 0 <= k < n ==> Contained(env, page, clicks[k], RunPage(env, page, clicks, k, s0, dom0).0)
    ensures PaintedAfter(env, page, clicks, n, s0, dom0)
    ensures var (s, dom) := RunPage(env, page, clicks, n, s0, dom0); FireAll(env, page, Keys(page.graph), s, dom) == dom
  {
    hide OneBinding, FireAll, Painted, After, Fires, Contained, Keys;
    if n == 0 {
      InitialPaint(env, page, s0, dom0);
    } else {
      StaysPainted(env, page, clicks, n - 1, s0, dom0);
      PaintsNext(env, page, clicks, n - 1, s0, dom0);
    }
    var (t, d) := RunPage(env, page, clicks, n, s0, dom0);
    RepaintIdle(env, page, t, d);
  }

  lemma {:induction false} RunViewed(env: Env, view: View, page: Page, clicks: seq<Handler>, n: nat, s0: State,
                                     dom0: Dom)
    requires n <= |clicks|
    ensures RunPage(Viewed(env, view), page, clicks, n, s0, dom0).0 == RunPage(env, page, clicks, n, s0, dom0).0
  {
    hide After, Fires, FireAll, Shown, Viewed;
    if n > 0 {
      RunViewed(env, view, page, clicks, n - 1, s0, dom0);
      ViewedSame(env, view, page, clicks[n - 1], RunPage(env, page, clicks, n - 1, s0, dom0).0, 0, Text(0));
    }
  }

  lemma {:induction false} WholeAfter(env: Env, page: Page, clicks: seq<Handler>, n: nat, s0: State, dom0: Dom)
    requires Sir.PrimOps(env.ops) && SoundCalls(env.calls) && Whole(s0) && n <= |clicks|
    ensures Whole(RunPage(env, page, clicks, n, s0, dom0).0)
  {
    hide Sir.PrimOps, SoundCalls, Whole, FireAll, After, Fires;
    if n > 0 {
      WholeAfter(env, page, clicks, n - 1, s0, dom0);
      AfterWhole(env, clicks[n - 1], RunPage(env, page, clicks, n - 1, s0, dom0).0);
    }
  }

  /** A run keeps the page painted from the first paint on, however values are shown, if and only if at
      every click no slot left alone gets another value or reaches a block that the click changed. */
  lemma RunExact(env: Env, page: Page, clicks: seq<Handler>, n: nat, s0: State, dom0: Dom)
    requires OneBinding(page.graph) && PureValues(page) && Sir.PrimOps(env.ops) && SoundCalls(env.calls) && Whole(s0)
    requires n <= |clicks|
    ensures (forall view: View, k: nat :: ShowsReachable(view) && k <= n ==>
      PaintedAfter(Viewed(env, view), page, clicks, k, s0, dom0)) <==>
      forall k :: 0 <= k < n ==> Untouching(env, page, clicks[k], RunPage(env, page, clicks, k, s0, dom0).0)
  {
    hide OneBinding, PureValues, Sir.PrimOps, SoundCalls, Whole, ShowsReachable, PaintedAfter, Untouching, RunPage;
    hide Contained, Viewed;
    forall k: nat | k < n
      ensures Untouching(env, page, clicks[k], RunPage(env, page, clicks, k, s0, dom0).0) <==>
        forall view: View :: ShowsReachable(view) ==>
          Contained(Viewed(env, view), page, clicks[k], RunPage(Viewed(env, view), page, clicks, k, s0, dom0).0)
    {
      WholeAfter(env, page, clicks, k, s0, dom0);
      ContainedExact(env, page, clicks[k], RunPage(env, page, clicks, k, s0, dom0).0);
      forall view: View
        ensures RunPage(Viewed(env, view), page, clicks, k, s0, dom0).0 == RunPage(env, page, clicks, k, s0, dom0).0
      {
        RunViewed(env, view, page, clicks, k, s0, dom0);
      }
    }
    if forall view: View, k: nat :: ShowsReachable(view) && k <= n ==>
      PaintedAfter(Viewed(env, view), page, clicks, k, s0, dom0) {
      forall view: View, k: nat | ShowsReachable(view) && k < n
        ensures Contained(Viewed(env, view), page, clicks[k], RunPage(Viewed(env, view), page, clicks, k, s0, dom0).0)
      {
        PaintsNext(Viewed(env, view), page, clicks, k, s0, dom0);
      }
    }
    if forall k :: 0 <= k < n ==> Untouching(env, page, clicks[k], RunPage(env, page, clicks, k, s0, dom0).0) {
      forall view: View, k: nat | ShowsReachable(view) && k <= n
        ensures PaintedAfter(Viewed(env, view), page, clicks, k, s0, dom0)
      {
        StaysPainted(Viewed(env, view), page, clicks, k, s0, dom0);
      }
    }
  }

  /** What the backend guarantees of a page and its handlers, with calls that may build arrays and
      structs but leave existing ones alone. */
  ghost predicate Sound(env: Env, page: Page) {
    && OneBinding(page.graph) && ReadsCaptures(page) && PureValues(page)
    && Sir.PrimOps(env.ops) && SoundCalls(env.calls) && KeepsCells(env.calls) && ShowsReachable(env.view)
  }

  /** Every run of handlers that do not throw keeps the document what a full repaint would make it, if
      at each click no slot left alone reaches an array that is pushed to: with calls that allocate, and
      always when nothing is pushed. */
  lemma FineGrained(env: Env, page: Page, clicks: seq<Handler>, n: nat, s0: State, dom0: Dom)
    requires Sound(env, page) && Whole(s0) && n <= |clicks|
    requires forall k :: 0 <= k < n ==> Fits(env, page, clicks[k], RunPage(env, page, clicks, k, s0, dom0).0)
    ensures PaintedAfter(env, page, clicks, n, s0, dom0)
    ensures var (s, dom) := RunPage(env, page, clicks, n, s0, dom0); FireAll(env, page, Keys(page.graph), s, dom) == dom
  {
    hide Sound, Whole, Fits, RunPage, FireAll, PaintedAfter, Keys, Contained;
    SoundParts(env, page);
    hide OneBinding, Sir.PrimOps, SoundCalls;
    forall k: nat | k < n ensures Contained(env, page, clicks[k], RunPage(env, page, clicks, k, s0, dom0).0) {
      WholeAfter(env, page, clicks, k, s0, dom0);
      FitsContained(env, page, clicks[k], RunPage(env, page, clicks, k, s0, dom0).0);
    }
    StaysPainted(env, page, clicks, n, s0, dom0);
  }

  lemma SoundParts(env: Env, page: Page)
    requires Sound(env, page)
    ensures OneBinding(page.graph) && Sir.PrimOps(env.ops) && SoundCalls(env.calls)
  {
    hide OneBinding, ReadsCaptures, PureValues, Sir.PrimOps, SoundCalls, KeepsCells, ShowsReachable;
  }

  /** A handler as the backend makes it, at a click at which it does not throw and pushes to nothing
      that a slot left alone reaches. */
  ghost predicate Fits(env: Env, page: Page, h: Handler, s: State) {
    h.dirty == Dirty(h.body) && !Throws(env, h, s) && (NoPush(h.body) || ApartFromPushes(env, page, h, s))
  }

  predicate NoPush(body: seq<Stmt>) {
    forall i :: 0 <= i < |body| ==> !body[i].PushState?
  }

  lemma FitsContained(env: Env, page: Page, h: Handler, s: State)
    requires Sound(env, page) && Whole(s) && Fits(env, page, h, s)
    ensures Contained(env, page, h, s)
  {
    hide OneBinding, ReadsCaptures, PureValues, Sir.PrimOps, SoundCalls, KeepsCells, ShowsReachable, Whole, Dirty;
    hide Contained, Pushed, Throws, LeftAlone, Shown, Reaches;
    if NoPush(h.body) {
      NothingPushed(env, h.body, Executed(env, h, s), s);
    }
    PushContained(env, page, h, s);
    assert Viewed(env, env.view) == env;
  }

  // --- Clicks that leave a slot stale --------------------------------------

  /** Two lists that come to show one array: after `b = a`, a push through `a` leaves the list of `b` as
      it was. */
  lemma SharedArrayStale(env: Env, dom0: Dom)
    requires env.view.items(Sir.Ref(0), [[], []]) != env.view.items(Sir.Ref(0), [[Sir.Prim(7)], []])
    ensures var page := Page([(0, [List(0)]), (1, [List(1)])], map[], {0, 1});
      var clicks := [Handler([ReadState(0, 0), WriteState(1, 0)], [1], [1, 0]),
        Handler([SetConst(0, 7), PushState(0, 0)], [0], [0])];
      var s0 := State(map[0 := Sir.Ref(0), 1 := Sir.Ref(1)], [[], []]);
      PaintedAfter(env, page, clicks, 1, s0, dom0) && !PaintedAfter(env, page, clicks, 2, s0, dom0)
  {
    var page := Page([(0, [List(0)]), (1, [List(1)])], map[], {0, 1});
    var assign := Handler([ReadState(0, 0), WriteState(1, 0)], [1], [1, 0]);
    var push := Handler([SetConst(0, 7), PushState(0, 0)], [0], [0]);
    var clicks := [assign, push];
    var s0 := State(map[0 := Sir.Ref(0), 1 := Sir.Ref(1)], [[], []]);
    var s1 := State(map[0 := Sir.Ref(0), 1 := Sir.Ref(0)], [[], []]);
    SharedGraph(page.graph);
    AssignRuns(env, assign, s0, s1);
    PushRuns(env, push, s1);
    hide FireAll, After, Fires, OneBinding, Drives, Painted, Contained;
    FirstRuns(env, page, clicks, s0, dom0);
    InitialPaint(env, page, s0, dom0);
    PaintsNext(env, page, clicks, 0, s0, dom0);
    NotRefreshed(page, 1, 0);
    AssignContained(env, page, assign, s0, s1);
    PaintsNext(env, page, clicks, 1, s0, dom0);
    NotRefreshed(page, 0, 1);
    PushNotContained(env, page, push, s1);
  }

  lemma FirstRuns(env: Env, page: Page, clicks: seq<Handler>, s: State, dom: Dom)
    requires |clicks| >= 1
    ensures RunPage(env, page, clicks, 0, s, dom) == (s, FireAll(env, page, Keys(page.graph), s, dom))
    ensures RunPage(env, page, clicks, 1, s, dom).0 == After(env, clicks[0], s)
  {
    hide FireAll, After, Fires;
  }

  lemma AssignContained(env: Env, page: Page, h: Handler, s: State, t: State)
    requires forall v, op :: Drives(page.graph, v, op) <==> (v == 0 && op == List(0)) || (v == 1 && op == List(1))
    requires Refreshed(page, Set([1]), Content(1)) && Fires(env, h, s) == [1] && After(env, h, s) == t
    requires s.heap == t.heap && Get(s.vars, 0) == Get(t.vars, 0)
    ensures Contained(env, page, h, s)
  {
    hide Drives, Refreshed, After, Fires;
  }

  lemma PushNotContained(env: Env, page: Page, h: Handler, s: State)
    requires forall v, op :: Drives(page.graph, v, op) <==> (v == 0 && op == List(0)) || (v == 1 && op == List(1))
    requires !Refreshed(page, Set([0]), Content(1)) && Fires(env, h, s) == [0] && page.present == {0, 1}
    requires env.view.items(Get(s.vars, 1), s.heap) != env.view.items(Get(After(env, h, s).vars, 1),
      After(env, h, s).heap)
    ensures !Contained(env, page, h, s)
  {
    hide Drives, Refreshed, After, Fires;
    assert LeftAlone(env, page, h, s, 1, List(1));
  }

  lemma SharedGraph(g: Graph)
    requires g == [(0, [List(0)]), (1, [List(1)])]
    ensures OneBinding(g) && forall v, op :: Drives(g, v, op) <==>
      (v == 0 && op == List(0)) || (v == 1 && op == List(1))
  {
    forall v: Symbol, op: Op ensures Drives(g, v, op) <==> (v == 0 && op == List(0)) || (v == 1 && op == List(1)) {
      DrivesSplit(g, v, op);
      DrivesSplit(g[1..], v, op);
      assert g[1..] == [(1, [List(1)])] && g[1..][1..] == [];
    }
  }

  /** Firing `v` refreshes slot `v` and not slot `w`. */
  lemma NotRefreshed(page: Page, v: Symbol, w: Symbol)
    requires v != w && page.present == {0, 1} && (v == 0 || v == 1) && (w == 0 || w == 1)
    requires forall x, op :: Drives(page.graph, x, op) <==> (x == 0 && op == List(0)) || (x == 1 && op == List(1))
    ensures Refreshed(page, Set([v]), Content(v)) && !Refreshed(page, Set([v]), Content(w))
  {
    hide Drives;
    assert v in Set([v]) && Fired(page, Set([v]), v, List(v));
  }

  lemma AssignRuns(env: Env, h: Handler, s: State, t: State)
    requires h == Handler([ReadState(0, 0), WriteState(1, 0)], [1], [1, 0])
    requires s == State(map[0 := Sir.Ref(0), 1 := Sir.Ref(1)], [[], []])
    requires t == State(map[0 := Sir.Ref(0), 1 := Sir.Ref(0)], [[], []])
    ensures After(env, h, s) == t && Fires(env, h, s) == [1]
  {
    var f := Entered(s);
    assert Run(env.ops, env.calls, h.body, 0, f) == Some(f);
    assert Run(env.ops, env.calls, h.body, 1, f) == Some(f.(vals := map[0 := Sir.Ref(0)]));
    assert s.vars[1 := Sir.Ref(0)] == t.vars;
    assert Run(env.ops, env.calls, h.body, 2, f) == Some(Frame(map[0 := Sir.Ref(0)], t.vars, s.heap));
    hide Run;
    Completes(env, h, s);
  }

  lemma PushRuns(env: Env, h: Handler, s: State)
    requires h == Handler([SetConst(0, 7), PushState(0, 0)], [0], [0])
    requires s == State(map[0 := Sir.Ref(0), 1 := Sir.Ref(0)], [[], []])
    ensures After(env, h, s) == State(s.vars, [[Sir.Prim(7)], []]) && Fires(env, h, s) == [0]
  {
    var f := Entered(s);
    assert Run(env.ops, env.calls, h.body, 0, f) == Some(f);
    assert Run(env.ops, env.calls, h.body, 1, f) == Some(f.(vals := map[0 := Sir.Prim(7)]));
    assert s.heap[0] + [Sir.Prim(7)] == [Sir.Prim(7)];
    assert s.heap[0 := s.heap[0] + [Sir.Prim(7)]] == [[Sir.Prim(7)], []];
    assert Run(env.ops, env.calls, h.body, 2, f) == Some(Frame(map[0 := Sir.Prim(7)], s.vars, [[Sir.Prim(7)], []]));
    hide Run;
    Completes(env, h, s);
  }

  lemma {:induction false} RunsBefore(env: Env, body: seq<Stmt>, k: nat, n: nat, s: State)
    requires k <= n <= |body| && Run(env.ops, env.calls, body, n, Entered(s)).Some?
    ensures Run(env.ops, env.calls, body, k, Entered(s)).Some?
  {
    hide Exec;
    if k < n {
      RunsBefore(env, body, k, n - 1, s);
    }
  }

  lemma Completes(env: Env, h: Handler, s: State)
    requires Run(env.ops, env.calls, h.body, |h.body|, Entered(s)).Some?
    ensures !Throws(env, h, s)
  {
    hide Run, Progress;
    if Executed(env, h, s) < |h.body| {
      RunsBefore(env, h.body, Executed(env, h, s) + 1, |h.body|, s);
    }
  }

  /** A page with one text, of variable 0. */
  function OneText(): Page {
    Page([(0, [Text(0)])], map[], {0})
  }

  lemma OneTextGraph(g: Graph)
    requires g == [(0, [Text(0)])]
    ensures OneBinding(g) && forall v, op :: Drives(g, v, op) <==> v == 0 && op == Text(0)
  {
    forall v: Symbol, op: Op ensures Drives(g, v, op) <==> v == 0 && op == Text(0) {
      DrivesSplit(g, v, op);
      assert g[1..] == [];
    }
  }

  /** A user function that changes the struct it is given, like a random number generator its state, is
      called: the text that shows the struct stays as it was. */
  lemma MutatingCallStale(env: Env, dom0: Dom)
    requires env.calls(3, [Sir.Ref(0)], [[Sir.Prim(1)]]) == Some((Sir.Unit, [[Sir.Prim(2)]]))
    requires env.view.text(Sir.Ref(0), [[Sir.Prim(1)]]) != env.view.text(Sir.Ref(0), [[Sir.Prim(2)]])
    ensures !PaintedAfter(env, OneText(), [Handler([ReadState(0, 0), CallFn(1, 3, [0])], [], [0])], 1,
      State(map[0 := Sir.Ref(0)], [[Sir.Prim(1)]]), dom0)
  {
    var page, h := OneText(), Handler([ReadState(0, 0), CallFn(1, 3, [0])], [], [0]);
    var s := State(map[0 := Sir.Ref(0)], [[Sir.Prim(1)]]);
    OneTextGraph(page.graph);
    var f := Entered(s);
    assert Run(env.ops, env.calls, h.body, 0, f) == Some(f);
    assert Run(env.ops, env.calls, h.body, 1, f) == Some(f.(vals := map[0 := Sir.Ref(0)]));
    assert GetAll(map[0 := Sir.Ref(0)], [0]) == [Sir.Ref(0)];
    assert Run(env.ops, env.calls, h.body, 2, f) == Some(Frame(map[0 := Sir.Ref(0), 1 := Sir.Unit], s.vars,
      [[Sir.Prim(2)]]));
    hide Run;
    Completes(env, h, s);
    StaleText(env, h, s, dom0);
  }

  /** A handler that assigns and then throws has changed the state and fires nothing. */
  lemma ThrownClickStale(env: Env, dom0: Dom)
    requires env.view.text(Sir.Prim(1), []) != env.view.text(Sir.Prim(5), [])
    ensures var h := Handler([SetConst(0, 5), WriteState(0, 0), PushState(1, 0)], [0, 1], [0, 1]);
      !PaintedAfter(env, OneText(), [h], 1, State(map[0 := Sir.Prim(1), 1 := Sir.Unit], []), dom0)
  {
    var page, h := OneText(), Handler([SetConst(0, 5), WriteState(0, 0), PushState(1, 0)], [0, 1], [0, 1]);
    var s := State(map[0 := Sir.Prim(1), 1 := Sir.Unit], []);
    OneTextGraph(page.graph);
    var f := Entered(s);
    assert Run(env.ops, env.calls, h.body, 0, f) == Some(f);
    assert Run(env.ops, env.calls, h.body, 1, f) == Some(f.(vals := map[0 := Sir.Prim(5)]));
    assert Run(env.ops, env.calls, h.body, 2, f) == Some(Frame(map[0 := Sir.Prim(5)], s.vars[0 := Sir.Prim(5)], []));
    assert Run(env.ops, env.calls, h.body, 3, f).None?;
    assert Executed(env, h, s) == 2 by {
      assert Progress(env, h.body, 0, s) == 0;
      assert Progress(env, h.body, 1, s) == 1;
      assert Progress(env, h.body, 2, s) == 2;
    }
    hide Run, Progress;
    StaleText(env, h, s, dom0);
  }

  /** If a click that does not fire variable 0 changes what it shows, its text is stale. */
  lemma StaleText(env: Env, h: Handler, s: State, dom0: Dom)
    requires Fires(env, h, s) == []
    requires OneBinding(OneText().graph) && forall v, op :: Drives(OneText().graph, v, op) <==> v == 0 && op == Text(0)
    requires Show(env, OneText(), 0, Text(0), After(env, h, s)) != Show(env, OneText(), 0, Text(0), s)
    ensures !PaintedAfter(env, OneText(), [h], 1, s, dom0)
  {
    hide FireAll, After, Fires, OneBinding, Drives, Painted;
    assert PaintedAfter(env, OneText(), [h], 0, s, dom0) by {
      InitialPaint(env, OneText(), s, dom0);
    }
    PaintsNext(env, OneText(), [h], 0, s, dom0);
    assert LeftAlone(env, OneText(), h, s, 0, Text(0)) by {
      assert Set([]) == {};
    }
  }
}
