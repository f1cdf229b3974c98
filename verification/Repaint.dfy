/** Events on a reactive page: a handler updates the state and repaints only what its writes drive.
    The page stays as a full repaint from the state would make it. */
module Repaint {
  import opened Wrappers
  import opened Reactive
  import Sir

  // --- Running handlers ----------------------------------------------------

  /** The variables of one handler call, the page's state and the heap of arrays and structs. */
  datatype Frame = Frame(vals: map<ValueId, Val>, state: map<Symbol, Val>, heap: Heap)

  /** User functions, emitted beside the handlers; None is an exception. */
  type Calls = (Symbol, seq<Val>, Heap) -> Option<(Val, Heap)>

  /** A name that holds nothing reads as `undefined`. */
  function Get<K>(m: map<K, Val>, k: K): Val {
    if k in m then m[k] else Sir.Unit
  }

  function GetAll(vals: map<ValueId, Val>, ids: seq<ValueId>): seq<Val> {
    seq(|ids|, i requires 0 <= i < |ids| => Get(vals, ids[i]))
  }

  function Exec(ops: Sir.Ops, calls: Calls, s: Stmt, f: Frame): Option<Frame> {
    match s
    case SetConst(dst, c) => Some(f.(vals := f.vals[dst := Sir.Prim(c)]))
    case ReadState(dst, sym) => Some(f.(vals := f.vals[dst := Get(f.state, sym)]))
    case SetBin(dst, op, a, b) => Some(f.(vals := f.vals[dst := ops.bin(op, Get(f.vals, a), Get(f.vals, b))]))
    case SetUn(dst, op, a) => Some(f.(vals := f.vals[dst := ops.un(op, Get(f.vals, a))]))
    case WriteState(sym, v) => Some(f.(state := f.state[sym := Get(f.vals, v)]))
    case PushState(sym, v) =>
      var arr := Get(f.state, sym);
      if arr.Ref? && arr.addr < |f.heap| then
        Some(f.(heap := f.heap[arr.addr := f.heap[arr.addr] + [Get(f.vals, v)]]))
      else None
    case CallFn(dst, fn, args) =>
      match calls(fn, GetAll(f.vals, args), f.heap)
      case None => None
      case Some((v, heap)) => Some(f.(vals := f.vals[dst := v], heap := heap))
  }

  /** The first `n` statements. */
  function Run(ops: Sir.Ops, calls: Calls, body: seq<Stmt>, n: nat, f: Frame): Option<Frame>
    requires n <= |body|
  {
    if n == 0 then Some(f)
    else
      match Run(ops, calls, body, n - 1, f)
      case None => None
      case Some(g) => Exec(ops, calls, body[n - 1], g)
  }

  // --- The emitted handler does what the closure does ------------------------

  /** The first `n` instructions of the closure, its captured variables being the page's state. */
  function RunClosure(ops: Sir.Ops, calls: Calls, params: seq<Symbol>, body: seq<Sir.Insn>, n: nat, f: Sir.Frame,
                      heap: Heap)
    : Option<(Sir.Frame, Heap)>
    requires n <= |body|
  {
    if n == 0 then Some((f, heap))
    else
      match RunClosure(ops, calls, params, body, n - 1, f, heap)
      case None => None
      case Some((g, h)) =>
        match body[n - 1]
        case Call(dst, fn, args) =>
          var vs := Sir.Operands(g.vals, args);
          if vs.None? then None
          else
            (match calls(fn, vs.value, h)
             case None => None
             case Some((v, h')) => Some((Sir.SetVal(g, dst, v), h')))
        case i => Sir.Straight(ops, params, i, g, h)
  }

  /** A push names the variable that holds the array. */
  ghost predicate OwnersHold(ops: Sir.Ops, calls: Calls, params: seq<Symbol>, body: seq<Sir.Insn>, f: Sir.Frame,
                             heap: Heap) {
    forall k :: 0 <= k < |body| && body[k].ArrayPush? && body[k].owner.Some? ==>
      match RunClosure(ops, calls, params, body, k, f, heap)
      case None => true
      case Some((g, _)) => body[k].arr in g.vals ==>
        body[k].owner.value in g.locals && g.locals[body[k].owner.value] == g.vals[body[k].arr]
  }

  ghost predicate SameFrame(g: Sir.Frame, h: Heap, f: Frame) {
    && f.heap == h && f.state == g.locals
    && forall v :: v in g.vals ==> v in f.vals && f.vals[v] == g.vals[v]
  }

  lemma OperandsSame(g: Sir.Frame, h: Heap, f: Frame, ids: seq<ValueId>)
    requires SameFrame(g, h, f) && Sir.Operands(g.vals, ids).Some?
    ensures GetAll(f.vals, ids) == Sir.Operands(g.vals, ids).value
  {
    forall i | 0 <= i < |ids| ensures Get(f.vals, ids[i]) == g.vals[ids[i]] {
      assert ids[i] in g.vals;
    }
  }

  lemma StmtSame(ops: Sir.Ops, calls: Calls, params: seq<Symbol>, state: set<Symbol>, i: Sir.Insn, g: Sir.Frame,
                 h: Heap, f: Frame)
    requires SameFrame(g, h, f) && HandlerStmt(params, state, i).Some? && !i.Call?
    requires Sir.Straight(ops, params, i, g, h).Some?
    requires i.ArrayPush? && i.arr in g.vals ==> i.owner.value in g.locals && g.locals[i.owner.value] == g.vals[i.arr]
    ensures var next := Exec(ops, calls, HandlerStmt(params, state, i).value, f);
      var (g', h') := Sir.Straight(ops, params, i, g, h).value;
      next.Some? && SameFrame(g', h', next.value)
  {
  }

  /** A push is followed if and only if the variable it names holds the array. */
  lemma PushExact(ops: Sir.Ops, calls: Calls, params: seq<Symbol>, state: set<Symbol>, i: Sir.Insn, g: Sir.Frame,
                  h: Heap, f: Frame)
    requires SameFrame(g, h, f) && i.ArrayPush? && i.owner.Some? && Sir.Straight(ops, params, i, g, h).Some?
    ensures var next := Exec(ops, calls, HandlerStmt(params, state, i).value, f);
      var (g', h') := Sir.Straight(ops, params, i, g, h).value;
      next.Some? && SameFrame(g', h', next.value) <==> Get(g.locals, i.owner.value) == g.vals[i.arr]
  {
    var a, b := g.vals[i.arr].addr, Get(g.locals, i.owner.value);
    if b.Ref? && b.addr < |h| && b.addr != a {
      assert |h[a := h[a] + [g.vals[i.value]]][a]| == |h[a]| + 1;
    }
  }

  /** Statement by statement, the handler leaves the state and the heap as the closure would. */
  lemma {:induction false} HandlerFollows(ops: Sir.Ops, calls: Calls, params: seq<Symbol>, state: set<Symbol>,
                                          body: seq<Sir.Insn>,
                                          n: nat, g: Sir.Frame, h: Heap, f: Frame)
    requires n <= Extent(body) && HandlerOf(params, state, body).Some?
    requires SameFrame(g, h, f) && OwnersHold(ops, calls, params, body, g, h)
    requires RunClosure(ops, calls, params, body, n, g, h).Some?
    ensures var (g', h') := RunClosure(ops, calls, params, body, n, g, h).value;
      var end := Run(ops, calls, HandlerOf(params, state, body).value.body, n, f);
      end.Some? && SameFrame(g', h', end.value)
  {
    hide SameFrame, HandlerStmt, Exec, Sir.Straight, Extent, Dirty, Reads, PushAll;
    if n > 0 {
      HandlerFollows(ops, calls, params, state, body, n - 1, g, h, f);
      SkippedExactly(params, state, body, Extent(body));
      var (g', h') := RunClosure(ops, calls, params, body, n - 1, g, h).value;
      var f' := Run(ops, calls, HandlerOf(params, state, body).value.body, n - 1, f).value;
      var i := body[n - 1];
      if i.Call? {
        CallSame(ops, calls, params, state, i, g', h', f');
      } else {
        PushOwned(params, state, i);
        StmtSame(ops, calls, params, state, i, g', h', f');
      }
    }
  }

  lemma PushOwned(params: seq<Symbol>, state: set<Symbol>, i: Sir.Insn)
    requires HandlerStmt(params, state, i).Some?
    ensures i.ArrayPush? ==> i.owner.Some?
  {
  }

  lemma CallSame(ops: Sir.Ops, calls: Calls, params: seq<Symbol>, state: set<Symbol>, i: Sir.Insn, g: Sir.Frame,
                 h: Heap, f: Frame)
    requires SameFrame(g, h, f) && i.Call?
    ensures HandlerStmt(params, state, i).Some?
    ensures var vs := Sir.Operands(g.vals, i.args);
      vs.Some? && calls(i.name, vs.value, h).Some? ==>
        var (v, h') := calls(i.name, vs.value, h).value;
        var next := Exec(ops, calls, HandlerStmt(params, state, i).value, f);
        next.Some? && SameFrame(Sir.SetVal(g, i.dst, v), h', next.value)
  {
    if Sir.Operands(g.vals, i.args).Some? {
      OperandsSame(g, h, f, i.args);
    }
  }

  // --- Painting ------------------------------------------------------------

  /** How values are shown: as text, as an attribute, as the items of a list. */
  datatype View = View(text: (Val, Heap) -> Out, attr: (nat, Val, Heap) -> Out, items: (Val, Heap) -> Out)

  /** The emitted page: its graph, its computed closures, and the elements found in the document. */
  datatype Page = Page(graph: Graph, values: map<nat, Value>, present: set<nat>)

  datatype State = State(vars: map<Symbol, Val>, heap: Heap)

  datatype Key = Content(cmd: nat) | Attribute(cmd: nat, name: nat)

  type Dom = map<Key, Out>

  datatype Env = Env(ops: Sir.Ops, calls: Calls, view: View)

  function KeyOf(op: Op): Key {
    match op
    case Text(cmd) => Content(cmd)
    case AttrOf(cmd, name) => Attribute(cmd, name)
    case Computed(cmd) => Content(cmd)
    case List(cmd) => Content(cmd)
  }

  /** What a computed closure returns in state `s`. */
  function Compute(env: Env, value: Value, s: State): Val {
    match Run(env.ops, env.calls, value.body, |value.body|, Frame(map[], s.vars, s.heap))
    case None => Sir.Unit
    case Some(f) => Get(f.vals, value.result)
  }

  lemma ValueStmtSame(env: Env, captures: seq<Symbol>, state: set<Symbol>, i: Sir.Insn, g: Sir.Frame, h: Heap,
                      f: Frame)
    requires SameFrame(g, h, f) && ValueStmt(captures, state, i).Some?
    requires Sir.Straight(env.ops, captures, i, g, h).Some?
    ensures var next := Exec(env.ops, env.calls, ValueStmt(captures, state, i).value, f);
      var (g', h') := Sir.Straight(env.ops, captures, i, g, h).value;
      next.Some? && SameFrame(g', h', next.value) && g'.locals == g.locals && h' == h
  {
  }

  /** Statement by statement, a lowered computed closure does what its instructions do, its parameters
      being the captures and its locals the variables of the page, and leaves these and the heap alone. */
  lemma {:induction false} ValueFollows(env: Env, captures: seq<Symbol>, state: set<Symbol>, body: seq<Sir.Insn>,
                                        n: nat, g: Sir.Frame, h: Heap, f: Frame)
    requires n <= Extent(body) && ValueOf(captures, state, body).Some? && SameFrame(g, h, f)
    requires RunClosure(env.ops, env.calls, captures, body, n, g, h).Some?
    ensures var (g', h') := RunClosure(env.ops, env.calls, captures, body, n, g, h).value;
      var end := Run(env.ops, env.calls, ValueOf(captures, state, body).value.body, n, f);
      end.Some? && SameFrame(g', h', end.value) && g'.locals == g.locals && h' == h
  {
    hide SameFrame, ValueStmt, Exec, Sir.Straight, Extent;
    if n > 0 {
      ValueFollows(env, captures, state, body, n - 1, g, h, f);
      ValueStmts(captures, state, body, Extent(body));
      var (g', h') := RunClosure(env.ops, env.calls, captures, body, n - 1, g, h).value;
      var f' := Run(env.ops, env.calls, ValueOf(captures, state, body).value.body, n - 1, f).value;
      assert !body[n - 1].Call?;
      ValueStmtSame(env, captures, state, body[n - 1], g', h', f');
    }
  }

  /** What a computed slot shows is what its closure returns: if running the instructions up to the
      return gives a value without a fault, the emitted function computes that value. */
  lemma ComputeExact(env: Env, captures: seq<Symbol>, state: set<Symbol>, body: seq<Sir.Insn>, n: nat, fn: Symbol,
                     s: State)
    requires ValueOf(captures, state, body).Some?
    requires n < |body| && body[n].Return? && forall i :: 0 <= i < n ==> !body[i].Return?
    requires var end := RunClosure(env.ops, env.calls, captures, body, n, Sir.Frame(fn, 0, map[], s.vars), s.heap);
      end.Some? && (body[n].result.Some? ==> body[n].result.value in end.value.0.vals)
    ensures var end := RunClosure(env.ops, env.calls, captures, body, n, Sir.Frame(fn, 0, map[], s.vars), s.heap);
      && body[n].result.Some?
      && Compute(env, ValueOf(captures, state, body).value, s) == end.value.0.vals[body[n].result.value]
  {
    hide RunClosure, Run, ValueBody;
    ValueFollows(env, captures, state, body, n, Sir.Frame(fn, 0, map[], s.vars), s.heap, Frame(map[], s.vars, s.heap));
  }

  /** A handler looks at no variable but those the page is given for it. */
  lemma {:induction false} SeedSuffices(ops: Sir.Ops, calls: Calls, params: seq<Symbol>, state: set<Symbol>,
                                        body: seq<Sir.Insn>, n: nat, f: Frame, g: Frame)
    requires HandlerOf(params, state, body).Some? && n <= |HandlerOf(params, state, body).value.body|
    requires f.vals == g.vals && f.heap == g.heap
    requires forall s :: s in HandlerOf(params, state, body).value.seed ==> Get(f.state, s) == Get(g.state, s)
    ensures var h := HandlerOf(params, state, body).value;
      match (Run(ops, calls, h.body, n, f), Run(ops, calls, h.body, n, g))
      case (None, None) => true
      case (Some(f'), Some(g')) =>
        f'.vals == g'.vals && f'.heap == g'.heap && forall s :: s in h.seed ==> Get(f'.state, s) == Get(g'.state, s)
      case (_, _) => false
  {
    hide HandlerOf;
    if n > 0 {
      SeedSuffices(ops, calls, params, state, body, n - 1, f, g);
      SeedExact(params, state, body);
      var h := HandlerOf(params, state, body).value;
      assert h.body[n - 1].ReadState? ==> IsRead(h.body, h.body[n - 1].sym);
      assert Changed(h.body[n - 1]).Some? ==> Changed(h.body[n - 1]) == Some(Changed(h.body[n - 1]).value);
    }
  }

  /** The value a slot shows. */
  function Shown(env: Env, page: Page, v: Symbol, op: Op, s: State): Val {
    if op.Computed?
    then if op.cmd in page.values then Compute(env, page.values[op.cmd], s) else Sir.Unit
    else Get(s.vars, v)
  }

  function ShowAs(view: View, op: Op, v: Val, heap: Heap): Out {
    match op
    case AttrOf(_, name) => view.attr(name, v, heap)
    case List(_) => view.items(v, heap)
    case _ => view.text(v, heap)
  }

  function Show(env: Env, page: Page, v: Symbol, op: Op, s: State): Out {
    ShowAs(env.view, op, Shown(env, page, v, op, s), s.heap)
  }

  /** The first `n` operations of a variable; an element that is not there is passed over. */
  function Apply(env: Env, page: Page, v: Symbol, todo: seq<Op>, n: nat, s: State, dom: Dom): Dom
    requires n <= |todo|
  {
    if n == 0 then dom
    else
      var before := Apply(env, page, v, todo, n - 1, s, dom);
      var op := todo[n - 1];
      if op.cmd in page.present then before[KeyOf(op) := Show(env, page, v, op, s)] else before
  }

  function OpsOf(g: Graph, v: Symbol): seq<Op> {
    if g == [] then [] else if g[0].0 == v then g[0].1 else OpsOf(g[1..], v)
  }

  function Fire(env: Env, page: Page, v: Symbol, s: State, dom: Dom): Dom {
    var todo := OpsOf(page.graph, v);
    Apply(env, page, v, todo, |todo|, s, dom)
  }

  /** Fires `vs[0]`, `vs[1]`, ... */
  function FireAll(env: Env, page: Page, vs: seq<Symbol>, s: State, dom: Dom): Dom {
    if vs == [] then dom else Fire(env, page, vs[|vs| - 1], s, FireAll(env, page, vs[..|vs| - 1], s, dom))
  }

  function Keys(g: Graph): seq<Symbol> {
    seq(|g|, i requires 0 <= i < |g| => g[i].0)
  }

  /** What firing `v` writes where: dynamic attributes of `v` are set to its value, text and list slots
      driven by `v` show its value as text and as items, computed slots show what their closure
      computes, an element that is not there is passed over, and all else stays. Where several
      operations of `v` write one content, nothing is said of it. */
  ghost predicate Wrote(env: Env, page: Page, v: Symbol, s: State, dom: Dom, d: Dom) {
    AttributesWritten(env, page, v, s, dom, d) && ContentsWritten(env, page, v, s, dom, d)
  }

  ghost predicate AttributesWritten(env: Env, page: Page, v: Symbol, s: State, dom: Dom, d: Dom) {
    var value := if v in s.vars then s.vars[v] else Sir.Unit;
    forall cmd, name ::
      At(d, Attribute(cmd, name)) ==
        if cmd in page.present && Drives(page.graph, v, AttrOf(cmd, name)) then Some(env.view.attr(name, value, s.heap))
        else At(dom, Attribute(cmd, name))
  }

  ghost predicate ContentsWritten(env: Env, page: Page, v: Symbol, s: State, dom: Dom, d: Dom) {
    var g, value := page.graph, if v in s.vars then s.vars[v] else Sir.Unit;
    && (forall cmd :: cmd in page.present && OnlyContent(g, v, cmd, Text(cmd)) ==>
      At(d, Content(cmd)) == Some(env.view.text(value, s.heap)))
    && (forall cmd :: cmd in page.present && OnlyContent(g, v, cmd, List(cmd)) ==>
      At(d, Content(cmd)) == Some(env.view.items(value, s.heap)))
    && (forall cmd :: cmd in page.present && OnlyContent(g, v, cmd, Computed(cmd)) && cmd in page.values ==>
      At(d, Content(cmd)) == Some(env.view.text(Compute(env, page.values[cmd], s), s.heap)))
    && (forall cmd :: cmd !in page.present || NoContent(g, v, cmd) ==> At(d, Content(cmd)) == At(dom, Content(cmd)))
  }

  /** `v` drives `op`, and nothing else that fills the element `cmd`. */
  predicate OnlyContent(g: Graph, v: Symbol, cmd: nat, op: Op) {
    && Drives(g, v, op)
    && forall other :: other in [Text(cmd), Computed(cmd), List(cmd)] && Drives(g, v, other) ==> other == op
  }

  predicate NoContent(g: Graph, v: Symbol, cmd: nat) {
    !Drives(g, v, Text(cmd)) && !Drives(g, v, Computed(cmd)) && !Drives(g, v, List(cmd))
  }

  function At(d: Dom, k: Key): Option<Out> {
    if k in d then Some(d[k]) else None
  }

  /** If all operations that write `k` show `out`, `k` shows it; if none does, it stays. */
  lemma {:induction false} ApplyWrites(env: Env, page: Page, v: Symbol, todo: seq<Op>, n: nat, s: State, dom: Dom,
                                       k: Key, out: Out)
    requires n <= |todo|
    requires forall i :: 0 <= i < n && todo[i].cmd in page.present && KeyOf(todo[i]) == k ==>
      Show(env, page, v, todo[i], s) == out
    ensures var d := Apply(env, page, v, todo, n, s, dom);
      if exists i :: 0 <= i < n && todo[i].cmd in page.present && KeyOf(todo[i]) == k then At(d, k) == Some(out)
      else At(d, k) == At(dom, k)
  {
    hide Show, KeyOf;
    if n > 0 {
      ApplyWrites(env, page, v, todo, n - 1, s, dom, k, out);
    }
  }

  lemma ContentWritten(env: Env, page: Page, v: Symbol, cmd: nat, op: Op, s: State, dom: Dom)
    requires DistinctKeys(page.graph) && cmd in page.present && op in [Text(cmd), Computed(cmd), List(cmd)]
    requires OnlyContent(page.graph, v, cmd, op)
    ensures At(Fire(env, page, v, s, dom), Content(cmd)) == Some(Show(env, page, v, op, s))
  {
    var todo := OpsOf(page.graph, v);
    OpsOfDrives(page.graph, v);
    hide Drives, OpsOf, Apply, Show, DistinctKeys;
    var i :| 0 <= i < |todo| && todo[i] == op;
    forall k | 0 <= k < |todo| && KeyOf(todo[k]) == Content(cmd) ensures todo[k] == op {
      assert todo[k] in todo && todo[k] in [Text(cmd), Computed(cmd), List(cmd)];
    }
    ApplyWrites(env, page, v, todo, |todo|, s, dom, Content(cmd), Show(env, page, v, op, s));
  }

  lemma ContentKept(env: Env, page: Page, v: Symbol, cmd: nat, s: State, dom: Dom)
    requires DistinctKeys(page.graph) && (cmd !in page.present || NoContent(page.graph, v, cmd))
    ensures At(Fire(env, page, v, s, dom), Content(cmd)) == At(dom, Content(cmd))
  {
    var todo := OpsOf(page.graph, v);
    OpsOfDrives(page.graph, v);
    hide Drives, OpsOf, Apply, Show, DistinctKeys;
    forall k | 0 <= k < |todo| ensures !(todo[k].cmd in page.present && KeyOf(todo[k]) == Content(cmd)) {
      assert todo[k] in todo;
    }
    ApplyWrites(env, page, v, todo, |todo|, s, dom, Content(cmd), "");
  }

  lemma FireWrites(env: Env, page: Page, v: Symbol, s: State, dom: Dom)
    requires DistinctKeys(page.graph)
    ensures Wrote(env, page, v, s, dom, Fire(env, page, v, s, dom))
  {
    var todo, g := OpsOf(page.graph, v), page.graph;
    OpsOfDrives(page.graph, v);
    hide Drives, OpsOf, Apply, Compute, ContentsWritten;
    var d, value := Fire(env, page, v, s, dom), if v in s.vars then s.vars[v] else Sir.Unit;
    forall cmd, name
      ensures At(d, Attribute(cmd, name)) ==
        if cmd in page.present && Drives(g, v, AttrOf(cmd, name)) then Some(env.view.attr(name, value, s.heap))
        else At(dom, Attribute(cmd, name))
    {
      ApplyWrites(env, page, v, todo, |todo|, s, dom, Attribute(cmd, name), env.view.attr(name, value, s.heap));
      if cmd in page.present && AttrOf(cmd, name) in todo {
        var i :| 0 <= i < |todo| && todo[i] == AttrOf(cmd, name);
        assert KeyOf(todo[i]) == Attribute(cmd, name);
      }
    }
    ContentsWrites(env, page, v, s, dom);
  }

  lemma ContentsWrites(env: Env, page: Page, v: Symbol, s: State, dom: Dom)
    requires DistinctKeys(page.graph)
    ensures ContentsWritten(env, page, v, s, dom, Fire(env, page, v, s, dom))
  {
    hide OnlyContent, NoContent, DistinctKeys, Fire, Compute;
    forall cmd: nat, op |
      op in [Text(cmd), Computed(cmd), List(cmd)] && cmd in page.present && OnlyContent(page.graph, v, cmd, op)
      ensures At(Fire(env, page, v, s, dom), Content(cmd)) == Some(Show(env, page, v, op, s))
    {
      ContentWritten(env, page, v, cmd, op, s, dom);
    }
    forall cmd | cmd !in page.present || NoContent(page.graph, v, cmd)
      ensures At(Fire(env, page, v, s, dom), Content(cmd)) == At(dom, Content(cmd))
    {
      ContentKept(env, page, v, cmd, s, dom);
    }
  }

  /** The emitted `fire`. */
  method FireSlot(env: Env, page: Page, v: Symbol, s: State, dom: Dom) returns (d: Dom)
    ensures d == Fire(env, page, v, s, dom)
    ensures DistinctKeys(page.graph) ==> Wrote(env, page, v, s, dom, d)
  {
    if DistinctKeys(page.graph) {
      FireWrites(env, page, v, s, dom);
    }
    d := dom;
    var todo := OpsOf(page.graph, v);
    for i := 0 to |todo|
      invariant d == Apply(env, page, v, todo, i, s, dom)
    {
      if todo[i].cmd in page.present {
        d := d[KeyOf(todo[i]) := Show(env, page, v, todo[i], s)];
      }
    }
  }

  lemma {:induction false} OpsOfDrives(g: Graph, v: Symbol)
    requires DistinctKeys(g)
    ensures forall op :: op in OpsOf(g, v) <==> Drives(g, v, op)
  {
    if g != [] {
      OpsOfDrives(g[1..], v);
      forall op ensures op in OpsOf(g, v) <==> Drives(g, v, op) {
        DrivesSplit(g, v, op);
        forall i | 0 <= i < |g[1..]| ensures g[1..][i].0 != g[0].0 {
          assert g[1..][i] == g[i + 1];
        }
      }
    }
  }

  /** A slot has one binding: two operations on it are the same, and by the same variable unless the
      slot is computed. */
  ghost predicate OneBinding(g: Graph) {
    && DistinctKeys(g)
    && forall v, op, w, other :: Drives(g, v, op) && Drives(g, w, other) && KeyOf(op) == KeyOf(other) ==>
      op == other && (op.Computed? || v == w)
  }

  /** The slot of `op` is there and driven by a variable of `vs`. */
  ghost predicate Fired(page: Page, vs: set<Symbol>, v: Symbol, op: Op) {
    v in vs && op.cmd in page.present && Drives(page.graph, v, op)
  }

  /** From `dom`, exactly the slots driven by `vs` are repainted. */
  ghost predicate Repaints(env: Env, page: Page, vs: set<Symbol>, s: State, dom: Dom, d: Dom) {
    && (forall v, op :: Fired(page, vs, v, op) ==> KeyOf(op) in d && d[KeyOf(op)] == Show(env, page, v, op, s))
    && (forall k :: Untouched(page, vs, k) ==> (k in d <==> k in dom) && (k in dom ==> d[k] == dom[k]))
  }

  ghost predicate Untouched(page: Page, vs: set<Symbol>, k: Key) {
    forall v, op :: Fired(page, vs, v, op) ==> KeyOf(op) != k
  }

  /** Two operations on one slot show the same. */
  lemma ShowsAlike(env: Env, page: Page, v: Symbol, op: Op, w: Symbol, other: Op, s: State)
    requires OneBinding(page.graph) && Drives(page.graph, v, op) && Drives(page.graph, w, other)
    requires KeyOf(op) == KeyOf(other)
    ensures Show(env, page, v, op, s) == Show(env, page, w, other, s)
  {
    hide Compute, Drives;
  }

  lemma {:induction false} ApplyRepaints(env: Env, page: Page, v: Symbol, todo: seq<Op>, n: nat, s: State, dom: Dom,
                                         k: Key)
    requires OneBinding(page.graph) && n <= |todo|
    requires forall op :: op in todo ==> Drives(page.graph, v, op)
    ensures var d := Apply(env, page, v, todo, n, s, dom);
      && (forall i :: 0 <= i < n && todo[i].cmd in page.present && KeyOf(todo[i]) == k ==>
        k in d && d[k] == Show(env, page, v, todo[i], s))
      && ((forall i :: 0 <= i < n && todo[i].cmd in page.present ==> KeyOf(todo[i]) != k) ==>
        (k in d <==> k in dom) && (k in dom ==> d[k] == dom[k]))
  {
    hide OneBinding, Show, KeyOf, Drives;
    if n > 0 {
      ApplyRepaints(env, page, v, todo, n - 1, s, dom, k);
      var last := todo[n - 1];
      assert last in todo;
      if last.cmd in page.present && KeyOf(last) == k {
        forall i | 0 <= i < n && todo[i].cmd in page.present && KeyOf(todo[i]) == k
          ensures Show(env, page, v, todo[i], s) == Show(env, page, v, last, s)
        {
          assert todo[i] in todo;
          ShowsAlike(env, page, v, todo[i], v, last, s);
        }
      }
    }
  }

  lemma FireRepaints(env: Env, page: Page, v: Symbol, s: State, dom: Dom)
    requires OneBinding(page.graph)
    ensures Repaints(env, page, {v}, s, dom, Fire(env, page, v, s, dom))
  {
    var todo := OpsOf(page.graph, v);
    OpsOfDrives(page.graph, v);
    var d := Fire(env, page, v, s, dom);
    hide OneBinding, Show, KeyOf, Drives, OpsOf, Apply;
    forall w, op | Fired(page, {v}, w, op) ensures KeyOf(op) in d && d[KeyOf(op)] == Show(env, page, w, op, s) {
      ApplyRepaints(env, page, v, todo, |todo|, s, dom, KeyOf(op));
      var i :| 0 <= i < |todo| && todo[i] == op;
    }
    forall k | Untouched(page, {v}, k) ensures (k in d <==> k in dom) && (k in dom ==> d[k] == dom[k]) {
      ApplyRepaints(env, page, v, todo, |todo|, s, dom, k);
      forall i | 0 <= i < |todo| && todo[i].cmd in page.present ensures KeyOf(todo[i]) != k {
        assert todo[i] in todo;
        assert Fired(page, {v}, v, todo[i]);
      }
    }
  }

  function Set(vs: seq<Symbol>): set<Symbol> {
    set v | v in vs
  }

  /** Firing a list of variables repaints exactly the slots they drive. */
  lemma {:induction false} FireAllRepaints(env: Env, page: Page, vs: seq<Symbol>, s: State, dom: Dom)
    requires OneBinding(page.graph)
    ensures Repaints(env, page, Set(vs), s, dom, FireAll(env, page, vs, s, dom))
  {
    hide OneBinding, Fire;
    if vs == [] {
      assert FireAll(env, page, vs, s, dom) == dom;
    } else {
      var front, v := vs[..|vs| - 1], vs[|vs| - 1];
      FireAllRepaints(env, page, front, s, dom);
      var mid := FireAll(env, page, front, s, dom);
      FireRepaints(env, page, v, s, mid);
      assert Set(vs) == Set(front) + {v};
      RepaintsJoin(env, page, Set(front), v, s, dom, mid, Fire(env, page, v, s, mid));
    }
  }

  lemma RepaintsJoin(env: Env, page: Page, vs: set<Symbol>, v: Symbol, s: State, dom: Dom, mid: Dom, d: Dom)
    requires OneBinding(page.graph)
    requires Repaints(env, page, vs, s, dom, mid) && Repaints(env, page, {v}, s, mid, d)
    ensures Repaints(env, page, vs + {v}, s, dom, d)
  {
    hide OneBinding, Show, KeyOf;
    forall w, op | Fired(page, vs + {v}, w, op) ensures KeyOf(op) in d && d[KeyOf(op)] == Show(env, page, w, op, s) {
      if w == v {
        assert Fired(page, {v}, w, op);
      } else {
        assert Fired(page, vs, w, op);
        if other :| Fired(page, {v}, v, other) && KeyOf(other) == KeyOf(op) {
          ShowsAlike(env, page, v, other, w, op, s);
        } else {
          assert Untouched(page, {v}, KeyOf(op));
        }
      }
    }
    forall k | Untouched(page, vs + {v}, k) ensures (k in d <==> k in dom) && (k in dom ==> d[k] == dom[k]) {
      forall w, op | Fired(page, vs, w, op) ensures KeyOf(op) != k {
        assert Fired(page, vs + {v}, w, op);
      }
      forall w, op | Fired(page, {v}, w, op) ensures KeyOf(op) != k {
        assert Fired(page, vs + {v}, w, op);
      }
      assert Untouched(page, vs, k) && Untouched(page, {v}, k);
    }
  }

  // --- One event -----------------------------------------------------------

  /** Every slot that is there shows what a full repaint from `s` would show. */
  ghost predicate Painted(env: Env, page: Page, s: State, dom: Dom) {
    forall v, op :: Drives(page.graph, v, op) && op.cmd in page.present ==>
      KeyOf(op) in dom && dom[KeyOf(op)] == Show(env, page, v, op, s)
  }

  lemma KeysAreDrivers(g: Graph, v: Symbol, op: Op)
    requires Drives(g, v, op)
    ensures v in Set(Keys(g))
  {
    var i :| 0 <= i < |g| && g[i].0 == v && op in g[i].1;
    assert Keys(g)[i] == v;
  }

  /** The initial pass over all bindings paints every slot, whatever the document held. */
  lemma InitialPaint(env: Env, page: Page, s: State, dom: Dom)
    requires OneBinding(page.graph)
    ensures Painted(env, page, s, FireAll(env, page, Keys(page.graph), s, dom))
  {
    FireAllRepaints(env, page, Keys(page.graph), s, dom);
    hide OneBinding, Show, KeyOf, FireAll, Drives, Keys;
    forall v, op | Drives(page.graph, v, op) && op.cmd in page.present
      ensures Fired(page, Set(Keys(page.graph)), v, op)
    {
      KeysAreDrivers(page.graph, v, op);
    }
  }

  /** Some fired variable drives the slot. */
  ghost predicate Refreshed(page: Page, vs: set<Symbol>, k: Key) {
    exists v, op :: Fired(page, vs, v, op) && KeyOf(op) == k
  }

  /** Firing only `vs` after the state changed from `s` to `t` leaves the page fully painted exactly
      when no other slot shows anything else than before. */
  lemma FireExact(env: Env, page: Page, vs: seq<Symbol>, s: State, t: State, dom: Dom)
    requires OneBinding(page.graph) && Painted(env, page, s, dom)
    ensures Painted(env, page, t, FireAll(env, page, vs, t, dom)) <==>
      forall v, op :: Drives(page.graph, v, op) && op.cmd in page.present && !Refreshed(page, Set(vs), KeyOf(op)) ==>
        Show(env, page, v, op, t) == Show(env, page, v, op, s)
  {
    FireAllRepaints(env, page, vs, t, dom);
    var d := FireAll(env, page, vs, t, dom);
    hide OneBinding, Show, KeyOf, FireAll, Drives, Set;
    forall v, op | Drives(page.graph, v, op) && op.cmd in page.present
      ensures KeyOf(op) in d
      ensures d[KeyOf(op)] ==
        if Refreshed(page, Set(vs), KeyOf(op)) then Show(env, page, v, op, t) else Show(env, page, v, op, s)
    {
      if Refreshed(page, Set(vs), KeyOf(op)) {
        var w, other :| Fired(page, Set(vs), w, other) && KeyOf(other) == KeyOf(op);
        ShowsAlike(env, page, w, other, v, op, t);
      } else {
        assert Untouched(page, Set(vs), KeyOf(op));
      }
    }
  }

  /** On a painted page a second full repaint changes nothing: firing the written variables gives
      the very document that repainting everything gives. */
  lemma RepaintIdle(env: Env, page: Page, s: State, dom: Dom)
    requires OneBinding(page.graph) && Painted(env, page, s, dom)
    ensures FireAll(env, page, Keys(page.graph), s, dom) == dom
  {
    FireAllRepaints(env, page, Keys(page.graph), s, dom);
    var vs, d := Set(Keys(page.graph)), FireAll(env, page, Keys(page.graph), s, dom);
    hide OneBinding, Show, KeyOf, FireAll, Drives, Keys, Set;
    forall k ensures (k in d <==> k in dom) && (k in dom ==> d[k] == dom[k]) {
      if v, op :| Fired(page, vs, v, op) && KeyOf(op) == k {
        assert d[KeyOf(op)] == Show(env, page, v, op, s);
      } else {
        assert Untouched(page, vs, k);
      }
    }
  }

  // --- Sound pages ---------------------------------------------------------

  /** A computed closure reads nothing but its captures, each of which repaints it. */
  ghost predicate ReadsCaptures(page: Page) {
    forall cmd, i :: cmd in page.values && 0 <= i < |page.values[cmd].body| && page.values[cmd].body[i].ReadState? ==>
      Drives(page.graph, page.values[cmd].body[i].sym, Computed(cmd))
  }

  predicate Calculates(s: Stmt) {
    s.SetConst? || s.ReadState? || s.SetBin? || s.SetUn?
  }

  /** Computed closures only calculate. */
  ghost predicate PureValues(page: Page) {
    forall cmd, i :: cmd in page.values && 0 <= i < |page.values[cmd].body| ==> Calculates(page.values[cmd].body[i])
  }

  // --- From declared bindings to a sound page ------------------------------

  /** Computed closures load by name only what they capture. */
  ghost predicate LocalsCaptured(b: Bindings) {
    forall i, k :: 0 <= i < |b.computed| && 0 <= k < |b.computed[i].1.body| ==>
      match b.computed[i].1.body[k]
      case Load(_, Local(s)) => s in b.computed[i].1.captures
      case _ => true
  }

  lemma {:induction false} DeclaredAt(b: Bindings, state: set<Symbol>, n: nat, c: nat, v: Symbol)
    requires c < n <= |b.computed| && v in b.computed[c].1.captures
    requires ValueOf(b.computed[c].1.captures, state, b.computed[c].1.body).Some?
    ensures ComputedDeclared(b, state, n, v, Computed(b.computed[c].0))
  {
    hide ValueOf;
    if c < n - 1 {
      DeclaredAt(b, state, n - 1, c, v);
    }
  }

  /** The emitted page meets the conditions under which it stays painted. */
  lemma BuiltPage(b: Bindings, state: set<Symbol>, g: Graph, values: map<nat, Value>, present: set<nat>)
    requires LocalsCaptured(b) && GraphIs(g, b, state, |b.text|, |b.attrs|, |b.computed|, |b.lists|)
    requires forall cmd :: cmd in values ==> Lowered(b, state, |b.computed|, cmd, values[cmd])
    ensures ReadsCaptures(Page(g, values, present)) && PureValues(Page(g, values, present))
  {
    hide Drives, ComputedDeclared, TextDeclared, AttrDeclared, ListDeclared, ValueBody, DistinctKeys, Extent;
    forall cmd, i | cmd in values && 0 <= i < |values[cmd].body|
      ensures Calculates(values[cmd].body[i])
      ensures values[cmd].body[i].ReadState? ==> Drives(g, values[cmd].body[i].sym, Computed(cmd))
    {
      var c :| 0 <= c < |b.computed| && b.computed[c].0 == cmd &&
        ValueOf(b.computed[c].1.captures, state, b.computed[c].1.body) == Some(values[cmd]);
      var closure := b.computed[c].1;
      ValueStmts(closure.captures, state, closure.body, Extent(closure.body));
      var insn := closure.body[i];
      assert values[cmd].body[i].ReadState? ==> values[cmd].body[i].sym in closure.captures;
      if values[cmd].body[i].ReadState? {
        DeclaredAt(b, state, |b.computed|, c, values[cmd].body[i].sym);
      }
    }
  }
}
