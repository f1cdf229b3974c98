/** The reactive runtime of a page: event handlers transpiled to JavaScript that update a shared
    state, and a binding graph that repaints only the slots driven by what a handler wrote. */
module Reactive {
  import opened Wrappers
  import Sir

  type Symbol = Sir.Symbol
  type ValueId = Sir.ValueId
  type Val = Sir.Val
  type Heap = Sir.Heap

  /** What a slot shows. */
  type Out = string

  // --- Handlers ------------------------------------------------------------

  /** A JavaScript statement of a handler or computed closure. */
  datatype Stmt =
    | SetConst(dst: ValueId, literal: int)
    | ReadState(dst: ValueId, sym: Symbol)
    | SetBin(dst: ValueId, op: nat, lhs: ValueId, rhs: ValueId)
    | SetUn(dst: ValueId, op: nat, rhs: ValueId)
    | WriteState(sym: Symbol, value: ValueId)
    | PushState(sym: Symbol, value: ValueId)
    | CallFn(dst: ValueId, fn: Symbol, args: seq<ValueId>)

  /** `dirty` is fired after the body; `seed` is what the state object must hold. */
  datatype Handler = Handler(body: seq<Stmt>, dirty: seq<Symbol>, seed: seq<Symbol>)

  /** A computed closure's body and the value it returns. */
  datatype Value = Value(body: seq<Stmt>, result: ValueId)

  /** One instruction of a handler; None for one this backend does not lower. */
  function HandlerStmt(params: seq<Symbol>, state: set<Symbol>, i: Sir.Insn): Option<Stmt> {
    match i
    case Const(dst, c) => Some(SetConst(dst, c))
    case Load(dst, Local(s)) => if s in state then Some(ReadState(dst, s)) else None
    case Load(dst, Param(k)) =>
      if k < |params| && params[k] in state then Some(ReadState(dst, params[k])) else None
    case BinOp(dst, op, a, b) => Some(SetBin(dst, op, a, b))
    case UnOp(dst, op, a) => Some(SetUn(dst, op, a))
    case Store(name, v) => if name in state then Some(WriteState(name, v)) else None
    case ArrayPush(_, v, owner) => if owner.Some? then Some(PushState(owner.value, v)) else None
    case Call(dst, fn, args) => Some(CallFn(dst, fn, args))
    case _ => None
  }

  /** The part of a closure's instructions before its return. */
  function Extent(body: seq<Sir.Insn>): (n: nat)
    ensures n <= |body| && (n < |body| ==> body[n].Return?) && forall i :: 0 <= i < n ==> !body[i].Return?
  {
    if body == [] || body[0].Return? then 0 else 1 + Extent(body[1..])
  }

  /** The first `n` instructions as statements. */
  function HandlerBody(params: seq<Symbol>, state: set<Symbol>, body: seq<Sir.Insn>, n: nat): (r: Option<seq<Stmt>>)
    requires n <= |body|
    ensures r.Some? ==> |r.value| == n
  {
    if n == 0 then Some([])
    else
      match HandlerBody(params, state, body, n - 1)
      case None => None
      case Some(front) =>
        match HandlerStmt(params, state, body[n - 1])
        case None => None
        case Some(stmt) => Some(front + [stmt])
  }

  function PushUnique(vars: seq<Symbol>, s: Symbol): seq<Symbol> {
    if s in vars then vars else vars + [s]
  }

  function PushAll(vars: seq<Symbol>, more: seq<Symbol>): seq<Symbol> {
    if more == [] then vars else PushUnique(PushAll(vars, more[..|more| - 1]), more[|more| - 1])
  }

  /** The state a statement changes. */
  function Changed(s: Stmt): Option<Symbol> {
    match s
    case WriteState(sym, _) => Some(sym)
    case PushState(sym, _) => Some(sym)
    case _ => None
  }

  function Dirty(body: seq<Stmt>): seq<Symbol> {
    if body == [] then []
    else
      var front := Dirty(body[..|body| - 1]);
      match Changed(body[|body| - 1])
      case None => front
      case Some(s) => PushUnique(front, s)
  }

  function Reads(body: seq<Stmt>): seq<Symbol> {
    if body == [] then []
    else
      var front := Reads(body[..|body| - 1]);
      if body[|body| - 1].ReadState? then PushUnique(front, body[|body| - 1].sym) else front
  }

  function HandlerOf(params: seq<Symbol>, state: set<Symbol>, body: seq<Sir.Insn>): Option<Handler> {
    match HandlerBody(params, state, body, Extent(body))
    case None => None
    case Some(stmts) => Some(Handler(stmts, Dirty(stmts), PushAll(Dirty(stmts), Reads(stmts))))
  }

  method TranspileHandler(params: seq<Symbol>, state: set<Symbol>, body: seq<Sir.Insn>) returns (r: Option<Handler>)
    ensures r == HandlerOf(params, state, body)
  {
    var js: seq<Stmt> := [];
    var dirty: seq<Symbol> := [];
    var read: seq<Symbol> := [];
    var i := 0;
    while i < |body| && !body[i].Return?
      invariant i <= Extent(body)
      invariant HandlerBody(params, state, body, i) == Some(js)
      invariant dirty == Dirty(js) && read == Reads(js)
    {
      var stmt := HandlerStmt(params, state, body[i]);
      if stmt.None? {
        HandlerRefused(params, state, body, i + 1);
        return None;
      }
      assert (js + [stmt.value])[..i] == js;
      js := js + [stmt.value];
      if Changed(stmt.value).Some? {
        dirty := PushUnique(dirty, Changed(stmt.value).value);
      }
      if stmt.value.ReadState? {
        read := PushUnique(read, stmt.value.sym);
      }
      i := i + 1;
    }
    var seed := dirty;
    for k := 0 to |read|
      invariant seed == PushAll(dirty, read[..k])
    {
      assert read[..k + 1][..k] == read[..k];
      seed := PushUnique(seed, read[k]);
    }
    assert read[..|read|] == read;
    r := Some(Handler(js, dirty, seed));
  }

  lemma HandlerRefused(params: seq<Symbol>, state: set<Symbol>, body: seq<Sir.Insn>, n: nat)
    requires n <= Extent(body) && HandlerBody(params, state, body, n).None?
    ensures HandlerBody(params, state, body, Extent(body)).None?
    decreases Extent(body) - n
  {
    if n < Extent(body) {
      HandlerRefused(params, state, body, n + 1);
    }
  }

  /** A handler is skipped exactly when some instruction before its return is not lowered. */
  lemma {:induction false} SkippedExactly(params: seq<Symbol>, state: set<Symbol>, body: seq<Sir.Insn>, n: nat)
    requires n <= |body|
    ensures HandlerBody(params, state, body, n).None? <==>
      exists i :: 0 <= i < n && HandlerStmt(params, state, body[i]).None?
    ensures HandlerBody(params, state, body, n).Some? ==>
      forall i :: 0 <= i < n ==>
        HandlerStmt(params, state, body[i]) == Some(HandlerBody(params, state, body, n).value[i])
  {
    if n > 0 {
      SkippedExactly(params, state, body, n - 1);
    }
  }

  /** The instructions a handler may use: constants, operators, calls, loads and stores of the page's
      variables, by name or by parameter, and pushes to a named array. */
  predicate Handles(params: seq<Symbol>, state: set<Symbol>, i: Sir.Insn) {
    || i.Const? || i.BinOp? || i.UnOp? || i.Call?
    || (i.Load? && i.src.Local? && i.src.sym in state)
    || (i.Load? && i.src.Param? && i.src.index < |params| && params[i.src.index] in state)
    || (i.Store? && i.name in state)
    || (i.ArrayPush? && i.owner.Some?)
  }

  /** A handler is emitted exactly when it uses only such instructions up to its return. */
  lemma HandledExactly(params: seq<Symbol>, state: set<Symbol>, body: seq<Sir.Insn>)
    ensures HandlerOf(params, state, body).Some? <==>
      forall i :: 0 <= i < |body| && (forall j :: 0 <= j <= i ==> !body[j].Return?) ==> Handles(params, state, body[i])
  {
    SkippedExactly(params, state, body, Extent(body));
    hide HandlerBody, Handles, HandlerStmt, Dirty, Reads, PushAll;
    forall i: Sir.Insn ensures HandlerStmt(params, state, i).Some? <==> Handles(params, state, i) {
      HandlesStmt(params, state, i);
    }
    if n :| 0 <= n < |body| && (forall j :: 0 <= j <= n ==> !body[j].Return?) && !Handles(params, state, body[n]) {
      assert n < Extent(body);
    }
  }

  lemma HandlesStmt(params: seq<Symbol>, state: set<Symbol>, i: Sir.Insn)
    ensures HandlerStmt(params, state, i).Some? <==> Handles(params, state, i)
  {
  }

  lemma {:induction false} ReadsExact(body: seq<Stmt>)
    ensures forall s :: s in Reads(body) <==> IsRead(body, s)
    ensures Sir.Distinct(Reads(body))
  {
    if body != [] {
      var front := body[..|body| - 1];
      ReadsExact(front);
      forall s ensures s in Reads(body) <==> IsRead(body, s) {
        if IsRead(front, s) {
          var i :| 0 <= i < |front| && front[i].ReadState? && front[i].sym == s;
          assert body[i].ReadState?;
        }
      }
    }
  }

  /** Some statement reads the variable `s`. */
  predicate IsRead(body: seq<Stmt>, s: Symbol) {
    exists i :: 0 <= i < |body| && body[i].ReadState? && body[i].sym == s
  }

  lemma {:induction false} PushAllExact(vars: seq<Symbol>, more: seq<Symbol>)
    requires Sir.Distinct(vars)
    ensures forall s :: s in PushAll(vars, more) <==> s in vars || s in more
    ensures Sir.Distinct(PushAll(vars, more)) && vars <= PushAll(vars, more)
  {
    if more != [] {
      PushAllExact(vars, more[..|more| - 1]);
    }
  }

  /** The page is given exactly the variables a handler changes or reads, each once, the changed ones
      first. */
  lemma SeedExact(params: seq<Symbol>, state: set<Symbol>, body: seq<Sir.Insn>)
    requires HandlerOf(params, state, body).Some?
    ensures var h := HandlerOf(params, state, body).value;
      && h.dirty <= h.seed && Sir.Distinct(h.seed)
      && forall s :: s in h.seed <==>
        IsRead(h.body, s) || exists i :: 0 <= i < |h.body| && Changed(h.body[i]) == Some(s)
  {
    hide Dirty, Reads, PushAll, Sir.Distinct, IsRead, Changed;
    var h := HandlerOf(params, state, body).value;
    DirtyExact(h.body);
    ReadsExact(h.body);
    PushAllExact(h.dirty, Reads(h.body));
  }

  /** `dirty` is what the body changes, each once. */
  lemma {:induction false} DirtyExact(body: seq<Stmt>)
    ensures forall s :: s in Dirty(body) <==> exists i :: 0 <= i < |body| && Changed(body[i]) == Some(s)
    ensures Sir.Distinct(Dirty(body))
  {
    if body != [] {
      var front := body[..|body| - 1];
      DirtyExact(front);
      forall s ensures s in Dirty(body) <==> exists i :: 0 <= i < |body| && Changed(body[i]) == Some(s) {
        if Changed(body[|body| - 1]) == Some(s) {
          assert s in Dirty(body);
        }
        if i :| 0 <= i < |front| && Changed(front[i]) == Some(s) {
          assert Changed(body[i]) == Some(s);
        }
      }
    }
  }

  // --- Computed closures ---------------------------------------------------

  function ValueStmt(captures: seq<Symbol>, state: set<Symbol>, i: Sir.Insn): Option<Stmt> {
    match i
    case Const(dst, c) => Some(SetConst(dst, c))
    case Load(dst, Param(k)) => if k < |captures| then Some(ReadState(dst, captures[k])) else None
    case Load(dst, Local(s)) => if s in state then Some(ReadState(dst, s)) else None
    case BinOp(dst, op, a, b) => Some(SetBin(dst, op, a, b))
    case UnOp(dst, op, a) => Some(SetUn(dst, op, a))
    case _ => None
  }

  function ValueBody(captures: seq<Symbol>, state: set<Symbol>, body: seq<Sir.Insn>, n: nat): (r: Option<seq<Stmt>>)
    requires n <= |body|
    ensures r.Some? ==> |r.value| == n
  {
    if n == 0 then Some([])
    else
      match ValueBody(captures, state, body, n - 1)
      case None => None
      case Some(front) =>
        match ValueStmt(captures, state, body[n - 1])
        case None => None
        case Some(stmt) => Some(front + [stmt])
  }

  /** None unless the closure runs straight to a return of a value. */
  function ValueOf(captures: seq<Symbol>, state: set<Symbol>, body: seq<Sir.Insn>): Option<Value> {
    var n := Extent(body);
    match ValueBody(captures, state, body, n)
    case None => None
    case Some(stmts) =>
      if n < |body| && body[n].result.Some? then Some(Value(stmts, body[n].result.value)) else None
  }

  /** The instructions a computed closure may use. */
  predicate Computes(captures: seq<Symbol>, state: set<Symbol>, i: Sir.Insn) {
    || i.Const? || i.BinOp? || i.UnOp?
    || (i.Load? && i.src.Local? && i.src.sym in state)
    || (i.Load? && i.src.Param? && i.src.index < |captures|)
  }

  lemma {:induction false} ValueStmts(captures: seq<Symbol>, state: set<Symbol>, body: seq<Sir.Insn>, n: nat)
    requires n <= |body|
    ensures ValueBody(captures, state, body, n).Some? <==> forall i :: 0 <= i < n ==> Computes(captures, state, body[i])
    ensures ValueBody(captures, state, body, n).Some? ==>
      forall i :: 0 <= i < n ==>
        ValueStmt(captures, state, body[i]) == Some(ValueBody(captures, state, body, n).value[i])
  {
    if n > 0 {
      ValueStmts(captures, state, body, n - 1);
    }
  }

  /** A computed slot is emitted exactly when its closure calculates from captures and variables of the
      page up to the return of a value. */
  lemma ComputedExactly(captures: seq<Symbol>, state: set<Symbol>, body: seq<Sir.Insn>)
    ensures ValueOf(captures, state, body).Some? <==>
      exists n :: 0 <= n < |body| && body[n].Return? && body[n].result.Some? &&
        forall i :: 0 <= i < n ==> Computes(captures, state, body[i])
  {
    ValueStmts(captures, state, body, Extent(body));
    if n :| 0 <= n < |body| && body[n].Return? && forall i :: 0 <= i < n ==> Computes(captures, state, body[i]) {
      assert forall i :: 0 <= i < n ==> !body[i].Return?;
      assert n == Extent(body);
    }
  }

  method TranspileValue(captures: seq<Symbol>, state: set<Symbol>, body: seq<Sir.Insn>) returns (r: Option<Value>)
    ensures r == ValueOf(captures, state, body)
  {
    var js: seq<Stmt> := [];
    for i := 0 to |body|
      invariant i <= Extent(body) && ValueBody(captures, state, body, i) == Some(js)
    {
      if body[i].Return? {
        return if body[i].result.Some? then Some(Value(js, body[i].result.value)) else None;
      }
      var stmt := ValueStmt(captures, state, body[i]);
      if stmt.None? {
        ValueRefused(captures, state, body, i + 1);
        return None;
      }
      js := js + [stmt.value];
    }
    r := None;
  }

  lemma ValueRefused(captures: seq<Symbol>, state: set<Symbol>, body: seq<Sir.Insn>, n: nat)
    requires n <= Extent(body) && ValueBody(captures, state, body, n).None?
    ensures ValueBody(captures, state, body, Extent(body)).None?
    decreases Extent(body) - n
  {
    if n < Extent(body) {
      ValueRefused(captures, state, body, n + 1);
    }
  }

  // --- The binding graph ---------------------------------------------------

  datatype Op = Text(cmd: nat) | AttrOf(cmd: nat, name: nat) | Computed(cmd: nat) | List(cmd: nat)

  datatype Closure = Closure(captures: seq<Symbol>, body: seq<Sir.Insn>)

  /** The template's bindings; only dynamic attributes are listed. */
  datatype Bindings = Bindings(
    text: seq<(nat, Symbol)>,
    attrs: seq<(nat, nat, Symbol)>,
    computed: seq<(nat, Closure)>,
    lists: seq<(nat, Symbol)>)

  type Graph = seq<(Symbol, seq<Op>)>

  function AddOp(g: Graph, v: Symbol, op: Op): Graph {
    if g == [] then [(v, [op])]
    else if g[0].0 == v then [(v, g[0].1 + [op])] + g[1..]
    else [g[0]] + AddOp(g[1..], v, op)
  }

  /** A write to `v` repaints with `op`. */
  predicate Drives(g: Graph, v: Symbol, op: Op) {
    exists i :: 0 <= i < |g| && g[i].0 == v && op in g[i].1
  }

  predicate DistinctKeys(g: Graph) {
    forall i, j :: 0 <= i < j < |g| ==> g[i].0 != g[j].0
  }

  lemma {:induction false} AddOpDrives(g: Graph, v: Symbol, op: Op)
    ensures forall w, o :: Drives(AddOp(g, v, op), w, o) <==> Drives(g, w, o) || (w == v && o == op)
    ensures forall i :: 0 <= i < |AddOp(g, v, op)| ==>
      AddOp(g, v, op)[i].0 == v || exists j :: 0 <= j < |g| && g[j].0 == AddOp(g, v, op)[i].0
  {
    var h := AddOp(g, v, op);
    if g == [] {
      assert h[0] == (v, [op]);
    } else if g[0].0 == v {
      assert h[0] == (v, g[0].1 + [op]) && h[1..] == g[1..];
      forall w, o ensures Drives(h, w, o) <==> Drives(g, w, o) || (w == v && o == op) {
        DrivesSplit(h, w, o);
        DrivesSplit(g, w, o);
      }
    } else {
      AddOpDrives(g[1..], v, op);
      assert h[0] == g[0] && h[1..] == AddOp(g[1..], v, op);
      forall w, o ensures Drives(h, w, o) <==> Drives(g, w, o) || (w == v && o == op) {
        DrivesSplit(h, w, o);
        DrivesSplit(g, w, o);
      }
      forall i | 0 <= i < |h| ensures h[i].0 == v || exists j :: 0 <= j < |g| && g[j].0 == h[i].0 {
        if i > 0 {
          assert h[i] == h[1..][i - 1];
          if h[i].0 != v {
            var j :| 0 <= j < |g[1..]| && g[1..][j].0 == h[i].0;
            assert g[j + 1].0 == h[i].0;
          }
        }
      }
    }
  }

  lemma DrivesSplit(g: Graph, w: Symbol, o: Op)
    requires g != []
    ensures Drives(g, w, o) <==> (g[0].0 == w && o in g[0].1) || Drives(g[1..], w, o)
  {
    if Drives(g[1..], w, o) {
      var i :| 0 <= i < |g[1..]| && g[1..][i].0 == w && o in g[1..][i].1;
      assert g[i + 1].0 == w && o in g[i + 1].1;
    }
    if i :| 0 <= i < |g| && g[i].0 == w && o in g[i].1 {
      if i > 0 {
        assert g[1..][i - 1] == g[i];
      }
    }
  }

  lemma {:induction false} AddOpDistinct(g: Graph, v: Symbol, op: Op)
    requires DistinctKeys(g)
    ensures DistinctKeys(AddOp(g, v, op))
  {
    if g != [] && g[0].0 != v {
      AddOpDistinct(g[1..], v, op);
      AddOpDrives(g[1..], v, op);
      var h := AddOp(g, v, op);
      forall i, j | 0 <= i < j < |h| ensures h[i].0 != h[j].0 {
        assert h[j] == AddOp(g[1..], v, op)[j - 1];
        if i > 0 {
          assert h[i] == AddOp(g[1..], v, op)[i - 1];
        }
      }
    }
  }

  // --- What the page declares ----------------------------------------------

  predicate TextDeclared(b: Bindings, n: nat, v: Symbol, op: Op)
    requires n <= |b.text|
  {
    n > 0 && ((b.text[n - 1].1 == v && op == Text(b.text[n - 1].0)) || TextDeclared(b, n - 1, v, op))
  }

  predicate AttrDeclared(b: Bindings, n: nat, v: Symbol, op: Op)
    requires n <= |b.attrs|
  {
    n > 0 && ((b.attrs[n - 1].2 == v && op == AttrOf(b.attrs[n - 1].0, b.attrs[n - 1].1)) || AttrDeclared(b, n - 1, v,
      op))
  }

  /** A computed slot that was lowered is repainted for each of its captures. */
  predicate ComputedDeclared(b: Bindings, state: set<Symbol>, n: nat, v: Symbol, op: Op)
    requires n <= |b.computed|
  {
    n > 0 &&
    ((v in b.computed[n - 1].1.captures && op == Computed(b.computed[n - 1].0)
      && ValueOf(b.computed[n - 1].1.captures, state, b.computed[n - 1].1.body).Some?)
     || ComputedDeclared(b, state, n - 1, v, op))
  }

  predicate ListDeclared(b: Bindings, n: nat, v: Symbol, op: Op)
    requires n <= |b.lists|
  {
    n > 0 && ((b.lists[n - 1].1 == v && op == List(b.lists[n - 1].0)) || ListDeclared(b, n - 1, v, op))
  }

  ghost predicate GraphIs(g: Graph, b: Bindings, state: set<Symbol>, nt: nat, na: nat, nc: nat, nl: nat)
    requires nt <= |b.text| && na <= |b.attrs| && nc <= |b.computed| && nl <= |b.lists|
  {
    && DistinctKeys(g)
    && forall v, op :: Drives(g, v, op) <==>
      TextDeclared(b, nt, v, op) || AttrDeclared(b, na, v, op)
      || ComputedDeclared(b, state, nc, v, op) || ListDeclared(b, nl, v, op)
  }

  lemma TextNext(b: Bindings, n: nat, v: Symbol, op: Op)
    requires n < |b.text|
    ensures TextDeclared(b, n + 1, v, op) <==>
      TextDeclared(b, n, v, op) || (v == b.text[n].1 && op == Text(b.text[n].0))
  {
  }

  lemma AttrNext(b: Bindings, n: nat, v: Symbol, op: Op)
    requires n < |b.attrs|
    ensures AttrDeclared(b, n + 1, v, op) <==>
      AttrDeclared(b, n, v, op) || (v == b.attrs[n].2 && op == AttrOf(b.attrs[n].0, b.attrs[n].1))
  {
  }

  lemma ComputedNext(b: Bindings, state: set<Symbol>, n: nat, v: Symbol, op: Op)
    requires n < |b.computed|
    ensures ComputedDeclared(b, state, n + 1, v, op) <==>
      ComputedDeclared(b, state, n, v, op)
      || (v in b.computed[n].1.captures && op == Computed(b.computed[n].0)
          && ValueOf(b.computed[n].1.captures, state, b.computed[n].1.body).Some?)
  {
    hide ValueOf;
  }

  lemma ListNext(b: Bindings, n: nat, v: Symbol, op: Op)
    requires n < |b.lists|
    ensures ListDeclared(b, n + 1, v, op) <==>
      ListDeclared(b, n, v, op) || (v == b.lists[n].1 && op == List(b.lists[n].0))
  {
  }

  lemma TextAdded(g: Graph, b: Bindings, state: set<Symbol>, n: nat)
    requires n < |b.text| && GraphIs(g, b, state, n, 0, 0, 0)
    ensures GraphIs(AddOp(g, b.text[n].1, Text(b.text[n].0)), b, state, n + 1, 0, 0, 0)
  {
    hide Drives, DistinctKeys, AddOp, TextDeclared, AttrDeclared, ComputedDeclared, ListDeclared;
    AddOpIs(g, b.text[n].1, Text(b.text[n].0));
    var h := AddOp(g, b.text[n].1, Text(b.text[n].0));
    forall v: Symbol, op: Op ensures Drives(h, v, op) <==>
      TextDeclared(b, n + 1, v, op) || AttrDeclared(b, 0, v, op)
      || ComputedDeclared(b, state, 0, v, op) || ListDeclared(b, 0, v, op)
    {
      TextNext(b, n, v, op);
    }
  }

  lemma AttrAdded(g: Graph, b: Bindings, state: set<Symbol>, nt: nat, n: nat)
    requires nt <= |b.text| && n < |b.attrs| && GraphIs(g, b, state, nt, n, 0, 0)
    ensures GraphIs(AddOp(g, b.attrs[n].2, AttrOf(b.attrs[n].0, b.attrs[n].1)), b, state, nt, n + 1, 0, 0)
  {
    hide Drives, DistinctKeys, AddOp, TextDeclared, AttrDeclared, ComputedDeclared, ListDeclared;
    AddOpIs(g, b.attrs[n].2, AttrOf(b.attrs[n].0, b.attrs[n].1));
    var h := AddOp(g, b.attrs[n].2, AttrOf(b.attrs[n].0, b.attrs[n].1));
    forall v: Symbol, op: Op ensures Drives(h, v, op) <==>
      TextDeclared(b, nt, v, op) || AttrDeclared(b, n + 1, v, op)
      || ComputedDeclared(b, state, 0, v, op) || ListDeclared(b, 0, v, op)
    {
      AttrNext(b, n, v, op);
    }
  }

  predicate Lowerable(b: Bindings, state: set<Symbol>, n: nat)
    requires n < |b.computed|
  {
    ValueOf(b.computed[n].1.captures, state, b.computed[n].1.body).Some?
  }

  lemma GraphKeys(g: Graph, b: Bindings, state: set<Symbol>, nt: nat, na: nat, nc: nat, nl: nat)
    requires nt <= |b.text| && na <= |b.attrs| && nc <= |b.computed| && nl <= |b.lists|
    requires GraphIs(g, b, state, nt, na, nc, nl)
    ensures DistinctKeys(g)
  {
  }

  /** A lowered computed slot adds its captures, a skipped one nothing. */
  lemma ComputedAdded(g: Graph, h: Graph, b: Bindings, state: set<Symbol>, nt: nat, na: nat, n: nat)
    requires nt <= |b.text| && na <= |b.attrs| && n < |b.computed| && GraphIs(g, b, state, nt, na, n, 0)
    requires DistinctKeys(h)
    requires forall v: Symbol, op: Op :: Drives(h, v, op) <==>
      Drives(g, v, op) || (Lowerable(b, state, n) && v in b.computed[n].1.captures && op == Computed(b.computed[n].0))
    ensures GraphIs(h, b, state, nt, na, n + 1, 0)
  {
    hide Drives, DistinctKeys, TextDeclared, AttrDeclared, ComputedDeclared, ListDeclared, ValueOf;
    forall v: Symbol, op: Op ensures Drives(h, v, op) <==>
      TextDeclared(b, nt, v, op) || AttrDeclared(b, na, v, op)
      || ComputedDeclared(b, state, n + 1, v, op) || ListDeclared(b, 0, v, op)
    {
      ComputedNext(b, state, n, v, op);
    }
  }

  lemma ListAdded(g: Graph, b: Bindings, state: set<Symbol>, nt: nat, na: nat, nc: nat, n: nat)
    requires nt <= |b.text| && na <= |b.attrs| && nc <= |b.computed| && n < |b.lists|
    requires GraphIs(g, b, state, nt, na, nc, n)
    ensures GraphIs(AddOp(g, b.lists[n].1, List(b.lists[n].0)), b, state, nt, na, nc, n + 1)
  {
    hide Drives, DistinctKeys, AddOp, TextDeclared, AttrDeclared, ComputedDeclared, ListDeclared;
    AddOpIs(g, b.lists[n].1, List(b.lists[n].0));
    var h := AddOp(g, b.lists[n].1, List(b.lists[n].0));
    forall v: Symbol, op: Op ensures Drives(h, v, op) <==>
      TextDeclared(b, nt, v, op) || AttrDeclared(b, na, v, op)
      || ComputedDeclared(b, state, nc, v, op) || ListDeclared(b, n + 1, v, op)
    {
      ListNext(b, n, v, op);
    }
  }

  lemma AddOpIs(g: Graph, v: Symbol, op: Op)
    requires DistinctKeys(g)
    ensures DistinctKeys(AddOp(g, v, op))
    ensures forall w, o :: Drives(AddOp(g, v, op), w, o) <==> Drives(g, w, o) || (w == v && o == op)
  {
    AddOpDrives(g, v, op);
    AddOpDistinct(g, v, op);
  }

  /** `value` is the lowering of one of the first `n` computed closures, the one of slot `cmd`. */
  predicate Lowered(b: Bindings, state: set<Symbol>, n: nat, cmd: nat, value: Value)
    requires n <= |b.computed|
  {
    exists i :: 0 <= i < n && b.computed[i].0 == cmd &&
      ValueOf(b.computed[i].1.captures, state, b.computed[i].1.body) == Some(value)
  }

  /** The binding graph holds exactly the declared bindings, one entry per variable. */
  method BuildGraph(b: Bindings, state: set<Symbol>) returns (g: Graph, values: map<nat, Value>)
    ensures GraphIs(g, b, state, |b.text|, |b.attrs|, |b.computed|, |b.lists|)
    ensures forall i :: 0 <= i < |b.computed| ==>
      (ValueOf(b.computed[i].1.captures, state, b.computed[i].1.body).Some? ==> b.computed[i].0 in values)
    ensures forall cmd :: cmd in values ==> Lowered(b, state, |b.computed|, cmd, values[cmd])
  {
    hide Drives, AddOp, GraphIs, ValueOf;
    g, values := [], map[];
    NothingDeclared(b, state);
    for i := 0 to |b.text|
      invariant GraphIs(g, b, state, i, 0, 0, 0)
    {
      TextAdded(g, b, state, i);
      g := AddOp(g, b.text[i].1, Text(b.text[i].0));
    }
    for i := 0 to |b.attrs|
      invariant GraphIs(g, b, state, |b.text|, i, 0, 0)
    {
      AttrAdded(g, b, state, |b.text|, i);
      g := AddOp(g, b.attrs[i].2, AttrOf(b.attrs[i].0, b.attrs[i].1));
    }
    for i := 0 to |b.computed|
      invariant GraphIs(g, b, state, |b.text|, |b.attrs|, i, 0)
      invariant forall k :: 0 <= k < i ==>
        (ValueOf(b.computed[k].1.captures, state, b.computed[k].1.body).Some? ==> b.computed[k].0 in values)
      invariant forall cmd :: cmd in values ==> Lowered(b, state, i, cmd, values[cmd])
    {
      var (cmd, closure) := b.computed[i];
      ghost var before := g;
      GraphKeys(g, b, state, |b.text|, |b.attrs|, i, 0);
      var value := TranspileValue(closure.captures, state, closure.body);
      if value.Some? {
        g := AddCaptures(g, closure.captures, cmd);
        values := values[cmd := value.value];
      }
      ComputedAdded(before, g, b, state, |b.text|, |b.attrs|, i);
    }
    for i := 0 to |b.lists|
      invariant GraphIs(g, b, state, |b.text|, |b.attrs|, |b.computed|, i)
    {
      ListAdded(g, b, state, |b.text|, |b.attrs|, |b.computed|, i);
      g := AddOp(g, b.lists[i].1, List(b.lists[i].0));
    }
  }

  /** What the page declares, read off its bindings. */
  lemma {:induction false} TextIs(b: Bindings, n: nat, v: Symbol, op: Op)
    requires n <= |b.text|
    ensures TextDeclared(b, n, v, op) <==> op.Text? && (op.cmd, v) in b.text[..n]
  {
    if n > 0 {
      TextIs(b, n - 1, v, op);
    }
  }

  lemma {:induction false} AttrIs(b: Bindings, n: nat, v: Symbol, op: Op)
    requires n <= |b.attrs|
    ensures AttrDeclared(b, n, v, op) <==> op.AttrOf? && (op.cmd, op.name, v) in b.attrs[..n]
  {
    if n > 0 {
      AttrIs(b, n - 1, v, op);
    }
  }

  lemma {:induction false} ListIs(b: Bindings, n: nat, v: Symbol, op: Op)
    requires n <= |b.lists|
    ensures ListDeclared(b, n, v, op) <==> op.List? && (op.cmd, v) in b.lists[..n]
  {
    if n > 0 {
      ListIs(b, n - 1, v, op);
    }
  }

  lemma {:induction false} ComputedIs(b: Bindings, state: set<Symbol>, n: nat, v: Symbol, op: Op)
    requires n <= |b.computed|
    ensures ComputedDeclared(b, state, n, v, op) <==>
      op.Computed? && exists i :: 0 <= i < n && Captured(b, state, i, v) && b.computed[i].0 == op.cmd
  {
    hide ValueOf;
    if n > 0 {
      ComputedIs(b, state, n - 1, v, op);
    }
  }

  /** The computed slot `i` captures `v` and was lowered. */
  predicate Captured(b: Bindings, state: set<Symbol>, i: nat, v: Symbol)
    requires i < |b.computed|
  {
    v in b.computed[i].1.captures && ValueOf(b.computed[i].1.captures, state, b.computed[i].1.body).Some?
  }

  /** A variable drives its text slots, its dynamic attributes, its lists, and every lowered computed slot
      that captures it, and nothing else. */
  lemma GraphExact(g: Graph, b: Bindings, state: set<Symbol>, v: Symbol, op: Op)
    requires GraphIs(g, b, state, |b.text|, |b.attrs|, |b.computed|, |b.lists|)
    ensures Drives(g, v, op) <==> match op
      case Text(cmd) => (cmd, v) in b.text
      case AttrOf(cmd, name) => (cmd, name, v) in b.attrs
      case Computed(cmd) => exists i :: 0 <= i < |b.computed| && Captured(b, state, i, v) && b.computed[i].0 == cmd
      case List(cmd) => (cmd, v) in b.lists
  {
    TextIs(b, |b.text|, v, op);
    AttrIs(b, |b.attrs|, v, op);
    ComputedIs(b, state, |b.computed|, v, op);
    ListIs(b, |b.lists|, v, op);
    hide Drives, ValueOf, TextDeclared, AttrDeclared, ComputedDeclared, ListDeclared, Captured, DistinctKeys;
    assert b.text[..|b.text|] == b.text && b.attrs[..|b.attrs|] == b.attrs && b.lists[..|b.lists|] == b.lists;
  }

  method AddCaptures(g: Graph, captures: seq<Symbol>, cmd: nat) returns (h: Graph)
    requires DistinctKeys(g)
    ensures DistinctKeys(h)
    ensures forall v, op :: Drives(h, v, op) <==> Drives(g, v, op) || (v in captures && op == Computed(cmd))
  {
    hide Drives, DistinctKeys, AddOp;
    h := g;
    for k := 0 to |captures|
      invariant DistinctKeys(h)
      invariant forall v, op :: Drives(h, v, op) <==> Drives(g, v, op) || (v in captures[..k] && op == Computed(cmd))
    {
      AddOpIs(h, captures[k], Computed(cmd));
      h := AddOp(h, captures[k], Computed(cmd));
      assert captures[..k + 1] == captures[..k] + [captures[k]];
    }
    assert captures[..|captures|] == captures;
  }

  lemma NothingDeclared(b: Bindings, state: set<Symbol>)
    ensures GraphIs([], b, state, 0, 0, 0, 0)
  {
    hide ValueOf;
  }
}
