/** Lowering of a function's label/jump code to a JavaScript label-dispatch loop, and the proof
    that the emitted program simulates the original over whole runs, calls included. */
module Transpile {
  import opened Wrappers
  import Sir
  import Js

  type Symbol = Sir.Symbol

  /** One straight-line instruction as a statement; None for one the backend cannot lower. */
  function Lower(i: Sir.Insn): Option<Js.Stmt> {
    match i
    case Const(dst, c) => Some(Js.SetConst(Js.V(dst), c))
    case Load(dst, Param(n)) => Some(Js.Copy(Js.V(dst), Js.A(n)))
    case Load(dst, Local(s)) => Some(Js.Copy(Js.V(dst), Js.L(s)))
    case Store(name, value) => Some(Js.Copy(Js.L(name), Js.V(value)))
    case BinOp(dst, op, lhs, rhs) => Some(Js.SetBin(Js.V(dst), op, Js.V(lhs), Js.V(rhs)))
    case UnOp(dst, op, rhs) => Some(Js.SetUn(Js.V(dst), op, Js.V(rhs)))
    case Call(dst, name, args) => Some(Js.CallFn(Js.V(dst), name, Values(args)))
    case TupleIndex(dst, tuple, index) => Some(Js.SetIndex(Js.V(dst), Js.V(tuple), index))
    case FieldStore(base, index, value) => Some(Js.PutIndex(Js.V(base), index, Js.V(value)))
    case Construct(dst, tag, fields) => Some(Js.NewArray(Js.V(dst), tag, Values(fields)))
    case VarDef(_, _) => Some(Js.Empty)
    case Nop => Some(Js.Empty)
    case _ => None
  }

  function Values(ids: seq<Sir.ValueId>): seq<Js.Var> {
    seq(|ids|, i requires 0 <= i < |ids| => Js.V(ids[i]))
  }

  function CountLabels(body: seq<Sir.Insn>, i: nat): nat
    requires i <= |body|
  {
    if i == 0 then 0 else CountLabels(body, i - 1) + if body[i - 1].Label? then 1 else 0
  }

  /** Label id to block number after scanning `i` instructions; the entry block is 0. */
  function BlockOf(body: seq<Sir.Insn>, i: nat): map<Sir.LabelId, nat>
    requires i <= |body|
  {
    if i == 0 then map[]
    else if body[i - 1].Label? then BlockOf(body, i - 1)[body[i - 1].id := CountLabels(body, i)]
    else BlockOf(body, i - 1)
  }

  /** Whether the code before `i` ended in a jump or return with no label since. */
  predicate Dead(body: seq<Sir.Insn>, i: nat)
    requires i <= |body|
  {
    i > 0 && match body[i - 1]
      case Label(_) => false
      case Jump(_) => true
      case Return(_) => true
      case _ => Dead(body, i - 1)
  }

  /** The statement for a live instruction. */
  function LowerAt(blocks: map<Sir.LabelId, nat>, i: Sir.Insn): Option<Js.Stmt> {
    match i
    case Label(id) => if id in blocks then Some(Js.Case(blocks[id])) else None
    case Jump(t) => if t in blocks then Some(Js.Goto(blocks[t])) else None
    case BranchIfNot(c, t) => if t in blocks then Some(Js.IfNotGoto(Js.V(c), blocks[t])) else None
    case Return(r) => Some(Js.Ret(match r case None => None case Some(v) => Some(Js.V(v))))
    case other => Lower(other)
  }

  predicate Live(body: seq<Sir.Insn>, i: nat)
    requires i < |body|
  {
    body[i].Label? || !Dead(body, i)
  }

  /** Statements emitted for the first `i` instructions. */
  function Emit(body: seq<Sir.Insn>, i: nat): Option<seq<Js.Stmt>>
    requires i <= |body|
  {
    if i == 0 then Some([Js.Case(0)])
    else
      var front := Emit(body, i - 1);
      if front.None? || !Live(body, i - 1) then front
      else
        var stmt := LowerAt(BlockOf(body, |body|), body[i - 1]);
        if stmt.None? then None else Some(front.value + [stmt.value])
  }

  function TranspileFn(f: Sir.Function): Option<Js.Function> {
    match Emit(f.body, |f.body|)
    case None => None
    case Some(stmts) => Some(Js.Function(|f.params|, stmts + [Js.Default]))
  }

  method EmitFn(f: Sir.Function) returns (r: Option<Js.Function>)
    ensures r == TranspileFn(f)
  {
    var blockOf: map<Sir.LabelId, nat> := map[];
    var block := 0;
    for i := 0 to |f.body|
      invariant block == CountLabels(f.body, i) && blockOf == BlockOf(f.body, i)
    {
      if f.body[i].Label? {
        block := block + 1;
        blockOf := blockOf[f.body[i].id := block];
      }
    }
    var out := [Js.Case(0)];
    var dead := false;
    for i := 0 to |f.body|
      invariant Emit(f.body, i) == Some(out) && dead == Dead(f.body, i)
    {
      var insn := f.body[i];
      if insn.Label? || !dead {
        var stmt := LowerAt(blockOf, insn);
        if stmt.None? {
          NoRecovery(f.body, i + 1);
          return None;
        }
        out := out + [stmt.value];
        dead := insn.Jump? || insn.Return?;
      }
    }
    r := Some(Js.Function(|f.params|, out + [Js.Default]));
  }

  /** A refused prefix refuses the whole body. */
  lemma NoRecovery(body: seq<Sir.Insn>, i: nat)
    requires i <= |body| && Emit(body, i).None?
    ensures Emit(body, |body|).None?
    decreases |body| - i
  {
    if i < |body| {
      NoRecovery(body, i + 1);
    }
  }

  // --- What is lowered -----------------------------------------------------

  /** Everything but array pushes, what has no form in the browser, and jumps to labels that are not
      there. */
  predicate Lowers(body: seq<Sir.Insn>, i: Sir.Insn) {
    && !i.ArrayPush? && !i.Other?
    && (i.Jump? || i.BranchIfNot? ==> Sir.Label(i.target) in body)
  }

  /** Instruction `i` follows a jump or return with no label in between. */
  predicate Passed(body: seq<Sir.Insn>, i: nat)
    requires i < |body|
  {
    exists j :: 0 <= j < i && (body[j].Jump? || body[j].Return?) && forall k :: j < k <= i ==> !body[k].Label?
  }

  /** A function is emitted exactly when every instruction but the dead ones has a form in the browser. */
  lemma LoweredExactly(f: Sir.Function)
    ensures TranspileFn(f).Some? <==> forall i :: 0 <= i < |f.body| ==> Passed(f.body, i) || Lowers(f.body, f.body[i])
  {
    EmitExactly(f.body, |f.body|);
  }

  lemma {:induction false} EmitExactly(body: seq<Sir.Insn>, n: nat)
    requires n <= |body|
    ensures Emit(body, n).Some? <==> forall i :: 0 <= i < n ==> Passed(body, i) || Lowers(body, body[i])
  {
    hide LowerAt, Live, Lowers, Passed;
    if n > 0 {
      EmitExactly(body, n - 1);
      LivePassed(body, n - 1);
      LowersAt(body, body[n - 1]);
    }
  }

  lemma LowersAt(body: seq<Sir.Insn>, i: Sir.Insn)
    requires i in body
    ensures LowerAt(BlockOf(body, |body|), i).Some? <==> Lowers(body, i)
  {
    BlocksAre(body, |body|);
    var n :| 0 <= n < |body| && body[n] == i;
  }

  lemma {:induction false} BlocksAre(body: seq<Sir.Insn>, n: nat)
    requires n <= |body|
    ensures forall id :: id in BlockOf(body, n) <==> Sir.Label(id) in body[..n]
    ensures n == |body| ==> body[..n] == body
  {
    if n > 0 {
      BlocksAre(body, n - 1);
      assert body[..n] == body[..n - 1] + [body[n - 1]];
    }
  }

  lemma LivePassed(body: seq<Sir.Insn>, i: nat)
    requires i < |body|
    ensures Live(body, i) <==> !Passed(body, i)
  {
    DeadSince(body, i);
  }

  lemma {:induction false} DeadSince(body: seq<Sir.Insn>, i: nat)
    requires i <= |body|
    ensures Dead(body, i) <==>
      exists j :: 0 <= j < i && (body[j].Jump? || body[j].Return?) && forall k :: j < k < i ==> !body[k].Label?
  {
    if i > 0 {
      DeadSince(body, i - 1);
      if j :| 0 <= j < i - 1 && (body[j].Jump? || body[j].Return?) && forall k :: j < k < i - 1 ==> !body[k].Label? {
        if !body[i - 1].Label? {
          assert forall k :: j < k < i ==> !body[k].Label?;
        }
      }
    }
  }

  // --- Positions -----------------------------------------------------------

  /** Where the statement of instruction `i` sits in the emitted body. */
  function Pos(body: seq<Sir.Insn>, i: nat): nat
    requires i <= |body| && Emit(body, |body|).Some?
  {
    EmitPrefix(body, i);
    |Emit(body, i).value|
  }

  lemma EmitPrefix(body: seq<Sir.Insn>, i: nat)
    requires i <= |body| && Emit(body, |body|).Some?
    ensures Emit(body, i).Some? && Emit(body, i).value <= Emit(body, |body|).value
    decreases |body| - i
  {
    if i < |body| {
      EmitPrefix(body, i + 1);
    }
  }

  /** The statement found at a live instruction's position, and the next position. */
  lemma StatementAt(f: Sir.Function, i: nat)
    requires TranspileFn(f).Some? && i < |f.body| && Live(f.body, i)
    ensures var stmts, pos := TranspileFn(f).value.body, Pos(f.body, i);
      var stmt := LowerAt(BlockOf(f.body, |f.body|), f.body[i]);
      pos < |stmts| && stmt == Some(stmts[pos]) && Pos(f.body, i + 1) == pos + 1
  {
    EmitPrefix(f.body, i);
    EmitPrefix(f.body, i + 1);
  }

  /** With unique labels, a label keeps the block number of its own position. */
  lemma BlockStays(body: seq<Sir.Insn>, j: nat, n: nat)
    requires Sir.UniqueLabels(body) && j < n <= |body| && body[j].Label?
    ensures body[j].id in BlockOf(body, n) && BlockOf(body, n)[body[j].id] == CountLabels(body, j + 1)
    decreases n
  {
    if j + 1 < n {
      BlockStays(body, j, n - 1);
    }
  }

  /** Blocks are numbered 1, 2, ... in the order of their labels. */
  lemma LabelsNumbered(body: seq<Sir.Insn>, j: nat)
    requires Sir.UniqueLabels(body) && j < |body| && body[j].Label?
    ensures body[j].id in BlockOf(body, |body|)
    ensures BlockOf(body, |body|)[body[j].id] == |LabelsBefore(body, j + 1)|
  {
    hide LabelsBefore;
    BlockStays(body, j, |body|);
    LabelsCounted(body, j + 1);
  }

  function LabelsBefore(body: seq<Sir.Insn>, i: nat): set<nat>
    requires i <= |body|
  {
    set k: nat | k < i && body[k].Label?
  }

  lemma {:induction false} LabelsCounted(body: seq<Sir.Insn>, i: nat)
    requires i <= |body|
    ensures CountLabels(body, i) == |LabelsBefore(body, i)|
  {
    if i == 0 {
      assert LabelsBefore(body, 0) == {};
    } else {
      LabelsCounted(body, i - 1);
      var before := LabelsBefore(body, i - 1);
      assert LabelsBefore(body, i) == if body[i - 1].Label? then before + {i - 1} else before;
    }
  }

  /** Case numbers grow along the emitted statements, so an earlier statement never carries
      the number of a later block. */
  lemma NoEarlyCase(body: seq<Sir.Insn>, i: nat, k: nat)
    requires Sir.UniqueLabels(body) && i <= |body| && Emit(body, i).Some? && k > CountLabels(body, i)
    ensures Js.Case(k) !in Emit(body, i).value
  {
    if i > 0 {
      NoEarlyCase(body, i - 1, k);
      if body[i - 1].Label? {
        BlockStays(body, i - 1, |body|);
      }
    }
  }

  lemma FindCaseAt(stmts: seq<Js.Stmt>, k: nat, i: nat)
    requires i < |stmts| && stmts[i] == Js.Case(k) && Js.Case(k) !in stmts[..i]
    ensures Js.FindCase(stmts, k) == i
  {
    if i > 0 {
      assert stmts[0] in stmts[..i];
      assert stmts[1..][..i - 1] == stmts[..i][1..];
      FindCaseAt(stmts[1..], k, i - 1);
    }
  }

  /** Dispatching on a label's block number lands on that label. */
  lemma DispatchLands(f: Sir.Function, id: Sir.LabelId)
    requires TranspileFn(f).Some? && Sir.UniqueLabels(f.body)
    requires Sir.LabelIndex(f.body, id).Some?
    ensures var j, blocks := Sir.LabelIndex(f.body, id).value, BlockOf(f.body, |f.body|);
      && id in blocks
      && Js.FindCase(TranspileFn(f).value.body, blocks[id]) == Pos(f.body, j)
  {
    var j := Sir.LabelIndex(f.body, id).value;
    BlockStays(f.body, j, |f.body|);
    StatementAt(f, j);
    EmitPrefix(f.body, j);
    NoEarlyCase(f.body, j, CountLabels(f.body, j + 1));
    var stmts := TranspileFn(f).value.body;
    assert stmts[..Pos(f.body, j)] == Emit(f.body, j).value;
    FindCaseAt(stmts, CountLabels(f.body, j + 1), Pos(f.body, j));
  }

  // --- Emitting everything reachable ---------------------------------------

  ghost predicate Calls(f: Sir.Function, name: Symbol) {
    exists i :: 0 <= i < |f.body| && f.body[i].Call? && f.body[i].name == name
  }

  /** `path` leads from a root to its last function through calls, dead code included. */
  ghost predicate CallPath(p: Sir.Program, roots: seq<Symbol>, path: seq<Symbol>) {
    && path != [] && path[0] in roots
    && forall i :: 0 <= i < |path| - 1 ==> path[i] in p && Calls(p[path[i]], path[i + 1])
  }

  ghost predicate Reachable(p: Sir.Program, roots: seq<Symbol>, name: Symbol) {
    exists path :: CallPath(p, roots, path) && path[|path| - 1] == name
  }

  /** A reachable function the backend has no body for, or cannot lower. */
  ghost predicate Blocked(p: Sir.Program, roots: seq<Symbol>, name: Symbol) {
    Reachable(p, roots, name) && (name !in p || TranspileFn(p[name]).None?)
  }

  lemma ExtendPath(p: Sir.Program, roots: seq<Symbol>, name: Symbol, callee: Symbol)
    requires Reachable(p, roots, name) && name in p && Calls(p[name], callee)
    ensures Reachable(p, roots, callee)
  {
    var path :| CallPath(p, roots, path) && path[|path| - 1] == name;
    assert CallPath(p, roots, path + [callee]);
  }

  lemma RootReachable(p: Sir.Program, roots: seq<Symbol>, name: Symbol)
    requires name in roots
    ensures Reachable(p, roots, name)
  {
    assert CallPath(p, roots, [name]);
  }

  /** A set that holds the roots and is closed under calls holds everything reachable. */
  lemma ClosedHolds(p: Sir.Program, roots: seq<Symbol>, seen: set<Symbol>, path: seq<Symbol>)
    requires CallPath(p, roots, path)
    requires forall r :: r in roots ==> r in seen
    requires forall s, c :: s in seen && s in p && Calls(p[s], c) ==> c in seen
    ensures path[|path| - 1] in seen
  {
    if |path| > 1 {
      var front := path[..|path| - 1];
      assert CallPath(p, roots, front);
      ClosedHolds(p, roots, seen, front);
    }
  }

  function Names(out: seq<(Symbol, Js.Function)>): seq<Symbol> {
    seq(|out|, i requires 0 <= i < |out| => out[i].0)
  }

  /** Call targets of the first `i` instructions, in order. */
  function CallNames(body: seq<Sir.Insn>, i: nat): (names: seq<Symbol>)
    requires i <= |body|
    ensures forall c :: c in names <==> exists k :: 0 <= k < i && body[k].Call? && body[k].name == c
  {
    if i == 0 then []
    else CallNames(body, i - 1) + if body[i - 1].Call? then [body[i - 1].name] else []
  }

  /** The worklist invariant: everything in hand is reachable, the roots are in hand, and the
      calls of every function already seen are in hand. */
  ghost predicate Progress(p: Sir.Program, roots: seq<Symbol>, seen: set<Symbol>, queue: seq<Symbol>) {
    && (forall s :: s in seen ==> s in p && Reachable(p, roots, s))
    && (forall s :: s in queue ==> Reachable(p, roots, s))
    && (forall s :: s in roots ==> s in seen || s in queue)
    && (forall s, c :: s in seen && s in p && Calls(p[s], c) ==> c in seen || c in queue)
  }

  lemma ProgressStart(p: Sir.Program, roots: seq<Symbol>)
    ensures Progress(p, roots, {}, roots)
  {
    forall s | s in roots ensures Reachable(p, roots, s) {
      RootReachable(p, roots, s);
    }
  }

  lemma ProgressStep(p: Sir.Program, roots: seq<Symbol>, seen: set<Symbol>, queue: seq<Symbol>)
    requires queue != [] && Progress(p, roots, seen, queue)
    ensures var n := |queue| - 1; var sym, rest := queue[n], queue[..n];
      && Reachable(p, roots, sym)
      && (sym in seen ==> Progress(p, roots, seen, rest))
      && (sym in p ==> Progress(p, roots, seen + {sym}, rest + CallNames(p[sym].body, |p[sym].body|)))
  {
    var n := |queue| - 1;
    var sym, rest := queue[n], queue[..n];
    assert forall s :: s in queue <==> s == sym || s in rest;
    if sym in p {
      var names := CallNames(p[sym].body, |p[sym].body|);
      forall c | c in names ensures Reachable(p, roots, c) {
        assert Calls(p[sym], c);
        ExtendPath(p, roots, sym, c);
      }
    }
  }

  /** With an empty queue, what was seen is exactly what is reachable. */
  lemma ProgressEnd(p: Sir.Program, roots: seq<Symbol>, seen: set<Symbol>, name: Symbol)
    requires Progress(p, roots, seen, []) && Reachable(p, roots, name)
    ensures name in seen
  {
    var path :| CallPath(p, roots, path) && path[|path| - 1] == name;
    ClosedHolds(p, roots, seen, path);
  }

  ghost predicate Emitted(p: Sir.Program, seen: set<Symbol>, out: seq<(Symbol, Js.Function)>) {
    && Sir.Distinct(Names(out))
    && (forall s :: s in seen <==> s in Names(out))
    && forall i :: 0 <= i < |out| ==> out[i].0 in p && TranspileFn(p[out[i].0]) == Some(out[i].1)
  }

  lemma EmittedPush(p: Sir.Program, seen: set<Symbol>, out: seq<(Symbol, Js.Function)>, sym: Symbol, js: Js.Function)
    requires Emitted(p, seen, out) && sym !in seen && sym in p && TranspileFn(p[sym]) == Some(js)
    ensures Emitted(p, seen + {sym}, out + [(sym, js)])
  {
    assert Names(out + [(sym, js)]) == Names(out) + [sym];
    forall i | 0 <= i < |out| ensures out[i].0 != sym {
      assert Names(out)[i] in Names(out);
    }
  }

  /** Each reachable function is emitted exactly once; the answer is None exactly when some
      reachable function is blocked. */
  method EmitReachable(p: Sir.Program, roots: seq<Symbol>) returns (r: Option<seq<(Symbol, Js.Function)>>)
    ensures r.None? <==> exists name :: Blocked(p, roots, name)
    ensures r.Some? ==>
      && Sir.Distinct(Names(r.value))
      && (forall name :: name in Names(r.value) <==> Reachable(p, roots, name))
      && (forall i :: 0 <= i < |r.value| ==> r.value[i].0 in p && TranspileFn(p[r.value[i].0]) == Some(r.value[i].1))
  {
    hide Progress, Emitted, TranspileFn, Reachable;
    var seen: set<Symbol> := {};
    var queue := roots;
    var out: seq<(Symbol, Js.Function)> := [];
    ProgressStart(p, roots);
    EmittedNothing(p);
    while queue != []
      invariant Progress(p, roots, seen, queue) && Emitted(p, seen, out)
      decreases p.Keys - seen, |queue|
    {
      ProgressStep(p, roots, seen, queue);
      var sym := queue[|queue| - 1];
      queue := queue[..|queue| - 1];
      if sym !in seen {
        if sym !in p {
          assert Blocked(p, roots, sym);
          return None;
        }
        var js := EmitFn(p[sym]);
        if js.None? {
          assert Blocked(p, roots, sym);
          return None;
        }
        EmittedPush(p, seen, out, sym, js.value);
        out := out + [(sym, js.value)];
        ghost var rest := queue;
        var body := p[sym].body;
        for i := 0 to |body|
          invariant queue == rest + CallNames(body, i)
        {
          if body[i].Call? {
            queue := queue + [body[i].name];
          }
        }
        seen := seen + {sym};
      }
    }
    r := Some(out);
    AllEmitted(p, roots, seen, out);
  }

  lemma EmittedNothing(p: Sir.Program)
    ensures Emitted(p, {}, [])
  {
  }

  lemma AllEmitted(p: Sir.Program, roots: seq<Symbol>, seen: set<Symbol>, out: seq<(Symbol, Js.Function)>)
    requires Progress(p, roots, seen, []) && Emitted(p, seen, out)
    ensures !exists name :: Blocked(p, roots, name)
    ensures Sir.Distinct(Names(out)) && forall name :: name in Names(out) <==> Reachable(p, roots, name)
    ensures forall i :: 0 <= i < |out| ==> out[i].0 in p && TranspileFn(p[out[i].0]) == Some(out[i].1)
  {
    forall name | Reachable(p, roots, name) ensures name in seen {
      ProgressEnd(p, roots, seen, name);
    }
    forall name | Reachable(p, roots, name) ensures name in p && TranspileFn(p[name]).Some? {
      var i :| 0 <= i < |out| && Names(out)[i] == name;
    }
  }

  /** The index of a name in the output. */
  function IndexOf(out: seq<(Symbol, Js.Function)>, name: Symbol): (i: nat)
    requires name in Names(out)
    ensures i < |out| && out[i].0 == name
  {
    assert Names(out)[1..] == Names(out[1..]);
    if out[0].0 == name then 0 else 1 + IndexOf(out[1..], name)
  }

  /** The emitted functions as a program. */
  function ToProgram(out: seq<(Symbol, Js.Function)>): (q: Js.Program)
    ensures forall name :: name in q <==> name in Names(out)
  {
    map name | name in Names(out) :: out[IndexOf(out, name)].1
  }
}
