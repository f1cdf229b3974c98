/** Execution of functions whose hottest locals live in callee-saved registers: the prologue saves
    the claimed registers, a promoted store moves into one, a promoted load only remembers which
    register its value is in, and every return restores what the caller had. */
module PromotedCode {
  import opened Wrappers
  import Sir
  import PromotionPlan

  type Val = Sir.Val
  type Heap = Sir.Heap
  type Symbol = Sir.Symbol
  type Plan = PromotionPlan.Plan

  /** x19..x28 and d8..d15. */
  datatype Reg = X(n: nat) | D(n: nat)

  type Regs = map<Reg, Val>

  /** A function with its plan; `isFp[i]` says that parameter `i` arrives in an FP register. */
  datatype Compiled = Compiled(f: Sir.Function, plan: Plan, isFp: seq<bool>)

  type Program = map<Symbol, Compiled>

  function RegOf(plan: Plan, s: Symbol): Option<Reg> {
    if s in plan.regs then Some(X(plan.regs[s]))
    else if s in plan.fregs then Some(D(plan.fregs[s]))
    else None
  }

  /** The register a promoted parameter is copied to: its type picks the bank. */
  function ParamReg(u: Compiled, i: nat): Option<Reg> {
    if i >= |u.f.params| || i >= |u.isFp| then None
    else
      var s := u.f.params[i];
      if u.isFp[i] then (if s in u.plan.fregs then Some(D(u.plan.fregs[s])) else None)
      else if s in u.plan.regs then Some(X(u.plan.regs[s]))
      else None
  }

  function SourceReg(u: Compiled, src: Sir.Source): Option<Reg> {
    match src
    case Local(s) => RegOf(u.plan, s)
    case Param(i) => ParamReg(u, i)
  }

  /** A load of a promoted local: nothing is emitted for it. */
  predicate Promoted(u: Compiled, j: nat)
    requires j < |u.f.body|
  {
    u.f.body[j].Load? && SourceReg(u, u.f.body[j].src).Some?
  }

  /** The load that value `v` is bound by once the first `i` instructions are emitted. */
  function BoundBy(u: Compiled, i: nat, v: Sir.ValueId): (r: Option<nat>)
    requires i <= |u.f.body|
    ensures r.Some? ==> r.value < i && Promoted(u, r.value) && u.f.body[r.value].dst == v
    ensures r.None? ==> forall j :: 0 <= j < i && Promoted(u, j) ==> u.f.body[j].dst != v
  {
    if i == 0 then None
    else if Promoted(u, i - 1) && u.f.body[i - 1].dst == v then Some(i - 1)
    else BoundBy(u, i - 1, v)
  }

  /** The register that value `v` is read from, if it is bound. */
  function Binding(u: Compiled, i: nat, v: Sir.ValueId): Option<Reg>
    requires i <= |u.f.body|
  {
    match BoundBy(u, i, v)
    case None => None
    case Some(j) => SourceReg(u, u.f.body[j].src)
  }

  lemma NothingBound(u: Compiled)
    ensures forall v: Sir.ValueId :: Binding(u, 0, v).None?
  {
  }

  lemma BindingNext(u: Compiled, i: nat, v: Sir.ValueId)
    requires i < |u.f.body|
    ensures Binding(u, i + 1, v) ==
      if Promoted(u, i) && u.f.body[i].dst == v then SourceReg(u, u.f.body[i].src) else Binding(u, i, v)
  {
    hide SourceReg;
  }

  /** The emitter's map from values to registers, as it stands before each instruction: a promoted
      load adds an entry and emits nothing. */
  method BindValues(u: Compiled) returns (at: seq<map<Sir.ValueId, Reg>>)
    ensures |at| == |u.f.body|
    ensures forall i, v :: 0 <= i < |at| ==> Sir.Lookup(at[i], v) == Binding(u, i, v)
  {
    hide Binding, SourceReg;
    at := [];
    var bound: map<Sir.ValueId, Reg> := map[];
    NothingBound(u);
    for i := 0 to |u.f.body|
      invariant |at| == i
      invariant forall v: Sir.ValueId :: Sir.Lookup(bound, v) == Binding(u, i, v)
      invariant forall k, v :: 0 <= k < i ==> Sir.Lookup(at[k], v) == Binding(u, k, v)
    {
      at := at + [bound];
      forall v: Sir.ValueId ensures Binding(u, i + 1, v) ==
        if Promoted(u, i) && u.f.body[i].dst == v then SourceReg(u, u.f.body[i].src) else Binding(u, i, v)
      {
        BindingNext(u, i, v);
      }
      if u.f.body[i].Load? && SourceReg(u, u.f.body[i].src).Some? {
        var next := bound[u.f.body[i].dst := SourceReg(u, u.f.body[i].src).value];
        ghost var j := i + 1;
        forall v: Sir.ValueId ensures Sir.Lookup(next, v) == Binding(u, j, v) {
          assert Sir.Lookup(bound, v) == Binding(u, i, v);
        }
        bound := next;
      }
    }
  }

  function Uses(i: Sir.Insn): set<Sir.ValueId> {
    match i
    case Store(_, v) => {v}
    case BinOp(_, _, a, b) => {a, b}
    case UnOp(_, _, a) => {a}
    case Call(_, _, args) => set a | a in args
    case TupleIndex(_, t, _) => {t}
    case FieldStore(b, _, v) => {b, v}
    case ArrayPush(a, v, _) => {a, v}
    case Construct(_, _, fields) => set a | a in fields
    case BranchIfNot(c, _) => {c}
    case Return(r) => if r.Some? then {r.value} else {}
    case _ => {}
  }

  // --- The machine ---------------------------------------------------------

  /** `saved` is the save area of the frame: what the claimed registers held on entry. */
  datatype Frame = Frame(fn: Symbol, pc: nat, vals: map<Sir.ValueId, Val>, slots: map<Symbol, Val>, saved: Regs)

  datatype State = Run(frames: seq<Frame>, regs: Regs, heap: Heap) | Done(value: Val, regs: Regs, heap: Heap) | Fault

  function Get(regs: Regs, r: Reg): Val {
    if r in regs then regs[r] else Sir.Unit
  }

  /** The operands of instruction `i` as the emitted code reads them: a bound value from its
      register, any other from its temporary. */
  function Operands(u: Compiled, i: nat, fr: Frame, regs: Regs): map<Sir.ValueId, Val>
    requires i < |u.f.body|
  {
    fr.vals + map v | v in Uses(u.f.body[i]) && Binding(u, i, v).Some? :: Get(regs, Binding(u, i, v).value)
  }

  function Claimed(plan: Plan): set<Reg> {
    (set i | 0 <= i < |plan.used| :: X(plan.used[i])) + (set i | 0 <= i < |plan.fpUsed| :: D(plan.fpUsed[i]))
  }

  /** The first `n` parameters copied to their registers. */
  function PromoteParams(u: Compiled, args: seq<Val>, regs: Regs, n: nat): Regs
    requires n <= |args|
  {
    if n == 0 then regs
    else
      var before := PromoteParams(u, args, regs, n - 1);
      match ParamReg(u, n - 1)
      case None => before
      case Some(r) => before[r := args[n - 1]]
  }

  /** The prologue: save the claimed registers, then put every argument in its home slot and, if
      promoted, in its register. */
  function Enter(fn: Symbol, u: Compiled, args: seq<Val>, regs: Regs): (Frame, Regs)
    requires |args| == |u.f.params|
  {
    var saved := map r | r in Claimed(u.plan) :: Get(regs, r);
    (Frame(fn, 0, map[], Sir.BindParams(u.f.params, args), saved), PromoteParams(u, args, regs, |args|))
  }

  /** The epilogue and the return to the caller's pending call. */
  function Leave(p: Program, frames: seq<Frame>, regs: Regs, value: Val, heap: Heap): State
    requires frames != []
  {
    var restored := regs + frames[0].saved;
    var callers := frames[1..];
    if callers == [] then Done(value, restored, heap)
    else
      var f := callers[0];
      if f.fn in p && f.pc < |p[f.fn].f.body| && p[f.fn].f.body[f.pc].Call? then
        Run([f.(vals := f.vals[p[f.fn].f.body[f.pc].dst := value], pc := f.pc + 1)] + callers[1..], restored, heap)
      else Fault
  }

  /** An instruction that stays in its function: the frame, registers and heap after it. */
  function Plain(u: Compiled, ops: Sir.Ops, fr: Frame, regs: Regs, heap: Heap): Option<(Frame, Regs, Heap)>
    requires fr.pc < |u.f.body|
  {
    var vals := Operands(u, fr.pc, fr, regs);
    match u.f.body[fr.pc]
    case Load(dst, src) =>
      if SourceReg(u, src).Some? then Some((fr, regs, heap))
      else
        var name := Sir.SourceName(u.f.params, src);
        if name.Some? && name.value in fr.slots then
          Some((fr.(vals := fr.vals[dst := fr.slots[name.value]]), regs, heap))
        else None
    case Store(name, v) =>
      if v !in vals then None
      else if RegOf(u.plan, name).Some? then Some((fr, regs[RegOf(u.plan, name).value := vals[v]], heap))
      else Some((fr.(slots := fr.slots[name := vals[v]]), regs, heap))
    case VarDef(_, _) => Some((fr, regs, heap))
    case i =>
      match Sir.Straight(ops, u.f.params, i, Sir.Frame(fr.fn, fr.pc, vals, map[]), heap)
      case None => None
      case Some((f', heap')) =>
        var d := Sir.Defines(i);
        Some((if d.Some? && d.value in f'.vals then fr.(vals := fr.vals[d.value := f'.vals[d.value]]) else fr, regs,
          heap'))
  }

  function Step(p: Program, ops: Sir.Ops, s: State): State {
    if !s.Run? then s
    else if s.frames == [] || s.frames[0].fn !in p then Fault
    else
      var f, callers := s.frames[0], s.frames[1..];
      var u := p[f.fn];
      if f.pc >= |u.f.body| then Fault
      else
        var vals := Operands(u, f.pc, f, s.regs);
        match u.f.body[f.pc]
        case Jump(target) => GoTo(s, Sir.LabelIndex(u.f.body, target))
        case BranchIfNot(cond, target) =>
          if cond !in vals then Fault
          else if ops.truthy(vals[cond]) then Run([f.(pc := f.pc + 1)] + callers, s.regs, s.heap)
          else GoTo(s, Sir.LabelIndex(u.f.body, target))
        case Return(result) =>
          if result.None? then Leave(p, s.frames, s.regs, Sir.Unit, s.heap)
          else if result.value in vals then Leave(p, s.frames, s.regs, vals[result.value], s.heap)
          else Fault
        case Call(_, name, args) =>
          var vs := Sir.Operands(vals, args);
          if vs.Some? && name in p && |p[name].f.params| == |vs.value| then
            var (g, regs) := Enter(name, p[name], vs.value, s.regs);
            Run([g, f] + callers, regs, s.heap)
          else Fault
        case _ =>
          match Plain(u, ops, f, s.regs, s.heap)
          case None => Fault
          case Some((f', regs', heap')) => Run([f'.(pc := f.pc + 1)] + callers, regs', heap')
  }

  function GoTo(s: State, target: Option<nat>): State
    requires s.Run? && s.frames != []
  {
    if target.Some? then Run([s.frames[0].(pc := target.value)] + s.frames[1..], s.regs, s.heap) else Fault
  }

  function Steps(p: Program, ops: Sir.Ops, s: State, n: nat): State {
    if n == 0 then s else Step(p, ops, Steps(p, ops, s, n - 1))
  }

  function Start(p: Program, fn: Symbol, args: seq<Val>, regs: Regs, heap: Heap): State {
    if fn in p && |p[fn].f.params| == |args| then
      var (f, regs') := Enter(fn, p[fn], args, regs);
      Run([f], regs', heap)
    else Fault
  }

  /** The same program with every local in memory. */
  function Source(p: Program): Sir.Program {
    map fn | fn in p :: p[fn].f
  }

  // --- What is assumed of a function ---------------------------------------

  /** A promoted parameter's plan bank is the bank it arrives in. */
  ghost predicate ParamsMatch(u: Compiled) {
    && |u.isFp| == |u.f.params| && Sir.Distinct(u.f.params)
    && forall i :: 0 <= i < |u.f.params| ==>
      && (u.f.params[i] in u.plan.regs ==> !u.isFp[i])
      && (u.f.params[i] in u.plan.fregs ==> u.isFp[i])
  }

  ghost predicate UsesDefined(body: seq<Sir.Insn>) {
    forall i :: 0 <= i < |body| ==> forall v :: v in Uses(body[i]) ==> Sir.Defined(body, i, v)
  }

  /** No register serves two locals, and every register in use is saved. */
  ghost predicate PlanSound(plan: Plan) {
    && (forall a, b :: RegOf(plan, a).Some? && RegOf(plan, a) == RegOf(plan, b) ==> a == b)
    && (forall s :: RegOf(plan, s).Some? ==> RegOf(plan, s).value in Claimed(plan))
  }

  ghost predicate WellFormed(u: Compiled) {
    ParamsMatch(u) && UsesDefined(u.f.body) && Sir.SingleDefs(u.f.body) && PlanSound(u.plan)
  }

  ghost predicate AllWellFormed(p: Program) {
    forall fn :: fn in p ==> WellFormed(p[fn])
  }

  /** The machine has every register that the program claims. */
  ghost predicate HasRegs(p: Program, regs: Regs) {
    forall fn :: fn in p ==> Claimed(p[fn].plan) <= regs.Keys
  }

  /** Every plan that the analysis builds is sound. */
  lemma AnalyzedPlanSound(body: seq<Sir.Insn>, kinds: seq<PromotionPlan.LocalKind>, regsSafe: bool, plan: Plan)
    requires |body| == |kinds| && PromotionPlan.IsPlan(body, kinds, regsSafe, plan)
    ensures PlanSound(plan)
  {
    hide PromotionPlan.Candidates, PromotionPlan.Before, PromotionPlan.IsBank, RegOf, Claimed;
    var gp := if regsSafe then PromotionPlan.Candidates(body, kinds, PromotionPlan.GpScalar) else {};
    var fp := PromotionPlan.Candidates(body, kinds, PromotionPlan.Float);
    PromotionPlan.BankInjective(body, gp, PromotionPlan.FIRST_REG, PromotionPlan.REGS, plan.regs, plan.used);
    PromotionPlan.BankInjective(body, fp, PromotionPlan.FIRST_FREG, PromotionPlan.FREGS, plan.fregs, plan.fpUsed);
    PromotionPlan.BankTop(body, gp, PromotionPlan.FIRST_REG, PromotionPlan.REGS, plan.regs, plan.used);
    PromotionPlan.BankTop(body, fp, PromotionPlan.FIRST_FREG, PromotionPlan.FREGS, plan.fregs, plan.fpUsed);
    forall a, b | RegOf(plan, a).Some? && RegOf(plan, a) == RegOf(plan, b) ensures a == b {
      InjectiveRegs(plan, a, b);
    }
    forall s | RegOf(plan, s).Some? ensures RegOf(plan, s).value in Claimed(plan) {
      UsedClaimed(plan, s);
    }
  }

  lemma InjectiveRegs(plan: Plan, a: Symbol, b: Symbol)
    requires forall x, y :: x in plan.regs && y in plan.regs && x != y ==> plan.regs[x] != plan.regs[y]
    requires forall x, y :: x in plan.fregs && y in plan.fregs && x != y ==> plan.fregs[x] != plan.fregs[y]
    requires RegOf(plan, a).Some? && RegOf(plan, a) == RegOf(plan, b)
    ensures a == b
  {
  }

  lemma UsedClaimed(plan: Plan, s: Symbol)
    requires s in plan.regs ==> plan.regs[s] in plan.used
    requires s in plan.fregs ==> plan.fregs[s] in plan.fpUsed
    requires RegOf(plan, s).Some?
    ensures RegOf(plan, s).value in Claimed(plan)
  {
  }

  /** The value of a parameter load and of a load by name live in the same register. */
  lemma SourceRegName(u: Compiled, src: Sir.Source)
    requires ParamsMatch(u)
    ensures Sir.SourceName(u.f.params, src).Some? ==>
      SourceReg(u, src) == RegOf(u.plan, Sir.SourceName(u.f.params, src).value)
    ensures SourceReg(u, src).Some? ==> Sir.SourceName(u.f.params, src).Some?
  {
  }

  // --- Preservation --------------------------------------------------------

  ghost predicate MatchLocals(u: Compiled, locals: map<Symbol, Val>, slots: map<Symbol, Val>, regs: Regs) {
    forall s :: s in locals ==>
      match RegOf(u.plan, s)
      case Some(r) => r in regs && regs[r] == locals[s]
      case None => s in slots && slots[s] == locals[s]
  }

  /** Temporaries agree; a value bound to a register has none. */
  ghost predicate MatchVals(u: Compiled, vals: map<Sir.ValueId, Val>, mvals: map<Sir.ValueId, Val>) {
    forall v :: v in vals && BoundBy(u, |u.f.body|, v).None? ==> v in mvals && mvals[v] == vals[v]
  }

  ghost predicate MatchFrame(u: Compiled, sf: Sir.Frame, mf: Frame, regs: Regs) {
    && mf.fn == sf.fn && mf.pc == sf.pc && sf.pc <= |u.f.body|
    && mf.saved.Keys == Claimed(u.plan) && mf.saved.Keys <= regs.Keys
    && MatchVals(u, sf.vals, mf.vals)
    && MatchLocals(u, sf.locals, mf.slots, regs)
  }

  /** Each frame is matched under the registers it will see when the frames above it have returned;
      under all of them lies the register file `regs0` of the outermost caller. */
  ghost predicate MatchAll(p: Program, sfs: seq<Sir.Frame>, mfs: seq<Frame>, regs: Regs, regs0: Regs)
    decreases |sfs|
  {
    && |sfs| == |mfs| && regs.Keys == regs0.Keys
    && if sfs == [] then regs == regs0
       else
         && sfs[0].fn in p && MatchFrame(p[sfs[0].fn], sfs[0], mfs[0], regs)
         && MatchAll(p, sfs[1..], mfs[1..], regs + mfs[0].saved, regs0)
  }

  ghost predicate Match(p: Program, s: Sir.State, t: State, regs0: Regs) {
    match s
    case Run(frames, heap) => t.Run? && t.heap == heap && MatchAll(p, frames, t.frames, t.regs, regs0)
    case Done(v, heap) => t == Done(v, regs0, heap)
    case Fault => false
  }

  /** A local with a register of the plan lives there, x or d, and any other in its slot. */
  lemma LivesIn(u: Compiled, sf: Sir.Frame, mf: Frame, regs: Regs, s: Symbol)
    requires MatchFrame(u, sf, mf, regs) && s in sf.locals && !(s in u.plan.regs && s in u.plan.fregs)
    ensures s in u.plan.regs ==> Sir.Lookup(regs, X(u.plan.regs[s])) == Some(sf.locals[s])
    ensures s in u.plan.fregs ==> Sir.Lookup(regs, D(u.plan.fregs[s])) == Some(sf.locals[s])
    ensures s !in u.plan.regs && s !in u.plan.fregs ==> Sir.Lookup(mf.slots, s) == Some(sf.locals[s])
  {
    hide MatchVals, Claimed;
  }

  /** From a load of such a local on, its value is read from that register; a load of another local changes
      no binding. */
  lemma LoadBinds(u: Compiled, i: nat, v: Sir.ValueId)
    requires i < |u.f.body| && u.f.body[i].Load? && ParamsMatch(u)
    requires Sir.SourceName(u.f.params, u.f.body[i].src).Some?
    ensures var s := Sir.SourceName(u.f.params, u.f.body[i].src).value;
      Binding(u, i + 1, v) ==
        if v == u.f.body[i].dst && s in u.plan.regs then Some(X(u.plan.regs[s]))
        else if v == u.f.body[i].dst && s in u.plan.fregs then Some(D(u.plan.fregs[s]))
        else Binding(u, i, v)
  {
    hide Binding, SourceReg;
    SourceRegName(u, u.f.body[i].src);
    BindingNext(u, i, v);
  }

  /** Every bound operand of the next instruction still equals its local. */
  ghost predicate UseCurrent(u: Compiled, sf: Sir.Frame) {
    sf.pc < |u.f.body| ==> forall v :: v in Uses(u.f.body[sf.pc]) && v in sf.vals ==> Current(u, sf, v)
  }

  ghost predicate Current(u: Compiled, sf: Sir.Frame, v: Sir.ValueId)
    requires sf.pc < |u.f.body| && v in sf.vals
  {
    match BoundBy(u, sf.pc, v)
    case None => true
    case Some(j) =>
      var name := Sir.SourceName(u.f.params, u.f.body[j].src);
      name.Some? && name.value in sf.locals && sf.locals[name.value] == sf.vals[v]
  }

  lemma ReadOperand(u: Compiled, sf: Sir.Frame, mf: Frame, regs: Regs, v: Sir.ValueId)
    requires WellFormed(u) && MatchFrame(u, sf, mf, regs) && sf.pc < |u.f.body|
    requires v in Uses(u.f.body[sf.pc]) && v in sf.vals && Current(u, sf, v)
    ensures var vals := Operands(u, sf.pc, mf, regs); v in vals && vals[v] == sf.vals[v]
  {
    hide Uses, PlanSound, Claimed;
    match BoundBy(u, sf.pc, v)
    case Some(j) =>
      SourceRegName(u, u.f.body[j].src);
    case None =>
      assert Sir.Defined(u.f.body, sf.pc, v);
      OnlyDefinition(u, sf.pc, v);
  }

  /** A value defined before `i` but not bound by then is never bound. */
  lemma OnlyDefinition(u: Compiled, i: nat, v: Sir.ValueId)
    requires i <= |u.f.body| && Sir.SingleDefs(u.f.body) && Sir.Defined(u.f.body, i, v)
    requires BoundBy(u, i, v).None?
    ensures BoundBy(u, |u.f.body|, v).None?
  {
    var d :| 0 <= d < i && Sir.Defines(u.f.body[d]) == Some(v);
  }

  /** The emitted code reads a bound operand as the local it was loaded from, so it reads the loaded
      value exactly when the local still holds it. */
  lemma ReadExact(u: Compiled, sf: Sir.Frame, mf: Frame, regs: Regs, v: Sir.ValueId)
    requires WellFormed(u) && MatchFrame(u, sf, mf, regs) && sf.pc < |u.f.body|
    requires v in Uses(u.f.body[sf.pc]) && v in sf.vals && BoundBy(u, sf.pc, v).Some?
    requires var name := Sir.SourceName(u.f.params, u.f.body[BoundBy(u, sf.pc, v).value].src);
      name.Some? && name.value in sf.locals
    ensures v in Operands(u, sf.pc, mf, regs)
    ensures Operands(u, sf.pc, mf, regs)[v] == sf.vals[v] <==> Current(u, sf, v)
  {
    hide Uses, PlanSound, Claimed;
    SourceRegName(u, u.f.body[BoundBy(u, sf.pc, v).value].src);
  }

  lemma ReadOperands(u: Compiled, sf: Sir.Frame, mf: Frame, regs: Regs)
    requires WellFormed(u) && MatchFrame(u, sf, mf, regs) && sf.pc < |u.f.body| && UseCurrent(u, sf)
    ensures Agree(u.f.body[sf.pc], sf.vals, Operands(u, sf.pc, mf, regs))
  {
    hide WellFormed, MatchFrame, Current, Operands;
    forall v | v in Uses(u.f.body[sf.pc]) && v in sf.vals
      ensures v in Operands(u, sf.pc, mf, regs) && Operands(u, sf.pc, mf, regs)[v] == sf.vals[v]
    {
      ReadOperand(u, sf, mf, regs, v);
    }
  }

  /** The operands of `i` have the same values in both maps. */
  ghost predicate Agree(i: Sir.Insn, vals: map<Sir.ValueId, Val>, mvals: map<Sir.ValueId, Val>) {
    forall v :: v in Uses(i) && v in vals ==> v in mvals && mvals[v] == vals[v]
  }

  predicate Straightforward(i: Sir.Insn) {
    !i.Load? && !i.Store? && !i.VarDef?
  }

  lemma OperandsAgree(i: Sir.Insn, vals: map<Sir.ValueId, Val>, mvals: map<Sir.ValueId, Val>, ids: seq<Sir.ValueId>)
    requires Agree(i, vals, mvals) && Sir.Operands(vals, ids).Some?
    requires forall v :: v in ids ==> v in Uses(i)
    ensures Sir.Operands(mvals, ids) == Sir.Operands(vals, ids)
  {
    hide Uses;
    forall k | 0 <= k < |ids| ensures ids[k] in mvals && mvals[ids[k]] == vals[ids[k]] {
      assert ids[k] in ids;
    }
    assert Sir.Operands(mvals, ids).value == Sir.Operands(vals, ids).value;
  }

  /** An instruction only depends on its operands. */
  lemma StraightAgree(ops: Sir.Ops, params: seq<Symbol>, i: Sir.Insn, f: Sir.Frame, g: Sir.Frame, heap: Heap)
    requires Straightforward(i) && Agree(i, f.vals, g.vals)
    requires Sir.Straight(ops, params, i, f, heap).Some?
    ensures Sir.Straight(ops, params, i, g, heap).Some?
    ensures var (f', h) := Sir.Straight(ops, params, i, f, heap).value;
      var (g', h') := Sir.Straight(ops, params, i, g, heap).value;
      && h == h' && f'.locals == f.locals && f'.fn == f.fn
      && match Sir.Defines(i)
         case None => f'.vals == f.vals
         case Some(d) => d in g'.vals && f'.vals == f.vals[d := g'.vals[d]]
  {
    if i.Construct? {
      OperandsAgree(i, f.vals, g.vals, i.fields);
    }
  }

  lemma WriteVal(u: Compiled, vals: map<Sir.ValueId, Val>, mvals: map<Sir.ValueId, Val>, d: Sir.ValueId, x: Val)
    requires MatchVals(u, vals, mvals)
    ensures MatchVals(u, vals[d := x], mvals[d := x])
    ensures BoundBy(u, |u.f.body|, d).Some? ==> MatchVals(u, vals[d := x], mvals)
  {
  }

  lemma WriteLocal(u: Compiled, locals: map<Symbol, Val>, slots: map<Symbol, Val>, regs: Regs, name: Symbol, x: Val)
    requires MatchLocals(u, locals, slots, regs) && PlanSound(u.plan)
    ensures match RegOf(u.plan, name)
      case Some(r) => MatchLocals(u, locals[name := x], slots, regs[r := x])
      case None => MatchLocals(u, locals[name := x], slots[name := x], regs)
  {
    hide Claimed;
  }

  lemma PromotedIsBound(u: Compiled, j: nat)
    requires j < |u.f.body| && Promoted(u, j)
    ensures BoundBy(u, |u.f.body|, u.f.body[j].dst).Some?
  {
  }

  /** Only saved registers differ, so a return would undo the difference. */
  ghost predicate Keeps(saved: Regs, regs: Regs, regs': Regs) {
    regs'.Keys == regs.Keys && regs' + saved == regs + saved
  }

  /** What one plain instruction does to a matched frame. */
  ghost predicate PlainMatch(u: Compiled, ops: Sir.Ops, sf: Sir.Frame, mf: Frame, regs: Regs, heap: Heap)
    requires mf.pc == sf.pc < |u.f.body|
    requires Sir.Straight(ops, u.f.params, u.f.body[sf.pc], sf, heap).Some?
  {
    var out := Plain(u, ops, mf, regs, heap);
    && out.Some?
    && var (sf', h) := Sir.Straight(ops, u.f.params, u.f.body[sf.pc], sf, heap).value;
      var (mf', regs', h') := out.value;
      && h == h' && mf'.saved == mf.saved && sf'.fn == sf.fn && mf'.fn == mf.fn
      && MatchVals(u, sf'.vals, mf'.vals) && MatchLocals(u, sf'.locals, mf'.slots, regs')
      && Keeps(mf.saved, regs, regs')
  }

  lemma OtherFrame(u: Compiled, ops: Sir.Ops, sf: Sir.Frame, mf: Frame, regs: Regs, heap: Heap)
    requires MatchVals(u, sf.vals, mf.vals) && MatchLocals(u, sf.locals, mf.slots, regs)
    requires mf.fn == sf.fn && mf.pc == sf.pc < |u.f.body| && Straightforward(u.f.body[sf.pc])
    requires Agree(u.f.body[sf.pc], sf.vals, Operands(u, sf.pc, mf, regs))
    requires Sir.Straight(ops, u.f.params, u.f.body[sf.pc], sf, heap).Some?
    ensures PlainMatch(u, ops, sf, mf, regs, heap)
  {
    hide MatchVals, MatchLocals, Operands, Agree, Sir.Straight, Uses;
    var i := u.f.body[sf.pc];
    var g := Sir.Frame(mf.fn, mf.pc, Operands(u, sf.pc, mf, regs), map[]);
    StraightAgree(ops, u.f.params, i, sf, g, heap);
    if Sir.Defines(i).Some? {
      WriteVal(u, sf.vals, mf.vals, Sir.Defines(i).value,
        Sir.Straight(ops, u.f.params, i, g, heap).value.0.vals[Sir.Defines(i).value]);
    }
  }

  /** One plain instruction keeps a frame matched. */
  lemma PlainFrame(u: Compiled, ops: Sir.Ops, sf: Sir.Frame, mf: Frame, regs: Regs, heap: Heap)
    requires WellFormed(u) && MatchFrame(u, sf, mf, regs) && sf.pc < |u.f.body| && UseCurrent(u, sf)
    requires Sir.Straight(ops, u.f.params, u.f.body[sf.pc], sf, heap).Some?
    ensures mf.pc == sf.pc && PlainMatch(u, ops, sf, mf, regs, heap)
  {
    hide WellFormed, MatchFrame, UseCurrent, MatchVals, MatchLocals, Operands, Agree, Plain, PlainMatch, Claimed;
    FrameFacts(u, sf, mf, regs);
    match u.f.body[sf.pc]
    case Load(_, _) => LoadFrame(u, ops, sf, mf, regs, heap);
    case Store(_, _) => StoreFrame(u, ops, sf, mf, regs, heap);
    case VarDef(_, _) => DeclareFrame(u, ops, sf, mf, regs, heap);
    case _ =>
      ReadOperands(u, sf, mf, regs);
      OtherFrame(u, ops, sf, mf, regs, heap);
  }

  lemma DeclareFrame(u: Compiled, ops: Sir.Ops, sf: Sir.Frame, mf: Frame, regs: Regs, heap: Heap)
    requires MatchFrame(u, sf, mf, regs) && sf.pc < |u.f.body| && u.f.body[sf.pc].VarDef?
    requires Sir.Straight(ops, u.f.params, u.f.body[sf.pc], sf, heap).Some?
    ensures mf.pc == sf.pc && PlainMatch(u, ops, sf, mf, regs, heap)
  {
    hide MatchVals, MatchLocals, Operands, Claimed;
  }

  lemma FrameFacts(u: Compiled, sf: Sir.Frame, mf: Frame, regs: Regs)
    requires MatchFrame(u, sf, mf, regs)
    ensures mf.fn == sf.fn && mf.pc == sf.pc && sf.pc <= |u.f.body| && mf.saved.Keys == Claimed(u.plan)
    ensures mf.saved.Keys <= regs.Keys
    ensures MatchVals(u, sf.vals, mf.vals) && MatchLocals(u, sf.locals, mf.slots, regs)
  {
    hide MatchVals, MatchLocals, Claimed;
  }

  lemma LoadFrame(u: Compiled, ops: Sir.Ops, sf: Sir.Frame, mf: Frame, regs: Regs, heap: Heap)
    requires WellFormed(u) && MatchFrame(u, sf, mf, regs) && sf.pc < |u.f.body| && u.f.body[sf.pc].Load?
    requires Sir.Straight(ops, u.f.params, u.f.body[sf.pc], sf, heap).Some?
    ensures mf.pc == sf.pc && PlainMatch(u, ops, sf, mf, regs, heap)
  {
    hide MatchVals, Claimed, Operands, Uses, PlanSound, BoundBy;
    var (dst, src) := (u.f.body[sf.pc].dst, u.f.body[sf.pc].src);
    SourceRegName(u, src);
    var x := sf.locals[Sir.SourceName(u.f.params, src).value];
    WriteVal(u, sf.vals, mf.vals, dst, x);
    if SourceReg(u, src).Some? {
      PromotedIsBound(u, sf.pc);
    }
  }

  lemma StoreFrame(u: Compiled, ops: Sir.Ops, sf: Sir.Frame, mf: Frame, regs: Regs, heap: Heap)
    requires WellFormed(u) && MatchFrame(u, sf, mf, regs) && sf.pc < |u.f.body| && u.f.body[sf.pc].Store?
    requires UseCurrent(u, sf)
    requires Sir.Straight(ops, u.f.params, u.f.body[sf.pc], sf, heap).Some?
    ensures mf.pc == sf.pc && PlainMatch(u, ops, sf, mf, regs, heap)
  {
    hide WellFormed, MatchFrame, MatchVals, MatchLocals, Claimed, Operands, BoundBy, UseCurrent, RegOf, PlanSound;
    ReadOperands(u, sf, mf, regs);
    FrameFacts(u, sf, mf, regs);
    Sound(u);
    var (name, v) := (u.f.body[sf.pc].name, u.f.body[sf.pc].value);
    assert v in Uses(u.f.body[sf.pc]);
    WriteLocal(u, sf.locals, mf.slots, regs, name, sf.vals[v]);
    if RegOf(u.plan, name).Some? {
      ClaimedReg(u.plan, name);
    }
  }

  lemma Sound(u: Compiled)
    requires WellFormed(u)
    ensures PlanSound(u.plan)
  {
    hide PlanSound;
  }

  lemma ClaimedReg(plan: Plan, s: Symbol)
    requires PlanSound(plan) && RegOf(plan, s).Some?
    ensures RegOf(plan, s).value in Claimed(plan)
  {
    hide RegOf, Claimed;
  }

  // --- Steps ---------------------------------------------------------------

  lemma MatchTop(p: Program, s: Sir.State, t: State, regs0: Regs)
    requires Match(p, s, t, regs0) && s.Run? && s.frames != []
    ensures t.Run? && t.heap == s.heap && |t.frames| == |s.frames| && s.frames[0].fn in p
    ensures MatchFrame(p[s.frames[0].fn], s.frames[0], t.frames[0], t.regs)
    ensures MatchAll(p, s.frames[1..], t.frames[1..], t.regs + t.frames[0].saved, regs0)
    ensures t.regs.Keys == regs0.Keys
  {
    hide MatchFrame;
  }

  /** Replacing the running frame keeps the states matched if only saved registers changed. */
  lemma Replace(p: Program, s: Sir.State, t: State, regs0: Regs, sf: Sir.Frame, mf: Frame, regs: Regs, heap: Heap)
    requires Match(p, s, t, regs0) && s.Run? && s.frames != []
    requires t.Run? && t.frames != [] && mf.saved == t.frames[0].saved && Keeps(mf.saved, t.regs, regs)
    requires sf.fn in p && MatchFrame(p[sf.fn], sf, mf, regs)
    ensures Match(p, Sir.Run([sf] + s.frames[1..], heap), Run([mf] + t.frames[1..], regs, heap), regs0)
  {
    hide MatchFrame;
    assert ([sf] + s.frames[1..])[1..] == s.frames[1..];
    assert ([mf] + t.frames[1..])[1..] == t.frames[1..];
  }

  lemma MoveFrame(u: Compiled, sf: Sir.Frame, mf: Frame, regs: Regs, sf': Sir.Frame, mf': Frame, regs': Regs)
    requires MatchFrame(u, sf, mf, regs) && regs'.Keys == regs.Keys
    requires sf'.fn == sf.fn && mf'.fn == mf.fn && mf'.saved == mf.saved && mf'.pc == sf'.pc <= |u.f.body|
    requires MatchVals(u, sf'.vals, mf'.vals) && MatchLocals(u, sf'.locals, mf'.slots, regs')
    ensures MatchFrame(u, sf', mf', regs')
  {
    hide MatchVals, MatchLocals, Claimed;
  }

  /** A matched pair of running states whose next step succeeds with current operands. */
  ghost predicate Active(p: Program, ops: Sir.Ops, s: Sir.State, t: State, regs0: Regs) {
    && AllWellFormed(p) && HasRegs(p, regs0) && Match(p, s, t, regs0) && s.Run? && s.frames != []
    && s.frames[0].fn in p && s.frames[0].pc < |p[s.frames[0].fn].f.body|
    && Sir.Step(Source(p), ops, s) != Sir.Fault
    && UseCurrent(p[s.frames[0].fn], s.frames[0])
  }

  function Next(p: Program, s: Sir.State): Sir.Insn
    requires s.Run? && s.frames != [] && s.frames[0].fn in p && s.frames[0].pc < |p[s.frames[0].fn].f.body|
  {
    p[s.frames[0].fn].f.body[s.frames[0].pc]
  }

  lemma ActiveFrame(p: Program, ops: Sir.Ops, s: Sir.State, t: State, regs0: Regs)
    requires Active(p, ops, s, t, regs0)
    ensures s.Run? && s.frames != [] && t.Run? && t.heap == s.heap && |t.frames| == |s.frames|
    ensures var sf, mf := s.frames[0], t.frames[0];
      && sf.fn in p && mf.fn == sf.fn && mf.pc == sf.pc && sf.pc < |p[sf.fn].f.body|
      && WellFormed(p[sf.fn]) && MatchFrame(p[sf.fn], sf, mf, t.regs) && UseCurrent(p[sf.fn], sf)
      && Agree(p[sf.fn].f.body[sf.pc], sf.vals, Operands(p[sf.fn], sf.pc, mf, t.regs))
    ensures Match(p, s, t, regs0) && Sir.Step(Source(p), ops, s) != Sir.Fault && AllWellFormed(p) && HasRegs(p, regs0)
    ensures s.frames[0].fn in Source(p) && Source(p)[s.frames[0].fn] == p[s.frames[0].fn].f
  {
    hide MatchFrame, Match, WellFormed, UseCurrent, Agree, Operands, Sir.Step, HasRegs;
    MatchTop(p, s, t, regs0);
    FrameFacts(p[s.frames[0].fn], s.frames[0], t.frames[0], t.regs);
    ReadOperands(p[s.frames[0].fn], s.frames[0], t.frames[0], t.regs);
  }

  lemma SirPlain(p: Sir.Program, ops: Sir.Ops, s: Sir.State)
    requires s.Run? && s.frames != [] && s.frames[0].fn in p && s.frames[0].pc < |p[s.frames[0].fn].body|
    requires !Sir.Control(p[s.frames[0].fn].body[s.frames[0].pc]) && Sir.Step(p, ops, s) != Sir.Fault
    ensures var sf := s.frames[0];
      var out := Sir.Straight(ops, p[sf.fn].params, p[sf.fn].body[sf.pc], sf, s.heap);
      out.Some? && Sir.Step(p, ops, s) == Sir.Run([out.value.0.(pc := sf.pc + 1)] + s.frames[1..], out.value.1)
  {
    hide Sir.Straight;
  }

  lemma PlainStep(p: Program, ops: Sir.Ops, s: Sir.State, t: State, regs0: Regs)
    requires Active(p, ops, s, t, regs0) && !Sir.Control(Next(p, s))
    ensures Match(p, Sir.Step(Source(p), ops, s), Step(p, ops, t), regs0)
  {
    hide Active, AllWellFormed, Match, MatchFrame, MatchVals, MatchLocals, WellFormed, UseCurrent, Agree, Operands;
    hide Source, Plain, Sir.Straight, Sir.Step, Keeps;
    ActiveFrame(p, ops, s, t, regs0);
    var sf, mf := s.frames[0], t.frames[0];
    var u := p[sf.fn];
    SirPlain(Source(p), ops, s);
    PlainFrame(u, ops, sf, mf, t.regs, s.heap);
    var sf' := Sir.Straight(ops, u.f.params, u.f.body[sf.pc], sf, s.heap).value.0.(pc := sf.pc + 1);
    var (mf', regs', heap') := Plain(u, ops, mf, t.regs, s.heap).value;
    KeepsKeys(mf.saved, t.regs, regs');
    MoveFrame(u, sf, mf, t.regs, sf', mf'.(pc := mf.pc + 1), regs');
    Replace(p, s, t, regs0, sf', mf'.(pc := mf.pc + 1), regs', heap');
  }

  lemma KeepsKeys(saved: Regs, regs: Regs, regs': Regs)
    requires Keeps(saved, regs, regs')
    ensures regs'.Keys == regs.Keys
  {
  }

  lemma GoFrame(p: Program, s: Sir.State, t: State, regs0: Regs, pc: nat)
    requires Match(p, s, t, regs0) && s.Run? && s.frames != []
    requires s.frames[0].fn in p && pc <= |p[s.frames[0].fn].f.body|
    ensures t.Run? && t.frames != [] && t.heap == s.heap
    ensures Match(p, Sir.Run([s.frames[0].(pc := pc)] + s.frames[1..], s.heap),
                  Run([t.frames[0].(pc := pc)] + t.frames[1..], t.regs, t.heap), regs0)
  {
    hide Match, MatchFrame, MatchVals, MatchLocals, MatchAll, Claimed;
    MatchTop(p, s, t, regs0);
    var sf, mf := s.frames[0], t.frames[0];
    FrameFacts(p[sf.fn], sf, mf, t.regs);
    MoveFrame(p[sf.fn], sf, mf, t.regs, sf.(pc := pc), mf.(pc := pc), t.regs);
    Replace(p, s, t, regs0, sf.(pc := pc), mf.(pc := pc), t.regs, s.heap);
  }

  /** Jumps and branches: the condition is read the same, so the same way is taken. */
  lemma JumpStep(p: Program, ops: Sir.Ops, s: Sir.State, t: State, regs0: Regs)
    requires Active(p, ops, s, t, regs0) && (Next(p, s).Jump? || Next(p, s).BranchIfNot?)
    ensures Match(p, Sir.Step(Source(p), ops, s), Step(p, ops, t), regs0)
  {
    hide Active, AllWellFormed, Match, MatchFrame, MatchVals, MatchLocals, WellFormed, UseCurrent, Operands, Source;
    hide HasRegs, Sir.LabelIndex;
    ActiveFrame(p, ops, s, t, regs0);
    var sf, mf := s.frames[0], t.frames[0];
    var insn := p[sf.fn].f.body[sf.pc];
    if insn.BranchIfNot? {
      assert insn.cond in Uses(insn);
    }
    var target := Sir.LabelIndex(p[sf.fn].f.body, insn.target);
    if target.Some? {
      GoFrame(p, s, t, regs0, target.value);
    }
    GoFrame(p, s, t, regs0, sf.pc + 1);
  }

  lemma ResumeFrame(u: Compiled, sf: Sir.Frame, mf: Frame, regs: Regs, value: Val)
    requires MatchFrame(u, sf, mf, regs) && sf.pc < |u.f.body| && u.f.body[sf.pc].Call?
    ensures var dst := u.f.body[sf.pc].dst;
      MatchFrame(u, Sir.SetVal(sf, dst, value).(pc := sf.pc + 1), mf.(vals := mf.vals[dst := value], pc := mf.pc + 1),
        regs)
  {
    hide MatchVals, MatchLocals, Claimed;
    WriteVal(u, sf.vals, mf.vals, u.f.body[sf.pc].dst, value);
  }

  /** A return: the caller finds its registers as it left them. */
  lemma LeaveSim(p: Program, sfs: seq<Sir.Frame>, mfs: seq<Frame>, regs: Regs, regs0: Regs, value: Val, heap: Heap)
    requires sfs != [] && mfs != [] && MatchAll(p, sfs[1..], mfs[1..], regs + mfs[0].saved, regs0)
    requires Sir.Resume(Source(p), sfs[1..], value, heap) != Sir.Fault
    ensures Match(p, Sir.Resume(Source(p), sfs[1..], value, heap), Leave(p, mfs, regs, value, heap), regs0)
  {
    hide MatchFrame, Claimed;
    var callers, mcallers, restored := sfs[1..], mfs[1..], regs + mfs[0].saved;
    if callers != [] {
      var sf, mf := callers[0], mcallers[0];
      FrameFacts(p[sf.fn], sf, mf, restored);
      ResumeFrame(p[sf.fn], sf, mf, restored, value);
      var dst := p[sf.fn].f.body[sf.pc].dst;
      KeepsSame(mf.saved, restored);
      Replace(p, Sir.Run(callers, heap), Run(mcallers, restored, heap), regs0,
        Sir.SetVal(sf, dst, value).(pc := sf.pc + 1), mf.(vals := mf.vals[dst := value], pc := mf.pc + 1),
        restored, heap);
    }
  }

  lemma KeepsSame(saved: Regs, regs: Regs)
    ensures Keeps(saved, regs, regs)
  {
  }

  lemma ReturnStep(p: Program, ops: Sir.Ops, s: Sir.State, t: State, regs0: Regs)
    requires Active(p, ops, s, t, regs0) && Next(p, s).Return?
    ensures Match(p, Sir.Step(Source(p), ops, s), Step(p, ops, t), regs0)
  {
    hide Active, AllWellFormed, Match, MatchAll, MatchFrame, MatchVals, MatchLocals, WellFormed, UseCurrent, Operands;
    hide Source, HasRegs, Leave, Sir.Resume;
    ActiveFrame(p, ops, s, t, regs0);
    MatchTop(p, s, t, regs0);
    var sf := s.frames[0];
    var result := p[sf.fn].f.body[sf.pc].result;
    if result.Some? {
      assert result.value in Uses(p[sf.fn].f.body[sf.pc]);
    }
    var value := if result.Some? then sf.vals[result.value] else Sir.Unit;
    LeaveSim(p, s.frames, t.frames, t.regs, regs0, value, s.heap);
  }

  lemma ParamRegClaimed(u: Compiled, i: nat)
    requires WellFormed(u) && i < |u.f.params|
    ensures ParamReg(u, i) == RegOf(u.plan, u.f.params[i])
    ensures ParamReg(u, i).Some? ==> ParamReg(u, i).value in Claimed(u.plan)
  {
    hide Claimed, UsesDefined, Sir.SingleDefs;
  }

  lemma RegsDistinct(u: Compiled, i: nat, j: nat)
    requires WellFormed(u) && i < j < |u.f.params| && ParamReg(u, i).Some?
    ensures ParamReg(u, i) != ParamReg(u, j)
  {
    hide Claimed, UsesDefined, Sir.SingleDefs, ParamReg, RegOf;
    ParamRegClaimed(u, i);
    ParamRegClaimed(u, j);
  }

  lemma {:induction false} PromotedParams(u: Compiled, args: seq<Val>, regs: Regs, n: nat)
    requires WellFormed(u) && n <= |args| == |u.f.params| && Claimed(u.plan) <= regs.Keys
    ensures var after := PromoteParams(u, args, regs, n);
      && after.Keys == regs.Keys
      && (forall r :: r in regs && r !in Claimed(u.plan) ==> after[r] == regs[r])
      && (forall i :: 0 <= i < n && ParamReg(u, i).Some? ==>
        ParamReg(u, i).value in after && after[ParamReg(u, i).value] == args[i])
  {
    hide WellFormed, Claimed, ParamReg;
    if n > 0 {
      PromotedParams(u, args, regs, n - 1);
      ParamRegClaimed(u, n - 1);
      forall i | 0 <= i < n - 1 && ParamReg(u, i).Some? ensures ParamReg(u, i) != ParamReg(u, n - 1) {
        RegsDistinct(u, i, n - 1);
      }
    }
  }

  /** Entering a function: its parameters are where their plan says, and its save area undoes the
      prologue. */
  lemma EnterFrame(fn: Symbol, u: Compiled, args: seq<Val>, regs: Regs)
    requires WellFormed(u) && |args| == |u.f.params| && Claimed(u.plan) <= regs.Keys
    ensures var (g, after) := Enter(fn, u, args, regs);
      MatchFrame(u, Sir.Enter(fn, u.f.params, args), g, after) && after + g.saved == regs
  {
    hide Claimed, PromoteParams, WellFormed, ParamReg, RegOf, BoundBy, Sir.Distinct, Get;
    SavedNow(fn, u, args, regs);
    PromotedParams(u, args, regs, |args|);
    DistinctParams(u);
    var (g, after) := Enter(fn, u, args, regs);
    var locals := Sir.BindParams(u.f.params, args);
    forall s | s in locals
      ensures match RegOf(u.plan, s) case Some(r) => r in after && after[r] == locals[s] case None => true
    {
      var i :| 0 <= i < |u.f.params| && u.f.params[i] == s;
      ParamRegClaimed(u, i);
    }
  }

  lemma SavedNow(fn: Symbol, u: Compiled, args: seq<Val>, regs: Regs)
    requires |args| == |u.f.params| && Claimed(u.plan) <= regs.Keys
    ensures var g := Enter(fn, u, args, regs).0;
      g.saved.Keys == Claimed(u.plan) && forall r :: r in g.saved ==> g.saved[r] == regs[r]
  {
    hide Claimed, PromoteParams;
  }

  lemma DistinctParams(u: Compiled)
    requires WellFormed(u)
    ensures Sir.Distinct(u.f.params)
  {
  }

  lemma CalleeFrame(p: Program, ops: Sir.Ops, name: Symbol, args: seq<Val>, regs: Regs, regs0: Regs)
    requires AllWellFormed(p) && HasRegs(p, regs0) && regs.Keys == regs0.Keys
    requires name in p && |args| == |p[name].f.params|
    ensures var (g, after) := Enter(name, p[name], args, regs);
      && MatchFrame(p[name], Sir.Enter(name, p[name].f.params, args), g, after)
      && after + g.saved == regs && after.Keys == regs0.Keys
  {
    hide WellFormed, MatchFrame, Claimed;
    EnterFrame(name, p[name], args, regs);
    PromotedParams(p[name], args, regs, |args|);
  }

  lemma CallStep(p: Program, ops: Sir.Ops, s: Sir.State, t: State, regs0: Regs)
    requires Active(p, ops, s, t, regs0) && Next(p, s).Call?
    ensures Match(p, Sir.Step(Source(p), ops, s), Step(p, ops, t), regs0)
  {
    hide Active, AllWellFormed, MatchFrame, MatchVals, MatchLocals, WellFormed, UseCurrent, Operands, HasRegs, Enter;
    hide Sir.Enter, Sir.Operands, Agree;
    ActiveFrame(p, ops, s, t, regs0);
    MatchTop(p, s, t, regs0);
    var sf, mf := s.frames[0], t.frames[0];
    var insn := p[sf.fn].f.body[sf.pc];
    var vs := Sir.Operands(sf.vals, insn.args);
    OperandsAgree(insn, sf.vals, Operands(p[sf.fn], sf.pc, mf, t.regs), insn.args);
    CalleeFrame(p, ops, insn.name, vs.value, t.regs, regs0);
    var (g, after) := Enter(insn.name, p[insn.name], vs.value, t.regs);
    var callee := Sir.Enter(insn.name, p[insn.name].f.params, vs.value);
    EnterFn(insn.name, p[insn.name], vs.value, t.regs);
    assert [callee, sf] + s.frames[1..] == [callee] + s.frames && ([callee] + s.frames)[1..] == s.frames;
    assert [g, mf] + t.frames[1..] == [g] + t.frames && ([g] + t.frames)[1..] == t.frames;
  }

  lemma EnterFn(fn: Symbol, u: Compiled, args: seq<Val>, regs: Regs)
    requires |args| == |u.f.params|
    ensures Sir.Enter(fn, u.f.params, args).fn == fn
  {
  }

  // --- Whole runs ----------------------------------------------------------

  lemma IsActive(p: Program, ops: Sir.Ops, s: Sir.State, t: State, regs0: Regs)
    requires AllWellFormed(p) && HasRegs(p, regs0) && Match(p, s, t, regs0) && s.Run?
    requires Sir.Step(Source(p), ops, s) != Sir.Fault && CurrentState(p, s)
    ensures Active(p, ops, s, t, regs0)
  {
    hide AllWellFormed, HasRegs, Match, UseCurrent, Sir.Straight;
  }

  /** In a running state, the bound operands of the next instruction equal their locals. */
  ghost predicate CurrentState(p: Program, s: Sir.State) {
    s.Run? && s.frames != [] && s.frames[0].fn in p ==> UseCurrent(p[s.frames[0].fn], s.frames[0])
  }

  /** The two programs move in step. */
  lemma SimulateStep(p: Program, ops: Sir.Ops, s: Sir.State, t: State, regs0: Regs)
    requires AllWellFormed(p) && HasRegs(p, regs0) && Match(p, s, t, regs0)
    requires Sir.Step(Source(p), ops, s) != Sir.Fault && CurrentState(p, s)
    ensures Match(p, Sir.Step(Source(p), ops, s), Step(p, ops, t), regs0)
  {
    hide AllWellFormed, HasRegs, MatchAll, Active, CurrentState, Source;
    if s.Run? {
      IsActive(p, ops, s, t, regs0);
      ActiveFrame(p, ops, s, t, regs0);
      hide Match, Sir.Step, Step;
      match Next(p, s)
      case Jump(_) => JumpStep(p, ops, s, t, regs0);
      case BranchIfNot(_, _) => JumpStep(p, ops, s, t, regs0);
      case Return(_) => ReturnStep(p, ops, s, t, regs0);
      case Call(_, _, _) => CallStep(p, ops, s, t, regs0);
      case _ => PlainStep(p, ops, s, t, regs0);
    }
  }

  /** Promotion preserves every run, recursive calls included, in which each loaded value is used
      only while its local still holds it: after every step the promoted program is where the
      memory version is, with the same heap, and when the call returns it returns the same value
      and every callee-saved register is as the caller left it. */
  lemma {:induction false} PromotionPreserves(p: Program, ops: Sir.Ops, fn: Symbol, args: seq<Val>, regs0: Regs,
                                              heap: Heap, n: nat)
    requires AllWellFormed(p) && HasRegs(p, regs0)
    requires fn in p && |args| == |p[fn].f.params|
    requires Sir.Steps(Source(p), ops, Sir.Start(Source(p), fn, args, heap), n) != Sir.Fault
    requires forall k: nat :: k < n ==>
      CurrentState(p, Sir.Steps(Source(p), ops, Sir.Start(Source(p), fn, args, heap), k))
    ensures Match(p, Sir.Steps(Source(p), ops, Sir.Start(Source(p), fn, args, heap), n),
                  Steps(p, ops, Start(p, fn, args, regs0, heap), n), regs0)
  {
    hide AllWellFormed, HasRegs, Match, CurrentState, Sir.Step, Step, Sir.Start, Start, Source;
    var s := Sir.Start(Source(p), fn, args, heap);
    if n == 0 {
      StartMatches(p, ops, fn, args, regs0, heap);
    } else {
      Sir.FaultStays(Source(p), ops, Sir.Steps(Source(p), ops, s, n - 1));
      PromotionPreserves(p, ops, fn, args, regs0, heap, n - 1);
      SimulateStep(p, ops, Sir.Steps(Source(p), ops, s, n - 1), Steps(p, ops, Start(p, fn, args, regs0, heap), n - 1),
        regs0);
    }
  }

  lemma StartMatches(p: Program, ops: Sir.Ops, fn: Symbol, args: seq<Val>, regs0: Regs, heap: Heap)
    requires AllWellFormed(p) && HasRegs(p, regs0) && fn in p && |args| == |p[fn].f.params|
    ensures Match(p, Sir.Start(Source(p), fn, args, heap), Start(p, fn, args, regs0, heap), regs0)
  {
    hide AllWellFormed, HasRegs, MatchFrame, Enter, Sir.Enter;
    CalleeFrame(p, ops, fn, args, regs0, regs0);
    EnterFn(fn, p[fn], args, regs0);
    var (g, after) := Enter(fn, p[fn], args, regs0);
    var f := Sir.Enter(fn, p[fn].f.params, args);
    assert MatchAll(p, [f][1..], [g][1..], after + g.saved, regs0);
    assert MatchAll(p, [f], [g], after, regs0);
    assert Sir.Start(Source(p), fn, args, heap) == Sir.Run([f], heap);
  }
}
