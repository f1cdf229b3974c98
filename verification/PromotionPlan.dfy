/** Choosing which locals live in callee-saved registers: loop depth by a difference array, a
    loop-weighted score per local, and the best-scoring locals of each bank in register order. */
module PromotionPlan {
  import opened Wrappers
  import Sir

  type Symbol = Sir.Symbol

  // --- Loop depth ----------------------------------------------------------

  /** The last position of a label among the first `n` instructions. */
  function LastLabel(body: seq<Sir.Insn>, n: nat, id: Sir.LabelId): (r: Option<nat>)
    requires n <= |body|
    ensures r.Some? ==> r.value < n && body[r.value] == Sir.Label(id)
  {
    if n == 0 then None
    else if body[n - 1] == Sir.Label(id) then Some(n - 1)
    else LastLabel(body, n - 1, id)
  }

  /** The jump at `j` goes back to a label at or before it. */
  predicate BackEdge(body: seq<Sir.Insn>, j: nat)
    requires j < |body|
  {
    body[j].Jump? && LastLabel(body, |body|, body[j].target).Some? && LastLabel(body, |body|, body[j].target).value <= j
  }

  function LoopStart(body: seq<Sir.Insn>, j: nat): nat
    requires j < |body| && BackEdge(body, j)
  {
    LastLabel(body, |body|, body[j].target).value
  }

  /** Position `i` lies between the label and the jump of back-edge `j`. */
  predicate Covers(body: seq<Sir.Insn>, j: nat, i: nat)
    requires j < |body|
  {
    BackEdge(body, j) && LoopStart(body, j) <= i <= j
  }

  /** The back-edges among the first `n` instructions that cover `i`. */
  function Covering(body: seq<Sir.Insn>, n: nat, i: nat): set<nat>
    requires n <= |body|
  {
    set j: nat | j < n && Covers(body, j, i)
  }

  /** Loop depth: how many back-edges cover a position. */
  function Depth(body: seq<Sir.Insn>, i: nat): nat {
    |Covering(body, |body|, i)|
  }

  function Sum(s: seq<int>): int {
    if s == [] then 0 else Sum(s[..|s| - 1]) + s[|s| - 1]
  }

  lemma SumUpdate(s: seq<int>, k: nat, d: int, m: nat)
    requires k < |s| && m <= |s|
    ensures Sum(s[k := s[k] + d][..m]) == Sum(s[..m]) + if k < m then d else 0
  {
    var u := s[k := s[k] + d];
    if m > 0 {
      SumUpdate(s, k, d, m - 1);
      assert s[..m][..m - 1] == s[..m - 1] && u[..m][..m - 1] == u[..m - 1];
    }
  }

  /** The difference array after the first `n` instructions: +1 where a loop begins, -1 just past
      its jump. */
  function Delta(body: seq<Sir.Insn>, n: nat): (d: seq<int>)
    requires n <= |body|
    ensures |d| == |body| + 1
  {
    if n == 0 then seq(|body| + 1, _ => 0)
    else if BackEdge(body, n - 1) then
      var d, k := Delta(body, n - 1), LoopStart(body, n - 1);
      var e := d[k := d[k] + 1];
      e[n := e[n] - 1]
    else Delta(body, n - 1)
  }

  lemma SumZeros(n: nat, m: nat)
    requires m <= n
    ensures Sum(seq(n, _ => 0)[..m]) == 0
  {
    if m > 0 {
      SumZeros(n, m - 1);
      assert seq(n, _ => 0)[..m][..m - 1] == seq(n, _ => 0)[..m - 1];
    }
  }

  lemma CoveringStep(body: seq<Sir.Insn>, n: nat, i: nat)
    requires n < |body|
    ensures |Covering(body, n + 1, i)| == |Covering(body, n, i)| + if Covers(body, n, i) then 1 else 0
  {
    hide Covers;
    var before := Covering(body, n, i);
    assert n !in before;
    assert Covering(body, n + 1, i) == if Covers(body, n, i) then before + {n} else before;
  }

  lemma DeltaStep(body: seq<Sir.Insn>, n: nat, i: nat)
    requires n < |body| && i < |body|
    ensures Sum(Delta(body, n + 1)[..i + 1]) == Sum(Delta(body, n)[..i + 1]) + if Covers(body, n, i) then 1 else 0
  {
    hide Sum;
    if BackEdge(body, n) {
      var d, k := Delta(body, n), LoopStart(body, n);
      SumUpdate(d, k, 1, i + 1);
      SumUpdate(d[k := d[k] + 1], n + 1, -1, i + 1);
    }
  }

  /** The running sum is the number of covering back-edges: it is never negative, so clamping it
      at zero changes nothing. */
  lemma {:induction false} RunningSum(body: seq<Sir.Insn>, n: nat, i: nat)
    requires n <= |body| && i < |body|
    ensures Sum(Delta(body, n)[..i + 1]) == |Covering(body, n, i)|
  {
    hide Covering, Sum, Covers;
    if n == 0 {
      SumZeros(|body| + 1, i + 1);
      NothingCovers(body, i);
    } else {
      RunningSum(body, n - 1, i);
      CoveringStep(body, n - 1, i);
      DeltaStep(body, n - 1, i);
    }
  }

  lemma NothingCovers(body: seq<Sir.Insn>, i: nat)
    ensures Covering(body, 0, i) == {}
  {
  }

  function ClampAtZero(n: int): nat {
    if n < 0 then 0 else n
  }

  lemma NoLabel(body: seq<Sir.Insn>)
    ensures forall id :: LastLabel(body, 0, id) == None
  {
  }

  lemma NoDelta(body: seq<Sir.Insn>)
    ensures Delta(body, 0) == seq(|body| + 1, _ => 0)
  {
  }

  lemma NoSum(s: seq<int>)
    ensures Sum(s[..0]) == 0
  {
  }

  lemma SumNext(s: seq<int>, i: nat)
    requires i < |s|
    ensures Sum(s[..i + 1]) == Sum(s[..i]) + s[i]
  {
    assert s[..i + 1][..i] == s[..i];
  }

  lemma LastLabelNext(body: seq<Sir.Insn>, i: nat, labelIdx: map<Sir.LabelId, nat>)
    requires i < |body| && forall id :: LastLabel(body, i, id) == Sir.Lookup(labelIdx, id)
    ensures var next := if body[i].Label? then labelIdx[body[i].id := i] else labelIdx;
      forall id :: LastLabel(body, i + 1, id) == Sir.Lookup(next, id)
  {
    forall id: Sir.LabelId
      ensures LastLabel(body, i + 1, id) == if body[i] == Sir.Label(id) then Some(i) else LastLabel(body, i, id)
    {
    }
    hide LastLabel;
  }

  lemma DeltaNext(body: seq<Sir.Insn>, i: nat, labelIdx: map<Sir.LabelId, nat>)
    requires i < |body| && forall id :: LastLabel(body, |body|, id) == Sir.Lookup(labelIdx, id)
    ensures var back := body[i].Jump? && body[i].target in labelIdx && labelIdx[body[i].target] <= i;
      Delta(body, i + 1) ==
        if back then
          var k, d := labelIdx[body[i].target], Delta(body, i);
          var e := d[k := d[k] + 1];
          e[i + 1 := e[i + 1] - 1]
        else Delta(body, i)
  {
    hide LastLabel;
    if body[i].Jump? {
      assert LastLabel(body, |body|, body[i].target) == Sir.Lookup(labelIdx, body[i].target);
    }
  }

  /** Depth by label map, difference array and running sum. */
  method ComputeLoopDepth(body: seq<Sir.Insn>) returns (depth: array<nat>)
    ensures fresh(depth) && depth.Length == |body|
    ensures forall i :: 0 <= i < |body| ==> depth[i] == Depth(body, i)
  {
    var labelIdx: map<Sir.LabelId, nat> := map[];
    NoLabel(body);
    hide LastLabel, Delta, Sum, Covering;
    for i := 0 to |body|
      invariant forall id :: LastLabel(body, i, id) == Sir.Lookup(labelIdx, id)
    {
      LastLabelNext(body, i, labelIdx);
      if body[i].Label? {
        labelIdx := labelIdx[body[i].id := i];
      }
    }
    var delta := new int[|body| + 1](_ => 0);
    NoDelta(body);
    assert delta[..] == Delta(body, 0);
    for i := 0 to |body|
      invariant delta[..] == Delta(body, i)
    {
      DeltaNext(body, i, labelIdx);
      if body[i].Jump? && body[i].target in labelIdx && labelIdx[body[i].target] <= i {
        delta[labelIdx[body[i].target]] := delta[labelIdx[body[i].target]] + 1;
        delta[i + 1] := delta[i + 1] - 1;
      }
    }
    depth := new nat[|body|];
    var running := 0;
    NoSum(delta[..]);
    for i := 0 to |body|
      invariant running == Sum(delta[..][..i])
      invariant delta[..] == Delta(body, |body|)
      invariant forall k :: 0 <= k < i ==> depth[k] == Depth(body, k)
    {
      SumNext(delta[..], i);
      running := running + delta[i];
      assert delta[..i + 1] == delta[..][..i + 1];
      RunningSum(body, |body|, i);
      depth[i] := ClampAtZero(running);
    }
  }

  // --- Scores and banks ----------------------------------------------------

  datatype LocalKind = GpScalar | Float | Other

  const LOOP_WEIGHT: nat := 16

  /** The local an instruction reads or writes by name. */
  function Accessed(i: Sir.Insn): Option<Symbol> {
    match i
    case Store(name, _) => Some(name)
    case Load(_, Local(s)) => Some(s)
    case _ => None
  }

  /** Loop-weighted accesses to `s` among the first `n` instructions. */
  function Score(body: seq<Sir.Insn>, n: nat, s: Symbol): nat
    requires n <= |body|
  {
    if n == 0 then 0
    else Score(body, n - 1, s) + if Accessed(body[n - 1]) == Some(s) then 1 + LOOP_WEIGHT * Depth(body, n - 1) else 0
  }

  lemma {:induction false} CoveringBound(body: seq<Sir.Insn>, n: nat, i: nat)
    requires n <= |body|
    ensures |Covering(body, n, i)| <= n
  {
    hide Covers;
    if n == 0 {
      NothingCovers(body, i);
    } else {
      CoveringBound(body, n - 1, i);
      CoveringStep(body, n - 1, i);
    }
  }

  lemma ScoreNext(body: seq<Sir.Insn>, n: nat, s: Symbol)
    requires n < |body|
    ensures Score(body, n + 1, s) <= Score(body, n, s) + 1 + LOOP_WEIGHT * |body|
  {
    hide Covering;
    CoveringBound(body, |body|, n);
    assert n + 1 - 1 == n;
  }

  lemma {:induction false} ScoreLinear(body: seq<Sir.Insn>, n: nat, s: Symbol)
    requires n <= |body|
    ensures Score(body, n, s) <= n * (1 + LOOP_WEIGHT * |body|)
  {
    if n > 0 {
      ScoreLinear(body, n - 1, s);
      ScoreNext(body, n - 1, s);
      hide Score;
      Distribute(n, 1 + LOOP_WEIGHT * |body|);
    }
  }

  lemma Distribute(n: nat, x: nat)
    requires n > 0
    ensures (n - 1) * x + x == n * x
  {
  }

  lemma ProductBound(a: nat, b: nat, c: nat, d: nat)
    requires a <= c && b <= d
    ensures a * b <= c * d
  {
    assert a * b <= a * d;
    assert a * d <= c * d;
  }

  /** Scores are kept in 32 bits; bodies of up to sixteen thousand instructions cannot overflow
      them. */
  lemma ScoreBound(body: seq<Sir.Insn>, s: Symbol)
    requires |body| <= 16000
    ensures Score(body, |body|, s) < 0x1_0000_0000
  {
    hide Score;
    ScoreLinear(body, |body|, s);
    ProductBound(|body|, 1 + LOOP_WEIGHT * |body|, 16000, 1 + 16 * 16000);
  }

  /** The bank of a local after one more store, whose type belongs to `observed`. */
  function Merge(prev: Option<LocalKind>, observed: LocalKind): LocalKind {
    if prev.None? then observed
    else if prev.value == observed && observed != Other then observed
    else Other
  }

  /** `kinds[i]` is the bank of the type stored by instruction `i`. */
  function KindOf(body: seq<Sir.Insn>, kinds: seq<LocalKind>, n: nat, s: Symbol): Option<LocalKind>
    requires n <= |body| == |kinds|
  {
    if n == 0 then None
    else
      var prev := KindOf(body, kinds, n - 1, s);
      if body[n - 1].Store? && body[n - 1].name == s then Some(Merge(prev, kinds[n - 1])) else prev
  }

  ghost predicate StoredIn(body: seq<Sir.Insn>, n: nat, s: Symbol)
    requires n <= |body|
  {
    exists i :: 0 <= i < n && body[i].Store? && body[i].name == s
  }

  /** A local belongs to a bank exactly when it is stored at all and every store is of that bank. */
  lemma {:induction false} KindExact(body: seq<Sir.Insn>, kinds: seq<LocalKind>, n: nat, s: Symbol)
    requires n <= |body| == |kinds|
    ensures KindOf(body, kinds, n, s).None? <==> !StoredIn(body, n, s)
    ensures forall k :: k != Other ==>
      (KindOf(body, kinds, n, s) == Some(k) <==>
       StoredIn(body, n, s) && forall i :: 0 <= i < n && body[i].Store? && body[i].name == s ==> kinds[i] == k)
  {
    if n > 0 {
      KindExact(body, kinds, n - 1, s);
      assert StoredIn(body, n, s) <==> StoredIn(body, n - 1, s) || (body[n - 1].Store? && body[n - 1].name == s);
    }
  }

  // --- Ranking -------------------------------------------------------------

  /** Higher score first; equal scores by symbol. */
  predicate Before(body: seq<Sir.Insn>, a: Symbol, b: Symbol) {
    Score(body, |body|, a) > Score(body, |body|, b) || (Score(body, |body|, a) == Score(body, |body|, b) && a < b)
  }

  function Candidates(body: seq<Sir.Insn>, kinds: seq<LocalKind>, want: LocalKind): set<Symbol>
    requires |body| == |kinds|
  {
    set i | 0 <= i < |body| && body[i].Store? && KindOf(body, kinds, |body|, body[i].name) == Some(want) :: body[i].name
  }

  /** The candidates ahead of `s`. */
  function Ahead(body: seq<Sir.Insn>, cs: set<Symbol>, s: Symbol): set<Symbol> {
    set c | c in cs && Before(body, c, s)
  }

  function Rank(body: seq<Sir.Insn>, cs: set<Symbol>, s: Symbol): nat {
    |Ahead(body, cs, s)|
  }

  /** The `cap` best candidates hold the registers from `first` on, in rank order. */
  ghost predicate IsBank(body: seq<Sir.Insn>, cs: set<Symbol>, first: nat, cap: nat, regs: map<Symbol, nat>,
                         used: seq<nat>) {
    && (forall s :: s in regs <==> s in cs && Rank(body, cs, s) < cap)
    && (forall s :: s in regs ==> regs[s] == first + Rank(body, cs, s))
    && used == seq(if |cs| < cap then |cs| else cap, i => first + i)
  }

  datatype Plan = Plan(regs: map<Symbol, nat>, used: seq<nat>, fregs: map<Symbol, nat>, fpUsed: seq<nat>)

  const FIRST_REG: nat := 19
  const REGS: nat := 10
  const FIRST_FREG: nat := 8
  const FREGS: nat := 8

  ghost predicate IsPlan(body: seq<Sir.Insn>, kinds: seq<LocalKind>, regsSafe: bool, plan: Plan)
    requires |body| == |kinds|
  {
    && IsBank(body, if regsSafe then Candidates(body, kinds, GpScalar) else {}, FIRST_REG, REGS, plan.regs, plan.used)
    && IsBank(body, Candidates(body, kinds, Float), FIRST_FREG, FREGS, plan.fregs, plan.fpUsed)
  }

  /** Being ahead is strict, so ranks tell candidates apart. */
  lemma RankStrict(body: seq<Sir.Insn>, cs: set<Symbol>, a: Symbol, b: Symbol)
    requires a in cs && Before(body, a, b)
    ensures Rank(body, cs, a) < Rank(body, cs, b)
  {
    hide Score;
    var x, y := Ahead(body, cs, a), Ahead(body, cs, b);
    assert a in y && a !in x;
    assert x <= y;
    SubsetSize(x, y - {a});
  }

  lemma SubsetSize<T>(x: set<T>, y: set<T>)
    requires x <= y
    ensures |x| <= |y|
  {
    if x != {} {
      var e :| e in x;
      SubsetSize(x - {e}, y - {e});
    }
  }

  /** A register is never given to two locals, and the registers lie in their bank. */
  lemma BankInjective(body: seq<Sir.Insn>, cs: set<Symbol>, first: nat, cap: nat, regs: map<Symbol, nat>,
                      used: seq<nat>)
    requires IsBank(body, cs, first, cap, regs, used)
    ensures forall a, b :: a in regs && b in regs && a != b ==> regs[a] != regs[b]
    ensures forall s :: s in regs ==> first <= regs[s] < first + cap
    ensures |regs| <= cap && |used| <= cap
  {
    hide Rank;
    forall a, b | a in regs && b in regs && a != b ensures regs[a] != regs[b] {
      if Before(body, a, b) {
        RankStrict(body, cs, a, b);
      } else {
        RankStrict(body, cs, b, a);
      }
    }
    InjectiveSize(regs, first, cap);
  }

  lemma RankBound(body: seq<Sir.Insn>, cs: set<Symbol>, s: Symbol)
    requires s in cs
    ensures Rank(body, cs, s) < |cs|
  {
    hide Score;
    assert Ahead(body, cs, s) <= cs - {s};
    SubsetSize(Ahead(body, cs, s), cs - {s});
  }

  /** A candidate is left in memory only when the bank is full of better ones; every register handed
      out is among those saved. */
  lemma BankTop(body: seq<Sir.Insn>, cs: set<Symbol>, first: nat, cap: nat, regs: map<Symbol, nat>, used: seq<nat>)
    requires IsBank(body, cs, first, cap, regs, used)
    ensures forall s, c :: s in regs && c in cs && c !in regs ==> Before(body, s, c)
    ensures forall c :: c in cs && c !in regs ==> |used| == cap
    ensures forall s :: s in regs ==> regs[s] in used
  {
    hide Rank, Score;
    forall s | s in cs ensures Rank(body, cs, s) < |cs| {
      RankBound(body, cs, s);
    }
    forall s | s in regs ensures regs[s] in used {
      assert used[Rank(body, cs, s)] == regs[s];
    }
    forall s, c | s in regs && c in cs && c !in regs ensures Before(body, s, c) {
      if !Before(body, s, c) {
        RankStrict(body, cs, c, s);
      }
    }
  }

  lemma InjectiveSize(regs: map<Symbol, nat>, first: nat, cap: nat)
    requires forall s :: s in regs ==> first <= regs[s] < first + cap
    requires forall a, b :: a in regs && b in regs && a != b ==> regs[a] != regs[b]
    ensures |regs| <= cap
    decreases cap
  {
    if cap == 0 {
      assert regs == map[];
    } else if exists s :: s in regs && regs[s] == first + cap - 1 {
      var s :| s in regs && regs[s] == first + cap - 1;
      var rest := regs - {s};
      InjectiveSize(rest, first, cap - 1);
      assert regs == rest[s := regs[s]];
    } else {
      InjectiveSize(regs, first, cap - 1);
    }
  }

  /** The contract determines the plan: nothing depends on the order in which a map is walked. */
  lemma PlanUnique(body: seq<Sir.Insn>, kinds: seq<LocalKind>, regsSafe: bool, p: Plan, q: Plan)
    requires |body| == |kinds| && IsPlan(body, kinds, regsSafe, p) && IsPlan(body, kinds, regsSafe, q)
    ensures p == q
  {
    hide Candidates, Rank;
    assert p.regs == q.regs && p.fregs == q.fregs;
  }

  /** The two banks never share a local. */
  lemma BanksDisjoint(body: seq<Sir.Insn>, kinds: seq<LocalKind>, regsSafe: bool, p: Plan)
    requires |body| == |kinds| && IsPlan(body, kinds, regsSafe, p)
    ensures forall s :: s in p.regs ==> s !in p.fregs
    ensures forall s :: s in p.regs ==> regsSafe && StoresAgree(body, kinds, s, GpScalar)
    ensures forall s :: s in p.fregs ==> StoresAgree(body, kinds, s, Float)
  {
    hide Rank;
    forall s | s in p.regs ensures StoresAgree(body, kinds, s, GpScalar) {
      KindExact(body, kinds, |body|, s);
    }
    forall s | s in p.fregs ensures StoresAgree(body, kinds, s, Float) {
      KindExact(body, kinds, |body|, s);
    }
  }

  /** `s` is stored, and every store to it is of bank `k`. */
  ghost predicate StoresAgree(body: seq<Sir.Insn>, kinds: seq<LocalKind>, s: Symbol, k: LocalKind)
    requires |body| == |kinds|
  {
    StoredIn(body, |body|, s) && forall i :: 0 <= i < |body| && body[i].Store? && body[i].name == s ==> kinds[i] == k
  }

  // --- The plan in terms of the text ---------------------------------------

  predicate Touches(i: Sir.Insn, s: Symbol) {
    (i.Store? && i.name == s) || (i.Load? && i.src == Sir.Local(s))
  }

  /** Instruction `i` lies in the loop that the jump at `j` closes: from the last label of that name, if
      it stands no later than the jump, to the jump. */
  ghost predicate InLoop(body: seq<Sir.Insn>, i: nat, j: nat)
    requires j < |body|
  {
    body[j].Jump? && exists k :: 0 <= k <= i <= j && IsLast(body, k, body[j].target)
  }

  predicate IsLast(body: seq<Sir.Insn>, k: nat, id: Sir.LabelId)
    requires k < |body|
  {
    body[k] == Sir.Label(id) && forall m :: k < m < |body| ==> body[m] != Sir.Label(id)
  }

  /** The accesses to `s` among the first `n` instructions. */
  function Touching(body: seq<Sir.Insn>, n: nat, s: Symbol): set<nat>
    requires n <= |body|
  {
    set i: nat | i < n && Touches(body[i], s)
  }

  /** Those accesses paired with each loop they lie in. */
  ghost function Nested(body: seq<Sir.Insn>, n: nat, s: Symbol): set<(nat, nat)>
    requires n <= |body|
  {
    set i: nat, j: nat | i < n && j < |body| && Touches(body[i], s) && InLoop(body, i, j) :: (i, j)
  }

  /** One point for an access, and sixteen more for every loop around it. */
  ghost function Points(body: seq<Sir.Insn>, s: Symbol): nat {
    |Touching(body, |body|, s)| + 16 * |Nested(body, |body|, s)|
  }

  lemma {:induction false} LastIs(body: seq<Sir.Insn>, n: nat, id: Sir.LabelId)
    requires n <= |body|
    ensures match LastLabel(body, n, id)
      case None => forall m :: 0 <= m < n ==> body[m] != Sir.Label(id)
      case Some(k) => forall m :: k < m < n ==> body[m] != Sir.Label(id)
  {
    if n > 0 {
      LastIs(body, n - 1, id);
    }
  }

  lemma CoversInLoop(body: seq<Sir.Insn>, j: nat, i: nat)
    requires j < |body|
    ensures Covers(body, j, i) <==> InLoop(body, i, j)
  {
    hide LastLabel;
    if body[j].Jump? {
      var id := body[j].target;
      LastIs(body, |body|, id);
      if k :| 0 <= k <= i <= j && IsLast(body, k, id) {
        assert LastLabel(body, |body|, id) == Some(k);
      }
      if Covers(body, j, i) {
        assert IsLast(body, LoopStart(body, j), id);
      }
    }
  }

  function Pairs(n: nat, js: set<nat>): set<(nat, nat)> {
    set j | j in js :: (n, j)
  }

  /** Pairing a number with every member of a set makes as many pairs. */
  lemma {:induction false} PairsSize(n: nat, js: set<nat>)
    ensures |Pairs(n, js)| == |js|
  {
    if js == {} {
      assert Pairs(n, js) == {};
    } else {
      var j :| j in js;
      PairsSize(n, js - {j});
      assert Pairs(n, js) == Pairs(n, js - {j}) + {(n, j)} && (n, j) !in Pairs(n, js - {j});
    }
  }

  lemma TouchingNext(body: seq<Sir.Insn>, n: nat, s: Symbol)
    requires n < |body|
    ensures |Touching(body, n + 1, s)| == |Touching(body, n, s)| + if Touches(body[n], s) then 1 else 0
  {
    hide Touches;
    var before := Touching(body, n, s);
    assert n !in before;
    assert Touching(body, n + 1, s) == if Touches(body[n], s) then before + {n} else before;
  }

  lemma NestedNext(body: seq<Sir.Insn>, n: nat, s: Symbol)
    requires n < |body|
    ensures |Nested(body, n + 1, s)| == |Nested(body, n, s)| + if Touches(body[n], s) then Depth(body, n) else 0
  {
    var now := if Touches(body[n], s) then Pairs(n, Covering(body, |body|, n)) else {};
    PairsSize(n, Covering(body, |body|, n));
    hide Touches;
    forall p ensures p in Nested(body, n + 1, s) <==> p in Nested(body, n, s) || p in now {
      if p.0 == n && p.1 < |body| {
        CoversInLoop(body, p.1, n);
      }
      hide Covers, InLoop;
    }
    forall p | p in Nested(body, n, s) ensures p !in now {
    }
    hide Nested, Pairs, Covering;
    assert Nested(body, n + 1, s) == Nested(body, n, s) + now;
  }

  lemma {:induction false} ScoreCounts(body: seq<Sir.Insn>, n: nat, s: Symbol)
    requires n <= |body|
    ensures Score(body, n, s) == |Touching(body, n, s)| + 16 * |Nested(body, n, s)|
  {
    hide Depth, Touches;
    if n == 0 {
      assert Touching(body, 0, s) == {} && Nested(body, 0, s) == {};
    } else {
      ScoreCounts(body, n - 1, s);
      hide Touching, Nested;
      NestedNext(body, n - 1, s);
      TouchingNext(body, n - 1, s);
      TouchesAccessed(body[n - 1], s);
    }
  }

  lemma TouchesAccessed(i: Sir.Insn, s: Symbol)
    ensures Accessed(i) == Some(s) <==> Touches(i, s)
  {
  }

  /** More points, or as many and a smaller name. */
  ghost predicate Beats(body: seq<Sir.Insn>, a: Symbol, b: Symbol) {
    Points(body, a) > Points(body, b) || (Points(body, a) == Points(body, b) && a < b)
  }

  /** The locals of bank `k` that come before `s`. */
  ghost function Rivals(body: seq<Sir.Insn>, kinds: seq<LocalKind>, k: LocalKind, s: Symbol): set<Symbol>
    requires |body| == |kinds|
  {
    set i: nat |
      i < |body| && body[i].Store? && StoresAgree(body, kinds, body[i].name, k) && Beats(body, body[i].name, s)
      :: body[i].name
  }

  /** In a plan of the analysis the integers with fewer than ten rivals hold x19 to x28, those with fewer than
      eight among the floats d8 to d15, each the register of its place; integers hold none where the
      body needs these registers itself. */
  lemma PlanExact(body: seq<Sir.Insn>, kinds: seq<LocalKind>, regsSafe: bool, p: Plan, s: Symbol)
    requires |body| == |kinds| && IsPlan(body, kinds, regsSafe, p)
    ensures s in p.regs <==>
      regsSafe && StoresAgree(body, kinds, s, GpScalar) && |Rivals(body, kinds, GpScalar, s)| < 10
    ensures s in p.regs ==> p.regs[s] == 19 + |Rivals(body, kinds, GpScalar, s)|
    ensures s in p.fregs <==> StoresAgree(body, kinds, s, Float) && |Rivals(body, kinds, Float, s)| < 8
    ensures s in p.fregs ==> p.fregs[s] == 8 + |Rivals(body, kinds, Float, s)|
  {
    RankRivals(body, kinds, GpScalar, s);
    RankRivals(body, kinds, Float, s);
    hide Candidates, Rank, Rivals, StoresAgree;
  }

  lemma RankRivals(body: seq<Sir.Insn>, kinds: seq<LocalKind>, k: LocalKind, s: Symbol)
    requires |body| == |kinds| && k != Other
    ensures Rank(body, Candidates(body, kinds, k), s) == |Rivals(body, kinds, k, s)|
    ensures s in Candidates(body, kinds, k) <==> StoresAgree(body, kinds, s, k)
  {
    hide Score, Points;
    forall c ensures c in Candidates(body, kinds, k) <==> StoresAgree(body, kinds, c, k) {
      CandidateAgrees(body, kinds, k, c);
    }
    forall c ensures Score(body, |body|, c) == Points(body, c) {
      ScorePoints(body, c);
    }
    hide Candidates, StoresAgree;
    forall c ensures c in Ahead(body, Candidates(body, kinds, k), s) <==> c in Rivals(body, kinds, k, s) {
      if c in Candidates(body, kinds, k) {
        StoredSomewhere(body, kinds, k, c);
      }
    }
    assert Ahead(body, Candidates(body, kinds, k), s) == Rivals(body, kinds, k, s);
  }

  lemma ScorePoints(body: seq<Sir.Insn>, s: Symbol)
    ensures Score(body, |body|, s) == Points(body, s)
  {
    hide Score, Touching, Nested;
    ScoreCounts(body, |body|, s);
  }

  lemma StoredSomewhere(body: seq<Sir.Insn>, kinds: seq<LocalKind>, k: LocalKind, s: Symbol)
    requires |body| == |kinds| && StoresAgree(body, kinds, s, k)
    ensures exists i :: 0 <= i < |body| && body[i].Store? && body[i].name == s
  {
  }

  lemma CandidateAgrees(body: seq<Sir.Insn>, kinds: seq<LocalKind>, k: LocalKind, s: Symbol)
    requires |body| == |kinds| && k != Other
    ensures s in Candidates(body, kinds, k) <==> StoresAgree(body, kinds, s, k)
  {
    KindExact(body, kinds, |body|, s);
    hide KindOf;
  }

  // --- Building the plan ---------------------------------------------------

  function ScoreOf(score: map<Symbol, nat>, s: Symbol): nat {
    if s in score then score[s] else 0
  }

  ghost predicate Scored(body: seq<Sir.Insn>, n: nat, score: map<Symbol, nat>)
    requires n <= |body|
  {
    forall s :: ScoreOf(score, s) == Score(body, n, s)
  }

  predicate Better(score: map<Symbol, nat>, a: Symbol, b: Symbol) {
    ScoreOf(score, a) > ScoreOf(score, b) || (ScoreOf(score, a) == ScoreOf(score, b) && a < b)
  }

  ghost predicate Sorted(score: map<Symbol, nat>, r: seq<Symbol>) {
    forall i, j :: 0 <= i < j < |r| ==> Better(score, r[i], r[j])
  }

  /** Where `s` belongs in a sorted list. */
  function Place(score: map<Symbol, nat>, r: seq<Symbol>, s: Symbol): (i: nat)
    ensures i <= |r|
    ensures forall j :: 0 <= j < i ==> Better(score, r[j], s)
    ensures i < |r| ==> !Better(score, r[i], s)
  {
    if r == [] || !Better(score, r[0], s) then 0 else 1 + Place(score, r[1..], s)
  }

  lemma InsertSorted(score: map<Symbol, nat>, r: seq<Symbol>, s: Symbol)
    requires Sorted(score, r) && s !in r
    ensures var i := Place(score, r, s); Sorted(score, r[..i] + [s] + r[i..])
  {
    hide ScoreOf;
    var i := Place(score, r, s);
    forall j | i <= j < |r| ensures Better(score, s, r[j]) {
      assert r[j] != s && r[i] != s;
      assert i < j ==> Better(score, r[i], r[j]);
    }
  }

  /** The candidates of a bank, best first. The candidates are met in an arbitrary order; keeping
      the list sorted stands for the library's sort. */
  method Ranked(kind: map<Symbol, LocalKind>, score: map<Symbol, nat>, want: LocalKind) returns (r: seq<Symbol>)
    ensures Sorted(score, r)
    ensures forall s :: s in r <==> s in kind && kind[s] == want
  {
    r := [];
    var left := kind.Keys;
    while left != {}
      invariant left <= kind.Keys && Sorted(score, r)
      invariant forall s :: s in r <==> s in kind && s !in left && kind[s] == want
      decreases left
    {
      var s :| s in left;
      left := left - {s};
      if kind[s] == want {
        InsertSorted(score, r, s);
        var i := Place(score, r, s);
        ghost var before := r;
        r := r[..i] + [s] + r[i..];
        assert before == before[..i] + before[i..];
        assert forall c :: c in r <==> c in before || c == s;
      }
    }
  }

  lemma SortedPosition(score: map<Symbol, nat>, r: seq<Symbol>, j: nat, i: nat)
    requires Sorted(score, r) && i < |r| && j < |r|
    ensures Better(score, r[j], r[i]) <==> j < i
  {
    hide ScoreOf;
    assert i < j ==> Better(score, r[i], r[j]);
  }

  /** In a sorted list of all candidates, position is rank. */
  lemma SortedRank(body: seq<Sir.Insn>, score: map<Symbol, nat>, cs: set<Symbol>, r: seq<Symbol>, i: nat)
    requires Scored(body, |body|, score) && Sorted(score, r) && i < |r|
    requires forall s :: s in r <==> s in cs
    ensures Rank(body, cs, r[i]) == i
  {
    hide Score, ScoreOf;
    var ahead := set j | 0 <= j < i :: r[j];
    PrefixSize(score, r, i);
    forall c ensures c in Ahead(body, cs, r[i]) <==> c in ahead {
      if c in cs {
        var j :| 0 <= j < |r| && r[j] == c;
        SortedPosition(score, r, j, i);
        assert Before(body, c, r[i]) <==> Better(score, c, r[i]);
        assert j < i ==> c in ahead;
      }
      if c in ahead {
        var j :| 0 <= j < i && r[j] == c;
        SortedPosition(score, r, j, i);
      }
    }
    assert Ahead(body, cs, r[i]) == ahead;
  }

  lemma PrefixSize(score: map<Symbol, nat>, r: seq<Symbol>, i: nat)
    requires Sorted(score, r) && i <= |r|
    ensures |set j | 0 <= j < i :: r[j]| == i
  {
    hide ScoreOf;
    if i > 0 {
      PrefixSize(score, r, i - 1);
      var before := set j | 0 <= j < i - 1 :: r[j];
      assert (set j | 0 <= j < i :: r[j]) == before + {r[i - 1]};
      assert r[i - 1] !in before by {
        forall j | 0 <= j < i - 1 ensures r[j] != r[i - 1] {
          assert Better(score, r[j], r[i - 1]);
        }
      }
    }
  }

  /** Pairs the best candidates with the registers of a bank, as far as both go. */
  method Assign(ghost body: seq<Sir.Insn>, ghost cs: set<Symbol>, ghost score: map<Symbol, nat>,
                r: seq<Symbol>, first: nat, cap: nat)
    returns (regs: map<Symbol, nat>, used: seq<nat>)
    requires Scored(body, |body|, score) && Sorted(score, r)
    requires forall s :: s in r <==> s in cs
    ensures IsBank(body, cs, first, cap, regs, used)
  {
    hide Rank, Scored, Better;
    regs, used := map[], [];
    var n := if |r| < cap then |r| else cap;
    forall j | 0 <= j < |r| ensures Rank(body, cs, r[j]) == j {
      SortedRank(body, score, cs, r, j);
    }
    for i := 0 to n
      invariant used == seq(i, k => first + k)
      invariant forall s :: s in regs <==> s in cs && Rank(body, cs, s) < i
      invariant forall s :: s in regs ==> regs[s] == first + Rank(body, cs, s)
    {
      forall s | s in cs && Rank(body, cs, s) == i ensures s == r[i] {
        var j :| 0 <= j < |r| && r[j] == s;
      }
      regs := regs[r[i] := first + i];
      used := used + [first + i];
    }
    CandidateCount(score, cs, r);
    forall s | s in cs && Rank(body, cs, s) < cap ensures s in regs {
      var j :| 0 <= j < |r| && r[j] == s;
    }
  }

  lemma CandidateCount(score: map<Symbol, nat>, cs: set<Symbol>, r: seq<Symbol>)
    requires Sorted(score, r) && forall s :: s in r <==> s in cs
    ensures |cs| == |r|
  {
    PrefixSize(score, r, |r|);
    assert cs == set j | 0 <= j < |r| :: r[j];
  }

  method Analyze(body: seq<Sir.Insn>, kinds: seq<LocalKind>, regsSafe: bool) returns (plan: Plan)
    requires |body| == |kinds|
    ensures IsPlan(body, kinds, regsSafe, plan)
  {
    hide Depth, IsBank;
    var depth := ComputeLoopDepth(body);
    var score: map<Symbol, nat> := map[];
    var kind: map<Symbol, LocalKind> := map[];
    for i := 0 to |body|
      invariant Scored(body, i, score)
      invariant forall s :: Sir.Lookup(kind, s) == KindOf(body, kinds, i, s)
      invariant forall k :: 0 <= k < |body| ==> depth[k] == Depth(body, k)
    {
      var weight := 1 + LOOP_WEIGHT * depth[i];
      var touched := Accessed(body[i]);
      ScoredStep(body, i, score, weight);
      if touched.Some? {
        score := score[touched.value := ScoreOf(score, touched.value) + weight];
      }
      if body[i].Store? {
        kind := kind[body[i].name := Merge(Sir.Lookup(kind, body[i].name), kinds[i])];
      }
    }
    KindsAreCandidates(body, kinds, kind, GpScalar);
    KindsAreCandidates(body, kinds, kind, Float);
    var regs: map<Symbol, nat>, used: seq<nat> := map[], [];
    if regsSafe {
      var gp := Ranked(kind, score, GpScalar);
      regs, used := Assign(body, Candidates(body, kinds, GpScalar), score, gp, FIRST_REG, REGS);
    } else {
      EmptyBank(body);
    }
    var fp := Ranked(kind, score, Float);
    var fregs, fpUsed := Assign(body, Candidates(body, kinds, Float), score, fp, FIRST_FREG, FREGS);
    plan := Plan(regs, used, fregs, fpUsed);
  }

  lemma ScoredStep(body: seq<Sir.Insn>, i: nat, score: map<Symbol, nat>, weight: nat)
    requires i < |body| && Scored(body, i, score) && weight == 1 + LOOP_WEIGHT * Depth(body, i)
    ensures match Accessed(body[i])
      case None => Scored(body, i + 1, score)
      case Some(s) => Scored(body, i + 1, score[s := ScoreOf(score, s) + weight])
  {
    hide Depth;
    forall s: Symbol
      ensures Score(body, i + 1, s) == Score(body, i, s) + if Accessed(body[i]) == Some(s) then weight else 0
    {
      assert i + 1 - 1 == i;
    }
    if Accessed(body[i]).Some? {
      var t := Accessed(body[i]).value;
      var after := score[t := ScoreOf(score, t) + weight];
      forall s: Symbol ensures ScoreOf(after, s) == Score(body, i + 1, s) {
        assert ScoreOf(score, s) == Score(body, i, s);
      }
    }
  }

  lemma EmptyBank(body: seq<Sir.Insn>)
    ensures IsBank(body, {}, FIRST_REG, REGS, map[], [])
  {
  }

  lemma KindsAreCandidates(body: seq<Sir.Insn>, kinds: seq<LocalKind>, kind: map<Symbol, LocalKind>, want: LocalKind)
    requires |body| == |kinds|
    requires forall s :: Sir.Lookup(kind, s) == KindOf(body, kinds, |body|, s)
    ensures forall s :: s in Candidates(body, kinds, want) <==> s in kind && kind[s] == want
  {
    forall s | s in kind && kind[s] == want ensures s in Candidates(body, kinds, want) {
      assert Sir.Lookup(kind, s) == Some(want);
      KindExact(body, kinds, |body|, s);
      var i :| 0 <= i < |body| && body[i].Store? && body[i].name == s;
    }
    forall s | s in Candidates(body, kinds, want) ensures s in kind && kind[s] == want {
      assert KindOf(body, kinds, |body|, s) == Some(want);
      assert Sir.Lookup(kind, s) == Some(want);
    }
  }
}
