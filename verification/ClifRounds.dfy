/** A loop that builds an aggregate in every round, keeps it in a local and reads it back there: the blocks
    use one stack slot for all of them, and still run like the source. */
module ClifRounds {
  import opened Wrappers
  import opened ClifCode
  import ClifSafe
  import Regions
  import Rounds
  import Sir
  import Trails

  function EveryRound(): Sir.Function {
    Sir.Function([7],
      [Sir.Label(0), Sir.Load(0, Sir.Param(0)), Sir.Construct(1, None, [0]), Sir.Store(9, 1),
        Sir.Load(4, Sir.Local(9)), Sir.TupleIndex(2, 4, 0), Sir.BranchIfNot(2, 1), Sir.Const(3, 0), Sir.Store(7, 3),
        Sir.Jump(0), Sir.Label(1), Sir.Return(Some(2))])
  }

  /** Instruction 2 builds again; its aggregates are in value 1, local 9 and value 4. */
  function Marks(): Regions.Own {
    Regions.Own({1, 4}, {9}, {2}, false)
  }

  lemma LabelsAre(body: seq<Sir.Insn>, i: nat, id: Sir.LabelId)
    requires i < |body| && body[i] == Sir.Label(id) && forall j :: 0 <= j < i ==> body[j] != Sir.Label(id)
    ensures Sir.LabelIndex(body, id) == Some(i)
  {
    if i > 0 {
      LabelsAre(body[1..], i - 1, id);
    }
  }

  /** Control goes on, leaves the loop or starts the next round. */
  lemma Successors(i: nat, j: nat)
    requires i < 12 && Sir.Successor(EveryRound().body, i, j)
    ensures if i == 9 then j == 0 else i < 11 && (j == i + 1 || (i == 6 && j == 10))
  {
    hide Sir.LabelIndex;
    LabelsAre(EveryRound().body, 0, 0);
    LabelsAre(EveryRound().body, 10, 1);
  }

  /** Before instruction `l` of the way `q`, `n` visits ago: what value, local and copy hold was built in
      this round. */
  predicate RoundTrace(q: seq<nat>, l: nat, t: Rounds.Trace) {
    var n := |q|;
    && l < 12 && t.vals.Keys <= {1, 4} && t.locals.Keys <= {9}
    && (l == 3 ==> n >= 1 && q[n - 1] == 2 && 1 in t.vals && t.vals[1] == n - 1)
    && (l == 4 ==> n >= 2 && q[n - 2] == 2 && q[n - 1] == 3 && 9 in t.locals && t.locals[9] == n - 2)
    && (l == 5 ==> n >= 3 && q[n - 3] == 2 && q[n - 2] == 3 && q[n - 1] == 4 && 4 in t.vals && t.vals[4] == n - 3)
  }

  lemma RoundStep(q: seq<nat>, i: nat, j: nat, t: Rounds.Trace)
    requires RoundTrace(q, i, t) && Sir.Successor(EveryRound().body, i, j)
    ensures RoundTrace(q + [i], j, Rounds.TraceStep(EveryRound(), {2}, t, |q|, i))
  {
    hide Sir.Successor;
    Successors(i, j);
    var t' := Rounds.TraceStep(EveryRound(), {2}, t, |q|, i);
    assert t'.vals.Keys <= {1, 4} && t'.locals.Keys <= {9};
  }

  lemma {:induction false} Along(q: seq<nat>)
    requires Trails.EntryPath(EveryRound().body, q)
    ensures var n := |q| - 1; RoundTrace(q[..n], q[n], Rounds.TraceOf(EveryRound(), {2}, q[..n]))
    decreases |q|
  {
    hide RoundTrace, Rounds.TraceStep, Sir.Successor, EveryRound;
    var n := |q| - 1;
    if n == 0 {
      RoundStart(q[..0]);
    } else {
      var front := q[..n];
      assert forall k :: 0 <= k < n ==> front[k] == q[k];
      Along(front);
      assert Sir.Successor(EveryRound().body, q[n - 1], q[n]);
      assert front[..n - 1] + [q[n - 1]] == front && q[n - 1] < |EveryRound().body|;
      RoundStep(front[..n - 1], q[n - 1], q[n], Rounds.TraceOf(EveryRound(), {2}, front[..n - 1]));
    }
  }

  lemma RoundStart(q: seq<nat>)
    requires q == []
    ensures RoundTrace(q, 0, Rounds.TraceOf(EveryRound(), {2}, q))
  {
  }

  lemma RoundSettled(q: seq<nat>, l: nat)
    requires RoundTrace(q, l, Rounds.TraceOf(EveryRound(), {2}, q))
    ensures Rounds.SettledAt(EveryRound(), {2}, q, l)
  {
    hide Rounds.TraceOf;
  }

  lemma Confined()
    ensures Regions.Confined(EveryRound(), Marks())
  {
    hide Regions.Made, Regions.Calculated;
  }

  lemma Variables()
    ensures ClifSafe.ReadsFresh(EveryRound())
  {
    hide VarsAt, ClifSafe.ReadsFresh;
    ClifSafe.NamedAfter(EveryRound(), 3);
    ClifSafe.KnownFresh(EveryRound());
  }

  /** Such a program is safe, although its aggregate is built on a cycle. */
  lemma RebuiltSafely()
    ensures ClifSafe.SafeText(EveryRound(), Marks())
  {
    hide Regions.Confined, ClifSafe.ReadsFresh, Rounds.SettledAt, RoundTrace, EveryRound;
    Confined();
    Variables();
    var f := EveryRound();
    forall q | Trails.EntryPath(f.body, q) ensures Rounds.SettledAt(f, {2}, q[..|q| - 1], q[|q| - 1]) {
      Along(q);
      RoundSettled(q[..|q| - 1], q[|q| - 1]);
    }
  }
}
