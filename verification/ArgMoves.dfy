/** Clobber-safe argument marshaling: a sequence of moves with one or two scratch registers
    standing in for a parallel assignment. */
module ArgMoves {
  import opened Word
  import opened Arm

  datatype Move = Move(dst: Reg, src: Reg)

  /** Destinations are pairwise distinct, and neither side touches a scratch register or XZR. */
  ghost predicate WellFormed(moves: seq<Move>, scratches: seq<Reg>) {
    && (forall j, k :: 0 <= j < k < |moves| ==> moves[j].dst != moves[k].dst)
    && (forall m :: m in moves ==>
      m.dst !in scratches && m.src !in scratches && m.dst != XZR && m.src != XZR)
    && (forall i :: 0 <= i < |scratches| ==> scratches[i] != XZR)
    && (forall i, j :: 0 <= i < j < |scratches| ==> scratches[i] != scratches[j])
  }

  /** Move `j`'s source is some other move's destination. */
  predicate Clobbered(moves: seq<Move>, j: nat)
    requires j < |moves|
  {
    exists k :: 0 <= k < |moves| && k != j && moves[k].dst == moves[j].src
  }

  /** Sources saved while looking at the first `j` moves; the i-th goes to the i-th scratch. */
  function Saves(moves: seq<Move>, cap: nat, j: nat): (s: seq<Reg>)
    requires j <= |moves|
    ensures |s| <= cap
    ensures forall x :: x in s ==> exists k :: 0 <= k < j && moves[k].src == x && Clobbered(moves, k)
    ensures forall a, b :: 0 <= a < b < |s| ==> s[a] != s[b]
    ensures |s| < cap ==> forall k :: 0 <= k < j && Clobbered(moves, k) ==> moves[k].src in s
  {
    if j == 0 then []
    else
      var s := Saves(moves, cap, j - 1);
      var src := moves[j - 1].src;
      if Clobbered(moves, j - 1) && src !in s && |s| < cap then s + [src] else s
  }

  function IndexOf(s: seq<Reg>, x: Reg): (i: nat)
    requires x in s
    ensures i < |s| && s[i] == x
  {
    if s[0] == x then 0 else 1 + IndexOf(s[1..], x)
  }

  function ActualSource(src: Reg, saves: seq<Reg>, scratches: seq<Reg>): Reg
    requires |saves| <= |scratches|
  {
    if src in saves then scratches[IndexOf(saves, src)] else src
  }

  function SaveCode(saves: seq<Reg>, scratches: seq<Reg>): (c: seq<Insn>)
    requires |saves| <= |scratches|
    ensures |c| == |saves|
  {
    seq(|saves|, i requires 0 <= i < |saves| => MovReg(scratches[i], saves[i]))
  }

  function MoveCode(moves: seq<Move>, saves: seq<Reg>, scratches: seq<Reg>, i: nat): seq<Insn>
    requires i <= |moves| && |saves| <= |scratches|
  {
    if i == 0 then []
    else
      var m := moves[i - 1];
      var actual := ActualSource(m.src, saves, scratches);
      MoveCode(moves, saves, scratches, i - 1) +
      (if m.dst != actual then [MovReg(m.dst, actual)] else [])
  }

  function SafeMoves(moves: seq<Move>, scratches: seq<Reg>): seq<Insn> {
    var saves := Saves(moves, |scratches|, |moves|);
    SaveCode(saves, scratches) + MoveCode(moves, saves, scratches, |moves|)
  }

  /** The reference: all sources are read before any destination is written. */
  ghost predicate IsParallel(moves: seq<Move>, code: seq<Insn>, r: Regs) {
    forall j :: 0 <= j < |moves| ==> Get(Exec(code, r), moves[j].dst) == Get(r, moves[j].src)
  }

  /** A move that changes its destination comes before a move that reads that register, and the
      register was not saved. */
  ghost predicate Overwrites(moves: seq<Move>, saves: seq<Reg>, j: nat, k: nat) {
    j < k < |moves| && moves[j].dst == moves[k].src && moves[j].dst != moves[j].src &&
    moves[k].src !in saves
  }

  ghost predicate NoUnsavedOverwrite(moves: seq<Move>, saves: seq<Reg>) {
    forall j, k :: !Overwrites(moves, saves, j, k)
  }

  // --- Running the sequence ------------------------------------------------

  /** Registers after the saves and the first `i` moves. */
  ghost function After(moves: seq<Move>, saves: seq<Reg>, scratches: seq<Reg>, i: nat, r: Regs): Regs
    requires i <= |moves| && |saves| <= |scratches|
  {
    Exec(SaveCode(saves, scratches) + MoveCode(moves, saves, scratches, i), r)
  }

  lemma RunSaves(saves: seq<Reg>, scratches: seq<Reg>, r: Regs)
    requires |saves| <= |scratches|
    requires forall x :: x in saves ==> x !in scratches && x != XZR
    requires forall i :: 0 <= i < |scratches| ==> scratches[i] != XZR
    requires forall i, j :: 0 <= i < j < |scratches| ==> scratches[i] != scratches[j]
    ensures var r' := Exec(SaveCode(saves, scratches), r);
      && (forall i :: 0 <= i < |saves| ==> Get(r', scratches[i]) == Get(r, saves[i]))
      && forall x: Reg :: x !in scratches ==> Get(r', x) == Get(r, x)
    decreases |saves|
  {
    if saves != [] {
      var n := |saves| - 1;
      var front := saves[..n];
      assert forall x :: x in front ==> x in saves;
      assert saves[n] in saves;
      RunSaves(front, scratches, r);
      var last := MovReg(scratches[n], saves[n]);
      assert SaveCode(saves, scratches) == SaveCode(front, scratches) + [last];
      hide Exec, SaveCode;
      ExecAppend(SaveCode(front, scratches), [last], r);
      Exec1(last, Exec(SaveCode(front, scratches), r));
    }
  }

  lemma RunMove(moves: seq<Move>, saves: seq<Reg>, scratches: seq<Reg>, i: nat, r: Regs)
    requires i < |moves| && |saves| <= |scratches|
    requires moves[i].dst != XZR
    ensures var s := After(moves, saves, scratches, i, r);
      After(moves, saves, scratches, i + 1, r) ==
        Set(s, moves[i].dst, Get(s, ActualSource(moves[i].src, saves, scratches)))
  {
    var m := moves[i];
    var actual := ActualSource(m.src, saves, scratches);
    var tail := if m.dst != actual then [MovReg(m.dst, actual)] else [];
    var before := SaveCode(saves, scratches) + MoveCode(moves, saves, scratches, i);
    assert SaveCode(saves, scratches) + MoveCode(moves, saves, scratches, i + 1) == before + tail;
    ExecAppend(before, tail, r);
    Exec1(MovReg(m.dst, actual), Exec(before, r));
  }

  ghost predicate SavesApart(saves: seq<Reg>, scratches: seq<Reg>) {
    |saves| <= |scratches| && forall x :: x in saves ==> x !in scratches && x != XZR
  }

  /** Scratches keep what was saved into them. */
  lemma ScratchKept(moves: seq<Move>, saves: seq<Reg>, scratches: seq<Reg>, i: nat, r: Regs, n: nat)
    requires i <= |moves| && WellFormed(moves, scratches) && SavesApart(saves, scratches) && n < |saves|
    ensures Get(After(moves, saves, scratches, i, r), scratches[n]) == Get(r, saves[n])
  {
    if i == 0 {
      assert SaveCode(saves, scratches) + [] == SaveCode(saves, scratches);
      RunSaves(saves, scratches, r);
    } else {
      assert moves[i - 1] in moves;
      ScratchKept(moves, saves, scratches, i - 1, r, n);
      RunMove(moves, saves, scratches, i - 1, r);
    }
  }

  /** A register keeps its value until a move writes it. */
  lemma Untouched(moves: seq<Move>, saves: seq<Reg>, scratches: seq<Reg>, i: nat, r: Regs, x: Reg)
    requires i <= |moves| && WellFormed(moves, scratches) && SavesApart(saves, scratches)
    requires x !in scratches && forall j :: 0 <= j < i ==> moves[j].dst != x
    ensures Get(After(moves, saves, scratches, i, r), x) == Get(r, x)
  {
    if i == 0 {
      assert SaveCode(saves, scratches) + [] == SaveCode(saves, scratches);
      RunSaves(saves, scratches, r);
    } else {
      assert moves[i - 1] in moves;
      Untouched(moves, saves, scratches, i - 1, r, x);
      RunMove(moves, saves, scratches, i - 1, r);
    }
  }

  /** A destination holds what its source read at its turn, and is not written again. */
  lemma Landed(moves: seq<Move>, saves: seq<Reg>, scratches: seq<Reg>, i: nat, r: Regs, j: nat)
    requires i <= |moves| && WellFormed(moves, scratches) && SavesApart(saves, scratches) && j < i
    ensures Get(After(moves, saves, scratches, i, r), moves[j].dst) ==
      Get(After(moves, saves, scratches, j, r), ActualSource(moves[j].src, saves, scratches))
  {
    assert moves[i - 1] in moves;
    RunMove(moves, saves, scratches, i - 1, r);
    if j < i - 1 {
      Landed(moves, saves, scratches, i - 1, r, j);
    }
  }

  /** What the source of move `k` reads at its turn, when nothing unsaved was overwritten. */
  lemma SourceIntact(moves: seq<Move>, saves: seq<Reg>, scratches: seq<Reg>, k: nat, r: Regs)
    requires k < |moves| && WellFormed(moves, scratches) && SavesApart(saves, scratches)
    requires NoUnsavedOverwrite(moves, saves)
    ensures Get(After(moves, saves, scratches, k, r), ActualSource(moves[k].src, saves, scratches)) ==
      Get(r, moves[k].src)
    decreases k
  {
    var src := moves[k].src;
    assert moves[k] in moves;
    if src in saves {
      ScratchKept(moves, saves, scratches, k, r, IndexOf(saves, src));
    } else if exists j :: 0 <= j < k && moves[j].dst == src {
      var j: nat :| 0 <= j < k && moves[j].dst == src;
      assert !Overwrites(moves, saves, j, k);
      Landed(moves, saves, scratches, k, r, j);
      SourceIntact(moves, saves, scratches, j, r);
    } else {
      Untouched(moves, saves, scratches, k, r, src);
    }
  }

  ghost function Identity(): (r: Regs)
    ensures forall x: Reg :: x != XZR ==> Get(r, x) == x
  {
    seq(31, i => i)
  }

  /** The exact condition: the code is a parallel assignment on every register file if and only
      if no unsaved source is overwritten by an earlier move. */
  lemma SafeMovesExact(moves: seq<Move>, scratches: seq<Reg>)
    requires WellFormed(moves, scratches)
    ensures (forall r: Regs :: IsParallel(moves, SafeMoves(moves, scratches), r)) <==>
      NoUnsavedOverwrite(moves, Saves(moves, |scratches|, |moves|))
  {
    var saves := Saves(moves, |scratches|, |moves|);
    SavedAreSources(moves, scratches);
    if NoUnsavedOverwrite(moves, saves) {
      forall r: Regs ensures IsParallel(moves, SafeMoves(moves, scratches), r) {
        forall j | 0 <= j < |moves|
          ensures Get(Exec(SafeMoves(moves, scratches), r), moves[j].dst) == Get(r, moves[j].src)
        {
          Landed(moves, saves, scratches, |moves|, r, j);
          SourceIntact(moves, saves, scratches, j, r);
        }
      }
    } else {
      var j: nat, k: nat :| Overwrites(moves, saves, j, k);
      OverwriteShows(moves, saves, scratches, j, k);
    }
  }

  lemma SavedAreSources(moves: seq<Move>, scratches: seq<Reg>)
    requires WellFormed(moves, scratches)
    ensures SavesApart(Saves(moves, |scratches|, |moves|), scratches)
  {
    forall x | x in Saves(moves, |scratches|, |moves|) ensures x !in scratches && x != XZR {
      var k :| 0 <= k < |moves| && moves[k].src == x && Clobbered(moves, k);
      assert moves[k] in moves;
    }
  }

  /** With every register holding its own number, an overwritten unsaved source shows. */
  lemma OverwriteShows(moves: seq<Move>, saves: seq<Reg>, scratches: seq<Reg>, j: nat, k: nat)
    requires WellFormed(moves, scratches) && Overwrites(moves, saves, j, k)
    requires saves == Saves(moves, |scratches|, |moves|)
    ensures !IsParallel(moves, SafeMoves(moves, scratches), Identity())
  {
    var r := Identity();
    SavedAreSources(moves, scratches);
    Landed(moves, saves, scratches, |moves|, r, j);
    Landed(moves, saves, scratches, k, r, j);
    Landed(moves, saves, scratches, |moves|, r, k);
    assert moves[j] in moves && moves[k] in moves;
  }

  // --- Enough scratches ----------------------------------------------------

  ghost function ClobberedSources(moves: seq<Move>): set<Reg> {
    set k | 0 <= k < |moves| && Clobbered(moves, k) :: moves[k].src
  }

  lemma DistinctElements(s: seq<Reg>, bound: set<Reg>)
    requires forall a, b :: 0 <= a < b < |s| ==> s[a] != s[b]
    requires forall x :: x in s ==> x in bound
    ensures |s| <= |bound|
    ensures |s| == |bound| ==> forall x :: x in bound ==> x in s
  {
    if s != [] {
      var n := |s| - 1;
      assert forall x :: x in s[..n] ==> x in s;
      DistinctElements(s[..n], bound - {s[n]});
      assert s[n] in bound;
      assert forall x :: x in bound && x != s[n] ==> x in bound - {s[n]};
    }
  }

  /** As many scratches as distinct clobbered sources are enough: one for the FP bank, two for
      the general bank, make every call with that much interference correct. */
  lemma EnoughScratches(moves: seq<Move>, scratches: seq<Reg>, r: Regs)
    requires WellFormed(moves, scratches)
    requires |ClobberedSources(moves)| <= |scratches|
    ensures IsParallel(moves, SafeMoves(moves, scratches), r)
  {
    var saves := Saves(moves, |scratches|, |moves|);
    DistinctElements(saves, ClobberedSources(moves));
    forall k | 0 <= k < |moves| && Clobbered(moves, k) ensures moves[k].src in saves {
      assert moves[k].src in ClobberedSources(moves);
    }
    assert NoUnsavedOverwrite(moves, saves);
    SafeMovesExact(moves, scratches);
  }

  /** Scratches go to the first distinct sources that are overwritten: one that is not saved comes after as
      many that are as there are scratches. */
  lemma {:induction false} SavesFirst(moves: seq<Move>, cap: nat, j: nat, k: nat)
    requires k < j <= |moves| && Clobbered(moves, k) && moves[k].src !in Saves(moves, cap, j)
    ensures |Saves(moves, cap, j)| == cap
    ensures forall x :: x in Saves(moves, cap, j) ==> exists i :: 0 <= i < k && Clobbered(moves, i) && moves[i].src == x
  {
    hide Clobbered;
    if k < j - 1 {
      SavesFirst(moves, cap, j - 1, k);
    } else {
      forall x | x in Saves(moves, cap, k) ensures exists i :: 0 <= i < k && Clobbered(moves, i) && moves[i].src == x {
        var i :| 0 <= i < k && moves[i].src == x && Clobbered(moves, i);
      }
    }
  }

  /** Two scratches do not cover every call: rotating three registers needs a third. */
  lemma RotationFails()
    ensures var moves := [Move(0, 1), Move(1, 2), Move(2, 0)];
      WellFormed(moves, [X16, X17]) &&
      exists r: Regs :: !IsParallel(moves, SafeMoves(moves, [X16, X17]), r)
  {
    var moves := [Move(0, 1), Move(1, 2), Move(2, 0)];
    assert WellFormed(moves, [X16, X17]) && Overwrites(moves, [1, 2], 0, 2);
    hide *;
    RotationSaves(moves);
    RotationShows(moves);
    SafeMovesExact(moves, [X16, X17]);
  }

  lemma RotationShows(moves: seq<Move>)
    requires Saves(moves, 2, |moves|) == [1, 2] && |moves| == 3 && Overwrites(moves, [1, 2], 0, 2)
    ensures !NoUnsavedOverwrite(moves, Saves(moves, 2, |moves|))
  {
    hide Saves, Overwrites;
  }

  lemma RotationSaves(moves: seq<Move>)
    requires moves == [Move(0, 1), Move(1, 2), Move(2, 0)]
    ensures Saves(moves, 2, 3) == [1, 2]
  {
    assert Clobbered(moves, 0) by { assert moves[1].dst == moves[0].src; }
    assert Clobbered(moves, 1) by { assert moves[2].dst == moves[1].src; }
    assert Saves(moves, 2, 0) == [];
    assert Saves(moves, 2, 1) == [1];
    assert Saves(moves, 2, 2) == [1, 2];
  }

  lemma SaveCodePush(saved: seq<Reg>, src: Reg, scratches: seq<Reg>)
    requires |saved| < |scratches|
    ensures SaveCode(saved + [src], scratches) == SaveCode(saved, scratches) + [MovReg(scratches[|saved|], src)]
  {
  }

  method EmitSafeArgMoves(e: Emitter, moves: seq<Move>, scratches: seq<Reg>)
    requires WellFormed(moves, scratches)
    modifies e
    ensures e.code == old(e.code) + SafeMoves(moves, scratches)
  {
    hide WellFormed, SaveCode, Clobbered;
    var saved: seq<Reg> := [];
    for j := 0 to |moves|
      invariant saved == Saves(moves, |scratches|, j)
      invariant e.code == old(e.code) + SaveCode(saved, scratches)
    {
      var src := moves[j].src;
      if Clobbered(moves, j) && src !in saved && |saved| < |scratches| {
        SaveCodePush(saved, src, scratches);
        e.Emit(MovReg(scratches[|saved|], src));
        saved := saved + [src];
      }
    }
    for j := 0 to |moves|
      invariant e.code == old(e.code) + SaveCode(saved, scratches) + MoveCode(moves, saved, scratches, j)
    {
      var m := moves[j];
      var actual := ActualSource(m.src, saved, scratches);
      if m.dst != actual {
        e.Emit(MovReg(m.dst, actual));
      }
    }
  }
}
