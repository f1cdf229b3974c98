/** Two heaps whose aggregates have different addresses. One names every aggregate it builds, the other
    builds an aggregate where an earlier one was, which is lost then. */
module Places {
  import opened Wrappers
  import opened Sir
  import opened Trails

  /** `where[x]` is the block of the second heap that aggregate `x` of the first was built in. */
  type Where = seq<nat>

  /** What the second side has for a value of the first. */
  predicate Stands(w: Where, v: Val, c: Val) {
    if v.Ref? then v.addr < |w| && c == Ref(w[v.addr]) else c == v
  }

  predicate AllStand(w: Where, vs: seq<Val>, cs: seq<Val>) {
    |vs| == |cs| && forall k :: 0 <= k < |vs| ==> Stands(w, vs[k], cs[k])
  }

  /** A reference to what is found today where its aggregate was built. */
  function Today(later: map<nat, nat>, v: Val): Val {
    if v.Ref? then Ref(Held(later, v.addr)) else v
  }

  /** The same value, or references to aggregates built in the same place. */
  predicate Same(later: map<nat, nat>, v: Val, u: Val) {
    Today(later, v) == Today(later, u)
  }

  /** Aggregates share a block exactly if they were built in the same place. */
  ghost predicate Housed(later: map<nat, nat>, w: Where, n: nat) {
    && (forall x :: x in later ==> x < |w| && later[x] < |w| && later[x] !in later)
    && (forall x :: 0 <= x < |w| ==> w[x] < n)
    && (forall x, y :: 0 <= x < |w| && 0 <= y < |w| ==> (w[x] == w[y] <==> Held(later, x) == Held(later, y)))
  }

  /** Whatever has not been replaced is found in its block. */
  ghost predicate Kept(later: map<nat, nat>, w: Where, heap: Heap, cheap: Heap)
    requires |w| == |heap| && Housed(later, w, |cheap|)
  {
    forall x :: 0 <= x < |heap| && x !in later ==> AllStand(w, heap[x], cheap[w[x]])
  }

  ghost predicate Mirrored(lost: Lost, w: Where, heap: Heap, cheap: Heap, dead: set<nat>) {
    && |w| == |heap| && Housed(lost.later, w, |cheap|) && Kept(lost.later, w, heap, cheap)
    && (forall x :: x in lost.dead ==> x < |w|)
    && dead == set x | x in lost.dead && x < |w| :: w[x]
  }

  /** The place of `x` did not belong to an activation that has returned. */
  ghost predicate Lives(lost: Lost, x: nat) {
    forall y :: y in lost.dead ==> Held(lost.later, y) != Held(lost.later, x)
  }

  // --- Values --------------------------------------------------------------

  lemma StandsGrows(w: Where, w': Where, v: Val, c: Val)
    requires w <= w' && Stands(w, v, c)
    ensures Stands(w', v, c)
  {
  }

  lemma AllStandGrows(w: Where, w': Where, vs: seq<Val>, cs: seq<Val>)
    requires w <= w' && AllStand(w, vs, cs)
    ensures AllStand(w', vs, cs)
  {
    forall k | 0 <= k < |vs| ensures Stands(w', vs[k], cs[k]) {
      StandsGrows(w, w', vs[k], cs[k]);
    }
  }

  /** One value of the second side stands for two of the first exactly if they are the same. */
  lemma StandsSame(later: map<nat, nat>, w: Where, n: nat, v: Val, u: Val, c: Val)
    requires Housed(later, w, n) && Stands(w, u, c)
    ensures Stands(w, v, c) <==> Same(later, v, u)
  {
    if v.Ref? && u.Ref? && v.addr >= |w| {
      assert Held(later, v.addr) == v.addr && Held(later, u.addr) < |w|;
    }
  }

  /** What blind operators are shown on the second side is what is found today. */
  lemma BlindToday(ops: Ops, later: map<nat, nat>, w: Where, n: nat, op: nat, v: Val, c: Val, u: Val, d: Val)
    requires Blind(ops) && Housed(later, w, n) && Stands(w, v, c) && Stands(w, u, d)
    ensures ops.bin(op, c, d) == ops.bin(op, Today(later, v), Today(later, u))
    ensures ops.un(op, c) == ops.un(op, v) && ops.truthy(c) == ops.truthy(v)
  {
    assert Alike(v, c) && Alike(Today(later, v), c) && Alike(Today(later, u), d);
    assert Today(later, v) == Today(later, u) <==> c == d;
  }

  lemma BlindResult(ops: Ops, w: Where, op: nat, x: Val, y: Val, u: Val, v: Val)
    requires Blind(ops)
    ensures Stands(w, ops.bin(op, x, y), ops.bin(op, u, v)) <==> ops.bin(op, x, y) == ops.bin(op, u, v)
    ensures Stands(w, ops.un(op, x), ops.un(op, x))
  {
  }

  // --- Reading and writing -------------------------------------------------

  /** A cell `i` is found today where `x` was built, and not in the slot of an activation that has
      returned. */
  ghost predicate Readable(lost: Lost, heap: Heap, x: nat, i: nat) {
    Lives(lost, x) && IsCell(heap, Ref(Held(lost.later, x)), i)
  }

  lemma Representative(lost: Lost, w: Where, heap: Heap, cheap: Heap, dead: set<nat>, x: nat)
    requires Mirrored(lost, w, heap, cheap, dead) && x < |w|
    ensures var r := Held(lost.later, x);
      r < |w| && r !in lost.later && w[x] == w[r] && w[x] < |cheap| && AllStand(w, heap[r], cheap[w[x]])
  {
  }

  lemma DeadExact(lost: Lost, w: Where, heap: Heap, cheap: Heap, dead: set<nat>, x: nat)
    requires Mirrored(lost, w, heap, cheap, dead) && x < |w|
    ensures w[x] !in dead <==> Lives(lost, x)
  {
    if w[x] in dead {
      var y :| y in lost.dead && y < |w| && w[y] == w[x];
      assert Held(lost.later, y) == Held(lost.later, x);
    } else {
      forall y | y in lost.dead ensures Held(lost.later, y) != Held(lost.later, x) {
        assert w[y] in dead;
      }
    }
  }

  /** Which cells the second side can touch, and what it reads there. */
  lemma ReadExact(lost: Lost, w: Where, heap: Heap, cheap: Heap, dead: set<nat>, x: nat, i: nat)
    requires Mirrored(lost, w, heap, cheap, dead) && IsCell(heap, Ref(x), i)
    ensures w[x] < |cheap| && i < |cheap[w[x]]| && w[x] !in dead <==> Readable(lost, heap, x, i)
    ensures Readable(lost, heap, x, i) ==>
      (Stands(w, heap[x][i], cheap[w[x]][i]) <==> Same(lost.later, heap[x][i], heap[Held(lost.later, x)][i]))
  {
    Representative(lost, w, heap, cheap, dead, x);
    DeadExact(lost, w, heap, cheap, dead, x);
    hide Mirrored, Lives, Housed;
    if Readable(lost, heap, x, i) {
      var r := Held(lost.later, x);
      assert Stands(w, heap[r][i], cheap[w[x]][i]);
      MirroredHoused(lost, w, heap, cheap, dead);
      StandsSame(lost.later, w, |cheap|, heap[x][i], heap[r][i], cheap[w[x]][i]);
    }
  }

  lemma MirroredHoused(lost: Lost, w: Where, heap: Heap, cheap: Heap, dead: set<nat>)
    requires Mirrored(lost, w, heap, cheap, dead)
    ensures |w| == |heap| && Housed(lost.later, w, |cheap|)
  {
    hide Housed;
  }

  /** A write is followed exactly if it does not go to an aggregate that has been replaced, or changes
      nothing in the one that is found there today. */
  lemma WriteExact(lost: Lost, w: Where, heap: Heap, cheap: Heap, dead: set<nat>, x: nat, i: nat, v: Val, c: Val)
    requires Mirrored(lost, w, heap, cheap, dead) && IsCell(heap, Ref(x), i) && Readable(lost, heap, x, i)
    requires w[x] < |cheap| && i < |cheap[w[x]]| && Stands(w, v, c)
    ensures var r := Held(lost.later, x);
      Mirrored(lost, w, heap[x := heap[x][i := v]], cheap[w[x] := cheap[w[x]][i := c]], dead) <==>
        r == x || Same(lost.later, heap[r][i], v)
  {
    var r := Held(lost.later, x);
    var heap', cheap' := heap[x := heap[x][i := v]], cheap[w[x] := cheap[w[x]][i := c]];
    Representative(lost, w, heap, cheap, dead, x);
    StandsSame(lost.later, w, |cheap|, heap[r][i], v, c);
    forall y | 0 <= y < |heap| && y !in lost.later && y != r
      ensures AllStand(w, heap'[y], cheap'[w[y]])
    {
      assert w[y] != w[x] && y != x;
    }
    assert Kept(lost.later, w, heap', cheap') <==> AllStand(w, heap'[r], cheap'[w[r]]);
    WriteBlock(w, heap[r], cheap[w[x]], i, v, c, r == x);
  }

  /** The block of the second side was written; that of the first only if it is the same aggregate. */
  lemma WriteBlock(w: Where, vs: seq<Val>, cs: seq<Val>, i: nat, v: Val, c: Val, both: bool)
    requires AllStand(w, vs, cs) && i < |vs| && Stands(w, v, c)
    ensures AllStand(w, if both then vs[i := v] else vs, cs[i := c]) <==> both || Stands(w, vs[i], c)
  {
    var us := if both then vs[i := v] else vs;
    if AllStand(w, us, cs[i := c]) {
      assert Stands(w, us[i], cs[i := c][i]);
    }
  }

  // --- Building ------------------------------------------------------------

  /** An aggregate built in a block of its own. */
  lemma BuildsNew(lost: Lost, w: Where, heap: Heap, cheap: Heap, dead: set<nat>, vs: seq<Val>, cs: seq<Val>)
    requires Mirrored(lost, w, heap, cheap, dead) && AllStand(w, vs, cs)
    ensures Mirrored(lost, w + [|cheap|], heap + [vs], cheap + [cs], dead)
  {
    var w', heap', cheap' := w + [|cheap|], heap + [vs], cheap + [cs];
    forall x | 0 <= x < |heap'| && x !in lost.later ensures AllStand(w', heap'[x], cheap'[w'[x]]) {
      if x < |heap| {
        AllStandGrows(w, w', heap[x], cheap[w[x]]);
      } else {
        AllStandGrows(w, w', vs, cs);
      }
    }
    SameImage(lost, w, |cheap|);
  }

  lemma SameImage(lost: Lost, w: Where, b: nat)
    requires forall x :: x in lost.dead ==> x < |w|
    ensures (set x | x in lost.dead && x < |w| :: w[x]) == set x | x in lost.dead && x < |w| + 1 :: (w + [b])[x]
  {
    var l, r := set x | x in lost.dead && x < |w| :: w[x], set x | x in lost.dead && x < |w| + 1 :: (w + [b])[x];
    forall b ensures b in l <==> b in r {
      if b in l {
        var x :| x in lost.dead && x < |w| && w[x] == b;
        assert (w + [b])[x] == b;
      }
    }
  }

  lemma ReplacedHeld(later: map<nat, nat>, x: nat, y: nat, z: nat)
    requires Held(later, x) !in later
    ensures Held(Replaced(later, x, y), z) == if Held(later, z) == Held(later, x) then y else Held(later, z)
    ensures z in Replaced(later, x, y) <==> z in later || z == Held(later, x)
  {
  }

  lemma ReplacedHoused(later: map<nat, nat>, w: Where, n: nat, x: nat)
    requires Housed(later, w, n) && x < |w|
    ensures Housed(Replaced(later, x, |w|), w + [w[x]], n)
  {
    hide Replaced;
    var later', w' := Replaced(later, x, |w|), w + [w[x]];
    assert Held(later, x) !in later && Held(later, x) < |w|;
    forall y: nat ensures Held(later', y) == if Held(later, y) == Held(later, x) then |w| else Held(later, y)
      ensures y in later' <==> y in later || y == Held(later, x)
    {
      ReplacedHeld(later, x, |w|, y);
    }
    forall y | y in later' ensures y < |w'| && later'[y] < |w'| && later'[y] !in later' {
      assert Held(later', y) == later'[y];
    }
    assert Held(later, |w|) == |w|;
  }

  /** An aggregate built in the block of an earlier one takes its place. */
  lemma BuildsAgain(lost: Lost, w: Where, heap: Heap, cheap: Heap, dead: set<nat>, x: nat, vs: seq<Val>, cs: seq<Val>)
    requires Mirrored(lost, w, heap, cheap, dead) && AllStand(w, vs, cs) && x < |w| && w[x] < |cheap|
    ensures Mirrored(lost.(later := Replaced(lost.later, x, |heap|)), w + [w[x]], heap + [vs], cheap[w[x] := cs], dead)
  {
    hide Replaced;
    var later, later' := lost.later, Replaced(lost.later, x, |heap|);
    var w', heap', cheap' := w + [w[x]], heap + [vs], cheap[w[x] := cs];
    ReplacedHoused(later, w, |cheap|, x);
    var r := Held(later, x);
    forall y | 0 <= y < |heap'| && y !in later' ensures AllStand(w', heap'[y], cheap'[w'[y]]) {
      ReplacedHeld(later, x, |heap|, y);
      if y < |heap| {
        assert y != r && Held(later, y) == y && w[y] != w[x];
        AllStandGrows(w, w', heap[y], cheap[w[y]]);
      } else {
        AllStandGrows(w, w', vs, cs);
      }
    }
    SameImage(lost, w, w[x]);
  }

  /** At the start both heaps are the same. */
  function Identity(n: nat): (w: Where)
    ensures |w| == n && forall x :: 0 <= x < n ==> w[x] == x
  {
    seq(n, x => x)
  }

  lemma StartsMirrored(args: seq<Val>, heap: Heap)
    requires Whole(args, heap)
    ensures Mirrored(Lost({}, map[]), Identity(|heap|), heap, heap, {})
    ensures AllStand(Identity(|heap|), args, args)
  {
    var w := Identity(|heap|);
    forall x | 0 <= x < |heap| ensures AllStand(w, heap[x], heap[w[x]]) {
      forall k | 0 <= k < |heap[x]| ensures Stands(w, heap[x][k], heap[x][k]) {
        var v := heap[x][k];
        assert v in heap[x] && Exists(v, |heap|);
      }
    }
    forall k | 0 <= k < |args| ensures Stands(w, args[k], args[k]) {
      assert args[k] in args;
    }
  }
}
