/** Storing structs in a vector: a live struct, whose nested structs are pointers into the frame, is
    flattened to its leaf words, and rebuilt from them as a live struct elsewhere. Memory is a map
    from word addresses to words; offsets are in words from the stack pointer. */
module VecLayout {
  import opened Wrappers

  datatype Ty = Scalar | Struct(fields: seq<Ty>)

  datatype Value = Word(w: int) | Block(fields: seq<Value>)

  type Mem = map<int, int>

  function Rd(m: Mem, a: int): int {
    if a in m then m[a] else 0
  }

  // --- Sizes ---------------------------------------------------------------

  /** Leaf words of a type. */
  function Leaves(ty: Ty): nat
    decreases ty, if ty.Scalar? then 0 else |ty.fields| + 2
  {
    if ty.Scalar? then 1 else LeavesFrom(ty, 0)
  }

  function LeavesFrom(ty: Ty, i: nat): nat
    requires ty.Struct? && i <= |ty.fields|
    decreases ty, |ty.fields| - i + 1
  {
    if i == |ty.fields| then 0 else Leaves(ty.fields[i]) + LeavesFrom(ty, i + 1)
  }

  /** The distance the rebuild moves past a field's leaves: never less than one word. */
  function LeafWords(ty: Ty): nat {
    if Leaves(ty) == 0 then 1 else Leaves(ty)
  }

  /** Words taken by the nested blocks of the fields from `i` on. */
  function Inner(ty: Ty, i: nat): nat
    requires ty.Struct? && i <= |ty.fields|
    decreases ty, |ty.fields| - i
  {
    if i == |ty.fields| then 0
    else
      (if ty.fields[i].Struct? then |ty.fields[i].fields| + Inner(ty.fields[i], 0) else 0) + Inner(ty, i + 1)
  }

  /** Words of a live struct with all its nested blocks. */
  function Slots(ty: Ty): nat
    requires ty.Struct?
  {
    |ty.fields| + Inner(ty, 0)
  }

  // --- Reading a live struct -----------------------------------------------

  function Read(m: Mem, ty: Ty, w: int): Value
    decreases ty, if ty.Scalar? then 0 else |ty.fields| + 2
  {
    if ty.Scalar? then Word(w) else Block(ReadFrom(m, ty, 0, w))
  }

  /** The fields from `i` on of the struct at `addr`. */
  function ReadFrom(m: Mem, ty: Ty, i: nat, addr: int): (r: seq<Value>)
    requires ty.Struct? && i <= |ty.fields|
    ensures |r| == |ty.fields| - i
    decreases ty, |ty.fields| - i + 1
  {
    if i == |ty.fields| then [] else [Read(m, ty.fields[i], Rd(m, addr + i))] + ReadFrom(m, ty, i + 1, addr)
  }

  /** The leaf words reached from the fields from `i` on. */
  function Words(m: Mem, ty: Ty, i: nat, addr: int): (r: seq<int>)
    requires ty.Struct? && i <= |ty.fields|
    ensures |r| == LeavesFrom(ty, i)
    decreases ty, |ty.fields| - i
  {
    if i == |ty.fields| then []
    else
      var w := Rd(m, addr + i);
      (if ty.fields[i].Struct? then Words(m, ty.fields[i], 0, w) else [w]) + Words(m, ty, i + 1, addr)
  }

  /** The leaves of a value from left to right. */
  function Fringe(v: Value): seq<int>
    decreases v, 0
  {
    match v
    case Word(w) => [w]
    case Block(fields) => FringeOf(fields)
  }

  function FringeOf(vs: seq<Value>): seq<int>
    decreases vs, 1
  {
    if vs == [] then [] else Fringe(vs[0]) + FringeOf(vs[1..])
  }

  /** The leaf words are those of the value, from left to right. */
  lemma {:induction false} WordsAreLeaves(m: Mem, ty: Ty, i: nat, addr: int)
    requires ty.Struct? && i <= |ty.fields|
    ensures Words(m, ty, i, addr) == FringeOf(ReadFrom(m, ty, i, addr))
    decreases ty, |ty.fields| - i
  {
    if i < |ty.fields| {
      var f, w := ty.fields[i], Rd(m, addr + i);
      var all := ReadFrom(m, ty, i, addr);
      assert all[0] == Read(m, f, w) && all[1..] == ReadFrom(m, ty, i + 1, addr);
      if f.Struct? {
        WordsAreLeaves(m, f, 0, w);
      }
      WordsAreLeaves(m, ty, i + 1, addr);
    }
  }

  /** Every address read on the way. */
  function Foot(m: Mem, ty: Ty, i: nat, addr: int): set<int>
    requires ty.Struct? && i <= |ty.fields|
    decreases ty, |ty.fields| - i
  {
    if i == |ty.fields| then {}
    else
      {addr + i} + (if ty.fields[i].Struct? then Foot(m, ty.fields[i], 0, Rd(m, addr + i)) else {}) +
      Foot(m, ty, i + 1, addr)
  }

  /** Reading depends on the footprint only. */
  lemma {:induction false} Stable(m: Mem, n: Mem, ty: Ty, i: nat, addr: int)
    requires ty.Struct? && i <= |ty.fields|
    requires forall a :: a in Foot(m, ty, i, addr) ==> Rd(n, a) == Rd(m, a)
    ensures Words(n, ty, i, addr) == Words(m, ty, i, addr) && Foot(n, ty, i, addr) == Foot(m, ty, i, addr)
    decreases ty, |ty.fields| - i
  {
    if i < |ty.fields| {
      if ty.fields[i].Struct? {
        Stable(m, n, ty.fields[i], 0, Rd(m, addr + i));
      }
      Stable(m, n, ty, i + 1, addr);
    }
  }

  /** The leaf words determine the value: two live structs of a type with the same leaves are
      structurally equal. */
  lemma {:induction false} SameWords(m: Mem, n: Mem, ty: Ty, i: nat, a: int, b: int)
    requires ty.Struct? && i <= |ty.fields|
    requires Words(m, ty, i, a) == Words(n, ty, i, b)
    ensures ReadFrom(m, ty, i, a) == ReadFrom(n, ty, i, b)
    decreases ty, |ty.fields| - i
  {
    if i < |ty.fields| {
      var f := ty.fields[i];
      var k := Leaves(f);
      var front := (if f.Struct? then Words(m, f, 0, Rd(m, a + i)) else [Rd(m, a + i)]);
      var gront := (if f.Struct? then Words(n, f, 0, Rd(n, b + i)) else [Rd(n, b + i)]);
      assert Words(m, ty, i, a)[..k] == front && Words(n, ty, i, b)[..k] == gront;
      assert Words(m, ty, i, a)[k..] == Words(m, ty, i + 1, a) && Words(n, ty, i, b)[k..] == Words(n, ty, i + 1, b);
      if f.Struct? {
        SameWords(m, n, f, 0, Rd(m, a + i), Rd(n, b + i));
      }
      SameWords(m, n, ty, i + 1, a, b);
    }
  }

  // --- Flattening ----------------------------------------------------------

  /** Memory, the register that walks the source, and the next free slot of the struct area. */
  datatype State = State(mem: Mem, x17: int, next: nat)

  /** Flattens the fields from `i` on to `sp + cursor`; returns the end of the words written. A level
      that meets a nested struct keeps its own base in a save slot. */
  function Flatten(sp: int, ty: Ty, i: nat, cursor: nat, save: Option<nat>, s: State): (State, nat)
    requires ty.Struct? && i <= |ty.fields|
    decreases ty, |ty.fields| - i
  {
    if i == |ty.fields| then (s, cursor)
    else if ty.fields[i].Struct? then
      var slot := if save.Some? then save.value else s.next;
      var next := if save.Some? then s.next else s.next + 1;
      var saved := s.mem[sp + slot := s.x17];
      var (t, end) := Flatten(sp, ty.fields[i], 0, cursor, None, State(saved, Rd(saved, s.x17 + i), next));
      Flatten(sp, ty, i + 1, end, Some(slot), t.(x17 := Rd(t.mem, sp + slot)))
    else
      Flatten(sp, ty, i + 1, cursor + 1, save, s.(mem := s.mem[sp + cursor := Rd(s.mem, s.x17 + i)]))
  }

  /** Save slots claimed while flattening the fields from `i` on. */
  function Saves(ty: Ty, i: nat, saved: bool): nat
    requires ty.Struct? && i <= |ty.fields|
    decreases ty, |ty.fields| - i
  {
    if i == |ty.fields| then 0
    else if ty.fields[i].Struct? then
      (if saved then 0 else 1) + Saves(ty.fields[i], 0, false) + Saves(ty, i + 1, true)
    else Saves(ty, i + 1, saved)
  }

  predicate Within(lo: int, n: nat, a: int) {
    lo <= a < lo + n
  }

  /** The words written and the save slots lie apart from the source, from each other, and from the
      save slot already in use. */
  ghost predicate FlattenRoom(sp: int, ty: Ty, i: nat, cursor: nat, save: Option<nat>, s: State)
    requires ty.Struct? && i <= |ty.fields|
  {
    var saves := Saves(ty, i, save.Some?);
    && (forall a :: a in Foot(s.mem, ty, i, s.x17) ==>
      && !Within(sp + cursor, LeavesFrom(ty, i), a) && !Within(sp + s.next, saves, a)
      && (save.Some? ==> a != sp + save.value))
    && (cursor + LeavesFrom(ty, i) <= s.next || s.next + saves <= cursor)
    && (save.Some? ==>
      && !Within(cursor, LeavesFrom(ty, i), save.value) && !Within(s.next, saves, save.value))
  }

  /** What flattening leaves behind: the leaf words in order, everything else but the save slots
      unchanged, and the walking register as it was. */
  ghost predicate Flattened(sp: int, ty: Ty, i: nat, cursor: nat, save: Option<nat>, s: State, t: State, end: nat)
    requires ty.Struct? && i <= |ty.fields|
  {
    && end == cursor + LeavesFrom(ty, i) && t.x17 == s.x17 && t.next == s.next + Saves(ty, i, save.Some?)
    && (forall k :: 0 <= k < LeavesFrom(ty, i) ==> Rd(t.mem, sp + cursor + k) == Words(s.mem, ty, i, s.x17)[k])
    && (forall a :: Outside(sp, ty, i, cursor, save, s.next, a) ==> Rd(t.mem, a) == Rd(s.mem, a))
  }

  /** `a` is neither a word of the buffer nor a save slot. */
  predicate Outside(sp: int, ty: Ty, i: nat, cursor: nat, save: Option<nat>, next: nat, a: int)
    requires ty.Struct? && i <= |ty.fields|
  {
    && !Within(sp + cursor, LeavesFrom(ty, i), a) && !Within(sp + next, Saves(ty, i, save.Some?), a)
    && (save.Some? ==> a != sp + save.value)
  }

  /** The state in which a nested struct at field `i` is flattened, and the state after it. */
  function Descend(sp: int, slot: nat, next: nat, i: nat, s: State): State {
    var saved := s.mem[sp + slot := s.x17];
    State(saved, Rd(saved, s.x17 + i), next)
  }

  lemma NestedSizes(ty: Ty, i: nat, saved: bool)
    requires ty.Struct? && i < |ty.fields| && ty.fields[i].Struct?
    ensures Leaves(ty.fields[i]) == LeavesFrom(ty.fields[i], 0)
    ensures LeavesFrom(ty, i) == LeavesFrom(ty.fields[i], 0) + LeavesFrom(ty, i + 1)
    ensures Saves(ty, i, saved) == (if saved then 0 else 1) + Saves(ty.fields[i], 0, false) + Saves(ty, i + 1, true)
  {
  }

  lemma FlattenedParts(sp: int, ty: Ty, i: nat, cursor: nat, save: Option<nat>, s: State, t: State, end: nat)
    requires ty.Struct? && i <= |ty.fields| && Flattened(sp, ty, i, cursor, save, s, t, end)
    ensures end == cursor + LeavesFrom(ty, i) && t.x17 == s.x17 && t.next == s.next + Saves(ty, i, save.Some?)
    ensures forall a :: Outside(sp, ty, i, cursor, save, s.next, a) ==> Rd(t.mem, a) == Rd(s.mem, a)
  {
    hide LeavesFrom, Saves, Words, Outside;
  }

  lemma ScalarSizes(ty: Ty, i: nat, saved: bool)
    requires ty.Struct? && i < |ty.fields| && ty.fields[i].Scalar?
    ensures LeavesFrom(ty, i) == 1 + LeavesFrom(ty, i + 1) && Saves(ty, i, saved) == Saves(ty, i + 1, saved)
  {
  }

  lemma FootNext(m: Mem, ty: Ty, i: nat, addr: int)
    requires ty.Struct? && i < |ty.fields|
    ensures addr + i in Foot(m, ty, i, addr)
    ensures ty.fields[i].Struct? ==> Foot(m, ty.fields[i], 0, Rd(m, addr + i)) <= Foot(m, ty, i, addr)
    ensures Foot(m, ty, i + 1, addr) <= Foot(m, ty, i, addr)
  {
  }

  lemma NestedRoom(sp: int, ty: Ty, i: nat, cursor: nat, save: Option<nat>, s: State, slot: nat, next: nat)
    requires ty.Struct? && i < |ty.fields| && ty.fields[i].Struct? && FlattenRoom(sp, ty, i, cursor, save, s)
    requires slot == (if save.Some? then save.value else s.next) && next == (if save.Some? then s.next else s.next + 1)
    ensures var d := Descend(sp, slot, next, i, s);
      && FlattenRoom(sp, ty.fields[i], 0, cursor, None, d)
      && d.x17 == Rd(s.mem, s.x17 + i)
      && Words(d.mem, ty.fields[i], 0, d.x17) == Words(s.mem, ty.fields[i], 0, d.x17)
  {
    hide Words, Foot, Saves, LeavesFrom, Leaves;
    var d, f := Descend(sp, slot, next, i, s), ty.fields[i];
    NestedSizes(ty, i, save.Some?);
    FootNext(s.mem, ty, i, s.x17);
    Stable(s.mem, d.mem, f, 0, d.x17);
  }

  lemma RestRoom(sp: int, ty: Ty, i: nat, cursor: nat, save: Option<nat>, s: State, slot: nat, next: nat, t: State,
                 end: nat)
    requires ty.Struct? && i < |ty.fields| && ty.fields[i].Struct? && FlattenRoom(sp, ty, i, cursor, save, s)
    requires slot == (if save.Some? then save.value else s.next) && next == (if save.Some? then s.next else s.next + 1)
    requires Flattened(sp, ty.fields[i], 0, cursor, None, Descend(sp, slot, next, i, s), t, end)
    ensures var t' := t.(x17 := Rd(t.mem, sp + slot));
      && t'.x17 == s.x17
      && FlattenRoom(sp, ty, i + 1, end, Some(slot), t')
      && Words(t'.mem, ty, i + 1, s.x17) == Words(s.mem, ty, i + 1, s.x17)
  {
    hide Words, Foot, Saves, LeavesFrom, Leaves, Flattened;
    NestedSizes(ty, i, save.Some?);
    FootNext(s.mem, ty, i, s.x17);
    FlattenedParts(sp, ty.fields[i], 0, cursor, None, Descend(sp, slot, next, i, s), t, end);
    var f, d := ty.fields[i], Descend(sp, slot, next, i, s);
    assert Outside(sp, f, 0, cursor, None, next, sp + slot);
    forall a | a in Foot(s.mem, ty, i + 1, s.x17) ensures Rd(t.mem, a) == Rd(s.mem, a) {
      assert Outside(sp, f, 0, cursor, None, next, a);
    }
    Stable(s.mem, t.mem, ty, i + 1, s.x17);
  }

  /** Flattening writes exactly the leaf words of the source, in order. */
  lemma {:induction false} FlattenWords(sp: int, ty: Ty, i: nat, cursor: nat, save: Option<nat>, s: State)
    requires ty.Struct? && i <= |ty.fields| && FlattenRoom(sp, ty, i, cursor, save, s)
    ensures var (t, end) := Flatten(sp, ty, i, cursor, save, s); Flattened(sp, ty, i, cursor, save, s, t, end)
    decreases ty, |ty.fields| - i
  {
    hide FlattenRoom, Flattened, Words, Foot;
    if i == |ty.fields| {
      NothingLeft(sp, ty, cursor, save, s);
    } else {
      var f := ty.fields[i];
      if f.Struct? {
        var slot := if save.Some? then save.value else s.next;
        var next := if save.Some? then s.next else s.next + 1;
        NestedRoom(sp, ty, i, cursor, save, s, slot, next);
        var d := Descend(sp, slot, next, i, s);
        FlattenWords(sp, f, 0, cursor, None, d);
        var (t, end) := Flatten(sp, f, 0, cursor, None, d);
        RestRoom(sp, ty, i, cursor, save, s, slot, next, t, end);
        var t' := t.(x17 := Rd(t.mem, sp + slot));
        FlattenWords(sp, ty, i + 1, end, Some(slot), t');
        var (z, last) := Flatten(sp, ty, i + 1, end, Some(slot), t');
        JoinNested(sp, ty, i, cursor, save, s, slot, next, t, end, z, last);
      } else {
        ScalarRoom(sp, ty, i, cursor, save, s);
        var t := s.(mem := s.mem[sp + cursor := Rd(s.mem, s.x17 + i)]);
        FlattenWords(sp, ty, i + 1, cursor + 1, save, t);
        var (z, last) := Flatten(sp, ty, i + 1, cursor + 1, save, t);
        JoinScalar(sp, ty, i, cursor, save, s, t, z, last);
      }
    }
  }

  lemma NothingLeft(sp: int, ty: Ty, cursor: nat, save: Option<nat>, s: State)
    requires ty.Struct?
    ensures Flattened(sp, ty, |ty.fields|, cursor, save, s, s, cursor)
  {
  }

  lemma JoinNested(sp: int, ty: Ty, i: nat, cursor: nat, save: Option<nat>, s: State, slot: nat, next: nat,
                   t: State, end: nat, z: State, last: nat)
    requires ty.Struct? && i < |ty.fields| && ty.fields[i].Struct? && FlattenRoom(sp, ty, i, cursor, save, s)
    requires slot == (if save.Some? then save.value else s.next) && next == (if save.Some? then s.next else s.next + 1)
    requires Flattened(sp, ty.fields[i], 0, cursor, None, Descend(sp, slot, next, i, s), t, end)
    requires Flattened(sp, ty, i + 1, end, Some(slot), t.(x17 := Rd(t.mem, sp + slot)), z, last)
    ensures Flattened(sp, ty, i, cursor, save, s, z, last)
  {
    hide FlattenRoom, Foot, Saves, LeavesFrom, Leaves, Words;
    NestedSizes(ty, i, save.Some?);
    NestedRoom(sp, ty, i, cursor, save, s, slot, next);
    RestRoom(sp, ty, i, cursor, save, s, slot, next, t, end);
    WordsNext(s.mem, ty, i, s.x17);
    var f, d := ty.fields[i], Descend(sp, slot, next, i, s);
    var n := Leaves(f);
    var t' := t.(x17 := Rd(t.mem, sp + slot));
    forall k | 0 <= k < LeavesFrom(ty, i) ensures Rd(z.mem, sp + cursor + k) == Words(s.mem, ty, i, s.x17)[k] {
      if k < n {
        InBuffer(sp, ty, i, cursor, save, s, slot, next, end, k);
        assert Rd(z.mem, sp + cursor + k) == Rd(t.mem, sp + cursor + k);
      } else {
        assert Rd(z.mem, sp + end + (k - n)) == Words(t'.mem, ty, i + 1, t'.x17)[k - n];
      }
    }
    forall a | Outside(sp, ty, i, cursor, save, s.next, a) ensures Rd(z.mem, a) == Rd(s.mem, a) {
      assert Outside(sp, f, 0, cursor, None, next, a);
      assert Outside(sp, ty, i + 1, end, Some(slot), t.next, a);
    }
  }

  lemma InBuffer(sp: int, ty: Ty, i: nat, cursor: nat, save: Option<nat>, s: State, slot: nat, next: nat, end: nat,
                 k: nat)
    requires ty.Struct? && i < |ty.fields| && ty.fields[i].Struct? && FlattenRoom(sp, ty, i, cursor, save, s)
    requires slot == (if save.Some? then save.value else s.next) && next == (if save.Some? then s.next else s.next + 1)
    requires end == cursor + Leaves(ty.fields[i]) && k < Leaves(ty.fields[i])
    ensures Outside(sp, ty, i + 1, end, Some(slot), next + Saves(ty.fields[i], 0, false), sp + cursor + k)
  {
    hide Words, Foot, Saves, LeavesFrom, Leaves;
    NestedSizes(ty, i, save.Some?);
  }

  lemma WordsNext(m: Mem, ty: Ty, i: nat, addr: int)
    requires ty.Struct? && i < |ty.fields|
    ensures var w := Rd(m, addr + i);
      Words(m, ty, i, addr) ==
        (if ty.fields[i].Struct? then Words(m, ty.fields[i], 0, w) else [w]) + Words(m, ty, i + 1, addr)
  {
  }

  lemma ScalarRoom(sp: int, ty: Ty, i: nat, cursor: nat, save: Option<nat>, s: State)
    requires ty.Struct? && i < |ty.fields| && ty.fields[i].Scalar? && FlattenRoom(sp, ty, i, cursor, save, s)
    ensures var t := s.(mem := s.mem[sp + cursor := Rd(s.mem, s.x17 + i)]);
      && FlattenRoom(sp, ty, i + 1, cursor + 1, save, t)
      && Words(t.mem, ty, i + 1, s.x17) == Words(s.mem, ty, i + 1, s.x17)
  {
    hide Words, Foot, Saves, LeavesFrom, Leaves;
    ScalarSizes(ty, i, save.Some?);
    FootNext(s.mem, ty, i, s.x17);
    var t := s.(mem := s.mem[sp + cursor := Rd(s.mem, s.x17 + i)]);
    Stable(s.mem, t.mem, ty, i + 1, s.x17);
  }

  lemma BufferApart(sp: int, ty: Ty, i: nat, cursor: nat, save: Option<nat>, s: State)
    requires ty.Struct? && i < |ty.fields| && ty.fields[i].Scalar? && FlattenRoom(sp, ty, i, cursor, save, s)
    ensures Outside(sp, ty, i + 1, cursor + 1, save, s.next, sp + cursor)
  {
    hide Foot, Saves, LeavesFrom, Leaves, Words;
    ScalarSizes(ty, i, save.Some?);
  }

  lemma JoinScalar(sp: int, ty: Ty, i: nat, cursor: nat, save: Option<nat>, s: State, t: State, z: State, last: nat)
    requires ty.Struct? && i < |ty.fields| && ty.fields[i].Scalar? && FlattenRoom(sp, ty, i, cursor, save, s)
    requires t == s.(mem := s.mem[sp + cursor := Rd(s.mem, s.x17 + i)])
    requires Flattened(sp, ty, i + 1, cursor + 1, save, t, z, last)
    ensures Flattened(sp, ty, i, cursor, save, s, z, last)
  {
    hide Foot, Saves, LeavesFrom, Leaves, Words, FlattenRoom;
    ScalarSizes(ty, i, save.Some?);
    ScalarRoom(sp, ty, i, cursor, save, s);
    BufferApart(sp, ty, i, cursor, save, s);
    WordsNext(s.mem, ty, i, s.x17);
    forall k | 0 <= k < LeavesFrom(ty, i) ensures Rd(z.mem, sp + cursor + k) == Words(s.mem, ty, i, s.x17)[k] {
      if k > 0 {
        assert Rd(z.mem, sp + (cursor + 1) + (k - 1)) == Words(t.mem, ty, i + 1, t.x17)[k - 1];
      }
    }
    forall a | Outside(sp, ty, i, cursor, save, s.next, a) ensures Rd(z.mem, a) == Rd(s.mem, a) {
      assert Outside(sp, ty, i + 1, cursor + 1, save, s.next, a);
    }
  }
}
