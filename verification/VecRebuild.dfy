/** Rebuilding a struct from its leaf words, and the round trip through a vector. */
module VecRebuild {
  import opened Wrappers
  import opened VecLayout

  // --- Rebuilding ----------------------------------------------------------

  /** Rebuilds the fields from `i` on at `sp + out`, nested blocks from `sp + inner` on, taking leaf
      words from `sp + flat` on; returns the next free slot for nested blocks. */
  function Rebuild(sp: int, ty: Ty, i: nat, flat: nat, out: nat, inner: nat, m: Mem): (Mem, nat)
    requires ty.Struct? && i <= |ty.fields|
    decreases ty, |ty.fields| - i
  {
    if i == |ty.fields| then (m, inner)
    else
      var f := ty.fields[i];
      if f.Struct? then
        var (nested, next) := Rebuild(sp, f, 0, flat, inner, inner + |f.fields|, m);
        Rebuild(sp, ty, i + 1, flat + LeafWords(f), out, next, nested[sp + out + i := sp + inner])
      else
        Rebuild(sp, ty, i + 1, flat + 1, out, inner, m[sp + out + i := Rd(m, sp + flat)])
  }

  /** Which word each leaf is taken from. */
  function Offsets(ty: Ty, i: nat, flat: nat): (r: seq<nat>)
    requires ty.Struct? && i <= |ty.fields|
    ensures |r| == LeavesFrom(ty, i)
    decreases ty, |ty.fields| - i
  {
    if i == |ty.fields| then []
    else
      var f := ty.fields[i];
      (if f.Struct? then Offsets(f, 0, flat) else [flat]) + Offsets(ty, i + 1, flat + LeafWords(f))
  }

  /** A nested struct without leaves makes the rebuild skip one word; other fields take theirs. */
  lemma EmptySkips(ty: Ty, i: nat, flat: nat)
    requires ty.Struct? && i < |ty.fields|
    ensures Leaves(ty.fields[i]) == 0 ==> Offsets(ty, i, flat) == Offsets(ty, i + 1, flat + 1)
    ensures var n := Leaves(ty.fields[i]);
      n > 0 ==> Offsets(ty, i, flat)[n..] == Offsets(ty, i + 1, flat + n)
  {
  }

  function Fetch(m: Mem, sp: int, offsets: seq<nat>): (r: seq<int>)
    ensures |r| == |offsets|
  {
    seq(|offsets|, k requires 0 <= k < |offsets| => Rd(m, sp + offsets[k]))
  }

  /** The words written while rebuilding the fields from `i` on. */
  predicate Written(sp: int, ty: Ty, i: nat, out: nat, inner: nat, a: int)
    requires ty.Struct? && i <= |ty.fields|
  {
    sp + out + i <= a < sp + out + |ty.fields| || Within(sp + inner, Inner(ty, i), a)
  }

  /** Nested blocks come after the outer one, and no leaf word is overwritten. */
  ghost predicate RebuildRoom(sp: int, ty: Ty, i: nat, flat: nat, out: nat, inner: nat)
    requires ty.Struct? && i <= |ty.fields|
  {
    && out + |ty.fields| <= inner
    && forall o :: o in Offsets(ty, i, flat) ==> !Written(sp, ty, i, out, inner, sp + o)
  }

  /** What rebuilding leaves behind: the leaves are the words fetched, the footprint is exactly the
      words written, and everything else is unchanged. */
  ghost predicate Rebuilt(sp: int, ty: Ty, i: nat, flat: nat, out: nat, inner: nat, m: Mem, n: Mem, end: nat)
    requires ty.Struct? && i <= |ty.fields|
  {
    && end == inner + Inner(ty, i)
    && Words(n, ty, i, sp + out) == Fetch(m, sp, Offsets(ty, i, flat))
    && Occupies(sp, ty, i, out, inner, n)
    && Untouched(sp, ty, i, out, inner, m, n)
  }

  ghost predicate Occupies(sp: int, ty: Ty, i: nat, out: nat, inner: nat, n: Mem)
    requires ty.Struct? && i <= |ty.fields|
  {
    var addr := sp + out;
    forall a :: a in Foot(n, ty, i, addr) <==> Written(sp, ty, i, out, inner, a)
  }

  ghost predicate Untouched(sp: int, ty: Ty, i: nat, out: nat, inner: nat, m: Mem, n: Mem)
    requires ty.Struct? && i <= |ty.fields|
  {
    forall a :: !Written(sp, ty, i, out, inner, a) ==> Rd(n, a) == Rd(m, a)
  }

  lemma NestedInner(ty: Ty, i: nat)
    requires ty.Struct? && i < |ty.fields| && ty.fields[i].Struct?
    ensures Inner(ty, i) == |ty.fields[i].fields| + Inner(ty.fields[i], 0) + Inner(ty, i + 1)
  {
  }

  lemma OffsetsNext(ty: Ty, i: nat, flat: nat)
    requires ty.Struct? && i < |ty.fields|
    ensures Offsets(ty, i, flat) ==
      (if ty.fields[i].Struct? then Offsets(ty.fields[i], 0, flat) else [flat]) + Offsets(ty, i + 1,
        flat + LeafWords(ty.fields[i]))
  {
  }

  lemma NestedRebuildRoom(sp: int, ty: Ty, i: nat, flat: nat, out: nat, inner: nat)
    requires ty.Struct? && i < |ty.fields| && ty.fields[i].Struct? && RebuildRoom(sp, ty, i, flat, out, inner)
    ensures var f := ty.fields[i];
      && RebuildRoom(sp, f, 0, flat, inner, inner + |f.fields|)
      && RebuildRoom(sp, ty, i + 1, flat + LeafWords(f), out, inner + |f.fields| + Inner(f, 0))
  {
    hide Offsets, Inner, LeafWords;
    NestedInner(ty, i);
    OffsetsNext(ty, i, flat);
    var f := ty.fields[i];
    forall o | o in Offsets(f, 0, flat) ensures !Written(sp, f, 0, inner, inner + |f.fields|, sp + o) {
      assert o in Offsets(ty, i, flat);
    }
    var rest := Offsets(ty, i + 1, flat + LeafWords(f));
    forall o | o in rest
      ensures !Written(sp, ty, i + 1, out, inner + |f.fields| + Inner(f, 0), sp + o)
    {
      assert o in Offsets(ty, i, flat);
    }
  }

  lemma FetchSame(m: Mem, n: Mem, sp: int, offsets: seq<nat>)
    requires forall o :: o in offsets ==> Rd(n, sp + o) == Rd(m, sp + o)
    ensures Fetch(n, sp, offsets) == Fetch(m, sp, offsets)
  {
    forall k | 0 <= k < |offsets| ensures Rd(n, sp + offsets[k]) == Rd(m, sp + offsets[k]) {
      assert offsets[k] in offsets;
    }
  }

  lemma FetchJoin(m: Mem, sp: int, a: seq<nat>, b: seq<nat>)
    ensures Fetch(m, sp, a + b) == Fetch(m, sp, a) + Fetch(m, sp, b)
  {
  }

  /** Rebuilding makes a live struct of the words it fetches, on exactly the words it writes. */
  lemma {:induction false} RebuildWords(sp: int, ty: Ty, i: nat, flat: nat, out: nat, inner: nat, m: Mem)
    requires ty.Struct? && i <= |ty.fields| && RebuildRoom(sp, ty, i, flat, out, inner)
    ensures var (n, end) := Rebuild(sp, ty, i, flat, out, inner, m); Rebuilt(sp, ty, i, flat, out, inner, m, n, end)
    decreases ty, |ty.fields| - i
  {
    hide RebuildRoom, Rebuilt, Words, Foot, Offsets, Inner, LeafWords;
    if i == |ty.fields| {
      NothingRebuilt(sp, ty, flat, out, inner, m);
    } else {
      var f := ty.fields[i];
      if f.Struct? {
        NestedRebuildRoom(sp, ty, i, flat, out, inner);
        RebuildWords(sp, f, 0, flat, inner, inner + |f.fields|, m);
        var (nested, next) := Rebuild(sp, f, 0, flat, inner, inner + |f.fields|, m);
        RebuiltEnd(sp, f, 0, flat, inner, inner + |f.fields|, m, nested, next);
        var linked := nested[sp + out + i := sp + inner];
        RebuildWords(sp, ty, i + 1, flat + LeafWords(f), out, next, linked);
        var (n, end) := Rebuild(sp, ty, i + 1, flat + LeafWords(f), out, next, linked);
        NestedRebuilt(sp, ty, i, flat, out, inner, m, nested, next, n, end);
      } else {
        ScalarRebuildRoom(sp, ty, i, flat, out, inner);
        var stored := m[sp + out + i := Rd(m, sp + flat)];
        RebuildWords(sp, ty, i + 1, flat + 1, out, inner, stored);
        var (n, end) := Rebuild(sp, ty, i + 1, flat + 1, out, inner, stored);
        ScalarRebuilt(sp, ty, i, flat, out, inner, m, n, end);
      }
    }
  }

  lemma NothingRebuilt(sp: int, ty: Ty, flat: nat, out: nat, inner: nat, m: Mem)
    requires ty.Struct?
    ensures Rebuilt(sp, ty, |ty.fields|, flat, out, inner, m, m, inner)
  {
  }

  lemma RebuiltEnd(sp: int, ty: Ty, i: nat, flat: nat, out: nat, inner: nat, m: Mem, n: Mem, end: nat)
    requires ty.Struct? && i <= |ty.fields| && Rebuilt(sp, ty, i, flat, out, inner, m, n, end)
    ensures end == inner + Inner(ty, i)
  {
  }

  lemma ScalarRebuildRoom(sp: int, ty: Ty, i: nat, flat: nat, out: nat, inner: nat)
    requires ty.Struct? && i < |ty.fields| && ty.fields[i].Scalar? && RebuildRoom(sp, ty, i, flat, out, inner)
    ensures RebuildRoom(sp, ty, i + 1, flat + 1, out, inner) && Inner(ty, i) == Inner(ty, i + 1)
    ensures !Written(sp, ty, i, out, inner, sp + flat)
  {
    OffsetsNext(ty, i, flat);
    assert LeafWords(ty.fields[i]) == 1;
    assert Inner(ty, i) == Inner(ty, i + 1);
    hide Offsets, Inner, LeafWords;
    assert flat in Offsets(ty, i, flat);
    var rest := Offsets(ty, i + 1, flat + 1);
    forall o | o in rest ensures !Written(sp, ty, i + 1, out, inner, sp + o) {
      assert o in Offsets(ty, i, flat);
    }
  }

  lemma ScalarRebuilt(sp: int, ty: Ty, i: nat, flat: nat, out: nat, inner: nat, m: Mem, n: Mem, end: nat)
    requires ty.Struct? && i < |ty.fields| && ty.fields[i].Scalar? && RebuildRoom(sp, ty, i, flat, out, inner)
    requires Rebuilt(sp, ty, i + 1, flat + 1, out, inner, m[sp + out + i := Rd(m, sp + flat)], n, end)
    ensures Rebuilt(sp, ty, i, flat, out, inner, m, n, end)
  {
    hide Words, Foot, Offsets, Inner, LeafWords, Occupies, Untouched;
    var stored := m[sp + out + i := Rd(m, sp + flat)];
    ScalarRebuildRoom(sp, ty, i, flat, out, inner);
    OneLeaf(ty, i);
    OffsetsNext(ty, i, flat);
    WordsNext(n, ty, i, sp + out);
    OwnWord(sp, ty, i, flat, out, inner, stored, n);
    ScalarUntouched(sp, ty, i, out, inner, m, Rd(m, sp + flat), n);
    FetchStored(sp, ty, i, flat, out, inner, m, stored);
    ScalarOccupies(sp, ty, i, out, inner, n);
  }

  lemma OneLeaf(ty: Ty, i: nat)
    requires ty.Struct? && i < |ty.fields| && ty.fields[i].Scalar?
    ensures LeafWords(ty.fields[i]) == 1 && Inner(ty, i) == Inner(ty, i + 1)
  {
  }

  /** Later fields do not overwrite the word of field `i`. */
  lemma OwnWord(sp: int, ty: Ty, i: nat, flat: nat, out: nat, inner: nat, m: Mem, n: Mem)
    requires ty.Struct? && i < |ty.fields| && out + |ty.fields| <= inner
    requires Untouched(sp, ty, i + 1, out, inner, m, n)
    ensures Rd(n, sp + out + i) == Rd(m, sp + out + i)
  {
    hide Inner;
    assert !Written(sp, ty, i + 1, out, inner, sp + out + i);
  }

  lemma FetchStored(sp: int, ty: Ty, i: nat, flat: nat, out: nat, inner: nat, m: Mem, stored: Mem)
    requires ty.Struct? && i < |ty.fields| && RebuildRoom(sp, ty, i, flat, out, inner)
    requires Untouched(sp, ty, i, out, inner, m, stored)
    ensures var rest := Offsets(ty, i + 1, flat + LeafWords(ty.fields[i]));
      Fetch(stored, sp, rest) == Fetch(m, sp, rest)
    ensures Fetch(m, sp, Offsets(ty, i, flat)) ==
      (if ty.fields[i].Struct? then Fetch(m, sp, Offsets(ty.fields[i], 0, flat)) else [Rd(m, sp + flat)]) +
      Fetch(m, sp, Offsets(ty, i + 1, flat + LeafWords(ty.fields[i])))
  {
    hide Inner, LeafWords, Offsets;
    OffsetsNext(ty, i, flat);
    var front := if ty.fields[i].Struct? then Offsets(ty.fields[i], 0, flat) else [flat];
    var rest := Offsets(ty, i + 1, flat + LeafWords(ty.fields[i]));
    forall o | o in rest ensures Rd(stored, sp + o) == Rd(m, sp + o) {
      assert o in Offsets(ty, i, flat);
    }
    FetchSame(m, stored, sp, rest);
    FetchJoin(m, sp, front, rest);
    assert Fetch(m, sp, [flat]) == [Rd(m, sp + flat)];
  }

  lemma ScalarOccupies(sp: int, ty: Ty, i: nat, out: nat, inner: nat, n: Mem)
    requires ty.Struct? && i < |ty.fields| && ty.fields[i].Scalar?
    requires Occupies(sp, ty, i + 1, out, inner, n)
    ensures Occupies(sp, ty, i, out, inner, n)
  {
    OneLeaf(ty, i);
    var addr := sp + out;
    assert Foot(n, ty, i, addr) == {addr + i} + Foot(n, ty, i + 1, addr);
    hide Foot, Inner;
  }

  lemma ScalarUntouched(sp: int, ty: Ty, i: nat, out: nat, inner: nat, m: Mem, w: int, n: Mem)
    requires ty.Struct? && i < |ty.fields| && ty.fields[i].Scalar?
    requires Untouched(sp, ty, i + 1, out, inner, m[sp + out + i := w], n)
    ensures Untouched(sp, ty, i, out, inner, m, n) && Untouched(sp, ty, i, out, inner, m, m[sp + out + i := w])
  {
    OneLeaf(ty, i);
    hide Inner;
    forall a | !Written(sp, ty, i, out, inner, a) ensures Rd(n, a) == Rd(m, a) {
      assert !Written(sp, ty, i + 1, out, inner, a);
    }
  }

  lemma NestedRebuilt(sp: int, ty: Ty, i: nat, flat: nat, out: nat, inner: nat, m: Mem, nested: Mem, next: nat,
                      n: Mem, end: nat)
    requires ty.Struct? && i < |ty.fields| && ty.fields[i].Struct? && RebuildRoom(sp, ty, i, flat, out, inner)
    requires Rebuilt(sp, ty.fields[i], 0, flat, inner, inner + |ty.fields[i].fields|, m, nested, next)
    requires Rebuilt(sp, ty, i + 1, flat + LeafWords(ty.fields[i]), out, next, nested[sp + out + i := sp + inner], n,
      end)
    ensures Rebuilt(sp, ty, i, flat, out, inner, m, n, end)
  {
    hide Words, Foot, Offsets, Inner, LeafWords, Occupies, Untouched;
    var f := ty.fields[i];
    var linked := nested[sp + out + i := sp + inner];
    NestedInner(ty, i);
    WordsNext(n, ty, i, sp + out);
    OwnWord(sp, ty, i, flat, out, next, linked, n);
    NestedUntouched(sp, ty, i, out, inner, m, nested, next, n);
    FetchStored(sp, ty, i, flat, out, inner, m, linked);
    NestedKept(sp, ty, i, out, inner, nested, next, n);
    FootWritten(sp, ty, i, out, inner, next, n);
  }

  lemma NestedUntouched(sp: int, ty: Ty, i: nat, out: nat, inner: nat, m: Mem, nested: Mem, next: nat, n: Mem)
    requires ty.Struct? && i < |ty.fields| && ty.fields[i].Struct? && out + |ty.fields| <= inner
    requires next == inner + |ty.fields[i].fields| + Inner(ty.fields[i], 0)
    requires Untouched(sp, ty.fields[i], 0, inner, inner + |ty.fields[i].fields|, m, nested)
    requires Untouched(sp, ty, i + 1, out, next, nested[sp + out + i := sp + inner], n)
    ensures Untouched(sp, ty, i, out, inner, m, n)
    ensures Untouched(sp, ty, i, out, inner, m, nested[sp + out + i := sp + inner])
  {
    hide Inner;
    NestedInner(ty, i);
    var f := ty.fields[i];
    forall a | !Written(sp, ty, i, out, inner, a)
      ensures Rd(n, a) == Rd(m, a) && Rd(nested[sp + out + i := sp + inner], a) == Rd(m, a)
    {
      assert !Written(sp, ty, i + 1, out, next, a);
      assert !Written(sp, f, 0, inner, inner + |f.fields|, a);
    }
  }

  /** Building the later fields leaves the nested block alone. */
  lemma NestedKept(sp: int, ty: Ty, i: nat, out: nat, inner: nat, nested: Mem, next: nat, n: Mem)
    requires ty.Struct? && i < |ty.fields| && ty.fields[i].Struct? && out + |ty.fields| <= inner
    requires next == inner + |ty.fields[i].fields| + Inner(ty.fields[i], 0)
    requires Occupies(sp, ty.fields[i], 0, inner, inner + |ty.fields[i].fields|, nested)
    requires Untouched(sp, ty, i + 1, out, next, nested[sp + out + i := sp + inner], n)
    ensures Words(n, ty.fields[i], 0, sp + inner) == Words(nested, ty.fields[i], 0, sp + inner)
    ensures Occupies(sp, ty.fields[i], 0, inner, inner + |ty.fields[i].fields|, n)
  {
    hide Words, Foot, Inner;
    var f, addr := ty.fields[i], sp + inner;
    forall a | a in Foot(nested, f, 0, addr) ensures Rd(n, a) == Rd(nested, a) {
      assert Written(sp, f, 0, inner, inner + |f.fields|, a);
      assert !Written(sp, ty, i + 1, out, next, a);
    }
    Stable(nested, n, f, 0, addr);
  }

  lemma FootWritten(sp: int, ty: Ty, i: nat, out: nat, inner: nat, next: nat, n: Mem)
    requires ty.Struct? && i < |ty.fields| && ty.fields[i].Struct? && Rd(n, sp + out + i) == sp + inner
    requires next == inner + |ty.fields[i].fields| + Inner(ty.fields[i], 0)
    requires Occupies(sp, ty.fields[i], 0, inner, inner + |ty.fields[i].fields|, n)
    requires Occupies(sp, ty, i + 1, out, next, n)
    ensures Occupies(sp, ty, i, out, inner, n)
  {
    NestedInner(ty, i);
    var addr := sp + out;
    assert Foot(n, ty, i, addr) == {addr + i} + Foot(n, ty.fields[i], 0, sp + inner) + Foot(n, ty, i + 1, addr);
    hide Foot, Inner;
  }

  // --- Round trip ----------------------------------------------------------

  /** No leaf comes after a nested struct without leaves in the same struct, at any depth: such a
      struct is counted as one word when rebuilding and as none when flattening. */
  predicate Aligned(ty: Ty, i: nat)
    requires ty.Struct? && i <= |ty.fields|
    decreases ty, |ty.fields| - i
  {
    i < |ty.fields| ==>
      && (ty.fields[i].Struct? ==> Aligned(ty.fields[i], 0))
      && (Leaves(ty.fields[i]) == 0 ==> LeavesFrom(ty, i + 1) == 0)
      && Aligned(ty, i + 1)
  }

  ghost predicate InOrder(offsets: seq<nat>, flat: nat) {
    forall k :: 0 <= k < |offsets| ==> offsets[k] == flat + k
  }

  lemma {:induction false} NoLeavesAligned(ty: Ty, i: nat)
    requires ty.Struct? && i <= |ty.fields| && LeavesFrom(ty, i) == 0
    ensures Aligned(ty, i)
    decreases ty, |ty.fields| - i
  {
    if i < |ty.fields| {
      if ty.fields[i].Struct? {
        NoLeavesAligned(ty.fields[i], 0);
      }
      NoLeavesAligned(ty, i + 1);
    }
  }

  lemma {:induction false} OffsetsFrom(ty: Ty, i: nat, flat: nat)
    requires ty.Struct? && i <= |ty.fields|
    ensures forall k :: 0 <= k < LeavesFrom(ty, i) ==> Offsets(ty, i, flat)[k] >= flat
    decreases ty, |ty.fields| - i
  {
    if i < |ty.fields| {
      if ty.fields[i].Struct? {
        OffsetsFrom(ty.fields[i], 0, flat);
      }
      OffsetsFrom(ty, i + 1, flat + LeafWords(ty.fields[i]));
    }
  }

  lemma InOrderJoin(a: seq<nat>, b: seq<nat>, flat: nat)
    ensures InOrder(a + b, flat) <==> InOrder(a, flat) && InOrder(b, flat + |a|)
  {
    if InOrder(a + b, flat) {
      forall k | 0 <= k < |a| ensures a[k] == flat + k {
        assert (a + b)[k] == a[k];
      }
      forall k | 0 <= k < |b| ensures b[k] == flat + |a| + k {
        assert (a + b)[|a| + k] == b[k];
      }
    }
  }

  /** A field's leaves are taken in order, and so are the later ones, exactly when the field is
      aligned and does not shift them. */
  lemma OrderNested(ty: Ty, i: nat, flat: nat)
    requires ty.Struct? && i < |ty.fields| && ty.fields[i].Struct?
    requires InOrder(Offsets(ty.fields[i], 0, flat), flat) <==> Aligned(ty.fields[i], 0)
    requires InOrder(Offsets(ty, i + 1, flat + LeafWords(ty.fields[i])), flat + LeafWords(ty.fields[i])) <==>
      Aligned(ty, i + 1)
    ensures InOrder(Offsets(ty, i, flat), flat) <==> Aligned(ty, i)
  {
    hide Offsets, InOrder, Aligned, LeavesFrom;
    var f := ty.fields[i];
    var rest := Offsets(ty, i + 1, flat + LeafWords(f));
    OffsetsNext(ty, i, flat);
    InOrderJoin(Offsets(f, 0, flat), rest, flat);
    AlignedNested(ty, i);
    if Leaves(f) == 0 {
      NoLeavesAligned(f, 0);
      if LeavesFrom(ty, i + 1) == 0 {
        NoLeavesAligned(ty, i + 1);
        Empty(rest, flat);
      } else {
        OffsetsFrom(ty, i + 1, flat + 1);
        LateStart(rest, flat);
      }
    }
  }

  lemma AlignedNested(ty: Ty, i: nat)
    requires ty.Struct? && i < |ty.fields| && ty.fields[i].Struct?
    ensures Aligned(ty, i) <==>
      && Aligned(ty.fields[i], 0) && Aligned(ty, i + 1)
      && (Leaves(ty.fields[i]) == 0 ==> LeavesFrom(ty, i + 1) == 0)
    ensures Leaves(ty.fields[i]) == LeavesFrom(ty.fields[i], 0)
  {
  }

  lemma Empty(offsets: seq<nat>, flat: nat)
    requires offsets == []
    ensures InOrder(offsets, flat)
  {
  }

  lemma LateStart(offsets: seq<nat>, flat: nat)
    requires offsets != [] && offsets[0] > flat
    ensures !InOrder(offsets, flat)
  {
  }

  /** The rebuild takes the leaf words in the order they were written exactly for aligned types. */
  lemma {:induction false} OrderExact(ty: Ty, i: nat, flat: nat)
    requires ty.Struct? && i <= |ty.fields|
    ensures InOrder(Offsets(ty, i, flat), flat) <==> Aligned(ty, i)
    decreases ty, |ty.fields| - i
  {
    if i == |ty.fields| {
      NothingOrdered(ty, flat);
    } else {
      hide InOrder, Offsets, Aligned, LeafWords;
      var f := ty.fields[i];
      OrderExact(ty, i + 1, flat + LeafWords(f));
      if f.Struct? {
        OrderExact(f, 0, flat);
        OrderNested(ty, i, flat);
      } else {
        OrderScalar(ty, i, flat);
      }
    }
  }

  lemma NothingOrdered(ty: Ty, flat: nat)
    requires ty.Struct?
    ensures InOrder(Offsets(ty, |ty.fields|, flat), flat) && Aligned(ty, |ty.fields|)
  {
  }

  lemma OrderScalar(ty: Ty, i: nat, flat: nat)
    requires ty.Struct? && i < |ty.fields| && !ty.fields[i].Struct?
    requires var f := ty.fields[i];
      InOrder(Offsets(ty, i + 1, flat + LeafWords(f)), flat + LeafWords(f)) <==> Aligned(ty, i + 1)
    ensures InOrder(Offsets(ty, i, flat), flat) <==> Aligned(ty, i)
  {
    OffsetsNext(ty, i, flat);
    hide Offsets;
    InOrderJoin([flat], Offsets(ty, i + 1, flat + LeafWords(ty.fields[i])), flat);
    OneInOrder(flat);
    hide InOrder;
  }

  lemma OneInOrder(flat: nat)
    ensures InOrder([flat], flat)
  {
  }

  /** The buffer's words, in order. */
  function Buffer(m: Mem, a: int, n: nat): (r: seq<int>)
    ensures |r| == n
  {
    seq(n, k requires 0 <= k < n => Rd(m, a + k))
  }

  /** A memory that tells words fetched out of order from the buffer. */
  lemma Tell(sp: int, offsets: seq<nat>, flat: nat) returns (m: Mem)
    requires !InOrder(offsets, flat)
    ensures Fetch(m, sp, offsets) != Buffer(m, sp + flat, |offsets|)
  {
    var j :| 0 <= j < |offsets| && offsets[j] != flat + j;
    m := map[sp + flat + j := 1];
    assert Rd(m, sp + flat + j) == 1 && Rd(m, sp + offsets[j]) == 0;
    assert Buffer(m, sp + flat, |offsets|)[j] == 1 && Fetch(m, sp, offsets)[j] == 0;
  }

  /** Rebuilding from memory `m` gives a struct whose leaves are the words of the buffer. */
  ghost predicate Reproduces(sp: int, ty: Ty, flat: nat, out: nat, m: Mem)
    requires ty.Struct?
  {
    Words(Rebuild(sp, ty, 0, flat, out, out + |ty.fields|, m).0, ty, 0, sp + out) == Buffer(m, sp + flat,
      LeavesFrom(ty, 0))
  }

  /** Rebuilding reproduces the words of the buffer whatever they are exactly when the type is
      aligned. */
  lemma RebuildExact(sp: int, ty: Ty, flat: nat, out: nat)
    requires ty.Struct? && RebuildRoom(sp, ty, 0, flat, out, out + |ty.fields|)
    ensures Aligned(ty, 0) <==> forall m: Mem :: Reproduces(sp, ty, flat, out, m)
  {
    var inner := out + |ty.fields|;
    OrderExact(ty, 0, flat);
    var offsets := Offsets(ty, 0, flat);
    hide Words, Foot, Offsets, Inner, Rebuild, Aligned, RebuildRoom;
    forall m: Mem ensures Words(Rebuild(sp, ty, 0, flat, out, inner, m).0, ty, 0, sp + out) == Fetch(m, sp, offsets) {
      RebuildWords(sp, ty, 0, flat, out, inner, m);
    }
    if Aligned(ty, 0) {
      forall m: Mem ensures Reproduces(sp, ty, flat, out, m) {
        assert Fetch(m, sp, offsets) == Buffer(m, sp + flat, LeavesFrom(ty, 0));
      }
    } else {
      var m := Tell(sp, offsets, flat);
      assert !Reproduces(sp, ty, flat, out, m);
    }
  }

  /** A struct pushed onto a vector and read back into another frame is structurally equal to the
      original. The rebuilt value lives entirely in the words reserved for it, one word for each of
      its slots, so its blocks are disjoint and none of its pointers leads back to the old memory. */
  lemma RoundTrip(sp: int, ty: Ty, cursor: nat, s: State, sp2: int, flat: nat, out: nat, m: Mem)
    requires ty.Struct? && Aligned(ty, 0)
    requires FlattenRoom(sp, ty, 0, cursor, None, s)
    requires Buffer(m, sp2 + flat, LeavesFrom(ty, 0)) ==
      Buffer(Flatten(sp, ty, 0, cursor, None, s).0.mem, sp + cursor, LeavesFrom(ty, 0))
    requires RebuildRoom(sp2, ty, 0, flat, out, out + |ty.fields|)
    ensures var (n, end) := Rebuild(sp2, ty, 0, flat, out, out + |ty.fields|, m);
      var addr := sp2 + out;
      && ReadFrom(n, ty, 0, addr) == ReadFrom(s.mem, ty, 0, s.x17)
      && end == out + Slots(ty)
      && (forall a :: a in Foot(n, ty, 0, addr) <==> Within(addr, Slots(ty), a))
      && |Foot(n, ty, 0, addr)| == Slots(ty)
  {
    hide Words, Foot, Offsets, Inner, Rebuild, Aligned, RebuildRoom, FlattenRoom, Flatten, Leaves, LeavesFrom;
    FlattenWords(sp, ty, 0, cursor, None, s);
    RebuildWords(sp2, ty, 0, flat, out, out + |ty.fields|, m);
    RebuildExact(sp2, ty, flat, out);
    assert Reproduces(sp2, ty, flat, out, m);
    var t := Flatten(sp, ty, 0, cursor, None, s).0;
    var n := Rebuild(sp2, ty, 0, flat, out, out + |ty.fields|, m).0;
    assert Buffer(t.mem, sp + cursor, LeavesFrom(ty, 0)) == Words(s.mem, ty, 0, s.x17);
    SameWords(n, s.mem, ty, 0, sp2 + out, s.x17);
    var addr := sp2 + out;
    forall a ensures a in Foot(n, ty, 0, addr) <==> Within(addr, Slots(ty), a) {
      assert a in Foot(n, ty, 0, addr) <==> Written(sp2, ty, 0, out, out + |ty.fields|, a);
    }
    IntervalSize(Foot(n, ty, 0, addr), addr, Slots(ty));
  }

  lemma IntervalSize(s: set<int>, lo: int, n: nat)
    requires forall a :: a in s <==> Within(lo, n, a)
    ensures |s| == n
  {
    if n > 0 {
      IntervalSize(s - {lo + n - 1}, lo, n - 1);
    } else {
      forall a ensures a !in s {
        assert a in s <==> Within(lo, n, a);
      }
    }
  }

  /** The scratch of a vector read, with the buffer below the live area, has the room needed. */
  lemma ReadScratchRoom(sp: int, ty: Ty, flat: nat, out: nat)
    requires ty.Struct? && Aligned(ty, 0) && flat + LeavesFrom(ty, 0) <= out
    ensures RebuildRoom(sp, ty, 0, flat, out, out + |ty.fields|)
  {
    OrderExact(ty, 0, flat);
    hide Offsets, Inner, Aligned;
  }

  /** The buffer of a push, reserved at the end of the area in use with the save slots behind it, has the
      room needed if the struct does not reach into the free part. */
  lemma PushScratchRoom(sp: int, ty: Ty, free: nat, s: State)
    requires ty.Struct?
    requires forall a :: a in Foot(s.mem, ty, 0, s.x17) ==> !Within(sp + free, LeafWords(ty) + Saves(ty, 0, false), a)
    ensures FlattenRoom(sp, ty, 0, free, None, s.(next := free + LeafWords(ty)))
  {
    hide Foot, Saves, LeavesFrom;
  }

  /** With the scratch layouts of push and read, a struct pushed in one frame and read in another is
      structurally equal to the original and lives in the words reserved for it. */
  lemma VectorRoundTrip(sp: int, ty: Ty, free: nat, s: State, sp2: int, free2: nat, m: Mem)
    requires ty.Struct? && Aligned(ty, 0)
    requires forall a :: a in Foot(s.mem, ty, 0, s.x17) ==> !Within(sp + free, LeafWords(ty) + Saves(ty, 0, false), a)
    requires Buffer(m, sp2 + free2, LeavesFrom(ty, 0)) ==
      Buffer(Flatten(sp, ty, 0, free, None, s.(next := free + LeafWords(ty))).0.mem, sp + free, LeavesFrom(ty, 0))
    ensures var live := free2 + LeafWords(ty) + 2;
      var n, addr := Rebuild(sp2, ty, 0, free2, live, live + |ty.fields|, m).0, sp2 + live;
      && ReadFrom(n, ty, 0, addr) == ReadFrom(s.mem, ty, 0, s.x17)
      && forall a :: a in Foot(n, ty, 0, addr) <==> Within(addr, Slots(ty), a)
  {
    hide Foot, Saves, Flatten, Rebuild, ReadFrom, Slots, Aligned, FlattenRoom, RebuildRoom;
    var live := free2 + LeafWords(ty) + 2;
    PushScratchRoom(sp, ty, free, s);
    ReadScratchRoom(sp2, ty, free2, live);
    RoundTrip(sp, ty, free, s.(next := free + LeafWords(ty)), sp2, free2, live, m);
  }

  // --- As the backend emits it ---------------------------------------------

  /** The struct area of a frame while code for it is emitted, with the effect of that code. */
  class Lowering {
    const sp: int
    var mem: Mem
    var x17: int
    var next: nat

    ghost function Now(): State
      reads this
    {
      State(mem, x17, next)
    }

    constructor (base: int, m: Mem, source: int, free: nat)
      ensures sp == base && Now() == State(m, source, free)
    {
      sp, mem, x17, next := base, m, source, free;
    }

    /** Serializes the struct at `x17` to `sp + dst`. */
    method FlattenStruct(ty: Ty, dst: nat) returns (end: nat)
      requires ty.Struct?
      modifies this
      ensures (Now(), end) == Flatten(sp, ty, 0, dst, None, old(Now()))
      decreases ty
    {
      ghost var start := Now();
      end := dst;
      var save: Option<nat> := None;
      for i := 0 to |ty.fields|
        invariant Flatten(sp, ty, 0, dst, None, start) == Flatten(sp, ty, i, end, save, Now())
      {
        if ty.fields[i].Struct? {
          if save.None? {
            save := Some(next);
            next := next + 1;
          }
          mem := mem[sp + save.value := x17];
          x17 := Rd(mem, x17 + i);
          end := FlattenStruct(ty.fields[i], end);
          x17 := Rd(mem, sp + save.value);
        } else {
          mem := mem[sp + end := Rd(mem, x17 + i)];
          end := end + 1;
        }
      }
    }

    /** Rebuilds a live struct at `sp + out` from the words at `sp + flat`. */
    method RebuildStruct(ty: Ty, flat: nat, out: nat, inner: nat) returns (end: nat)
      requires ty.Struct?
      modifies this
      ensures (mem, end) == Rebuild(sp, ty, 0, flat, out, inner, old(mem))
      ensures x17 == old(x17) && next == old(next)
      decreases ty
    {
      ghost var start := mem;
      end := inner;
      var cursor: nat := flat;
      for i := 0 to |ty.fields|
        invariant Rebuild(sp, ty, 0, flat, out, inner, start) == Rebuild(sp, ty, i, cursor, out, end, mem)
        invariant x17 == old(x17) && next == old(next)
      {
        var f := ty.fields[i];
        if f.Struct? {
          var block: nat := end;
          end := RebuildStruct(f, cursor, block, block + |f.fields|);
          cursor := cursor + LeafWords(f);
          mem := mem[sp + out + i := sp + block];
        } else {
          mem := mem[sp + out + i := Rd(mem, sp + cursor)];
          cursor := cursor + 1;
        }
      }
    }
  }
}
