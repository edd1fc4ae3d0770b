/** What one run of the activate body does to one metadata copy. */
module ActivateBodyFacts {
  import opened PowerOfTwo
  import opened RingPool
  import opened ShrinkGrow
  import opened RingLayout
  import opened IntentLog

  /** The header after the primary has given `n` of its `2 * n` chunks to the secondary. */
  ghost function Activated(e: nat, h: Header, n: nat): Header
    requires |RingOf(h, h.primary).chunks| >= 2 * n
  {
    var pi := h.primary;
    var p, s := RingOf(h, pi), RingOf(h, Other(pi));
    WithRing(
      WithRing(h, pi, p.(lb := ShrunkLb(e, p, n), len := n, chunks := Emptied(p.chunks, n, n))),
      Other(pi), Ring(0, 0, n, Received(s.chunks, 0, p.chunks, n, n))).(active := true)
  }

  /** A header the activate body has already been applied to. */
  ghost predicate Shrunk(e: nat, h: Header, n: nat) {
    var p, s := RingOf(h, h.primary), RingOf(h, Other(h.primary));
    e > 0 && h.primary < 2 && h.active && |s.chunks| == LIST_SLOTS && n <= LIST_SLOTS &&
    p.len == n && ShrunkLb(e, p, n) == p.lb &&
    s.len == n && s.lb == 0 && s.nv == 0 && forall k :: 0 <= k < n ==> s.chunks[k] != NULL_CHUNK
  }

  lemma ActivatedIsShrunk(e: nat, h: Header, n: nat)
    requires Shrinkable(e, h, n)
    ensures Shrunk(e, Activated(e, h, n), n)
  {
    var p := RingOf(h, h.primary);
    forall k | 0 <= k < n
      ensures RingOf(Activated(e, h, n), Other(h.primary)).chunks[k] != NULL_CHUNK
    {
      assert p.chunks[..2 * n][n + k] == p.chunks[n + k];
      ChunkIdAt(p.chunks[..2 * n], n + k);
    }
  }

  lemma {:induction false} TransferSameLists(h: Header, g: Header, from: nat, fromBase: nat, to: nat, toBase: nat,
                                             m: nat)
    requires RingOf(h, from).chunks == RingOf(g, from).chunks
    requires RingOf(h, to).chunks == RingOf(g, to).chunks
    ensures Transfer(h, from, fromBase, to, toBase, m) == Transfer(g, from, fromBase, to, toBase, m)
  {
    if m > 0 {
      TransferSameLists(h, g, from, fromBase, to, toBase, m - 1);
    }
  }

  lemma RunHeaderCommit(h: Header, pi: nat, n: nat)
    requires pi < 2
    ensures
      var p, s := RingOf(h, pi), RingOf(h, Other(pi));
      RunHeader(h, ActivateCommit(pi, n)) ==
      WithRing(WithRing(h, pi, p.(len := n)), Other(pi), s.(lb := 0, nv := 0, len := n)).(active := true)
  {
    var o := Other(pi);
    var ss := ActivateCommit(pi, n);
    RunHeaderSnoc(h, [], ss[0]);
    RunHeaderSnoc(h, [ss[0]], ss[1]);
    RunHeaderSnoc(h, [ss[0], ss[1]], ss[2]);
    RunHeaderSnoc(h, [ss[0], ss[1], ss[2]], ss[3]);
    RunHeaderSnoc(h, [ss[0], ss[1], ss[2], ss[3]], ss[4]);
    assert [] + [ss[0]] == [ss[0]];
    assert [ss[0]] + [ss[1]] == [ss[0], ss[1]];
    assert [ss[0], ss[1]] + [ss[2]] == [ss[0], ss[1], ss[2]];
    assert [ss[0], ss[1], ss[2]] + [ss[3]] == [ss[0], ss[1], ss[2], ss[3]];
    assert [ss[0], ss[1], ss[2], ss[3]] + [ss[4]] == ss;
    var h2 := StoreHeader(StoreHeader(h, ss[0]), ss[1]);
    assert h2 == WithRing(h, o, RingOf(h, o).(lb := 0, nv := 0));
    assert StoreHeader(StoreHeader(h2, ss[2]), ss[3]) ==
           WithRing(WithRing(h2, pi, RingOf(h2, pi).(len := n)), o, RingOf(h2, o).(len := n));
  }

  /** Header effect of everything before the fill. */
  lemma HeaderBeforeFill(e: nat, c: Copy, n: nat)
    requires Shrinkable(e, c.h, n)
    ensures
      var pi := c.h.primary;
      var p, s := RingOf(c.h, pi), RingOf(c.h, Other(pi));
      RunHeader(c.h, ActivateBeforeFill(e, c, pi, n)) ==
      WithRing(
        WithRing(c.h, pi, p.(lb := ShrunkLb(e, p, n), chunks := Emptied(p.chunks, n, n))),
        Other(pi), s.(chunks := Received(s.chunks, 0, p.chunks, n, n)))
  {
    var pi := c.h.primary;
    var p := RingOf(c.h, pi);
    var newLb := ShrunkLb(e, p, n);
    var lbPart := if newLb > p.lb then [SetLb(pi, newLb)] else [];
    var moves := Moves(e, c.disk, PrimarySpan(c.h, pi, n, n), Capacity(e, 2 * n), Capacity(e, n), newLb, p.nv);
    var transfer := Transfer(c.h, pi, n, Other(pi), 0, n);
    RunHeaderConcat(c.h, lbPart + moves, transfer);
    RunHeaderConcat(c.h, lbPart, moves);
    var g := RunHeader(c.h, lbPart);
    assert g == WithRing(c.h, pi, p.(lb := newLb)) by {
      assert newLb > p.lb ==> lbPart[..0] == [];
    }
    MovesAreSlots(e, c.disk, PrimarySpan(c.h, pi, n, n), Capacity(e, 2 * n), Capacity(e, n), newLb, p.nv);
    SlotStoresKeepHeader(g, moves);
    TransferSameLists(c.h, g, pi, n, Other(pi), 0, n);
    TransferMovesIds(g, pi, n, 0, n);
  }

  /** Applied to a fresh header the body produces the activated one. */
  lemma ActivateHeader(e: nat, c: Copy, n: nat)
    requires Shrinkable(e, c.h, n)
    ensures RunHeader(c.h, ActivateBody(e, c, c.h.primary, n)) == Activated(e, c.h, n)
  {
    var pi := c.h.primary;
    var fill := Fill(e, SecondarySpan(c.h, pi, n), 0, Capacity(e, n));
    RunHeaderConcat(c.h, ActivateBeforeFill(e, c, pi, n) + fill, ActivateCommit(pi, n));
    RunHeaderConcat(c.h, ActivateBeforeFill(e, c, pi, n), fill);
    HeaderBeforeFill(e, c, n);
    var g := RunHeader(c.h, ActivateBeforeFill(e, c, pi, n));
    FillsAreSlots(e, SecondarySpan(c.h, pi, n), 0, Capacity(e, n));
    SlotStoresKeepHeader(g, fill);
    RunHeaderCommit(g, pi, n);
  }

  /** Applied again it only repeats the fill and leaves the header as it is. */
  lemma ActivateAgain(e: nat, c: Copy, n: nat)
    requires Shrunk(e, c.h, n)
    ensures ActivateBeforeFill(e, c, c.h.primary, n) == []
    ensures RunHeader(c.h, ActivateBody(e, c, c.h.primary, n)) == c.h
  {
    var pi := c.h.primary;
    TransferDone(c.h, pi, n, Other(pi), 0, n);
    var fill := Fill(e, SecondarySpan(c.h, pi, n), 0, Capacity(e, n));
    assert ActivateBody(e, c, pi, n) == fill + ActivateCommit(pi, n);
    RunHeaderConcat(c.h, fill, ActivateCommit(pi, n));
    FillsAreSlots(e, SecondarySpan(c.h, pi, n), 0, Capacity(e, n));
    SlotStoresKeepHeader(c.h, fill);
    RunHeaderCommit(c.h, pi, n);
  }

  lemma LiveChunk(e: nat, h: Header, n: nat, k: nat)
    requires Shrinkable(e, h, n) && k < 2 * n
    ensures ChunkAt(RingOf(h, h.primary), k) == RingOf(h, h.primary).chunks[k] != NULL_CHUNK
  {
    var ids := RingOf(h, h.primary).chunks[..2 * n];
    ChunkIdAt(ids, k);
    assert ids[k] == RingOf(h, h.primary).chunks[k];
  }

  lemma PrimarySpanIs(e: nat, h: Header, n: nat)
    requires Shrinkable(e, h, n)
    ensures PrimarySpan(h, h.primary, n, n) == RingOf(h, h.primary).chunks[..2 * n]
  {
    var span, p := PrimarySpan(h, h.primary, n, n), RingOf(h, h.primary);
    forall k | 0 <= k < 2 * n
      ensures span[k] == p.chunks[k]
    {
      LiveChunk(e, h, n, k);
    }
  }

  lemma SecondarySpanIs(e: nat, h: Header, n: nat)
    requires Shrinkable(e, h, n)
    ensures SecondarySpan(h, h.primary, n) == RingOf(h, h.primary).chunks[n..2 * n]
  {
    var span, p := SecondarySpan(h, h.primary, n), RingOf(h, h.primary);
    forall k | 0 <= k < n
      ensures span[k] == p.chunks[n + k]
    {
      LiveChunk(e, h, n, n + k);
    }
  }

  lemma SecondarySpanStays(e: nat, h: Header, n: nat)
    requires Shrinkable(e, h, n)
    ensures SecondarySpan(Activated(e, h, n), h.primary, n) == RingOf(h, h.primary).chunks[n..2 * n]
  {
    var g, p := Activated(e, h, n), RingOf(h, h.primary);
    var span := SecondarySpan(g, h.primary, n);
    forall k | 0 <= k < n
      ensures span[k] == p.chunks[n + k]
    {
      LiveChunk(e, h, n, n + k);
      assert ChunkAt(RingOf(g, Other(h.primary)), k) == p.chunks[n + k];
    }
  }

  /** The chunk list both rings draw from, before and after. */
  lemma ShrinkSpans(e: nat, h: Header, n: nat)
    requires Shrinkable(e, h, n)
    ensures
      var p := RingOf(h, h.primary);
      PrimarySpan(h, h.primary, n, n) == p.chunks[..2 * n] &&
      SecondarySpan(h, h.primary, n) == p.chunks[n..2 * n] &&
      SecondarySpan(Activated(e, h, n), h.primary, n) == p.chunks[n..2 * n]
  {
    PrimarySpanIs(e, h, n);
    SecondarySpanIs(e, h, n);
    SecondarySpanStays(e, h, n);
  }

  lemma BodyKeepsDirty(e: nat, c: Copy, pi: nat, n: nat)
    requires e > 0
    ensures KeepsDirty(ActivateBody(e, c, pi, n))
  {
    var p := RingOf(c.h, pi);
    MovesAreSlots(e, c.disk, PrimarySpan(c.h, pi, n, n), Capacity(e, 2 * n), Capacity(e, n), ShrunkLb(e, p, n), p.nv);
    FillsAreSlots(e, SecondarySpan(c.h, pi, n), 0, Capacity(e, n));
    TransferKeepsDirty(c.h, pi, n, Other(pi), 0, n);
  }

  lemma {:induction false} TransferKeepsDirty(h: Header, from: nat, fromBase: nat, to: nat, toBase: nat, m: nat)
    ensures KeepsDirty(Transfer(h, from, fromBase, to, toBase, m))
  {
    if m > 0 {
      TransferKeepsDirty(h, from, fromBase, to, toBase, m - 1);
    }
  }

  // ---- ring data ----

  lemma ShrinkMovesSpareTails(e: nat, n: nat, d: Disk, ids: seq<nat>, lo: nat, hi: nat, v: nat)
    requires Geometry(e, n) && |ids| == 2 * n && ChunkIds(ids)
    ensures !Writes(Moves(e, d, ids, Capacity(e, 2 * n), Capacity(e, n), lo, hi), Tail(e, n, ids, v))
  {
    var moves := Moves(e, d, ids, Capacity(e, 2 * n), Capacity(e, n), lo, hi);
    forall i | 0 <= i < |moves|
      ensures moves[i].SetSlot? ==> moves[i].addr != Tail(e, n, ids, v)
    {
      ShrinkMovesWriteHeads(e, n, d, ids, lo, hi, i);
      var u :| lo <= u < hi && moves[i] == SetSlot(Head(e, n, ids, u), Read(d, Tail(e, n, ids, u)));
      HeadIsNotTail(e, n, ids, u, v);
    }
  }

  lemma WritesConcat(a: seq<Store>, b: seq<Store>, x: Addr)
    ensures Writes(a + b, x) <==> Writes(a, x) || Writes(b, x)
  {
    assert forall i :: 0 <= i < |a| ==> (a + b)[i] == a[i];
    assert forall i :: 0 <= i < |b| ==> (a + b)[|a| + i] == b[i];
  }

  /** Nothing before the fill writes a tail slot. */
  lemma BeforeFillSparesTails(e: nat, c: Copy, n: nat, v: nat)
    requires Shrinkable(e, c.h, n)
    ensures !Writes(ActivateBeforeFill(e, c, c.h.primary, n), Tail(e, n, RingOf(c.h, c.h.primary).chunks[..2 * n], v))
  {
    var pi := c.h.primary;
    var p := RingOf(c.h, pi);
    var ids := p.chunks[..2 * n];
    ShrinkSpans(e, c.h, n);
    var newLb := ShrunkLb(e, p, n);
    var lbPart := if newLb > p.lb then [SetLb(pi, newLb)] else [];
    var moves := Moves(e, c.disk, ids, Capacity(e, 2 * n), Capacity(e, n), newLb, p.nv);
    var transfer := Transfer(c.h, pi, n, Other(pi), 0, n);
    TransfersAreNotSlots(c.h, pi, n, Other(pi), 0, n);
    ShrinkMovesSpareTails(e, n, c.disk, ids, newLb, p.nv, v);
    WritesConcat(lbPart, moves, Tail(e, n, ids, v));
    WritesConcat(lbPart + moves, transfer, Tail(e, n, ids, v));
  }

  /** Until the fill starts, the body computed from the changed disk is the same body. */
  lemma SameBodyBeforeFill(e: nat, c: Copy, n: nat, i: nat)
    requires Shrinkable(e, c.h, n) && i <= |ActivateBeforeFill(e, c, c.h.primary, n)|
    ensures
      var part := ActivateBody(e, c, c.h.primary, n)[..i];
      ActivateBody(e, Copy(c.h, RunDisk(c.disk, part)), c.h.primary, n) == ActivateBody(e, c, c.h.primary, n)
  {
    var pi := c.h.primary;
    var p := RingOf(c.h, pi);
    var ids := p.chunks[..2 * n];
    var before := ActivateBeforeFill(e, c, pi, n);
    var part := ActivateBody(e, c, pi, n)[..i];
    assert part == before[..i];
    var x := RunDisk(c.disk, part);
    ShrinkSpans(e, c.h, n);
    forall v
      ensures Read(c.disk, Tail(e, n, ids, v)) == Read(x, Tail(e, n, ids, v))
    {
      var a := Tail(e, n, ids, v);
      BeforeFillSparesTails(e, c, n, v);
      assert !Writes(part, a) by {
        assert forall k :: 0 <= k < i ==> part[k] == before[k];
      }
      LastWriteIffWrites(part, a);
      RunDiskRead(c.disk, part, a);
    }
    ShrinkMovesSame(e, n, c.disk, x, ids, ShrunkLb(e, p, n), p.nv);
  }
}
