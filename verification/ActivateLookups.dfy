/** What readers of the primary see after an activate, finished or crashed. */
module ActivateLookups {
  import opened PowerOfTwo
  import opened RingPool
  import opened ShrinkGrow
  import opened RingLayout
  import opened IntentLog
  import opened ProtectedOp
  import opened ActivateBodyFacts
  import opened ActivateCrash

  /** Versions that fit a ring of `n` chunks: the last `n * e` of the window. */
  ghost predicate Kept(e: nat, h: Header, n: nat, v: nat) {
    var r := RingOf(h, h.primary);
    r.lb <= v < r.nv <= v + Capacity(e, n)
  }

  /** They are the versions at or above the raised lower bound. */
  lemma KeptIsAbove(e: nat, h: Header, n: nat, v: nat)
    ensures
      var r := RingOf(h, h.primary);
      Kept(e, h, n, v) <==> ShrunkLb(e, r, n) <= v < r.nv
  {
  }

  /** The chunks of a primary of `2 * n` chunks. */
  ghost function Chunks(h: Header, n: nat): (ids: seq<nat>)
    requires |RingOf(h, h.primary).chunks| >= 2 * n
    ensures |ids| == 2 * n
  {
    RingOf(h, h.primary).chunks[..2 * n]
  }

  /** Where version `v` lives in the ring of `2 * n` chunks. */
  ghost function OldSlot(e: nat, n: nat, ids: seq<nat>, v: nat): Addr {
    if InTail(e, n, v) then Tail(e, n, ids, v) else Head(e, n, ids, v)
  }

  // ---- the move loop ----

  /** Versions less than a capacity apart have different head slots. */
  lemma HeadsDistinct(e: nat, n: nat, ids: seq<nat>, u: nat, v: nat)
    requires Geometry(e, n) && |ids| == 2 * n && ChunkIds(ids) && u < v < u + Capacity(e, n)
    ensures Head(e, n, ids, u) != Head(e, n, ids, v)
  {
    var cap := Capacity(e, n);
    CapacityIsPow2(e, n);
    SlotsOfVersion(e, n, u);
    SlotsOfVersion(e, n, v);
    SlotsDistinct(u, v, cap);
    if Slot(u, cap) < Slot(v, cap) {
      EntriesDistinct(e, ids, Slot(u, cap), Slot(v, cap));
    } else {
      EntriesDistinct(e, ids, Slot(v, cap), Slot(u, cap));
    }
  }

  lemma {:induction false} MovesIntoHead(e: nat, n: nat, d: Disk, ids: seq<nat>, lo: nat, hi: nat, v: nat)
    requires Geometry(e, n) && |ids| == 2 * n && ChunkIds(ids) && hi <= lo + Capacity(e, n) &&
             lo <= v < lo + Capacity(e, n)
    ensures LastWrite(Moves(e, d, ids, Capacity(e, 2 * n), Capacity(e, n), lo, hi), Head(e, n, ids, v)) ==
            if v < hi && InTail(e, n, v) then [Read(d, Tail(e, n, ids, v))] else []
    decreases hi
  {
    if lo < hi {
      var u := hi - 1;
      MovesIntoHead(e, n, d, ids, lo, u, v);
      ShrinkMove(e, n, d, ids, u);
      LastWriteConcat(Moves(e, d, ids, Capacity(e, 2 * n), Capacity(e, n), lo, u),
                      Move(e, d, ids, Capacity(e, 2 * n), Capacity(e, n), u), Head(e, n, ids, v));
      if u < v {
        HeadsDistinct(e, n, ids, u, v);
      } else if v < u {
        HeadsDistinct(e, n, ids, v, u);
      }
    }
  }

  /** Ring data before the fill is what the moves left. */
  lemma DiskBeforeFill(e: nat, c: Copy, n: nat)
    requires Shrinkable(e, c.h, n)
    ensures
      var p := RingOf(c.h, c.h.primary);
      RunDisk(c.disk, ActivateBeforeFill(e, c, c.h.primary, n)) ==
      RunDisk(c.disk, Moves(e, c.disk, Chunks(c.h, n), Capacity(e, 2 * n), Capacity(e, n), ShrunkLb(e, p, n), p.nv))
  {
    var pi := c.h.primary;
    var p := RingOf(c.h, pi);
    var newLb := ShrunkLb(e, p, n);
    PrimarySpanIs(e, c.h, n);
    TransfersAreNotSlots(c.h, pi, n, Other(pi), 0, n);
    SlotsAround(c.disk, if newLb > p.lb then [SetLb(pi, newLb)] else [],
                Moves(e, c.disk, Chunks(c.h, n), Capacity(e, 2 * n), Capacity(e, n), newLb, p.nv),
                Transfer(c.h, pi, n, Other(pi), 0, n));
  }

  /** What the stores before the fill leave in the slots of a kept version: its entry is in both. */
  lemma BeforeFill(e: nat, c: Copy, n: nat, v: nat)
    requires Shrinkable(e, c.h, n) && Kept(e, c.h, n, v)
    ensures
      var d := RunDisk(c.disk, ActivateBeforeFill(e, c, c.h.primary, n));
      var ids := Chunks(c.h, n);
      Read(d, Head(e, n, ids, v)) == Read(c.disk, OldSlot(e, n, ids, v)) &&
      Read(d, OldSlot(e, n, ids, v)) == Read(c.disk, OldSlot(e, n, ids, v))
  {
    var p := RingOf(c.h, c.h.primary);
    KeptIsAbove(e, c.h, n, v);
    DiskBeforeFill(e, c, n);
    MovesKeepBoth(e, n, c.disk, Chunks(c.h, n), ShrunkLb(e, p, n), p.nv, v);
  }

  lemma MovesKeepBoth(e: nat, n: nat, d: Disk, ids: seq<nat>, lo: nat, hi: nat, v: nat)
    requires Geometry(e, n) && |ids| == 2 * n && ChunkIds(ids) && lo <= v < hi <= lo + Capacity(e, n)
    ensures
      var x := RunDisk(d, Moves(e, d, ids, Capacity(e, 2 * n), Capacity(e, n), lo, hi));
      Read(x, Head(e, n, ids, v)) == Read(d, OldSlot(e, n, ids, v)) &&
      Read(x, OldSlot(e, n, ids, v)) == Read(d, OldSlot(e, n, ids, v))
  {
    var moves := Moves(e, d, ids, Capacity(e, 2 * n), Capacity(e, n), lo, hi);
    MovesIntoHead(e, n, d, ids, lo, hi, v);
    RunDiskRead(d, moves, Head(e, n, ids, v));
    ShrinkMovesSpareTails(e, n, d, ids, lo, hi, v);
    LastWriteIffWrites(moves, Tail(e, n, ids, v));
    RunDiskRead(d, moves, Tail(e, n, ids, v));
  }

  // ---- the fill ----

  /** Position `f` of the tail is no head slot, and is the tail slot of `pos` just when they are equal. */
  lemma TailPosition(e: nat, n: nat, ids: seq<nat>, f: nat, pos: nat)
    requires |ids| == 2 * n && ChunkIds(ids) && f < Capacity(e, n) && pos < Capacity(e, n)
    ensures Entry(e, ids[n..], f) != Entry(e, ids, pos)
    ensures Entry(e, ids[n..], f) == Entry(e, ids, pos + Capacity(e, n)) <==> f == pos
  {
    EntryDrop(e, n, ids, f);
    CapacityAdds(e, n, n);
    EntriesDistinct(e, ids, pos, f + Capacity(e, n));
    if pos < f {
      EntriesDistinct(e, ids, pos + Capacity(e, n), f + Capacity(e, n));
    } else if f < pos {
      EntriesDistinct(e, ids, f + Capacity(e, n), pos + Capacity(e, n));
    }
  }

  lemma FillOne(d: Disk, fill: seq<Store>, a: Addr, x: Addr)
    ensures Read(RunDisk(d, fill + [SetSlot(a, INVALID_OFFSET)]), x) ==
            if x == a then INVALID_OFFSET
            else Read(RunDisk(d, fill), x)
  {
    assert (fill + [SetSlot(a, INVALID_OFFSET)])[..|fill|] == fill;
  }

  /** Filling the first `f` positions of the tail. */
  lemma {:induction false} FillTail(e: nat, n: nat, d: Disk, ids: seq<nat>, f: nat, pos: nat)
    requires |ids| == 2 * n && ChunkIds(ids) && f <= Capacity(e, n) && pos < Capacity(e, n)
    ensures
      var x := RunDisk(d, Fill(e, ids[n..], 0, f));
      Read(x, Entry(e, ids, pos)) == Read(d, Entry(e, ids, pos)) &&
      Read(x, Entry(e, ids, pos + Capacity(e, n))) ==
      if pos < f then INVALID_OFFSET else Read(d, Entry(e, ids, pos + Capacity(e, n)))
  {
    if f > 0 {
      var fill, a := Fill(e, ids[n..], 0, f - 1), Entry(e, ids[n..], f - 1);
      FillTail(e, n, d, ids, f - 1, pos);
      TailPosition(e, n, ids, f - 1, pos);
      FillOne(d, fill, a, Entry(e, ids, pos));
      FillOne(d, fill, a, Entry(e, ids, pos + Capacity(e, n)));
    }
  }

  lemma {:induction false} FillPrefix(e: nat, ids: seq<nat>, hi: nat, f: nat)
    requires f <= hi
    ensures |Fill(e, ids, 0, hi)| == hi && Fill(e, ids, 0, hi)[..f] == Fill(e, ids, 0, f)
    decreases hi
  {
    if f < hi {
      FillPrefix(e, ids, hi - 1, f);
    } else if hi > 0 {
      FillPrefix(e, ids, hi - 1, hi - 1);
    }
  }

  /** How much of the fill is done after `k` stores of the body. */
  ghost function FilledAt(e: nat, c: Copy, n: nat, k: nat): nat {
    var before := |ActivateBeforeFill(e, c, c.h.primary, n)|;
    if k < before then 0 else if k - before < Capacity(e, n) then k - before else Capacity(e, n)
  }

  /** A prefix of three lists, the last without slot stores, that reaches past the first. */
  lemma PrefixInStages(d: Disk, a: seq<Store>, b: seq<Store>, c: seq<Store>, k: nat, f: nat)
    requires |a| <= k <= |a + b + c| && f == (if k - |a| < |b| then k - |a| else |b|)
    requires forall i :: 0 <= i < |c| ==> !c[i].SetSlot?
    ensures RunDisk(d, (a + b + c)[..k]) == RunDisk(RunDisk(d, a), b[..f])
  {
    if k <= |a + b| {
      assert (a + b + c)[..k] == a + b[..f];
      RunDiskConcat(d, a, b[..f]);
    } else {
      var r := k - |a + b|;
      assert (a + b + c)[..k] == (a + b) + c[..r] && b[..f] == b;
      RunDiskConcat(d, a + b, c[..r]);
      RunDiskNoSlots(RunDisk(d, a + b), c[..r]);
      RunDiskConcat(d, a, b);
    }
  }

  lemma TailIsSecondary(e: nat, h: Header, n: nat)
    requires Shrinkable(e, h, n)
    ensures Chunks(h, n)[n..] == SecondarySpan(h, h.primary, n)
  {
    ShrinkSpans(e, h, n);
  }

  /** Ring data after the first `k` stores of the body, once it has reached the fill. */
  lemma BodyInStages(e: nat, c: Copy, n: nat, k: nat)
    requires Shrinkable(e, c.h, n)
    requires |ActivateBeforeFill(e, c, c.h.primary, n)| <= k <= |ActivateBody(e, c, c.h.primary, n)|
    ensures RunDisk(c.disk, ActivateBody(e, c, c.h.primary, n)[..k]) ==
            RunDisk(RunDisk(c.disk, ActivateBeforeFill(e, c, c.h.primary, n)),
                    Fill(e, Chunks(c.h, n)[n..], 0, FilledAt(e, c, n, k)))
  {
    var pi := c.h.primary;
    var tail := Chunks(c.h, n)[n..];
    TailIsSecondary(e, c.h, n);
    FillPrefix(e, tail, Capacity(e, n), FilledAt(e, c, n, k));
    PrefixInStages(c.disk, ActivateBeforeFill(e, c, pi, n), Fill(e, tail, 0, Capacity(e, n)),
                   ActivateCommit(pi, n), k, FilledAt(e, c, n, k));
  }

  /** The fill on top of ring data that holds a kept version's entry in both its slots. */
  lemma SlotsAfterFill(e: nat, n: nat, ids: seq<nat>, d: Disk, o: Offset, f: nat, v: nat)
    requires Geometry(e, n) && |ids| == 2 * n && ChunkIds(ids) && f <= Capacity(e, n)
    requires Read(d, Head(e, n, ids, v)) == o && Read(d, OldSlot(e, n, ids, v)) == o
    ensures
      var x := RunDisk(d, Fill(e, ids[n..], 0, f));
      Read(x, Head(e, n, ids, v)) == o &&
      Read(x, OldSlot(e, n, ids, v)) == if InTail(e, n, v) && Slot(v, Capacity(e, n)) < f then INVALID_OFFSET else o
  {
    SlotsOfVersion(e, n, v);
    var pos := Slot(v, Capacity(e, n));
    assert Head(e, n, ids, v) == Entry(e, ids, pos);
    assert Tail(e, n, ids, v) == Entry(e, ids, pos + Capacity(e, n));
    FillTail(e, n, d, ids, f, pos);
    var x := RunDisk(d, Fill(e, ids[n..], 0, f));
    assert Read(x, Entry(e, ids, pos)) == Read(d, Entry(e, ids, pos));
    if InTail(e, n, v) {
      assert OldSlot(e, n, ids, v) == Entry(e, ids, pos + Capacity(e, n));
    } else {
      assert OldSlot(e, n, ids, v) == Entry(e, ids, pos);
    }
  }

  /** The two slots of a kept version after `k` stores of the body. */
  lemma SlotsInBody(e: nat, c: Copy, n: nat, k: nat, v: nat)
    requires Shrinkable(e, c.h, n) && Kept(e, c.h, n, v)
    requires |ActivateBeforeFill(e, c, c.h.primary, n)| <= k <= |ActivateBody(e, c, c.h.primary, n)|
    ensures
      var d := RunDisk(c.disk, ActivateBody(e, c, c.h.primary, n)[..k]);
      var ids := Chunks(c.h, n);
      Read(d, Head(e, n, ids, v)) == Read(c.disk, OldSlot(e, n, ids, v)) &&
      Read(d, OldSlot(e, n, ids, v)) ==
      if InTail(e, n, v) && Slot(v, Capacity(e, n)) < FilledAt(e, c, n, k) then INVALID_OFFSET
      else Read(c.disk, OldSlot(e, n, ids, v))
  {
    BodyInStages(e, c, n, k);
    BeforeFill(e, c, n, v);
    SlotsAfterFill(e, n, Chunks(c.h, n), RunDisk(c.disk, ActivateBeforeFill(e, c, c.h.primary, n)),
                   Read(c.disk, OldSlot(e, n, Chunks(c.h, n), v)), FilledAt(e, c, n, k), v);
  }

  /** The body moves every kept version's entry from its old slot to its new one. */
  lemma KeptEntryMoves(e: nat, c: Copy, n: nat, v: nat)
    requires Shrinkable(e, c.h, n) && Kept(e, c.h, n, v)
    ensures Read(RunDisk(c.disk, ActivateBody(e, c, c.h.primary, n)), Head(e, n, Chunks(c.h, n), v)) ==
            Read(c.disk, OldSlot(e, n, Chunks(c.h, n), v))
  {
    var b := ActivateBody(e, c, c.h.primary, n);
    SlotsInBody(e, c, n, |b|, v);
    assert b[..|b|] == b;
  }

  // ---- lookups ----

  lemma LookupOld(e: nat, c: Copy, n: nat, v: nat)
    requires Shrinkable(e, c.h, n)
    ensures RawLookup(e, c, v) == Read(c.disk, OldSlot(e, n, Chunks(c.h, n), v))
  {
    var p := RingOf(c.h, c.h.primary);
    SlotsOfVersion(e, n, v);
    CapacityIsPow2(e, n);
    assert p.chunks[..2 * n] == p.chunks[..2 * n][..2 * n];
    EntrySame(e, 2 * n, p.chunks, p.chunks[..2 * n], Slot(v, Capacity(e, 2 * n)));
  }

  lemma LookupNew(e: nat, h: Header, c: Copy, n: nat, v: nat)
    requires Shrinkable(e, h, n) && c.h.primary == h.primary && Kept(e, h, n, v)
    requires RingOf(c.h, h.primary) == RingOf(Activated(e, h, n), h.primary)
    ensures Lookup(e, c, v) == Read(c.disk, Head(e, n, Chunks(h, n), v))
  {
    var ids := Chunks(h, n);
    KeptIsAbove(e, h, n, v);
    SlotsOfVersion(e, n, v);
    assert ids[..n] == RingOf(c.h, h.primary).chunks[..n];
    EntrySame(e, n, ids, RingOf(c.h, h.primary).chunks, Slot(v, Capacity(e, n)));
  }

  lemma FinalRings(e: nat, p: Pool)
    requires CanActivate(e, p)
    ensures
      var h, n := p.c0.h, ActivateParam(p.c0.h);
      var f := Final(ActivateOp(e, p));
      f.primary == h.primary && f.active && RingOf(f, h.primary) == RingOf(Activated(e, h, n), h.primary) &&
      RingOf(f, Other(h.primary)) == RingOf(Activated(e, h, n), Other(h.primary))
  {
  }

  /** Uninterrupted activate: every kept version has its old root offset and older ones are gone. */
  lemma ActivateKeepsLookups(e: nat, p: Pool, v: nat)
    requires CanActivate(e, p)
    ensures
      var r := RingOf(p.c0.h, p.c0.h.primary);
      Lookup(e, Run(p, ActivateSteps(e, p)).c0, v) ==
      if r.lb <= v < r.nv <= v + Capacity(e, r.len / 2) then Lookup(e, p.c0, v) else INVALID_OFFSET
  {
    var h, n := p.c0.h, ActivateParam(p.c0.h);
    KeptIsAbove(e, h, n, v);
    ActivateDone(e, p);
    FinalRings(e, p);
    if Kept(e, h, n, v) {
      LookupNew(e, h, Run(p, ActivateSteps(e, p)).c0, n, v);
      KeptEntryMoves(e, p.c0, n, v);
      LookupOld(e, p.c0, n, v);
    }
  }

  lemma TailsFilled(e: nat, c: Copy, n: nat, pos: nat)
    requires Shrinkable(e, c.h, n) && pos < Capacity(e, n)
    ensures Read(RunDisk(c.disk, ActivateBody(e, c, c.h.primary, n)),
                 Entry(e, Chunks(c.h, n), pos + Capacity(e, n))) == INVALID_OFFSET
  {
    var b := ActivateBody(e, c, c.h.primary, n);
    FillPrefix(e, SecondarySpan(c.h, c.h.primary, n), Capacity(e, n), 0);
    BodyInStages(e, c, n, |b|);
    assert b[..|b|] == b;
    FillTail(e, n, RunDisk(c.disk, ActivateBeforeFill(e, c, c.h.primary, n)), Chunks(c.h, n), Capacity(e, n), pos);
  }

  lemma ReceivedSpan(e: nat, h: Header, n: nat, pos: nat)
    requires Shrinkable(e, h, n) && pos < Capacity(e, n)
    ensures
      var s := RingOf(Activated(e, h, n), Other(h.primary));
      s.lb == 0 && s.nv == 0 && s.len == n && Entry(e, s.chunks, pos) == Entry(e, Chunks(h, n), pos + Capacity(e, n))
  {
    var s, ids := RingOf(Activated(e, h, n), Other(h.primary)), Chunks(h, n);
    EntryDrop(e, n, ids, pos);
    assert forall k :: 0 <= k < n ==> s.chunks[k] == ids[n..][k];
    assert s.chunks[..n] == ids[n..][..n];
    EntrySame(e, n, s.chunks, ids[n..], pos);
  }

  lemma BodyEmptiesSecondary(e: nat, c: Copy, n: nat, s: Ring, pos: nat)
    requires Shrinkable(e, c.h, n) && pos < Capacity(e, n) && s == RingOf(Activated(e, c.h, n), Other(c.h.primary))
    ensures s.lb == 0 && s.nv == 0 && s.len == n
    ensures Read(RunDisk(c.disk, ActivateBody(e, c, c.h.primary, n)), Entry(e, s.chunks, pos)) == INVALID_OFFSET
  {
    ReceivedSpan(e, c.h, n, pos);
    TailsFilled(e, c, n, pos);
  }

  /** The secondary ring starts active and empty. */
  lemma SecondaryStartsEmpty(e: nat, p: Pool, pos: nat)
    requires CanActivate(e, p) && pos < Capacity(e, ActivateParam(p.c0.h))
    ensures
      var done := Run(p, ActivateSteps(e, p)).c0;
      var s := RingOf(done.h, Other(done.h.primary));
      done.h.active && s.lb == 0 && s.nv == 0 && s.len == ActivateParam(p.c0.h) &&
      Read(done.disk, Entry(e, s.chunks, pos)) == INVALID_OFFSET
  {
    var s := RingOf(Final(ActivateOp(e, p)), Other(p.c0.h.primary));
    ActivateDone(e, p);
    FinalRings(e, p);
    BodyEmptiesSecondary(e, p.c0, ActivateParam(p.c0.h), s, pos);
  }

  // ---- the fill window ----

  lemma WindowCrashPoint(e: nat, p: Pool, k: nat) returns (g: Pool)
    requires CanActivate(e, p) && k <= |ActivateSteps(e, p)| && InFillWindow(e, p, k)
    ensures k > 8 && Ready(ActivateOp(e, p), p) && Healed(ActivateOp(e, p), p, 2, k - 8, g)
    ensures Recover(e, Run(p, ActivateSteps(e, p)[..k])) == Recover(e, g)
  {
    var i, j;
    WindowRange(e, p, k);
    i, j, g := ActivateCrashPoint(e, p, k);
  }

  lemma WindowRange(e: nat, p: Pool, k: nat)
    requires CanActivate(e, p) && InFillWindow(e, p, k)
    ensures 8 < k < 10 + |ActivateOp(e, p).b0|
  {
  }

  lemma WindowRings(e: nat, p: Pool, g: Pool, k: nat)
    requires CanActivate(e, p) && k > 8 && Ready(ActivateOp(e, p), p) && Healed(ActivateOp(e, p), p, 2, k - 8, g)
    ensures
      var r, h := Recover(e, g).c0, p.c0.h;
      r.h.primary == h.primary && RingOf(r.h, h.primary) == RingOf(Activated(e, h, ActivateParam(h)), h.primary)
  {
    HealedHeaders(e, p, 2, k - 8, g);
    FinalRings(e, p);
  }

  lemma WindowDisk(e: nat, p: Pool, g: Pool, k: nat)
    requires CanActivate(e, p) && k > 8 && Healed(ActivateOp(e, p), p, 2, k - 8, g)
    ensures
      var h, n := p.c0.h, ActivateParam(p.c0.h);
      k - 9 <= |ActivateBody(e, p.c0, h.primary, n)| &&
      var x := RunDisk(p.c0.disk, ActivateBody(e, p.c0, h.primary, n)[..k - 9]);
      Recover(e, g).c0.disk == RunDisk(x, ActivateBody(e, Copy(h, x), h.primary, n))
  {
    var o := ActivateOp(e, p);
    RecoverActivate(e, g, o.param);
    SameBody(e, Copy(p.c0.h, g.c0.disk), HeaderAfter(o, 1), o.param);
  }

  /** `r` is `c` with the body run on top of its own first `k` stores. */
  ghost predicate RepeatsFrom(e: nat, c: Copy, n: nat, k: nat, r: Copy) {
    var pi := c.h.primary;
    var b := ActivateBody(e, c, pi, n);
    |RingOf(c.h, pi).chunks| >= 2 * n && |ActivateBeforeFill(e, c, pi, n)| <= k <= |b| &&
    r.h.primary == pi && RingOf(r.h, pi) == RingOf(Activated(e, c.h, n), pi) &&
    r.disk == RunDisk(RunDisk(c.disk, b[..k]), ActivateBody(e, Copy(c.h, RunDisk(c.disk, b[..k])), pi, n))
  }

  /** Repeating the body from ring data cut off inside the window. */
  lemma RepeatedFromWindow(e: nat, c: Copy, n: nat, k: nat, r: Copy, v: nat)
    requires Shrinkable(e, c.h, n) && Kept(e, c.h, n, v) && RepeatsFrom(e, c, n, k, r)
    ensures Lookup(e, r, v) ==
            if InTail(e, n, v) && Slot(v, Capacity(e, n)) < FilledAt(e, c, n, k) then INVALID_OFFSET
            else Lookup(e, c, v)
  {
    var x := RunDisk(c.disk, ActivateBody(e, c, c.h.primary, n)[..k]);
    SlotsInBody(e, c, n, k, v);
    KeptEntryMoves(e, Copy(c.h, x), n, v);
    LookupNew(e, c.h, r, n, v);
    LookupOld(e, c, n, v);
  }

  /** Inside the window recovery repeats the whole body over the half-filled ring data. */
  lemma RecoverInWindow(e: nat, p: Pool, k: nat)
    requires CanActivate(e, p) && k <= |ActivateSteps(e, p)| && InFillWindow(e, p, k)
    ensures RepeatsFrom(e, p.c0, ActivateParam(p.c0.h), k - 9, Recover(e, Run(p, ActivateSteps(e, p)[..k])).c0)
  {
    var g := WindowCrashPoint(e, p, k);
    WindowRings(e, p, g, k);
    WindowDisk(e, p, g, k);
  }

  /** Inside the window exactly the kept versions whose slot had been filled are lost. */
  lemma CrashInFillWindow(e: nat, p: Pool, k: nat, v: nat)
    requires CanActivate(e, p) && k <= |ActivateSteps(e, p)| && InFillWindow(e, p, k)
    requires var r := RingOf(p.c0.h, p.c0.h.primary); r.lb <= v < r.nv <= v + Capacity(e, r.len / 2)
    ensures
      var n := ActivateParam(p.c0.h);
      Lookup(e, Recover(e, Run(p, ActivateSteps(e, p)[..k])).c0, v) ==
      if InTail(e, n, v) && Slot(v, Capacity(e, n)) < FilledAt(e, p.c0, n, k - 9) then INVALID_OFFSET
      else Lookup(e, p.c0, v)
  {
    RecoverInWindow(e, p, k);
    WindowLookup(e, p, k - 9, Recover(e, Run(p, ActivateSteps(e, p)[..k])).c0, v);
  }

  lemma WindowLookup(e: nat, p: Pool, k: nat, r: Copy, v: nat)
    requires CanActivate(e, p)
    requires var r := RingOf(p.c0.h, p.c0.h.primary); r.lb <= v < r.nv <= v + Capacity(e, r.len / 2)
    requires RepeatsFrom(e, p.c0, ActivateParam(p.c0.h), k, r)
    ensures
      var n := ActivateParam(p.c0.h);
      Lookup(e, r, v) ==
      if InTail(e, n, v) && Slot(v, Capacity(e, n)) < FilledAt(e, p.c0, n, k) then INVALID_OFFSET
      else Lookup(e, p.c0, v)
  {
    RepeatedFromWindow(e, p.c0, ActivateParam(p.c0.h), k, r, v);
  }

  /** The new lower bound, in plain numbers. */
  lemma RaisedBound(e: nat, r: Ring, n: nat)
    ensures ShrunkLb(e, r, n) == if r.nv <= r.lb + n * e then r.lb else r.nv - n * e
  {
    CapacityIsProduct(e, n);
  }

  lemma ShrunkRings(e: nat, h: Header, n: nat, g: Header)
    requires h.primary < 2 && |RingOf(h, h.primary).chunks| == |RingOf(h, 1 - h.primary).chunks| >= 2 * n
    requires RingOf(g, h.primary) == RingOf(Activated(e, h, n), h.primary)
    requires RingOf(g, 1 - h.primary) == RingOf(Activated(e, h, n), 1 - h.primary)
    ensures
      var p, s, p', s' := RingOf(h, h.primary), RingOf(h, 1 - h.primary), RingOf(g, h.primary),
        RingOf(g, 1 - h.primary);
      p'.len == s'.len == n && p'.nv == p.nv && s'.lb == s'.nv == 0 &&
      p'.lb == (if p.nv <= p.lb + n * e then p.lb else p.nv - n * e) &&
      |p'.chunks| == |p.chunks| && |s'.chunks| == |s.chunks| &&
      (forall k :: 0 <= k < |p.chunks| ==> p'.chunks[k] == if n <= k < 2 * n then NULL_CHUNK else p.chunks[k]) &&
      (forall k :: 0 <= k < |s.chunks| ==> s'.chunks[k] == if k < n then p.chunks[n + k] else s.chunks[k])
  {
    RaisedBound(e, RingOf(h, h.primary), n);
  }

  /**
    Every field of the headers an activate leaves, in both copies: half of the
    chunks change owner in order, the lower bound moves up just as far as the
    smaller ring needs, and the history is cut to the ring.
   */
  lemma ActivateLeaves(e: nat, p: Pool, w: nat)
    requires CanActivate(e, p) && w < 2
    ensures
      var h, g := p.c0.h, CopyOf(Run(p, ActivateSteps(e, p)), w).h;
      var r, s, r', s' := RingOf(h, h.primary), RingOf(h, 1 - h.primary), RingOf(g, h.primary),
        RingOf(g, 1 - h.primary);
      var n := r.len / 2;
      g.primary == h.primary && g.active && !g.dirty && g.kind == OpNone && g.param == 0 &&
      g.history == (if h.history > n * e then n * e else h.history) &&
      r'.len == s'.len == n && r'.nv == r.nv && s'.lb == s'.nv == 0 &&
      r'.lb == (if r.nv <= r.lb + n * e then r.lb else r.nv - n * e) &&
      |r'.chunks| == |r.chunks| && |s'.chunks| == |s.chunks| &&
      (forall k :: 0 <= k < |r.chunks| ==> r'.chunks[k] == if n <= k < 2 * n then NULL_CHUNK else r.chunks[k]) &&
      (forall k :: 0 <= k < |s.chunks| ==> s'.chunks[k] == if k < n then r.chunks[n + k] else s.chunks[k])
  {
    ActivateDone(e, p);
    FinalRings(e, p);
    CapacityIsProduct(e, ActivateParam(p.c0.h));
    ShrunkRings(e, p.c0.h, ActivateParam(p.c0.h), CopyOf(Run(p, ActivateSteps(e, p)), w).h);
  }

  /**
    The whole picture for a kept version and any crash point: its root offset
    survives the crash unless the process died in the fill window with this
    version's slot already filled.
   */
  lemma KeptLookupSurvivesIff(e: nat, p: Pool, k: nat, v: nat)
    requires CanActivate(e, p) && k <= |ActivateSteps(e, p)|
    requires var r := RingOf(p.c0.h, p.c0.h.primary); r.lb <= v < r.nv <= v + Capacity(e, r.len / 2)
    ensures
      var n := ActivateParam(p.c0.h);
      var after := Lookup(e, Recover(e, Run(p, ActivateSteps(e, p)[..k])).c0, v);
      var filled := InFillWindow(e, p, k) && InTail(e, n, v) && Slot(v, Capacity(e, n)) < FilledAt(e, p.c0, n, k - 9);
      after == (if filled then INVALID_OFFSET else Lookup(e, p.c0, v))
  {
    if InFillWindow(e, p, k) {
      CrashInFillWindow(e, p, k, v);
    } else {
      CrashOutsideFillWindow(e, p, k);
      ActivateKeepsLookups(e, p, v);
    }
  }

  /** A pool with two ring chunks of one entry, holding versions 0 and 1. */
  ghost function TinyPool(): Pool {
    var none := seq(LIST_SLOTS - 2, _ => NULL_CHUNK);
    var h := Header(Ring(0, 2, 2, [1, 2] + none), Ring(0, 0, 0, [NULL_CHUNK, NULL_CHUNK] + none),
                    0, false, OpNone, 0, 1, false);
    var d := map[Addr(1, 0) := 7, Addr(2, 0) := 8];
    Pool(Copy(h, d), Copy(h, d))
  }

  lemma TinyPoolCanActivate()
    ensures CanActivate(1, TinyPool()) && ActivateParam(TinyPool().c0.h) == 1
    ensures Kept(1, TinyPool().c0.h, 1, 1) && InTail(1, 1, 1) && Slot(1, Capacity(1, 1)) == 0
    ensures Lookup(1, TinyPool().c0, 1) == 8
  {
    var h := TinyPool().c0.h;
    assert h.ringA.chunks[..2] == [1, 2];
    assert ChunkIds([2]);
    assert ChunkIds([1, 2]) by {
      assert [1, 2][1..] == [2];
    }
    assert TwoTo(0) == 1;
    assert Capacity(1, 1) == 1 && Capacity(1, 2) == 2;
    assert Slot(1, 2) == 1 && Slot(1, 1) == 0;
    assert h.ringA.chunks[1..][0] == 2;
  }

  /** The window is real: dying right after the first fill store loses version 1 of the tiny pool. */
  lemma FillWindowLosesAVersion()
    ensures
      var p := TinyPool();
      CanActivate(1, p) && Lookup(1, p.c0, 1) == 8 &&
      exists k: nat :: (k <= |ActivateSteps(1, p)| &&
                        Lookup(1, Recover(1, Run(p, ActivateSteps(1, p)[..k])).c0, 1) == INVALID_OFFSET)
  {
    var p := TinyPool();
    TinyPoolCanActivate();
    var before := |ActivateBeforeFill(1, p.c0, 0, 1)|;
    var k := 10 + before;
    FillPrefix(1, SecondarySpan(p.c0.h, 0, 1), Capacity(1, 1), 0);
    WindowIsIssued(1, p, k);
    CrashInFillWindow(1, p, k, 1);
  }

  lemma WindowIsIssued(e: nat, p: Pool, k: nat)
    requires CanActivate(e, p) && k < 10 + |ActivateBody(e, p.c0, p.c0.h.primary, ActivateParam(p.c0.h))|
    ensures k <= |ActivateSteps(e, p)|
  {
    ActivateIsProtected(e, p);
    AllIssued(ActivateOp(e, p));
  }

  lemma AllIssued(o: Op)
    ensures 10 + |o.b0| <= |Flatten(OpScopes(o))|
  {
    IssuedEarly(o);
    IssuedGrows(o, 3, 2 * Rounds(o));
    assert OpScopes(o)[..2 * Rounds(o)] == OpScopes(o);
  }
}
