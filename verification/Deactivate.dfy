/**
  `deactivate_secondary_header`: the secondary's chunks go back to the tail of
  the primary. Atomic for copy 0 at every crash point, and no primary version
  changes its root offset.
 */
module Deactivate {
  import opened PowerOfTwo
  import opened RingPool
  import opened ShrinkGrow
  import opened RingLayout
  import opened IntentLog
  import opened ProtectedOp
  import opened ActivateBodyFacts

  /** What `deactivate_secondary_header` asserts, on two agreeing clean headers; `n` chunks in each ring. */
  ghost predicate CanDeactivate(e: nat, p: Pool, n: nat) {
    var h := p.c0.h;
    h == p.c1.h && !h.dirty && h.kind == OpNone && h.param == 0 && h.active && Growable(e, h, n)
  }

  ghost function DeactivateSteps(e: nat, p: Pool): seq<Step> {
    Flatten(Program(e, p, OpDeactivate, DeactivateParam(p.c0.h)))
  }

  /** The header after the primary has taken the secondary's `n` chunks. */
  ghost function Deactivated(h: Header, n: nat): Header
    requires |RingOf(h, Other(h.primary)).chunks| >= n
  {
    var pi := h.primary;
    var p, s := RingOf(h, pi), RingOf(h, Other(pi));
    WithRing(
      WithRing(h, pi, p.(len := 2 * n, chunks := Received(p.chunks, n, s.chunks, 0, n))),
      Other(pi), s.(len := 0, chunks := Emptied(s.chunks, 0, n))).(active := false)
  }

  /** The chunks of the grown primary, seen from the header before the change. */
  ghost function Chunks(h: Header, n: nat): (ids: seq<nat>)
    requires |RingOf(h, h.primary).chunks| >= n && |RingOf(h, Other(h.primary)).chunks| >= n
    ensures |ids| == 2 * n
  {
    RingOf(h, h.primary).chunks[..n] + RingOf(h, Other(h.primary)).chunks[..n]
  }

  lemma GrowSpan(e: nat, h: Header, n: nat)
    requires Growable(e, h, n)
    ensures PrimarySpan(h, h.primary, n, n) == Chunks(h, n)
    ensures RingOf(Deactivated(h, n), h.primary).chunks[..2 * n] == Chunks(h, n)
  {
  }

  function Commit(pi: nat, n: nat): seq<Store> {
    [SetLen(pi, n), SetLen(Other(pi), 0), SetActive(false)]
  }

  /** The three parts of the body on a header that still has both rings. */
  lemma BodyParts(e: nat, c: Copy, n: nat)
    requires Growable(e, c.h, n)
    ensures
      var pi := c.h.primary;
      var p, ids := RingOf(c.h, pi), Chunks(c.h, n);
      DeactivateBody(e, c, pi, 2 * n) ==
      Transfer(c.h, Other(pi), 0, pi, n, n) +
      (Fill(e, ids, Capacity(e, n), Capacity(e, 2 * n)) +
       Moves(e, c.disk, ids, Capacity(e, n), Capacity(e, 2 * n), p.lb, p.nv)) +
      Commit(pi, 2 * n)
  {
    GrowSpan(e, c.h, n);
  }

  lemma RunHeaderCommit(h: Header, pi: nat, n: nat)
    requires pi < 2
    ensures
      var p, s := RingOf(h, pi), RingOf(h, Other(pi));
      RunHeader(h, Commit(pi, n)) ==
      WithRing(WithRing(h, pi, p.(len := n)), Other(pi), s.(len := 0)).(active := false)
  {
    var ss := Commit(pi, n);
    RunHeaderSnoc(h, [], ss[0]);
    RunHeaderSnoc(h, [ss[0]], ss[1]);
    RunHeaderSnoc(h, [ss[0], ss[1]], ss[2]);
    assert [] + [ss[0]] == [ss[0]];
    assert [ss[0]] + [ss[1]] == [ss[0], ss[1]];
    assert [ss[0], ss[1]] + [ss[2]] == ss;
  }

  /** Header stores, then slot stores, then header stores. */
  lemma HeaderAround(h: Header, a: seq<Store>, slots: seq<Store>, b: seq<Store>)
    requires forall i :: 0 <= i < |slots| ==> slots[i].SetSlot?
    ensures RunHeader(h, a + slots + b) == RunHeader(RunHeader(h, a), b)
  {
    RunHeaderConcat(h, a + slots, b);
    RunHeaderConcat(h, a, slots);
    SlotStoresKeepHeader(RunHeader(h, a), slots);
  }

  lemma DeactivateHeader(e: nat, c: Copy, n: nat)
    requires Growable(e, c.h, n)
    ensures RunHeader(c.h, DeactivateBody(e, c, c.h.primary, 2 * n)) == Deactivated(c.h, n)
  {
    var pi := c.h.primary;
    var p, ids := RingOf(c.h, pi), Chunks(c.h, n);
    FillsAreSlots(e, ids, Capacity(e, n), Capacity(e, 2 * n));
    MovesAreSlots(e, c.disk, ids, Capacity(e, n), Capacity(e, 2 * n), p.lb, p.nv);
    BodyParts(e, c, n);
    HeaderAround(c.h, Transfer(c.h, Other(pi), 0, pi, n, n),
                 Fill(e, ids, Capacity(e, n), Capacity(e, 2 * n)) +
                 Moves(e, c.disk, ids, Capacity(e, n), Capacity(e, 2 * n), p.lb, p.nv),
                 Commit(pi, 2 * n));
    TransferThenCommit(e, c.h, n);
  }

  lemma TransferThenCommit(e: nat, h: Header, n: nat)
    requires Growable(e, h, n)
    ensures RunHeader(RunHeader(h, Transfer(h, Other(h.primary), 0, h.primary, n, n)), Commit(h.primary, 2 * n)) ==
            Deactivated(h, n)
  {
    var pi := h.primary;
    var p, s := RingOf(h, pi), RingOf(h, Other(pi));
    var g := RunHeader(h, Transfer(h, Other(pi), 0, pi, n, n));
    TransferMovesIds(h, Other(pi), 0, n, n);
    assert Other(Other(pi)) == pi;
    RunHeaderCommit(g, pi, 2 * n);
    CommitMoved(h, pi, g, Received(p.chunks, n, s.chunks, 0, n), Emptied(s.chunks, 0, n), 2 * n);
  }

  /** The commit on a header whose lists have changed. */
  lemma CommitMoved(h: Header, pi: nat, g: Header, pc: seq<nat>, sc: seq<nat>, n: nat)
    requires pi < 2
    requires
      var p, s := RingOf(h, pi), RingOf(h, Other(pi));
      g == WithRing(WithRing(h, Other(pi), s.(chunks := sc)), pi, p.(chunks := pc))
    ensures
      var p, s := RingOf(h, pi), RingOf(h, Other(pi));
      WithRing(WithRing(g, pi, RingOf(g, pi).(len := n)), Other(pi),
               RingOf(g, Other(pi)).(len := 0)).(active := false) ==
      WithRing(WithRing(h, pi, p.(len := n, chunks := pc)), Other(pi), s.(len := 0, chunks := sc)).(active := false)
  {
  }

  /** A header the body has already been applied to: only the commit is repeated. */
  lemma DeactivateAgain(e: nat, c: Copy, n: nat)
    requires c.h.primary < 2 && !c.h.active && RingOf(c.h, c.h.primary).len == n &&
             RingOf(c.h, Other(c.h.primary)).len == 0
    ensures DeactivateBody(e, c, c.h.primary, n) == Commit(c.h.primary, n)
    ensures RunHeader(c.h, DeactivateBody(e, c, c.h.primary, n)) == c.h
    ensures RunDisk(c.disk, DeactivateBody(e, c, c.h.primary, n)) == c.disk
  {
    RunHeaderCommit(c.h, c.h.primary, n);
    RunDiskNoSlots(c.disk, Commit(c.h.primary, n));
  }

  lemma BodyKeepsDirty(e: nat, c: Copy, pi: nat, n: nat)
    ensures KeepsDirty(DeactivateBody(e, c, pi, n))
  {
    var p := RingOf(c.h, pi);
    var returning := if p.len <= n then n - p.len else 0;
    var ids := PrimarySpan(c.h, pi, p.len, returning);
    MovesAreSlots(e, c.disk, ids, Capacity(e, p.len), Capacity(e, n), p.lb, p.nv);
    FillsAreSlots(e, ids, Capacity(e, p.len), Capacity(e, n));
    TransferKeepsDirty(c.h, Other(pi), 0, pi, p.len, returning);
  }

  // ---- the body can be repeated after any number of its stores ----

  lemma MovesSpareHeads(e: nat, n: nat, d: Disk, ids: seq<nat>, lo: nat, hi: nat, v: nat)
    requires Geometry(e, n) && |ids| == 2 * n && ChunkIds(ids)
    ensures !Writes(Moves(e, d, ids, Capacity(e, n), Capacity(e, 2 * n), lo, hi), Head(e, n, ids, v))
  {
    var moves := Moves(e, d, ids, Capacity(e, n), Capacity(e, 2 * n), lo, hi);
    forall i | 0 <= i < |moves|
      ensures moves[i].SetSlot? ==> moves[i].addr != Head(e, n, ids, v)
    {
      GrowMovesWriteTails(e, n, d, ids, lo, hi, i);
      var u :| lo <= u < hi && moves[i] == SetSlot(Tail(e, n, ids, u), Read(d, Head(e, n, ids, u)));
      HeadIsNotTail(e, n, ids, v, u);
    }
  }

  lemma FillSparesHeads(e: nat, n: nat, ids: seq<nat>, v: nat)
    requires Geometry(e, n) && |ids| == 2 * n && ChunkIds(ids)
    ensures !Writes(Fill(e, ids, Capacity(e, n), Capacity(e, 2 * n)), Head(e, n, ids, v))
  {
    var lo, hi := Capacity(e, n), Capacity(e, 2 * n);
    CapacityIsPow2(e, n);
    SlotsOfVersion(e, n, v);
    forall i | 0 <= i < |Fill(e, ids, lo, hi)|
      ensures Fill(e, ids, lo, hi)[i].SetSlot? ==> Fill(e, ids, lo, hi)[i].addr != Head(e, n, ids, v)
    {
      FillAt(e, ids, lo, hi, i);
      EntriesDistinct(e, ids, Slot(v, lo), lo + i);
    }
  }

  /** No store of the body writes a slot it reads. */
  lemma BodySparesHeads(e: nat, c: Copy, n: nat, v: nat)
    requires Growable(e, c.h, n)
    ensures !Writes(DeactivateBody(e, c, c.h.primary, 2 * n), Head(e, n, Chunks(c.h, n), v))
  {
    var pi := c.h.primary;
    var p, ids := RingOf(c.h, pi), Chunks(c.h, n);
    var a := Head(e, n, ids, v);
    var transfer := Transfer(c.h, Other(pi), 0, pi, n, n);
    var fill := Fill(e, ids, Capacity(e, n), Capacity(e, 2 * n));
    var moves := Moves(e, c.disk, ids, Capacity(e, n), Capacity(e, 2 * n), p.lb, p.nv);
    BodyParts(e, c, n);
    TransfersAreNotSlots(c.h, Other(pi), 0, pi, n, n);
    MovesSpareHeads(e, n, c.disk, ids, p.lb, p.nv, v);
    FillSparesHeads(e, n, ids, v);
    WritesConcat(fill, moves, a);
    WritesConcat(transfer, fill + moves, a);
    WritesConcat(transfer + (fill + moves), Commit(pi, 2 * n), a);
  }

  lemma PrefixWrites(ss: seq<Store>, i: nat, a: Addr)
    requires i <= |ss| && !Writes(ss, a)
    ensures !Writes(ss[..i], a)
  {
  }

  /** The body computed from the ring data of a crash is the same body. */
  lemma SameBodyAnywhere(e: nat, c: Copy, n: nat, i: nat)
    requires Growable(e, c.h, n) && i <= |DeactivateBody(e, c, c.h.primary, 2 * n)|
    ensures
      var b := DeactivateBody(e, c, c.h.primary, 2 * n);
      DeactivateBody(e, Copy(c.h, RunDisk(c.disk, b[..i])), c.h.primary, 2 * n) == b
  {
    var p, ids := RingOf(c.h, c.h.primary), Chunks(c.h, n);
    var b := DeactivateBody(e, c, c.h.primary, 2 * n);
    var x := RunDisk(c.disk, b[..i]);
    forall v
      ensures Read(c.disk, Head(e, n, ids, v)) == Read(x, Head(e, n, ids, v))
    {
      var a := Head(e, n, ids, v);
      BodySparesHeads(e, c, n, v);
      PrefixWrites(b, i, a);
      LastWriteIffWrites(b[..i], a);
      RunDiskRead(c.disk, b[..i], a);
    }
    GrowMovesSame(e, n, c.disk, x, ids, p.lb, p.nv);
    BodyParts(e, c, n);
    BodyParts(e, Copy(c.h, x), n);
  }

  // ---- as a protected operation ----

  ghost function DeactivateOp(e: nat, p: Pool, n: nat): Op
    requires CanDeactivate(e, p, n)
  {
    var h := p.c0.h;
    var pi := h.primary;
    Op(h, OpDeactivate, 2 * n, DeactivateBody(e, p.c0, pi, 2 * n), DeactivateBody(e, p.c1, pi, 2 * n),
       Deactivated(Stamped(h, OpDeactivate, 2 * n), n), false, 0)
  }

  /** The body does not look at the intent record. */
  lemma SameBody(e: nat, c: Copy, g: Header, n: nat)
    requires c.h.primary < 2 && c.h.ringA == g.ringA && c.h.ringB == g.ringB
    ensures DeactivateBody(e, Copy(g, c.disk), c.h.primary, n) == DeactivateBody(e, c, c.h.primary, n)
  {
    var pi := c.h.primary;
    var p := RingOf(c.h, pi);
    var returning := if p.len <= n then n - p.len else 0;
    TransferSameLists(c.h, g, Other(pi), 0, pi, p.len, returning);
    assert PrimarySpan(c.h, pi, p.len, returning) == PrimarySpan(g, pi, p.len, returning);
  }

  lemma StampedBody(e: nat, p: Pool, n: nat, c: Copy)
    requires CanDeactivate(e, p, n) && c.h == p.c0.h
    ensures
      var b := DeactivateBody(e, c, c.h.primary, 2 * n);
      KeepsDirty(b) && RunHeader(Stamped(c.h, OpDeactivate, 2 * n), b) ==
      Deactivated(Stamped(c.h, OpDeactivate, 2 * n), n)
  {
    var g := Stamped(c.h, OpDeactivate, 2 * n);
    BodyKeepsDirty(e, c, c.h.primary, 2 * n);
    SameBody(e, c, g, 2 * n);
    DeactivateHeader(e, Copy(g, c.disk), n);
  }

  lemma DeactivateIsProtected(e: nat, p: Pool, n: nat)
    requires CanDeactivate(e, p, n)
    ensures DeactivateSteps(e, p) == Flatten(OpScopes(DeactivateOp(e, p, n)))
    ensures Ready(DeactivateOp(e, p, n), p)
  {
    ScopesInOrder(DeactivateOp(e, p, n));
    StampedBody(e, p, n, p.c0);
    StampedBody(e, p, n, p.c1);
    assert DeactivateScopes(e, p, 2 * n) == DeactivateScopes(e, p, 2 * n) + [];
  }

  lemma RecoverDeactivate(e: nat, q: Pool, n: nat)
    requires Clean(q) && PendingHeader(q).kind == OpDeactivate && PendingHeader(q).param == n
    ensures
      var pi := q.c0.h.primary;
      Recover(e, q) ==
      Pool(Replayed(q.c0, DeactivateBody(e, q.c0, pi, n), false, 0),
           Replayed(q.c1, DeactivateBody(e, q.c1, pi, n), false, 0))
  {
    var pi := q.c0.h.primary;
    var b0, b1 := DeactivateBody(e, q.c0, pi, n), DeactivateBody(e, q.c1, pi, n);
    BodyKeepsDirty(e, q.c0, pi, n);
    BodyKeepsDirty(e, q.c1, pi, n);
    assert Heal(q) == q;
    assert [Scope(0, b0), Scope(1, b1)] + [] == [Scope(0, b0), Scope(1, b1)];
    RunReplay(q, b0, b1, false, 0);
  }

  /** The header a replayed body leaves, from a copy that had completed `m` rounds. */
  lemma ReplayedHeader(e: nat, p: Pool, n: nat, m: nat, d: Disk)
    requires CanDeactivate(e, p, n) && m <= 3
    ensures
      var o := DeactivateOp(e, p, n);
      var c := Copy(HeaderAfter(o, m), d);
      Replayed(c, DeactivateBody(e, c, o.start.primary, o.param), false, 0).h == Final(o)
  {
    var o := DeactivateOp(e, p, n);
    var c := Copy(HeaderAfter(o, m), d);
    if m < 2 {
      DeactivateHeader(e, c, n);
    } else {
      DeactivateAgain(e, c, 2 * n);
    }
  }

  lemma FreshRingData(e: nat, p: Pool, n: nat, i: nat)
    requires CanDeactivate(e, p, n) && i <= |DeactivateOp(e, p, n).b0|
    ensures
      var o := DeactivateOp(e, p, n);
      var c := Copy(HeaderAfter(o, 1), RunDisk(p.c0.disk, o.b0[..i]));
      RunDisk(c.disk, DeactivateBody(e, c, o.start.primary, o.param)) == RunDisk(p.c0.disk, o.b0)
  {
    var o := DeactivateOp(e, p, n);
    var x := RunDisk(p.c0.disk, o.b0[..i]);
    SameBodyAnywhere(e, p.c0, n, i);
    SameBody(e, Copy(p.c0.h, x), HeaderAfter(o, 1), o.param);
    PrefixAgreesOutside(p.c0.disk, p.c0.disk, o.b0, i);
    RunErasesDifferences(p.c0.disk, x, o.b0);
  }

  /** Recovery from any pair of rounds the protocol can leave. */
  lemma RecoverRounds(e: nat, p: Pool, n: nat, g: Pool, m0: nat, m1: nat, i: nat)
    requires CanDeactivate(e, p, n) && Clean(g) && m1 <= m0 <= m1 + 1 && 1 <= m0 <= 3
    requires
      var o := DeactivateOp(e, p, n);
      i <= |o.b0| && g.c1.h == HeaderAfter(o, m1) &&
      g.c0 == Copy(HeaderAfter(o, m0), RunDisk(p.c0.disk, if m0 == 1 then o.b0[..i] else o.b0))
    ensures
      var o := DeactivateOp(e, p, n);
      Recover(e, g).c0 == CopyAfter(o, 0, p.c0.disk, 3) && Recover(e, g).c1.h == Final(o)
  {
    var o := DeactivateOp(e, p, n);
    if m1 < 3 {
      RecoverDeactivate(e, g, o.param);
      ReplayedHeader(e, p, n, m0, g.c0.disk);
      ReplayedHeader(e, p, n, m1, g.c1.disk);
      if m0 == 1 {
        FreshRingData(e, p, n, i);
      } else {
        DeactivateAgain(e, g.c0, 2 * n);
      }
    }
  }

  lemma HealedRecovers(e: nat, p: Pool, n: nat, i: nat, j: nat, g: Pool)
    requires CanDeactivate(e, p, n) && Ready(DeactivateOp(e, p, n), p) && Healed(DeactivateOp(e, p, n), p, i, j, g)
    ensures
      var o := DeactivateOp(e, p, n);
      if i == 0 then g == p
      else Recover(e, g).c0 == CopyAfter(o, 0, p.c0.disk, 3) && Recover(e, g).c1.h == Final(o)
  {
    var o := DeactivateOp(e, p, n);
    var m0, m1 := RoundsHealed(i, j, 0), RoundsHealed(i, j, 1);
    HealedRounds(o, p, i, j, g);
    if i == 2 && j > 0 {
      RecoverRounds(e, p, n, g, m0, m1, j - 1);
    } else {
      RingDataElsewhere(o, p, i, j, g);
      if m0 > 0 {
        RecoverRounds(e, p, n, g, m0, m1, 0);
      }
    }
  }

  lemma HealedAccepted(e: nat, p: Pool, n: nat, m: nat)
    requires CanDeactivate(e, p, n) && m <= 3
    ensures DeactivateAccepts(HeaderAfter(DeactivateOp(e, p, n), m), p.c0.h.primary, 2 * n)
  {
    var h := HeaderAfter(DeactivateOp(e, p, n), m);
    if m < 2 {
      GrowSpan(e, h, n);
      ChunkIdsMappable(Chunks(h, n), n);
    }
  }

  lemma HealedState(e: nat, p: Pool, n: nat, i: nat, j: nat, g: Pool)
    requires CanDeactivate(e, p, n) && Ready(DeactivateOp(e, p, n), p) && Healed(DeactivateOp(e, p, n), p, i, j, g)
    ensures ReplayAccepts(g)
  {
    var o := DeactivateOp(e, p, n);
    HealedRounds(o, p, i, j, g);
    HealedAccepted(e, p, n, RoundsHealed(i, j, 0));
    HealedAccepted(e, p, n, RoundsHealed(i, j, 1));
  }

  /** The crash point as a scope and a store of it, and the state replay starts from. */
  lemma DeactivateCrashPoint(e: nat, p: Pool, n: nat, k: nat) returns (i: nat, j: nat, g: Pool)
    requires CanDeactivate(e, p, n) && k <= |DeactivateSteps(e, p)|
    ensures Ready(DeactivateOp(e, p, n), p) && Healed(DeactivateOp(e, p, n), p, i, j, g)
    ensures g == Heal(Run(p, DeactivateSteps(e, p)[..k]))
    ensures Recover(e, Run(p, DeactivateSteps(e, p)[..k])) == Recover(e, g)
    ensures k < 4 <==> i == 0
  {
    var o := DeactivateOp(e, p, n);
    DeactivateIsProtected(e, p, n);
    i, j := CrashAnywhere(o, p, k);
    g := Heal(Run(p, DeactivateSteps(e, p)[..k]));
    BodyScopeIsTwo(o, i, j);
  }

  lemma DeactivateDone(e: nat, p: Pool, n: nat)
    requires CanDeactivate(e, p, n)
    ensures
      var o, done := DeactivateOp(e, p, n), Run(p, DeactivateSteps(e, p));
      done.c0 == CopyAfter(o, 0, p.c0.disk, 3) && done.c1.h == Final(o)
  {
    DeactivateIsProtected(e, p, n);
    Completed(DeactivateOp(e, p, n), p);
  }

  /**
    Wherever the process dies, replay passes all its assertions and copy 0,
    header and ring data, is as it was before the operation or as the operation
    leaves it. The two headers agree and the intent record is gone.
   */
  lemma DeactivateIsAtomic(e: nat, p: Pool, n: nat, k: nat)
    requires CanDeactivate(e, p, n) && k <= |DeactivateSteps(e, p)|
    ensures
      var crash := Run(p, DeactivateSteps(e, p)[..k]);
      var r, done := Recover(e, crash), Run(p, DeactivateSteps(e, p));
      ReplayAccepts(Heal(crash)) && r.c0 == (if k < 4 then p.c0 else done.c0) && r.c1.h == r.c0.h &&
      r.c0.h.kind == OpNone
  {
    var i, j, g := DeactivateCrashPoint(e, p, n, k);
    HealedState(e, p, n, i, j, g);
    HealedRecovers(e, p, n, i, j, g);
    DeactivateDone(e, p, n);
  }

  // ---- lookups ----

  lemma SameTailSameHead(e: nat, n: nat, ids: seq<nat>, u: nat, v: nat)
    requires Geometry(e, n) && |ids| == 2 * n && ChunkIds(ids) && Tail(e, n, ids, u) == Tail(e, n, ids, v)
    ensures Head(e, n, ids, u) == Head(e, n, ids, v)
  {
    var cap := Capacity(e, n);
    SlotsOfVersion(e, n, u);
    SlotsOfVersion(e, n, v);
    CapacityIsPow2(e, n);
    if Slot(u, cap) < Slot(v, cap) {
      EntriesDistinct(e, ids, Slot(u, cap) + cap, Slot(v, cap) + cap);
    } else if Slot(v, cap) < Slot(u, cap) {
      EntriesDistinct(e, ids, Slot(v, cap) + cap, Slot(u, cap) + cap);
    }
  }

  /** One turn of the move loop, seen from the tail slot of `v`. */
  lemma MoveIntoTail(e: nat, n: nat, d: Disk, ids: seq<nat>, u: nat, v: nat)
    requires Geometry(e, n) && |ids| == 2 * n && ChunkIds(ids) && InTail(e, n, v)
    ensures
      var w := LastWrite(Move(e, d, ids, Capacity(e, n), Capacity(e, 2 * n), u), Tail(e, n, ids, v));
      (u == v ==> w != []) && (w != [] ==> w[0] == Read(d, Head(e, n, ids, v)))
  {
    GrowMove(e, n, d, ids, u);
    if Tail(e, n, ids, u) == Tail(e, n, ids, v) {
      SameTailSameHead(e, n, ids, u, v);
    }
  }

  /** The move loop leaves in each tail slot it writes the entry of the head slot it came from. */
  lemma {:induction false} MovesIntoTail(e: nat, n: nat, d: Disk, ids: seq<nat>, lo: nat, hi: nat, v: nat)
    requires Geometry(e, n) && |ids| == 2 * n && ChunkIds(ids) && InTail(e, n, v)
    ensures
      var w := LastWrite(Moves(e, d, ids, Capacity(e, n), Capacity(e, 2 * n), lo, hi), Tail(e, n, ids, v));
      (lo <= v < hi ==> w != []) && (w != [] ==> w[0] == Read(d, Head(e, n, ids, v)))
    decreases hi
  {
    if lo < hi {
      var from, to, a, last := Capacity(e, n), Capacity(e, 2 * n), Tail(e, n, ids, v), hi - 1;
      MovesIntoTail(e, n, d, ids, lo, last, v);
      MoveIntoTail(e, n, d, ids, last, v);
      EitherWrites(Moves(e, d, ids, from, to, lo, last), Move(e, d, ids, from, to, last), a,
                   Read(d, Head(e, n, ids, v)), lo <= v < last, v == last);
    }
  }

  /** Both parts write only `o` to the address, and one of them does if it has to. */
  lemma EitherWrites(s: seq<Store>, t: seq<Store>, a: Addr, o: Offset, p: bool, q: bool)
    requires (p ==> LastWrite(s, a) != []) && (LastWrite(s, a) != [] ==> LastWrite(s, a)[0] == o)
    requires (q ==> LastWrite(t, a) != []) && (LastWrite(t, a) != [] ==> LastWrite(t, a)[0] == o)
    ensures (p || q ==> LastWrite(s + t, a) != []) && (LastWrite(s + t, a) != [] ==> LastWrite(s + t, a)[0] == o)
  {
    LastWriteConcat(s, t, a);
  }

  /** The body leaves every version's entry in the slot of the grown ring. */
  lemma BodyMovesEntries(e: nat, c: Copy, n: nat, v: nat)
    requires Growable(e, c.h, n)
    requires var p := RingOf(c.h, c.h.primary); p.lb <= v < p.nv
    ensures
      var ids := Chunks(c.h, n);
      Read(RunDisk(c.disk, DeactivateBody(e, c, c.h.primary, 2 * n)),
           if InTail(e, n, v) then Tail(e, n, ids, v) else Head(e, n, ids, v)) == Read(c.disk, Head(e, n, ids, v))
  {
    var pi := c.h.primary;
    var p, ids := RingOf(c.h, pi), Chunks(c.h, n);
    var b := DeactivateBody(e, c, pi, 2 * n);
    if InTail(e, n, v) {
      var fill := Fill(e, ids, Capacity(e, n), Capacity(e, 2 * n));
      var moves := Moves(e, c.disk, ids, Capacity(e, n), Capacity(e, 2 * n), p.lb, p.nv);
      BodyParts(e, c, n);
      TransfersAreNotSlots(c.h, Other(pi), 0, pi, n, n);
      SlotsAround(c.disk, Transfer(c.h, Other(pi), 0, pi, n, n), fill + moves, Commit(pi, 2 * n));
      RunDiskConcat(c.disk, fill, moves);
      RunDiskRead(RunDisk(c.disk, fill), moves, Tail(e, n, ids, v));
      MovesIntoTail(e, n, c.disk, ids, p.lb, p.nv, v);
    } else {
      BodySparesHeads(e, c, n, v);
      LastWriteIffWrites(b, Head(e, n, ids, v));
      RunDiskRead(c.disk, b, Head(e, n, ids, v));
    }
  }

  lemma LookupBefore(e: nat, c: Copy, n: nat, v: nat)
    requires Growable(e, c.h, n)
    ensures RawLookup(e, c, v) == Read(c.disk, Head(e, n, Chunks(c.h, n), v))
  {
    var p, ids := RingOf(c.h, c.h.primary), Chunks(c.h, n);
    SlotsOfVersion(e, n, v);
    assert ids[..n] == p.chunks[..n];
    EntrySame(e, n, p.chunks, ids, Slot(v, Capacity(e, n)));
  }

  lemma LookupAfter(e: nat, h: Header, c: Copy, n: nat, v: nat)
    requires Growable(e, h, n) && c.h.primary == h.primary &&
             RingOf(c.h, h.primary) == RingOf(Deactivated(h, n), h.primary)
    ensures
      var ids := Chunks(h, n);
      RawLookup(e, c, v) == Read(c.disk, if InTail(e, n, v) then Tail(e, n, ids, v) else Head(e, n, ids, v))
  {
    var p, ids := RingOf(c.h, h.primary), Chunks(h, n);
    SlotsOfVersion(e, n, v);
    CapacityIsPow2(e, n);
    GrowSpan(e, h, n);
    assert ids[..2 * n] == ids;
    EntrySame(e, 2 * n, p.chunks, ids, Slot(v, Capacity(e, 2 * n)));
  }

  lemma GrownRing(e: nat, p: Pool, n: nat)
    requires CanDeactivate(e, p, n)
    ensures
      var f, h := Final(DeactivateOp(e, p, n)), p.c0.h;
      f.primary == h.primary && RingOf(f, h.primary) == RingOf(Deactivated(h, n), h.primary)
  {
  }

  /** Uninterrupted deactivate changes no lookup of the primary. */
  lemma DeactivateKeepsLookups(e: nat, p: Pool, n: nat, v: nat)
    requires CanDeactivate(e, p, n)
    ensures Lookup(e, Run(p, DeactivateSteps(e, p)).c0, v) == Lookup(e, p.c0, v)
  {
    var h, r := p.c0.h, RingOf(p.c0.h, p.c0.h.primary);
    DeactivateDone(e, p, n);
    GrownRing(e, p, n);
    if r.lb <= v < r.nv {
      LookupAfter(e, h, Run(p, DeactivateSteps(e, p)).c0, n, v);
      BodyMovesEntries(e, p.c0, n, v);
      LookupBefore(e, p.c0, n, v);
    }
  }

  /** No crash of a deactivate changes a lookup of the primary. */
  lemma DeactivateCrashKeepsLookups(e: nat, p: Pool, n: nat, k: nat, v: nat)
    requires CanDeactivate(e, p, n) && k <= |DeactivateSteps(e, p)|
    ensures Lookup(e, Recover(e, Run(p, DeactivateSteps(e, p)[..k])).c0, v) == Lookup(e, p.c0, v)
  {
    DeactivateIsAtomic(e, p, n, k);
    DeactivateKeepsLookups(e, p, n, v);
  }

  /** Activate then deactivate gives the primary its chunks back, in their old order, and empties the secondary. */
  lemma ChunksReturnInOrder(e: nat, h: Header, n: nat)
    requires Shrinkable(e, h, n)
    ensures
      var up := Activated(e, h, n);
      Growable(e, up, n) &&
      var back := Deactivated(up, n);
      RingOf(back, h.primary).chunks == RingOf(h, h.primary).chunks && RingOf(back, h.primary).len == 2 * n &&
      RingOf(back, Other(h.primary)).chunks == RingOf(h, Other(h.primary)).chunks &&
      RingOf(back, Other(h.primary)).len == 0
  {
    var p, s := RingOf(h, h.primary), RingOf(h, Other(h.primary));
    var up := Activated(e, h, n);
    var p', s' := RingOf(up, h.primary), RingOf(up, Other(h.primary));
    assert p'.chunks[..n] + s'.chunks[..n] == p.chunks[..2 * n];
    assert Received(p'.chunks, n, s'.chunks, 0, n) == p.chunks;
    assert Emptied(s'.chunks, 0, n) == s.chunks;
  }

  /** Every field that a deactivate leaves, in both copies. */
  lemma DeactivateLeaves(e: nat, p: Pool, n: nat, w: nat)
    requires CanDeactivate(e, p, n) && w < 2
    ensures
      var h, g := p.c0.h, CopyOf(Run(p, DeactivateSteps(e, p)), w).h;
      var r, s, r', s' := RingOf(h, h.primary), RingOf(h, 1 - h.primary), RingOf(g, h.primary),
        RingOf(g, 1 - h.primary);
      g.primary == h.primary && !g.active && !g.dirty && g.kind == OpNone && g.param == 0 && g.history == h.history &&
      r'.len == r.len + s.len && r'.lb == r.lb && r'.nv == r.nv && s'.len == 0 && s'.lb == s.lb && s'.nv == s.nv &&
      |r'.chunks| == |r.chunks| && |s'.chunks| == |s.chunks| &&
      (forall k :: 0 <= k < |r.chunks| ==> r'.chunks[k] == if n <= k < 2 * n then s.chunks[k - n] else r.chunks[k]) &&
      (forall k :: 0 <= k < |s.chunks| ==> s'.chunks[k] == if k < n then 0xffff_ffff else s.chunks[k])
  {
    DeactivateDone(e, p, n);
    JoinedRings(p.c0.h, n, Final(DeactivateOp(e, p, n)));
  }

  lemma JoinedRings(h: Header, n: nat, g: Header)
    requires h.primary < 2 && |RingOf(h, 1 - h.primary).chunks| >= n
    requires RingOf(h, h.primary).len == n && RingOf(h, 1 - h.primary).len == n
    requires RingOf(g, h.primary) == RingOf(Deactivated(h, n), h.primary)
    requires RingOf(g, 1 - h.primary) == RingOf(Deactivated(h, n), 1 - h.primary)
    ensures
      var r, s, r', s' := RingOf(h, h.primary), RingOf(h, 1 - h.primary), RingOf(g, h.primary),
        RingOf(g, 1 - h.primary);
      r'.len == r.len + s.len && r'.lb == r.lb && r'.nv == r.nv && s'.len == 0 && s'.lb == s.lb && s'.nv == s.nv &&
      |r'.chunks| == |r.chunks| && |s'.chunks| == |s.chunks| &&
      (forall k :: 0 <= k < |r.chunks| ==> r'.chunks[k] == if n <= k < 2 * n then s.chunks[k - n] else r.chunks[k]) &&
      (forall k :: 0 <= k < |s.chunks| ==> s'.chunks[k] == if k < n then 0xffff_ffff else s.chunks[k])
  {
  }
}
