/**
  Crash safety of `activate_secondary_header`. Outside the fill window a crash
  followed by an open leaves copy 0 exactly as it was before the operation or
  exactly as the operation leaves it; inside the window the versions lost are
  exactly those whose slot had already been filled.
 */
module ActivateCrash {
  import opened PowerOfTwo
  import opened RingPool
  import opened ShrinkGrow
  import opened RingLayout
  import opened IntentLog
  import opened ProtectedOp
  import opened ActivateBodyFacts

  /**
    What `activate_secondary_header` asserts, on two agreeing clean headers.
    The last conjunct is the assertion of `update_history_length_metadata`.
   */
  ghost predicate CanActivate(e: nat, p: Pool) {
    var h := p.c0.h;
    var n := ActivateParam(h);
    h == p.c1.h && !h.dirty && h.kind == OpNone && h.param == 0 && !h.active &&
    Shrinkable(e, h, n) && (h.history > Capacity(e, n) ==> Capacity(e, n) >= MIN_HISTORY_LENGTH)
  }

  ghost function ActivateSteps(e: nat, p: Pool): seq<Step>
    requires e > 0
  {
    Flatten(Program(e, p, OpActivate, ActivateParam(p.c0.h)))
  }

  /** The operation as rounds of the intent-log protocol. */
  ghost function ActivateOp(e: nat, p: Pool): Op
    requires CanActivate(e, p)
  {
    var h := p.c0.h;
    var n, pi := ActivateParam(h), h.primary;
    Op(h, OpActivate, n, ActivateBody(e, p.c0, pi, n), ActivateBody(e, p.c1, pi, n),
       Activated(e, Stamped(h, OpActivate, n), n), h.history > Capacity(e, n), Max(Capacity(e, n), MIN_HISTORY_LENGTH))
  }

  /** The body does not look at the intent record. */
  lemma SameBody(e: nat, c: Copy, g: Header, n: nat)
    requires e > 0 && c.h.primary < 2 && c.h.ringA == g.ringA && c.h.ringB == g.ringB
    ensures ActivateBody(e, Copy(g, c.disk), c.h.primary, n) == ActivateBody(e, c, c.h.primary, n)
  {
    var pi := c.h.primary;
    TransferSameLists(c.h, g, pi, n, Other(pi), 0, n);
    assert PrimarySpan(c.h, pi, n, n) == PrimarySpan(g, pi, n, n);
    assert SecondarySpan(c.h, pi, n) == SecondarySpan(g, pi, n);
  }

  lemma ActivateIsProtected(e: nat, p: Pool)
    requires CanActivate(e, p)
    ensures ActivateSteps(e, p) == Flatten(OpScopes(ActivateOp(e, p)))
    ensures Ready(ActivateOp(e, p), p)
  {
    var h := p.c0.h;
    var n, pi := ActivateParam(h), h.primary;
    var g := Stamped(h, OpActivate, n);
    ScopesInOrder(ActivateOp(e, p));
    BodyKeepsDirty(e, p.c0, pi, n);
    BodyKeepsDirty(e, p.c1, pi, n);
    SameBody(e, p.c0, g, n);
    SameBody(e, p.c1, g, n);
    ActivateHeader(e, Copy(g, p.c0.disk), n);
    ActivateHeader(e, Copy(g, p.c1.disk), n);
  }

  // ---- replay of a pending activate ----

  lemma RecoverActivate(e: nat, q: Pool, n: nat)
    requires Clean(q) && e > 0 && PendingHeader(q).kind == OpActivate && PendingHeader(q).param == n
    ensures
      var pi := q.c0.h.primary;
      var trim, x := q.c0.h.history > Capacity(e, n), Max(Capacity(e, n), MIN_HISTORY_LENGTH);
      Recover(e, q) ==
      Pool(Replayed(q.c0, ActivateBody(e, q.c0, pi, n), trim, x), Replayed(q.c1, ActivateBody(e, q.c1, pi, n), trim, x))
  {
    var pi := q.c0.h.primary;
    BodyKeepsDirty(e, q.c0, pi, n);
    BodyKeepsDirty(e, q.c1, pi, n);
    assert Heal(q) == q;
    RunReplay(q, ActivateBody(e, q.c0, pi, n), ActivateBody(e, q.c1, pi, n), q.c0.h.history > Capacity(e, n),
              Max(Capacity(e, n), MIN_HISTORY_LENGTH));
  }

  // ---- headers at a crash ----

  /** Every header the operation passes through is fit for the body or past it. */
  lemma HeaderCases(e: nat, p: Pool, m: nat)
    requires CanActivate(e, p) && m <= Rounds(ActivateOp(e, p))
    ensures
      var h, n := HeaderAfter(ActivateOp(e, p), m), ActivateParam(p.c0.h);
      h.primary == p.c0.h.primary && (if m < 2 then Shrinkable(e, h, n) else Shrunk(e, h, n))
  {
    var o, n := ActivateOp(e, p), ActivateParam(p.c0.h);
    ActivatedIsShrunk(e, Stamped(p.c0.h, OpActivate, n), n);
  }

  /** The header a replayed body leaves, from a copy that had completed `m` rounds. */
  lemma ReplayedHeader(e: nat, p: Pool, m: nat, d: Disk, trim: bool)
    requires CanActivate(e, p) && m <= Rounds(ActivateOp(e, p))
    requires
      var o := ActivateOp(e, p);
      trim == (HeaderAfter(o, m).history > Capacity(e, o.param))
    ensures
      var o := ActivateOp(e, p);
      var c := Copy(HeaderAfter(o, m), d);
      Replayed(c, ActivateBody(e, c, o.start.primary, o.param), trim, o.history).h == Final(o)
  {
    var o, n := ActivateOp(e, p), ActivateParam(p.c0.h);
    var c := Copy(HeaderAfter(o, m), d);
    HeaderCases(e, p, m);
    if m < 2 {
      ActivateHeader(e, c, n);
    } else {
      ActivateAgain(e, c, n);
    }
  }

  /** The header that misses the history update ends up without it. */
  lemma ReplayedUntrimmed(e: nat, p: Pool, d: Disk)
    requires CanActivate(e, p)
    ensures
      var o := ActivateOp(e, p);
      var c := Copy(o.after, d);
      Replayed(c, ActivateBody(e, c, o.start.primary, o.param), false, o.history).h == Stamped(o.after, OpNone, 0)
  {
    var o := ActivateOp(e, p);
    HeaderCases(e, p, 2);
    ActivateAgain(e, Copy(o.after, d), o.param);
  }

  lemma HeadersAccepted(e: nat, p: Pool, m: nat)
    requires CanActivate(e, p) && m <= Rounds(ActivateOp(e, p))
    ensures ActivateAccepts(HeaderAfter(ActivateOp(e, p), m), p.c0.h.primary, ActivateParam(p.c0.h))
  {
    var n, pi := ActivateParam(p.c0.h), p.c0.h.primary;
    var h, g := HeaderAfter(ActivateOp(e, p), m), Stamped(p.c0.h, OpActivate, n);
    var ids := RingOf(g, pi).chunks[..2 * n];
    HeaderCases(e, p, m);
    ShrinkSpans(e, g, n);
    ChunkIdsMappable(ids, n);
    assert ids[n..] == RingOf(g, pi).chunks[n..2 * n];
    if m >= 2 {
      assert SecondarySpan(h, pi, n) == SecondarySpan(Activated(e, g, n), pi, n);
    } else {
      assert SecondarySpan(h, pi, n) == SecondarySpan(g, pi, n);
      assert PrimarySpan(h, pi, n, n) == PrimarySpan(g, pi, n, n);
    }
  }

  // ---- ring data at a crash ----

  /** Replay from the stamped header, with the body unchanged by what is on disk, finishes the job. */
  lemma FreshRingData(e: nat, p: Pool, i: nat)
    requires CanActivate(e, p)
    requires i <= |ActivateBeforeFill(e, p.c0, p.c0.h.primary, ActivateParam(p.c0.h))|
    ensures
      var o := ActivateOp(e, p);
      var c := Copy(HeaderAfter(o, 1), RunDisk(p.c0.disk, o.b0[..i]));
      RunDisk(c.disk, ActivateBody(e, c, o.start.primary, o.param)) == RunDisk(p.c0.disk, o.b0)
  {
    var o := ActivateOp(e, p);
    var x := RunDisk(p.c0.disk, o.b0[..i]);
    SameBodyBeforeFill(e, p.c0, o.param, i);
    SameBody(e, Copy(p.c0.h, x), HeaderAfter(o, 1), o.param);
    PrefixAgreesOutside(p.c0.disk, p.c0.disk, o.b0, i);
    RunErasesDifferences(p.c0.disk, x, o.b0);
  }

  /** Past the body, replay only repeats the fill. */
  lemma RepeatedRingData(e: nat, p: Pool, m: nat)
    requires CanActivate(e, p) && 2 <= m <= Rounds(ActivateOp(e, p))
    ensures
      var o := ActivateOp(e, p);
      var c := CopyAfter(o, 0, p.c0.disk, m);
      RunDisk(c.disk, ActivateBody(e, c, o.start.primary, o.param)) == c.disk
  {
    var o := ActivateOp(e, p);
    var n, pi := o.param, o.start.primary;
    var tail := Fill(e, SecondarySpan(p.c0.h, pi, n), 0, Capacity(e, n)) + ActivateCommit(pi, n);
    RepeatedBodyIsTail(e, p, CopyAfter(o, 0, p.c0.disk, m), m);
    assert o.b0 == ActivateBeforeFill(e, p.c0, pi, n) + tail;
    TailRepeats(p.c0.disk, ActivateBeforeFill(e, p.c0, pi, n), tail);
  }

  lemma RepeatedBodyIsTail(e: nat, p: Pool, c: Copy, m: nat)
    requires CanActivate(e, p) && 2 <= m <= Rounds(ActivateOp(e, p)) && c.h == HeaderAfter(ActivateOp(e, p), m)
    ensures
      var n, pi := ActivateParam(p.c0.h), p.c0.h.primary;
      ActivateBody(e, c, pi, n) == Fill(e, SecondarySpan(p.c0.h, pi, n), 0, Capacity(e, n)) + ActivateCommit(pi, n)
  {
    var n := ActivateParam(p.c0.h);
    HeaderCases(e, p, m);
    RingsPastBody(e, p, m);
    TailOfBody(e, c, Stamped(p.c0.h, OpActivate, n), p.c0.h, n);
  }

  lemma RingsPastBody(e: nat, p: Pool, m: nat)
    requires CanActivate(e, p) && 2 <= m <= Rounds(ActivateOp(e, p))
    ensures
      var h, n := HeaderAfter(ActivateOp(e, p), m), ActivateParam(p.c0.h);
      var g := Activated(e, Stamped(p.c0.h, OpActivate, n), n);
      h.ringA == g.ringA && h.ringB == g.ringB
  {
  }

  lemma TailOfBody(e: nat, c: Copy, g: Header, h: Header, n: nat)
    requires Shrunk(e, c.h, n) && Shrinkable(e, g, n) && Shrinkable(e, h, n) && c.h.primary == g.primary == h.primary
    requires c.h.ringA == Activated(e, g, n).ringA && c.h.ringB == Activated(e, g, n).ringB && g.ringA == h.ringA &&
             g.ringB == h.ringB
    ensures ActivateBody(e, c, h.primary, n) == Fill(e, SecondarySpan(h, h.primary, n), 0, Capacity(e, n)) +
            ActivateCommit(h.primary, n)
  {
    ActivateAgain(e, c, n);
    SecondarySpanStays(e, g, n);
    SecondarySpanIs(e, h, n);
    SameSecondarySpan(c.h, Activated(e, g, n), h.primary, n);
  }

  lemma SameSecondarySpan(h: Header, g: Header, pi: nat, n: nat)
    requires h.ringA == g.ringA && h.ringB == g.ringB
    ensures SecondarySpan(h, pi, n) == SecondarySpan(g, pi, n)
  {
  }

  // ---- recovery from every crash point ----

  /** Recovery of the headers from any pair of rounds the protocol can leave. */
  lemma RecoverHeaders(e: nat, p: Pool, g: Pool, m0: nat, m1: nat)
    requires CanActivate(e, p) && Clean(g) && m1 <= m0 <= m1 + 1 && 1 <= m0 <= Rounds(ActivateOp(e, p))
    requires g.c0.h == HeaderAfter(ActivateOp(e, p), m0) && g.c1.h == HeaderAfter(ActivateOp(e, p), m1)
    ensures
      var o := ActivateOp(e, p);
      Recover(e, g).c0.h == Final(o) &&
      Recover(e, g).c1.h == if o.trims && m0 == 3 && m1 == 2 then Stamped(o.after, OpNone, 0) else Final(o)
  {
    var o := ActivateOp(e, p);
    if m1 < Rounds(o) {
      RecoverActivate(e, g, o.param);
      ReplayedHeader(e, p, m0, g.c0.disk, g.c0.h.history > Capacity(e, o.param));
      if o.trims && m0 == 3 && m1 == 2 {
        ReplayedUntrimmed(e, p, g.c1.disk);
      } else {
        ReplayedHeader(e, p, m1, g.c1.disk, g.c0.h.history > Capacity(e, o.param));
      }
    }
  }

  /** The one crash point after which the copies keep different history lengths. */
  ghost function HistoryGap(e: nat, p: Pool): nat
    requires CanActivate(e, p)
  {
    var o := ActivateOp(e, p);
    15 + |o.b0| + |o.b1|
  }

  lemma GapIsScopeFive(o: Op, i: nat, j: nat)
    requires o.trims && i <= 8 && (j > 0 ==> i < 8 && j <= |RoundBody(o, i % 2, i / 2)| + 1)
    ensures Issued(o, i) + j == 15 + |o.b0| + |o.b1| <==> i == 5 && j == 0
  {
    IssuedFive(o);
    if i < 5 {
      StoreBefore(o, i, j, 5);
    } else if i > 5 {
      StoreBefore(o, 5, 0, i);
    }
  }

  lemma IssuedFive(o: Op)
    requires o.trims
    ensures Issued(o, 5) == 15 + |o.b0| + |o.b1|
  {
    IssuedEarly(o);
    IssuedStep(o, 3);
    IssuedStep(o, 4);
  }

  lemma HealedAccepted(e: nat, p: Pool, i: nat, j: nat, g: Pool)
    requires CanActivate(e, p) && Ready(ActivateOp(e, p), p) && Healed(ActivateOp(e, p), p, i, j, g)
    ensures ReplayAccepts(g)
  {
    var m0, m1 := RoundsHealed(i, j, 0), RoundsHealed(i, j, 1);
    HealedRounds(ActivateOp(e, p), p, i, j, g);
    HeadersAccepted(e, p, m0);
    HeadersAccepted(e, p, m1);
    HeaderCases(e, p, m0);
  }

  /** What replay makes of the headers. */
  lemma HealedHeaders(e: nat, p: Pool, i: nat, j: nat, g: Pool)
    requires CanActivate(e, p) && Ready(ActivateOp(e, p), p) && Healed(ActivateOp(e, p), p, i, j, g)
    ensures
      var o := ActivateOp(e, p);
      if i == 0 then Recover(e, g).c0.h == p.c0.h && Recover(e, g).c1.h == p.c0.h
      else
        Recover(e, g).c0.h == Final(o) &&
        Recover(e, g).c1.h == if o.trims && i == 5 && j == 0 then Stamped(o.after, OpNone, 0) else Final(o)
  {
    var m0, m1 := RoundsHealed(i, j, 0), RoundsHealed(i, j, 1);
    HealedRounds(ActivateOp(e, p), p, i, j, g);
    if m0 > 0 {
      RecoverHeaders(e, p, g, m0, m1);
    }
  }

  /** The crash point as a scope and a store of it, and the state replay starts from. */
  lemma ActivateCrashPoint(e: nat, p: Pool, k: nat) returns (i: nat, j: nat, g: Pool)
    requires CanActivate(e, p) && k <= |ActivateSteps(e, p)|
    ensures Ready(ActivateOp(e, p), p) && Healed(ActivateOp(e, p), p, i, j, g)
    ensures g == Heal(Run(p, ActivateSteps(e, p)[..k]))
    ensures Recover(e, Run(p, ActivateSteps(e, p)[..k])) == Recover(e, g)
    ensures k == Issued(ActivateOp(e, p), i) + j && (k < 4 <==> i == 0)
    ensures 8 < k < 10 + |ActivateOp(e, p).b0| ==> i == 2 && j == k - 8
  {
    var o := ActivateOp(e, p);
    ActivateIsProtected(e, p);
    i, j := CrashAnywhere(o, p, k);
    g := Heal(Run(p, ActivateSteps(e, p)[..k]));
    BodyScopeIsTwo(o, i, j);
  }

  lemma ActivateDone(e: nat, p: Pool)
    requires CanActivate(e, p)
    ensures
      var o, done := ActivateOp(e, p), Run(p, ActivateSteps(e, p));
      done.c0 == Copy(Final(o), RunDisk(p.c0.disk, o.b0)) && done.c1.h == Final(o)
  {
    ActivateIsProtected(e, p);
    Completed(ActivateOp(e, p), p);
  }

  /**
    Wherever the process dies, replay passes all its assertions, the intent
    record is gone afterwards and copy 0 has the header of before or after the
    whole operation. The two headers agree again, except after a crash between
    the two stores of the history length.
   */
  lemma HeadersAfterCrash(e: nat, p: Pool, k: nat)
    requires CanActivate(e, p) && k <= |ActivateSteps(e, p)|
    ensures
      var crash := Run(p, ActivateSteps(e, p)[..k]);
      var r, done := Recover(e, crash), Run(p, ActivateSteps(e, p));
      ReplayAccepts(Heal(crash)) &&
      r.c0.h == (if k < 4 then p.c0.h else done.c0.h) && r.c0.h.kind == OpNone && r.c1.h.kind == OpNone &&
      (r.c0.h == r.c1.h <==> !(p.c0.h.history > Capacity(e, ActivateParam(p.c0.h)) && k == HistoryGap(e, p)))
  {
    var o := ActivateOp(e, p);
    ActivateDone(e, p);
    var i, j, g := ActivateCrashPoint(e, p, k);
    HealedHeaders(e, p, i, j, g);
    HealedAccepted(e, p, i, j, g);
    if o.trims {
      GapIsScopeFive(o, i, j);
    }
  }

  /** Crash points after the first 0xff store of copy 0 and before its dirty scope ends. */
  ghost predicate InFillWindow(e: nat, p: Pool, k: nat)
    requires e > 0
  {
    var n, pi := ActivateParam(p.c0.h), p.c0.h.primary;
    9 + |ActivateBeforeFill(e, p.c0, pi, n)| < k < 10 + |ActivateBody(e, p.c0, pi, n)|
  }

  lemma RecoverRingData(e: nat, p: Pool, g: Pool, m0: nat, m1: nat, i: nat)
    requires CanActivate(e, p) && Clean(g) && m1 <= m0 <= m1 + 1 && 1 <= m0 <= Rounds(ActivateOp(e, p))
    requires g.c0.h == HeaderAfter(ActivateOp(e, p), m0) && g.c1.h == HeaderAfter(ActivateOp(e, p), m1)
    requires
      var o := ActivateOp(e, p);
      i <= |ActivateBeforeFill(e, p.c0, p.c0.h.primary, o.param)| &&
      g.c0.disk == if m0 == 1 then RunDisk(p.c0.disk, o.b0[..i]) else RunDisk(p.c0.disk, o.b0)
    ensures Recover(e, g).c0.disk == RunDisk(p.c0.disk, ActivateOp(e, p).b0)
  {
    var o := ActivateOp(e, p);
    if m1 < Rounds(o) {
      RecoverActivate(e, g, o.param);
      if m0 == 1 {
        FreshRingData(e, p, i);
      } else {
        RepeatedRingData(e, p, m0);
      }
    }
  }

  lemma HealedRingData(e: nat, p: Pool, i: nat, j: nat, g: Pool)
    requires CanActivate(e, p) && Ready(ActivateOp(e, p), p) && Healed(ActivateOp(e, p), p, i, j, g)
    requires i == 2 ==> j <= 1 + |ActivateBeforeFill(e, p.c0, p.c0.h.primary, ActivateParam(p.c0.h))|
    ensures Recover(e, g).c0.disk == if i == 0 then p.c0.disk else RunDisk(p.c0.disk, ActivateOp(e, p).b0)
  {
    var o := ActivateOp(e, p);
    HealedRounds(o, p, i, j, g);
    var m0, m1 := RoundsHealed(i, j, 0), RoundsHealed(i, j, 1);
    if i == 2 && j > 0 {
      RecoverRingData(e, p, g, m0, m1, j - 1);
    } else {
      RingDataElsewhere(o, p, i, j, g);
      if m0 > 0 {
        RecoverRingData(e, p, g, m0, m1, 0);
      }
    }
  }

  lemma HealedRecovers(e: nat, p: Pool, i: nat, j: nat, g: Pool)
    requires CanActivate(e, p) && Ready(ActivateOp(e, p), p) && Healed(ActivateOp(e, p), p, i, j, g)
    requires i == 2 ==> j <= 1 + |ActivateBeforeFill(e, p.c0, p.c0.h.primary, ActivateParam(p.c0.h))|
    ensures
      var o := ActivateOp(e, p);
      Recover(e, g).c0 == if i == 0 then p.c0 else CopyAfter(o, 0, p.c0.disk, Rounds(o))
  {
    HealedHeaders(e, p, i, j, g);
    HealedRingData(e, p, i, j, g);
  }

  /** Outside the fill window the operation is atomic for copy 0: header and ring data. */
  lemma CrashOutsideFillWindow(e: nat, p: Pool, k: nat)
    requires CanActivate(e, p) && k <= |ActivateSteps(e, p)| && !InFillWindow(e, p, k)
    ensures
      var r, done := Recover(e, Run(p, ActivateSteps(e, p)[..k])), Run(p, ActivateSteps(e, p));
      r.c0 == if k < 4 then p.c0 else done.c0
  {
    var o := ActivateOp(e, p);
    var safe := |ActivateBeforeFill(e, p.c0, p.c0.h.primary, ActivateParam(p.c0.h))|;
    ActivateIsProtected(e, p);
    forall i: nat, j: nat, g: Pool | Healed(o, p, i, j, g) && (i == 2 ==> j <= 1 + safe)
      ensures Recover(e, g).c0 == if i == 0 then p.c0 else CopyAfter(o, 0, p.c0.disk, Rounds(o))
    {
      HealedRecovers(e, p, i, j, g);
    }
    AtomicOutside(e, o, p, safe, k);
  }
}
