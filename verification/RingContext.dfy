/**
  `DbMetadataContext` as the program that issues the stores. Every durable
  write goes through `Put`, which records it; the methods below are shown to
  issue exactly the store sequences whose crashes are studied elsewhere.
 */
module RingContext {
  import opened PowerOfTwo
  import opened RingPool
  import opened ShrinkGrow
  import opened RingLayout
  import opened IntentLog
  import opened ActivateBodyFacts
  import ProtectedOp
  import ActivateCrash
  import Deactivate
  import Promote

  /** The pool after stores `ss` to copy `w`. */
  ghost function Stored(p: Pool, w: nat, ss: seq<Store>): Pool {
    WithCopy(p, w, RunCopy(CopyOf(p, w), ss))
  }

  lemma StoredSnoc(p: Pool, w: nat, ss: seq<Store>, s: Store)
    requires w < 2
    ensures Apply(Stored(p, w, ss), Step(w, s)) == Stored(p, w, ss + [s])
    ensures OnCopy(w, ss + [s]) == OnCopy(w, ss) + [Step(w, s)]
  {
    assert (ss + [s])[..|ss|] == ss;
  }

  lemma StoredConcat(p: Pool, w: nat, a: seq<Store>, b: seq<Store>)
    requires w < 2
    ensures Stored(Stored(p, w, a), w, b) == Stored(p, w, a + b)
    ensures OnCopy(w, a + b) == OnCopy(w, a) + OnCopy(w, b)
  {
    RunHeaderConcat(CopyOf(p, w).h, a, b);
    RunDiskConcat(CopyOf(p, w).disk, a, b);
  }

  /** Stores `a` and then stores `b`, on the pool and in the record of issued stores. */
  lemma Then(p: Pool, i: seq<Step>, p': Pool, i': seq<Step>, w: nat, a: seq<Store>, b: seq<Store>)
    requires w < 2 && p' == Stored(p, w, a) && i' == i + OnCopy(w, a)
    ensures Stored(p', w, b) == Stored(p, w, a + b) && i' + OnCopy(w, b) == i + OnCopy(w, a + b)
  {
    StoredConcat(p, w, a, b);
    ConcatAssociative(i, OnCopy(w, a), OnCopy(w, b));
  }

  /** A span of chunks read under one ring size and written under its double, or the other way round. */
  ghost predicate Resizes(e: nat, n: nat, ids: seq<nat>, from: nat, to: nat) {
    Geometry(e, n) && |ids| == 2 * n && ChunkIds(ids) &&
    ((from == Capacity(e, 2 * n) && to == Capacity(e, n)) || (from == Capacity(e, n) && to == Capacity(e, 2 * n)))
  }

  /** The entry of `v` is still where it was when the loop from `lo` reaches it. */
  ghost predicate StableAt(e: nat, d: Disk, ids: seq<nat>, from: nat, to: nat, lo: nat, v: nat) {
    Move(e, RunDisk(d, Moves(e, d, ids, from, to, lo, v)), ids, from, to, v) == Move(e, d, ids, from, to, v)
  }

  ghost predicate Stable(e: nat, d: Disk, ids: seq<nat>, from: nat, to: nat, lo: nat) {
    forall v: nat :: StableAt(e, d, ids, from, to, lo, v)
  }

  lemma AllStable(e: nat, n: nat, d: Disk, ids: seq<nat>, from: nat, to: nat, lo: nat)
    requires Resizes(e, n, ids, from, to)
    ensures Stable(e, d, ids, from, to, lo)
  {
    forall v: nat
      ensures StableAt(e, d, ids, from, to, lo, v)
    {
      MoveAfterMoves(e, n, d, ids, from, to, lo, v);
    }
  }

  class DbMetadataContext {
    const entriesPerChunk: nat
    var pool: Pool
    ghost var issued: seq<Step>

    constructor (entries: nat, p: Pool)
      ensures pool == p && issued == [] && entriesPerChunk == entries
    {
      entriesPerChunk := entries;
      pool := p;
      issued := [];
    }

    /** Since entry: exactly the stores `ss`, all to copy `w`. */
    twostate predicate Issued(w: nat, ss: seq<Store>)
      reads this
    {
      pool == Stored(old(pool), w, ss) && issued == old(issued) + OnCopy(w, ss)
    }

    method Put(w: nat, s: Store)
      requires w < 2
      modifies this
      ensures Issued(w, [s])
      ensures pool == Apply(old(pool), Step(w, s)) && issued == old(issued) + [Step(w, s)]
    {
      pool := Apply(pool, Step(w, s));
      issued := issued + [Step(w, s)];
      StoredSnoc(old(pool), w, [], s);
      assert [] + [s] == [s];
    }

    /** Copy the entry of version `v`, unless it keeps its position. */
    method MoveEntry(w: nat, ids: seq<nat>, from: nat, to: nat, v: nat, ghost one: seq<Store>)
      requires w < 2 && one == Move(entriesPerChunk, CopyOf(pool, w).disk, ids, from, to, v)
      modifies this
      ensures Issued(w, one)
    {
      if Slot(v, from) != Slot(v, to) {
        var src, dst := Entry(entriesPerChunk, ids, Slot(v, from)), Entry(entriesPerChunk, ids, Slot(v, to));
        Put(w, SetSlot(dst, Read(CopyOf(pool, w).disk, src)));
      }
    }

    /** The loop that copies kept entries between positions of the primary span. */
    method MoveEntries(w: nat, ids: seq<nat>, from: nat, to: nat, lo: nat, hi: nat)
      requires w < 2 && Stable(entriesPerChunk, CopyOf(pool, w).disk, ids, from, to, lo)
      modifies this
      ensures Issued(w, Moves(entriesPerChunk, old(CopyOf(pool, w).disk), ids, from, to, lo, hi))
    {
      ghost var d, done := CopyOf(pool, w).disk, [];
      var v := lo;
      while v < hi
        invariant lo <= v && (v == lo || v <= hi)
        invariant done == Moves(entriesPerChunk, d, ids, from, to, lo, v)
        invariant Issued(w, done)
      {
        assert StableAt(entriesPerChunk, d, ids, from, to, lo, v);
        ghost var one := Move(entriesPerChunk, d, ids, from, to, v);
        Then(old(pool), old(issued), pool, issued, w, done, one);
        MoveEntry(w, ids, from, to, v, one);
        done := done + one;
        v := v + 1;
      }
    }

    /** The 0xff fill of span positions [lo, hi). */
    method FillEntries(w: nat, ids: seq<nat>, lo: nat, hi: nat)
      requires w < 2
      modifies this
      ensures Issued(w, Fill(entriesPerChunk, ids, lo, hi))
    {
      var e := entriesPerChunk;
      var pos := lo;
      while pos < hi
        invariant lo <= pos && (pos == lo || pos <= hi)
        invariant Issued(w, Fill(e, ids, lo, pos))
      {
        StoredSnoc(old(pool), w, Fill(e, ids, lo, pos), SetSlot(Entry(e, ids, pos), INVALID_OFFSET));
        Put(w, SetSlot(Entry(e, ids, pos), INVALID_OFFSET));
        pos := pos + 1;
      }
    }

    /** Hand over slot `k`, unless its destination already holds an id. */
    method TransferChunk(w: nat, from: nat, fromSlot: nat, toSlot: nat)
      requires w < 2 && from < 2
      modifies this
      ensures
        var h := old(CopyOf(pool, w).h);
        Issued(w, TransferOne(h, from, fromSlot, toSlot))
    {
      var to := Other(from);
      if ChunkAt(RingOf(CopyOf(pool, w).h, to), toSlot) == NULL_CHUNK {
        var id := ChunkAt(RingOf(CopyOf(pool, w).h, from), fromSlot);
        var a, b := SetChunk(to, toSlot, id), SetChunk(from, fromSlot, NULL_CHUNK);
        Put(w, a);
        Put(w, b);
        StoredSnoc(old(pool), w, [a], b);
        assert [a] + [b] == [a, b];
      }
    }

    /** Hand `m` chunk ids from one ring's list to the other's, skipping slots already handed over. */
    method TransferChunks(w: nat, from: nat, fromBase: nat, toBase: nat, m: nat)
      requires w < 2 && from < 2
      modifies this
      ensures Issued(w, Transfer(old(CopyOf(pool, w).h), from, fromBase, Other(from), toBase, m))
    {
      ghost var h := CopyOf(pool, w).h;
      var k := 0;
      while k < m
        invariant k <= m
        invariant Issued(w, Transfer(h, from, fromBase, Other(from), toBase, k))
      {
        TransferStep(w, from, fromBase, toBase, k, h, old(pool), old(issued));
        k := k + 1;
      }
    }

    /** The next chunk of a transfer that began on pool `p` with the stores `i` issued. */
    method TransferStep(w: nat, from: nat, fromBase: nat, toBase: nat, k: nat, ghost h: Header, ghost p: Pool,
                        ghost i: seq<Step>)
      requires w < 2 && from < 2 && h == CopyOf(p, w).h
      requires
        var done := Transfer(h, from, fromBase, Other(from), toBase, k);
        pool == Stored(p, w, done) && issued == i + OnCopy(w, done)
      modifies this
      ensures
        var done := Transfer(h, from, fromBase, Other(from), toBase, k + 1);
        pool == Stored(p, w, done) && issued == i + OnCopy(w, done)
    {
      ghost var done, next := Transfer(h, from, fromBase, Other(from), toBase, k),
        TransferOne(h, from, fromBase + k, toBase + k);
      TransferNext(h, CopyOf(pool, w).h, from, fromBase, toBase, k);
      Then(p, i, pool, issued, w, done, next);
      TransferChunk(w, from, fromBase + k, toBase + k);
    }

    /** Steps 1 to 5 of the activate body on one copy; the result is the span the secondary is mapped to. */
    method ShrinkPrimary(w: nat, pi: nat, n: nat) returns (ids: seq<nat>)
      requires w < 2 && pi == CopyOf(pool, w).h.primary && ReadyToShrink(entriesPerChunk, CopyOf(pool, w).h, n)
      modifies this
      ensures Issued(w, ActivateBeforeFill(entriesPerChunk, old(CopyOf(pool, w)), pi, n))
      ensures ids == SecondarySpan(old(CopyOf(pool, w).h), pi, n)
    {
      var p := RingOf(CopyOf(pool, w).h, pi);
      var newLb := ShrunkLb(entriesPerChunk, p, n);
      ghost var lower, moves, transfer := ShrinkParts(entriesPerChunk, CopyOf(pool, w), n, newLb);
      RaiseLowerBound(w, pi, newLb);
      Then(old(pool), old(issued), pool, issued, w, lower, moves);
      MoveKept(w, pi, n, newLb);
      ids := SecondarySpan(CopyOf(pool, w).h, pi, n);
      Then(old(pool), old(issued), pool, issued, w, lower + moves, transfer);
      TransferChunks(w, pi, n, 0, n);
    }

    /** Steps 2 and 3: on a ring not yet shrunk, move the kept entries out of the tail. */
    method MoveKept(w: nat, pi: nat, n: nat, lo: nat)
      requires w < 2 && pi == CopyOf(pool, w).h.primary && ReadyToShrink(entriesPerChunk, CopyOf(pool, w).h, n)
      modifies this
      ensures Issued(w, KeptMoves(entriesPerChunk, old(CopyOf(pool, w)), pi, n, lo))
    {
      var p := RingOf(CopyOf(pool, w).h, pi);
      if p.len != n {
        var span := PrimarySpan(CopyOf(pool, w).h, pi, n, n);
        ShrinkSpans(entriesPerChunk, CopyOf(pool, w).h, n);
        AllStable(entriesPerChunk, n, CopyOf(pool, w).disk, span, Capacity(entriesPerChunk, 2 * n),
                  Capacity(entriesPerChunk, n), lo);
        MoveEntries(w, span, Capacity(entriesPerChunk, 2 * n), Capacity(entriesPerChunk, n), lo, p.nv);
      }
    }

    /** Step 1: versions that no longer fit are dropped. */
    method RaiseLowerBound(w: nat, pi: nat, newLb: nat)
      requires w < 2
      modifies this
      ensures Issued(w, RaisedBound(old(CopyOf(pool, w)), pi, newLb))
    {
      if newLb > RingOf(CopyOf(pool, w).h, pi).lb {
        Put(w, SetLb(pi, newLb));
      }
    }

    /** A run of stores to one copy. */
    method PutAll(w: nat, ss: seq<Store>)
      requires w < 2
      modifies this
      ensures Issued(w, ss)
    {
      var i := 0;
      while i < |ss|
        invariant i <= |ss|
        invariant Issued(w, ss[..i])
      {
        Then(old(pool), old(issued), pool, issued, w, ss[..i], [ss[i]]);
        assert ss[..i + 1] == ss[..i] + [ss[i]];
        Put(w, ss[i]);
        i := i + 1;
      }
      assert ss[..|ss|] == ss;
    }

    // ---- dirty scopes ----

    /** `do_activate_secondary_body_` on one copy. */
    method ShrinkCopy(w: nat, pi: nat, n: nat)
      requires w < 2 && pi == CopyOf(pool, w).h.primary && ReadyToShrink(entriesPerChunk, CopyOf(pool, w).h, n)
      modifies this
      ensures Issued(w, ScopeStores(Scope(w, ActivateBody(entriesPerChunk, old(CopyOf(pool, w)), pi, n))))
    {
      ghost var on, before, fill := ShrinkScopeParts(entriesPerChunk, CopyOf(pool, w), n);
      PutAll(w, [SetDirty(true)]);
      Then(old(pool), old(issued), pool, issued, w, on, before);
      var ids := ShrinkPrimary(w, pi, n);
      Then(old(pool), old(issued), pool, issued, w, on + before, fill);
      FillEntries(w, ids, 0, Capacity(entriesPerChunk, n));
      Then(old(pool), old(issued), pool, issued, w, on + before + fill, ActivateCommit(pi, n) + [SetDirty(false)]);
      PutAll(w, ActivateCommit(pi, n) + [SetDirty(false)]);
    }

    /** `do_deactivate_secondary_body_` on one copy. */
    method GrowCopy(w: nat, pi: nat, n: nat)
      requires w < 2 && pi == CopyOf(pool, w).h.primary && ReadyToGrow(entriesPerChunk, CopyOf(pool, w).h, n)
      modifies this
      ensures Issued(w, ScopeStores(Scope(w, DeactivateBody(entriesPerChunk, old(CopyOf(pool, w)), pi, n))))
    {
      ghost var on, stores := GrowScopeParts(entriesPerChunk, CopyOf(pool, w), n);
      PutAll(w, [SetDirty(true)]);
      Then(old(pool), old(issued), pool, issued, w, on, stores);
      GrowPrimary(w, pi, n);
      Then(old(pool), old(issued), pool, issued, w, on + stores, Deactivate.Commit(pi, n) + [SetDirty(false)]);
      PutAll(w, Deactivate.Commit(pi, n) + [SetDirty(false)]);
    }

    /** Steps 1 to 3 of the deactivate body. */
    method GrowPrimary(w: nat, pi: nat, n: nat)
      requires w < 2 && pi == CopyOf(pool, w).h.primary && ReadyToGrow(entriesPerChunk, CopyOf(pool, w).h, n)
      modifies this
      ensures Issued(w, GrowStores(entriesPerChunk, old(CopyOf(pool, w)), pi, n))
    {
      var p := RingOf(CopyOf(pool, w).h, pi);
      ghost var transfer, slots := GrowPieces(entriesPerChunk, CopyOf(pool, w), n);
      var ids := PrimarySpan(CopyOf(pool, w).h, pi, p.len, n - p.len);
      TransferChunks(w, Other(pi), 0, p.len, n - p.len);
      Then(old(pool), old(issued), pool, issued, w, transfer, slots);
      SpreadPrimary(w, ids, p, n);
    }

    /** Step 3 of the deactivate body: unless already grown, clear the new tail, then copy entries into it. */
    method SpreadPrimary(w: nat, ids: seq<nat>, p: Ring, n: nat)
      requires w < 2 && (p.len != n ==> |ids| == 2 * p.len && Geometry(entriesPerChunk, p.len) && ChunkIds(ids))
      modifies this
      ensures Issued(w, Spread(entriesPerChunk, old(CopyOf(pool, w).disk), ids, p, n))
    {
      if p.len != n {
        var lo, hi := Capacity(entriesPerChunk, p.len), Capacity(entriesPerChunk, 2 * p.len);
        ghost var d := CopyOf(pool, w).disk;
        FillEntries(w, ids, lo, hi);
        MovesAfterFill(entriesPerChunk, p.len, d, ids, p.lb, p.nv);
        Then(old(pool), old(issued), pool, issued, w, Fill(entriesPerChunk, ids, lo, hi),
             Moves(entriesPerChunk, d, ids, lo, hi, p.lb, p.nv));
        AllStable(entriesPerChunk, p.len, CopyOf(pool, w).disk, ids, lo, hi, p.lb);
        MoveEntries(w, ids, lo, hi, p.lb, p.nv);
      }
    }

    // ---- whole operations ----

    /** Since entry: exactly the dirty scopes `prog`. */
    twostate predicate Ran(prog: seq<Scope>)
      reads this
    {
      pool == RunScopes(old(pool), prog) && issued == old(issued) + Flatten(prog)
    }

    /** The same dirty scope on copy 0 and then on copy 1. */
    method OnBoth(ss: seq<Store>)
      modifies this
      ensures Ran([Scope(0, ss), Scope(1, ss)])
    {
      OneScope(pool, issued, Scope(0, ss));
      PutAll(0, ScopeStores(Scope(0, ss)));
      RanThen(old(pool), old(issued), pool, issued, [Scope(0, ss)], [Scope(1, ss)]);
      OneScope(pool, issued, Scope(1, ss));
      PutAll(1, ScopeStores(Scope(1, ss)));
    }

    method SetPendingShrinkGrow(kind: OpKind, param: nat)
      modifies this
      ensures Ran(StampScopes(kind, param))
    {
      OnBoth([SetKind(kind), SetParam(param)]);
    }

    method ClearPendingShrinkGrow()
      modifies this
      ensures Ran(ClearScopes())
    {
      OnBoth([SetKind(OpNone), SetParam(0)]);
    }

    /** The loop over both copies of the activate body. */
    method ShrinkBoth(pi: nat, n: nat)
      requires ReadyToShrink(entriesPerChunk, pool.c0.h, n) && ReadyToShrink(entriesPerChunk, pool.c1.h, n)
      requires pool.c0.h.primary == pi && pool.c1.h.primary == pi
      modifies this
      ensures Ran(ShrinkScopes(entriesPerChunk, old(pool), pi, n)) && pool.c0.h.history == old(pool.c0.h.history)
    {
      ghost var a := Scope(0, ActivateBody(entriesPerChunk, pool.c0, pi, n));
      ghost var b := Scope(1, ActivateBody(entriesPerChunk, pool.c1, pi, n));
      ShrinkKeepsHistory(entriesPerChunk, pool.c0, n);
      OneScope(pool, issued, a);
      ShrinkCopy(0, pi, n);
      assert pool.c0.h.history == old(pool.c0.h.history) && pool.c1 == old(pool.c1);
      RanThen(old(pool), old(issued), pool, issued, [a], [b]);
      assert [a] + [b] == ShrinkScopes(entriesPerChunk, old(pool), pi, n);
      OneScope(pool, issued, b);
      ShrinkCopy(1, pi, n);
    }

    method DoActivateSecondaryBody(n: nat)
      requires ReadyToShrink(entriesPerChunk, pool.c0.h, n) && ReadyToShrink(entriesPerChunk, pool.c1.h, n)
      requires pool.c1.h.primary == pool.c0.h.primary
      modifies this
      ensures Ran(ActivateScopes(entriesPerChunk, old(pool), n))
    {
      var pi := pool.c0.h.primary;
      ShrinkBoth(pi, n);
      ghost var shrink, history := ShrinkScopes(entriesPerChunk, old(pool), pi, n),
        HistoryScopes(entriesPerChunk, old(pool), n);
      RanThen(old(pool), old(issued), pool, issued, shrink, history);
      if pool.c0.h.history > Capacity(entriesPerChunk, n) {
        OnBoth([SetHistory(Max(Capacity(entriesPerChunk, n), MIN_HISTORY_LENGTH))]);
      }
    }

    method DoDeactivateSecondaryBody(n: nat)
      requires ReadyToGrow(entriesPerChunk, pool.c0.h, n) && ReadyToGrow(entriesPerChunk, pool.c1.h, n)
      requires pool.c1.h.primary == pool.c0.h.primary
      modifies this
      ensures Ran(DeactivateScopes(entriesPerChunk, old(pool), n))
    {
      var pi := pool.c0.h.primary;
      ghost var a := Scope(0, DeactivateBody(entriesPerChunk, pool.c0, pi, n));
      ghost var b := Scope(1, DeactivateBody(entriesPerChunk, pool.c1, pi, n));
      OneScope(pool, issued, a);
      GrowCopy(0, pi, n);
      RanThen(old(pool), old(issued), pool, issued, [a], [b]);
      OneScope(pool, issued, b);
      GrowCopy(1, pi, n);
    }

    method DoPromoteSecondaryToPrimaryBody(target: nat)
      modifies this
      ensures Ran(PromoteScopes(target))
    {
      OnBoth([SetPrimary(target)]);
    }

    /** The body of a protected operation, for the operation itself and for its replay. */
    method DoBody(kind: OpKind, param: nat)
      requires kind != OpNone && BodyReady(entriesPerChunk, pool, kind, param)
      modifies this
      ensures Ran(BodyScopes(entriesPerChunk, old(pool), kind, param))
    {
      match kind {
        case OpActivate => DoActivateSecondaryBody(param);
        case OpDeactivate => DoDeactivateSecondaryBody(param);
        case OpPromote => DoPromoteSecondaryToPrimaryBody(param);
      }
    }

    /** Stamp the intent record, run the body, clear the record. */
    method RunProtected(kind: OpKind, param: nat)
      requires kind != OpNone && StampReady(entriesPerChunk, pool, kind, param)
      modifies this
      ensures
        var steps := Flatten(Program(entriesPerChunk, old(pool), kind, param));
        issued == old(issued) + steps && pool == Run(old(pool), steps)
    {
      ghost var stamp, body := StampScopes(kind, param), BodyScopes(entriesPerChunk, pool, kind, param);
      SetPendingShrinkGrow(kind, param);
      RanThen(old(pool), old(issued), pool, issued, stamp, body);
      DoBody(kind, param);
      RanThen(old(pool), old(issued), pool, issued, stamp + body, ClearScopes());
      ClearPendingShrinkGrow();
      RunFlatten(old(pool), stamp + body + ClearScopes());
    }

    /** Issues exactly the stores whose crashes `ActivateCrash` and `ActivateLookups` study. */
    method ActivateSecondaryHeader()
      requires ActivateCrash.CanActivate(entriesPerChunk, pool)
      modifies this
      ensures issued == old(issued) + ActivateCrash.ActivateSteps(entriesPerChunk, old(pool))
      ensures pool == Run(old(pool), ActivateCrash.ActivateSteps(entriesPerChunk, old(pool)))
    {
      var n := RingOf(pool.c0.h, pool.c0.h.primary).len / 2;
      assert n == ActivateParam(pool.c0.h);
      ActivateStamped(entriesPerChunk, pool);
      RunProtected(OpActivate, n);
    }

    /** Issues exactly the stores whose crashes `Deactivate` studies. */
    method DeactivateSecondaryHeader(ghost half: nat)
      requires Deactivate.CanDeactivate(entriesPerChunk, pool, half)
      modifies this
      ensures issued == old(issued) + Deactivate.DeactivateSteps(entriesPerChunk, old(pool))
      ensures pool == Run(old(pool), Deactivate.DeactivateSteps(entriesPerChunk, old(pool)))
    {
      var pi := pool.c0.h.primary;
      var n := RingOf(pool.c0.h, pi).len + RingOf(pool.c0.h, Other(pi)).len;
      assert n == DeactivateParam(pool.c0.h);
      DeactivateStamped(entriesPerChunk, pool, half);
      RunProtected(OpDeactivate, n);
    }

    /** Issues exactly the stores whose crashes `Promote` studies. */
    method PromoteSecondaryToPrimaryHeader()
      requires Promote.CanPromote(pool)
      modifies this
      ensures issued == old(issued) + Promote.PromoteSteps(entriesPerChunk, old(pool))
      ensures pool == Run(old(pool), Promote.PromoteSteps(entriesPerChunk, old(pool)))
    {
      var target := Other(pool.c0.h.primary);
      RunProtected(OpPromote, target);
    }

    // ---- open ----

    /** Dirty recovery in the constructor: copy the clean header over the dirty one. */
    method HealDirtyCopies()
      modifies this
      ensures pool == Heal(old(pool)) && issued == old(issued)
    {
      if pool.c0.h.dirty {
        pool := pool.(c0 := pool.c0.(h := pool.c1.h));
        pool := pool.(c0 := pool.c0.(h := pool.c0.h.(dirty := false)));
      } else if pool.c1.h.dirty {
        pool := pool.(c1 := pool.c1.(h := pool.c0.h));
      }
    }

    method ReplayPendingShrinkGrow()
      requires BodyReady(entriesPerChunk, pool, PendingHeader(pool).kind, PendingHeader(pool).param)
      modifies this
      ensures Ran(ReplayScopes(entriesPerChunk, old(pool)))
    {
      if pool.c0.h.kind == OpNone && pool.c1.h.kind == OpNone {
        return;
      }
      var pending := if pool.c0.h.kind != OpNone then pool.c0.h else pool.c1.h;
      ghost var body := BodyScopes(entriesPerChunk, pool, pending.kind, pending.param);
      DoBody(pending.kind, pending.param);
      RanThen(old(pool), old(issued), pool, issued, body, ClearScopes());
      ClearPendingShrinkGrow();
    }

    /** Opening the pool after a crash. */
    method Open()
      requires ReplayReady(entriesPerChunk, pool)
      modifies this
      ensures pool == Recover(entriesPerChunk, old(pool))
    {
      HealDirtyCopies();
      ReplayPendingShrinkGrow();
    }
  }

  /** The pool the body can work on: each copy is as the body found it or as it left it. */
  ghost predicate BodyReady(e: nat, p: Pool, kind: OpKind, param: nat) {
    match kind
    case OpActivate => ReadyToShrink(e, p.c0.h, param) && ReadyToShrink(e, p.c1.h, param) &&
      p.c1.h.primary == p.c0.h.primary
    case OpDeactivate => ReadyToGrow(e, p.c0.h, param) && ReadyToGrow(e, p.c1.h, param) &&
      p.c1.h.primary == p.c0.h.primary
    case _ => true
  }

  /** A dead pool that an open can recover. */
  ghost predicate ReplayReady(e: nat, p: Pool) {
    var g := Heal(p);
    BodyReady(e, g, PendingHeader(g).kind, PendingHeader(g).param)
  }

  /** Stamping leaves the body possible, and leaves it the same body. */
  ghost predicate StampReady(e: nat, p: Pool, kind: OpKind, param: nat) {
    var q := RunScopes(p, StampScopes(kind, param));
    BodyReady(e, q, kind, param) && BodyScopes(e, q, kind, param) == BodyScopes(e, p, kind, param)
  }

  lemma ActivateStamped(e: nat, p: Pool)
    requires ActivateCrash.CanActivate(e, p)
    ensures StampReady(e, p, OpActivate, ActivateParam(p.c0.h))
  {
    var n := ActivateParam(p.c0.h);
    var g := Stamped(p.c0.h, OpActivate, n);
    RunStamp(p, OpActivate, n);
    ActivateCrash.SameBody(e, p.c0, g, n);
    ActivateCrash.SameBody(e, p.c1, g, n);
  }

  lemma StampedGrows(e: nat, c: Copy, n: nat, half: nat)
    requires Growable(e, c.h, half) && n == 2 * half
    ensures
      var g := Stamped(c.h, OpDeactivate, n);
      ReadyToGrow(e, g, n) && DeactivateBody(e, Copy(g, c.disk), c.h.primary, n) == DeactivateBody(e, c, c.h.primary, n)
  {
    Deactivate.SameBody(e, c, Stamped(c.h, OpDeactivate, n), n);
  }

  lemma DeactivateStamped(e: nat, p: Pool, half: nat)
    requires Deactivate.CanDeactivate(e, p, half)
    ensures StampReady(e, p, OpDeactivate, DeactivateParam(p.c0.h))
  {
    var n := DeactivateParam(p.c0.h);
    RunStamp(p, OpDeactivate, n);
    StampedGrows(e, p.c0, n, half);
    StampedGrows(e, p.c1, n, half);
  }

  // ---- every crash can be replayed ----

  lemma ActivateRoundsReplay(e: nat, p: Pool, g: Pool, m0: nat, m1: nat)
    requires ActivateCrash.CanActivate(e, p)
    requires
      var o := ActivateCrash.ActivateOp(e, p);
      m1 <= m0 <= ProtectedOp.Rounds(o) && g.c0.h == ProtectedOp.HeaderAfter(o, m0) &&
      g.c1.h == ProtectedOp.HeaderAfter(o, m1)
    ensures BodyReady(e, g, PendingHeader(g).kind, PendingHeader(g).param)
  {
    ActivateCrash.HeaderCases(e, p, m0);
    ActivateCrash.HeaderCases(e, p, m1);
  }

  /** After every crash of an activate, an open can replay it. */
  lemma ActivateCrashReplays(e: nat, p: Pool, k: nat)
    requires ActivateCrash.CanActivate(e, p) && k <= |ActivateCrash.ActivateSteps(e, p)|
    ensures ReplayReady(e, Run(p, ActivateCrash.ActivateSteps(e, p)[..k]))
  {
    var i, j, g := ActivateCrash.ActivateCrashPoint(e, p, k);
    ProtectedOp.HealedRounds(ActivateCrash.ActivateOp(e, p), p, i, j, g);
    ActivateRoundsReplay(e, p, g, ProtectedOp.RoundsHealed(i, j, 0), ProtectedOp.RoundsHealed(i, j, 1));
  }

  lemma DeactivateRoundsReplay(e: nat, p: Pool, n: nat, g: Pool, m0: nat, m1: nat)
    requires Deactivate.CanDeactivate(e, p, n)
    requires
      var o := Deactivate.DeactivateOp(e, p, n);
      m1 <= m0 <= 3 && g.c0.h == ProtectedOp.HeaderAfter(o, m0) && g.c1.h == ProtectedOp.HeaderAfter(o, m1)
    ensures BodyReady(e, g, PendingHeader(g).kind, PendingHeader(g).param)
  {
  }

  /** After every crash of a deactivate, an open can replay it. */
  lemma DeactivateCrashReplays(e: nat, p: Pool, n: nat, k: nat)
    requires Deactivate.CanDeactivate(e, p, n) && k <= |Deactivate.DeactivateSteps(e, p)|
    ensures ReplayReady(e, Run(p, Deactivate.DeactivateSteps(e, p)[..k]))
  {
    var i, j, g := Deactivate.DeactivateCrashPoint(e, p, n, k);
    ProtectedOp.HealedRounds(Deactivate.DeactivateOp(e, p, n), p, i, j, g);
    DeactivateRoundsReplay(e, p, n, g, ProtectedOp.RoundsHealed(i, j, 0), ProtectedOp.RoundsHealed(i, j, 1));
  }

  ghost function ShrinkScopes(e: nat, p: Pool, pi: nat, n: nat): seq<Scope> {
    [Scope(0, ActivateBody(e, p.c0, pi, n)), Scope(1, ActivateBody(e, p.c1, pi, n))]
  }

  lemma OneScope(p: Pool, i: seq<Step>, s: Scope)
    ensures Stored(p, s.which, ScopeStores(s)) == RunScopes(p, [s])
    ensures i + OnCopy(s.which, ScopeStores(s)) == i + Flatten([s])
  {
    FlattenSnoc([], s);
    assert [] + [s] == [s] && [s][..0] == [];
    assert [] + OnCopy(s.which, ScopeStores(s)) == OnCopy(s.which, ScopeStores(s));
  }

  lemma RanThen(p: Pool, i: seq<Step>, p': Pool, i': seq<Step>, a: seq<Scope>, b: seq<Scope>)
    requires p' == RunScopes(p, a) && i' == i + Flatten(a)
    ensures RunScopes(p', b) == RunScopes(p, a + b) && i' + Flatten(b) == i + Flatten(a + b)
  {
    RunScopesConcat(p, a, b);
    FlattenConcat(a, b);
    ConcatAssociative(i, Flatten(a), Flatten(b));
  }

  lemma ShrinkKeepsHistory(e: nat, c: Copy, n: nat)
    requires ReadyToShrink(e, c.h, n)
    ensures
      var b := ActivateBody(e, c, c.h.primary, n);
      RunCopy(c, ScopeStores(Scope(0, b))).h.history == c.h.history
  {
    var b := ActivateBody(e, c, c.h.primary, n);
    BodyKeepsDirty(e, c, c.h.primary, n);
    ScopeEffect(c, Scope(0, b));
    if Shrinkable(e, c.h, n) {
      ActivateHeader(e, c, n);
    } else {
      ActivateAgain(e, c, n);
    }
  }

  /** A header the deactivate body accepts: both rings active, or already grown. */
  ghost predicate ReadyToGrow(e: nat, h: Header, n: nat) {
    h.primary < 2 && (RingOf(h, h.primary).len == n || (n == 2 * RingOf(h, h.primary).len && Growable(e, h, n / 2)))
  }

  ghost function Spread(e: nat, d: Disk, ids: seq<nat>, p: Ring, n: nat): seq<Store> {
    var lo, hi := Capacity(e, p.len), Capacity(e, 2 * p.len);
    if p.len == n then [] else Fill(e, ids, lo, hi) + Moves(e, d, ids, lo, hi, p.lb, p.nv)
  }

  lemma MovesAfterFill(e: nat, n: nat, d: Disk, ids: seq<nat>, lb: nat, nv: nat)
    requires |ids| == 2 * n && Geometry(e, n) && ChunkIds(ids)
    ensures
      var lo, hi := Capacity(e, n), Capacity(e, 2 * n);
      Moves(e, RunDisk(d, Fill(e, ids, lo, hi)), ids, lo, hi, lb, nv) == Moves(e, d, ids, lo, hi, lb, nv)
  {
    var fill := Fill(e, ids, Capacity(e, n), Capacity(e, 2 * n));
    forall v
      ensures Read(RunDisk(d, fill), Head(e, n, ids, v)) == Read(d, Head(e, n, ids, v))
    {
      Deactivate.FillSparesHeads(e, n, ids, v);
      LastWriteIffWrites(fill, Head(e, n, ids, v));
      RunDiskRead(d, fill, Head(e, n, ids, v));
    }
    GrowMovesSame(e, n, RunDisk(d, fill), d, ids, lb, nv);
  }

  /** Raising the dirty flag. */
  lemma RaiseDirty(c: Copy)
    ensures RunCopy(c, [SetDirty(true)]) == Copy(c.h.(dirty := true), c.disk)
  {
    RunHeaderSnoc(c.h, [], SetDirty(true));
    assert [] + [SetDirty(true)] == [SetDirty(true)];
    RunDiskNoSlots(c.disk, [SetDirty(true)]);
  }

  /** A scope assembled from the parts of its body. */
  lemma ScopeOfParts(a: seq<Store>, b: seq<Store>, commit: seq<Store>)
    ensures [SetDirty(true)] + a + b + (commit + [SetDirty(false)]) == ScopeStores(Scope(0, a + b + commit))
  {
  }

  ghost function GrownSlots(e: nat, c: Copy, pi: nat, n: nat): seq<Store>
    requires RingOf(c.h, pi).len <= n
  {
    var p := RingOf(c.h, pi);
    Spread(e, c.disk, PrimarySpan(c.h, pi, p.len, n - p.len), p, n)
  }

  /** The stores of the deactivate body before its commit. */
  ghost function GrowStores(e: nat, c: Copy, pi: nat, n: nat): seq<Store>
    requires RingOf(c.h, pi).len <= n
  {
    var p := RingOf(c.h, pi);
    Transfer(c.h, Other(pi), 0, pi, p.len, n - p.len) + GrownSlots(e, c, pi, n)
  }

  lemma GrowParts(e: nat, c: Copy, n: nat)
    requires ReadyToGrow(e, c.h, n)
    ensures
      var pi := c.h.primary;
      var p := RingOf(c.h, pi);
      var ids := PrimarySpan(c.h, pi, p.len, n - p.len);
      (p.len != n ==> |ids| == 2 * p.len && Geometry(e, p.len) && ChunkIds(ids)) &&
      DeactivateBody(e, c, pi, n) ==
      Transfer(c.h, Other(pi), 0, pi, p.len, n - p.len) + GrownSlots(e, c, pi, n) + Deactivate.Commit(pi, n)
  {
    var p := RingOf(c.h, c.h.primary);
    if p.len != n {
      Deactivate.GrowSpan(e, c.h, p.len);
    }
  }

  /** The parts of the deactivate body before its commit. */
  lemma GrowPieces(e: nat, c: Copy, n: nat) returns (transfer: seq<Store>, slots: seq<Store>)
    requires ReadyToGrow(e, c.h, n)
    ensures
      var pi := c.h.primary;
      var p := RingOf(c.h, pi);
      var ids := PrimarySpan(c.h, pi, p.len, n - p.len);
      transfer == Transfer(c.h, Other(pi), 0, Other(Other(pi)), p.len, n - p.len) &&
      RunDisk(c.disk, transfer) == c.disk &&
      slots == Spread(e, c.disk, ids, p, n) && transfer + slots == GrowStores(e, c, pi, n) &&
      (p.len != n ==> |ids| == 2 * p.len && Geometry(e, p.len) && ChunkIds(ids))
  {
    var pi := c.h.primary;
    var p := RingOf(c.h, pi);
    transfer, slots := Transfer(c.h, Other(pi), 0, pi, p.len, n - p.len), GrownSlots(e, c, pi, n);
    TransfersAreNotSlots(c.h, Other(pi), 0, pi, p.len, n - p.len);
    RunDiskNoSlots(c.disk, transfer);
    GrowParts(e, c, n);
    assert Other(Other(pi)) == pi;
  }

  /** The scope of the deactivate body, part by part as the program computes it. */
  lemma GrowScopeParts(e: nat, c: Copy, n: nat) returns (on: seq<Store>, stores: seq<Store>)
    requires ReadyToGrow(e, c.h, n)
    ensures
      var pi := c.h.primary;
      var g := Copy(c.h.(dirty := true), c.disk);
      on == [SetDirty(true)] && RunCopy(c, on) == g && ReadyToGrow(e, g.h, n) && stores == GrowStores(e, g, pi, n) &&
      on + stores + (Deactivate.Commit(pi, n) + [SetDirty(false)]) == ScopeStores(Scope(0, DeactivateBody(e, c, pi, n)))
  {
    var pi := c.h.primary;
    var g := Copy(c.h.(dirty := true), c.disk);
    on := [SetDirty(true)];
    RaiseDirty(c);
    stores := GrowStores(e, g, pi, n);
    GrowParts(e, g, n);
    Deactivate.SameBody(e, c, g.h, n);
    ScopeOfTwoParts(stores, Deactivate.Commit(pi, n));
  }

  lemma ScopeOfTwoParts(a: seq<Store>, commit: seq<Store>)
    ensures [SetDirty(true)] + a + (commit + [SetDirty(false)]) == ScopeStores(Scope(0, a + commit))
  {
  }

  /** The scope of the activate body, part by part as the program computes it. */
  lemma ShrinkScopeParts(e: nat, c: Copy, n: nat) returns (on: seq<Store>, before: seq<Store>, fill: seq<Store>)
    requires ReadyToShrink(e, c.h, n)
    ensures
      var pi := c.h.primary;
      var c1 := RunCopy(c, on);
      on == [SetDirty(true)] && c1.h.primary == pi && ReadyToShrink(e, c1.h, n) &&
      before == ActivateBeforeFill(e, c1, pi, n) && fill == Fill(e, SecondarySpan(c1.h, pi, n), 0, Capacity(e, n)) &&
      on + before + fill + (ActivateCommit(pi, n) + [SetDirty(false)]) ==
      ScopeStores(Scope(0, ActivateBody(e, c, pi, n)))
  {
    var pi := c.h.primary;
    var g := c.h.(dirty := true);
    on := [SetDirty(true)];
    RaiseDirty(c);
    before, fill := ActivateBeforeFill(e, Copy(g, c.disk), pi, n), Fill(e, SecondarySpan(g, pi, n), 0, Capacity(e, n));
    ActivateCrash.SameBody(e, c, g, n);
    ScopeOfParts(before, fill, ActivateCommit(pi, n));
  }

  /** A header the activate body accepts: not yet shrunk, or already shrunk. */
  ghost predicate ReadyToShrink(e: nat, h: Header, n: nat) {
    Shrinkable(e, h, n) || Shrunk(e, h, n)
  }

  ghost function RaisedBound(c: Copy, pi: nat, newLb: nat): seq<Store> {
    if newLb > RingOf(c.h, pi).lb then [SetLb(pi, newLb)] else []
  }

  ghost function KeptMoves(e: nat, c: Copy, pi: nat, n: nat, lo: nat): seq<Store> {
    var p := RingOf(c.h, pi);
    if p.len == n then [] else Moves(e, c.disk, PrimarySpan(c.h, pi, n, n), Capacity(e, 2 * n), Capacity(e, n), lo,
                                     p.nv)
  }

  lemma RaisedHeader(c: Copy, pi: nat, newLb: nat)
    requires pi < 2 && newLb >= RingOf(c.h, pi).lb
    ensures RunCopy(c, RaisedBound(c, pi, newLb)) == Copy(WithRing(c.h, pi, RingOf(c.h, pi).(lb := newLb)), c.disk)
  {
    if newLb > RingOf(c.h, pi).lb {
      RunHeaderSnoc(c.h, [], SetLb(pi, newLb));
      assert [] + [SetLb(pi, newLb)] == [SetLb(pi, newLb)];
      RunDiskNoSlots(c.disk, [SetLb(pi, newLb)]);
    }
  }

  lemma KeptMovesKeepHeader(e: nat, c: Copy, pi: nat, n: nat, lo: nat)
    ensures RunHeader(c.h, KeptMoves(e, c, pi, n, lo)) == c.h
  {
    var p := RingOf(c.h, pi);
    MovesAreSlots(e, c.disk, PrimarySpan(c.h, pi, n, n), Capacity(e, 2 * n), Capacity(e, n), lo, p.nv);
    SlotStoresKeepHeader(c.h, KeptMoves(e, c, pi, n, lo));
  }

  /** The parts of the body as the program computes them, each from the state the parts before it leave. */
  lemma ShrinkParts(e: nat, c: Copy, n: nat, newLb: nat) returns (lower: seq<Store>, moves: seq<Store>,
                                                                  transfer: seq<Store>)
    requires ReadyToShrink(e, c.h, n) && newLb == ShrunkLb(e, RingOf(c.h, c.h.primary), n)
    ensures
      var pi := c.h.primary;
      var c1 := RunCopy(c, lower);
      var h2 := RunCopy(c, lower + moves).h;
      lower == RaisedBound(c, pi, newLb) && c1.h.primary == pi && ReadyToShrink(e, c1.h, n) &&
      moves == KeptMoves(e, c1, pi, n, newLb) && SecondarySpan(h2, pi, n) == SecondarySpan(c.h, pi, n) &&
      transfer == Transfer(h2, pi, n, Other(pi), 0, n) && lower + moves + transfer == ActivateBeforeFill(e, c, pi, n)
  {
    var pi := c.h.primary;
    var c1 := Copy(Raised(c.h, newLb), c.disk);
    lower := RaisedBound(c, pi, newLb);
    RaisedHeader(c, pi, newLb);
    RaisedIsReady(e, c.h, n, newLb);
    moves := KeptMoves(e, c1, pi, n, newLb);
    KeptMovesKeepHeader(e, c1, pi, n, newLb);
    RunHeaderConcat(c.h, lower, moves);
    transfer := Transfer(c.h, pi, n, Other(pi), 0, n);
    TransferSameLists(c.h, c1.h, pi, n, Other(pi), 0, n);
  }

  ghost function Raised(h: Header, newLb: nat): Header {
    WithRing(h, h.primary, RingOf(h, h.primary).(lb := newLb))
  }

  /** Raising the lower bound leaves the chunk lists, and so the spans, alone. */
  lemma RaisedIsReady(e: nat, h: Header, n: nat, newLb: nat)
    requires ReadyToShrink(e, h, n) && newLb == ShrunkLb(e, RingOf(h, h.primary), n)
    ensures
      var g := Raised(h, newLb);
      g.primary == h.primary && ReadyToShrink(e, g, n) && PrimarySpan(g, h.primary, n, n) ==
      PrimarySpan(h, h.primary, n, n) &&
      SecondarySpan(g, h.primary, n) == SecondarySpan(h, h.primary, n)
  {
  }

  /** The stores that hand over one slot. */
  ghost function TransferOne(h: Header, from: nat, fromSlot: nat, toSlot: nat): seq<Store> {
    if ChunkAt(RingOf(h, Other(from)), toSlot) != NULL_CHUNK then []
    else [SetChunk(Other(from), toSlot, ChunkAt(RingOf(h, from), fromSlot)), SetChunk(from, fromSlot, NULL_CHUNK)]
  }

  lemma ChunksAside(h: Header, from: nat, fromSlot: nat, toSlot: nat, id: nat, x: nat, y: nat)
    requires from < 2 && x != fromSlot && y != toSlot
    ensures
      var g := RunHeader(h, [SetChunk(Other(from), toSlot, id), SetChunk(from, fromSlot, NULL_CHUNK)]);
      ChunkAt(RingOf(g, from), x) == ChunkAt(RingOf(h, from), x) &&
      ChunkAt(RingOf(g, Other(from)), y) == ChunkAt(RingOf(h, Other(from)), y)
  {
    RunHeaderTwo(h, SetChunk(Other(from), toSlot, id), SetChunk(from, fromSlot, NULL_CHUNK));
  }

  /** Handing over the first `m` slots leaves the later ones of both lists alone. */
  /** The next chunk, handed over from the header as it is by now. */
  lemma TransferNext(h: Header, g: Header, from: nat, fromBase: nat, toBase: nat, k: nat)
    requires from < 2 && g == RunHeader(h, Transfer(h, from, fromBase, Other(from), toBase, k))
    ensures TransferOne(g, from, fromBase + k, toBase + k) == TransferOne(h, from, fromBase + k, toBase + k)
    ensures
      Transfer(h, from, fromBase, Other(from), toBase, k + 1) ==
      Transfer(h, from, fromBase, Other(from), toBase, k) + TransferOne(h, from, fromBase + k, toBase + k)
  {
    TransferPending(h, from, fromBase, toBase, k, k);
  }

  lemma {:induction false} TransferPending(h: Header, from: nat, fromBase: nat, toBase: nat, m: nat, k: nat)
    requires from < 2 && m <= k
    ensures
      var g := RunHeader(h, Transfer(h, from, fromBase, Other(from), toBase, m));
      ChunkAt(RingOf(g, from), fromBase + k) == ChunkAt(RingOf(h, from), fromBase + k) &&
      ChunkAt(RingOf(g, Other(from)), toBase + k) == ChunkAt(RingOf(h, Other(from)), toBase + k)
  {
    if m > 0 {
      var to := Other(from);
      var j := m - 1;
      var done := Transfer(h, from, fromBase, to, toBase, j);
      TransferPending(h, from, fromBase, toBase, j, k);
      if ChunkAt(RingOf(h, to), toBase + j) == NULL_CHUNK {
        var id := ChunkAt(RingOf(h, from), fromBase + j);
        RunHeaderConcat(h, done, [SetChunk(to, toBase + j, id), SetChunk(from, fromBase + j, NULL_CHUNK)]);
        ChunksAside(RunHeader(h, done), from, fromBase + j, toBase + j, id, fromBase + k, toBase + k);
      } else {
        assert done + [] == done;
      }
    }
  }

  /** What the loop has written so far leaves the next source as it was. */
  lemma MoveAfterMoves(e: nat, n: nat, d: Disk, ids: seq<nat>, from: nat, to: nat, lo: nat, v: nat)
    requires Resizes(e, n, ids, from, to)
    ensures Move(e, RunDisk(d, Moves(e, d, ids, from, to, lo, v)), ids, from, to, v) == Move(e, d, ids, from, to, v)
  {
    var done := Moves(e, d, ids, from, to, lo, v);
    var x := RunDisk(d, done);
    var a := if from == Capacity(e, n) then Head(e, n, ids, v) else Tail(e, n, ids, v);
    if from == Capacity(e, n) {
      GrowMove(e, n, d, ids, v);
      GrowMove(e, n, x, ids, v);
      Deactivate.MovesSpareHeads(e, n, d, ids, lo, v, v);
    } else {
      ShrinkMove(e, n, d, ids, v);
      ShrinkMove(e, n, x, ids, v);
      ShrinkMovesSpareTails(e, n, d, ids, lo, v, v);
    }
    LastWriteIffWrites(done, a);
    RunDiskRead(d, done, a);
  }
}
