/**
  Who owns which conventional chunk, over every crash-free run of activate,
  deactivate, promote and repair that starts with a new pool, with any root
  offset writes to either copy in between.
 */
module ChunkLists {
  import opened PowerOfTwo
  import opened RingPool
  import opened ShrinkGrow
  import opened RingLayout
  import opened IntentLog
  import opened ProtectedOp
  import opened ActivateBodyFacts
  import ActivateCrash
  import Deactivate
  import Promote

  /** A new pool: ring A gets chunks 1..total, ring B nothing; chunk 0 holds the metadata. */
  function NewHeader(total: nat, history: nat): Header
    requires total <= LIST_SLOTS
  {
    var none := seq(LIST_SLOTS, k => NULL_CHUNK);
    Header(
      Ring(0, 0, total, seq(LIST_SLOTS, k requires 0 <= k < LIST_SLOTS => if k < total then k + 1 else NULL_CHUNK)),
      Ring(0, 0, 0, none), 0, false, OpNone, 0, history, false)
  }

  function NewPool(total: nat, history: nat): Pool
    requires total <= LIST_SLOTS
  {
    var c := Copy(NewHeader(total, history), map[]);
    Pool(c, c)
  }

  // ---- repair ----

  /** `secondary_ring_needs_repair`: looks at ring B, whichever role it has. */
  predicate NeedsRepair(p: Pool) {
    !p.c0.h.active && (0 in p.c0.h.ringB.chunks || 0 in p.c1.h.ringB.chunks)
  }

  function ClearedRing(r: Ring): Ring {
    Ring(r.lb, r.nv, 0, seq(|r.chunks|, k => NULL_CHUNK))
  }

  function Repair(p: Pool): Pool {
    if !NeedsRepair(p) then p
    else
      Pool(p.c0.(h := p.c0.h.(ringB := ClearedRing(p.c0.h.ringB))),
           p.c1.(h := p.c1.h.(ringB := ClearedRing(p.c1.h.ringB))))
  }

  // ---- runs ----

  datatype Action =
    | Split
    | GiveBack
    | Switch
    | RepairRing
    | Roots(after: Pool)

  /** A header without what root offset operations and history updates change. */
  ghost function Bare(h: Header): Header {
    h.(ringA := h.ringA.(lb := 0, nv := 0), ringB := h.ringB.(lb := 0, nv := 0), history := 0)
  }

  /** The same chunk lists, roles and records. */
  ghost predicate SameLists(h: Header, g: Header) {
    Bare(h) == Bare(g)
  }

  /** The assertions the operation makes. */
  ghost predicate Accepts(e: nat, p: Pool, a: Action) {
    var h := p.c0.h;
    match a
    case Split =>
      var n := ActivateParam(h);
      h.kind == OpNone && p.c1.h.kind == OpNone && !h.active && RingOf(h, h.primary).len >= 2 &&
      IsPow2(RingOf(h, h.primary).len) && (h.history > Capacity(e, n) ==> Capacity(e, n) >= MIN_HISTORY_LENGTH)
    case GiveBack =>
      h.kind == OpNone && p.c1.h.kind == OpNone && h.active && RingOf(h, h.primary).len > 0 &&
      RingOf(h, Other(h.primary)).len > 0 &&
      IsPow2(DeactivateParam(h))
    case Switch => h.kind == OpNone && p.c1.h.kind == OpNone && h.active
    case RepairRing => true
    case Roots(q) => SameLists(p.c0.h, q.c0.h) && SameLists(p.c1.h, q.c1.h)
  }

  ghost function Act(e: nat, p: Pool, a: Action): Pool
    requires e > 0
  {
    match a
    case Split => Run(p, ActivateCrash.ActivateSteps(e, p))
    case GiveBack => Run(p, Deactivate.DeactivateSteps(e, p))
    case Switch => Run(p, Promote.PromoteSteps(e, p))
    case RepairRing => Repair(p)
    case Roots(q) => q
  }

  ghost function ActAll(e: nat, p: Pool, acts: seq<Action>): Pool
    requires e > 0
  {
    if acts == [] then p else Act(e, ActAll(e, p, acts[..|acts| - 1]), acts[|acts| - 1])
  }

  ghost predicate AcceptsAll(e: nat, p: Pool, acts: seq<Action>)
    requires e > 0
  {
    acts == [] ||
    (AcceptsAll(e, p, acts[..|acts| - 1]) && Accepts(e, ActAll(e, p, acts[..|acts| - 1]), acts[|acts| - 1]))
  }

  // ---- the invariant ----

  /** The live part of a ring's list. */
  ghost function Live(r: Ring): seq<nat> {
    if r.len <= |r.chunks| then r.chunks[..r.len] else r.chunks
  }

  /** The chunks of the primary followed by those of the secondary. */
  ghost function Owned(h: Header): seq<nat> {
    Live(RingOf(h, h.primary)) + Live(RingOf(h, Other(h.primary)))
  }

  ghost predicate Lists(h: Header, total: nat) {
    var p, s := RingOf(h, h.primary), RingOf(h, Other(h.primary));
    h.primary < 2 && IsPow2(total) && total <= LIST_SLOTS &&
    |p.chunks| == |s.chunks| == LIST_SLOTS && p.len + s.len == total &&
    (if h.active then p.len == s.len else s.len == 0) &&
    Empty(p, p.len, LIST_SLOTS) && Empty(s, s.len, LIST_SLOTS) &&
    ChunkIds(Owned(h)) && forall c :: c in Owned(h) <==> 1 <= c <= total
  }

  ghost predicate Inv(p: Pool, total: nat) {
    var h := p.c0.h;
    SameLists(h, p.c1.h) && !h.dirty && h.kind == OpNone && h.param == 0 && Lists(h, total)
  }

  // ---- a new pool ----

  lemma {:induction false} Consecutive(lo: nat, ids: seq<nat>)
    requires lo > 0 && lo + |ids| <= NULL_CHUNK && forall k :: 0 <= k < |ids| ==> ids[k] == lo + k
    ensures ChunkIds(ids)
    decreases |ids|
  {
    if ids != [] {
      Consecutive(lo + 1, ids[1..]);
    }
  }

  lemma NewPoolInv(total: nat, history: nat)
    requires IsPow2(total) && total <= LIST_SLOTS
    ensures Inv(NewPool(total, history), total)
  {
    var h := NewHeader(total, history);
    var ids := h.ringA.chunks[..total];
    assert h.ringB.chunks[..0] == [] && Owned(h) == ids;
    Consecutive(1, ids);
    forall c
      ensures c in ids <==> 1 <= c <= total
    {
      if 1 <= c <= total {
        assert ids[c - 1] == c;
      }
    }
  }

  // ---- activate ----

  lemma ListsSame(h: Header, g: Header, total: nat)
    requires SameLists(h, g) && Lists(h, total)
    ensures Lists(g, total) && g.dirty == h.dirty && g.kind == h.kind && g.param == h.param
  {
    assert Owned(g) == Owned(h);
  }

  lemma Half(total: nat)
    requires IsPow2(total) && total >= 2
    ensures IsPow2(total / 2) && total == 2 * (total / 2)
  {
    Pow2Halves(total);
  }

  lemma InactiveIsShrinkable(e: nat, h: Header, total: nat)
    requires e > 0 && IsPow2(e) && Lists(h, total) && !h.active && total >= 2
    ensures ActivateParam(h) == total / 2 && Shrinkable(e, h, total / 2)
  {
    var p, s := RingOf(h, h.primary), RingOf(h, Other(h.primary));
    Half(total);
    assert Live(s) == [] && Owned(h) == p.chunks[..total];
  }

  /**
    A pool that keeps the invariant and whose copies agree can be activated
    just when the operation's own assertions hold.
   */
  lemma ActivateIsPossible(e: nat, p: Pool, total: nat)
    requires e > 0 && IsPow2(e) && Inv(p, total)
    ensures Accepts(e, p, Split) && p.c0.h == p.c1.h <==> ActivateCrash.CanActivate(e, p)
  {
    if !p.c0.h.active && total >= 2 {
      InactiveIsShrinkable(e, p.c0.h, total);
    }
  }

  lemma SplitOwned(e: nat, h: Header, n: nat)
    requires h.primary < 2 && n > 0 && RingOf(h, h.primary).len == 2 * n <= |RingOf(h, h.primary).chunks|
    requires RingOf(h, Other(h.primary)).len == 0 && n <= |RingOf(h, Other(h.primary)).chunks|
    ensures Owned(Activated(e, h, n)) == Owned(h)
  {
    var g := Activated(e, h, n);
    var p := RingOf(h, h.primary);
    assert Live(RingOf(g, h.primary)) == p.chunks[..n];
    assert Live(RingOf(g, Other(h.primary))) == p.chunks[n..2 * n];
    assert Live(RingOf(h, Other(h.primary))) == [];
  }

  lemma SplitLists(e: nat, h: Header, total: nat)
    requires e > 0 && IsPow2(e) && Lists(h, total) && !h.active && total >= 2
    ensures |RingOf(h, h.primary).chunks| >= 2 * (total / 2) && Lists(Activated(e, h, total / 2), total)
  {
    Half(total);
    SplitOwned(e, h, total / 2);
  }

  /** The body reads the chunk lists of its own copy only. */
  lemma SplitHeader(e: nat, c: Copy, n: nat)
    requires e > 0 && Shrinkable(e, c.h, n)
    ensures
      var g := Stamped(c.h, OpActivate, n);
      KeepsDirty(ActivateBody(e, c, c.h.primary, n)) &&
      RunHeader(g, ActivateBody(e, c, c.h.primary, n)) == Stamped(Activated(e, c.h, n), OpActivate, n)
  {
    var g := Stamped(c.h, OpActivate, n);
    BodyKeepsDirty(e, c, c.h.primary, n);
    ActivateCrash.SameBody(e, c, g, n);
    ActivateHeader(e, Copy(g, c.disk), n);
  }

  lemma TrimmedSame(e: nat, p: Pool, q: Pool, n: nat)
    requires Clean(q)
    ensures
      var r := RunScopes(q, HistoryScopes(e, p, n));
      Clean(r) && SameLists(q.c0.h, r.c0.h) && SameLists(q.c1.h, r.c1.h)
  {
    if p.c0.h.history > Capacity(e, n) {
      TrimSame(q, Max(Capacity(e, n), MIN_HISTORY_LENGTH));
    }
  }

  lemma TrimSame(q: Pool, x: nat)
    requires Clean(q)
    ensures
      var r := RunScopes(q, [Scope(0, [SetHistory(x)]), Scope(1, [SetHistory(x)])]);
      Clean(r) && r.c0.h == q.c0.h.(history := x) && r.c1.h == q.c1.h.(history := x)
  {
    RunScopesBoth(q, [SetHistory(x)], [SetHistory(x)]);
    HistorySet(q.c0.h, x);
    HistorySet(q.c1.h, x);
  }

  lemma HistorySet(h: Header, x: nat)
    ensures RunHeader(h, [SetHistory(x)]) == h.(history := x)
  {
    RunHeaderSnoc(h, [], SetHistory(x));
  }

  lemma SplitSame(e: nat, h: Header, g: Header, n: nat)
    requires SameLists(h, g) && |RingOf(h, h.primary).chunks| >= 2 * n
    ensures |RingOf(g, g.primary).chunks| >= 2 * n && SameLists(Activated(e, h, n), Activated(e, g, n))
  {
  }

  /** The headers an activate leaves, each from its own. */
  lemma ActivateHeaders(e: nat, p: Pool, n: nat)
    requires e > 0 && Clean(p) && n == ActivateParam(p.c0.h) && p.c1.h.primary == p.c0.h.primary
    requires Bookless(p) && Shrinkable(e, p.c0.h, n) && Shrinkable(e, p.c1.h, n)
    ensures
      var q := Run(p, ActivateCrash.ActivateSteps(e, p));
      SameLists(Activated(e, p.c0.h, n), q.c0.h) && SameLists(Activated(e, p.c1.h, n), q.c1.h)
  {
    var pi := p.c0.h.primary;
    var a, b := ActivateBody(e, p.c0, pi, n), ActivateBody(e, p.c1, pi, n);
    SplitHeader(e, p.c0, n);
    SplitHeader(e, p.c1, n);
    var stamped := RunScopes(p, StampScopes(OpActivate, n));
    RunStamp(p, OpActivate, n);
    var bodies := RunScopes(stamped, [Scope(0, a), Scope(1, b)]);
    RunScopesBoth(stamped, a, b);
    TrimmedSame(e, p, bodies, n);
    RunScopesConcat(stamped, [Scope(0, a), Scope(1, b)], HistoryScopes(e, p, n));
    RunProgram(e, p, OpActivate, n);
    RunStamp(RunScopes(bodies, HistoryScopes(e, p, n)), OpNone, 0);
  }

  lemma ActivateKeepsInv(e: nat, p: Pool, total: nat)
    requires e > 0 && IsPow2(e) && Inv(p, total) && Accepts(e, p, Split)
    ensures Inv(Run(p, ActivateCrash.ActivateSteps(e, p)), total)
  {
    var n, q := total / 2, Run(p, ActivateCrash.ActivateSteps(e, p));
    ListsSame(p.c0.h, p.c1.h, total);
    InactiveIsShrinkable(e, p.c0.h, total);
    InactiveIsShrinkable(e, p.c1.h, total);
    SplitLists(e, p.c0.h, total);
    SplitSame(e, p.c0.h, p.c1.h, n);
    ActivateHeaders(e, p, n);
    ListsSame(Activated(e, p.c0.h, n), q.c0.h, total);
  }

  // ---- deactivate ----

  lemma ActiveIsGrowable(e: nat, h: Header, total: nat)
    requires e > 0 && IsPow2(e) && Lists(h, total) && h.active
    ensures total == 2 * (total / 2) && DeactivateParam(h) == total && Growable(e, h, total / 2)
  {
    var p, s := RingOf(h, h.primary), RingOf(h, Other(h.primary));
    assert total == 2 * p.len;
    assert total >= 2;
    Half(total);
  }

  lemma DeactivateIsPossible(e: nat, p: Pool, total: nat)
    requires e > 0 && IsPow2(e) && Inv(p, total)
    ensures Accepts(e, p, GiveBack) <==> p.c0.h.active
    ensures Accepts(e, p, GiveBack) && p.c0.h == p.c1.h <==> Deactivate.CanDeactivate(e, p, total / 2)
  {
    if p.c0.h.active {
      ActiveIsGrowable(e, p.c0.h, total);
    }
  }

  lemma JoinLists(e: nat, h: Header, total: nat)
    requires e > 0 && IsPow2(e) && Lists(h, total) && h.active
    ensures |RingOf(h, Other(h.primary)).chunks| >= total / 2 && Lists(Deactivate.Deactivated(h, total / 2), total)
  {
    var n := total / 2;
    ActiveIsGrowable(e, h, total);
    var g := Deactivate.Deactivated(h, n);
    var p', s' := RingOf(g, h.primary), RingOf(g, Other(h.primary));
    Deactivate.GrowSpan(e, h, n);
    assert Live(s') == [];
    assert Live(p') == Deactivate.Chunks(h, n);
    assert Owned(g) == Owned(h);
  }

  lemma JoinHeader(e: nat, c: Copy, n: nat)
    requires Growable(e, c.h, n)
    ensures
      var g, b := Stamped(c.h, OpDeactivate, 2 * n), DeactivateBody(e, c, c.h.primary, 2 * n);
      KeepsDirty(b) && RunHeader(g, b) == Stamped(Deactivate.Deactivated(c.h, n), OpDeactivate, 2 * n)
  {
    var g := Stamped(c.h, OpDeactivate, 2 * n);
    Deactivate.BodyKeepsDirty(e, c, c.h.primary, 2 * n);
    Deactivate.SameBody(e, c, g, 2 * n);
    Deactivate.DeactivateHeader(e, Copy(g, c.disk), n);
  }

  lemma JoinSame(h: Header, g: Header, n: nat)
    requires SameLists(h, g) && |RingOf(h, Other(h.primary)).chunks| >= n
    ensures |RingOf(g, Other(g.primary)).chunks| >= n && SameLists(Deactivate.Deactivated(h, n),
                                                                   Deactivate.Deactivated(g, n))
  {
  }

  /** The headers a deactivate leaves, each from its own. */
  lemma DeactivateHeaders(e: nat, p: Pool, n: nat)
    requires Clean(p) && Bookless(p) && 2 * n == DeactivateParam(p.c0.h) && p.c1.h.primary == p.c0.h.primary
    requires Growable(e, p.c0.h, n) && Growable(e, p.c1.h, n)
    ensures
      var q := Run(p, Deactivate.DeactivateSteps(e, p));
      q.c0.h == Deactivate.Deactivated(p.c0.h, n) && q.c1.h == Deactivate.Deactivated(p.c1.h, n)
  {
    var pi := p.c0.h.primary;
    var a, b := DeactivateBody(e, p.c0, pi, 2 * n), DeactivateBody(e, p.c1, pi, 2 * n);
    JoinHeader(e, p.c0, n);
    JoinHeader(e, p.c1, n);
    var stamped := RunScopes(p, StampScopes(OpDeactivate, 2 * n));
    RunStamp(p, OpDeactivate, 2 * n);
    RunScopesBoth(stamped, a, b);
    RunProgram(e, p, OpDeactivate, 2 * n);
    RunStamp(RunScopes(stamped, [Scope(0, a), Scope(1, b)]), OpNone, 0);
  }

  lemma DeactivateKeepsInv(e: nat, p: Pool, total: nat)
    requires e > 0 && IsPow2(e) && Inv(p, total) && Accepts(e, p, GiveBack)
    ensures Inv(Run(p, Deactivate.DeactivateSteps(e, p)), total)
  {
    ListsSame(p.c0.h, p.c1.h, total);
    ActiveIsGrowable(e, p.c0.h, total);
    ActiveIsGrowable(e, p.c1.h, total);
    JoinLists(e, p.c0.h, total);
    JoinSame(p.c0.h, p.c1.h, total / 2);
    DeactivateHeaders(e, p, total / 2);
  }

  // ---- promote ----

  /** An id of `a` can be moved behind `b`. */
  lemma {:induction false} ChunkIdsRotate(x: nat, b: seq<nat>)
    requires ChunkIds([x] + b)
    ensures ChunkIds(b + [x])
    decreases |b|
  {
    assert ([x] + b)[1..] == b;
    if b == [] {
      assert b + [x] == [x] + b;
    } else {
      var y, c := b[0], b[1..];
      assert ([x] + c)[1..] == c;
      ChunkIdsRotate(x, c);
      assert (b + [x])[1..] == c + [x];
    }
  }

  lemma {:induction false} ChunkIdsSwap(a: seq<nat>, b: seq<nat>)
    requires ChunkIds(a + b)
    ensures ChunkIds(b + a)
    decreases |a|
  {
    if a == [] {
      assert b + a == a + b;
    } else {
      assert a + b == [a[0]] + (a[1..] + b);
      ChunkIdsRotate(a[0], a[1..] + b);
      assert (a[1..] + b) + [a[0]] == a[1..] + (b + [a[0]]);
      ChunkIdsSwap(a[1..], b + [a[0]]);
      assert (b + [a[0]]) + a[1..] == b + a;
    }
  }

  lemma PromoteKeepsInv(e: nat, p: Pool, total: nat)
    requires e > 0 && Inv(p, total) && Accepts(e, p, Switch)
    ensures Inv(Run(p, Promote.PromoteSteps(e, p)), total)
  {
    var h := p.c0.h;
    var a, b := Live(RingOf(h, h.primary)), Live(RingOf(h, Other(h.primary)));
    Promote.PromoteDone(e, p);
    ChunkIdsSwap(a, b);
    var g := Run(p, Promote.PromoteSteps(e, p)).c0.h;
    assert Owned(g) == b + a;
    assert forall c :: c in b + a <==> c in a + b;
  }

  // ---- repair ----

  lemma {:induction false} NoZeroId(ids: seq<nat>)
    requires ChunkIds(ids)
    ensures 0 !in ids
  {
    if 0 in ids {
      var k :| 0 <= k < |ids| && ids[k] == 0;
      ChunkIdAt(ids, k);
    }
  }

  lemma NoZeroSlot(h: Header, total: nat)
    requires Lists(h, total)
    ensures 0 !in h.ringA.chunks && 0 !in h.ringB.chunks
  {
    NoZeroId(Owned(h));
    forall i: nat, k | i < 2 && 0 <= k < LIST_SLOTS
      ensures RingOf(h, i).chunks[k] != 0
    {
      var r := RingOf(h, i);
      if k < r.len {
        assert r.chunks[k] == Live(r)[k];
        assert r.chunks[k] in Owned(h);
      }
    }
    assert RingOf(h, 0) == h.ringA && RingOf(h, 1) == h.ringB;
  }

  /** Repair finds nothing to do in a pool that keeps the invariant, whichever ring is primary. */
  lemma RepairDoesNothing(p: Pool, total: nat)
    requires Inv(p, total)
    ensures Repair(p) == p
  {
    ListsSame(p.c0.h, p.c1.h, total);
    NoZeroSlot(p.c0.h, total);
    NoZeroSlot(p.c1.h, total);
  }

  /** A copy after a repair that acted: ring B has no chunk and only unset slots, all else is as it was. */
  ghost predicate Repaired(c: Copy, d: Copy) {
    d.disk == c.disk && d.h == c.h.(ringB := d.h.ringB) && d.h.ringB.lb == c.h.ringB.lb &&
    d.h.ringB.nv == c.h.ringB.nv && d.h.ringB.len == 0 && |d.h.ringB.chunks| == |c.h.ringB.chunks| &&
    forall k :: 0 <= k < |d.h.ringB.chunks| ==> d.h.ringB.chunks[k] == 0xffff_ffff
  }

  /** A repair acts exactly when one is needed, and then none is needed any more. */
  lemma RepairLeaves(p: Pool)
    ensures
      var q := Repair(p);
      !NeedsRepair(q) &&
      if !p.c0.h.active && exists k :: (0 <= k < |p.c0.h.ringB.chunks| && p.c0.h.ringB.chunks[k] == 0) ||
                                       (0 <= k < |p.c1.h.ringB.chunks| && p.c1.h.ringB.chunks[k] == 0)
      then Repaired(p.c0, q.c0) && Repaired(p.c1, q.c1)
      else q == p
  {
    var q := Repair(p);
    if NeedsRepair(p) {
      assert forall c :: c in q.c0.h.ringB.chunks || c in q.c1.h.ringB.chunks ==> c == 0xffff_ffff;
    }
  }

  /** On any pool at all, repair leaves the primary ring alone unless ring B is primary and has a zero slot. */
  lemma RepairSparesPrimaryIff(p: Pool)
    requires p.c0.h.primary < 2 && RingOf(p.c0.h, p.c0.h.primary).len > 0
    ensures RingOf(Repair(p).c0.h, p.c0.h.primary) == RingOf(p.c0.h, p.c0.h.primary) <==>
            p.c0.h.active || p.c0.h.primary == 0 || (0 !in p.c0.h.ringB.chunks && 0 !in p.c1.h.ringB.chunks)
  {
  }

  // ---- all runs ----

  lemma ActKeepsInv(e: nat, p: Pool, total: nat, a: Action)
    requires e > 0 && IsPow2(e) && Inv(p, total) && Accepts(e, p, a)
    ensures Inv(Act(e, p, a), total)
  {
    match a
    case Split => ActivateKeepsInv(e, p, total);
    case GiveBack => DeactivateKeepsInv(e, p, total);
    case Switch => PromoteKeepsInv(e, p, total);
    case RepairRing => RepairDoesNothing(p, total);
    case Roots(q) => ListsSame(p.c0.h, q.c0.h, total);
  }

  lemma {:induction false} RunKeepsInv(e: nat, p: Pool, total: nat, acts: seq<Action>)
    requires e > 0 && IsPow2(e) && Inv(p, total) && AcceptsAll(e, p, acts)
    ensures Inv(ActAll(e, p, acts), total)
    decreases |acts|
  {
    if acts != [] {
      RunKeepsInv(e, p, total, acts[..|acts| - 1]);
      ActKeepsInv(e, ActAll(e, p, acts[..|acts| - 1]), total, acts[|acts| - 1]);
    }
  }

  /**
    Over every crash-free run from a new pool: the two live lists hold each of
    the chunks 1..total exactly once and never chunk 0, they are equally long
    while the secondary is active and the secondary's is empty otherwise,
    their lengths are powers of two or zero, and repair changes nothing.
   */
  lemma ChunksAreNeverLost(e: nat, total: nat, history: nat, acts: seq<Action>)
    requires e > 0 && IsPow2(e) && IsPow2(total) && total <= LIST_SLOTS
    requires AcceptsAll(e, NewPool(total, history), acts)
    ensures
      var q := ActAll(e, NewPool(total, history), acts);
      var h := q.c0.h;
      var p, s := RingOf(h, h.primary), RingOf(h, Other(h.primary));
      SameLists(h, q.c1.h) && ChunkIds(Live(p) + Live(s)) &&
      (forall c :: c in Live(p) + Live(s) <==> 1 <= c <= total) &&
      |Live(p)| == p.len && |Live(s)| == s.len && IsPow2(p.len) &&
      (if h.active then s.len == p.len else s.len == 0) && Repair(q) == q
  {
    NewPoolInv(total, history);
    RunKeepsInv(e, NewPool(total, history), total, acts);
    var q := ActAll(e, NewPool(total, history), acts);
    RepairDoesNothing(q, total);
    if q.c0.h.active {
      ActiveIsGrowable(e, q.c0.h, total);
    }
  }
}
