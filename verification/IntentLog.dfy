/**
  Facts about dirty scopes, healing and the intent record that hold for every
  protected operation.
 */
module IntentLog {
  import opened RingPool
  import opened ShrinkGrow

  ghost predicate KeepsDirty(ss: seq<Store>) {
    forall i :: 0 <= i < |ss| ==> !ss[i].SetDirty?
  }

  /** No scope touches the dirty flag except through `hold_dirty`. */
  ghost predicate Clean(p: Pool) {
    !p.c0.h.dirty && !p.c1.h.dirty
  }

  lemma DirtyCommutesOne(h: Header, b: bool, s: Store)
    requires !s.SetDirty?
    ensures StoreHeader(h.(dirty := b), s) == StoreHeader(h, s).(dirty := b)
  {
    match s {
      case SetChunk(i, k, id) => assert RingOf(h.(dirty := b), i) == RingOf(h, i);
      case _ =>
    }
  }

  lemma {:induction false} DirtyCommutes(h: Header, b: bool, ss: seq<Store>)
    requires KeepsDirty(ss)
    ensures RunHeader(h.(dirty := b), ss) == RunHeader(h, ss).(dirty := b)
    decreases |ss|
  {
    if ss != [] {
      DirtyCommutes(h, b, ss[..|ss| - 1]);
      DirtyCommutesOne(RunHeader(h, ss[..|ss| - 1]), b, ss[|ss| - 1]);
    }
  }

  /** A completed scope is its body, and leaves the copy clean. */
  lemma ScopeEffect(c: Copy, s: Scope)
    requires KeepsDirty(s.body)
    ensures RunCopy(c, ScopeStores(s)) == Copy(RunHeader(c.h, s.body).(dirty := false), RunDisk(c.disk, s.body))
  {
    var on, off := [SetDirty(true)], [SetDirty(false)];
    RunHeaderConcat(c.h, on + s.body, off);
    RunHeaderConcat(c.h, on, s.body);
    DirtyCommutes(c.h, true, s.body);
    RunDiskConcat(c.disk, on + s.body, off);
    RunDiskConcat(c.disk, on, s.body);
  }

  /** A process that dies inside a scope leaves the copy dirty; only its ring data matters. */
  lemma DeadScope(c: Copy, body: seq<Store>)
    requires KeepsDirty(body)
    ensures RunHeader(c.h, [SetDirty(true)] + body).dirty
    ensures RunDisk(c.disk, [SetDirty(true)] + body) == RunDisk(c.disk, body)
  {
    RunHeaderConcat(c.h, [SetDirty(true)], body);
    DirtyCommutes(c.h, true, body);
    RunDiskConcat(c.disk, [SetDirty(true)], body);
  }

  /** Healing after a crash inside a scope restores the header from the other copy. */
  lemma HealDeadScope(m: Pool, w: nat, body: seq<Store>, q: Pool)
    requires Clean(m) && w < 2 && KeepsDirty(body)
    requires q == WithCopy(m, w, RunCopy(CopyOf(m, w), [SetDirty(true)] + body))
    ensures Heal(q) == WithCopy(m, w, Copy(CopyOf(m, 1 - w).h, RunDisk(CopyOf(m, w).disk, body)))
  {
    DeadScope(CopyOf(m, w), body);
    assert CopyOf(m, 1 - w).h.(dirty := false) == CopyOf(m, 1 - w).h;
  }

  lemma RunScopesPrefix(p: Pool, prog: seq<Scope>, i: nat)
    requires i < |prog|
    ensures
      var q := RunScopes(p, prog[..i]);
      RunScopes(p, prog[..i + 1]) == WithCopy(q, prog[i].which, RunCopy(CopyOf(q, prog[i].which), ScopeStores(prog[i])))
  {
    assert prog[..i + 1][..i] == prog[..i];
  }

  lemma RunScopesOne(p: Pool, s: Scope)
    requires KeepsDirty(s.body)
    ensures
      var c := CopyOf(p, s.which);
      RunScopes(p, [s]) == WithCopy(p, s.which, Copy(RunHeader(c.h, s.body).(dirty := false), RunDisk(c.disk, s.body)))
  {
    assert [s][..0] == [];
    ScopeEffect(CopyOf(p, s.which), s);
  }

  /** A scope on copy 0 followed by one on copy 1. */
  lemma RunScopesBoth(p: Pool, a: seq<Store>, b: seq<Store>)
    requires KeepsDirty(a) && KeepsDirty(b)
    ensures RunScopes(p, [Scope(0, a), Scope(1, b)]) ==
            Pool(Copy(RunHeader(p.c0.h, a).(dirty := false), RunDisk(p.c0.disk, a)),
                 Copy(RunHeader(p.c1.h, b).(dirty := false), RunDisk(p.c1.disk, b)))
  {
    assert [Scope(0, a), Scope(1, b)] == [Scope(0, a)] + [Scope(1, b)];
    RunScopesConcat(p, [Scope(0, a)], [Scope(1, b)]);
    RunScopesOne(p, Scope(0, a));
    RunScopesOne(RunScopes(p, [Scope(0, a)]), Scope(1, b));
  }

  /** The header with the intent record set. */
  function Stamped(h: Header, kind: OpKind, param: nat): Header {
    h.(kind := kind, param := param)
  }

  lemma RunHeaderStamp(h: Header, kind: OpKind, param: nat)
    ensures RunHeader(h, [SetKind(kind), SetParam(param)]) == Stamped(h, kind, param)
  {
    RunHeaderSnoc(h, [], SetKind(kind));
    RunHeaderSnoc(h, [SetKind(kind)], SetParam(param));
  }

  lemma RunDiskNoSlots(d: Disk, ss: seq<Store>)
    requires forall i :: 0 <= i < |ss| ==> !ss[i].SetSlot?
    ensures RunDisk(d, ss) == d
    decreases |ss|
  {
    if ss != [] {
      RunDiskNoSlots(d, ss[..|ss| - 1]);
    }
  }

  /** Only the stores to slots change the disk. */
  lemma SlotsAround(d: Disk, a: seq<Store>, slots: seq<Store>, b: seq<Store>)
    requires forall i :: 0 <= i < |a| ==> !a[i].SetSlot?
    requires forall i :: 0 <= i < |b| ==> !b[i].SetSlot?
    ensures RunDisk(d, a + slots + b) == RunDisk(d, slots)
  {
    RunDiskConcat(d, a + slots, b);
    RunDiskConcat(d, a, slots);
    RunDiskNoSlots(d, a);
    RunDiskNoSlots(RunDisk(d, slots), b);
  }

  /** Stamping or clearing both copies. */
  lemma RunStamp(p: Pool, kind: OpKind, param: nat)
    ensures RunScopes(p, StampScopes(kind, param)) ==
            Pool(Copy(Stamped(p.c0.h, kind, param).(dirty := false), p.c0.disk),
                 Copy(Stamped(p.c1.h, kind, param).(dirty := false), p.c1.disk))
  {
    var ss := [SetKind(kind), SetParam(param)];
    RunScopesBoth(p, ss, ss);
    RunHeaderStamp(p.c0.h, kind, param);
    RunHeaderStamp(p.c1.h, kind, param);
    RunDiskNoSlots(p.c0.disk, ss);
    RunDiskNoSlots(p.c1.disk, ss);
  }

  /** No intent record. */
  ghost predicate Bookless(p: Pool) {
    p.c0.h.kind == OpNone && p.c0.h.param == 0 && p.c1.h.kind == OpNone && p.c1.h.param == 0
  }

  /** A whole operation: stamp, body, clear. */
  lemma RunProgram(e: nat, p: Pool, kind: OpKind, param: nat)
    ensures
      var stamped := RunScopes(p, StampScopes(kind, param));
      Run(p, Flatten(Program(e, p, kind, param))) == RunScopes(RunScopes(stamped, BodyScopes(e, p, kind, param)),
                                                               ClearScopes())
  {
    var stamp, body := StampScopes(kind, param), BodyScopes(e, p, kind, param);
    RunFlatten(p, stamp + body + ClearScopes());
    RunScopesConcat(p, stamp + body, ClearScopes());
    RunScopesConcat(p, stamp, body);
  }
}
