/**
  `promote_secondary_to_primary_header`: atomic however often the process dies,
  also while an earlier crash is being replayed.
 */
module Promote {
  import opened RingPool
  import opened ShrinkGrow
  import opened IntentLog

  /** What `promote_secondary_to_primary_header` asserts, on two agreeing clean headers. */
  ghost predicate CanPromote(p: Pool) {
    var h := p.c0.h;
    h == p.c1.h && !h.dirty && h.kind == OpNone && h.param == 0 && h.active && h.primary < 2
  }

  ghost function Target(p: Pool): nat {
    Other(p.c0.h.primary)
  }

  ghost function PromoteSteps(e: nat, p: Pool): seq<Step> {
    Flatten(Program(e, p, OpPromote, Target(p)))
  }

  ghost function Cut(ss: seq<Step>, k: nat): seq<Step> {
    if k <= |ss| then ss[..k] else ss
  }

  /**
    A promote that dies after `ks[0]` stores, then opens that die after
    `ks[1]`, `ks[2]`, ... stores of their replay. A count beyond the end stands
    for a run that completes.
   */
  ghost function AfterCrashes(e: nat, p: Pool, ks: seq<nat>): Pool {
    if ks == [] then p
    else if |ks| == 1 then Run(p, Cut(PromoteSteps(e, p), ks[0]))
    else
      var g := Heal(AfterCrashes(e, p, ks[..|ks| - 1]));
      Run(g, Cut(Flatten(ReplayScopes(e, g)), ks[|ks| - 1]))
  }

  // ---- rounds of header stores, copy 0 before copy 1 ----

  ghost function Rounds(rs: seq<seq<Store>>): seq<Scope> {
    seq(2 * |rs|, i requires 0 <= i < 2 * |rs| => Scope(i % 2, rs[i / 2]))
  }

  ghost predicate HeaderRounds(rs: seq<seq<Store>>) {
    forall m :: 0 <= m < |rs| ==> KeepsDirty(rs[m]) && forall i :: 0 <= i < |rs[m]| ==> !rs[m][i].SetSlot?
  }

  /** The header after the first `m` rounds. */
  ghost function After(h: Header, rs: seq<seq<Store>>, m: nat): Header
    requires m <= |rs|
  {
    if m == 0 then h else RunHeader(After(h, rs, m - 1), rs[m - 1]).(dirty := false)
  }

  ghost function PoolAfter(g: Pool, rs: seq<seq<Store>>, m0: nat, m1: nat): Pool
    requires m0 <= |rs| && m1 <= |rs|
  {
    Pool(Copy(After(g.c0.h, rs, m0), g.c0.disk), Copy(After(g.c1.h, rs, m1), g.c1.disk))
  }

  lemma RoundOnPool(g: Pool, rs: seq<seq<Store>>, w: nat, m: nat)
    requires HeaderRounds(rs) && m < |rs| && w < 2
    ensures
      var q := PoolAfter(g, rs, m + w, m);
      WithCopy(q, w, RunCopy(CopyOf(q, w), ScopeStores(Scope(w, rs[m])))) == PoolAfter(g, rs, m + 1, m + w)
  {
    var c := CopyOf(PoolAfter(g, rs, m + w, m), w);
    ScopeEffect(c, Scope(w, rs[m]));
    RunDiskNoSlots(c.disk, rs[m]);
  }

  lemma {:induction false} RoundStages(g: Pool, rs: seq<seq<Store>>, i: nat)
    requires HeaderRounds(rs) && i <= 2 * |rs|
    ensures RunScopes(g, Rounds(rs)[..i]) == PoolAfter(g, rs, (i + 1) / 2, i / 2)
  {
    if i > 0 {
      RoundStages(g, rs, i - 1);
      RunScopesPrefix(g, Rounds(rs), i - 1);
      RoundStep(g, rs, i, RunScopes(g, Rounds(rs)[..i - 1]), Rounds(rs)[i - 1]);
    }
  }

  lemma RoundStep(g: Pool, rs: seq<seq<Store>>, i: nat, q: Pool, s: Scope)
    requires HeaderRounds(rs) && 0 < i <= 2 * |rs| && s == Scope((i - 1) % 2, rs[(i - 1) / 2])
    requires q == PoolAfter(g, rs, i / 2, (i - 1) / 2)
    ensures WithCopy(q, s.which, RunCopy(CopyOf(q, s.which), ScopeStores(s))) == PoolAfter(g, rs, (i + 1) / 2, i / 2)
  {
    RoundOnPool(g, rs, (i - 1) % 2, (i - 1) / 2);
  }

  lemma {:induction false} AfterClean(h: Header, rs: seq<seq<Store>>, m: nat)
    requires m <= |rs| && !h.dirty
    ensures !After(h, rs, m).dirty
  {
  }

  /** After a crash and healing: whole rounds, or both copies with the header of one of them. */
  ghost predicate HealedRounds(g: Pool, rs: seq<seq<Store>>, x: Pool) {
    exists i: nat :: i <= 2 * |rs| && HealedAt(g, rs, i, x)
  }

  ghost predicate HealedAt(g: Pool, rs: seq<seq<Store>>, i: nat, x: Pool)
    requires i <= 2 * |rs|
  {
    var m := PoolAfter(g, rs, (i + 1) / 2, i / 2);
    x == m || x == Pool(Copy(m.c1.h, m.c0.disk), m.c1) || x == Pool(m.c0, Copy(m.c0.h, m.c1.disk))
  }

  lemma HealCutRounds(g: Pool, rs: seq<seq<Store>>, k: nat)
    requires Clean(g) && HeaderRounds(rs)
    ensures HealedRounds(g, rs, Heal(Run(g, Cut(Flatten(Rounds(rs)), k))))
  {
    var prog := Rounds(rs);
    var n := if k <= |Flatten(prog)| then k else |Flatten(prog)|;
    assert Cut(Flatten(prog), k) == Flatten(prog)[..n];
    var q := Run(g, Flatten(prog)[..n]);
    var i, j := CrashPoint(g, prog, n);
    var m := PoolAfter(g, rs, (i + 1) / 2, i / 2);
    RoundStages(g, rs, i);
    AfterClean(g.c0.h, rs, (i + 1) / 2);
    AfterClean(g.c1.h, rs, i / 2);
    if j > 0 {
      var w, body := i % 2, rs[i / 2][..j - 1];
      HealDeadScope(m, w, body, q);
      RunDiskNoSlots(CopyOf(m, w).disk, body);
    }
    assert HealedAt(g, rs, i, Heal(q));
  }

  // ---- the headers a promote passes through ----

  /** The idle or pending header with either ring as primary. */
  ghost predicate Mid(p: Pool, h: Header) {
    h == p.c0.h.(primary := h.primary, kind := h.kind, param := h.param) &&
    (h.primary == p.c0.h.primary || h.primary == Target(p)) &&
    ((h.kind == OpNone && h.param == 0) || (h.kind == OpPromote && h.param == Target(p)))
  }

  /** What every healed pool satisfies: copies may differ only while an intent record is set. */
  ghost predicate Inv(p: Pool, g: Pool) {
    g.c0.disk == p.c0.disk && g.c1.disk == p.c1.disk && Mid(p, g.c0.h) && Mid(p, g.c1.h) &&
    (g.c0.h.kind == OpNone && g.c1.h.kind == OpNone ==> g.c0.h.primary == g.c1.h.primary)
  }

  ghost function Stamp(t: nat): seq<Store> {
    [SetKind(OpPromote), SetParam(t)]
  }

  ghost function ReplayRounds(t: nat): seq<seq<Store>> {
    [[SetPrimary(t)], [SetKind(OpNone), SetParam(0)]]
  }

  ghost function PromoteRounds(t: nat): seq<seq<Store>> {
    [Stamp(t)] + ReplayRounds(t)
  }

  lemma RoundHeaders(h: Header, t: nat)
    ensures RunHeader(h, Stamp(t)) == Stamped(h, OpPromote, t)
    ensures RunHeader(h, [SetPrimary(t)]) == h.(primary := t)
    ensures RunHeader(h, [SetKind(OpNone), SetParam(0)]) == Stamped(h, OpNone, 0)
  {
    RunHeaderStamp(h, OpPromote, t);
    RunHeaderStamp(h, OpNone, 0);
    RunHeaderSnoc(h, [], SetPrimary(t));
    assert [] + [SetPrimary(t)] == [SetPrimary(t)];
  }

  /** Headers after the rounds of a replay. */
  lemma AfterReplay(h: Header, t: nat, m: nat)
    requires !h.dirty && m <= 2
    ensures After(h, ReplayRounds(t), m) ==
            if m == 0 then h else if m == 1 then h.(primary := t) else h.(primary := t, kind := OpNone, param := 0)
  {
    RoundHeaders(h, t);
    RoundHeaders(h.(primary := t), t);
    assert After(h, ReplayRounds(t), 0) == h;
    assert m >= 1 ==> After(h, ReplayRounds(t), 1) == h.(primary := t);
  }

  /** Headers after the rounds of a promote. */
  lemma AfterPromote(h: Header, t: nat, m: nat)
    requires !h.dirty && h.kind == OpNone && h.param == 0 && m <= 3
    ensures After(h, PromoteRounds(t), m) ==
            if m == 0 then h
            else if m == 1 then Stamped(h, OpPromote, t)
            else if m == 2 then Stamped(h, OpPromote, t).(primary := t)
            else h.(primary := t)
  {
    var rs := PromoteRounds(t);
    var h1, h2 := Stamped(h, OpPromote, t), Stamped(h, OpPromote, t).(primary := t);
    assert rs[0] == Stamp(t) && rs[1] == [SetPrimary(t)] && rs[2] == [SetKind(OpNone), SetParam(0)];
    RoundHeaders(h, t);
    RoundHeaders(h1, t);
    RoundHeaders(h2, t);
    assert After(h, rs, 0) == h;
    assert m >= 1 ==> After(h, rs, 1) == h1;
    assert m >= 2 ==> After(h, rs, 2) == h2;
  }

  /** Taking the header of the other copy keeps the invariant. */
  lemma InvWhenCopied(p: Pool, m: Pool, x: Pool)
    requires CanPromote(p) && Clean(m) && Inv(p, m)
    requires x == m || x == Pool(Copy(m.c1.h, m.c0.disk), m.c1) || x == Pool(m.c0, Copy(m.c0.h, m.c1.disk))
    ensures Clean(x) && Inv(p, x)
  {
  }

  /** Replay from a pool with a pending record: both primaries are set before any record is cleared. */
  lemma ReplayKeepsInv(p: Pool, g: Pool, x: Pool)
    requires CanPromote(p) && Clean(g) && Inv(p, g) && PendingHeader(g).kind != OpNone
    requires HealedRounds(g, ReplayRounds(Target(p)), x)
    ensures Clean(x) && Inv(p, x)
  {
    var t := Target(p);
    var rs := ReplayRounds(t);
    var i: nat :| i <= 2 * |rs| && HealedAt(g, rs, i, x);
    AfterReplay(g.c0.h, t, (i + 1) / 2);
    AfterReplay(g.c1.h, t, i / 2);
    InvWhenCopied(p, PoolAfter(g, rs, (i + 1) / 2, i / 2), x);
  }

  /** The promote itself. */
  lemma PromoteKeepsInv(p: Pool, x: Pool)
    requires CanPromote(p) && HealedRounds(p, PromoteRounds(Target(p)), x)
    ensures Clean(x) && Inv(p, x)
  {
    var t := Target(p);
    var rs := PromoteRounds(t);
    var i: nat :| i <= 2 * |rs| && HealedAt(p, rs, i, x);
    AfterPromote(p.c0.h, t, (i + 1) / 2);
    AfterPromote(p.c0.h, t, i / 2);
    InvWhenCopied(p, PoolAfter(p, rs, (i + 1) / 2, i / 2), x);
  }

  lemma ProgramsAreRounds(e: nat, p: Pool)
    requires CanPromote(p)
    ensures PromoteSteps(e, p) == Flatten(Rounds(PromoteRounds(Target(p))))
    ensures HeaderRounds(PromoteRounds(Target(p))) && HeaderRounds(ReplayRounds(Target(p)))
  {
    ScopesOfRounds(Target(p));
  }

  lemma ScopesOfRounds(t: nat)
    ensures Rounds(PromoteRounds(t)) == StampScopes(OpPromote, t) + PromoteScopes(t) + ClearScopes()
    ensures Rounds(ReplayRounds(t)) == PromoteScopes(t) + ClearScopes()
  {
    var rs := PromoteRounds(t);
    assert rs[0] == Stamp(t) && rs[1] == [SetPrimary(t)] && rs[2] == [SetKind(OpNone), SetParam(0)];
    assert Rounds(rs)[0] == Scope(0, rs[0]) && Rounds(rs)[1] == Scope(1, rs[0]);
    assert Rounds(rs)[2] == Scope(0, rs[1]) && Rounds(rs)[3] == Scope(1, rs[1]);
    assert Rounds(rs)[4] == Scope(0, rs[2]) && Rounds(rs)[5] == Scope(1, rs[2]);
  }

  lemma ReplayIsRounds(e: nat, p: Pool, g: Pool)
    requires CanPromote(p) && Inv(p, g)
    ensures ReplayScopes(e, g) == if PendingHeader(g).kind == OpNone then [] else Rounds(ReplayRounds(Target(p)))
  {
    ScopesOfRounds(Target(p));
  }

  /** However many crashes there were, the healed pool satisfies the invariant. */
  lemma {:induction false} InvAfterCrashes(e: nat, p: Pool, ks: seq<nat>)
    requires CanPromote(p)
    ensures Clean(Heal(AfterCrashes(e, p, ks))) && Inv(p, Heal(AfterCrashes(e, p, ks)))
    decreases |ks|
  {
    ProgramsAreRounds(e, p);
    if |ks| == 1 {
      HealCutRounds(p, PromoteRounds(Target(p)), ks[0]);
      PromoteKeepsInv(p, Heal(AfterCrashes(e, p, ks)));
    } else if |ks| > 1 {
      var g := Heal(AfterCrashes(e, p, ks[..|ks| - 1]));
      InvAfterCrashes(e, p, ks[..|ks| - 1]);
      ReplayIsRounds(e, p, g);
      if PendingHeader(g).kind != OpNone {
        HealCutRounds(g, ReplayRounds(Target(p)), ks[|ks| - 1]);
        ReplayKeepsInv(p, g, Heal(AfterCrashes(e, p, ks)));
      } else {
        assert Cut([], ks[|ks| - 1]) == [];
      }
    }
  }

  /**
    After any number of crashes, an open that completes passes the replay
    assertions and leaves both copies with the same header: the one before the
    promote, or that one with the other ring as primary. Ring data is untouched.
   */
  lemma PromoteIsAtomic(e: nat, p: Pool, ks: seq<nat>)
    requires CanPromote(p)
    ensures
      var q := AfterCrashes(e, p, ks);
      var r, h := Recover(e, q), p.c0.h;
      ReplayAccepts(Heal(q)) && r.c0.h == r.c1.h && (r.c0.h == h || r.c0.h == h.(primary := Target(p))) &&
      r.c0.disk == p.c0.disk && r.c1.disk == p.c1.disk
  {
    var g := Heal(AfterCrashes(e, p, ks));
    InvAfterCrashes(e, p, ks);
    ProgramsAreRounds(e, p);
    ReplayIsRounds(e, p, g);
    if PendingHeader(g).kind != OpNone {
      RecoverPending(e, p, g);
    }
  }

  lemma RecoverPending(e: nat, p: Pool, g: Pool)
    requires CanPromote(p) && Clean(g) && Inv(p, g) && PendingHeader(g).kind != OpNone
    ensures
      var r := RunScopes(g, ReplayScopes(e, g));
      r == Pool(Copy(p.c0.h.(primary := Target(p)), p.c0.disk), Copy(p.c0.h.(primary := Target(p)), p.c1.disk))
  {
    var t := Target(p);
    var rs := ReplayRounds(t);
    ReplayIsRounds(e, p, g);
    ProgramsAreRounds(e, p);
    RoundStages(g, rs, 4);
    assert Rounds(rs)[..4] == Rounds(rs);
    AfterReplay(g.c0.h, t, 2);
    AfterReplay(g.c1.h, t, 2);
  }

  /** A promote that completes has switched both copies to the other ring. */
  lemma PromoteSwitches(e: nat, p: Pool)
    requires CanPromote(p)
    ensures Run(p, PromoteSteps(e, p)) ==
            Pool(Copy(p.c0.h.(primary := Target(p)), p.c0.disk), Copy(p.c0.h.(primary := Target(p)), p.c1.disk))
  {
    PromoteDone(e, p);
  }

  lemma PrimarySet(c: Copy, t: nat)
    ensures RunHeader(c.h, [SetPrimary(t)]) == c.h.(primary := t) && RunDisk(c.disk, [SetPrimary(t)]) == c.disk
  {
    RunHeaderSnoc(c.h, [], SetPrimary(t));
    RunDiskNoSlots(c.disk, [SetPrimary(t)]);
  }

  /** A promote that completes, whatever else the two headers hold. */
  lemma PromoteDone(e: nat, p: Pool)
    requires Clean(p) && Bookless(p)
    ensures Run(p, PromoteSteps(e, p)) ==
            Pool(Copy(p.c0.h.(primary := Target(p)), p.c0.disk), Copy(p.c1.h.(primary := Target(p)), p.c1.disk))
  {
    var t := Target(p);
    var stamped := RunScopes(p, StampScopes(OpPromote, t));
    RunStamp(p, OpPromote, t);
    RunScopesBoth(stamped, [SetPrimary(t)], [SetPrimary(t)]);
    PrimarySet(stamped.c0, t);
    PrimarySet(stamped.c1, t);
    RunProgram(e, p, OpPromote, t);
    RunStamp(RunScopes(stamped, PromoteScopes(t)), OpNone, 0);
  }
}
