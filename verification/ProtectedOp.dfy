/**
  The intent-log protocol on its own. An operation runs in rounds, each round a
  dirty scope on copy 0 and then one on copy 1: stamp the intent record, run
  the body, optionally trim the history length, clear the intent record. For
  every crash point this gives the pool that healing hands to replay.
 */
module ProtectedOp {
  import opened RingPool
  import opened ShrinkGrow
  import opened IntentLog

  /** One operation: the start header, the two bodies, and the header the bodies produce. */
  datatype Op = Op(
    start: Header, kind: OpKind, param: nat,
    b0: seq<Store>, b1: seq<Store>, after: Header, trims: bool, history: nat)

  ghost function Rounds(o: Op): nat {
    if o.trims then 4 else 3
  }

  /** The stores of round `m` to copy `w`. */
  ghost function RoundBody(o: Op, w: nat, m: nat): seq<Store> {
    if m == 0 then [SetKind(o.kind), SetParam(o.param)]
    else if m == 1 then (if w == 0 then o.b0 else o.b1)
    else if m + 1 < Rounds(o) then [SetHistory(o.history)]
    else [SetKind(OpNone), SetParam(0)]
  }

  ghost function OpScopes(o: Op): seq<Scope> {
    seq(2 * Rounds(o), i requires i >= 0 => Scope(i % 2, RoundBody(o, i % 2, i / 2)))
  }

  /** The scopes in the order the source writes them: stamp, bodies, history, clear. */
  lemma ScopesInOrder(o: Op)
    ensures
      var history := if o.trims then [Scope(0, [SetHistory(o.history)]), Scope(1, [SetHistory(o.history)])] else [];
      OpScopes(o) ==
      StampScopes(o.kind, o.param) + ([Scope(0, o.b0), Scope(1, o.b1)] + history) + ClearScopes()
  {
  }

  // ---- the state after whole scopes ----

  /** The header of a copy that has completed `m` rounds. */
  ghost function HeaderAfter(o: Op, m: nat): Header {
    if m == 0 then o.start
    else if m == 1 then Stamped(o.start, o.kind, o.param)
    else if m == 2 then o.after
    else if m < Rounds(o) then Trimmed(o)
    else Stamped(Trimmed(o), OpNone, 0)
  }

  ghost function Trimmed(o: Op): Header {
    if o.trims then o.after.(history := o.history) else o.after
  }

  ghost function Final(o: Op): Header {
    Stamped(Trimmed(o), OpNone, 0)
  }

  /** Copy `w`, started with ring data `d`, after `m` rounds. */
  ghost function CopyAfter(o: Op, w: nat, d: Disk, m: nat): Copy {
    Copy(HeaderAfter(o, m), if m < 2 then d else RunDisk(d, RoundBody(o, w, 1)))
  }

  ghost predicate Ready(o: Op, p: Pool) {
    p.c0.h == o.start && p.c1.h == o.start && !o.start.dirty && !o.after.dirty &&
    KeepsDirty(o.b0) && KeepsDirty(o.b1) &&
    RunHeader(HeaderAfter(o, 1), o.b0) == o.after && RunHeader(HeaderAfter(o, 1), o.b1) == o.after
  }

  lemma RoundKeepsDirty(o: Op, w: nat, m: nat)
    requires KeepsDirty(o.b0) && KeepsDirty(o.b1)
    ensures KeepsDirty(RoundBody(o, w, m))
  {
  }

  /** One round takes a copy from its state after `m` rounds to its state after `m + 1`. */
  lemma RoundEffect(o: Op, p: Pool, w: nat, d: Disk, m: nat)
    requires Ready(o, p) && m < Rounds(o)
    ensures RunHeader(HeaderAfter(o, m), RoundBody(o, w, m)) == HeaderAfter(o, m + 1)
    ensures RunDisk(CopyAfter(o, w, d, m).disk, RoundBody(o, w, m)) == CopyAfter(o, w, d, m + 1).disk
  {
    var h := HeaderAfter(o, m);
    if m == 0 {
      RunHeaderStamp(h, o.kind, o.param);
    } else if m + 1 == Rounds(o) {
      RunHeaderStamp(h, OpNone, 0);
    } else if m == 2 {
      RunHeaderSnoc(h, [], SetHistory(o.history));
      assert [] + [SetHistory(o.history)] == [SetHistory(o.history)];
    }
    if m != 1 {
      RunDiskNoSlots(CopyAfter(o, w, d, m).disk, RoundBody(o, w, m));
    }
  }

  ghost function PoolAfter(o: Op, p: Pool, m0: nat, m1: nat): Pool {
    Pool(CopyAfter(o, 0, p.c0.disk, m0), CopyAfter(o, 1, p.c1.disk, m1))
  }

  lemma HeadersClean(o: Op, p: Pool, m: nat)
    requires Ready(o, p)
    ensures !HeaderAfter(o, m).dirty
  {
  }

  lemma RoundOnCopy(o: Op, p: Pool, w: nat, m: nat, c: Copy)
    requires Ready(o, p) && m < Rounds(o) && c == CopyAfter(o, w, CopyOf(p, w).disk, m)
    ensures RunCopy(c, ScopeStores(Scope(w, RoundBody(o, w, m)))) == CopyAfter(o, w, CopyOf(p, w).disk, m + 1)
  {
    RoundKeepsDirty(o, w, m);
    ScopeEffect(c, Scope(w, RoundBody(o, w, m)));
    RoundEffect(o, p, w, CopyOf(p, w).disk, m);
    HeadersClean(o, p, m + 1);
  }

  lemma RoundOnPool(o: Op, p: Pool, w: nat, m: nat)
    requires Ready(o, p) && m < Rounds(o) && w < 2
    ensures
      var q := PoolAfter(o, p, m + w, m);
      WithCopy(q, w, RunCopy(CopyOf(q, w), ScopeStores(Scope(w, RoundBody(o, w, m))))) == PoolAfter(o, p, m + 1, m + w)
  {
    RoundOnCopy(o, p, w, m, CopyOf(PoolAfter(o, p, m + w, m), w));
  }

  /** The pool after `i` dirty scopes: copy 0 runs ahead by at most one round. */
  lemma {:induction false} Stages(o: Op, p: Pool, i: nat)
    requires Ready(o, p) && i <= 2 * Rounds(o)
    ensures RunScopes(p, OpScopes(o)[..i]) == PoolAfter(o, p, (i + 1) / 2, i / 2)
  {
    if i > 0 {
      var j := i - 1;
      var w, m := j % 2, j / 2;
      var prog := OpScopes(o);
      Stages(o, p, j);
      RunScopesPrefix(p, prog, j);
      assert prog[j] == Scope(w, RoundBody(o, w, m));
      RoundOnPool(o, p, w, m);
    }
  }

  /** The pool the operation leaves when nothing crashes. */
  lemma Completed(o: Op, p: Pool)
    requires Ready(o, p)
    ensures Run(p, Flatten(OpScopes(o))) == PoolAfter(o, p, Rounds(o), Rounds(o))
  {
    var prog := OpScopes(o);
    RunFlatten(p, prog);
    StagesOfBoth(o, p, Rounds(o), prog);
  }

  /** Both copies have completed `m` rounds. */
  lemma StagesOfBoth(o: Op, p: Pool, m: nat, done: seq<Scope>)
    requires Ready(o, p) && m <= Rounds(o) && done == OpScopes(o)[..2 * m]
    ensures RunScopes(p, done) == PoolAfter(o, p, m, m)
  {
    Stages(o, p, 2 * m);
    assert (2 * m + 1) / 2 == m;
  }

  // ---- crash points ----

  /** Stores issued before scope `i` opens. */
  ghost function Issued(o: Op, i: nat): nat
    requires i <= 2 * Rounds(o)
  {
    |Flatten(OpScopes(o)[..i])|
  }

  lemma IssuedStep(o: Op, i: nat)
    requires i < 2 * Rounds(o)
    ensures Issued(o, i + 1) == Issued(o, i) + |RoundBody(o, i % 2, i / 2)| + 2
  {
    var s := OpScopes(o)[i];
    assert OpScopes(o)[..i + 1] == OpScopes(o)[..i] + [s];
    FlattenSnoc(OpScopes(o)[..i], s);
  }

  lemma {:induction false} IssuedGrows(o: Op, i: nat, j: nat)
    requires i <= j <= 2 * Rounds(o)
    ensures Issued(o, i) <= Issued(o, j)
    decreases j
  {
    if i < j {
      IssuedStep(o, j - 1);
      IssuedGrows(o, i, j - 1);
    }
  }

  /** A store of an earlier scope comes before every store of a later one. */
  lemma StoreBefore(o: Op, i: nat, j: nat, x: nat)
    requires i < x <= 2 * Rounds(o) && (j > 0 ==> j <= |RoundBody(o, i % 2, i / 2)| + 1)
    ensures Issued(o, i) + j < Issued(o, x)
  {
    IssuedStep(o, i);
    IssuedGrows(o, i + 1, x);
  }

  lemma IssuedEarly(o: Op)
    ensures Issued(o, 0) == 0 && Issued(o, 1) == 4 && Issued(o, 2) == 8 && Issued(o, 3) == 10 + |o.b0|
  {
    IssuedStep(o, 0);
    IssuedStep(o, 1);
    IssuedStep(o, 2);
  }

  /**
    What healing hands to replay when the process dies after `k` stores, in
    scope `i` with `j` of its stores issued. Between scopes nothing is healed.
    A crash inside a scope on copy 1 moves copy 1 on to the round copy 0 has
    completed. A crash inside a scope on copy 0 takes its header back to the
    round before, but leaves in its ring data what the scope had stored.
   */
  ghost predicate Healed(o: Op, p: Pool, i: nat, j: nat, g: Pool) {
    var m := i / 2;
    i <= 2 * Rounds(o) && Clean(g) &&
    if j == 0 then g == PoolAfter(o, p, (i + 1) / 2, i / 2)
    else
      i < 2 * Rounds(o) && j <= |RoundBody(o, i % 2, m)| + 1 &&
      if i % 2 == 0 then
        var c := CopyAfter(o, 0, p.c0.disk, m);
        g.c0 == Copy(c.h, RunDisk(c.disk, RoundBody(o, 0, m)[..j - 1])) &&
        g.c1 == CopyAfter(o, 1, p.c1.disk, m)
      else
        g.c0 == CopyAfter(o, 0, p.c0.disk, m + 1) && g.c1.h == HeaderAfter(o, m + 1)
  }

  lemma HealedInside(o: Op, p: Pool, i: nat, j: nat, q: Pool)
    requires Ready(o, p) && i < 2 * Rounds(o) && 0 < j <= |RoundBody(o, i % 2, i / 2)| + 1
    requires
      var m, w := PoolAfter(o, p, (i + 1) / 2, i / 2), i % 2;
      q == WithCopy(m, w, RunCopy(CopyOf(m, w), [SetDirty(true)] + RoundBody(o, w, i / 2)[..j - 1]))
    ensures Healed(o, p, i, j, Heal(q))
  {
    HeadersClean(o, p, (i + 1) / 2);
    HeadersClean(o, p, i / 2);
    RoundKeepsDirty(o, i % 2, i / 2);
    HealDeadScope(PoolAfter(o, p, (i + 1) / 2, i / 2), i % 2, RoundBody(o, i % 2, i / 2)[..j - 1], q);
  }

  /** The classification for every crash point. */
  lemma CrashAnywhere(o: Op, p: Pool, k: nat) returns (i: nat, j: nat)
    requires Ready(o, p) && k <= |Flatten(OpScopes(o))|
    ensures Healed(o, p, i, j, Heal(Run(p, Flatten(OpScopes(o))[..k])))
    ensures k == Issued(o, i) + j
  {
    i, j := CrashPoint(p, OpScopes(o), k);
    var q := Run(p, Flatten(OpScopes(o))[..k]);
    Stages(o, p, i);
    if j > 0 {
      HealedInside(o, p, i, j, q);
    } else {
      HeadersClean(o, p, (i + 1) / 2);
      HeadersClean(o, p, i / 2);
    }
  }

  /** Outside the body round of copy 0 its ring data is whole. */
  lemma WholeRingData(o: Op, p: Pool, i: nat, j: nat, g: Pool)
    requires Ready(o, p) && Healed(o, p, i, j, g) && i != 2
    ensures
      var m := if j > 0 && i % 2 == 0 then i / 2 else (i + 1) / 2;
      g.c0 == CopyAfter(o, 0, p.c0.disk, m)
  {
    if j > 0 && i % 2 == 0 {
      RunDiskNoSlots(CopyAfter(o, 0, p.c0.disk, i / 2).disk, RoundBody(o, 0, i / 2)[..j - 1]);
    }
  }

  /** Rounds completed, after healing, by copy `w` when scope `i` had issued `j` stores. */
  ghost function RoundsHealed(i: nat, j: nat, w: nat): nat {
    if j == 0 then (if w == 0 then (i + 1) / 2 else i / 2)
    else i / 2 + i % 2
  }

  lemma HealedRounds(o: Op, p: Pool, i: nat, j: nat, g: Pool)
    requires Ready(o, p) && Healed(o, p, i, j, g)
    ensures
      var m0, m1 := RoundsHealed(i, j, 0), RoundsHealed(i, j, 1);
      g.c0.h == HeaderAfter(o, m0) && g.c1.h == HeaderAfter(o, m1) && m1 <= m0 <= m1 + 1 && m0 <= Rounds(o)
  {
  }

  lemma RingDataElsewhere(o: Op, p: Pool, i: nat, j: nat, g: Pool)
    requires Ready(o, p) && Healed(o, p, i, j, g) && (i == 2 ==> j == 0)
    ensures g.c0 == CopyAfter(o, 0, p.c0.disk, RoundsHealed(i, j, 0))
    ensures i == 0 ==> g == p
    ensures RunDisk(p.c0.disk, o.b0[..0]) == p.c0.disk
  {
    if i != 2 {
      WholeRingData(o, p, i, j, g);
    }
  }

  lemma BodyScopeIsTwo(o: Op, i: nat, j: nat)
    requires i <= 2 * Rounds(o) && (j > 0 ==> i < 2 * Rounds(o) && j <= |RoundBody(o, i % 2, i / 2)| + 1)
    ensures Issued(o, i) + j < 4 <==> i == 0
    ensures 8 < Issued(o, i) + j < 10 + |o.b0| <==> i == 2 && j > 0
    ensures i == 2 ==> Issued(o, i) == 8
  {
    IssuedEarly(o);
    if i == 0 {
      StoreBefore(o, 0, j, 1);
    } else if i == 1 {
      StoreBefore(o, 1, j, 2);
    } else if i == 2 {
      StoreBefore(o, 2, j, 3);
    } else {
      IssuedGrows(o, 3, i);
    }
  }

  /**
    An operation whose body may be repeated after up to `safe` of its stores,
    and after it is complete, is atomic for copy 0 outside of the rest of the
    body's dirty scope.
   */
  lemma AtomicOutside(e: nat, o: Op, p: Pool, safe: nat, k: nat)
    requires Ready(o, p) && k <= |Flatten(OpScopes(o))|
    requires forall i: nat, j: nat, g: Pool :: Healed(o, p, i, j, g) && (i == 2 ==> j <= 1 + safe) ==>
               Recover(e, g).c0 == if i == 0 then p.c0 else CopyAfter(o, 0, p.c0.disk, Rounds(o))
    requires !(9 + safe < k < 10 + |o.b0|)
    ensures
      var r, done := Recover(e, Run(p, Flatten(OpScopes(o))[..k])), Run(p, Flatten(OpScopes(o)));
      r.c0 == if k < 4 then p.c0 else done.c0
  {
    Completed(o, p);
    var i, j := CrashAnywhere(o, p, k);
    BodyScopeIsTwo(o, i, j);
    var crash := Run(p, Flatten(OpScopes(o))[..k]);
    assert Recover(e, crash) == Recover(e, Heal(crash));
  }

  // ---- replay ----

  lemma RunHistory(m: Pool, x: nat)
    ensures RunScopes(m, [Scope(0, [SetHistory(x)]), Scope(1, [SetHistory(x)])]) ==
            Pool(Copy(m.c0.h.(history := x, dirty := false), m.c0.disk),
                 Copy(m.c1.h.(history := x, dirty := false), m.c1.disk))
  {
    RunScopesBoth(m, [SetHistory(x)], [SetHistory(x)]);
    RunHeaderSnoc(m.c0.h, [], SetHistory(x));
    RunHeaderSnoc(m.c1.h, [], SetHistory(x));
    assert [] + [SetHistory(x)] == [SetHistory(x)];
    RunDiskNoSlots(m.c0.disk, [SetHistory(x)]);
    RunDiskNoSlots(m.c1.disk, [SetHistory(x)]);
  }

  /** One copy after a body, the history update if `trim`, and the clear. */
  ghost function Replayed(c: Copy, b: seq<Store>, trim: bool, x: nat): Copy {
    var h := RunHeader(c.h, b).(dirty := false, kind := OpNone, param := 0);
    Copy(if trim then h.(history := x) else h, RunDisk(c.disk, b))
  }

  lemma RunReplay(q: Pool, b0: seq<Store>, b1: seq<Store>, trim: bool, x: nat)
    requires KeepsDirty(b0) && KeepsDirty(b1)
    ensures
      var history := if trim then [Scope(0, [SetHistory(x)]), Scope(1, [SetHistory(x)])] else [];
      RunScopes(q, [Scope(0, b0), Scope(1, b1)] + history + ClearScopes()) ==
      Pool(Replayed(q.c0, b0, trim, x), Replayed(q.c1, b1, trim, x))
  {
    var body := [Scope(0, b0), Scope(1, b1)];
    var history := if trim then [Scope(0, [SetHistory(x)]), Scope(1, [SetHistory(x)])] else [];
    RunScopesBoth(q, b0, b1);
    RunScopesConcat(q, body, history);
    RunHistory(RunScopes(q, body), x);
    RunScopesConcat(q, body + history, ClearScopes());
    RunStamp(RunScopes(q, body + history), OpNone, 0);
  }
}
