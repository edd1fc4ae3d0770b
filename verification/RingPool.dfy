/**
  The durable state of a storage pool as `DbMetadataContext` sees it: two
  redundant metadata headers, and for each of them the halves of the
  conventional chunks that hold its copy of the root-offset rings.

  Every write is one `Store`. A process that dies leaves behind a prefix of the
  stores it issued, in program order.
 */
module RingPool {
  import opened PowerOfTwo

  type Offset = nat

  const INVALID_OFFSET: Offset := 0xffff_ffff_ffff_ffff
  const NULL_CHUNK: nat := 0xffff_ffff
  const LIST_SLOTS: nat := 31
  const MIN_HISTORY_LENGTH: nat := 300

  datatype OpKind = OpNone | OpActivate | OpDeactivate | OpPromote

  /** `root_offsets_ring_t`: version bounds and the list of chunks backing the ring. */
  datatype Ring = Ring(lb: nat, nv: nat, len: nat, chunks: seq<nat>)

  datatype Header = Header(
    ringA: Ring, ringB: Ring, primary: nat, active: bool,
    kind: OpKind, param: nat, history: nat, dirty: bool)

  /** One ring entry: chunk id and position inside this copy's half of the chunk. */
  datatype Addr = Addr(chunk: nat, idx: nat)

  /** Ring data of one copy. A slot that was never written holds the 0xff fill of a new pool. */
  type Disk = map<Addr, Offset>

  datatype Copy = Copy(h: Header, disk: Disk)

  datatype Pool = Pool(c0: Copy, c1: Copy)

  datatype Store =
    | SetDirty(dirty: bool)
    | SetKind(kind: OpKind)
    | SetParam(param: nat)
    | SetLb(ring: nat, lb: nat)
    | SetNv(ring: nat, nv: nat)
    | SetLen(ring: nat, len: nat)
    | SetChunk(ring: nat, k: nat, id: nat)
    | SetActive(active: bool)
    | SetPrimary(primary: nat)
    | SetHistory(history: nat)
    | SetSlot(addr: Addr, offset: Offset)

  /** A store to metadata copy `which`. */
  datatype Step = Step(which: nat, store: Store)

  /** `auto const g = copy.hold_dirty();` around a list of stores to that copy. */
  datatype Scope = Scope(which: nat, body: seq<Store>)

  function Read(d: Disk, a: Addr): Offset {
    if a in d then d[a] else INVALID_OFFSET
  }

  function RingOf(h: Header, i: nat): Ring {
    if i == 0 then h.ringA else h.ringB
  }

  function WithRing(h: Header, i: nat, r: Ring): Header {
    if i == 0 then h.(ringA := r) else h.(ringB := r)
  }

  function CopyOf(p: Pool, w: nat): Copy {
    if w == 0 then p.c0 else p.c1
  }

  function WithCopy(p: Pool, w: nat, c: Copy): Pool {
    if w == 0 then p.(c0 := c) else p.(c1 := c)
  }

  /** Header effect of one store. */
  function StoreHeader(h: Header, s: Store): Header {
    match s
    case SetDirty(b) => h.(dirty := b)
    case SetKind(k) => h.(kind := k)
    case SetParam(x) => h.(param := x)
    case SetLb(i, x) => WithRing(h, i, RingOf(h, i).(lb := x))
    case SetNv(i, x) => WithRing(h, i, RingOf(h, i).(nv := x))
    case SetLen(i, x) => WithRing(h, i, RingOf(h, i).(len := x))
    case SetChunk(i, k, id) =>
      var r := RingOf(h, i);
      if k < |r.chunks| then WithRing(h, i, r.(chunks := r.chunks[k := id])) else h
    case SetActive(b) => h.(active := b)
    case SetPrimary(i) => h.(primary := i)
    case SetHistory(x) => h.(history := x)
    case SetSlot(_, _) => h
  }

  /** Ring data effect of one store. */
  function StoreDisk(d: Disk, s: Store): Disk {
    match s
    case SetSlot(a, o) => d[a := o]
    case _ => d
  }

  function StoreCopy(c: Copy, s: Store): Copy {
    Copy(StoreHeader(c.h, s), StoreDisk(c.disk, s))
  }

  function RunHeader(h: Header, ss: seq<Store>): Header {
    if ss == [] then h else StoreHeader(RunHeader(h, ss[..|ss| - 1]), ss[|ss| - 1])
  }

  function RunDisk(d: Disk, ss: seq<Store>): Disk {
    if ss == [] then d else StoreDisk(RunDisk(d, ss[..|ss| - 1]), ss[|ss| - 1])
  }

  function RunCopy(c: Copy, ss: seq<Store>): Copy {
    Copy(RunHeader(c.h, ss), RunDisk(c.disk, ss))
  }

  function Apply(p: Pool, s: Step): Pool {
    WithCopy(p, s.which, StoreCopy(CopyOf(p, s.which), s.store))
  }

  function Run(p: Pool, ss: seq<Step>): Pool {
    if ss == [] then p else Apply(Run(p, ss[..|ss| - 1]), ss[|ss| - 1])
  }

  /** The stores of a dirty scope, including raising and dropping the flag. */
  function ScopeStores(s: Scope): seq<Store> {
    [SetDirty(true)] + s.body + [SetDirty(false)]
  }

  function OnCopy(w: nat, ss: seq<Store>): (r: seq<Step>)
    ensures |r| == |ss|
    ensures forall i :: 0 <= i < |ss| ==> r[i] == Step(w, ss[i])
  {
    if ss == [] then [] else OnCopy(w, ss[..|ss| - 1]) + [Step(w, ss[|ss| - 1])]
  }

  /** The store sequence of a program made of dirty scopes. */
  function Flatten(prog: seq<Scope>): seq<Step> {
    if prog == [] then []
    else
      var last := prog[|prog| - 1];
      Flatten(prog[..|prog| - 1]) + OnCopy(last.which, ScopeStores(last))
  }

  /** The pool after whole scopes, scope by scope. */
  function RunScopes(p: Pool, prog: seq<Scope>): Pool {
    if prog == [] then p
    else
      var last := prog[|prog| - 1];
      var q := RunScopes(p, prog[..|prog| - 1]);
      WithCopy(q, last.which, RunCopy(CopyOf(q, last.which), ScopeStores(last)))
  }

  // ---- algebra of runs ----

  lemma {:induction false} RunHeaderConcat(h: Header, a: seq<Store>, b: seq<Store>)
    ensures RunHeader(h, a + b) == RunHeader(RunHeader(h, a), b)
    decreases |b|
  {
    if b == [] {
      assert a + b == a;
    } else {
      assert (a + b)[..|a + b| - 1] == a + b[..|b| - 1];
      RunHeaderConcat(h, a, b[..|b| - 1]);
    }
  }

  lemma RunHeaderSnoc(h: Header, ss: seq<Store>, s: Store)
    ensures RunHeader(h, ss + [s]) == StoreHeader(RunHeader(h, ss), s)
  {
    assert (ss + [s])[..|ss|] == ss;
  }

  lemma {:induction false} RunDiskConcat(d: Disk, a: seq<Store>, b: seq<Store>)
    ensures RunDisk(d, a + b) == RunDisk(RunDisk(d, a), b)
    decreases |b|
  {
    if b == [] {
      assert a + b == a;
    } else {
      assert (a + b)[..|a + b| - 1] == a + b[..|b| - 1];
      RunDiskConcat(d, a, b[..|b| - 1]);
    }
  }

  lemma {:induction false} RunConcat(p: Pool, a: seq<Step>, b: seq<Step>)
    ensures Run(p, a + b) == Run(Run(p, a), b)
    decreases |b|
  {
    if b == [] {
      assert a + b == a;
    } else {
      assert (a + b)[..|a + b| - 1] == a + b[..|b| - 1];
      RunConcat(p, a, b[..|b| - 1]);
    }
  }

  lemma {:induction false} RunOnCopy(p: Pool, w: nat, ss: seq<Store>)
    ensures Run(p, OnCopy(w, ss)) == WithCopy(p, w, RunCopy(CopyOf(p, w), ss))
    decreases |ss|
  {
    if ss != [] {
      var init := ss[..|ss| - 1];
      RunOnCopy(p, w, init);
      assert OnCopy(w, ss)[..|ss| - 1] == OnCopy(w, init);
    }
  }

  lemma ConcatAssociative(x: seq<Step>, y: seq<Step>, z: seq<Step>)
    ensures (x + y) + z == x + (y + z)
  {
  }

  lemma FlattenSnoc(prog: seq<Scope>, s: Scope)
    ensures Flatten(prog + [s]) == Flatten(prog) + OnCopy(s.which, ScopeStores(s))
  {
    assert (prog + [s])[..|prog|] == prog;
  }

  lemma {:induction false} FlattenConcat(a: seq<Scope>, b: seq<Scope>)
    ensures Flatten(a + b) == Flatten(a) + Flatten(b)
    decreases |b|
  {
    if b == [] {
      assert a + b == a;
      assert Flatten(a) + [] == Flatten(a);
    } else {
      var init, last := b[..|b| - 1], b[|b| - 1];
      var tail := OnCopy(last.which, ScopeStores(last));
      calc {
        Flatten(a + b);
        { assert (a + init) + [last] == a + b; FlattenSnoc(a + init, last); }
        Flatten(a + init) + tail;
        { FlattenConcat(a, init); }
        (Flatten(a) + Flatten(init)) + tail;
        { ConcatAssociative(Flatten(a), Flatten(init), tail); }
        Flatten(a) + (Flatten(init) + tail);
        { assert init + [last] == b; FlattenSnoc(init, last); }
        Flatten(a) + Flatten(b);
      }
    }
  }

  lemma {:induction false} RunScopesConcat(p: Pool, a: seq<Scope>, b: seq<Scope>)
    ensures RunScopes(p, a + b) == RunScopes(RunScopes(p, a), b)
    decreases |b|
  {
    if b == [] {
      assert a + b == a;
    } else {
      assert (a + b)[..|a + b| - 1] == a + b[..|b| - 1];
      RunScopesConcat(p, a, b[..|b| - 1]);
    }
  }

  /** Running the flattened program store by store is running it scope by scope. */
  lemma {:induction false} RunFlatten(p: Pool, prog: seq<Scope>)
    ensures Run(p, Flatten(prog)) == RunScopes(p, prog)
    decreases |prog|
  {
    if prog != [] {
      var init, last := prog[..|prog| - 1], prog[|prog| - 1];
      RunFlatten(p, init);
      RunConcat(p, Flatten(init), OnCopy(last.which, ScopeStores(last)));
      RunOnCopy(RunScopes(p, init), last.which, ScopeStores(last));
    }
  }

  /** A crash point lies between two scopes or `j` stores into scope `i`. */
  ghost predicate CrashAt(p: Pool, prog: seq<Scope>, q: Pool, i: nat, j: nat) {
    i <= |prog| &&
    if j == 0 then q == RunScopes(p, prog[..i])
    else
      i < |prog| && j <= |prog[i].body| + 1 &&
      var m := RunScopes(p, prog[..i]);
      var w := prog[i].which;
      q == WithCopy(m, w, RunCopy(CopyOf(m, w), [SetDirty(true)] + prog[i].body[..j - 1]))
  }

  lemma CrashInInit(p: Pool, prog: seq<Scope>, q: Pool, i: nat, j: nat)
    requires prog != [] && CrashAt(p, prog[..|prog| - 1], q, i, j)
    ensures CrashAt(p, prog, q, i, j) && prog[..|prog| - 1][..i] == prog[..i]
  {
    assert prog[..|prog| - 1][..i] == prog[..i];
  }

  lemma LastCut(f: seq<Step>, last: Scope, j: nat)
    requires 0 < j < |ScopeStores(last)|
    ensures (f + OnCopy(last.which, ScopeStores(last)))[..|f| + j] ==
            f + OnCopy(last.which, [SetDirty(true)] + last.body[..j - 1])
  {
    var all, part := ScopeStores(last), [SetDirty(true)] + last.body[..j - 1];
    assert all[..j] == part;
    assert OnCopy(last.which, all)[..j] == OnCopy(last.which, part);
  }

  /** A crash inside scope `last`, after the steps `f` led to `m`. */
  lemma CrashInScope(p: Pool, f: seq<Step>, m: Pool, last: Scope, j: nat, all: seq<Step>, n: nat)
    requires Run(p, f) == m && all == f + OnCopy(last.which, ScopeStores(last)) && 0 < j && n == |f| + j < |all|
    ensures Run(p, all[..n]) == WithCopy(m, last.which, RunCopy(CopyOf(m, last.which),
                                                                [SetDirty(true)] + last.body[..j - 1]))
  {
    var part := [SetDirty(true)] + last.body[..j - 1];
    LastCut(f, last, j);
    RunConcat(p, f, OnCopy(last.which, part));
    RunOnCopy(m, last.which, part);
  }

  lemma CrashInLast(p: Pool, prog: seq<Scope>, n: nat, i: nat, j: nat)
    requires prog != [] && i == |prog| - 1 && n == |Flatten(prog[..i])| + j < |Flatten(prog)| && j > 0
    ensures CrashAt(p, prog, Run(p, Flatten(prog)[..n]), i, j)
  {
    var f, all := Flatten(prog[..i]), Flatten(prog);
    RunFlatten(p, prog[..i]);
    assert all == f + OnCopy(prog[i].which, ScopeStores(prog[i]));
    CrashInScope(p, f, RunScopes(p, prog[..i]), prog[i], j, all, n);
  }

  lemma CrashAtEnd(p: Pool, prog: seq<Scope>)
    ensures CrashAt(p, prog, Run(p, Flatten(prog)[..|Flatten(prog)|]), |prog|, 0) && prog[..|prog|] == prog
  {
    assert prog[..|prog|] == prog && Flatten(prog)[..|Flatten(prog)|] == Flatten(prog);
    RunFlatten(p, prog);
  }

  lemma FlattenInit(prog: seq<Scope>, n: nat)
    requires prog != [] && n <= |Flatten(prog[..|prog| - 1])|
    ensures n <= |Flatten(prog)| && Flatten(prog)[..n] == Flatten(prog[..|prog| - 1])[..n]
  {
  }

  lemma {:induction false} CrashPoint(p: Pool, prog: seq<Scope>, n: nat) returns (i: nat, j: nat)
    requires n <= |Flatten(prog)|
    ensures CrashAt(p, prog, Run(p, Flatten(prog)[..n]), i, j)
    ensures n == |Flatten(prog[..i])| + j
    decreases |prog|
  {
    if n == |Flatten(prog)| {
      CrashAtEnd(p, prog);
      i, j := |prog|, 0;
    } else {
      var init := prog[..|prog| - 1];
      if n <= |Flatten(init)| {
        FlattenInit(prog, n);
        i, j := CrashPoint(p, init, n);
        CrashInInit(p, prog, Run(p, Flatten(init)[..n]), i, j);
      } else {
        i, j := |init|, n - |Flatten(init)|;
        CrashInLast(p, prog, n, i, j);
      }
    }
  }

  // ---- what a list of stores leaves in a ring slot ----

  /** The last value the list writes to `a`, if it writes `a` at all. */
  ghost function LastWrite(ss: seq<Store>, a: Addr): (r: seq<Offset>)
    ensures |r| <= 1
  {
    if ss == [] then []
    else
      var s := ss[|ss| - 1];
      if s.SetSlot? && s.addr == a then [s.offset] else LastWrite(ss[..|ss| - 1], a)
  }

  ghost predicate Writes(ss: seq<Store>, a: Addr) {
    exists i :: 0 <= i < |ss| && ss[i].SetSlot? && ss[i].addr == a
  }

  lemma {:induction false} LastWriteIffWrites(ss: seq<Store>, a: Addr)
    ensures LastWrite(ss, a) != [] <==> Writes(ss, a)
    decreases |ss|
  {
    if ss != [] {
      LastWriteIffWrites(ss[..|ss| - 1], a);
      assert forall i :: 0 <= i < |ss| - 1 ==> ss[..|ss| - 1][i] == ss[i];
    }
  }

  lemma {:induction false} LastWriteConcat(a: seq<Store>, b: seq<Store>, x: Addr)
    ensures LastWrite(a + b, x) == if LastWrite(b, x) != [] then LastWrite(b, x) else LastWrite(a, x)
    decreases |b|
  {
    if b == [] {
      assert a + b == a;
    } else {
      assert (a + b)[..|a + b| - 1] == a + b[..|b| - 1];
      LastWriteConcat(a, b[..|b| - 1], x);
    }
  }

  lemma {:induction false} RunDiskAt(d: Disk, ss: seq<Store>, a: Addr)
    ensures a in RunDisk(d, ss) <==> a in d || LastWrite(ss, a) != []
    ensures LastWrite(ss, a) != [] ==> RunDisk(d, ss)[a] == LastWrite(ss, a)[0]
    ensures LastWrite(ss, a) == [] && a in d ==> RunDisk(d, ss)[a] == d[a]
    decreases |ss|
  {
    if ss != [] {
      RunDiskAt(d, ss[..|ss| - 1], a);
    }
  }

  lemma RunDiskRead(d: Disk, ss: seq<Store>, a: Addr)
    ensures Read(RunDisk(d, ss), a) == if LastWrite(ss, a) != [] then LastWrite(ss, a)[0] else Read(d, a)
  {
    RunDiskAt(d, ss, a);
  }

  /** Two disks that differ only where `ss` writes. */
  ghost predicate AgreeOutside(d: Disk, x: Disk, ss: seq<Store>) {
    forall a: Addr :: !Writes(ss, a) ==> (a in d <==> a in x) && (a in d && a in x ==> d[a] == x[a])
  }

  /** A list of stores erases every difference in the slots it writes. */
  lemma RunErasesDifferences(d: Disk, x: Disk, ss: seq<Store>)
    requires AgreeOutside(d, x, ss)
    ensures RunDisk(x, ss) == RunDisk(d, ss)
  {
    forall a: Addr
      ensures a in RunDisk(x, ss) <==> a in RunDisk(d, ss)
      ensures a in RunDisk(x, ss) ==> RunDisk(x, ss)[a] == RunDisk(d, ss)[a]
    {
      RunDiskAt(d, ss, a);
      RunDiskAt(x, ss, a);
      LastWriteIffWrites(ss, a);
    }
  }

  /** Running any part of `ss` keeps the disk equal to `d` outside of what `ss` writes. */
  lemma PrefixAgreesOutside(d: Disk, x: Disk, ss: seq<Store>, n: nat)
    requires AgreeOutside(d, x, ss) && n <= |ss|
    ensures AgreeOutside(d, RunDisk(x, ss[..n]), ss)
  {
    forall a: Addr | !Writes(ss, a)
      ensures (a in d <==> a in RunDisk(x, ss[..n])) && (a in d ==> d[a] == RunDisk(x, ss[..n])[a])
    {
      RunDiskAt(x, ss[..n], a);
      LastWriteIffWrites(ss[..n], a);
    }
  }

  /** Repeating the tail of a run changes nothing. */
  lemma {:induction false} TailRepeats(d: Disk, a: seq<Store>, b: seq<Store>)
    ensures RunDisk(RunDisk(d, a + b), b) == RunDisk(d, a + b)
  {
    var x := RunDisk(d, a);
    RunDiskConcat(d, a, b);
    forall s: Addr | !Writes(b, s)
      ensures (s in x <==> s in RunDisk(x, b)) && (s in x ==> x[s] == RunDisk(x, b)[s])
    {
      RunDiskAt(x, b, s);
      LastWriteIffWrites(b, s);
    }
    RunErasesDifferences(x, RunDisk(x, b), b);
  }
}
