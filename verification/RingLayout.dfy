/**
  Where versions live before and after a ring changes size, and the header
  each body leaves behind. A ring of `n` chunks and its doubled form share the
  chunk list `ids`: the first `n` ids are the head, the next `n` the tail.
 */
module RingLayout {
  import opened PowerOfTwo
  import opened RingPool
  import opened ShrinkGrow

  /** Real chunk ids, none twice. */
  ghost predicate ChunkIds(ids: seq<nat>) {
    ids == [] || (ids[0] != NULL_CHUNK && ids[0] != 0 && ids[0] !in ids[1..] && ChunkIds(ids[1..]))
  }

  lemma {:induction false} ChunkIdAt(ids: seq<nat>, k: nat)
    requires ChunkIds(ids) && k < |ids|
    ensures ids[k] != NULL_CHUNK && ids[k] != 0
  {
    if k > 0 {
      ChunkIdAt(ids[1..], k - 1);
    }
  }

  lemma ChunkIdsMappable(ids: seq<nat>, k: nat)
    requires ChunkIds(ids) && k <= |ids|
    ensures Mappable(ids[k..])
  {
    forall i | 0 <= i < |ids| - k
      ensures ids[k..][i] != NULL_CHUNK && ids[k..][i] != 0
    {
      ChunkIdAt(ids, k + i);
    }
  }

  ghost predicate Empty(r: Ring, lo: nat, hi: nat) {
    hi <= |r.chunks| && forall k :: lo <= k < hi ==> r.chunks[k] == NULL_CHUNK
  }

  ghost predicate Geometry(e: nat, n: nat) {
    e > 0 && IsPow2(e) && n > 0 && IsPow2(n) && 2 * n <= LIST_SLOTS
  }

  /** A header whose primary ring of `2 * n` chunks can give half of them away. */
  ghost predicate Shrinkable(e: nat, h: Header, n: nat) {
    var p, s := RingOf(h, h.primary), RingOf(h, Other(h.primary));
    Geometry(e, n) && h.primary < 2 && |p.chunks| == |s.chunks| == LIST_SLOTS &&
    p.len == 2 * n && ChunkIds(p.chunks[..2 * n]) && Empty(s, 0, n)
  }

  /** A header with both rings active at `n` chunks each. */
  ghost predicate Growable(e: nat, h: Header, n: nat) {
    var p, s := RingOf(h, h.primary), RingOf(h, Other(h.primary));
    Geometry(e, n) && h.primary < 2 && |p.chunks| == |s.chunks| == LIST_SLOTS &&
    p.len == n && s.len == n && ChunkIds(p.chunks[..n] + s.chunks[..n]) && Empty(p, n, 2 * n)
  }

  // ---- addresses ----

  /** Slot of version `v` in the head. */
  ghost function Head(e: nat, n: nat, ids: seq<nat>, v: nat): Addr {
    Entry(e, ids, Slot(v, Capacity(e, n)))
  }

  /** The slot `n` chunks further. */
  ghost function Tail(e: nat, n: nat, ids: seq<nat>, v: nat): Addr {
    Entry(e, ids, Slot(v, Capacity(e, n)) + Capacity(e, n))
  }

  /** Does `v` sit in the tail of the doubled ring? */
  ghost predicate InTail(e: nat, n: nat, v: nat) {
    Slot(v, Capacity(e, 2 * n)) != Slot(v, Capacity(e, n))
  }

  lemma {:induction false} CapacityAdds(e: nat, n: nat, m: nat)
    ensures Capacity(e, n + m) == Capacity(e, n) + Capacity(e, m)
  {
    if m > 0 {
      CapacityAdds(e, n, m - 1);
    }
  }

  lemma CapacityIsPow2(e: nat, n: nat)
    requires Geometry(e, n)
    ensures IsPow2(Capacity(e, n)) && Capacity(e, 2 * n) == 2 * Capacity(e, n)
  {
    CapacityIsProduct(e, n);
    Pow2Times(n, e);
    CapacityAdds(e, n, n);
  }

  /** Positions past the first `n` chunks belong to the rest of the list. */
  lemma {:induction false} EntryDrop(e: nat, n: nat, ids: seq<nat>, pos: nat)
    requires n <= |ids|
    ensures Entry(e, ids, pos + Capacity(e, n)) == Entry(e, ids[n..], pos)
  {
    if n == 0 {
      assert ids[0..] == ids;
    } else {
      EntryDrop(e, n - 1, ids[1..], pos);
      assert ids[1..][n - 1..] == ids[n..];
    }
  }

  /** A position in the first `n` chunks depends on those chunks alone. */
  lemma {:induction false} EntrySame(e: nat, n: nat, a: seq<nat>, b: seq<nat>, pos: nat)
    requires n <= |a| && n <= |b| && a[..n] == b[..n] && pos < Capacity(e, n)
    ensures Entry(e, a, pos) == Entry(e, b, pos)
  {
    if n > 0 {
      assert a[0] == a[..n][0] && b[0] == b[..n][0];
      if pos >= e {
        assert a[1..][..n - 1] == a[..n][1..] && b[1..][..n - 1] == b[..n][1..];
        EntrySame(e, n - 1, a[1..], b[1..], pos - e);
      }
    }
  }

  lemma {:induction false} EntryChunk(e: nat, ids: seq<nat>, pos: nat)
    requires pos < Capacity(e, |ids|)
    ensures Entry(e, ids, pos).chunk in ids
  {
    if ids != [] && pos >= e {
      EntryChunk(e, ids[1..], pos - e);
    }
  }

  /** Distinct span positions are distinct slots, because no chunk appears twice. */
  lemma {:induction false} EntriesDistinct(e: nat, ids: seq<nat>, i: nat, j: nat)
    requires ChunkIds(ids) && i < j < Capacity(e, |ids|)
    ensures Entry(e, ids, i) != Entry(e, ids, j)
    decreases |ids|
  {
    if i < e <= j {
      EntryChunk(e, ids[1..], j - e);
    } else if e <= i {
      EntriesDistinct(e, ids[1..], i - e, j - e);
    }
  }

  lemma SlotsOfVersion(e: nat, n: nat, v: nat)
    requires Geometry(e, n)
    ensures Slot(v, Capacity(e, n)) < Capacity(e, n)
    ensures Slot(v, Capacity(e, 2 * n)) ==
            if InTail(e, n, v) then Slot(v, Capacity(e, n)) + Capacity(e, n) else Slot(v, Capacity(e, n))
  {
    CapacityIsPow2(e, n);
    SlotInRing(v, Capacity(e, n));
    SlotWhenDoubled(v, Capacity(e, n));
  }

  /** Shrinking copies exactly the versions in the tail, from the tail to the head. */
  lemma ShrinkMove(e: nat, n: nat, d: Disk, ids: seq<nat>, v: nat)
    requires Geometry(e, n)
    ensures Move(e, d, ids, Capacity(e, 2 * n), Capacity(e, n), v) ==
            if InTail(e, n, v) then [SetSlot(Head(e, n, ids, v), Read(d, Tail(e, n, ids, v)))] else []
  {
    SlotsOfVersion(e, n, v);
  }

  /** Growing copies the same versions the other way. */
  lemma GrowMove(e: nat, n: nat, d: Disk, ids: seq<nat>, v: nat)
    requires Geometry(e, n)
    ensures Move(e, d, ids, Capacity(e, n), Capacity(e, 2 * n), v) ==
            if InTail(e, n, v) then [SetSlot(Tail(e, n, ids, v), Read(d, Head(e, n, ids, v)))] else []
  {
    SlotsOfVersion(e, n, v);
  }

  /** A head slot is never a tail slot. */
  lemma HeadIsNotTail(e: nat, n: nat, ids: seq<nat>, u: nat, v: nat)
    requires Geometry(e, n) && |ids| == 2 * n && ChunkIds(ids)
    ensures Head(e, n, ids, u) != Tail(e, n, ids, v)
  {
    SlotsOfVersion(e, n, u);
    SlotsOfVersion(e, n, v);
    CapacityIsPow2(e, n);
    EntriesDistinct(e, ids, Slot(u, Capacity(e, n)), Slot(v, Capacity(e, n)) + Capacity(e, n));
  }

  // ---- what the move and fill loops write ----

  lemma {:induction false} ShrinkMovesWriteHeads(e: nat, n: nat, d: Disk, ids: seq<nat>, lo: nat, hi: nat, i: nat)
    requires Geometry(e, n) && i < |Moves(e, d, ids, Capacity(e, 2 * n), Capacity(e, n), lo, hi)|
    ensures exists v :: lo <= v < hi && InTail(e, n, v) && Moves(e, d, ids, Capacity(e, 2 * n), Capacity(e, n), lo,
                                                                 hi)[i] ==
                        SetSlot(Head(e, n, ids, v), Read(d, Tail(e, n, ids, v)))
    decreases hi
  {
    ShrinkMove(e, n, d, ids, hi - 1);
    if i < |Moves(e, d, ids, Capacity(e, 2 * n), Capacity(e, n), lo, hi - 1)| {
      ShrinkMovesWriteHeads(e, n, d, ids, lo, hi - 1, i);
    }
  }

  lemma {:induction false} GrowMovesWriteTails(e: nat, n: nat, d: Disk, ids: seq<nat>, lo: nat, hi: nat, i: nat)
    requires Geometry(e, n) && i < |Moves(e, d, ids, Capacity(e, n), Capacity(e, 2 * n), lo, hi)|
    ensures exists v :: lo <= v < hi && InTail(e, n, v) && Moves(e, d, ids, Capacity(e, n), Capacity(e, 2 * n), lo,
                                                                 hi)[i] ==
                        SetSlot(Tail(e, n, ids, v), Read(d, Head(e, n, ids, v)))
    decreases hi
  {
    GrowMove(e, n, d, ids, hi - 1);
    if i < |Moves(e, d, ids, Capacity(e, n), Capacity(e, 2 * n), lo, hi - 1)| {
      GrowMovesWriteTails(e, n, d, ids, lo, hi - 1, i);
    }
  }

  lemma {:induction false} FillAt(e: nat, ids: seq<nat>, lo: nat, hi: nat, i: nat)
    requires e > 0 && lo <= hi
    ensures |Fill(e, ids, lo, hi)| == hi - lo
    ensures i < hi - lo ==> Fill(e, ids, lo, hi)[i] == SetSlot(Entry(e, ids, lo + i), INVALID_OFFSET)
    decreases hi
  {
    if lo < hi {
      FillAt(e, ids, lo, hi - 1, if i < hi - 1 - lo then i else 0);
    }
  }

  /** The move list depends only on the slots it reads. */
  lemma {:induction false} MovesSame(e: nat, d: Disk, x: Disk, ids: seq<nat>, from: nat, to: nat, lo: nat, hi: nat)
    requires e > 0
    requires forall v :: lo <= v < hi ==> Move(e, d, ids, from, to, v) == Move(e, x, ids, from, to, v)
    ensures Moves(e, d, ids, from, to, lo, hi) == Moves(e, x, ids, from, to, lo, hi)
    decreases hi
  {
    if lo < hi {
      MovesSame(e, d, x, ids, from, to, lo, hi - 1);
    }
  }

  lemma ShrinkMovesSame(e: nat, n: nat, d: Disk, x: Disk, ids: seq<nat>, lo: nat, hi: nat)
    requires Geometry(e, n)
    requires forall v :: lo <= v < hi ==> Read(d, Tail(e, n, ids, v)) == Read(x, Tail(e, n, ids, v))
    ensures Moves(e, d, ids, Capacity(e, 2 * n), Capacity(e, n), lo, hi) ==
            Moves(e, x, ids, Capacity(e, 2 * n), Capacity(e, n), lo, hi)
  {
    forall v | lo <= v < hi
      ensures Move(e, d, ids, Capacity(e, 2 * n), Capacity(e, n), v) ==
              Move(e, x, ids, Capacity(e, 2 * n), Capacity(e, n), v)
    {
      ShrinkMove(e, n, d, ids, v);
      ShrinkMove(e, n, x, ids, v);
    }
    MovesSame(e, d, x, ids, Capacity(e, 2 * n), Capacity(e, n), lo, hi);
  }

  lemma GrowMovesSame(e: nat, n: nat, d: Disk, x: Disk, ids: seq<nat>, lo: nat, hi: nat)
    requires Geometry(e, n)
    requires forall v :: lo <= v < hi ==> Read(d, Head(e, n, ids, v)) == Read(x, Head(e, n, ids, v))
    ensures Moves(e, d, ids, Capacity(e, n), Capacity(e, 2 * n), lo, hi) ==
            Moves(e, x, ids, Capacity(e, n), Capacity(e, 2 * n), lo, hi)
  {
    forall v | lo <= v < hi
      ensures Move(e, d, ids, Capacity(e, n), Capacity(e, 2 * n), v) ==
              Move(e, x, ids, Capacity(e, n), Capacity(e, 2 * n), v)
    {
      GrowMove(e, n, d, ids, v);
      GrowMove(e, n, x, ids, v);
    }
    MovesSame(e, d, x, ids, Capacity(e, n), Capacity(e, 2 * n), lo, hi);
  }

  // ---- headers ----

  lemma {:induction false} SlotStoresKeepHeader(h: Header, ss: seq<Store>)
    requires forall i :: 0 <= i < |ss| ==> ss[i].SetSlot?
    ensures RunHeader(h, ss) == h
    decreases |ss|
  {
    if ss != [] {
      SlotStoresKeepHeader(h, ss[..|ss| - 1]);
    }
  }

  lemma {:induction false} MovesAreSlots(e: nat, d: Disk, ids: seq<nat>, from: nat, to: nat, lo: nat, hi: nat)
    ensures forall i :: 0 <= i < |Moves(e, d, ids, from, to, lo, hi)| ==> Moves(e, d, ids, from, to, lo, hi)[i].SetSlot?
    decreases hi
  {
    if lo < hi {
      MovesAreSlots(e, d, ids, from, to, lo, hi - 1);
    }
  }

  lemma {:induction false} FillsAreSlots(e: nat, ids: seq<nat>, lo: nat, hi: nat)
    ensures forall i :: 0 <= i < |Fill(e, ids, lo, hi)| ==> Fill(e, ids, lo, hi)[i].SetSlot?
    decreases hi
  {
    if lo < hi {
      FillsAreSlots(e, ids, lo, hi - 1);
    }
  }

  /** A list with `src[base..base+m]` emptied. */
  function Emptied(list: seq<nat>, base: nat, m: nat): (r: seq<nat>)
    ensures |r| == |list|
  {
    seq(|list|, k requires 0 <= k < |list| => if base <= k < base + m then NULL_CHUNK else list[k])
  }

  /** A list with `m` ids of `src` written from `base` on. */
  function Received(list: seq<nat>, base: nat, src: seq<nat>, srcBase: nat, m: nat): (r: seq<nat>)
    requires srcBase + m <= |src|
    ensures |r| == |list|
  {
    seq(|list|, k requires 0 <= k < |list| => if base <= k < base + m then src[srcBase + (k - base)] else list[k])
  }

  /** Handing over to empty slots moves the ids in order. */
  lemma {:induction false} TransferMovesIds(h: Header, from: nat, fromBase: nat, toBase: nat, m: nat)
    requires from < 2
    requires fromBase + m <= |RingOf(h, from).chunks|
    requires Empty(RingOf(h, Other(from)), toBase, toBase + m)
    ensures
      var f, t := RingOf(h, from), RingOf(h, Other(from));
      RunHeader(h, Transfer(h, from, fromBase, Other(from), toBase, m)) ==
      WithRing(WithRing(h, from, f.(chunks := Emptied(f.chunks, fromBase, m))),
               Other(from), t.(chunks := Received(t.chunks, toBase, f.chunks, fromBase, m)))
  {
    var f, t := RingOf(h, from), RingOf(h, Other(from));
    if m == 0 {
      assert Emptied(f.chunks, fromBase, 0) == f.chunks;
      assert Received(t.chunks, toBase, f.chunks, fromBase, 0) == t.chunks;
    } else {
      var k := m - 1;
      TransferMovesIds(h, from, fromBase, toBase, k);
      var two := [SetChunk(Other(from), toBase + k, f.chunks[fromBase + k]), SetChunk(from, fromBase + k, NULL_CHUNK)];
      var before := Transfer(h, from, fromBase, Other(from), toBase, k);
      RunHeaderConcat(h, before, two);
      assert two[..1] + two[1..] == two;
      RunHeaderTwo(RunHeader(h, before), two[0], two[1]);
      assert Emptied(f.chunks, fromBase, k)[fromBase + k := NULL_CHUNK] == Emptied(f.chunks, fromBase, m);
      assert Received(t.chunks, toBase, f.chunks, fromBase, k)[toBase + k := f.chunks[fromBase + k]] ==
             Received(t.chunks, toBase, f.chunks, fromBase, m);
    }
  }

  lemma RunHeaderTwo(h: Header, a: Store, b: Store)
    ensures RunHeader(h, [a, b]) == StoreHeader(StoreHeader(h, a), b)
  {
    RunHeaderSnoc(h, [], a);
    RunHeaderSnoc(h, [a], b);
  }

  /** Slots already handed over are skipped. */
  lemma {:induction false} TransferDone(h: Header, from: nat, fromBase: nat, to: nat, toBase: nat, m: nat)
    requires toBase + m <= |RingOf(h, to).chunks|
    requires forall k :: toBase <= k < toBase + m ==> RingOf(h, to).chunks[k] != NULL_CHUNK
    ensures Transfer(h, from, fromBase, to, toBase, m) == []
  {
    if m > 0 {
      TransferDone(h, from, fromBase, to, toBase, m - 1);
    }
  }

  lemma {:induction false} TransfersAreNotSlots(h: Header, from: nat, fromBase: nat, to: nat, toBase: nat, m: nat)
    ensures forall i :: 0 <= i < |Transfer(h, from, fromBase, to, toBase, m)| ==>
              !Transfer(h, from, fromBase, to, toBase, m)[i].SetSlot?
  {
    if m > 0 {
      TransfersAreNotSlots(h, from, fromBase, to, toBase, m - 1);
    }
  }

  // ---- where an entry is ----

  /** Consecutive entries fill one chunk after the other. */
  lemma {:induction false} EntryIs(e: nat, ids: seq<nat>, pos: nat)
    requires e > 0 && pos < |ids| * e
    ensures pos / e < |ids| && Entry(e, ids, pos) == Addr(ids[pos / e], pos % e)
    decreases |ids|
  {
    if pos >= e {
      StillBelow(e, |ids|, pos);
      EntryIs(e, ids[1..], pos - e);
      OneChunkLess(e, pos);
    } else {
      RemainderUnique(pos, e, 0, pos);
    }
  }

  lemma StillBelow(e: nat, n: nat, pos: nat)
    requires e <= pos < n * e
    ensures pos - e < (n - 1) * e
  {
    assert (n - 1) * e == n * e - e;
  }

  lemma OneChunkLess(e: nat, pos: nat)
    requires e > 0 && pos >= e
    ensures pos / e == (pos - e) / e + 1 && pos % e == (pos - e) % e
  {
    var q, r := (pos - e) / e, (pos - e) % e;
    assert pos == (q + 1) * e + r;
    RemainderUnique(pos, e, q + 1, r);
  }

  /** A lookup of a version between the bounds reads entry `v` modulo the capacity, in chunk order. */
  lemma LookupReads(e: nat, c: Copy, v: nat, r: Ring, cap: nat, k: nat, i: nat)
    requires e > 0 && cap > 0 && r == RingOf(c.h, c.h.primary) && cap == r.len * e && IsPow2(cap) && r.len <= |r.chunks|
    requires k == v % cap / e && i == v % cap % e
    ensures k < r.len <= |r.chunks|
    ensures Lookup(e, c, v) == if r.lb <= v < r.nv then Read(c.disk, Addr(r.chunks[k], i)) else INVALID_OFFSET
  {
    SlotInCapacity(e, r.len, v, cap);
    EntryInChunk(e, r.chunks, r.len, v % cap, k, i);
    LookupAt(e, c, v, r, k, i);
  }

  lemma LookupAt(e: nat, c: Copy, v: nat, r: Ring, k: nat, i: nat)
    requires r == RingOf(c.h, c.h.primary) && k < |r.chunks|
    requires Entry(e, r.chunks, Slot(v, Capacity(e, r.len))) == Addr(r.chunks[k], i)
    ensures Lookup(e, c, v) == if r.lb <= v < r.nv then Read(c.disk, Addr(r.chunks[k], i)) else INVALID_OFFSET
  {
  }

  lemma SlotInCapacity(e: nat, n: nat, v: nat, cap: nat)
    requires cap > 0 && cap == n * e && IsPow2(cap)
    ensures Slot(v, Capacity(e, n)) == v % cap
  {
    CapacityIsProduct(e, n);
    SlotIsRemainder(v, cap);
  }

  lemma EntryInChunk(e: nat, ids: seq<nat>, n: nat, pos: nat, k: nat, i: nat)
    requires e > 0 && n <= |ids| && pos < n * e && k == pos / e && i == pos % e
    ensures k < n && Entry(e, ids, pos) == Addr(ids[k], i)
  {
    QuotientBelow(pos, e, n);
    MultiplesApart(e, n, |ids|);
    EntryIs(e, ids, pos);
  }

  lemma QuotientBelow(x: nat, e: nat, n: nat)
    requires e > 0 && x < n * e
    ensures x / e < n
  {
    MultiplesApart(e, n, x / e);
    assert x == (x / e) * e + x % e;
  }
}
