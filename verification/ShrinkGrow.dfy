/**
  The three protected operations on the rings -- activate, deactivate and
  promote the secondary timeline -- as the store sequences they issue, and the
  recovery that runs when the pool is opened again.
 */
module ShrinkGrow {
  import opened PowerOfTwo
  import opened RingPool

  function Max(a: nat, b: nat): nat {
    if a < b then b else a
  }

  function Other(pi: nat): nat {
    if pi == 0 then 1 else 0
  }

  function ChunkAt(r: Ring, k: nat): nat {
    if k < |r.chunks| then r.chunks[k] else NULL_CHUNK
  }

  /** Entries in `n` chunks of `e` entries each: the product `n * e`, as `CapacityIsProduct` shows. */
  function Capacity(e: nat, n: nat): nat {
    if n == 0 then 0 else Capacity(e, n - 1) + e
  }

  lemma {:induction false} CapacityIsProduct(e: nat, n: nat)
    ensures Capacity(e, n) == n * e
  {
    if n > 0 {
      CapacityIsProduct(e, n - 1);
      assert n * e == (n - 1) * e + e;
    }
  }

  /** Entry `pos` of a span whose slots map the chunks `ids`, `e` entries each. */
  function Entry(e: nat, ids: seq<nat>, pos: nat): Addr {
    if ids == [] then Addr(NULL_CHUNK, pos)
    else if pos < e then Addr(ids[0], pos)
    else Entry(e, ids[1..], pos - e)
  }

  // ---- pieces shared by activate and deactivate ----

  /** Copy version `v` from its slot under `from` entries to its slot under `to` entries. */
  function Move(e: nat, d: Disk, ids: seq<nat>, from: nat, to: nat, v: nat): seq<Store>
  {
    if Slot(v, from) == Slot(v, to) then []
    else [SetSlot(Entry(e, ids, Slot(v, to)), Read(d, Entry(e, ids, Slot(v, from))))]
  }

  /** The move loop over versions [lo, hi). */
  function Moves(e: nat, d: Disk, ids: seq<nat>, from: nat, to: nat, lo: nat, hi: nat): seq<Store>
    decreases hi
  {
    if hi <= lo then [] else Moves(e, d, ids, from, to, lo, hi - 1) + Move(e, d, ids, from, to, hi - 1)
  }

  /** The 0xff fill of span positions [lo, hi). */
  function Fill(e: nat, ids: seq<nat>, lo: nat, hi: nat): seq<Store>
    decreases hi
  {
    if hi <= lo then [] else Fill(e, ids, lo, hi - 1) + [SetSlot(Entry(e, ids, hi - 1), INVALID_OFFSET)]
  }

  /** Hand `m` chunk ids from one ring's list to the other's, skipping slots already handed over. */
  function Transfer(h: Header, from: nat, fromBase: nat, to: nat, toBase: nat, m: nat): seq<Store> {
    if m == 0 then []
    else
      var k := m - 1;
      Transfer(h, from, fromBase, to, toBase, k) +
      if ChunkAt(RingOf(h, to), toBase + k) != NULL_CHUNK then []
      else [SetChunk(to, toBase + k, ChunkAt(RingOf(h, from), fromBase + k)),
            SetChunk(from, fromBase + k, NULL_CHUNK)]
  }

  /** The id `a` unless that slot is empty, else `b`. */
  function Either(a: nat, b: nat): nat {
    if a != NULL_CHUNK then a else b
  }

  // ---- activate ----

  function ShrunkLb(e: nat, r: Ring, n: nat): nat {
    Max(r.lb, if r.nv >= Capacity(e, n) then r.nv - Capacity(e, n) else 0)
  }

  /** The chunks behind the primary's span while it holds `n + m` chunks and `m` of them change owner. */
  function PrimarySpan(h: Header, pi: nat, n: nat, m: nat): (ids: seq<nat>)
    ensures |ids| == n + m
  {
    var p, s := RingOf(h, pi), RingOf(h, Other(pi));
    seq(n + m, k requires k >= 0 =>
      if k < n then ChunkAt(p, k) else Either(ChunkAt(p, k), ChunkAt(s, k - n)))
  }

  /** The chunks behind the secondary's span after it receives `n` chunks. */
  function SecondarySpan(h: Header, pi: nat, n: nat): (ids: seq<nat>)
    ensures |ids| == n
  {
    var p, s := RingOf(h, pi), RingOf(h, Other(pi));
    seq(n, k requires k >= 0 => Either(ChunkAt(s, k), ChunkAt(p, n + k)))
  }

  /** Stores of `do_activate_secondary_body_` to one copy, shrinking the primary to `n` chunks. */
  function ActivateBody(e: nat, c: Copy, pi: nat, n: nat): seq<Store>
  {
    ActivateBeforeFill(e, c, pi, n) +
    Fill(e, SecondarySpan(c.h, pi, n), 0, Capacity(e, n)) +
    ActivateCommit(pi, n)
  }

  function ActivateBeforeFill(e: nat, c: Copy, pi: nat, n: nat): seq<Store>
  {
    var p := RingOf(c.h, pi);
    var newLb := ShrunkLb(e, p, n);
    (if newLb > p.lb then [SetLb(pi, newLb)] else []) +
    (if p.len == n then []
     else Moves(e, c.disk, PrimarySpan(c.h, pi, n, n), Capacity(e, 2 * n), Capacity(e, n), newLb, p.nv)) +
    Transfer(c.h, pi, n, Other(pi), 0, n)
  }

  function ActivateCommit(pi: nat, n: nat): seq<Store> {
    [SetLb(Other(pi), 0), SetNv(Other(pi), 0), SetLen(pi, n), SetLen(Other(pi), n), SetActive(true)]
  }

  /** `update_history_length_metadata` when the history no longer fits the shrunken ring. */
  function HistoryScopes(e: nat, p: Pool, n: nat): seq<Scope> {
    if p.c0.h.history > Capacity(e, n)
    then var x := Max(Capacity(e, n), MIN_HISTORY_LENGTH);
      [Scope(0, [SetHistory(x)]), Scope(1, [SetHistory(x)])]
    else []
  }

  function ActivateScopes(e: nat, p: Pool, n: nat): seq<Scope>
  {
    var pi := p.c0.h.primary;
    [Scope(0, ActivateBody(e, p.c0, pi, n)), Scope(1, ActivateBody(e, p.c1, pi, n))] +
    HistoryScopes(e, p, n)
  }

  // ---- deactivate ----

  /** Stores of `do_deactivate_secondary_body_` to one copy, growing the primary to `n` chunks. */
  function DeactivateBody(e: nat, c: Copy, pi: nat, n: nat): seq<Store>
  {
    var p := RingOf(c.h, pi);
    var returning := if p.len <= n then n - p.len else 0;
    Transfer(c.h, Other(pi), 0, pi, p.len, returning) +
    (if returning == 0 then []
     else
       var ids := PrimarySpan(c.h, pi, p.len, returning);
       Fill(e, ids, Capacity(e, p.len), Capacity(e, n)) +
       Moves(e, c.disk, ids, Capacity(e, p.len), Capacity(e, n), p.lb, p.nv)) +
    [SetLen(pi, n), SetLen(Other(pi), 0), SetActive(false)]
  }

  function DeactivateScopes(e: nat, p: Pool, n: nat): seq<Scope>
  {
    var pi := p.c0.h.primary;
    [Scope(0, DeactivateBody(e, p.c0, pi, n)), Scope(1, DeactivateBody(e, p.c1, pi, n))]
  }

  // ---- promote ----

  function PromoteScopes(target: nat): seq<Scope> {
    [Scope(0, [SetPrimary(target)]), Scope(1, [SetPrimary(target)])]
  }

  // ---- intent record ----

  function StampScopes(kind: OpKind, param: nat): seq<Scope> {
    [Scope(0, [SetKind(kind), SetParam(param)]), Scope(1, [SetKind(kind), SetParam(param)])]
  }

  function ClearScopes(): seq<Scope> {
    StampScopes(OpNone, 0)
  }

  function BodyScopes(e: nat, p: Pool, kind: OpKind, param: nat): seq<Scope>
  {
    match kind
    case OpNone => []
    case OpActivate => ActivateScopes(e, p, param)
    case OpDeactivate => DeactivateScopes(e, p, param)
    case OpPromote => PromoteScopes(param)
  }

  /** A whole protected operation started on pool `p`: stamp, body, clear. */
  function Program(e: nat, p: Pool, kind: OpKind, param: nat): seq<Scope>
  {
    StampScopes(kind, param) + BodyScopes(e, p, kind, param) + ClearScopes()
  }

  /** `activate_secondary_header` halves the primary's chunk count. */
  function ActivateParam(h: Header): nat {
    RingOf(h, h.primary).len / 2
  }

  /** `deactivate_secondary_header` gives the secondary's chunks back to the primary. */
  function DeactivateParam(h: Header): nat {
    RingOf(h, h.primary).len + RingOf(h, Other(h.primary)).len
  }

  // ---- recovery at open ----

  /** Dirty recovery: a dirty header is overwritten by the clean one; ring data is not copied. */
  function Heal(p: Pool): Pool {
    if p.c0.h.dirty then p.(c0 := p.c0.(h := p.c1.h.(dirty := false)))
    else if p.c1.h.dirty then p.(c1 := p.c1.(h := p.c0.h.(dirty := false)))
    else p
  }

  function PendingHeader(p: Pool): Header {
    if p.c0.h.kind != OpNone then p.c0.h else p.c1.h
  }

  /** A span slot that can be mapped: `install_chunk_mapping_` aborts on chunk 0, its callers on NULL_CHUNK. */
  ghost predicate Mappable(ids: seq<nat>) {
    forall k :: 0 <= k < |ids| ==> ids[k] != NULL_CHUNK && ids[k] != 0
  }

  /** The assertions of the activate body on one copy. */
  ghost predicate ActivateAccepts(h: Header, pi: nat, n: nat) {
    var p := RingOf(h, pi);
    (p.len == n || p.len == 2 * n) &&
    (p.len == 2 * n ==> Mappable(PrimarySpan(h, pi, n, n)[n..])) && Mappable(SecondarySpan(h, pi, n))
  }

  /** The assertions of the deactivate body on one copy. */
  ghost predicate DeactivateAccepts(h: Header, pi: nat, n: nat) {
    var p := RingOf(h, pi);
    (p.len == n || 2 * p.len == n) && Mappable(PrimarySpan(h, pi, p.len, n - p.len)[p.len..])
  }

  /** The assertions of `replay_pending_shrink_grow_`: it does not abort. */
  ghost predicate ReplayAccepts(p: Pool) {
    var h0, h1, h := p.c0.h, p.c1.h, PendingHeader(p);
    (h0.kind != OpNone && h1.kind != OpNone ==> h0.kind == h1.kind && h0.param == h1.param) &&
    match h.kind
    case OpNone => true
    case OpActivate => ActivateAccepts(h0, h0.primary, h.param) && ActivateAccepts(h1, h0.primary, h.param)
    case OpDeactivate => DeactivateAccepts(h0, h0.primary, h.param) && DeactivateAccepts(h1, h0.primary, h.param)
    case OpPromote => h.param < 2
  }

  /** `replay_pending_shrink_grow_`. */
  function ReplayScopes(e: nat, p: Pool): seq<Scope>
  {
    var h := PendingHeader(p);
    if h.kind == OpNone then [] else BodyScopes(e, p, h.kind, h.param) + ClearScopes()
  }

  /** Opening a pool: heal, then replay. */
  function Recover(e: nat, p: Pool): Pool
  {
    RunScopes(Heal(p), ReplayScopes(e, Heal(p)))
  }

  // ---- lookups through copy 0 ----

  /** `get_root_offset_at_version` on the ring in the primary role. */
  function Lookup(e: nat, c: Copy, v: nat): Offset
  {
    var r := RingOf(c.h, c.h.primary);
    if r.lb <= v < r.nv then RawLookup(e, c, v) else INVALID_OFFSET
  }

  /** The ring entry of version `v`, whatever the version bounds say. */
  function RawLookup(e: nat, c: Copy, v: nat): Offset
  {
    var r := RingOf(c.h, c.h.primary);
    Read(c.disk, Entry(e, r.chunks, Slot(v, Capacity(e, r.len))))
  }
}
