/**
  The in-place migration of a metadata copy from format MONAD007 to MONAD008,
  byte by byte, and the constructor's handling of a crash during it.
 */
module MetadataMigration {

  type Bytes = seq<nat>

  const OLD_SIZE: nat := 528512
  const OLD_OFFSETS: nat := 524328
  const OLD_LISTS: nat := 528488
  const NEW_SIZE: nat := 4480
  const NEW_LISTS: nat := 4456
  const AUTO_EXPIRE: nat := 296
  const OFFSETS: nat := 312
  const BLOCK_IDS: nat := 368
  const SECONDARY: nat := 432
  const SECONDARY_STORAGE: nat := 448
  const DIRTY: nat := 15

  const OLD_MAGIC: Bytes := [77, 79, 78, 65, 68, 48, 48, 55]
  const NEW_MAGIC: Bytes := [77, 79, 78, 65, 68, 48, 48, 56]

  /** `memcpy(s + at, data)`. */
  function Splice(s: Bytes, at: nat, data: Bytes): (r: Bytes)
    requires at + |data| <= |s|
    ensures |r| == |s|
  {
    s[..at] + data + s[at + |data|..]
  }

  function Fill(n: nat, b: nat): (r: Bytes)
    ensures |r| == n
  {
    seq(n, i => b)
  }

  ghost predicate Disjoint(a: nat, n: nat, b: nat, m: nat) {
    a + n <= b || b + m <= a
  }

  lemma SpliceApart(s: Bytes, at: nat, data: Bytes, a: nat, n: nat)
    requires at + |data| <= |s| && a + n <= |s| && Disjoint(at, |data|, a, n)
    ensures Splice(s, at, data)[a..a + n] == s[a..a + n]
  {
    var x, y := Splice(s, at, data)[a..a + n], s[a..a + n];
    forall k | 0 <= k < n
      ensures x[k] == y[k]
    {
      assert x[k] == Splice(s, at, data)[a + k] == s[a + k];
    }
  }

  lemma SpliceInside(s: Bytes, at: nat, data: Bytes, k: nat, n: nat)
    requires at + |data| <= |s| && k + n <= |data|
    ensures Splice(s, at, data)[at + k..at + k + n] == data[k..k + n]
  {
  }

  /** The stores of `migrate_monad007_to_monad008` in order, each with the bytes it writes. */
  function Stores(m: Bytes, chunks: nat): (r: seq<(nat, Bytes)>)
    requires |m| >= OLD_SIZE + 8 * chunks
  {
    [(NEW_SIZE, m[OLD_SIZE..OLD_SIZE + 8 * chunks]),
     (NEW_LISTS, m[OLD_LISTS..OLD_LISTS + 24]),
     (OFFSETS, m[OLD_OFFSETS..OLD_OFFSETS + 56]),
     (BLOCK_IDS, m[OLD_OFFSETS + 64..OLD_OFFSETS + 128]),
     (AUTO_EXPIRE, m[OLD_OFFSETS + 56..OLD_OFFSETS + 64]),
     (AUTO_EXPIRE + 8, Fill(8, 0)),
     (SECONDARY, Fill(NEW_LISTS - SECONDARY, 0)),
     (0, NEW_MAGIC),
     (SECONDARY_STORAGE, Fill(256, 0xff)),
     (SECONDARY_STORAGE + 4, Fill(4, 0))]
  }

  ghost predicate Fits(s: Bytes, ws: seq<(nat, Bytes)>) {
    forall i :: 0 <= i < |ws| ==> ws[i].0 + |ws[i].1| <= |s|
  }

  function Write(s: Bytes, ws: seq<(nat, Bytes)>): (r: Bytes)
    requires Fits(s, ws)
    ensures |r| == |s|
  {
    if ws == [] then s else Splice(Write(s, ws[..|ws| - 1]), ws[|ws| - 1].0, ws[|ws| - 1].1)
  }

  // ---- what a list of stores leaves behind ----

  ghost predicate Spared(ws: seq<(nat, Bytes)>, from: nat, a: nat, n: nat) {
    forall j :: from <= j < |ws| ==> Disjoint(ws[j].0, |ws[j].1|, a, n)
  }

  lemma {:induction false} WriteSpares(s: Bytes, ws: seq<(nat, Bytes)>, a: nat, n: nat)
    requires Fits(s, ws) && a + n <= |s| && Spared(ws, 0, a, n)
    ensures Write(s, ws)[a..a + n] == s[a..a + n]
    decreases |ws|
  {
    if ws != [] {
      var init, last := ws[..|ws| - 1], ws[|ws| - 1];
      WriteSpares(s, init, a, n);
      SpliceApart(Write(s, init), last.0, last.1, a, n);
    }
  }

  /** The bytes of store `i` that no later store touches. */
  lemma {:induction false} WriteKeeps(s: Bytes, ws: seq<(nat, Bytes)>, i: nat, k: nat, n: nat)
    requires Fits(s, ws) && i < |ws| && k + n <= |ws[i].1| && Spared(ws, i + 1, ws[i].0 + k, n)
    ensures Write(s, ws)[ws[i].0 + k..ws[i].0 + k + n] == ws[i].1[k..k + n]
    decreases |ws|
  {
    var init, last := ws[..|ws| - 1], ws[|ws| - 1];
    if i == |ws| - 1 {
      SpliceInside(Write(s, init), last.0, last.1, k, n);
    } else {
      WriteKeeps(s, init, i, k, n);
      SpliceApart(Write(s, init), last.0, last.1, ws[i].0 + k, n);
    }
  }

  // ---- the migration ----

  function Migrated(m: Bytes, chunks: nat): (r: Bytes)
    requires |m| >= OLD_SIZE + 8 * chunks
    ensures |r| == |m|
  {
    StoresFit(m, chunks);
    Write(m, Stores(m, chunks))
  }

  /**
    Every field arrives unchanged, for every number of chunks, and nothing
    changes behind the chunk list. Positions are byte offsets in the two formats.
   */
  ghost predicate FieldsMoved(m: Bytes, r: Bytes, chunks: nat)
    requires |m| >= 528512 + 8 * chunks && |r| == |m|
  {
    r[..8] == [77, 79, 78, 65, 68, 48, 48, 56] &&                       // "MONAD008"
    r[8..296] == m[8..296] &&                                           // counts, dirty byte, ring A
    r[296..304] == m[524384..524392] &&                                 // auto expire
    r[312..368] == m[524328..524384] &&                                 // offsets and consensus versions
    r[368..432] == m[524392..524456] &&                                 // block ids
    r[4456..4480] == m[528488..528512] &&                               // free, fast and slow list
    r[4480..4480 + 8 * chunks] == m[528512..528512 + 8 * chunks] &&     // chunk info
    r[4480 + 8 * chunks..] == m[4480 + 8 * chunks..]
  }

  /**
    All other fields start idle: the state machine kind is that of Ethereum, the
    secondary ring is empty, no operation is pending.
   */
  ghost predicate FieldsIdle(r: Bytes)
    requires |r| >= 4480
  {
    r[304..312] == Fill(8, 0) &&          // state machine kind and its padding
    r[432..448] == Fill(16, 0) &&         // bounds of the secondary ring
    r[448..452] == Fill(4, 0xff) && r[452..456] == Fill(4, 0) && r[456..704] == Fill(248, 0xff) &&     // its chunk list
    r[704..4456] == Fill(3752, 0)         // secondary state, pending operation, reserved
  }

  lemma StoresFit(m: Bytes, chunks: nat)
    requires |m| >= OLD_SIZE + 8 * chunks
    ensures Fits(m, Stores(m, chunks))
  {
  }

  /** The region of store `i`, whole. */
  lemma StoreArrives(m: Bytes, chunks: nat, i: nat)
    requires |m| >= OLD_SIZE + 8 * chunks && (i <= 4 || i == 7)
    ensures
      var (at, data) := Stores(m, chunks)[i];
      at + |data| <= |m| && Migrated(m, chunks)[at..at + |data|] == data
  {
    var ws := Stores(m, chunks);
    StoresFit(m, chunks);
    WriteKeeps(m, ws, i, 0, |ws[i].1|);
    assert ws[i].1[0..|ws[i].1|] == ws[i].1;
  }

  lemma MigrationMovesFields(m: Bytes, chunks: nat)
    requires |m| >= OLD_SIZE + 8 * chunks
    ensures FieldsMoved(m, Migrated(m, chunks), chunks)
  {
    StoreArrives(m, chunks, 0);
    StoreArrives(m, chunks, 1);
    StoreArrives(m, chunks, 2);
    StoreArrives(m, chunks, 3);
    StoreArrives(m, chunks, 4);
    StoreArrives(m, chunks, 7);
    StoresFit(m, chunks);
    WriteSpares(m, Stores(m, chunks), 8, AUTO_EXPIRE - 8);
    RestStays(m, chunks);
    var r := Migrated(m, chunks);
    assert r[..8] == r[0..8];
  }

  lemma RestStays(m: Bytes, chunks: nat)
    requires |m| >= OLD_SIZE + 8 * chunks
    ensures Migrated(m, chunks)[NEW_SIZE + 8 * chunks..] == m[NEW_SIZE + 8 * chunks..]
  {
    var r, at := Migrated(m, chunks), NEW_SIZE + 8 * chunks;
    StoresFit(m, chunks);
    WriteSpares(m, Stores(m, chunks), at, |m| - at);
    assert r[at..] == r[at..at + (|m| - at)] && m[at..] == m[at..at + (|m| - at)];
  }

  lemma MigrationIsIdle(m: Bytes, chunks: nat)
    requires |m| >= OLD_SIZE + 8 * chunks
    ensures FieldsIdle(Migrated(m, chunks))
  {
    var ws := Stores(m, chunks);
    StoresFit(m, chunks);
    WriteKeeps(m, ws, 5, 0, 8);
    FillCut(8, 0, 0, 8);
    WriteKeeps(m, ws, 8, 0, 4);
    FillCut(256, 0xff, 0, 4);
    WriteKeeps(m, ws, 6, 0, 16);
    FillCut(NEW_LISTS - SECONDARY, 0, 0, 16);
    WriteKeeps(m, ws, 9, 0, 4);
    FillCut(4, 0, 0, 4);
    WriteKeeps(m, ws, 8, 8, 248);
    FillCut(256, 0xff, 8, 248);
    WriteKeeps(m, ws, 6, SECONDARY_STORAGE + 256 - SECONDARY, NEW_LISTS - SECONDARY_STORAGE - 256);
    FillCut(NEW_LISTS - SECONDARY, 0, SECONDARY_STORAGE + 256 - SECONDARY, NEW_LISTS - SECONDARY_STORAGE - 256);
  }

  lemma FillCut(n: nat, x: nat, k: nat, m: nat)
    requires k + m <= n
    ensures Fill(n, x)[k..k + m] == Fill(m, x)
  {
    var part, whole := Fill(n, x)[k..k + m], Fill(m, x);
    assert |part| == |whole|;
  }

  // ---- the program, in place ----

  /** `memcpy` from outside the buffer. */
  method CopyIn(b: array<nat>, at: nat, data: Bytes)
    requires at + |data| <= b.Length
    modifies b
    ensures b[..] == Splice(old(b[..]), at, data)
  {
    var i := 0;
    ghost var m := b[..];
    assert Splice(m, at, data[..0]) == m;
    while i < |data|
      invariant i <= |data|
      invariant b[..] == Splice(m, at, data[..i])
    {
      SpliceNext(m, at, data, i);
      b[at + i] := data[i];
      i := i + 1;
    }
    assert data[..i] == data;
  }

  lemma SpliceNext(m: Bytes, at: nat, data: Bytes, i: nat)
    requires at + |data| <= |m| && i < |data|
    ensures Splice(m, at, data[..i])[at + i := data[i]] == Splice(m, at, data[..i + 1])
  {
    assert data[..i + 1] == data[..i] + [data[i]];
  }

  /**
    `memmove` to a lower place: byte by byte from the buffer itself, upwards, so
    a source byte is read before it is overwritten.
   */
  method MoveDown(b: array<nat>, to: nat, from: nat, n: nat)
    requires to <= from && from + n <= b.Length
    modifies b
    ensures b[..] == Splice(old(b[..]), to, old(b[..])[from..from + n])
  {
    var i := 0;
    ghost var m := b[..];
    NoneMoved(m, to, from);
    while i < n
      invariant i <= n
      invariant b[..] == Splice(m, to, m[from..from + i])
    {
      MovedNext(m, to, from, i);
      assert b[..][from + i] == m[from + i];
      b[to + i] := b[from + i];
      i := i + 1;
    }
    assert i == n;
  }

  lemma NoneMoved(m: Bytes, to: nat, from: nat)
    requires to <= from <= |m|
    ensures Splice(m, to, m[from..from + 0]) == m
  {
    assert m[from..from + 0] == [];
  }

  lemma MovedNext(m: Bytes, to: nat, from: nat, i: nat)
    requires to <= from && from + i < |m|
    ensures
      var s := Splice(m, to, m[from..from + i]);
      s[from + i] == m[from + i] && s[to + i := m[from + i]] == Splice(m, to, m[from..from + i + 1])
  {
    var s, t := Splice(m, to, m[from..from + i])[to + i := m[from + i]], Splice(m, to, m[from..from + i + 1]);
    assert |s| == |t|;
    forall k | 0 <= k < |s|
      ensures s[k] == t[k]
    {
      if to <= k < to + i {
        assert s[k] == m[from + (k - to)] == t[k];
      }
    }
  }

  /** The buffer after `k` stores, one store later. */
  lemma WriteNext(m: Bytes, chunks: nat, k: nat)
    requires |m| >= OLD_SIZE + 8 * chunks && k < 10
    ensures
      var ws := Stores(m, chunks);
      Fits(m, ws[..k]) && Fits(m, ws[..k + 1]) && Write(m, ws[..k + 1]) == Splice(Write(m, ws[..k]), ws[k].0, ws[k].1)
  {
    StoresFit(m, chunks);
    WriteSnoc(m, Stores(m, chunks), k);
  }

  lemma WriteSnoc(s: Bytes, ws: seq<(nat, Bytes)>, k: nat)
    requires Fits(s, ws) && k < |ws|
    ensures Fits(s, ws[..k]) && Fits(s, ws[..k + 1]) && Write(s, ws[..k + 1]) ==
            Splice(Write(s, ws[..k]), ws[k].0, ws[k].1)
  {
    assert ws[..k + 1][..k] == ws[..k];
  }

  /** The buffer holds what the first `k` stores leave. */
  ghost predicate Written(m: Bytes, chunks: nat, k: nat, b: Bytes)
    requires |m| >= OLD_SIZE + 8 * chunks && k <= 10
  {
    Fits(m, Stores(m, chunks)[..k]) && b == Write(m, Stores(m, chunks)[..k])
  }

  /**
    The first half: the regions the chunk list may overrun are stashed, then it
    moves over itself, then the stashes go in.
   */
  method MoveFields(b: array<nat>, chunks: nat)
    requires b.Length >= OLD_SIZE + 8 * chunks
    modifies b
    ensures Written(old(b[..]), chunks, 5, b[..])
  {
    ghost var m := b[..];
    var lists := b[OLD_LISTS..OLD_LISTS + 24];
    var offsets := b[OLD_OFFSETS..OLD_OFFSETS + 128];
    StashesAre(m, chunks, lists, offsets);
    WriteNext(m, chunks, 0);
    MoveDown(b, NEW_SIZE, OLD_SIZE, 8 * chunks);
    WriteNext(m, chunks, 1);
    CopyIn(b, NEW_LISTS, lists);
    WriteNext(m, chunks, 2);
    CopyIn(b, OFFSETS, offsets[..56]);
    WriteNext(m, chunks, 3);
    CopyIn(b, BLOCK_IDS, offsets[64..]);
    WriteNext(m, chunks, 4);
    CopyIn(b, AUTO_EXPIRE, offsets[56..64]);
  }

  lemma StashesAre(m: Bytes, chunks: nat, lists: Bytes, offsets: Bytes)
    requires |m| >= OLD_SIZE + 8 * chunks && lists == m[OLD_LISTS..OLD_LISTS + 24] &&
             offsets == m[OLD_OFFSETS..OLD_OFFSETS + 128]
    ensures
      var ws := Stores(m, chunks);
      ws[1].1 == lists && ws[2].1 == offsets[..56] && ws[3].1 == offsets[64..] && ws[4].1 == offsets[56..64] &&
      ws[..0] == []
  {
    SliceOfSlice(m, OLD_OFFSETS, 128, 0, 56);
    SliceOfSlice(m, OLD_OFFSETS, 128, 64, 128);
    SliceOfSlice(m, OLD_OFFSETS, 128, 56, 64);
    assert offsets[0..56] == offsets[..56] && offsets[64..128] == offsets[64..];
  }

  lemma SliceOfSlice(m: Bytes, a: nat, n: nat, i: nat, j: nat)
    requires a + n <= |m| && i <= j <= n
    ensures m[a..a + n][i..j] == m[a + i..a + j]
  {
    var x, y := m[a..a + n][i..j], m[a + i..a + j];
    forall k | 0 <= k < j - i
      ensures x[k] == y[k]
    {
      assert x[k] == m[a..a + n][i + k] == m[a + i + k] == y[k];
    }
  }

  /** The second half: the new fields, the magic, the empty secondary ring. */
  method InitFields(b: array<nat>, ghost m: Bytes, chunks: nat)
    requires |m| == b.Length >= OLD_SIZE + 8 * chunks && Written(m, chunks, 5, b[..])
    modifies b
    ensures Written(m, chunks, 10, b[..])
  {
    WriteNext(m, chunks, 5);
    CopyIn(b, AUTO_EXPIRE + 8, Fill(8, 0));
    WriteNext(m, chunks, 6);
    CopyIn(b, SECONDARY, Fill(NEW_LISTS - SECONDARY, 0));
    WriteNext(m, chunks, 7);
    CopyIn(b, 0, NEW_MAGIC);
    WriteNext(m, chunks, 8);
    CopyIn(b, SECONDARY_STORAGE, Fill(256, 0xff));
    WriteNext(m, chunks, 9);
    CopyIn(b, SECONDARY_STORAGE + 4, Fill(4, 0));
  }

  /** `migrate_monad007_to_monad008` and the reset of the secondary ring, in place. */
  method Migrate(b: array<nat>, chunks: nat)
    requires b.Length >= OLD_SIZE + 8 * chunks
    modifies b
    ensures b[..] == Migrated(old(b[..]), chunks) && FieldsMoved(old(b[..]), b[..], chunks) && FieldsIdle(b[..])
  {
    ghost var m := b[..];
    MoveFields(b, chunks);
    InitFields(b, m, chunks);
    assert Stores(m, chunks)[..10] == Stores(m, chunks);
    MigrationMovesFields(m, chunks);
    MigrationIsIdle(m, chunks);
  }

  // ---- why the stashes are needed ----

  /** The buffer after the chunk list has moved. */
  function ListMoved(m: Bytes, chunks: nat): (r: Bytes)
    requires |m| >= OLD_SIZE + 8 * chunks
    ensures |r| == |m|
  {
    Splice(m, NEW_SIZE, m[OLD_SIZE..OLD_SIZE + 8 * chunks])
  }

  /** A copy that is zero up to the chunk list and one in it. */
  function Marked(chunks: nat): (m: Bytes)
    ensures |m| == OLD_SIZE + 8 * chunks
  {
    Fill(OLD_SIZE, 0) + Fill(8 * chunks, 1)
  }

  /** The moved list overruns the `n` bytes at `at` exactly when it is long enough to reach them. */
  lemma OverrunIff(chunks: nat, at: nat, n: nat)
    requires NEW_SIZE <= at && 0 < n && at + n <= OLD_SIZE
    ensures
      (forall m: Bytes :: |m| >= OLD_SIZE + 8 * chunks ==> ListMoved(m, chunks)[at..at + n] == m[at..at + n]) <==>
      NEW_SIZE + 8 * chunks <= at
  {
    if NEW_SIZE + 8 * chunks <= at {
      forall m: Bytes | |m| >= OLD_SIZE + 8 * chunks
        ensures ListMoved(m, chunks)[at..at + n] == m[at..at + n]
      {
        SpliceApart(m, NEW_SIZE, m[OLD_SIZE..OLD_SIZE + 8 * chunks], at, n);
      }
    } else {
      var m := Marked(chunks);
      assert m[at] == Fill(OLD_SIZE, 0)[at] && m[at..at + n][0] == m[at];
      assert ListMoved(m, chunks)[at] == m[OLD_SIZE..OLD_SIZE + 8 * chunks][at - NEW_SIZE] &&
             ListMoved(m, chunks)[at..at + n][0] == ListMoved(m, chunks)[at];
    }
  }

  /**
    Read after the move, the offsets and consensus block is intact for every
    copy if and only if there are at most 64981 chunks.
   */
  lemma OffsetsNeedStash(chunks: nat)
    ensures
      (forall m: Bytes :: |m| >= OLD_SIZE + 8 * chunks ==>
        ListMoved(m, chunks)[OLD_OFFSETS..OLD_OFFSETS + 128] == m[OLD_OFFSETS..OLD_OFFSETS + 128]) <==>
      chunks <= 64981
  {
    OverrunIff(chunks, OLD_OFFSETS, 128);
  }

  /** And the list triple if and only if there are at most 65501. */
  lemma ListsNeedStash(chunks: nat)
    ensures
      (forall m: Bytes :: |m| >= OLD_SIZE + 8 * chunks ==>
        ListMoved(m, chunks)[OLD_LISTS..OLD_LISTS + 24] == m[OLD_LISTS..OLD_LISTS + 24]) <==>
      chunks <= 65501
  {
    OverrunIff(chunks, OLD_LISTS, 24);
  }

  // ---- a crash during the migration ----

  predicate IsOld(m: Bytes)
    requires |m| >= NEW_SIZE
  {
    m[..8] == OLD_MAGIC
  }

  predicate IsNew(m: Bytes)
    requires |m| >= NEW_SIZE
  {
    m[..8] == NEW_MAGIC
  }

  predicate Dirty(m: Bytes)
    requires |m| >= NEW_SIZE
  {
    m[DIRTY] != 0
  }

  /** A copy that died inside its dirty scope: only the dirty byte and which magic it may carry are known. */
  ghost predicate Torn(t: Bytes) {
    |t| >= NEW_SIZE && Dirty(t) && (IsOld(t) || IsNew(t))
  }

  /** Dying after `k` stores and `j` bytes of the next leaves a torn copy. */
  lemma CrashIsTorn(m: Bytes, chunks: nat, k: nat, j: nat)
    requires |m| >= OLD_SIZE + 8 * chunks && IsOld(m) && Dirty(m)
    requires k < |Stores(m, chunks)| && j <= |Stores(m, chunks)[k].1|
    ensures
      var ws := Stores(m, chunks);
      var (at, data) := ws[k];
      Fits(m, ws[..k]) && at + j <= |m| && Torn(Splice(Write(m, ws[..k]), at, data[..j]))
  {
    var ws := Stores(m, chunks);
    var (at, data) := ws[k];
    StoresFit(m, chunks);
    var b := Write(m, ws[..k]);
    DirtySoFar(m, chunks, k);
    MagicSoFar(m, chunks, k);
    if k == 7 {
      MagicTears(b, j);
    } else {
      StoreAside(m, chunks, k);
      StoreTears(b, at, data[..j]);
    }
  }

  lemma DirtySoFar(m: Bytes, chunks: nat, k: nat)
    requires |m| >= OLD_SIZE + 8 * chunks && k <= |Stores(m, chunks)|
    ensures Fits(m, Stores(m, chunks)[..k]) && Write(m, Stores(m, chunks)[..k])[DIRTY] == m[DIRTY]
  {
    var ws := Stores(m, chunks)[..k];
    StoresFit(m, chunks);
    WriteSpares(m, ws, DIRTY, 1);
    assert Write(m, ws)[DIRTY] == Write(m, ws)[DIRTY..DIRTY + 1][0] && m[DIRTY] == m[DIRTY..DIRTY + 1][0];
  }

  /** Every store but that of the magic leaves the magic and the dirty byte alone. */
  lemma StoreAside(m: Bytes, chunks: nat, k: nat)
    requires |m| >= OLD_SIZE + 8 * chunks && k < |Stores(m, chunks)| && k != 7
    ensures
      var (at, data) := Stores(m, chunks)[k];
      8 <= at && at + |data| <= |m| && (at + |data| <= DIRTY || DIRTY < at)
  {
  }

  lemma StoreTears(b: Bytes, at: nat, data: Bytes)
    requires Torn(b) && 8 <= at && at + |data| <= |b| && (at + |data| <= DIRTY || DIRTY < at)
    ensures Torn(Splice(b, at, data))
  {
    var t := Splice(b, at, data);
    SpliceApart(b, at, data, 0, 8);
    assert t[..8] == t[0..8] && b[..8] == b[0..8];
    assert t[DIRTY] == b[DIRTY];
  }

  /** The two magics differ in their last byte only. */
  lemma MagicTears(b: Bytes, j: nat)
    requires |b| >= NEW_SIZE && IsOld(b) && Dirty(b) && j <= 8
    ensures Torn(Splice(b, 0, NEW_MAGIC[..j]))
  {
    var t := Splice(b, 0, NEW_MAGIC[..j]);
    assert t[DIRTY] == b[DIRTY];
    assert t[..8] == NEW_MAGIC[..j] + b[j..8];
    assert b[j..8] == b[..8][j..] == OLD_MAGIC[j..];
    assert NEW_MAGIC[..7] == OLD_MAGIC[..7];
    assert j <= 7 ==> NEW_MAGIC[..j] == NEW_MAGIC[..7][..j] == OLD_MAGIC[..7][..j] == OLD_MAGIC[..j];
  }

  lemma MagicSoFar(m: Bytes, chunks: nat, k: nat)
    requires |m| >= OLD_SIZE + 8 * chunks && IsOld(m) && k <= |Stores(m, chunks)|
    ensures Fits(m, Stores(m, chunks)[..k]) && Write(m, Stores(m, chunks)[..k])[..8] ==
            if k <= 7 then OLD_MAGIC
            else NEW_MAGIC
  {
    var ws := Stores(m, chunks);
    StoresFit(m, chunks);
    var b := Write(m, ws[..k]);
    if k <= 7 {
      WriteSpares(m, ws[..k], 0, 8);
      assert b[..8] == b[0..8] && m[..8] == m[0..8];
    } else {
      WriteKeeps(m, ws[..k], 7, 0, 8);
      assert b[..8] == b[0..8] && NEW_MAGIC[0..8] == NEW_MAGIC;
    }
  }

  /** `memcpy` of a dirty copy from its clean sibling, before migrating. */
  function HealWhole(c0: Bytes, c1: Bytes): (Bytes, Bytes)
    requires |c0| >= NEW_SIZE && |c1| >= NEW_SIZE
  {
    if Dirty(c0) then (c1, c1) else if Dirty(c1) then (c0, c0) else (c0, c1)
  }

  function MigrateIfOld(m: Bytes, chunks: nat): (r: Bytes)
    requires |m| >= OLD_SIZE + 8 * chunks
    ensures |r| == |m|
  {
    if IsOld(m) then Migrated(m, chunks) else m
  }

  /** `db_copy`: header and chunk info of the clean copy. */
  function DbCopy(dest: Bytes, src: Bytes, chunks: nat): Bytes
    requires |dest| >= OLD_SIZE + 8 * chunks && |src| >= OLD_SIZE + 8 * chunks
  {
    src[..NEW_SIZE + 8 * chunks] + dest[NEW_SIZE + 8 * chunks..]
  }

  /** The constructor from the migration to the end of dirty recovery. */
  function Open(c0: Bytes, c1: Bytes, chunks: nat): (Bytes, Bytes)
    requires |c0| == |c1| >= OLD_SIZE + 8 * chunks
  {
    var (h0, h1) := if IsOld(c0) || IsOld(c1) then HealWhole(c0, c1) else (c0, c1);
    var (m0, m1) := if IsOld(c0) || IsOld(c1) then (MigrateIfOld(h0, chunks), MigrateIfOld(h1, chunks)) else (c0, c1);
    if !IsNew(m0) || !IsNew(m1) then (m0, m1)
    else if Dirty(m0) then (DbCopy(m0, m1, chunks), m1)
    else if Dirty(m1) then (m0, DbCopy(m1, m0, chunks))
    else (m0, m1)
  }

  // ---- the migration loop, store by store ----

  /** The stores to one copy: into its dirty scope, the migration, out of it. */
  function ScopeWrites(m: Bytes, chunks: nat): (r: seq<(nat, Bytes)>)
    requires |m| >= OLD_SIZE + 8 * chunks
    ensures |r| == 12
  {
    InScope(Stores(Splice(m, DIRTY, [1]), chunks))
  }

  function InScope(ws: seq<(nat, Bytes)>): (r: seq<(nat, Bytes)>)
    ensures |r| == |ws| + 2
  {
    [(DIRTY, [1])] + ws + [(DIRTY, [0])]
  }

  /** A copy after `k` stores and `j` bytes of the next. */
  ghost function PartWritten(m: Bytes, ws: seq<(nat, Bytes)>, k: nat, j: nat): (r: Bytes)
    requires Fits(m, ws) && k < |ws| && j <= |ws[k].1|
    ensures |r| == |m|
  {
    Splice(Write(m, ws[..k]), ws[k].0, ws[k].1[..j])
  }

  /**
    The two copies when the loop dies on one of them, in store `k` after `j`
    bytes of it: copy 0 is done before copy 1 begins.
   */
  ghost function Died(m: Bytes, ws: seq<(nat, Bytes)>, copy: nat, k: nat, j: nat): (r: (Bytes, Bytes))
    requires Fits(m, ws) && copy < 2 && k < |ws| && j <= |ws[k].1|
    ensures |r.0| == |m| && |r.1| == |m|
  {
    if copy == 0 then (PartWritten(m, ws, k, j), m) else (Write(m, ws), PartWritten(m, ws, k, j))
  }

  /** Stores that spare the dirty byte do the same to a copy whose dirty byte differs. */
  lemma {:induction false} WriteBesideDirty(m: Bytes, ws: seq<(nat, Bytes)>, d: nat)
    requires Fits(m, ws) && Spared(ws, 0, DIRTY, 1) && |m| > DIRTY
    ensures Fits(Splice(m, DIRTY, [d]), ws) && Write(Splice(m, DIRTY, [d]), ws) == Splice(Write(m, ws), DIRTY, [d])
    decreases |ws|
  {
    if ws != [] {
      var init, last := ws[..|ws| - 1], ws[|ws| - 1];
      WriteBesideDirty(m, init, d);
      SplicesSwap(Write(m, init), last.0, last.1, DIRTY, [d]);
    }
  }

  lemma SplicesSwap(s: Bytes, a: nat, x: Bytes, b: nat, y: Bytes)
    requires a + |x| <= |s| && b + |y| <= |s| && Disjoint(a, |x|, b, |y|)
    ensures Splice(Splice(s, a, x), b, y) == Splice(Splice(s, b, y), a, x)
  {
  }

  /** The payloads do not depend on the dirty byte. */
  lemma StoresBesideDirty(m: Bytes, chunks: nat, d: nat)
    requires |m| >= OLD_SIZE + 8 * chunks
    ensures Stores(Splice(m, DIRTY, [d]), chunks) == Stores(m, chunks)
  {
    SpliceApart(m, DIRTY, [d], OLD_SIZE, 8 * chunks);
    SpliceApart(m, DIRTY, [d], OLD_LISTS, 24);
    SpliceApart(m, DIRTY, [d], OLD_OFFSETS, 56);
    SpliceApart(m, DIRTY, [d], OLD_OFFSETS + 64, 64);
    SpliceApart(m, DIRTY, [d], OLD_OFFSETS + 56, 8);
  }

  lemma StoresSpareDirty(m: Bytes, chunks: nat)
    requires |m| >= OLD_SIZE + 8 * chunks
    ensures Spared(Stores(m, chunks), 0, DIRTY, 1)
  {
  }

  /** The stores of a scope, from the dirty copy on. */
  lemma ScopePrefix(m: Bytes, ws: seq<(nat, Bytes)>, k: nat)
    requires Fits(m, ws) && |m| > DIRTY && 1 <= k <= |ws| + 1
    ensures
      var m1 := Splice(m, DIRTY, [1]);
      Fits(m, InScope(ws)[..k]) && Fits(m1, ws[..k - 1]) && Write(m, InScope(ws)[..k]) == Write(m1, ws[..k - 1])
  {
    assert InScope(ws)[..k] == [(DIRTY, [1])] + ws[..k - 1];
    WriteCons(m, (DIRTY, [1]), ws[..k - 1]);
  }

  /** A whole scope. */
  lemma ScopeWhole(m: Bytes, ws: seq<(nat, Bytes)>)
    requires Fits(m, ws) && Spared(ws, 0, DIRTY, 1) && |m| > DIRTY && m[DIRTY] == 0
    ensures Fits(m, InScope(ws)) && Write(m, InScope(ws)) == Write(m, ws)
  {
    var all, n := InScope(ws), |ws|;
    ScopePrefix(m, ws, n + 1);
    assert ws[..n] == ws && all[..n + 2] == all;
    WriteBesideDirty(m, ws, 1);
    assert Fits(m, all);
    WriteSnoc(m, all, n + 1);
    DirtySpared(m, ws);
    DirtyAndBack(Write(m, ws));
  }

  lemma DirtySpared(m: Bytes, ws: seq<(nat, Bytes)>)
    requires Fits(m, ws) && Spared(ws, 0, DIRTY, 1) && |m| > DIRTY
    ensures |Write(m, ws)| == |m| && Write(m, ws)[DIRTY] == m[DIRTY]
  {
    WriteSpares(m, ws, DIRTY, 1);
    assert Write(m, ws)[DIRTY] == Write(m, ws)[DIRTY..DIRTY + 1][0] && m[DIRTY] == m[DIRTY..DIRTY + 1][0];
  }

  lemma {:induction false} WriteCons(m: Bytes, w: (nat, Bytes), ws: seq<(nat, Bytes)>)
    requires w.0 + |w.1| <= |m| && Fits(m, ws)
    ensures Fits(m, [w] + ws) && Fits(Splice(m, w.0, w.1), ws) && Write(m, [w] + ws) == Write(Splice(m, w.0, w.1), ws)
    decreases |ws|
  {
    if ws == [] {
      assert [w] + ws == [w] && [w][..0] == [];
    } else {
      var init := ws[..|ws| - 1];
      var all := [w] + ws;
      assert all[..|all| - 1] == [w] + init && all[|all| - 1] == ws[|ws| - 1];
      WriteCons(m, w, init);
    }
  }

  /** The whole scope leaves a migrated, clean copy. */
  lemma ScopeMigrates(m: Bytes, chunks: nat)
    requires |m| >= OLD_SIZE + 8 * chunks && m[DIRTY] == 0
    ensures Fits(m, ScopeWrites(m, chunks)) && Write(m, ScopeWrites(m, chunks)) == Migrated(m, chunks)
  {
    StoresFit(m, chunks);
    StoresBesideDirty(m, chunks, 1);
    StoresSpareDirty(m, chunks);
    ScopeWhole(m, Stores(m, chunks));
  }

  lemma DirtyByteKept(m: Bytes, chunks: nat)
    requires |m| >= OLD_SIZE + 8 * chunks
    ensures Migrated(m, chunks)[DIRTY] == m[DIRTY]
  {
    MigrationMovesFields(m, chunks);
    var r := Migrated(m, chunks);
    assert r[DIRTY] == r[8..AUTO_EXPIRE][DIRTY - 8] && m[DIRTY] == m[8..AUTO_EXPIRE][DIRTY - 8];
  }

  lemma DirtyAndBack(r: Bytes)
    requires |r| > DIRTY && r[DIRTY] == 0
    ensures Splice(Splice(r, DIRTY, [1]), DIRTY, [0]) == r
  {
  }

  /** A copy that dies inside its scope is untouched, torn or migrated. */
  ghost predicate Hurt(m: Bytes, chunks: nat, t: Bytes)
    requires |m| >= OLD_SIZE + 8 * chunks
  {
    |t| == |m| && (t == m || Torn(t) || t == Migrated(m, chunks))
  }

  lemma DirtyOld(m: Bytes)
    requires |m| >= NEW_SIZE && IsOld(m)
    ensures IsOld(Splice(m, DIRTY, [1])) && Dirty(Splice(m, DIRTY, [1]))
  {
    SpliceApart(m, DIRTY, [1], 0, 8);
    var m1 := Splice(m, DIRTY, [1]);
    assert m1[..8] == m1[0..8] && m[..8] == m[0..8];
  }

  /** Dying anywhere in a scope whose stores only ever leave the dirty copy torn. */
  lemma ScopeHurts(m: Bytes, ws: seq<(nat, Bytes)>, chunks: nat, k: nat, j: nat)
    requires |m| >= OLD_SIZE + 8 * chunks && IsOld(m) && Fits(m, ws) && OnlyTears(Splice(m, DIRTY, [1]), ws)
    requires Torn(Write(Splice(m, DIRTY, [1]), ws))
    requires Fits(m, InScope(ws)) && Write(m, InScope(ws)) == Migrated(m, chunks)
    requires k < |InScope(ws)| && j <= |InScope(ws)[k].1|
    ensures Hurt(m, chunks, PartWritten(m, InScope(ws), k, j))
  {
    if k == 0 {
      DirtyOld(m);
      PartFirst(m, ws, j);
    } else if k <= |ws| {
      TornInside(m, ws, k, j);
    } else if j == 0 {
      PartLast(m, ws);
    } else {
      WholePart(m, InScope(ws), k);
    }
  }

  /** Dying anywhere in these stores leaves a torn copy. */
  ghost predicate OnlyTears(m: Bytes, ws: seq<(nat, Bytes)>) {
    Fits(m, ws) && forall x, y :: 0 <= x < |ws| && 0 <= y <= |ws[x].1| ==> Torn(PartWritten(m, ws, x, y))
  }

  lemma TornInside(m: Bytes, ws: seq<(nat, Bytes)>, k: nat, j: nat)
    requires Fits(m, ws) && Fits(m, InScope(ws)) && |m| > DIRTY && OnlyTears(Splice(m, DIRTY, [1]), ws)
    requires 0 < k <= |ws| && j <= |InScope(ws)[k].1|
    ensures Torn(PartWritten(m, InScope(ws), k, j))
  {
    assert InScope(ws)[k] == ws[k - 1];
    PartInside(m, ws, k, j);
  }

  lemma PartFirst(m: Bytes, ws: seq<(nat, Bytes)>, j: nat)
    requires Fits(m, InScope(ws)) && |m| > DIRTY && j <= 1
    ensures PartWritten(m, InScope(ws), 0, j) == if j == 0 then m else Splice(m, DIRTY, [1])
  {
    assert InScope(ws)[..0] == [] && [1][..0] == [] && [1][..1] == [1];
  }

  /** Inside the scope a store of it is a store of the migration, on the dirty copy. */
  lemma PartInside(m: Bytes, ws: seq<(nat, Bytes)>, k: nat, j: nat)
    requires Fits(m, ws) && Fits(m, InScope(ws)) && |m| > DIRTY && 0 < k <= |ws| && j <= |ws[k - 1].1|
    ensures Fits(Splice(m, DIRTY, [1]), ws) && InScope(ws)[k] == ws[k - 1]
    ensures PartWritten(m, InScope(ws), k, j) == PartWritten(Splice(m, DIRTY, [1]), ws, k - 1, j)
  {
    ScopePrefix(m, ws, k);
    assert InScope(ws)[k] == ws[k - 1];
  }

  /** All stores made, the dirty byte not yet cleared. */
  lemma PartLast(m: Bytes, ws: seq<(nat, Bytes)>)
    requires Fits(m, ws) && Fits(m, InScope(ws)) && |m| > DIRTY
    ensures Fits(Splice(m, DIRTY, [1]), ws)
    ensures PartWritten(m, InScope(ws), |ws| + 1, 0) == Write(Splice(m, DIRTY, [1]), ws)
  {
    ScopePrefix(m, ws, |ws| + 1);
    NoPart(m, InScope(ws), |ws| + 1);
    assert ws[..|ws|] == ws;
  }

  lemma NoPart(m: Bytes, ws: seq<(nat, Bytes)>, k: nat)
    requires Fits(m, ws) && k < |ws|
    ensures Fits(m, ws[..k]) && PartWritten(m, ws, k, 0) == Write(m, ws[..k])
  {
    assert ws[k].1[..0] == [];
  }

  lemma WholePart(m: Bytes, ws: seq<(nat, Bytes)>, k: nat)
    requires Fits(m, ws) && k + 1 == |ws|
    ensures PartWritten(m, ws, k, |ws[k].1|) == Write(m, ws)
  {
    WriteSnoc(m, ws, k);
    assert ws[..k + 1] == ws && ws[k].1[..|ws[k].1|] == ws[k].1;
  }

  lemma AllStoredTorn(m: Bytes, chunks: nat)
    requires |m| >= OLD_SIZE + 8 * chunks && IsOld(m) && Dirty(m)
    ensures Fits(m, Stores(m, chunks)) && Torn(Write(m, Stores(m, chunks)))
  {
    var ws := Stores(m, chunks);
    StoresFit(m, chunks);
    MagicSoFar(m, chunks, 10);
    assert ws[..10] == ws;
    StoresSpareDirty(m, chunks);
    WriteSpares(m, ws, DIRTY, 1);
    assert Write(m, ws)[DIRTY] == Write(m, ws)[DIRTY..DIRTY + 1][0] && m[DIRTY] == m[DIRTY..DIRTY + 1][0];
  }

  lemma ScopeDies(m: Bytes, chunks: nat, k: nat, j: nat)
    requires |m| >= OLD_SIZE + 8 * chunks && IsOld(m) && m[DIRTY] == 0
    requires k < 12 && j <= |ScopeWrites(m, chunks)[k].1|
    ensures Fits(m, ScopeWrites(m, chunks)) && Hurt(m, chunks, PartWritten(m, ScopeWrites(m, chunks), k, j))
  {
    var m1 := Splice(m, DIRTY, [1]);
    var ws := Stores(m1, chunks);
    DirtyOld(m);
    StoresFit(m1, chunks);
    forall x, y | 0 <= x < |ws| && 0 <= y <= |ws[x].1|
      ensures Torn(PartWritten(m1, ws, x, y))
    {
      CrashIsTorn(m1, chunks, x, y);
    }
    AllStoredTorn(m1, chunks);
    ScopeMigrates(m, chunks);
    ScopeHurts(m, ws, chunks, k, j);
  }

  lemma MigratedIsClean(m: Bytes, chunks: nat)
    requires |m| >= OLD_SIZE + 8 * chunks && !Dirty(m)
    ensures |Migrated(m, chunks)| == |m| && IsNew(Migrated(m, chunks)) && !Dirty(Migrated(m, chunks))
  {
    MigrationMovesFields(m, chunks);
    DirtyByteKept(m, chunks);
  }

  /**
    The migration loop dies at any byte of any of its stores, on either copy.
    A reopen leaves both copies migrated and clean.
   */
  lemma ReopenMigratesBoth(m: Bytes, chunks: nat, copy: nat, k: nat, j: nat)
    requires |m| >= OLD_SIZE + 8 * chunks && IsOld(m) && !Dirty(m)
    requires copy < 2 && k < 12 && j <= |ScopeWrites(m, chunks)[k].1|
    ensures Fits(m, ScopeWrites(m, chunks))
    ensures
      var c := Died(m, ScopeWrites(m, chunks), copy, k, j);
      var (r0, r1) := Open(c.0, c.1, chunks);
      var done := Migrated(m, chunks)[..NEW_SIZE + 8 * chunks];
      |r0| == |r1| == |m| && r0[..NEW_SIZE + 8 * chunks] == done && r1[..NEW_SIZE + 8 * chunks] == done &&
      !Dirty(r0) && !Dirty(r1)
  {
    ScopeDies(m, chunks, k, j);
    ScopeMigrates(m, chunks);
    ReopenDied(m, chunks, ScopeWrites(m, chunks), copy, k, j);
  }

  lemma ReopenDied(m: Bytes, chunks: nat, ws: seq<(nat, Bytes)>, copy: nat, k: nat, j: nat)
    requires |m| >= OLD_SIZE + 8 * chunks && IsOld(m) && !Dirty(m) && copy < 2
    requires Fits(m, ws) && Write(m, ws) == Migrated(m, chunks) && k < |ws| && j <= |ws[k].1| &&
             Hurt(m, chunks, PartWritten(m, ws, k, j))
    ensures
      var c := Died(m, ws, copy, k, j);
      var (r0, r1) := Open(c.0, c.1, chunks);
      var done := Migrated(m, chunks)[..NEW_SIZE + 8 * chunks];
      |r0| == |r1| == |m| && r0[..NEW_SIZE + 8 * chunks] == done && r1[..NEW_SIZE + 8 * chunks] == done &&
      !Dirty(r0) && !Dirty(r1)
  {
    ReopenFrom(m, chunks, Died(m, ws, copy, k, j).0, Died(m, ws, copy, k, j).1);
  }

  /** The reopen, from any pair of copies of which one is whole. */
  lemma ReopenFrom(m: Bytes, chunks: nat, c0: Bytes, c1: Bytes)
    requires |m| >= OLD_SIZE + 8 * chunks && IsOld(m) && !Dirty(m) && |c0| == |m| && |c1| == |m|
    requires (c1 == m && Hurt(m, chunks, c0)) || (c0 == Migrated(m, chunks) && Hurt(m, chunks, c1))
    ensures
      var (r0, r1) := Open(c0, c1, chunks);
      var done := Migrated(m, chunks)[..NEW_SIZE + 8 * chunks];
      |r0| == |r1| == |m| && r0[..NEW_SIZE + 8 * chunks] == done && r1[..NEW_SIZE + 8 * chunks] == done &&
      !Dirty(r0) && !Dirty(r1)
  {
    MigratedIsClean(m, chunks);
    var done := Migrated(m, chunks);
    assert NEW_MAGIC != OLD_MAGIC by {
      assert NEW_MAGIC[7] != OLD_MAGIC[7];
    }
    if c0 == done && c1 != m && !IsOld(c1) && Dirty(c1) {
      var r := DbCopy(c1, done, chunks);
      assert r[..NEW_SIZE + 8 * chunks] == done[..NEW_SIZE + 8 * chunks] && r[DIRTY] == done[DIRTY];
    }
  }
}
