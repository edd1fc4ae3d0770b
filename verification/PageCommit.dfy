/**
  The page commitment: hash the active pairs of slots, merge them bottom-up
  driven by a bitmap, seal the root with the slot bitmap. Hash functions are
  parameters. The program works on integer bitmaps, the proofs on the ascending
  list of their one bits.
 */
module PageCommit {
  import opened Options
  import opened PowerOfTwo
  import opened Bitmap

  /** `x >> b`. */
  function Shift(x: nat, b: nat): nat {
    if b == 0 then x else Shift(x, b - 1) / 2
  }

  // ---- the recursive sparse Merkle tree ----

  function Combine<T>(f: (T, T) -> T, l: Option<T>, r: Option<T>): Option<T> {
    if l.None? then r else if r.None? then l else Some(f(l.value, r.value))
  }

  /** Node `j` of level `b`: an empty side is skipped, a parent is hashed only when both sides are active. */
  function Node<T>(f: (T, T) -> T, leaves: map<nat, T>, b: nat, j: nat): Option<T>
    decreases b
  {
    if b == 0 then (if j in leaves then Some(leaves[j]) else None)
    else Combine(f, Node(f, leaves, b - 1, 2 * j), Node(f, leaves, b - 1, 2 * j + 1))
  }

  // ---- one level as a row of active blocks ----

  /** The active blocks of a level, in order, with their hashes. */
  type Row<T> = seq<(nat, T)>

  ghost predicate Ascending<T>(row: Row<T>) {
    row == [] || (Ascending(row[1..]) && (|row| > 1 ==> row[0].0 < row[1].0))
  }

  function Get<T>(row: Row<T>, j: nat): Option<T> {
    if row == [] then None else if row[0].0 == j then Some(row[0].1) else Get(row[1..], j)
  }

  /** Blocks `i` and `j` are the left and right half of one block of the next level. */
  predicate Siblings(i: nat, j: nat) {
    i / 2 == j / 2 && i % 2 == 0
  }

  /** The next level: neighbours that are siblings are hashed together. */
  function Lift<T>(f: (T, T) -> T, row: Row<T>): Row<T> {
    if row == [] then []
    else if |row| > 1 && Siblings(row[0].0, row[1].0) then [(row[0].0 / 2, f(row[0].1, row[1].1))] + Lift(f, row[2..])
    else [(row[0].0 / 2, row[0].1)] + Lift(f, row[1..])
  }

  lemma {:induction false} AscendingAbove<T>(row: Row<T>, j: nat)
    requires Ascending(row) && (row != [] ==> j < row[0].0)
    ensures Get(row, j) == None
  {
    if row != [] {
      AscendingAbove(row[1..], j);
    }
  }

  lemma {:induction false} LiftAscending<T>(f: (T, T) -> T, row: Row<T>)
    requires Ascending(row)
    ensures Ascending(Lift(f, row)) && (Lift(f, row) == [] <==> row == []) &&
            (row != [] ==> Lift(f, row)[0].0 == row[0].0 / 2)
    decreases |row|
  {
    if |row| > 1 && Siblings(row[0].0, row[1].0) {
      LiftAscending(f, row[2..]);
      assert row[1..][1..] == row[2..];
      assert Lift(f, row)[1..] == Lift(f, row[2..]);
    } else if row != [] {
      LiftAscending(f, row[1..]);
      assert Lift(f, row)[1..] == Lift(f, row[1..]);
    }
  }

  /** Each block of the next level combines its two halves. */
  lemma {:induction false} LiftCombines<T>(f: (T, T) -> T, row: Row<T>, j: nat)
    requires Ascending(row)
    ensures Get(Lift(f, row), j) == Combine(f, Get(row, 2 * j), Get(row, 2 * j + 1))
    decreases |row|
  {
    if |row| > 1 && Siblings(row[0].0, row[1].0) {
      LiftCombines(f, row[2..], j);
      assert row[1..][1..] == row[2..];
      assert Lift(f, row)[1..] == Lift(f, row[2..]);
      if row[0].0 == 2 * j {
        AscendingAbove(row[1..], 2 * j);
      }
    } else if row != [] {
      LiftCombines(f, row[1..], j);
      assert Lift(f, row)[1..] == Lift(f, row[1..]);
      if row[0].0 == 2 * j {
        AscendingAbove(row[1..], 2 * j);
        LiftAscending(f, row[1..]);
        if |row| > 1 { AscendingAbove(row[1..], 2 * j + 1); }
      } else if row[0].0 == 2 * j + 1 {
        AscendingAbove(row[1..], 2 * j);
      }
    }
  }

  // ---- one level as the program runs it ----

  ghost predicate Increasing(bm: seq<nat>) {
    bm == [] || (Increasing(bm[1..]) && (|bm| > 1 ==> bm[0] < bm[1]))
  }

  ghost predicate Holds<T>(bm: seq<nat>, scratch: map<nat, T>) {
    forall x :: x in bm ==> x in scratch
  }

  /** The row that positions `bm` with entries `scratch` stand for at level `b`. */
  function RowOf<T>(bm: seq<nat>, scratch: map<nat, T>, b: nat): Row<T>
    requires Holds(bm, scratch)
  {
    if bm == [] then [] else [(Shift(bm[0], b), scratch[bm[0]])] + RowOf(bm[1..], scratch, b)
  }

  /** The merges of level `b`, in the order they are found. */
  function Pairs(bm: seq<nat>, b: nat): seq<(nat, nat)> {
    if |bm| < 2 then []
    else if Siblings(Shift(bm[0], b), Shift(bm[1], b)) then [(bm[0], bm[1])] + Pairs(bm[2..], b)
    else Pairs(bm[1..], b)
  }

  function MergeEntry<T>(f: (T, T) -> T, scratch: map<nat, T>, m: (nat, nat)): map<nat, T> {
    if m.0 in scratch && m.1 in scratch then scratch[m.0 := f(scratch[m.0], scratch[m.1])] - {m.1} else scratch
  }

  function MergeEntries<T>(f: (T, T) -> T, scratch: map<nat, T>, ms: seq<(nat, nat)>): map<nat, T>
    decreases |ms|
  {
    if ms == [] then scratch else MergeEntries(f, MergeEntry(f, scratch, ms[0]), ms[1..])
  }

  function DropRights(bm: seq<nat>, ms: seq<(nat, nat)>): seq<nat>
    decreases |ms|
  {
    if ms == [] then bm else DropRights(Without(bm, ms[0].1), ms[1..])
  }

  ghost predicate Mentions(ms: seq<(nat, nat)>, x: nat) {
    ms != [] && (ms[0].0 == x || ms[0].1 == x || Mentions(ms[1..], x))
  }

  lemma {:induction false} PairsMention(bm: seq<nat>, b: nat, x: nat)
    requires Mentions(Pairs(bm, b), x)
    ensures x in bm
    decreases |bm|
  {
    if Siblings(Shift(bm[0], b), Shift(bm[1], b)) {
      assert Pairs(bm, b)[1..] == Pairs(bm[2..], b);
      if x != bm[0] && x != bm[1] {
        PairsMention(bm[2..], b, x);
      }
    } else {
      PairsMention(bm[1..], b, x);
    }
  }

  lemma {:induction false} EntryKept<T>(f: (T, T) -> T, scratch: map<nat, T>, ms: seq<(nat, nat)>, x: nat)
    requires x in scratch && !Mentions(ms, x)
    ensures x in MergeEntries(f, scratch, ms) && MergeEntries(f, scratch, ms)[x] == scratch[x]
    decreases |ms|
  {
    if ms != [] {
      EntryKept(f, MergeEntry(f, scratch, ms[0]), ms[1..], x);
    }
  }

  lemma {:induction false} HeadKept(x: nat, rest: seq<nat>, ms: seq<(nat, nat)>)
    requires !Mentions(ms, x)
    ensures DropRights([x] + rest, ms) == [x] + DropRights(rest, ms)
    decreases |ms|
  {
    if ms != [] {
      assert ([x] + rest)[1..] == rest;
      HeadKept(x, Without(rest, ms[0].1), ms[1..]);
    }
  }

  lemma {:induction false} IncreasingHead(bm: seq<nat>, y: nat)
    requires Increasing(bm) && bm != [] && y in bm[1..]
    ensures bm[0] < y
    decreases |bm|
  {
    if y != bm[1] {
      assert y in bm[1..][1..];
      IncreasingHead(bm[1..], y);
    }
  }

  lemma HeadIsNew(bm: seq<nat>)
    requires Increasing(bm) && bm != []
    ensures bm[0] !in bm[1..]
  {
    if bm[0] in bm[1..] {
      IncreasingHead(bm, bm[0]);
    }
  }

  lemma {:induction false} RowSame<T>(bm: seq<nat>, s: map<nat, T>, t: map<nat, T>, b: nat)
    requires Holds(bm, s) && Holds(bm, t) && forall x :: x in bm ==> s[x] == t[x]
    ensures RowOf(bm, s, b) == RowOf(bm, t, b)
    decreases |bm|
  {
    if bm != [] {
      RowSame(bm[1..], s, t, b);
    }
  }

  /** What the level leaves in bitmap and scratch is the next row. */
  lemma {:induction false} LevelIsLift<T>(f: (T, T) -> T, bm: seq<nat>, scratch: map<nat, T>, b: nat)
    requires Increasing(bm) && Holds(bm, scratch)
    ensures
      var ms := Pairs(bm, b);
      var bm', scratch' := DropRights(bm, ms), MergeEntries(f, scratch, ms);
      Holds(bm', scratch') && RowOf(bm', scratch', b + 1) == Lift(f, RowOf(bm, scratch, b))
    decreases |bm|
  {
    if |bm| > 1 && Siblings(Shift(bm[0], b), Shift(bm[1], b)) {
      PairLifts(f, bm, scratch, b);
    } else if bm != [] {
      SingleLifts(f, bm, scratch, b);
    }
  }

  lemma {:induction false} SingleLifts<T>(f: (T, T) -> T, bm: seq<nat>, scratch: map<nat, T>, b: nat)
    requires Increasing(bm) && Holds(bm, scratch) && bm != [] &&
             (|bm| > 1 ==> !Siblings(Shift(bm[0], b), Shift(bm[1], b)))
    ensures
      var ms := Pairs(bm, b);
      var bm', scratch' := DropRights(bm, ms), MergeEntries(f, scratch, ms);
      Holds(bm', scratch') && RowOf(bm', scratch', b + 1) == Lift(f, RowOf(bm, scratch, b))
    decreases |bm|, 0
  {
    var x, rest, ms := bm[0], bm[1..], Pairs(bm, b);
    assert ms == Pairs(rest, b);
    assert bm == [x] + rest;
    HeadIsNew(bm);
    if Mentions(ms, x) { PairsMention(rest, b, x); }
    LevelIsLift(f, rest, scratch, b);
    HeadKept(x, rest, ms);
    EntryKept(f, scratch, ms, x);
    var bm' := DropRights(rest, ms);
    assert ([x] + bm')[1..] == bm';
    assert RowOf(bm, scratch, b)[1..] == RowOf(rest, scratch, b);
  }

  lemma {:induction false} PairLifts<T>(f: (T, T) -> T, bm: seq<nat>, scratch: map<nat, T>, b: nat)
    requires Increasing(bm) && Holds(bm, scratch) && |bm| > 1 && Siblings(Shift(bm[0], b), Shift(bm[1], b))
    ensures
      var ms := Pairs(bm, b);
      var bm', scratch' := DropRights(bm, ms), MergeEntries(f, scratch, ms);
      Holds(bm', scratch') && RowOf(bm', scratch', b + 1) == Lift(f, RowOf(bm, scratch, b))
    decreases |bm|, 0
  {
    var l, r, rest, ms := bm[0], bm[1], bm[2..], Pairs(bm[2..], b);
    var s1 := MergeEntry(f, scratch, (l, r));
    assert Pairs(bm, b)[1..] == ms;
    assert bm[1..][1..] == rest && bm == [l, r] + rest;
    HeadIsNew(bm);
    HeadIsNew(bm[1..]);
    if Mentions(ms, l) { PairsMention(rest, b, l); }
    assert Without(bm, r) == [l] + rest;
    LevelIsLift(f, rest, s1, b);
    HeadKept(l, rest, ms);
    EntryKept(f, s1, ms, l);
    RowSame(rest, scratch, s1, b);
    var bm' := DropRights(rest, ms);
    assert ([l] + bm')[1..] == bm';
    assert RowOf(bm, scratch, b)[1..] == RowOf(bm[1..], scratch, b);
    assert RowOf(bm[1..], scratch, b)[1..] == RowOf(rest, scratch, b);
    assert RowOf(bm, scratch, b)[2..] == RowOf(rest, scratch, b);
  }

  lemma {:induction false} WithoutKeepsOrder(bm: seq<nat>, r: nat)
    requires Increasing(bm)
    ensures Increasing(Without(bm, r)) && (forall x :: x in Without(bm, r) ==> x in bm)
  {
    if bm != [] && bm[0] != r {
      var w := Without(bm[1..], r);
      WithoutKeepsOrder(bm[1..], r);
      assert Without(bm, r)[1..] == w;
      if w != [] {
        IncreasingHead(bm, w[0]);
      }
    }
  }

  lemma {:induction false} DropKeepsOrder(bm: seq<nat>, ms: seq<(nat, nat)>)
    requires Increasing(bm)
    ensures Increasing(DropRights(bm, ms)) && (forall x :: x in DropRights(bm, ms) ==> x in bm)
    decreases |ms|
  {
    if ms != [] {
      WithoutKeepsOrder(bm, ms[0].1);
      DropKeepsOrder(Without(bm, ms[0].1), ms[1..]);
    }
  }

  lemma {:induction false} LowestRow<T>(bm: seq<nat>, leaves: map<nat, T>)
    requires Increasing(bm) && Holds(bm, leaves)
    ensures Ascending(RowOf(bm, leaves, 0)) && |RowOf(bm, leaves, 0)| == |bm|
    ensures forall j: nat :: Get(RowOf(bm, leaves, 0), j) == if j in bm then Some(leaves[j]) else None
    decreases |bm|
  {
    if bm != [] {
      var row := RowOf(bm, leaves, 0);
      LowestRow(bm[1..], leaves);
      assert row[1..] == RowOf(bm[1..], leaves, 0);
    }
  }

  lemma {:induction false} RowShape<T>(bm: seq<nat>, scratch: map<nat, T>, b: nat)
    requires Holds(bm, scratch)
    ensures |RowOf(bm, scratch, b)| == |bm|
    ensures bm != [] ==> RowOf(bm, scratch, b)[0] == (Shift(bm[0], b), scratch[bm[0]])
    ensures |bm| > 1 ==> RowOf(bm, scratch, b)[1] == (Shift(bm[1], b), scratch[bm[1]])
    decreases |bm|
  {
    if bm != [] {
      RowShape(bm[1..], scratch, b);
    }
  }

  /** What holds between levels: the positions left are the active nodes of the tree. */
  ghost predicate Level<T(!new)>(f: (T, T) -> T, leaves: map<nat, T>, bm: seq<nat>, scratch: map<nat, T>, b: nat,
                                 height: nat) {
    Increasing(bm) && Holds(bm, scratch) && bm != [] && (forall x :: x in bm ==> x < TwoTo(height)) &&
    Ascending(RowOf(bm, scratch, b)) && forall j: nat :: Get(RowOf(bm, scratch, b), j) == Node(f, leaves, b, j)
  }

  lemma LevelBegins<T(!new)>(f: (T, T) -> T, leaves: map<nat, T>, bm: seq<nat>, height: nat)
    requires Increasing(bm) && bm != [] && (forall x :: x in bm <==> x in leaves) && forall x :: x in bm ==>
             x < TwoTo(height)
    ensures Level(f, leaves, bm, leaves, 0, height)
  {
    LowestRow(bm, leaves);
  }

  lemma LevelStep<T(!new)>(f: (T, T) -> T, leaves: map<nat, T>, bm: seq<nat>, scratch: map<nat, T>, b: nat, height: nat)
    requires Level(f, leaves, bm, scratch, b, height)
    ensures
      var ms := Pairs(bm, b);
      Level(f, leaves, DropRights(bm, ms), MergeEntries(f, scratch, ms), b + 1, height)
  {
    var row, ms := RowOf(bm, scratch, b), Pairs(bm, b);
    var bm', scratch' := DropRights(bm, ms), MergeEntries(f, scratch, ms);
    LevelIsLift(f, bm, scratch, b);
    DropKeepsOrder(bm, ms);
    LiftAscending(f, row);
    RowShape(bm, scratch, b);
    RowShape(bm', scratch', b + 1);
    forall j: nat
      ensures Get(Lift(f, row), j) == Node(f, leaves, b + 1, j)
    {
      LiftCombines(f, row, j);
    }
  }

  lemma {:induction false} SingleClimbs<T(!new)>(f: (T, T) -> T, leaves: map<nat, T>, bm: seq<nat>, scratch: map<nat,
                                                 T>, b: nat, height: nat)
    requires Level(f, leaves, bm, scratch, b, height) && |bm| == 1 && b <= height
    ensures Level(f, leaves, bm, scratch, height, height)
    decreases height - b
  {
    if b < height {
      LevelStep(f, leaves, bm, scratch, b, height);
      SingleClimbs(f, leaves, bm, scratch, b + 1, height);
    }
  }

  /** At the top exactly one position is left, and it holds the root. */
  lemma TopIsRoot<T(!new)>(f: (T, T) -> T, leaves: map<nat, T>, bm: seq<nat>, scratch: map<nat, T>, height: nat)
    requires Level(f, leaves, bm, scratch, height, height)
    ensures |bm| == 1 && Node(f, leaves, height, 0) == Some(scratch[bm[0]])
  {
    RowShape(bm, scratch, height);
    assert bm[0] in bm;
    ShiftOut(bm[0], 0, height);
    if |bm| > 1 {
      assert bm[1] in bm;
      ShiftOut(bm[1], 0, height);
    }
  }

  lemma {:induction false} ShiftOut(x: nat, b: nat, h: nat)
    requires b <= h && Shift(x, b) < TwoTo(h - b)
    ensures Shift(x, h) == 0
    decreases h - b
  {
    if b < h {
      ShiftOut(x, b + 1, h);
    }
  }

  /** The position waiting for a sibling, if any, and the bits still to come. */
  function Unpaired(prev: int, bits: seq<nat>): seq<nat> {
    if prev < 0 then bits else [prev] + bits
  }

  predicate SiblingOf(prev: int, pos: nat, b: nat)
    requires prev >= -1
  {
    prev != -1 && Shift(prev, b + 1) == Shift(pos, b + 1) && Shift(prev, b) % 2 == 0
  }

  lemma ScanHit(prev: nat, pos: nat, bits: seq<nat>, b: nat)
    requires SiblingOf(prev, pos, b)
    ensures Pairs(Unpaired(prev, [pos] + bits), b) == [(prev, pos)] + Pairs(bits, b)
  {
    assert Unpaired(prev, [pos] + bits)[2..] == bits;
  }

  lemma ScanMiss(prev: int, pos: nat, bits: seq<nat>, b: nat)
    requires prev >= -1 && !SiblingOf(prev, pos, b)
    ensures Pairs(Unpaired(prev, [pos] + bits), b) == Pairs(Unpaired(pos, bits), b)
  {
    if prev != -1 {
      assert Unpaired(prev, [pos] + bits)[1..] == [pos] + bits;
    }
  }

  /** The scan of one level. */
  method FindMerges(bm: nat, b: nat) returns (merges: seq<(nat, nat)>)
    ensures merges == Pairs(Ones(bm), b)
  {
    merges := [];
    var bits := bm;
    var prev: int := -1;
    ghost var todo := Pairs(Ones(bm), b);
    while bits != 0
      invariant prev >= -1
      invariant todo == Pairs(Unpaired(prev, Ones(bits)), b)
      invariant merges + todo == Pairs(Ones(bm), b)
      decreases bits
    {
      var pos, rest := Lowest(bits), ClearLowest(bits);
      OnesStep(bits);
      if SiblingOf(prev, pos, b) {
        var left: nat := prev;
        ScanHit(left, pos, Ones(rest), b);
        todo := Pairs(Ones(rest), b);
        merges := merges + [(left, pos)];
        prev := -1;
      } else {
        ScanMiss(prev, pos, Ones(rest), b);
        prev := pos;
      }
      bits := rest;
    }
  }

  /** The merges of one level, applied one after the other. */
  method ApplyMerges<T>(f: (T, T) -> T, bm: nat, scratch: map<nat, T>, merges: seq<(nat, nat)>)
      returns (bm': nat, scratch': map<nat, T>)
    ensures Ones(bm') == DropRights(Ones(bm), merges) && scratch' == MergeEntries(f, scratch, merges)
  {
    bm', scratch' := bm, scratch;
    var k := 0;
    while k < |merges|
      invariant k <= |merges|
      invariant DropRights(Ones(bm'), merges[k..]) == DropRights(Ones(bm), merges)
      invariant MergeEntries(f, scratch', merges[k..]) == MergeEntries(f, scratch, merges)
    {
      assert merges[k..][1..] == merges[k + 1..];
      var (left, right) := merges[k];
      scratch' := MergeEntry(f, scratch', (left, right));
      OnesClear(bm', right);
      bm' := ClearBit(bm', right);
      k := k + 1;
    }
  }

  /** One round of the merge loop. */
  method MergeLevel<T(!new)>(f: (T, T) -> T, ghost leaves: map<nat, T>, bm: nat, scratch: map<nat, T>, bit: nat,
                             ghost height: nat)
      returns (bm': nat, scratch': map<nat, T>)
    requires Level(f, leaves, Ones(bm), scratch, bit, height)
    ensures Level(f, leaves, Ones(bm'), scratch', bit + 1, height)
  {
    LevelStep(f, leaves, Ones(bm), scratch, bit, height);
    var merges := FindMerges(bm, bit);
    bm', scratch' := ApplyMerges(f, bm, scratch, merges);
  }

  lemma {:induction false} RaisedIncreasing(xs: seq<nat>)
    requires Increasing(xs)
    ensures Increasing(Raise(xs))
  {
    if xs != [] {
      RaisedIncreasing(xs[1..]);
      assert Raise(xs)[1..] == Raise(xs[1..]);
    }
  }

  lemma DigitIncreasing(d: nat, xs: seq<nat>)
    requires Increasing(xs)
    ensures Increasing(Digit(d, xs))
  {
    RaisedIncreasing(xs);
    assert ([0] + Raise(xs))[1..] == Raise(xs) && [] + Raise(xs) == Raise(xs);
  }

  /** The bits of every bitmap are listed lowest first. */
  lemma {:induction false} OnesIncreasing(n: nat)
    ensures Increasing(Ones(n))
  {
    if n > 0 {
      OnesIncreasing(n / 2);
      DigitIncreasing(n % 2, Ones(n / 2));
    }
  }

  /** The bottom-up merge computes the root of the recursive tree and leaves exactly one bit. */
  method MergeTree<T(!new)>(f: (T, T) -> T, leaves: map<nat, T>, pairBitmap: nat, height: nat)
      returns (bm: nat, root: T)
    requires pairBitmap != 0 && (forall x :: x in Ones(pairBitmap) <==> x in leaves)
    requires forall x :: x in Ones(pairBitmap) ==> x < TwoTo(height)
    ensures PopCount(bm) == 1 && Node(f, leaves, height, 0) == Some(root)
  {
    bm := pairBitmap;
    var scratch: map<nat, T> := leaves;
    var bit := 0;
    OnesEmptyIff(pairBitmap);
    OnesIncreasing(pairBitmap);
    LevelBegins(f, leaves, Ones(bm), height);
    while bit < height
      invariant bit <= height
      invariant Level(f, leaves, Ones(bm), scratch, bit, height)
    {
      PopCountIsOnes(bm);
      if PopCount(bm) <= 1 {
        SingleClimbs(f, leaves, Ones(bm), scratch, bit, height);
        break;
      }
      bm, scratch := MergeLevel(f, leaves, bm, scratch, bit, height);
      bit := bit + 1;
    }
    TopIsRoot(f, leaves, Ones(bm), scratch, height);
    PopCountIsOnes(bm);
    OnesEmptyIff(bm);
    OnesStep(bm);
    root := scratch[Lowest(bm)];
  }

  // ---- the page ----

  /** The ascending list of non-zero slots among the first `n`. */
  function SlotBitmap<S(==)>(page: seq<S>, zero: S, n: nat): seq<nat>
    requires n <= |page|
  {
    if n == 0 then [] else SlotBitmap(page, zero, n - 1) + if page[n - 1] != zero then [n - 1] else []
  }

  /** The ascending list of pairs, among the first `n`, with a bit set in `slots`. */
  function PairBitmap(slots: seq<nat>, n: nat): seq<nat> {
    if n == 0 then [] else PairBitmap(slots, n - 1) + if 2 * (n - 1) in slots || 2 * (n - 1) + 1 in slots then [n - 1]
    else []
  }

  /** The integer with those bits. */
  function SlotBits<S(==)>(page: seq<S>, zero: S, n: nat): nat
    requires n <= |page|
  {
    if n == 0 then 0 else if page[n - 1] != zero then SetBit(SlotBits(page, zero, n - 1), n - 1)
    else SlotBits(page, zero, n - 1)
  }

  lemma {:induction false} SlotBitmapBelow<S>(page: seq<S>, zero: S, n: nat)
    requires n <= |page|
    ensures Below(SlotBitmap(page, zero, n), n)
  {
    if n > 0 {
      SlotBitmapBelow(page, zero, n - 1);
    }
  }

  lemma {:induction false} SlotBitsAre<S>(page: seq<S>, zero: S, n: nat)
    requires n <= |page|
    ensures Ones(SlotBits(page, zero, n)) == SlotBitmap(page, zero, n)
  {
    if n > 0 {
      SlotBitsAre(page, zero, n - 1);
      SlotBitmapBelow(page, zero, n - 1);
      NextBit(SlotBits(page, zero, n - 1), SlotBitmap(page, zero, n - 1), n - 1, page[n - 1] != zero);
    }
  }

  /** A bit above all others, set or not. */
  lemma NextBit(bits: nat, list: seq<nat>, i: nat, on: bool)
    requires Ones(bits) == list && Below(list, i)
    ensures Ones(if on then SetBit(bits, i) else bits) == list + if on then [i] else []
  {
    OnesSet(bits, i);
    assert list + [] == list;
  }

  predicate Active<S(==)>(page: seq<S>, zero: S, i: nat)
    requires 2 * i + 1 < |page|
  {
    page[2 * i] != zero || page[2 * i + 1] != zero
  }

  /** The hashed pairs. */
  function Leaves<S(==), T>(leaf: (S, S) -> T, page: seq<S>, zero: S): map<nat, T> {
    map i: nat | 0 <= i < |page| / 2 && Active(page, zero, i) :: leaf(page[2 * i], page[2 * i + 1])
  }

  /** The commitment by the recursive definition: the tree root, absent for a zero page, sealed with the bitmap. */
  function Commitment<S(==), T>(leaf: (S, S) -> T, parent: (T, T) -> T, seal: (nat, Option<T>) -> T, page: seq<S>,
                                zero: S, height: nat): T {
    seal(SlotBits(page, zero, |page|), Node(parent, Leaves(leaf, page, zero), height, 0))
  }

  lemma {:induction false} SlotBitmapExact<S>(page: seq<S>, zero: S, n: nat, i: nat)
    requires n <= |page|
    ensures i in SlotBitmap(page, zero, n) <==> i < n && page[i] != zero
  {
    if n > 0 {
      SlotBitmapExact(page, zero, n - 1, i);
    }
  }

  lemma {:induction false} PairBitmapExact(slots: seq<nat>, n: nat, i: nat)
    ensures i in PairBitmap(slots, n) <==> i < n && (2 * i in slots || 2 * i + 1 in slots)
  {
    if n > 0 {
      PairBitmapExact(slots, n - 1, i);
    }
  }

  lemma PairBitmapBelow(slots: seq<nat>, n: nat)
    ensures Below(PairBitmap(slots, n), n)
  {
    forall y | y in PairBitmap(slots, n)
      ensures y < n
    {
      PairBitmapExact(slots, n, y);
    }
  }

  lemma SlotBitExact<S>(page: seq<S>, zero: S, i: nat)
    ensures Bit(SlotBits(page, zero, |page|), i) <==> i < |page| && page[i] != zero
  {
    SlotBitsAre(page, zero, |page|);
    SlotBitmapExact(page, zero, |page|, i);
    BitIffOne(SlotBits(page, zero, |page|), i);
  }

  lemma PairBitExact(slots: nat, pair: nat, pairs: nat, i: nat)
    requires Ones(pair) == PairBitmap(Ones(slots), pairs)
    ensures Bit(pair, i) <==> i < pairs && (Bit(slots, 2 * i) || Bit(slots, 2 * i + 1))
  {
    PairBitmapExact(Ones(slots), pairs, i);
    BitIffOne(pair, i);
    BitIffOne(slots, 2 * i);
    BitIffOne(slots, 2 * i + 1);
  }

  /** One more pair. */
  lemma PairBitStep(slots: nat, pair: nat, i: nat)
    requires Ones(pair) == PairBitmap(Ones(slots), i)
    ensures
      var next := if Bit(slots, 2 * i) || Bit(slots, 2 * i + 1) then SetBit(pair, i) else pair;
      Ones(next) == PairBitmap(Ones(slots), i + 1)
  {
    BitIffOne(slots, 2 * i);
    BitIffOne(slots, 2 * i + 1);
    PairBitmapBelow(Ones(slots), i);
    NextBit(pair, Ones(pair), i, Bit(slots, 2 * i) || Bit(slots, 2 * i + 1));
  }

  method ComputeSlotBitmap<S(==)>(page: seq<S>, zero: S) returns (bm: nat)
    ensures bm == SlotBits(page, zero, |page|)
    ensures forall i: nat :: Bit(bm, i) <==> i < |page| && page[i] != zero
  {
    bm := 0;
    for i := 0 to |page|
      invariant bm == SlotBits(page, zero, i)
    {
      if page[i] != zero {
        bm := SetBit(bm, i);
      }
    }
    forall i: nat
      ensures Bit(bm, i) <==> i < |page| && page[i] != zero
    {
      SlotBitExact(page, zero, i);
    }
  }

  method DerivePairBitmap(slots: nat, pairs: nat) returns (pair: nat)
    ensures Ones(pair) == PairBitmap(Ones(slots), pairs)
    ensures forall i: nat :: Bit(pair, i) <==> i < pairs && (Bit(slots, 2 * i) || Bit(slots, 2 * i + 1))
  {
    pair := 0;
    for i := 0 to pairs
      invariant Ones(pair) == PairBitmap(Ones(slots), i)
    {
      PairBitStep(slots, pair, i);
      if Bit(slots, 2 * i) || Bit(slots, 2 * i + 1) {
        pair := SetBit(pair, i);
      }
    }
    forall i: nat
      ensures Bit(pair, i) <==> i < pairs && (Bit(slots, 2 * i) || Bit(slots, 2 * i + 1))
    {
      PairBitExact(slots, pair, pairs, i);
    }
  }

  /** The pairs with a set bit are exactly the active ones. */
  lemma PairBitmapIsActive<S, T>(leaf: (S, S) -> T, page: seq<S>, zero: S)
    requires |page| % 2 == 0
    ensures
      var pairs := PairBitmap(SlotBitmap(page, zero, |page|), |page| / 2);
      forall i: nat :: i in pairs <==> i in Leaves(leaf, page, zero)
  {
    var slots := SlotBitmap(page, zero, |page|);
    forall i: nat
      ensures i in PairBitmap(slots, |page| / 2) <==> i in Leaves(leaf, page, zero)
    {
      PairBitmapExact(slots, |page| / 2, i);
      SlotBitmapExact(page, zero, |page|, 2 * i);
      SlotBitmapExact(page, zero, |page|, 2 * i + 1);
    }
  }

  ghost predicate Hashed<S, T>(leaf: (S, S) -> T, page: seq<S>, scratch: map<nat, T>) {
    forall i: nat :: i in scratch ==> i < |page| / 2 && scratch[i] == leaf(page[2 * i], page[2 * i + 1])
  }

  lemma HashOne<S, T>(leaf: (S, S) -> T, page: seq<S>, scratch: map<nat, T>, i: nat)
    requires Hashed(leaf, page, scratch) && i < |page| / 2
    ensures Hashed(leaf, page, scratch[i := leaf(page[2 * i], page[2 * i + 1])])
  {
  }

  lemma HashedAll<S, T>(leaf: (S, S) -> T, page: seq<S>, zero: S, scratch: map<nat, T>)
    requires Hashed(leaf, page, scratch)
    requires forall i: nat :: i in scratch <==> i < |page| / 2 && (page[2 * i] != zero || page[2 * i + 1] != zero)
    ensures scratch == Leaves(leaf, page, zero)
  {
  }

  /** Phase 1: hash each active pair, its left slot first. */
  method HashLeaves<S(==), T>(leaf: (S, S) -> T, page: seq<S>, zero: S, pairBitmap: nat) returns (scratch: map<nat, T>)
    requires forall i: nat :: i in Ones(pairBitmap) <==>
      i < |page| / 2 && (page[2 * i] != zero || page[2 * i + 1] != zero)
    ensures forall i: nat :: i in scratch <==> i < |page| / 2 && (page[2 * i] != zero || page[2 * i + 1] != zero)
    ensures forall i: nat :: i in scratch ==> scratch[i] == leaf(page[2 * i], page[2 * i + 1])
    ensures scratch == Leaves(leaf, page, zero)
  {
    scratch := map[];
    var bits := pairBitmap;
    ghost var done: seq<nat> := [];
    while bits != 0
      invariant Ones(pairBitmap) == done + Ones(bits)
      invariant forall i: nat :: i in scratch <==> i in done
      invariant Hashed(leaf, page, scratch)
      decreases bits
    {
      OnesStep(bits);
      var idx := Lowest(bits);
      assert idx in Ones(pairBitmap);
      HashOne(leaf, page, scratch, idx);
      scratch := scratch[idx := leaf(page[2 * idx], page[2 * idx + 1])];
      done := done + [idx];
      bits := ClearLowest(bits);
    }
    assert Ones(bits) == [] && Ones(pairBitmap) == done;
    HashedAll(leaf, page, zero, scratch);
  }

  /** The non-zero slots lie in these pairs, and each of these pairs has one. */
  ghost predicate ActiveAt<S>(page: seq<S>, zero: S, pairs: set<nat>) {
    (forall k :: 0 <= k < |page| && page[k] != zero ==> k / 2 in pairs) &&
    forall i :: i in pairs ==> 2 * i + 1 < |page| && (page[2 * i] != zero || page[2 * i + 1] != zero)
  }

  lemma ActiveKeys<S, T>(leaf: (S, S) -> T, page: seq<S>, zero: S, pairs: set<nat>)
    requires ActiveAt(page, zero, pairs) && |page| % 2 == 0
    ensures Leaves(leaf, page, zero).Keys == pairs
    ensures forall i :: i in pairs ==> Leaves(leaf, page, zero)[i] == leaf(page[2 * i], page[2 * i + 1])
  {
    forall i: nat
      ensures i in Leaves(leaf, page, zero) <==> i in pairs
    {
      if i in Leaves(leaf, page, zero) {
        assert (2 * i) / 2 == i && (2 * i + 1) / 2 == i;
      }
    }
  }

  /** A single leaf is the node of every level above it, unhashed. */
  lemma {:induction false} OneLeaf<T>(f: (T, T) -> T, leaves: map<nat, T>, i: nat, b: nat, j: nat)
    requires leaves.Keys == {i}
    ensures Node(f, leaves, b, j) == if j == Shift(i, b) then Some(leaves[i]) else None
    decreases b
  {
    if b == 0 {
      assert j in leaves <==> j in {i};
    } else {
      OneLeaf(f, leaves, i, b - 1, 2 * j);
      OneLeaf(f, leaves, i, b - 1, 2 * j + 1);
    }
  }

  lemma {:induction false} ShiftKeepsOrder(i: nat, k: nat, b: nat)
    requires i < k
    ensures Shift(i, b) <= Shift(k, b)
  {
    if b > 0 {
      ShiftKeepsOrder(i, k, b - 1);
    }
  }

  /** Two leaves are hashed once, where their paths meet, the left one first. */
  lemma {:induction false} TwoLeaves<T>(f: (T, T) -> T, leaves: map<nat, T>, i: nat, k: nat, b: nat, j: nat)
    requires leaves.Keys == {i, k} && i < k
    ensures Node(f, leaves, b, j) ==
            if j == Shift(i, b) == Shift(k, b) then Some(f(leaves[i], leaves[k]))
            else if j == Shift(i, b) then Some(leaves[i])
            else if j == Shift(k, b) then Some(leaves[k])
            else None
    decreases b
  {
    if b == 0 {
      assert j in leaves <==> j in {i, k};
    } else {
      TwoLeaves(f, leaves, i, k, b - 1, 2 * j);
      TwoLeaves(f, leaves, i, k, b - 1, 2 * j + 1);
      ShiftKeepsOrder(i, k, b - 1);
    }
  }

  lemma OnePairCommitment<S, T>(leaf: (S, S) -> T, parent: (T, T) -> T, seal: (nat, Option<T>) -> T, page: seq<S>,
                                zero: S, height: nat, i: nat)
    requires |page| == 2 * TwoTo(height) && ActiveAt(page, zero, {i})
    ensures Commitment(leaf, parent, seal, page, zero, height) ==
            seal(SlotBits(page, zero, |page|), Some(leaf(page[2 * i], page[2 * i + 1])))
  {
    assert i in {i};
    ActiveKeys(leaf, page, zero, {i});
    OneLeaf(parent, Leaves(leaf, page, zero), i, height, 0);
    ShiftOut(i, 0, height);
  }

  lemma TwoPairCommitment<S, T>(leaf: (S, S) -> T, parent: (T, T) -> T, seal: (nat, Option<T>) -> T, page: seq<S>,
                                zero: S, height: nat, i: nat, k: nat)
    requires |page| == 2 * TwoTo(height) && i < k && ActiveAt(page, zero, {i, k})
    ensures Commitment(leaf, parent, seal, page, zero, height) ==
            seal(SlotBits(page, zero, |page|),
                 Some(parent(leaf(page[2 * i], page[2 * i + 1]), leaf(page[2 * k], page[2 * k + 1]))))
  {
    var pairs := {i, k};
    assert i in pairs && k in pairs;
    ActiveKeys(leaf, page, zero, pairs);
    TwoLeaves(parent, Leaves(leaf, page, zero), i, k, height, 0);
    ShiftOut(i, 0, height);
    ShiftOut(k, 0, height);
  }

  function At<T>(leaves: map<nat, T>, i: nat): Option<T> {
    if i in leaves then Some(leaves[i]) else None
  }

  /** The leaves of a half appear in the whole, in the right half `n` further. */
  ghost predicate Half<T>(part: map<nat, T>, whole: map<nat, T>, right: bool, n: nat) {
    forall i: nat :: i < n ==> At(part, i) == At(whole, if right then i + n else i)
  }

  lemma {:induction false} SubTree<T>(f: (T, T) -> T, part: map<nat, T>, whole: map<nat, T>, right: bool, h: nat,
                                      b: nat, j: nat, k: nat)
    requires b <= h && j < TwoTo(h - b) && k == (if right then j + TwoTo(h - b) else j)
    requires Half(part, whole, right, TwoTo(h))
    ensures Node(f, part, b, j) == Node(f, whole, b, k)
    decreases b
  {
    if b == 0 {
      assert At(part, j) == At(whole, k);
    } else {
      assert TwoTo(h - (b - 1)) == 2 * TwoTo(h - b);
      SubTree(f, part, whole, right, h, b - 1, 2 * j, 2 * k);
      SubTree(f, part, whole, right, h, b - 1, 2 * j + 1, 2 * k + 1);
    }
  }

  /** The root of a page combines the roots of its two halves. */
  lemma RootOfHalves<S, T>(leaf: (S, S) -> T, parent: (T, T) -> T, l: seq<S>, r: seq<S>, zero: S, height: nat)
    requires |l| == |r| == 2 * TwoTo(height)
    ensures
      var left := Node(parent, Leaves(leaf, l, zero), height, 0);
      var right := Node(parent, Leaves(leaf, r, zero), height, 0);
      Node(parent, Leaves(leaf, l + r, zero), height + 1, 0) ==
      if left.Some? && right.Some? then Some(parent(left.value, right.value)) else if left.Some? then left else right
  {
    var whole := Leaves(leaf, l + r, zero);
    SubTree(parent, Leaves(leaf, l, zero), whole, false, height, height, 0, 0);
    SubTree(parent, Leaves(leaf, r, zero), whole, true, height, height, 0, 1);
  }

  lemma {:induction false} EmptyTree<T>(f: (T, T) -> T, b: nat, j: nat)
    ensures Node(f, map[], b, j) == None
  {
    if b > 0 {
      EmptyTree(f, b - 1, 2 * j);
      EmptyTree(f, b - 1, 2 * j + 1);
    }
  }

  lemma ZeroPage<S, T>(leaf: (S, S) -> T, page: seq<S>, zero: S)
    requires SlotBitmap(page, zero, |page|) == []
    ensures Leaves(leaf, page, zero) == map[]
  {
    forall i | 0 <= i < |page|
      ensures page[i] == zero
    {
      SlotBitmapExact(page, zero, |page|, i);
    }
  }

  lemma SomePairActive(slots: seq<nat>, pairs: nat)
    requires slots != [] && Below(slots, 2 * pairs)
    ensures PairBitmap(slots, pairs) != []
  {
    var s, i := slots[0], slots[0] / 2;
    assert s in slots && (s == 2 * i || s == 2 * i + 1);
    PairBitmapExact(slots, pairs, i);
  }

  lemma PairListReady<S, T>(leaf: (S, S) -> T, page: seq<S>, zero: S, pairs: nat)
    requires |page| == 2 * pairs && SlotBitmap(page, zero, |page|) != []
    ensures
      var list := PairBitmap(SlotBitmap(page, zero, |page|), pairs);
      list != [] && Below(list, pairs) && forall x: nat :: x in list <==> x in Leaves(leaf, page, zero)
  {
    assert |page| / 2 == pairs && |page| % 2 == 0;
    PairBitmapIsActive(leaf, page, zero);
    SomePairActive(SlotBitmap(page, zero, |page|), pairs) by {
      SlotBitmapBelow(page, zero, |page|);
    }
    PairBitmapBelow(SlotBitmap(page, zero, |page|), pairs);
  }

  /** The pair bitmap is what the merge asks for. */
  lemma PairsReady<S, T>(leaf: (S, S) -> T, page: seq<S>, zero: S, height: nat, slots: nat, pair: nat)
    requires |page| == 2 * TwoTo(height) && Ones(slots) == SlotBitmap(page, zero, |page|) && slots != 0
    requires Ones(pair) == PairBitmap(Ones(slots), TwoTo(height))
    ensures pair != 0 && Below(Ones(pair), TwoTo(height))
    ensures forall x: nat :: x in Ones(pair) <==> x in Leaves(leaf, page, zero)
  {
    OnesEmptyIff(slots);
    OnesEmptyIff(pair);
    PairListReady(leaf, page, zero, TwoTo(height));
  }

  /** Phases 1 and 2 on a page that is not all zero. */
  method TreeRoot<S(==), T(!new)>(leaf: (S, S) -> T, parent: (T, T) -> T, page: seq<S>, zero: S, height: nat,
                                  slots: nat) returns (root: T)
    requires |page| == 2 * TwoTo(height) && Ones(slots) == SlotBitmap(page, zero, |page|) && slots != 0
    ensures Node(parent, Leaves(leaf, page, zero), height, 0) == Some(root)
  {
    var pairBitmap := DerivePairBitmap(slots, TwoTo(height));
    PairsReady(leaf, page, zero, height, slots, pairBitmap);
    var scratch := HashLeaves(leaf, page, zero, pairBitmap);
    var bm, r := MergeTree(parent, scratch, pairBitmap, height);
    root := r;
  }

  lemma FewPairs<S, T>(leaf: (S, S) -> T, parent: (T, T) -> T, seal: (nat, Option<T>) -> T, page: seq<S>, zero: S,
                       height: nat)
    requires |page| == 2 * TwoTo(height)
    ensures
      var c, bits := Commitment(leaf, parent, seal, page, zero, height), SlotBits(page, zero, |page|);
      (ActiveAt(page, zero, {}) ==> bits == 0) &&
      (forall i: nat :: ActiveAt(page, zero, {i}) ==> c == seal(bits, Some(leaf(page[2 * i], page[2 * i + 1])))) &&
      forall i: nat, k: nat :: i < k && ActiveAt(page, zero, {i, k}) ==>
        c == seal(bits, Some(parent(leaf(page[2 * i], page[2 * i + 1]), leaf(page[2 * k], page[2 * k + 1]))))
  {
    if ActiveAt(page, zero, {}) {
      assert forall k :: 0 <= k < |page| ==> page[k] == zero;
      ZeroBits(page, zero, |page|);
    }
    forall i: nat | ActiveAt(page, zero, {i}) {
      OnePairCommitment(leaf, parent, seal, page, zero, height, i);
    }
    forall i: nat, k: nat | i < k && ActiveAt(page, zero, {i, k}) {
      TwoPairCommitment(leaf, parent, seal, page, zero, height, i, k);
    }
  }

  lemma {:induction false} ZeroBits<S>(page: seq<S>, zero: S, n: nat)
    requires n <= |page| && forall k :: 0 <= k < |page| ==> page[k] == zero
    ensures SlotBits(page, zero, n) == 0
  {
    if n > 0 {
      ZeroBits(page, zero, n - 1);
    }
  }

  /** `page_commit`, for a page of `2^height` pairs of slots. */
  method Commit<S(==), T(!new)>(leaf: (S, S) -> T, parent: (T, T) -> T, seal: (nat, Option<T>) -> T, page: seq<S>,
                                zero: S, height: nat)
      returns (c: T)
    requires |page| == 2 * TwoTo(height)
    ensures c == Commitment(leaf, parent, seal, page, zero, height)
    ensures ActiveAt(page, zero, {}) ==> c == seal(0, None)
    ensures forall i: nat :: ActiveAt(page, zero, {i}) ==>
      c == seal(SlotBits(page, zero, |page|), Some(leaf(page[2 * i], page[2 * i + 1])))
    ensures forall i: nat, k: nat :: i < k && ActiveAt(page, zero, {i, k}) ==>
      c == seal(SlotBits(page, zero, |page|),
                Some(parent(leaf(page[2 * i], page[2 * i + 1]), leaf(page[2 * k], page[2 * k + 1]))))
  {
    FewPairs(leaf, parent, seal, page, zero, height);
    var slots := ComputeSlotBitmap(page, zero);
    SlotBitsAre(page, zero, |page|);
    if slots == 0 {
      ZeroPage(leaf, page, zero);
      EmptyTree(parent, height, 0);
      return seal(0, None);
    }
    var root := TreeRoot(leaf, parent, page, zero, height, slots);
    c := seal(slots, Some(root));
  }

  // ---- binding ----

  /** Two different inputs of one of the three hashes with the same output. */
  datatype Collision<S, T> =
    | LeafCollision(a: (S, S), b: (S, S))
    | ParentCollision(l: (T, T), r: (T, T))
    | SealCollision(x: (nat, Option<T>), y: (nat, Option<T>))

  ghost predicate Collides<S, T>(leaf: (S, S) -> T, parent: (T, T) -> T, seal: (nat, Option<T>) -> T, c: Collision<S,
                                 T>) {
    match c
    case LeafCollision(a, b) => a != b && leaf(a.0, a.1) == leaf(b.0, b.1)
    case ParentCollision(l, r) => l != r && parent(l.0, l.1) == parent(r.0, r.1)
    case SealCollision(x, y) => x != y && seal(x.0, x.1) == seal(y.0, y.1)
  }

  /** Which nodes are active depends only on which leaves are. */
  lemma {:induction false} SameShape<T>(f: (T, T) -> T, a: map<nat, T>, b: map<nat, T>, lvl: nat, j: nat)
    requires a.Keys == b.Keys
    ensures Node(f, a, lvl, j).Some? == Node(f, b, lvl, j).Some?
    decreases lvl
  {
    if lvl == 0 {
      assert j in a <==> j in b;
    } else {
      SameShape(f, a, b, lvl - 1, 2 * j);
      SameShape(f, a, b, lvl - 1, 2 * j + 1);
    }
  }

  lemma {:induction false} ActiveAbove<T>(f: (T, T) -> T, a: map<nat, T>, lvl: nat, i: nat)
    requires i in a
    ensures Node(f, a, lvl, Shift(i, lvl)).Some?
    decreases lvl
  {
    if lvl > 0 {
      ActiveAbove(f, a, lvl - 1, i);
    }
  }

  /** Equal nodes above leaf `i`: the leaf hashes are equal, or some parent hash collides on the way down. */
  lemma {:induction false} Descend<T>(f: (T, T) -> T, a: map<nat, T>, b: map<nat, T>, lvl: nat, i: nat)
      returns (l: (T, T), r: (T, T), same: bool)
    requires a.Keys == b.Keys && i in a && Node(f, a, lvl, Shift(i, lvl)) == Node(f, b, lvl, Shift(i, lvl))
    ensures if same then a[i] == b[i] else l != r && f(l.0, l.1) == f(r.0, r.1)
    decreases lvl
  {
    l, r, same := (a[i], a[i]), (a[i], a[i]), true;
    if lvl > 0 {
      var j := Shift(i, lvl);
      SameShape(f, a, b, lvl - 1, 2 * j);
      SameShape(f, a, b, lvl - 1, 2 * j + 1);
      ActiveAbove(f, a, lvl - 1, i);
      var al, ar := Node(f, a, lvl - 1, 2 * j), Node(f, a, lvl - 1, 2 * j + 1);
      var bl, br := Node(f, b, lvl - 1, 2 * j), Node(f, b, lvl - 1, 2 * j + 1);
      if al.Some? && ar.Some? && (al, ar) != (bl, br) {
        l, r, same := (al.value, ar.value), (bl.value, br.value), false;
      } else {
        l, r, same := Descend(f, a, b, lvl - 1, i);
      }
    }
  }

  lemma SameBitmapSamePairs<S, T>(leaf: (S, S) -> T, p: seq<S>, q: seq<S>, zero: S)
    requires |p| == |q| && SlotBitmap(p, zero, |p|) == SlotBitmap(q, zero, |q|)
    ensures Leaves(leaf, p, zero).Keys == Leaves(leaf, q, zero).Keys
    ensures forall i :: 0 <= i < |p| ==> (p[i] == zero <==> q[i] == zero)
  {
    forall i | 0 <= i < |p|
      ensures p[i] == zero <==> q[i] == zero
    {
      SlotBitmapExact(p, zero, |p|, i);
      SlotBitmapExact(q, zero, |q|, i);
    }
  }

  /** The commitment is binding: two different pages with one commitment yield a collision of one of the hashes. */
  lemma Binding<S, T>(leaf: (S, S) -> T, parent: (T, T) -> T, seal: (nat, Option<T>) -> T,
                      p: seq<S>, q: seq<S>, zero: S, height: nat) returns (c: Collision<S, T>)
    requires |p| == |q| == 2 * TwoTo(height) && p != q
    requires Commitment(leaf, parent, seal, p, zero, height) == Commitment(leaf, parent, seal, q, zero, height)
    ensures Collides(leaf, parent, seal, c)
  {
    var a, b := Leaves(leaf, p, zero), Leaves(leaf, q, zero);
    var x := (SlotBits(p, zero, |p|), Node(parent, a, height, 0));
    var y := (SlotBits(q, zero, |q|), Node(parent, b, height, 0));
    if x != y {
      return SealCollision(x, y);
    }
    SlotBitsAre(p, zero, |p|);
    SlotBitsAre(q, zero, |q|);
    SameBitmapSamePairs(leaf, p, q, zero);
    var s :| 0 <= s < |p| && p[s] != q[s];
    var i := s / 2;
    assert Active(p, zero, i);
    ShiftOut(i, 0, height);
    var l, r, same := Descend(parent, a, b, height, i);
    if !same {
      return ParentCollision(l, r);
    }
    return LeafCollision((p[2 * i], p[2 * i + 1]), (q[2 * i], q[2 * i + 1]));
  }
}
