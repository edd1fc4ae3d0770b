/**
  The flat layout of a trie node: the parts `make_node` lays out one after the
  other, and the offset accessors that find them again.
 */
module NodeLayout {
  import opened Bitmap

  type Bytes = seq<nat>

  const HEADER: nat := 16

  // ---- little-endian integers ----

  function Pow256(w: nat): (r: nat)
    ensures r > 0
  {
    if w == 0 then 1 else 256 * Pow256(w - 1)
  }

  function Le(x: nat, w: nat): (r: Bytes)
    ensures |r| == w
  {
    if w == 0 then [] else [x % 256] + Le(x / 256, w - 1)
  }

  function UnLe(b: Bytes): nat {
    if b == [] then 0 else b[0] + 256 * UnLe(b[1..])
  }

  lemma {:induction false} LeRoundTrip(x: nat, w: nat)
    requires x < Pow256(w)
    ensures UnLe(Le(x, w)) == x
  {
    if w > 0 {
      LeRoundTrip(x / 256, w - 1);
      assert Le(x, w)[1..] == Le(x / 256, w - 1);
    }
  }

  // ---- segments ----

  function Flatten(segs: seq<Bytes>): Bytes {
    if segs == [] then [] else Flatten(segs[..|segs| - 1]) + segs[|segs| - 1]
  }

  /** Where segment `i` starts. */
  function Start(segs: seq<Bytes>, i: nat): nat
    requires i <= |segs|
  {
    if i == 0 then 0 else Start(segs, i - 1) + |segs[i - 1]|
  }

  lemma {:induction false} StartOfPrefix(segs: seq<Bytes>, n: nat, i: nat)
    requires i <= n <= |segs|
    ensures Start(segs[..n], i) == Start(segs, i)
  {
    if i > 0 {
      StartOfPrefix(segs, n, i - 1);
    }
  }

  lemma {:induction false} FlattenLength(segs: seq<Bytes>)
    ensures |Flatten(segs)| == Start(segs, |segs|)
    decreases |segs|
  {
    if segs != [] {
      FlattenLength(segs[..|segs| - 1]);
      StartOfPrefix(segs, |segs| - 1, |segs| - 1);
    }
  }

  lemma {:induction false} SegmentAt(segs: seq<Bytes>, i: nat)
    requires i < |segs|
    ensures
      var at := Start(segs, i);
      at + |segs[i]| <= |Flatten(segs)| && Flatten(segs)[at..at + |segs[i]|] == segs[i]
    decreases |segs|
  {
    var init := segs[..|segs| - 1];
    StartOfPrefix(segs, |segs| - 1, i);
    if i < |segs| - 1 {
      SegmentAt(init, i);
      var at := Start(segs, i);
      assert Flatten(segs)[at..at + |segs[i]|] == Flatten(init)[at..at + |segs[i]|];
    } else {
      FlattenLength(init);
    }
  }

  /** `seg` is found in `b` at `at`. */
  ghost predicate Found(b: Bytes, at: nat, seg: Bytes) {
    at + |seg| <= |b| && b[at..at + |seg|] == seg
  }

  ghost predicate InPlace(b: Bytes, segs: seq<Bytes>, i: nat)
    requires i < |segs|
  {
    Found(b, Start(segs, i), segs[i])
  }

  /** `b` is the segments, one after the other. */
  ghost predicate LaidOut(b: Bytes, segs: seq<Bytes>) {
    |b| == Start(segs, |segs|) && forall i :: 0 <= i < |segs| ==> InPlace(b, segs, i)
  }

  lemma FlattenLaysOut(segs: seq<Bytes>)
    ensures LaidOut(Flatten(segs), segs)
  {
    FlattenLength(segs);
    forall i | 0 <= i < |segs|
      ensures InPlace(Flatten(segs), segs, i)
    {
      SegmentAt(segs, i);
    }
  }

  lemma FoundInside(b: Bytes, at: nat, seg: Bytes, k: nat, part: Bytes)
    requires Found(b, at, seg) && Found(seg, k, part)
    ensures Found(b, at + k, part)
  {
    forall j | 0 <= j < |part|
      ensures b[at + k..at + k + |part|][j] == part[j]
    {
      assert seg[k..k + |part|][j] == seg[k + j] && b[at..at + |seg|][k + j] == b[at + k + j];
    }
  }

  // ---- arrays of integers ----

  /** `n * w`. */
  function Times(n: nat, w: nat): nat {
    if n == 0 then 0 else Times(n - 1, w) + w
  }

  lemma {:induction false} TimesIs(n: nat, w: nat)
    ensures Times(n, w) == n * w
  {
    if n > 0 {
      TimesIs(n - 1, w);
    }
  }

  function Words(xs: seq<nat>, w: nat): (r: seq<Bytes>)
    ensures |r| == |xs|
  {
    seq(|xs|, i requires 0 <= i < |xs| => Le(xs[i], w))
  }

  lemma {:induction false} WordStart(xs: seq<nat>, w: nat, i: nat)
    requires i <= |xs|
    ensures Start(Words(xs, w), i) == Times(i, w)
  {
    if i > 0 {
      WordStart(xs, w, i - 1);
    }
  }

  /** An array of `w`-byte integers. */
  function Array(xs: seq<nat>, w: nat): (r: Bytes)
    ensures |r| == Times(|xs|, w)
  {
    FlattenLength(Words(xs, w));
    WordStart(xs, w, |xs|);
    Flatten(Words(xs, w))
  }

  lemma IntFound(b: Bytes, at: nat, x: nat, w: nat)
    requires Found(b, at, Le(x, w)) && x < Pow256(w)
    ensures Int(b, at, w) == x
  {
    LeRoundTrip(x, w);
  }

  lemma IntInside(b: Bytes, at: nat, arr: Bytes, words: seq<Bytes>, i: nat, x: nat, w: nat)
    requires Found(b, at, arr) && LaidOut(arr, words) && i < |words| && |words[i]| == w && UnLe(words[i]) == x
    ensures Int(b, at + Start(words, i), w) == x
  {
    assert InPlace(arr, words, i);
    FoundInside(b, at, arr, Start(words, i), words[i]);
  }

  /** Every number of the array can be read at its place. */
  ghost predicate Reads(b: Bytes, at: nat, xs: seq<nat>, w: nat) {
    forall i {:trigger xs[i]} :: 0 <= i < |xs| ==> Int(b, at + Times(i, w), w) == xs[i]
  }

  lemma ArrayReads(b: Bytes, at: nat, xs: seq<nat>, w: nat)
    requires Found(b, at, Array(xs, w)) && forall i :: 0 <= i < |xs| ==> xs[i] < Pow256(w)
    ensures Reads(b, at, xs, w)
  {
    FlattenLaysOut(Words(xs, w));
    WordsRead(b, at, Array(xs, w), xs, w);
  }

  lemma WordsRead(b: Bytes, at: nat, arr: Bytes, xs: seq<nat>, w: nat)
    requires Found(b, at, arr) && LaidOut(arr, Words(xs, w)) && forall i :: 0 <= i < |xs| ==> xs[i] < Pow256(w)
    ensures Reads(b, at, xs, w)
  {
    forall i | 0 <= i < |xs|
      ensures Int(b, at + Times(i, w), w) == xs[i]
    {
      WordReads(b, at, arr, xs, i, w);
    }
  }

  lemma WordReads(b: Bytes, at: nat, arr: Bytes, xs: seq<nat>, i: nat, w: nat)
    requires Found(b, at, arr) && LaidOut(arr, Words(xs, w)) && i < |xs| && xs[i] < Pow256(w)
    ensures Int(b, at + Times(i, w), w) == xs[i]
  {
    WordIs(xs, i, w);
    WordStart(xs, w, i);
    IntInside(b, at, arr, Words(xs, w), i, xs[i], w);
  }

  lemma WordIs(xs: seq<nat>, i: nat, w: nat)
    requires i < |xs| && xs[i] < Pow256(w)
    ensures |Words(xs, w)[i]| == w && UnLe(Words(xs, w)[i]) == xs[i]
  {
    LeRoundTrip(xs[i], w);
  }

  // ---- the node ----

  /** What a node keeps for one child on disk. */
  datatype Kid = Kid(fnext: nat, fast: nat, slow: nat, version: nat, data: Bytes)

  /** What a node keeps on disk. */
  datatype Fields = Fields(
    mask: nat, hasValue: bool, pathStart: nat, pathEnd: nat, version: nat, kids: seq<Kid>,
    path: Bytes, value: Bytes, data: Bytes)

  ghost predicate KidOk(k: Kid) {
    k.fnext < Pow256(8) && k.fast < Pow256(4) && k.slow < Pow256(4) && k.version < Pow256(8)
  }

  /** The field widths of the node struct, and a mask with one bit for each child. */
  ghost predicate Ok(f: Fields) {
    f.mask < Pow256(2) && PopCount(f.mask) == |f.kids| && f.pathStart < 2 && f.version < Pow256(8) &&
    |f.path| == (f.pathEnd + 1) / 2 && |f.value| < Pow256(4) && |f.data| < 64 && |ChildData(f)| < Pow256(2) &&
    forall i :: 0 <= i < |f.kids| ==> KidOk(f.kids[i])
  }

  function Flags(f: Fields): nat {
    (if f.hasValue then 1 else 0) + 2 * f.pathStart + 4 * |f.data|
  }

  function Fnexts(kids: seq<Kid>): (r: seq<nat>)
    ensures |r| == |kids|
  {
    seq(|kids|, i requires 0 <= i < |kids| => kids[i].fnext)
  }

  function Fasts(kids: seq<Kid>): (r: seq<nat>)
    ensures |r| == |kids|
  {
    seq(|kids|, i requires 0 <= i < |kids| => kids[i].fast)
  }

  function Slows(kids: seq<Kid>): (r: seq<nat>)
    ensures |r| == |kids|
  {
    seq(|kids|, i requires 0 <= i < |kids| => kids[i].slow)
  }

  function Versions(kids: seq<Kid>): (r: seq<nat>)
    ensures |r| == |kids|
  {
    seq(|kids|, i requires 0 <= i < |kids| => kids[i].version)
  }

  function Datas(kids: seq<Kid>): (r: seq<Bytes>)
    ensures |r| == |kids|
  {
    seq(|kids|, i requires 0 <= i < |kids| => kids[i].data)
  }

  /** Where each child's data ends in the child data area. */
  function DataEnds(kids: seq<Kid>): (r: seq<nat>)
    ensures |r| == |kids|
  {
    seq(|kids|, i requires 0 <= i < |kids| => Start(Datas(kids), i + 1))
  }

  function ChildData(f: Fields): Bytes {
    Flatten(Datas(f.kids))
  }

  function Segments(f: Fields): (r: seq<Bytes>)
    ensures |r| == 14
  {
    [Le(f.mask, 2), [Flags(f)], [f.pathEnd], Le(|f.value|, 4), Le(f.version, 8),
     Array(Fnexts(f.kids), 8), Array(Fasts(f.kids), 4), Array(Slows(f.kids), 4), Array(Versions(f.kids), 8),
     Array(DataEnds(f.kids), 2),
     f.path, f.value, f.data, ChildData(f)]
  }

  /** The bytes `make_node` lays out, up to the child pointers. */
  function Image(f: Fields): Bytes {
    Flatten(Segments(f))
  }

  // ---- reading the fields back out of the bytes ----

  function Sub(b: Bytes, from: nat, to: nat): Bytes {
    if from <= to <= |b| then b[from..to] else []
  }

  function Int(b: Bytes, at: nat, w: nat): nat {
    UnLe(Sub(b, at, at + w))
  }

  function ByteAt(b: Bytes, at: nat): nat {
    if at < |b| then b[at] else 0
  }

  function ChildrenOf(b: Bytes): nat {
    PopCount(Int(b, 0, 2))
  }

  /** The offset accessors: each array starts where the one before it ends. */
  function FnextOffset(n: nat): nat { HEADER }
  function FastOffset(n: nat): nat { FnextOffset(n) + Times(n, 8) }
  function SlowOffset(n: nat): nat { FastOffset(n) + Times(n, 4) }
  function VersionOffset(n: nat): nat { SlowOffset(n) + Times(n, 4) }
  function DataEndOffset(n: nat): nat { VersionOffset(n) + Times(n, 8) }
  function PathOffset(n: nat): nat { DataEndOffset(n) + Times(n, 2) }

  function ValueOffset(b: Bytes): nat {
    PathOffset(ChildrenOf(b)) + (ByteAt(b, 3) + 1) / 2
  }

  function DataOffset(b: Bytes): nat {
    ValueOffset(b) + Int(b, 4, 4)
  }

  function ChildAreaOffset(b: Bytes): nat {
    DataOffset(b) + ByteAt(b, 2) / 4
  }

  /** `child_data_offset(index)`. */
  function ChildDataOffset(b: Bytes, i: nat): nat {
    if i == 0 then 0 else Int(b, DataEndOffset(ChildrenOf(b)) + Times(i - 1, 2), 2)
  }

  function KidOf(b: Bytes, i: nat): Kid {
    var n := ChildrenOf(b);
    Kid(Int(b, FnextOffset(n) + Times(i, 8), 8), Int(b, FastOffset(n) + Times(i, 4), 4),
        Int(b, SlowOffset(n) + Times(i, 4), 4),
        Int(b, VersionOffset(n) + Times(i, 8), 8),
        Sub(b, ChildAreaOffset(b) + ChildDataOffset(b, i), ChildAreaOffset(b) + ChildDataOffset(b, i + 1)))
  }

  /** `next_data() - this`: how many bytes the node takes on disk, without the size in front. */
  function BaseSize(b: Bytes): nat {
    ChildAreaOffset(b) + ChildDataOffset(b, ChildrenOf(b))
  }

  /** Every field, read through the accessors. */
  function Parse(b: Bytes): Fields {
    Fields(Int(b, 0, 2), ByteAt(b, 2) % 2 == 1, (ByteAt(b, 2) / 2) % 2, ByteAt(b, 3), Int(b, 8, 8),
           seq(ChildrenOf(b), i requires i >= 0 => KidOf(b, i)),
           Sub(b, PathOffset(ChildrenOf(b)), ValueOffset(b)), Sub(b, ValueOffset(b), DataOffset(b)),
           Sub(b, DataOffset(b), ChildAreaOffset(b)))
  }

  // ---- reading an image ----

  ghost predicate HeaderFound(b: Bytes, f: Fields) {
    Found(b, 0, Le(f.mask, 2)) && Found(b, 2, [Flags(f)]) && Found(b, 3, [f.pathEnd]) &&
    Found(b, 4, Le(|f.value|, 4)) &&
    Found(b, 8, Le(f.version, 8))
  }

  ghost predicate ArraysRead(b: Bytes, kids: seq<Kid>) {
    Reads(b, FnextOffset(|kids|), Fnexts(kids), 8) && Reads(b, FastOffset(|kids|), Fasts(kids), 4) &&
    Reads(b, SlowOffset(|kids|), Slows(kids), 4) && Reads(b, VersionOffset(|kids|), Versions(kids), 8) &&
    Reads(b, DataEndOffset(|kids|), DataEnds(kids), 2)
  }

  ghost predicate TailFound(b: Bytes, f: Fields, childData: Bytes) {
    var at := PathOffset(|f.kids|);
    Found(b, at, f.path) && Found(b, at + |f.path|, f.value) && Found(b, at + |f.path| + |f.value|, f.data) &&
    Found(b, at + |f.path| + |f.value| + |f.data|, childData) &&
    |b| == at + |f.path| + |f.value| + |f.data| + |childData|
  }

  lemma Starts(s: seq<Bytes>)
    requires |s| == 14
    ensures Start(s, 0) == 0 && Start(s, 1) == |s[0]| && Start(s, 2) == Start(s, 1) + |s[1]| &&
            Start(s, 3) == Start(s, 2) + |s[2]|
    ensures Start(s, 4) == Start(s, 3) + |s[3]| && Start(s, 5) == Start(s, 4) + |s[4]| &&
            Start(s, 6) == Start(s, 5) + |s[5]|
    ensures Start(s, 7) == Start(s, 6) + |s[6]| && Start(s, 8) == Start(s, 7) + |s[7]| &&
            Start(s, 9) == Start(s, 8) + |s[8]|
    ensures Start(s, 10) == Start(s, 9) + |s[9]| && Start(s, 11) == Start(s, 10) + |s[10]| &&
            Start(s, 12) == Start(s, 11) + |s[11]|
    ensures Start(s, 13) == Start(s, 12) + |s[12]| && Start(s, 14) == Start(s, 13) + |s[13]|
  {
  }

  /** The segments have the lengths the offset accessors count with. */
  ghost predicate Shaped(s: seq<Bytes>, f: Fields, childData: Bytes) {
    var n := |f.kids|;
    |s| == 14 && s[0] == Le(f.mask, 2) && s[1] == [Flags(f)] && s[2] == [f.pathEnd] && s[3] == Le(|f.value|, 4) &&
    s[4] == Le(f.version, 8) &&
    |s[5]| == Times(n, 8) && |s[6]| == Times(n, 4) && |s[7]| == Times(n, 4) && |s[8]| == Times(n, 8) &&
    |s[9]| == Times(n, 2) &&
    s[10] == f.path && s[11] == f.value && s[12] == f.data && s[13] == childData
  }

  lemma HeaderPlaces(b: Bytes, s: seq<Bytes>, f: Fields, childData: Bytes)
    requires LaidOut(b, s) && Shaped(s, f, childData)
    ensures HeaderFound(b, f)
  {
    Starts(s);
    assert InPlace(b, s, 0) && InPlace(b, s, 1) && InPlace(b, s, 2) && InPlace(b, s, 3) && InPlace(b, s, 4);
  }

  lemma ArrayPlaces(b: Bytes, s: seq<Bytes>, f: Fields, childData: Bytes)
    requires LaidOut(b, s) && Shaped(s, f, childData)
    ensures
      var n := |f.kids|;
      Found(b, FnextOffset(n), s[5]) && Found(b, FastOffset(n), s[6]) && Found(b, SlowOffset(n), s[7]) &&
      Found(b, VersionOffset(n), s[8]) && Found(b, DataEndOffset(n), s[9])
  {
    Starts(s);
    assert InPlace(b, s, 5) && InPlace(b, s, 6) && InPlace(b, s, 7) && InPlace(b, s, 8) && InPlace(b, s, 9);
  }

  lemma TailPlaces(b: Bytes, s: seq<Bytes>, f: Fields, childData: Bytes)
    requires LaidOut(b, s) && Shaped(s, f, childData)
    ensures TailFound(b, f, childData)
  {
    Starts(s);
    assert InPlace(b, s, 10) && InPlace(b, s, 11) && InPlace(b, s, 12) && InPlace(b, s, 13);
  }

  lemma {:induction false} StartMonotone(segs: seq<Bytes>, i: nat, j: nat)
    requires i <= j <= |segs|
    ensures Start(segs, i) <= Start(segs, j)
    decreases j
  {
    if i < j {
      StartMonotone(segs, i, j - 1);
    }
  }

  lemma EndsFit(f: Fields, i: nat)
    requires Ok(f) && i < |f.kids|
    ensures DataEnds(f.kids)[i] < Pow256(2)
  {
    FlattenLength(Datas(f.kids));
    StartMonotone(Datas(f.kids), i + 1, |f.kids|);
  }

  lemma ImagePlaces(f: Fields)
    requires Ok(f)
    ensures HeaderFound(Image(f), f) && ArraysRead(Image(f), f.kids) && TailFound(Image(f), f, ChildData(f))
  {
    var s, n := Segments(f), |f.kids|;
    FlattenLaysOut(s);
    HeaderPlaces(Image(f), s, f, ChildData(f));
    ArrayPlaces(Image(f), s, f, ChildData(f));
    TailPlaces(Image(f), s, f, ChildData(f));
    KidArraysRead(Image(f), f);
  }

  /** The arrays of the children, each where its offset accessor finds it. */
  lemma KidArraysRead(b: Bytes, f: Fields)
    requires Ok(f)
    requires
      var n, kids := |f.kids|, f.kids;
      Found(b, FnextOffset(n), Array(Fnexts(kids), 8)) && Found(b, FastOffset(n), Array(Fasts(kids), 4)) &&
      Found(b, SlowOffset(n), Array(Slows(kids), 4)) && Found(b, VersionOffset(n), Array(Versions(kids), 8)) &&
      Found(b, DataEndOffset(n), Array(DataEnds(kids), 2))
    ensures ArraysRead(b, f.kids)
  {
    var n := |f.kids|;
    forall i | 0 <= i < n
      ensures DataEnds(f.kids)[i] < Pow256(2)
    {
      EndsFit(f, i);
    }
    ArrayReads(b, FnextOffset(n), Fnexts(f.kids), 8);
    ArrayReads(b, FastOffset(n), Fasts(f.kids), 4);
    ArrayReads(b, SlowOffset(n), Slows(f.kids), 4);
    ArrayReads(b, VersionOffset(n), Versions(f.kids), 8);
    ArrayReads(b, DataEndOffset(n), DataEnds(f.kids), 2);
  }

  /** The accessors give the fields of the header and the places of the parts. */
  lemma HeaderReads(b: Bytes, f: Fields)
    requires Ok(f) && HeaderFound(b, f)
    ensures Int(b, 0, 2) == f.mask && ByteAt(b, 2) == Flags(f) && ByteAt(b, 3) == f.pathEnd &&
            Int(b, 4, 4) == |f.value| && Int(b, 8, 8) == f.version
    ensures ChildrenOf(b) == |f.kids| && ValueOffset(b) == PathOffset(|f.kids|) + |f.path|
    ensures DataOffset(b) == ValueOffset(b) + |f.value| && ChildAreaOffset(b) == DataOffset(b) + |f.data|
  {
    IntFound(b, 0, f.mask, 2);
    IntFound(b, 4, |f.value|, 4);
    IntFound(b, 8, f.version, 8);
    assert b[2..3][0] == Flags(f) && b[3..4][0] == f.pathEnd;
  }

  lemma ChildDataOffsetReads(b: Bytes, kids: seq<Kid>, i: nat)
    requires ChildrenOf(b) == |kids| && ArraysRead(b, kids) && i <= |kids|
    ensures ChildDataOffset(b, i) == Start(Datas(kids), i)
  {
    if i > 0 {
      assert DataEnds(kids)[i - 1] == Start(Datas(kids), i);
    }
  }

  lemma PartReads(b: Bytes, at: nat, area: Bytes, parts: seq<Bytes>, i: nat)
    requires Found(b, at, area) && LaidOut(area, parts) && i < |parts|
    ensures Sub(b, at + Start(parts, i), at + Start(parts, i + 1)) == parts[i]
  {
    assert InPlace(area, parts, i);
    FoundInside(b, at, area, Start(parts, i), parts[i]);
  }

  lemma KidReads(b: Bytes, kids: seq<Kid>, childData: Bytes, i: nat)
    requires ChildrenOf(b) == |kids| && ArraysRead(b, kids) && Found(b, ChildAreaOffset(b), childData) &&
             LaidOut(childData, Datas(kids))
    requires i < |kids|
    ensures KidOf(b, i) == kids[i]
  {
    KidDataReads(b, kids, childData, i);
    OffsetsRead(b, kids, i);
    MinOffsetsRead(b, kids, i);
  }

  lemma KidDataReads(b: Bytes, kids: seq<Kid>, childData: Bytes, i: nat)
    requires ChildrenOf(b) == |kids| && ArraysRead(b, kids) && i < |kids|
    requires Found(b, ChildAreaOffset(b), childData) && LaidOut(childData, Datas(kids))
    ensures KidOf(b, i).data == kids[i].data
  {
    ChildDataOffsetReads(b, kids, i);
    ChildDataOffsetReads(b, kids, i + 1);
    DataFound(b, childData, Datas(kids), i, ChildAreaOffset(b));
  }

  lemma DataFound(b: Bytes, childData: Bytes, parts: seq<Bytes>, i: nat, area: nat)
    requires i < |parts| && area == ChildAreaOffset(b) && Found(b, area, childData) && LaidOut(childData, parts)
    requires ChildDataOffset(b, i) == Start(parts, i) && ChildDataOffset(b, i + 1) == Start(parts, i + 1)
    ensures KidOf(b, i).data == parts[i]
  {
    PartReads(b, area, childData, parts, i);
    KidDataIs(b, i, area, Start(parts, i), Start(parts, i + 1));
  }

  lemma KidDataIs(b: Bytes, i: nat, area: nat, from: nat, to: nat)
    requires area == ChildAreaOffset(b) && from == ChildDataOffset(b, i) && to == ChildDataOffset(b, i + 1)
    ensures KidOf(b, i).data == Sub(b, area + from, area + to)
  {
  }

  lemma ReadAt(b: Bytes, at: nat, xs: seq<nat>, w: nat, i: nat)
    requires Reads(b, at, xs, w) && i < |xs|
    ensures Int(b, at + Times(i, w), w) == xs[i]
  {
  }

  lemma OffsetsRead(b: Bytes, kids: seq<Kid>, i: nat)
    requires ChildrenOf(b) == |kids| && ArraysRead(b, kids) && i < |kids|
    ensures KidOf(b, i).fnext == kids[i].fnext && KidOf(b, i).version == kids[i].version
  {
    ReadAt(b, FnextOffset(|kids|), Fnexts(kids), 8, i);
    ReadAt(b, VersionOffset(|kids|), Versions(kids), 8, i);
  }

  lemma MinOffsetsRead(b: Bytes, kids: seq<Kid>, i: nat)
    requires ChildrenOf(b) == |kids| && ArraysRead(b, kids) && i < |kids|
    ensures KidOf(b, i).fast == kids[i].fast && KidOf(b, i).slow == kids[i].slow
  {
    ReadAt(b, FastOffset(|kids|), Fasts(kids), 4, i);
    ReadAt(b, SlowOffset(|kids|), Slows(kids), 4, i);
  }

  lemma FlagsRead(flags: nat, f: Fields)
    requires f.pathStart < 2 && flags == Flags(f)
    ensures (flags % 2 == 1) == f.hasValue && (flags / 2) % 2 == f.pathStart && flags / 4 == |f.data|
  {
    FlagParts(if f.hasValue then 1 else 0, f.pathStart, |f.data|);
  }

  lemma FlagParts(v: nat, p: nat, d: nat)
    requires v < 2 && p < 2
    ensures
      var flags := v + 2 * p + 4 * d;
      flags % 2 == v && (flags / 2) % 2 == p && flags / 4 == d
  {
    var flags := v + 2 * p + 4 * d;
    assert flags / 2 == p + 2 * d;
  }

  lemma SubFound(b: Bytes, at: nat, seg: Bytes)
    requires Found(b, at, seg)
    ensures Sub(b, at, at + |seg|) == seg
  {
  }

  /** The scalar fields and the three byte strings. */
  lemma ScalarsRead(b: Bytes, f: Fields, childData: Bytes)
    requires Ok(f) && HeaderFound(b, f) && TailFound(b, f, childData)
    ensures Parse(b) == f.(kids := Parse(b).kids) && |Parse(b).kids| == |f.kids|
  {
    HeaderReads(b, f);
    FlagsRead(ByteAt(b, 2), f);
    SubFound(b, PathOffset(|f.kids|), f.path);
    SubFound(b, ValueOffset(b), f.value);
    SubFound(b, DataOffset(b), f.data);
  }

  lemma ParseReads(b: Bytes, f: Fields, childData: Bytes)
    requires Ok(f) && HeaderFound(b, f) && ArraysRead(b, f.kids) && TailFound(b, f, childData) &&
             LaidOut(childData, Datas(f.kids))
    ensures Parse(b) == f && ChildrenOf(b) == |f.kids| && BaseSize(b) == |b|
  {
    HeaderReads(b, f);
    KidsRead(b, f.kids, childData);
    ScalarsRead(b, f, childData);
    ChildDataOffsetReads(b, f.kids, |f.kids|);
  }

  lemma KidsRead(b: Bytes, kids: seq<Kid>, childData: Bytes)
    requires ChildrenOf(b) == |kids| && ArraysRead(b, kids) && Found(b, ChildAreaOffset(b), childData) &&
             LaidOut(childData, Datas(kids))
    ensures Parse(b).kids == kids
  {
    forall i | 0 <= i < |kids|
      ensures KidOf(b, i) == kids[i]
    {
      KidReads(b, kids, childData, i);
    }
  }

  /** The accessors read back every field that was laid out, and the node ends where its bytes end. */
  lemma ParseReadsImage(f: Fields)
    requires Ok(f)
    ensures Parse(Image(f)) == f && ChildrenOf(Image(f)) == |f.kids| && BaseSize(Image(f)) == |Image(f)|
  {
    ImagePlaces(f);
    FlattenLaysOut(Datas(f.kids));
    ParseReads(Image(f), f, ChildData(f));
  }

  // ---- the bytes themselves ----

  /** Byte `i` of a little-endian integer. */
  lemma {:induction false} LeByte(x: nat, w: nat, i: nat)
    requires i < w
    ensures Le(x, w)[i] == x / Pow256(i) % 256
  {
    if i > 0 {
      LeByte(x / 256, w - 1, i - 1);
      QuotientOfQuotient(x, Pow256(i - 1));
    }
  }

  lemma QuotientOfQuotient(x: nat, d: nat)
    requires d > 0
    ensures x / 256 / d == x / (256 * d)
  {
    var q := x / 256 / d;
    var r := x / 256 % d;
    assert x / 256 == q * d + r;
    assert x == 256 * (x / 256) + x % 256;
    assert 256 * (q * d) == q * (256 * d);
    assert x == q * (256 * d) + (256 * r + x % 256) && 0 <= 256 * r + x % 256 < 256 * d;
    QuotientIs(x, 256 * d, q, 256 * r + x % 256);
  }

  lemma QuotientIs(x: nat, d: nat, q: nat, r: nat)
    requires d > 0 && x == q * d + r && r < d
    ensures x / d == q
  {
    NotLess(x, d, x / d, x % d, q, r);
    NotLess(x, d, q, r, x / d, x % d);
  }

  lemma NotLess(x: nat, d: nat, p: nat, s: nat, q: nat, r: nat)
    requires x == p * d + s == q * d + r && s < d
    ensures q <= p
  {
    if p < q {
      StepOver(p, q, d);
    }
  }

  lemma {:induction false} StepOver(p: nat, q: nat, d: nat)
    requires p < q
    ensures p * d + d <= q * d
    decreases q
  {
    assert q * d == (q - 1) * d + d;
    if p < q - 1 {
      StepOver(p, q - 1, d);
    }
  }

  lemma OffsetsAre(n: nat)
    ensures FnextOffset(n) == 16 && FastOffset(n) == 16 + 8 * n && SlowOffset(n) == 16 + 12 * n
    ensures VersionOffset(n) == 16 + 16 * n && DataEndOffset(n) == 16 + 24 * n && PathOffset(n) == 16 + 26 * n
  {
    TimesIs(n, 8);
    TimesIs(n, 4);
    TimesIs(n, 2);
  }

  /** The fixed part of a node, and its variable parts behind the arrays, by byte position. */
  lemma ImageIs(f: Fields, n: nat)
    requires Ok(f) && n == |f.kids|
    ensures
      var b := Image(f);
      |b| >= 16 && b[0..2] == Le(f.mask, 2) && b[3] == f.pathEnd && b[4..8] == Le(|f.value|, 4) &&
      b[2] == (if f.hasValue then 1 else 0) + 2 * f.pathStart + 4 * |f.data| && b[8..16] == Le(f.version, 8)
    ensures |Image(f)| >= 16 + 26 * n && Image(f)[16 + 26 * n..] == f.path + f.value + f.data + ChildData(f)
  {
    var b := Image(f);
    ImagePlaces(f);
    OffsetsAre(n);
    HeaderBytes(b, f);
    TailBytes(b, f, ChildData(f), 16 + 26 * n);
  }

  lemma HeaderBytes(b: Bytes, f: Fields)
    requires HeaderFound(b, f)
    ensures |b| >= 16 && b[0..2] == Le(f.mask, 2) && b[3] == f.pathEnd && b[4..8] == Le(|f.value|, 4) &&
            b[2] == (if f.hasValue then 1 else 0) + 2 * f.pathStart + 4 * |f.data| && b[8..16] == Le(f.version, 8)
  {
    assert b[2] == b[2..3][0] && b[3] == b[3..4][0];
  }

  lemma TailBytes(b: Bytes, f: Fields, childData: Bytes, at: nat)
    requires TailFound(b, f, childData) && at == PathOffset(|f.kids|)
    ensures at <= |b| && b[at..] == f.path + f.value + f.data + childData
  {
  }

  // ---- the byte positions the accessors of child `i` of `n` read ----

  lemma FnextPlace(b: Bytes, i: nat, n: nat, place: nat)
    requires n == ChildrenOf(b) && place == 16 + 8 * i
    ensures KidOf(b, i).fnext == Int(b, place, 8)
  {
    OffsetsAre(n);
    TimesIs(i, 8);
    assert FnextOffset(n) + Times(i, 8) == place;
  }

  lemma FastPlace(b: Bytes, i: nat, n: nat, place: nat)
    requires n == ChildrenOf(b) && place == 16 + 8 * n + 4 * i
    ensures KidOf(b, i).fast == Int(b, place, 4)
  {
    OffsetsAre(n);
    TimesIs(i, 4);
    assert FastOffset(n) + Times(i, 4) == place;
  }

  lemma SlowPlace(b: Bytes, i: nat, n: nat, place: nat)
    requires n == ChildrenOf(b) && place == 16 + 12 * n + 4 * i
    ensures KidOf(b, i).slow == Int(b, place, 4)
  {
    OffsetsAre(n);
    TimesIs(i, 4);
    assert SlowOffset(n) + Times(i, 4) == place;
  }

  lemma VersionBegins(n: nat, i: nat, place: nat)
    requires place == 16 + 16 * n + 8 * i
    ensures VersionOffset(n) + Times(i, 8) == place
  {
    OffsetsAre(n);
    TimesIs(i, 8);
  }

  lemma VersionPlace(b: Bytes, i: nat, n: nat, place: nat)
    requires n == ChildrenOf(b) && place == 16 + 16 * n + 8 * i
    ensures KidOf(b, i).version == Int(b, place, 8)
  {
    VersionBegins(n, i, place);
  }
}
