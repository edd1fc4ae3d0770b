/**
  Writing a node to the disk buffers in any number of pieces, and building a node
  again from the bytes read back.
 */
module NodeSerialize {
  import opened Bitmap
  import opened NodeLayout

  const SIZE_BYTES: nat := 4
  const SHARED_PTR_SIZE: nat := 16
  const MAX_DISK_SIZE: nat := 256 * 1024 * 1024

  /** What ends up on disk: the size, then the node. */
  function Whole(image: Bytes): (r: Bytes)
    ensures |r| == SIZE_BYTES + |image|
  {
    Le(|image| + SIZE_BYTES, SIZE_BYTES) + image
  }

  function RoundUp8(x: nat): nat {
    (x + 7) / 8 * 8
  }

  /** `calculate_node_size`. */
  function CalculateNodeSize(children: nat, childData: nat, value: nat, path: nat, data: nat): nat {
    RoundUp8(HEADER + (2 + 4 * 2 + 8 + 8 + SHARED_PTR_SIZE) * children + childData + value + path + data)
  }

  /** A node in memory: its bytes, its child pointers and the size it was allocated with. */
  datatype Node = Node(bytes: Bytes, next: seq<Pointer>, size: nat)
  datatype Pointer = Null | To(node: Node)

  /** A failed assertion aborts. `Overrun` is a copy of four billion bytes out of the buffer. */
  datatype Loaded = Aborted | Overrun | Loaded(node: Node)

  /** `get_mem_size`: from the start of the node to the end of its child pointers. */
  function MemSize(b: Bytes): nat {
    RoundUp8(BaseSize(b)) + ChildrenOf(b) * SHARED_PTR_SIZE
  }

  // ---- writing ----

  /** The bytes with `src` put at `at`. */
  function Placed(b: Bytes, at: nat, src: Bytes): (r: Bytes)
    requires at + |src| <= |b|
    ensures |r| == |b|
  {
    b[..at] + src + b[at + |src|..]
  }

  lemma PlacedNext(b: Bytes, at: nat, src: Bytes, x: nat)
    requires at + |src| < |b|
    ensures Placed(b, at, src)[at + |src| := x] == Placed(b, at, src + [x])
  {
  }

  lemma PlacedTwice(b: Bytes, at: nat, x: Bytes, y: Bytes)
    requires at + |x| + |y| <= |b|
    ensures Placed(Placed(b, at, x), at + |x|, y) == Placed(b, at, x + y)
  {
    var once := Placed(b, at, x);
    assert once[..at + |x|] == b[..at] + x;
    assert once[at + |x| + |y|..] == b[at + |x| + |y|..];
  }

  method CopyBytes(buf: array<nat>, at: nat, src: Bytes)
    requires at + |src| <= buf.Length
    modifies buf
    ensures buf[..] == Placed(old(buf[..]), at, src)
  {
    ghost var b := buf[..];
    var i := 0;
    assert Placed(b, at, src[..0]) == b;
    while i < |src|
      invariant i <= |src|
      invariant buf[..] == Placed(b, at, src[..i])
    {
      PlacedNext(b, at, src[..i], src[i]);
      assert src[..i] + [src[i]] == src[..i + 1];
      buf[at + i] := src[i];
      i := i + 1;
    }
    assert src[..i] == src;
  }

  /** How many bytes of the size belong to the piece of `count` bytes at `offset`. */
  function SizeBytes(offset: nat, count: nat): nat {
    if offset >= SIZE_BYTES then 0 else if count < SIZE_BYTES - offset then count else SIZE_BYTES - offset
  }

  method SerializeNodeToBuffer(buf: array<nat>, pos: nat, count: nat, image: Bytes, diskSize: nat, offset: nat)
    requires diskSize == |image| + SIZE_BYTES <= MAX_DISK_SIZE
    requires offset + count <= diskSize && pos + count <= buf.Length
    modifies buf
    ensures buf[..] == Placed(old(buf[..]), pos, Whole(image)[offset..offset + count])
  {
    ghost var b := buf[..];
    var written := SizeBytes(offset, count);
    ghost var size := Whole(image)[offset..offset + written];
    if offset < SIZE_BYTES {
      SizeOfWhole(image, offset, written);
      CopyBytes(buf, pos, Le(diskSize, SIZE_BYTES)[offset..offset + written]);
    }
    assert buf[..] == Placed(b, pos, size);
    if written < count {
      var within := if offset >= SIZE_BYTES then offset - SIZE_BYTES else 0;
      CopyBytes(buf, pos + written, image[within..within + count - written]);
      PlacedTwice(b, pos, size, image[within..within + count - written]);
      PartsOfWhole(image, offset, count, written, within);
    }
  }

  lemma SizeOfWhole(image: Bytes, offset: nat, n: nat)
    requires offset + n <= SIZE_BYTES
    ensures Whole(image)[offset..offset + n] == Le(|image| + SIZE_BYTES, SIZE_BYTES)[offset..offset + n]
  {
    CutFront(Le(|image| + SIZE_BYTES, SIZE_BYTES), image, offset, n);
  }

  lemma CutFront(a: Bytes, b: Bytes, i: nat, n: nat)
    requires i + n <= |a|
    ensures (a + b)[i..i + n] == a[i..i + n]
  {
  }

  /** The end of the size and the bytes of the node behind it. */
  lemma PartsOfWhole(image: Bytes, offset: nat, count: nat, n: nat, within: nat)
    requires offset + count <= |Whole(image)| && n <= count && within + SIZE_BYTES == offset + n
    ensures Whole(image)[offset..offset + n] + image[within..within + count - n] == Whole(image)[offset..offset + count]
  {
    assert Whole(image)[offset + n..offset + count] == image[within..within + count - n];
  }

  function Total(sizes: seq<nat>): nat {
    if sizes == [] then 0 else Total(sizes[..|sizes| - 1]) + sizes[|sizes| - 1]
  }

  lemma {:induction false} TotalOfPrefix(sizes: seq<nat>, i: nat)
    requires i <= |sizes|
    ensures Total(sizes[..i]) <= Total(sizes)
    decreases |sizes|
  {
    if i < |sizes| {
      TotalOfPrefix(sizes[..|sizes| - 1], i);
      assert sizes[..|sizes| - 1][..i] == sizes[..i];
    } else {
      assert sizes[..i] == sizes;
    }
  }

  /** One buffer's part of the node. */
  method OnePiece(image: Bytes, offset: nat, count: nat) returns (piece: Bytes)
    requires |image| + SIZE_BYTES <= MAX_DISK_SIZE && offset + count <= |image| + SIZE_BYTES
    ensures piece == Whole(image)[offset..offset + count]
  {
    var buf := new nat[count];
    SerializeNodeToBuffer(buf, 0, count, image, |image| + SIZE_BYTES, offset);
    piece := buf[..];
  }

  lemma AppendPiece(pieces: seq<Bytes>, piece: Bytes, whole: Bytes, offset: nat)
    requires offset + |piece| <= |whole| && Flatten(pieces) == whole[..offset] &&
             piece == whole[offset..offset + |piece|]
    ensures Flatten(pieces + [piece]) == whole[..offset + |piece|]
  {
    assert (pieces + [piece])[..|pieces|] == pieces;
  }

  /** The pieces written into consecutive buffers are the whole node, however it is cut. */
  method SerializeInPieces(image: Bytes, sizes: seq<nat>) returns (pieces: seq<Bytes>)
    requires |image| + SIZE_BYTES <= MAX_DISK_SIZE && Total(sizes) == |image| + SIZE_BYTES
    ensures |pieces| == |sizes| && forall i :: 0 <= i < |sizes| ==> |pieces[i]| == sizes[i]
    ensures Flatten(pieces) == Whole(image)
  {
    pieces := [];
    var offset := 0;
    for i := 0 to |sizes|
      invariant |pieces| == i && forall j :: 0 <= j < i ==> |pieces[j]| == sizes[j]
      invariant offset == Total(sizes[..i]) <= |Whole(image)|
      invariant Flatten(pieces) == Whole(image)[..offset]
    {
      TotalOfPrefix(sizes, i + 1);
      assert sizes[..i + 1][..i] == sizes[..i];
      var piece := OnePiece(image, offset, sizes[i]);
      AppendPiece(pieces, piece, Whole(image), offset);
      pieces := pieces + [piece];
      offset := offset + sizes[i];
    }
    assert sizes[..|sizes|] == sizes;
    assert Whole(image)[..offset] == Whole(image);
  }

  // ---- reading ----

  function Nulls(n: nat): (r: seq<Pointer>)
    ensures |r| == n && forall i :: 0 <= i < n ==> r[i] == Null
  {
    if n == 0 then [] else Nulls(n - 1) + [Null]
  }

  /** `deserialize_node_from_buffer`. A size of one to three bytes is not refused: taking the four away wraps around. */
  method DeserializeNode(buf: Bytes, maxBytes: nat) returns (r: Loaded)
    requires SIZE_BYTES + 2 <= |buf| && maxBytes <= |buf|
    ensures r.Overrun? <==> 0 < UnLe(buf[..SIZE_BYTES]) < SIZE_BYTES && UnLe(buf[..SIZE_BYTES]) <= maxBytes
    ensures
      var d := UnLe(buf[..SIZE_BYTES]);
      r.Loaded? ==> SIZE_BYTES <= d <= maxBytes && r.node.bytes == buf[SIZE_BYTES..d] &&
                    r.node.size == MemSize(r.node.bytes) && r.node.next == Nulls(ChildrenOf(r.node.bytes))
    ensures
      var d := UnLe(buf[..SIZE_BYTES]);
      SIZE_BYTES + 2 <= d ==> (r.Loaded? <==>
        d <= maxBytes && d <= MAX_DISK_SIZE &&
        RoundUp8(BaseSize(buf[SIZE_BYTES..d])) == RoundUp8(d - SIZE_BYTES))
  {
    var diskSize := UnLe(buf[..SIZE_BYTES]);
    if diskSize > maxBytes || diskSize == 0 || diskSize > MAX_DISK_SIZE {
      return Aborted;
    }
    if diskSize < SIZE_BYTES {
      return Overrun;
    }
    var children := PopCount(Int(buf, SIZE_BYTES, 2));
    var baseSize := diskSize - SIZE_BYTES;
    var allocSize := RoundUp8(baseSize) + children * SHARED_PTR_SIZE;
    var bytes := buf[SIZE_BYTES..SIZE_BYTES + baseSize];
    var next := [];
    var i := 0;
    while i < ChildrenOf(bytes)
      invariant i <= ChildrenOf(bytes) && next == Nulls(i)
    {
      next := next + [Null];
      i := i + 1;
    }
    if baseSize >= 2 {
      assert buf[SIZE_BYTES..SIZE_BYTES + 2] == bytes[0..2];
    }
    if allocSize != MemSize(bytes) {
      return Aborted;
    }
    return Loaded(Node(bytes, next, allocSize));
  }

  lemma ImageLength(f: Fields)
    requires Ok(f)
    ensures |Image(f)| == HEADER + 26 * |f.kids| + |f.path| + |f.value| + |f.data| + |ChildData(f)|
  {
    ImagePlaces(f);
    PathOffsetIs(|f.kids|);
  }

  lemma PathOffsetIs(n: nat)
    ensures PathOffset(n) == HEADER + 26 * n
  {
    TimesIs(n, 8);
    TimesIs(n, 4);
    TimesIs(n, 2);
  }

  lemma RoundPointers(base: nat, n: nat)
    ensures RoundUp8(base) + n * SHARED_PTR_SIZE == RoundUp8(base + n * SHARED_PTR_SIZE)
  {
  }

  /** The deserializer allocates what `make_node` allocated. */
  lemma MemSizeIsCalculated(f: Fields)
    requires Ok(f)
    ensures MemSize(Image(f)) == CalculateNodeSize(|f.kids|, |ChildData(f)|, |f.value|, |f.path|, |f.data|)
  {
    ParseReadsImage(f);
    ImageLength(f);
    MemSizeOf(Image(f), |f.kids|, |ChildData(f)|, |f.value|, |f.path|, |f.data|);
  }

  /** A node takes 16 bytes, 42 for each child and its variable parts, up to the next multiple of eight. */
  lemma AllocationIs(children: nat, childData: nat, value: nat, path: nat, data: nat, total: nat)
    requires total == 16 + 42 * children + childData + value + path + data
    ensures
      var size := CalculateNodeSize(children, childData, value, path, data);
      total <= size < total + 8 && size % 8 == 0
  {
    NextMultiple(total);
  }

  lemma NextMultiple(x: nat)
    ensures x <= RoundUp8(x) < x + 8 && RoundUp8(x) % 8 == 0
  {
  }

  lemma MemSizeOf(b: Bytes, n: nat, childData: nat, value: nat, path: nat, data: nat)
    requires ChildrenOf(b) == n && BaseSize(b) == |b| == HEADER + 26 * n + path + value + data + childData
    ensures MemSize(b) == CalculateNodeSize(n, childData, value, path, data)
  {
    RoundPointers(|b|, n);
  }

  lemma HeaderIsThere(f: Fields)
    requires Ok(f)
    ensures |Image(f)| >= 2
  {
    ImagePlaces(f);
  }

  lemma SizeIsThere(image: Bytes, rest: Bytes)
    requires |image| + SIZE_BYTES <= MAX_DISK_SIZE
    ensures UnLe((Whole(image) + rest)[..SIZE_BYTES]) == |image| + SIZE_BYTES
    ensures (Whole(image) + rest)[SIZE_BYTES..|image| + SIZE_BYTES] == image
  {
    assert (Whole(image) + rest)[..SIZE_BYTES] == Le(|image| + SIZE_BYTES, SIZE_BYTES);
    assert Pow256(4) == 256 * 256 * 256 * 256;
    LeRoundTrip(|image| + SIZE_BYTES, SIZE_BYTES);
  }

  /** Any bytes whose accessors agree with their length come back, whatever follows them in the buffer. */
  method ReadBack(buf: Bytes, ghost image: Bytes, ghost rest: Bytes) returns (node: Node)
    requires buf == Whole(image) + rest
    requires 2 <= |image| == BaseSize(image) && |image| + SIZE_BYTES <= MAX_DISK_SIZE
    ensures node == Node(image, Nulls(ChildrenOf(image)), MemSize(image))
  {
    SizeIsThere(image, rest);
    var r := DeserializeNode(buf, |buf|);
    node := r.node;
  }

  /** A node written in any pieces and read back. */
  method WriteAndRead(f: Fields, sizes: seq<nat>, rest: Bytes) returns (node: Node)
    requires Ok(f) && |Image(f)| + SIZE_BYTES <= MAX_DISK_SIZE && Total(sizes) == |Image(f)| + SIZE_BYTES
    ensures Parse(node.bytes) == f && node.next == Nulls(|f.kids|)
    ensures node.size == MemSize(node.bytes) == CalculateNodeSize(|f.kids|, |ChildData(f)|, |f.value|, |f.path|,
                                                                  |f.data|)
  {
    ParseReadsImage(f);
    HeaderIsThere(f);
    MemSizeIsCalculated(f);
    var image := Image(f);
    var pieces := SerializeInPieces(image, sizes);
    node := ReadBack(Flatten(pieces) + rest, image, rest);
  }
}
