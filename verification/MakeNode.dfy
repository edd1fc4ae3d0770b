/**
  Building a node from a span of children, and encoding the children of the
  branch from the bytes of the node instead of from the span.
 */
module MakeNode {
  import opened Options
  import opened Bitmap
  import opened PowerOfTwo
  import opened YellowPaper
  import opened MerkleCompute
  import opened ChildEncoding
  import Layout = NodeLayout

  // ---- the mask ----

  /**
    The node's mask for these children: `make_node` asserts the bit of every
    valid child, and sizes its arrays by the number of bits.
   */
  ghost predicate MaskFits(mask: nat, refs: seq<ChildRef>) {
    mask < TwoTo(16) && PopCount(mask) == |refs| && forall k :: 0 <= k < |refs| ==> Bit(mask, refs[k].branch)
  }

  /** How many children come before branch `n`. */
  function Before(refs: seq<ChildRef>, n: nat): nat {
    if refs == [] || refs[0].branch >= n then 0 else 1 + Before(refs[1..], n)
  }

  lemma {:induction false} BeforeStep(refs: seq<ChildRef>, lo: nat, n: nat)
    requires RefsInOrder(refs, lo)
    ensures Before(refs, n) <= |refs|
    ensures RefAt(refs, n).Some? ==>
      Before(refs, n) < |refs| &&
      refs[Before(refs, n)] == ChildRef(n, RefAt(refs, n).value)
    ensures Before(refs, n + 1) == Before(refs, n) + if RefAt(refs, n).Some? then 1 else 0
    decreases |refs|
  {
    if refs != [] {
      BeforeStep(refs[1..], refs[0].branch + 1, n);
      if n < refs[0].branch {
        NothingBefore(refs, n);
      } else if n == refs[0].branch {
        NothingBelow(refs[1..], refs[0].branch + 1, n);
      }
    }
  }

  lemma {:induction false} BeforeAll(refs: seq<ChildRef>, lo: nat)
    requires RefsInOrder(refs, lo)
    ensures Before(refs, 16) == |refs| && (lo <= 16 ==> |refs| <= 16 - lo)
    decreases |refs|
  {
    if refs != [] {
      BeforeAll(refs[1..], refs[0].branch + 1);
    }
  }

  /** The bits below branch `n` beyond the children there. */
  function Surplus(mask: nat, refs: seq<ChildRef>, n: nat): int {
    PopCount(Low(mask, n)) - Before(refs, n)
  }

  lemma SurplusStep(mask: nat, refs: seq<ChildRef>, n: nat)
    requires MaskFits(mask, refs) && RefsInOrder(refs, 0)
    ensures Surplus(mask, refs, n + 1) == Surplus(mask, refs, n) + if Bit(mask, n) && RefAt(refs, n).None? then 1 else 0
    ensures RefAt(refs, n).Some? ==> Bit(mask, n)
  {
    PopLowNext(mask, n);
    BeforeStep(refs, 0, n);
  }

  /** The surplus never shrinks from one branch to the next. */
  lemma {:induction false} SurplusGrows(mask: nat, refs: seq<ChildRef>, i: nat, n: nat)
    requires MaskFits(mask, refs) && RefsInOrder(refs, 0) && i <= n
    ensures Surplus(mask, refs, i) <= Surplus(mask, refs, n)
    decreases n - i
  {
    if i < n {
      SurplusStep(mask, refs, i);
      SurplusGrows(mask, refs, i + 1, n);
    }
  }

  /** The bits are the branches of the children, and `to_child_index` is the child's place among them. */
  lemma MaskIsBranches(mask: nat, refs: seq<ChildRef>, n: nat)
    requires MaskFits(mask, refs) && RefsInOrder(refs, 0) && n < 16
    ensures Bit(mask, n) <==> RefAt(refs, n).Some?
    ensures PopCount(Low(mask, n)) == Before(refs, n)
  {
    LowAll(mask, 16);
    BeforeAll(refs, 0);
    SurplusGrows(mask, refs, 0, n);
    SurplusStep(mask, refs, n);
    SurplusGrows(mask, refs, n + 1, 16);
  }

  function Erased(children: seq<ChildData>, k: nat): (r: seq<ChildData>)
    requires k < |children|
    ensures |r| == |children|
  {
    children[k := children[k].(valid := false)]
  }

  lemma ErasedRest(children: seq<ChildData>, k: nat)
    requires 0 < k < |children|
    ensures Erased(children, k)[0] == children[0] && Erased(children, k)[1..] == Erased(children[1..], k - 1)
  {
  }

  lemma {:induction false} EraseKeepsOrder(children: seq<ChildData>, lo: nat, k: nat)
    requires InOrder(children, lo) && k < |children| && children[k].valid
    ensures InOrder(Erased(children, k), lo)
    decreases |children|
  {
    if k == 0 {
      assert Erased(children, k)[1..] == children[1..];
      OrderDown(children[1..], lo, children[0].branch + 1);
    } else {
      ErasedRest(children, k);
      EraseKeepsOrder(children[1..], if children[0].valid then children[0].branch + 1 else lo, k - 1);
    }
  }

  /** An erased slot takes its own reference away, and no other. */
  lemma {:induction false} ValidErased(children: seq<ChildData>, k: nat) returns (i: nat)
    requires k < |children| && children[k].valid
    ensures i < |Valid(children)| && Valid(children)[i].branch == children[k].branch
    ensures Valid(Erased(children, k)) == Valid(children)[..i] + Valid(children)[i + 1..]
    decreases |children|
  {
    if k == 0 {
      i := 0;
      assert Erased(children, k)[1..] == children[1..];
    } else {
      ErasedRest(children, k);
      i := ValidErased(children[1..], k - 1);
      if children[0].valid {
        ConsCut(ChildRef(children[0].branch, children[0].data), Valid(children[1..]), i);
        i := i + 1;
      }
    }
  }

  lemma ConsCut(x: ChildRef, xs: seq<ChildRef>, i: nat)
    requires i < |xs|
    ensures [x] + (xs[..i] + xs[i + 1..]) == ([x] + xs)[..i + 1] + ([x] + xs)[i + 2..]
  {
  }

  lemma {:induction false} OrderDown(children: seq<ChildData>, lo: nat, from: nat)
    requires InOrder(children, from) && lo <= from
    ensures InOrder(children, lo)
    decreases |children|
  {
    if children != [] && !children[0].valid {
      OrderDown(children[1..], lo, from);
    }
  }

  lemma {:induction false} Distinct(refs: seq<ChildRef>, lo: nat, i: nat, j: nat)
    requires RefsInOrder(refs, lo) && i < |refs| && j < |refs|
    ensures refs[j].branch >= lo && (i != j ==> refs[i].branch != refs[j].branch)
    decreases |refs|
  {
    if i > 0 && j > 0 {
      Distinct(refs[1..], refs[0].branch + 1, i - 1, j - 1);
    } else if i > 0 {
      Distinct(refs[1..], refs[0].branch + 1, i - 1, i - 1);
    } else if j > 0 {
      Distinct(refs[1..], refs[0].branch + 1, j - 1, j - 1);
    }
  }

  /** `erase_child_from_parent` clears the bit and the slot together. */
  lemma EraseKeepsMask(mask: nat, children: seq<ChildData>, k: nat)
    requires InOrder(children, 0) && MaskFits(mask, Valid(children)) && k < |children| && children[k].valid
    ensures InOrder(Erased(children, k), 0) && MaskFits(ClearBit(mask, children[k].branch), Valid(Erased(children, k)))
  {
    EraseKeepsOrder(children, 0, k);
    var i := ValidErased(children, k);
    var refs, branch := Valid(children), children[k].branch;
    var left := refs[..i] + refs[i + 1..];
    ValidInOrder(children, 0);
    PopClear(mask, branch);
    ClearSmaller(mask, branch);
    forall j | 0 <= j < |left|
      ensures Bit(ClearBit(mask, branch), left[j].branch)
    {
      var at := if j < i then j else j + 1;
      assert left[j] == refs[at];
      Distinct(refs, 0, i, at);
      BitClear(mask, branch, refs[at].branch);
    }
  }

  // ---- building the node ----

  function KidOf(c: ChildData): Layout.Kid {
    Layout.Kid(c.offset, c.minFast, c.minSlow, c.minVersion, c.data)
  }

  /** What the node keeps of the valid children. */
  function Kids(children: seq<ChildData>): seq<Layout.Kid> {
    if children == [] then [] else (if children[0].valid then [KidOf(children[0])] else []) + Kids(children[1..])
  }

  lemma {:induction false} KidsAreRefs(children: seq<ChildData>)
    ensures |Kids(children)| == |Valid(children)|
    ensures forall k :: 0 <= k < |Kids(children)| ==> Kids(children)[k].data == Valid(children)[k].data
  {
    if children != [] {
      var rest := children[1..];
      KidsAreRefs(rest);
      if children[0].valid {
        assert Kids(children)[1..] == Kids(rest) && Valid(children)[1..] == Valid(rest);
      } else {
        assert Kids(children) == Kids(rest) && Valid(children) == Valid(rest);
      }
    }
  }

  /** The widths of the fields of a slot. */
  ghost predicate SlotFits(c: ChildData) {
    c.offset < Layout.Pow256(8) && c.minFast < Layout.Pow256(4) && c.minSlow < Layout.Pow256(4) &&
    c.minVersion < Layout.Pow256(8) && |c.data| <= 32
  }

  ghost predicate SpanFits(children: seq<ChildData>) {
    forall k :: 0 <= k < |children| ==> SlotFits(children[k])
  }

  lemma {:induction false} KidsFit(children: seq<ChildData>)
    requires SpanFits(children)
    ensures forall k :: 0 <= k < |Kids(children)| ==> Layout.KidOk(Kids(children)[k]) && |Kids(children)[k].data| <= 32
  {
    if children != [] {
      KidsFit(children[1..]);
      assert SlotFits(children[0]);
    }
  }

  /** The node's own parts, beside its children. */
  datatype Parts = Parts(pathStart: nat, pathEnd: nat, path: Bytes, value: Option<Bytes>, data: Bytes, version: nat) {
    function Value(): Bytes {
      if value.Some? then value.value else []
    }

    ghost predicate Fits() {
      pathStart < 2 && |path| == (pathEnd + 1) / 2 && |Value()| < Layout.Pow256(4) && |data| < 64 &&
      version < Layout.Pow256(8)
    }
  }

  function NodeFields(mask: nat, parts: Parts, kids: seq<Layout.Kid>): Layout.Fields {
    Layout.Fields(mask, parts.value.Some?, parts.pathStart, parts.pathEnd, parts.version, kids, parts.path,
                  parts.Value(), parts.data)
  }

  lemma {:induction false} DataSize(kids: seq<Layout.Kid>, i: nat)
    requires i <= |kids| && forall k :: 0 <= k < |kids| ==> |kids[k].data| <= 32
    ensures Layout.Start(Layout.Datas(kids), i) <= 32 * i
  {
    if i > 0 {
      DataSize(kids, i - 1);
    }
  }

  /** The children's data always fits the two-byte offsets. */
  lemma FieldsOk(mask: nat, parts: Parts, children: seq<ChildData>)
    requires InOrder(children, 0) && SpanFits(children) && parts.Fits() && MaskFits(mask, Valid(children))
    ensures Layout.Ok(NodeFields(mask, parts, Kids(children))) && |Kids(children)| <= 16
  {
    var kids := Kids(children);
    KidsAreRefs(children);
    KidsFit(children);
    ValidInOrder(children, 0);
    BeforeAll(Valid(children), 0);
    DataSize(kids, |kids|);
    Layout.FlattenLength(Layout.Datas(kids));
    SixteenBits();
  }

  lemma SixteenBits()
    ensures TwoTo(16) == 65536 == Layout.Pow256(2)
  {
    assert TwoTo(4) == 16 && TwoTo(8) == 16 * TwoTo(4) && TwoTo(12) == 16 * TwoTo(8) && TwoTo(16) == 16 * TwoTo(12);
    assert Layout.Pow256(1) == 256 * Layout.Pow256(0);
  }

  lemma DatasSnoc(kids: seq<Layout.Kid>, kid: Layout.Kid)
    ensures Layout.Datas(kids + [kid]) == Layout.Datas(kids) + [kid.data]
  {
  }

  lemma StartSnoc(segs: seq<Bytes>, seg: Bytes, i: nat)
    requires i <= |segs|
    ensures Layout.Start(segs + [seg], i) == Layout.Start(segs, i)
  {
    assert (segs + [seg])[..|segs|] == segs;
    Layout.StartOfPrefix(segs + [seg], |segs|, i);
  }

  /** Where the data of the last child ends. */
  ghost function Total(kids: seq<Layout.Kid>): nat {
    Layout.Start(Layout.Datas(kids), |kids|)
  }

  lemma TotalSnoc(kids: seq<Layout.Kid>, kid: Layout.Kid)
    ensures Total(kids + [kid]) == Total(kids) + |kid.data|
  {
    DatasSnoc(kids, kid);
    StartSnoc(Layout.Datas(kids), kid.data, |kids|);
  }

  lemma EndsSnoc(kids: seq<Layout.Kid>, kid: Layout.Kid)
    ensures Layout.DataEnds(kids + [kid]) == Layout.DataEnds(kids) + [Total(kids) + |kid.data|]
  {
    var ends, more := Layout.DataEnds(kids), Layout.DataEnds(kids + [kid]);
    DatasSnoc(kids, kid);
    TotalSnoc(kids, kid);
    forall i | 0 <= i < |kids|
      ensures more[i] == ends[i]
    {
      StartSnoc(Layout.Datas(kids), kid.data, i + 1);
    }
  }

  lemma AreaSnoc(kids: seq<Layout.Kid>, kid: Layout.Kid)
    ensures Layout.Flatten(Layout.Datas(kids + [kid])) == Layout.Flatten(Layout.Datas(kids)) + kid.data
  {
    DatasSnoc(kids, kid);
    assert (Layout.Datas(kids) + [kid.data])[..|kids|] == Layout.Datas(kids);
  }

  /** The sum of the data lengths so far is far from the end of sixteen bits. */
  lemma TotalFits(kids: seq<Layout.Kid>, rest: seq<Layout.Kid>, children: seq<ChildData>)
    requires InOrder(children, 0) && SpanFits(children) && kids + rest == Kids(children)
    ensures Total(kids) < 65536
  {
    KidsAreRefs(children);
    KidsFit(children);
    ValidInOrder(children, 0);
    BeforeAll(Valid(children), 0);
    forall k | 0 <= k < |kids|
      ensures |kids[k].data| <= 32
    {
      assert kids[k] == Kids(children)[k];
    }
    DataSize(kids, |kids|);
  }

  /** The kids of the span, those of its first slot moved over. */
  lemma KidsNext(kids: seq<Layout.Kid>, children: seq<ChildData>, k: nat)
    requires k < |children|
    ensures
      kids + Kids(children[k..]) ==
      (if children[k].valid then kids + [KidOf(children[k])] else kids) + Kids(children[k + 1..])
  {
    var rest := children[k..];
    assert rest[0] == children[k] && rest[1..] == children[k + 1..];
  }

  lemma OffsetsNext(kids: seq<Layout.Kid>, kid: Layout.Kid, rest: seq<Layout.Kid>, children: seq<ChildData>)
    requires InOrder(children, 0) && SpanFits(children) && kids + [kid] + rest == Kids(children)
    ensures (Total(kids) + |kid.data|) % 65536 == Total(kids + [kid])
    ensures Layout.DataEnds(kids + [kid]) == Layout.DataEnds(kids) + [Total(kids + [kid])]
  {
    EndsSnoc(kids, kid);
    TotalSnoc(kids, kid);
    TotalFits(kids + [kid], rest, children);
  }

  /** The end offsets of the children's data, summed in sixteen bits. */
  method DataOffsets(children: seq<ChildData>) returns (offsets: seq<nat>)
    requires InOrder(children, 0) && SpanFits(children)
    ensures offsets == Layout.DataEnds(Kids(children))
  {
    offsets := [];
    var total := 0;
    ghost var kids: seq<Layout.Kid> := [];
    assert children[0..] == children;
    for k := 0 to |children|
      invariant kids + Kids(children[k..]) == Kids(children)
      invariant offsets == Layout.DataEnds(kids) && total == Total(kids)
    {
      KidsNext(kids, children, k);
      if children[k].valid {
        ghost var kid := KidOf(children[k]);
        OffsetsNext(kids, kid, Kids(children[k + 1..]), children);
        kids := kids + [kid];
        total := (total + |children[k].data|) % 65536;
        offsets := offsets + [total];
      }
    }
    assert children[|children|..] == [] && kids + [] == kids;
  }

  /** The other arrays and the children's data, one place for each valid child. */
  method FillChildren(children: seq<ChildData>) returns (kids: seq<Layout.Kid>, area: Bytes)
    ensures kids == Kids(children) && area == Layout.Flatten(Layout.Datas(kids))
  {
    kids, area := [], [];
    assert children[0..] == children;
    for k := 0 to |children|
      invariant kids + Kids(children[k..]) == Kids(children) && area == Layout.Flatten(Layout.Datas(kids))
    {
      KidsNext(kids, children, k);
      if children[k].valid {
        AreaSnoc(kids, KidOf(children[k]));
        kids := kids + [KidOf(children[k])];
        area := area + children[k].data;
      }
    }
    assert children[|children|..] == [] && kids + [] == kids;
  }

  /** The parts of the node in their order, with the offsets and the child data as they were built. */
  function Laid(mask: nat, parts: Parts, kids: seq<Layout.Kid>, offsets: seq<nat>, area: Bytes): seq<Bytes> {
    [Layout.Le(mask, 2), [(if parts.value.Some? then 1 else 0) + 2 * parts.pathStart + 4 * |parts.data|],
     [parts.pathEnd],
     Layout.Le(|parts.Value()|, 4), Layout.Le(parts.version, 8),
     Layout.Array(Layout.Fnexts(kids), 8), Layout.Array(Layout.Fasts(kids), 4), Layout.Array(Layout.Slows(kids), 4),
     Layout.Array(Layout.Versions(kids), 8), Layout.Array(offsets, 2), parts.path, parts.Value(), parts.data, area]
  }

  lemma LaidIsSegments(mask: nat, parts: Parts, kids: seq<Layout.Kid>)
    ensures Laid(mask, parts, kids, Layout.DataEnds(kids), Layout.Flatten(Layout.Datas(kids))) ==
            Layout.Segments(NodeFields(mask, parts, kids))
  {
  }

  /** Child `k` of the node is the child `c` of the span, field by field. */
  ghost predicate StoredAt(b: Bytes, k: nat, c: ChildData) {
    var kid := Layout.KidOf(b, k);
    kid.fnext == c.offset && kid.fast == c.minFast && kid.slow == c.minSlow && kid.version == c.minVersion &&
    kid.data == c.data
  }

  /** The node's own fields are these parts. */
  ghost predicate StoresParts(b: Bytes, mask: nat, parts: Parts) {
    var f := Layout.Parse(b);
    f.mask == mask && f.version == parts.version && f.pathStart == parts.pathStart && f.pathEnd == parts.pathEnd &&
    f.path == parts.path && f.data == parts.data &&
    (if parts.value.Some? then f.hasValue && f.value == parts.value.value else !f.hasValue && f.value == [])
  }

  /** A valid child comes behind the valid children before it. */
  lemma {:induction false} KidAt(children: seq<ChildData>, i: nat)
    requires i < |children| && children[i].valid
    ensures |Valid(children[..i])| < |Kids(children)| && Kids(children)[|Valid(children[..i])|] == KidOf(children[i])
    decreases |children|
  {
    if i > 0 {
      KidAt(children[1..], i - 1);
      assert children[..i][0] == children[0] && children[..i][1..] == children[1..][..i - 1];
    }
  }

  lemma MadeNodeKeeps(mask: nat, children: seq<ChildData>, parts: Parts, b: Bytes)
    requires InOrder(children, 0) && SpanFits(children) && parts.Fits() && MaskFits(mask, Valid(children))
    requires b == Layout.Image(NodeFields(mask, parts, Kids(children)))
    ensures StoresParts(b, mask, parts) && Layout.ChildrenOf(b) == |Valid(children)|
    ensures forall i :: 0 <= i < |children| && children[i].valid ==> StoredAt(b, |Valid(children[..i])|, children[i])
  {
    var f := NodeFields(mask, parts, Kids(children));
    FieldsOk(mask, parts, children);
    Layout.ParseReadsImage(f);
    KidsAreRefs(children);
    forall i | 0 <= i < |children| && children[i].valid
      ensures StoredAt(b, |Valid(children[..i])|, children[i])
    {
      KidAt(children, i);
      assert Layout.Parse(b).kids[|Valid(children[..i])|] == KidOf(children[i]);
    }
  }

  /**
    `make_node` from a span: offsets first, then the children. The accessors of
    the node find every part and, behind the valid children before it, every
    valid child with its offset, its minima and its data.
   */
  method Make(mask: nat, children: seq<ChildData>, parts: Parts) returns (b: Bytes)
    requires InOrder(children, 0) && SpanFits(children)
    ensures b == Layout.Image(NodeFields(mask, parts, Kids(children)))
    ensures parts.Fits() && MaskFits(mask, Valid(children)) ==>
              StoresParts(b, mask, parts) && Layout.ChildrenOf(b) == |Valid(children)| &&
              forall i :: 0 <= i < |children| && children[i].valid ==> StoredAt(b, |Valid(children[..i])|, children[i])
  {
    var offsets := DataOffsets(children);
    var kids, area := FillChildren(children);
    LaidIsSegments(mask, parts, kids);
    b := Layout.Flatten(Laid(mask, parts, kids, offsets, area));
    if parts.Fits() && MaskFits(mask, Valid(children)) {
      MadeNodeKeeps(mask, children, parts, b);
    }
  }

  // ---- encoding from the node ----

  /** The node's bytes hold these children: their bits, and their data in branch order. */
  ghost predicate Holds(b: Bytes, refs: seq<ChildRef>) {
    MaskFits(Layout.Int(b, 0, 2), refs) && forall k :: 0 <= k < |refs| ==> Layout.KidOf(b, k).data == refs[k].data
  }

  /** A node that was built from a span holds its valid children. */
  lemma MadeNodeHolds(mask: nat, children: seq<ChildData>, parts: Parts)
    requires InOrder(children, 0) && SpanFits(children) && parts.Fits() && MaskFits(mask, Valid(children))
    ensures Holds(Layout.Image(NodeFields(mask, parts, Kids(children))), Valid(children))
  {
    var f := NodeFields(mask, parts, Kids(children));
    var b := Layout.Image(f);
    FieldsOk(mask, parts, children);
    Layout.ParseReadsImage(f);
    KidsAreRefs(children);
    assert Layout.Parse(b).mask == mask;
    forall k | 0 <= k < |Valid(children)|
      ensures Layout.KidOf(b, k).data == Valid(children)[k].data
    {
      assert Layout.Parse(b).kids[k] == f.kids[k];
    }
  }

  /** What the node gives for branch `i`. */
  lemma ChildFound(b: Bytes, refs: seq<ChildRef>, i: nat)
    requires RefsInOrder(refs, 0) && Holds(b, refs) && i < 16
    ensures
      var mask := Layout.Int(b, 0, 2);
      RefAt(refs, i) == if Bit(mask, i) then Some(Layout.KidOf(b, PopCount(Low(mask, i))).data) else None
  {
    MaskIsBranches(Layout.Int(b, 0, 2), refs, i);
    BeforeStep(refs, 0, i);
  }

  /** The child at branch `i`, through the mask and the data offsets. */
  method ChildAt(b: Bytes, mask: nat, i: nat, ghost refs: seq<ChildRef>) returns (data: Option<Bytes>)
    requires RefsInOrder(refs, 0) && Holds(b, refs) && i < 16 && mask == Layout.Int(b, 0, 2)
    ensures data == RefAt(refs, i)
  {
    ChildFound(b, refs, i);
    data := if Bit(mask, i) then Some(Layout.KidOf(b, PopCount(Low(mask, i))).data) else None;
  }

  /** `encode_16_children` on a node. */
  method EncodeChildNode(b: Bytes, ghost refs: seq<ChildRef>) returns (result: Bytes)
    requires RefsInOrder(refs, 0) && Holds(b, refs)
    ensures result == ChildItems(refs, 16)
  {
    result := [];
    var mask := Layout.Int(b, 0, 2);
    for i := 0 to 16
      invariant result == ChildItems(refs, i)
    {
      var data := ChildAt(b, mask, i, refs);
      if data.Some? {
        result := result + if |data.value| < 32 then data.value else RlpString(data.value);
      } else {
        result := result + [0x80];
      }
    }
  }

  /** The two encoders agree: the branch's items from the span are its items from the node built from that span. */
  method EncodeBothWays(mask: nat, children: seq<ChildData>, parts: Parts) returns (fromSpan: Bytes, fromNode: Bytes)
    requires InOrder(children, 0) && SpanFits(children) && parts.Fits() && MaskFits(mask, Valid(children))
    ensures fromSpan == fromNode == ChildItems(Valid(children), 16)
  {
    fromSpan := EncodeChildSpan(children);
    var node := Make(mask, children, parts);
    MadeNodeHolds(mask, children, parts);
    ValidInOrder(children, 0);
    fromNode := EncodeChildNode(node, Valid(children));
  }
}
