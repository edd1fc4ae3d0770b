/** Encoding the children of a branch from the span a node is built from. */
module ChildEncoding {
  import opened Options
  import opened YellowPaper
  import opened MerkleCompute

  /** One slot of the child span; an erased child is not valid. */
  datatype ChildData = ChildData(
    valid: bool, branch: nat, data: Bytes, offset: nat, minFast: nat, minSlow: nat, minVersion: nat)

  /** The valid children. */
  function Valid(children: seq<ChildData>): seq<ChildRef> {
    if children == [] then []
    else (if children[0].valid then [ChildRef(children[0].branch, children[0].data)] else []) + Valid(children[1..])
  }

  /** Valid children in branch order, from `lo` on. */
  ghost predicate InOrder(children: seq<ChildData>, lo: nat) {
    children == [] ||
    if children[0].valid then lo <= children[0].branch < 16 && InOrder(children[1..], children[0].branch + 1)
    else InOrder(children[1..], lo)
  }

  ghost predicate RefsInOrder(refs: seq<ChildRef>, lo: nat) {
    refs == [] || (lo <= refs[0].branch < 16 && RefsInOrder(refs[1..], refs[0].branch + 1))
  }

  lemma {:induction false} ValidInOrder(children: seq<ChildData>, lo: nat)
    requires InOrder(children, lo)
    ensures RefsInOrder(Valid(children), lo)
  {
    if children != [] {
      if children[0].valid {
        ValidInOrder(children[1..], children[0].branch + 1);
        assert Valid(children)[1..] == Valid(children[1..]);
      } else {
        ValidInOrder(children[1..], lo);
        assert Valid(children) == Valid(children[1..]);
      }
    }
  }

  lemma {:induction false} NothingBelow(refs: seq<ChildRef>, lo: nat, n: nat)
    requires RefsInOrder(refs, lo) && n < lo
    ensures RefAt(refs, n) == None
  {
    if refs != [] {
      NothingBelow(refs[1..], refs[0].branch + 1, n);
    }
  }

  // ---- from the span ----

  /** The items of branches [lo, n) of `refs`. */
  function ItemsFrom(refs: seq<ChildRef>, lo: nat, n: nat): Bytes
    decreases n
  {
    if n <= lo then [] else ItemsFrom(refs, lo, n - 1) + ChildItem(RefAt(refs, n - 1))
  }

  lemma {:induction false} ItemsFromZero(refs: seq<ChildRef>, n: nat)
    ensures ItemsFrom(refs, 0, n) == ChildItems(refs, n)
  {
    if n > 0 {
      ItemsFromZero(refs, n - 1);
    }
  }

  lemma {:induction false} ItemsSplit(refs: seq<ChildRef>, lo: nat, mid: nat, n: nat)
    requires lo <= mid <= n
    ensures ItemsFrom(refs, lo, n) == ItemsFrom(refs, lo, mid) + ItemsFrom(refs, mid, n)
    decreases n
  {
    if mid < n {
      ItemsSplit(refs, lo, mid, n - 1);
    }
  }

  /** Past its first reference a list of references has the items of its rest. */
  lemma {:induction false} ItemsOfRest(refs: seq<ChildRef>, lo: nat, n: nat)
    requires refs != [] && refs[0].branch < lo
    ensures ItemsFrom(refs, lo, n) == ItemsFrom(refs[1..], lo, n)
    decreases n
  {
    if lo < n {
      ItemsOfRest(refs, lo, n - 1);
    }
  }

  lemma FirstItem(refs: seq<ChildRef>, i: nat, n: nat)
    requires i < n
    ensures ItemsFrom(refs, i, n) == ChildItem(RefAt(refs, i)) + ItemsFrom(refs, i + 1, n)
  {
    ItemsSplit(refs, i, i + 1, n);
    assert ItemsFrom(refs, i, i) == [];
    assert ItemsFrom(refs, i, i + 1) == [] + ChildItem(RefAt(refs, i));
  }

  lemma OneMoreItem(done: Bytes, refs: seq<ChildRef>, i: nat, n: nat)
    requires i < n
    ensures done + ItemsFrom(refs, i, n) == done + ChildItem(RefAt(refs, i)) + ItemsFrom(refs, i + 1, n)
  {
    FirstItem(refs, i, n);
  }

  /** Empty strings for branches [i, target), none of which has a child. */
  method PadTo(ghost refs: seq<ChildRef>, before: Bytes, i: nat, target: nat) returns (result: Bytes)
    requires i <= target <= 16 && forall m: nat :: i <= m < target ==> RefAt(refs, m) == None
    ensures result + ItemsFrom(refs, target, 16) == before + ItemsFrom(refs, i, 16)
  {
    result := before;
    var n := i;
    while n != target
      invariant i <= n <= target && result + ItemsFrom(refs, n, 16) == before + ItemsFrom(refs, i, 16)
      decreases target - n
    {
      OneMoreItem(result, refs, n, 16);
      result := result + [0x80];
      n := n + 1;
    }
  }

  /** One valid child: pad up to its branch, then its reference. */
  method EncodeChild(ghost refs: seq<ChildRef>, before: Bytes, i: nat, child: ChildData) returns (result: Bytes)
    requires RefsInOrder(refs, i) && refs != [] && refs[0] == ChildRef(child.branch, child.data)
    ensures result + ItemsFrom(refs[1..], child.branch + 1, 16) == before + ItemsFrom(refs, i, 16)
  {
    forall m: nat | i <= m < child.branch
      ensures RefAt(refs, m) == None
    {
      NothingBefore(refs, m);
    }
    result := PadTo(refs, before, i, child.branch);
    OneMoreItem(result, refs, child.branch, 16);
    ItemsOfRest(refs, child.branch + 1, 16);
    result := result + if |child.data| < 32 then child.data else RlpString(child.data);
  }

  lemma ValidParts(children: seq<ChildData>, lo: nat)
    requires children != [] && InOrder(children, lo)
    ensures
      var refs, rest := Valid(children), Valid(children[1..]);
      if children[0].valid then
        RefsInOrder(refs, lo) && refs != [] && refs[0] == ChildRef(children[0].branch, children[0].data) &&
        refs[1..] == rest
      else refs == rest
  {
    ValidInOrder(children, lo);
  }

  /** One slot of the span, the first of `rest`. */
  method EncodeSlot(ghost rest: seq<ChildData>, before: Bytes, i: nat, child: ChildData)
      returns (result: Bytes, i': nat)
    requires rest != [] && rest[0] == child && InOrder(rest, i) && i <= 16
    ensures i' <= 16 && InOrder(rest[1..], i')
    ensures result + ItemsFrom(Valid(rest[1..]), i', 16) == before + ItemsFrom(Valid(rest), i, 16)
  {
    ValidParts(rest, i);
    result, i' := before, i;
    if child.valid {
      result := EncodeChild(Valid(rest), before, i, child);
      i' := child.branch + 1;
    }
  }

  /** `encode_16_children` on the child span. */
  method EncodeChildSpan(children: seq<ChildData>) returns (result: Bytes)
    requires InOrder(children, 0)
    ensures result == ChildItems(Valid(children), 16)
  {
    result := [];
    ghost var all := ItemsFrom(Valid(children), 0, 16);
    var i: nat, k: nat := 0, 0;
    assert children[0..] == children && [] + all == all;
    while k < |children|
      invariant k <= |children| && i <= 16 && InOrder(children[k..], i)
      invariant result + ItemsFrom(Valid(children[k..]), i, 16) == all
    {
      ghost var rest := children[k..];
      assert rest[0] == children[k] && rest[1..] == children[k + 1..];
      result, i := EncodeSlot(rest, result, i, children[k]);
      k := k + 1;
    }
    assert children[k..] == [];
    result := PadTo([], result, i, 16);
    ItemsFromZero(Valid(children), 16);
    assert ItemsFrom([], 16, 16) == [] && result + [] == result;
  }

  lemma NothingBefore(refs: seq<ChildRef>, n: nat)
    requires refs != [] && RefsInOrder(refs[1..], refs[0].branch + 1) && n < refs[0].branch
    ensures RefAt(refs, n) == None
  {
    NothingBelow(refs[1..], refs[0].branch + 1, n);
  }

  // ---- sizes ----

  ghost predicate Short(refs: seq<ChildRef>) {
    forall k :: 0 <= k < |refs| ==> |refs[k].data| <= 32
  }

  lemma {:induction false} RefAtShort(refs: seq<ChildRef>, n: nat)
    requires Short(refs)
    ensures 1 <= |ChildItem(RefAt(refs, n))| <= 33 || RefAt(refs, n) == Some([])
  {
    if refs != [] {
      if refs[0].branch == n {
        assert |refs[0].data| <= 32;
      } else {
        RefAtShort(refs[1..], n);
      }
    }
  }

  lemma {:induction false} ItemsShort(refs: seq<ChildRef>, n: nat)
    requires Short(refs)
    ensures |ChildItems(refs, n)| <= 33 * n
  {
    if n > 0 {
      ItemsShort(refs, n - 1);
      RefAtShort(refs, n - 1);
    }
  }

  /** The buffers are large enough: 16 items and an empty value take 529 bytes, the list 532. */
  lemma BranchFits(refs: seq<ChildRef>)
    requires Short(refs)
    ensures |ChildItems(refs, 16) + [0x80]| <= 529 && |RlpList(ChildItems(refs, 16) + [0x80])| <= 532
  {
    var payload := ChildItems(refs, 16) + [0x80];
    ItemsShort(refs, 16);
    assert |BigEndian(|payload|)| <= 2 by {
      assert |payload| / 256 / 256 == 0;
      assert |BigEndian(|payload| / 256)| <= 1;
    }
  }
}
