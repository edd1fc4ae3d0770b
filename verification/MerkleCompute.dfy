/**
  Incremental hashing of a variable-length Merkle trie: every node carries the
  references of its children and, below a path, the reference of its own
  branch. The root data they produce is the tree root of the Yellow Paper.
 */
module MerkleCompute {
  import opened Options
  import opened YellowPaper

  /** A trie node: its path, its value if a key ends here, and its children by branch nibble. */
  datatype Trie = Trie(path: Nibbles, value: Option<Bytes>, kids: KidList)

  datatype KidList = NoKids | Kid(branch: nat, sub: Trie, rest: KidList)

  /** Children in branch order from `lo` on, all the way down. */
  ghost predicate Ordered(kids: KidList, lo: nat) {
    kids.Kid? ==> lo <= kids.branch < 16 && Ordered(kids.sub.kids, 0) && Ordered(kids.rest, kids.branch + 1)
  }

  /** Children in branch order from `lo` on, each reached by a key. */
  ghost predicate Kids(kids: KidList, lo: nat) {
    kids.Kid? ==> lo <= kids.branch < 16 && Canonical(kids.sub) && Kids(kids.rest, kids.branch + 1)
  }

  /** No node without a reason: a leaf has a value, and a node without a value has two children. */
  ghost predicate Canonical(t: Trie) {
    Kids(t.kids, 0) && (t.value.None? ==> t.kids.Kid? && t.kids.rest.Kid?)
  }

  lemma {:induction false} KidsOrdered(kids: KidList, lo: nat)
    requires Kids(kids, lo)
    ensures Ordered(kids, lo)
    decreases kids
  {
    if kids.Kid? {
      KidsOrdered(kids.sub.kids, 0);
      KidsOrdered(kids.rest, kids.branch + 1);
    }
  }

  // ---- the map a trie holds ----

  ghost function Own(p: Nibbles, value: Option<Bytes>): map<Nibbles, Bytes> {
    if value.Some? then map[p := value.value] else map[]
  }

  /** The entries of the subtrie below prefix `p`. */
  ghost function Entries(t: Trie, p: Nibbles): map<Nibbles, Bytes> {
    Own(p + t.path, t.value) + KidEntries(t.kids, p + t.path)
  }

  ghost function KidEntries(kids: KidList, p: Nibbles): map<Nibbles, Bytes> {
    if kids.NoKids? then map[] else Entries(kids.sub, p + [kids.branch]) + KidEntries(kids.rest, p)
  }

  // ---- node references ----

  /** `to_node_reference`: the encoding itself if shorter than a hash. */
  function Reference(kec: Keccak, rlp: Bytes): Bytes {
    if |rlp| >= 32 then kec(rlp) else rlp
  }

  /** A reference inside another node: a hash is a string, a short encoding is inlined. */
  function EncodeReference(x: Bytes): Bytes {
    if |x| < 32 then x else RlpString(x)
  }

  function EncodeTwoPieces(path: Nibbles, second: Bytes, isLeaf: bool): Bytes {
    RlpList(RlpString(Hex(path, isLeaf)) + if isLeaf || |second| >= 32 then RlpString(second) else second)
  }

  /** Branch and reference of a child, as stored in its parent. */
  datatype ChildRef = ChildRef(branch: nat, data: Bytes)

  function RefAt(refs: seq<ChildRef>, n: nat): Option<Bytes> {
    if refs == [] then None else if refs[0].branch == n then Some(refs[0].data) else RefAt(refs[1..], n)
  }

  function ChildItem(ref: Option<Bytes>): Bytes {
    if ref.Some? then EncodeReference(ref.value) else [0x80]
  }

  /** The encoded items of branches 0 to `n - 1`. */
  function ChildItems(refs: seq<ChildRef>, n: nat): Bytes {
    if n == 0 then [] else ChildItems(refs, n - 1) + ChildItem(RefAt(refs, n - 1))
  }

  /** `encode_branch`, and the same from the child span. */
  function EncodeBranch(refs: seq<ChildRef>, value: Option<Bytes>): Bytes {
    RlpList(ChildItems(refs, 16) + if value.Some? && |value.value| > 0 then RlpString(value.value) else [0x80])
  }

  function ValueOf(value: Option<Bytes>): Bytes {
    if value.Some? then value.value else []
  }

  /** `VarLenMerkleCompute::compute`: the reference of a node in its parent. */
  function Compute(kec: Keccak, t: Trie): Bytes
    decreases t, 1
  {
    if t.kids.NoKids? then Reference(kec, EncodeTwoPieces(t.path, ValueOf(t.value), true))
    else if t.path != [] then Reference(kec, EncodeTwoPieces(t.path, BranchData(kec, t), false))
    else BranchData(kec, t)
  }

  /** The branch reference, kept in a node below a non-empty path. */
  function BranchData(kec: Keccak, t: Trie): Bytes
    decreases t, 0
  {
    Reference(kec, EncodeBranch(Refs(kec, t.kids), t.value))
  }

  function Refs(kec: Keccak, kids: KidList): seq<ChildRef> {
    if kids.NoKids? then [] else [ChildRef(kids.branch, Compute(kec, kids.sub))] + Refs(kec, kids.rest)
  }

  /** `RootVarLenMerkleCompute::compute_node_data_len`: the root data, always a hash. */
  function RootData(kec: Keccak, kids: KidList, value: Option<Bytes>): Bytes
    requires kids.Kid?
  {
    var state :=
      if kids.rest.NoKids? then SingleChild(kec, kids.branch, kids.sub)
      else Reference(kec, EncodeBranch(Refs(kec, kids), value));
    if |state| < 32 then kec(state) else state
  }

  /** The only child of the root, with its branch nibble in front of its path. */
  function SingleChild(kec: Keccak, branch: nat, t: Trie): Bytes {
    Reference(kec, EncodeTwoPieces([branch] + t.path, if t.kids.Kid? then BranchData(kec, t)
                                   else ValueOf(t.value), t.kids.NoKids?))
  }

  // ---- keys of a trie ----

  lemma {:induction false} EntryPrefix(t: Trie, p: Nibbles, k: Nibbles)
    requires k in Entries(t, p)
    ensures p + t.path <= k && (k == p + t.path || k in KidEntries(t.kids, p + t.path))
    decreases t
  {
    if k != p + t.path || t.value.None? {
      KidPrefix(t.kids, p + t.path, k);
    }
  }

  lemma {:induction false} KidPrefix(kids: KidList, p: Nibbles, k: Nibbles)
    requires k in KidEntries(kids, p)
    ensures p <= k && |p| < |k|
    decreases kids
  {
    if k in Entries(kids.sub, p + [kids.branch]) {
      EntryPrefix(kids.sub, p + [kids.branch], k);
    } else {
      KidPrefix(kids.rest, p, k);
    }
  }

  /** The entries below a child are those with its branch nibble. */
  lemma {:induction false} KidNibble(kids: KidList, lo: nat, p: Nibbles, k: Nibbles)
    requires Ordered(kids, lo) && k in KidEntries(kids, p)
    ensures p <= k && |p| < |k| && lo <= k[|p|]
    ensures k[|p|] == kids.branch <==> k in Entries(kids.sub, p + [kids.branch])
    decreases kids
  {
    if k in Entries(kids.sub, p + [kids.branch]) {
      EntryPrefix(kids.sub, p + [kids.branch], k);
    } else {
      KidNibble(kids.rest, kids.branch + 1, p, k);
    }
  }

  function KidAt(kids: KidList, n: nat): Option<Trie> {
    if kids.NoKids? then None else if kids.branch == n then Some(kids.sub) else KidAt(kids.rest, n)
  }

  /** The entries of the child at branch `n`. */
  ghost function Below(kids: KidList, n: nat, p: Nibbles): map<Nibbles, Bytes> {
    if KidAt(kids, n).Some? then Entries(KidAt(kids, n).value, p + [n]) else map[]
  }

  lemma {:induction false} NoKidBelow(kids: KidList, lo: nat, n: nat)
    requires Ordered(kids, lo) && n < lo
    ensures KidAt(kids, n).None?
    decreases kids
  {
    if kids.Kid? {
      NoKidBelow(kids.rest, kids.branch + 1, n);
    }
  }

  /** An entry below the children, seen through the child its nibble selects. */
  lemma {:induction false} KidEntryAt(kids: KidList, lo: nat, p: Nibbles, n: nat, k: Nibbles)
    requires Ordered(kids, lo)
    ensures k in Below(kids, n, p) <==> k in KidEntries(kids, p) && p <= k && |p| < |k| && k[|p|] == n
    ensures k in Below(kids, n, p) ==> KidEntries(kids, p)[k] == Below(kids, n, p)[k]
    decreases kids
  {
    if kids.Kid? {
      var sub := Entries(kids.sub, p + [kids.branch]);
      KidEntryAt(kids.rest, kids.branch + 1, p, n, k);
      if k in KidEntries(kids, p) {
        KidNibble(kids, lo, p, k);
      }
      if k in KidEntries(kids.rest, p) {
        KidNibble(kids.rest, kids.branch + 1, p, k);
      }
      if n == kids.branch {
        NoKidBelow(kids.rest, kids.branch + 1, n);
        if k in sub {
          EntryPrefix(kids.sub, p + [kids.branch], k);
        }
      }
    }
  }

  /** The pairs that Appendix D sends to item `n` of a branch are the entries of child `n`. */
  lemma BranchIsChild(t: Trie, p: Nibbles, n: nat)
    requires Ordered(t.kids, 0)
    ensures Branch(Entries(t, p), |p + t.path|, n) == Below(t.kids, n, p + t.path)
  {
    var q, j := p + t.path, Entries(t, p);
    forall k
      ensures k in Branch(j, |q|, n) <==> k in Below(t.kids, n, q)
      ensures k in Below(t.kids, n, q) ==> Branch(j, |q|, n)[k] == Below(t.kids, n, q)[k]
    {
      KidEntryAt(t.kids, 0, q, n, k);
      if k in j {
        EntryPrefix(t, p, k);
      }
    }
  }

  lemma {:induction false} SomeEntry(t: Trie, p: Nibbles) returns (k: Nibbles)
    requires Canonical(t)
    ensures k in Entries(t, p)
    decreases t
  {
    if t.value.Some? {
      k := p + t.path;
    } else {
      k := SomeEntry(t.kids.sub, p + t.path + [t.kids.branch]);
    }
  }

  /** A key below the first child. */
  lemma FirstKidKey(kids: KidList, lo: nat, q: Nibbles) returns (k: Nibbles)
    requires Kids(kids, lo) && kids.Kid?
    ensures k in KidEntries(kids, q) && q < k && k[|q|] == kids.branch
  {
    k := SomeEntry(kids.sub, q + [kids.branch]);
    EntryPrefix(kids.sub, q + [kids.branch], k);
  }

  ghost predicate Part(a: Nibbles, b: Nibbles, q: Nibbles) {
    q <= a && q < b && (|a| > |q| ==> a[|q|] != b[|q|])
  }

  /** Two keys of a node with children that part right after its path. */
  lemma PartingKeys(t: Trie, p: Nibbles) returns (a: Nibbles, b: Nibbles)
    requires Canonical(t) && t.kids.Kid?
    ensures a in Entries(t, p) && b in Entries(t, p) && Part(a, b, p + t.path)
  {
    var q := p + t.path;
    b := FirstKidKey(t.kids, 0, q);
    if t.value.Some? {
      a := q;
    } else {
      a := FirstKidKey(t.kids.rest, t.kids.branch + 1, q);
    }
  }

  lemma EntriesShared(t: Trie, p: Nibbles, x: nat)
    requires x <= |p + t.path|
    ensures Shared(Entries(t, p), x)
  {
    var q, j := p + t.path, Entries(t, p);
    forall a, b | a in j && b in j
      ensures x <= |a| && x <= |b| && a[..x] == b[..x]
    {
      EntryPrefix(t, p, a);
      EntryPrefix(t, p, b);
      assert a[..x] == q[..x] && b[..x] == q[..x];
    }
  }

  lemma AtLeastTwo(j: map<Nibbles, Bytes>, a: Nibbles, b: Nibbles)
    requires a in j && b in j && a != b
    ensures |j| >= 2
  {
    assert {a, b} <= j.Keys;
    assert |j.Keys| >= |{a, b}| by { SubsetSize({a, b}, j.Keys); }
  }

  lemma {:induction false} SubsetSize(a: set<Nibbles>, b: set<Nibbles>)
    requires a <= b
    ensures |a| <= |b|
    decreases |a|
  {
    if a != {} {
      var x :| x in a;
      SubsetSize(a - {x}, b - {x});
    }
  }

  lemma PartingEndsSharing(j: map<Nibbles, Bytes>, q: Nibbles, a: Nibbles, b: Nibbles)
    requires a in j && b in j && Part(a, b, q)
    ensures |j| >= 2 && !Shared(j, |q| + 1)
  {
    AtLeastTwo(j, a, b);
    if |a| > |q| {
      assert a[..|q| + 1][|q|] != b[..|q| + 1][|q|];
    }
  }

  /** With children, the keys share exactly the path. */
  lemma NodeShares(t: Trie, p: Nibbles, i: nat)
    requires Canonical(t) && t.kids.Kid? && i <= |p + t.path|
    ensures
      var j := Entries(t, p);
      j != map[] && |j| >= 2 && Shared(j, i) && SharedLength(j, i) == |p + t.path|
  {
    var a, b := PartingKeys(t, p);
    PartingEndsSharing(Entries(t, p), p + t.path, a, b);
    EntriesShared(t, p, i);
    EntriesShared(t, p, |p + t.path|);
    SharedLengthIs(Entries(t, p), i, |p + t.path|);
  }

  lemma SharedLengthIs(j: map<Nibbles, Bytes>, i: nat, x: nat)
    requires j != map[] && Shared(j, i) && Shared(j, x) && !Shared(j, x + 1)
    ensures SharedLength(j, i) == x
  {
    SharedLengthIsMax(j, i, x);
    SharedEnds(j, x, SharedLength(j, i));
  }

  lemma SharedEnds(j: map<Nibbles, Bytes>, x: nat, y: nat)
    requires !Shared(j, x + 1) && Shared(j, y)
    ensures y <= x
  {
    if x < y {
      SharedDown(j, y, x + 1);
    }
  }

  // ---- references are node compositions ----

  lemma ReferenceIsN(kec: Keccak, j: map<Nibbles, Bytes>, i: nat)
    requires j != map[] && Shared(j, i)
    ensures Rlp(N(kec, j, i)) == EncodeReference(Reference(kec, Rlp(C(kec, j, i))))
  {
  }

  lemma {:induction false} RlpEachSnoc(xs: seq<Item>, x: Item)
    ensures RlpEach(xs + [x]) == RlpEach(xs) + Rlp(x)
  {
    if xs == [] {
      assert [] + [x] == [x];
    } else {
      assert (xs + [x])[1..] == xs[1..] + [x];
      RlpEachSnoc(xs[1..], x);
    }
  }

  lemma {:induction false} RefAtKid(kec: Keccak, kids: KidList, n: nat)
    ensures RefAt(Refs(kec, kids), n) == if KidAt(kids, n).Some? then Some(Compute(kec, KidAt(kids, n).value)) else None
    decreases kids
  {
    if kids.Kid? {
      assert Refs(kec, kids)[1..] == Refs(kec, kids.rest);
      RefAtKid(kec, kids.rest, n);
    }
  }

  /** The reference of a subtrie is that of the structural composition of its entries. */
  ghost predicate Matches(kec: Keccak, t: Trie, p: Nibbles) {
    var j := Entries(t, p);
    j != map[] && Shared(j, |p|) && Compute(kec, t) == Reference(kec, Rlp(C(kec, j, |p|)))
  }

  ghost predicate KidsMatch(kec: Keccak, kids: KidList, q: Nibbles) {
    forall n: nat :: KidAt(kids, n).Some? ==> Matches(kec, KidAt(kids, n).value, q + [n])
  }

  lemma MatchedItem(kec: Keccak, t: Trie, p: Nibbles)
    requires Matches(kec, t, p)
    ensures Rlp(N(kec, Entries(t, p), |p|)) == EncodeReference(Compute(kec, t))
  {
    ReferenceIsN(kec, Entries(t, p), |p|);
  }

  lemma NoItem(kec: Keccak, i: nat)
    ensures Rlp(N(kec, map[], i)) == [0x80]
  {
  }

  /** Item `n` of a branch. */
  lemma ItemIsN(kec: Keccak, kids: KidList, q: Nibbles, n: nat)
    requires KidsMatch(kec, kids, q)
    ensures
      var b := Below(kids, n, q);
      Shared(b, |q| + 1) && Rlp(N(kec, b, |q| + 1)) == ChildItem(RefAt(Refs(kec, kids), n))
  {
    RefAtKid(kec, kids, n);
    if KidAt(kids, n).Some? {
      assert |q + [n]| == |q| + 1;
      MatchedItem(kec, KidAt(kids, n).value, q + [n]);
    } else {
      NoItem(kec, |q| + 1);
    }
  }

  /** The items of a branch over `j` are the child items of `refs`. */
  ghost predicate SameItems(kec: Keccak, j: map<Nibbles, Bytes>, i: nat, refs: seq<ChildRef>) {
    forall n: nat :: Shared(Branch(j, i, n), i + 1) && Rlp(N(kec, Branch(j, i, n), i + 1)) == ChildItem(RefAt(refs, n))
  }

  lemma NodeItems(kec: Keccak, t: Trie, p: Nibbles)
    requires Ordered(t.kids, 0) && KidsMatch(kec, t.kids, p + t.path)
    ensures SameItems(kec, Entries(t, p), |p + t.path|, Refs(kec, t.kids))
  {
    var j, q, refs := Entries(t, p), p + t.path, Refs(kec, t.kids);
    forall n: nat
      ensures Shared(Branch(j, |q|, n), |q| + 1) && Rlp(N(kec, Branch(j, |q|, n), |q| + 1)) == ChildItem(RefAt(refs, n))
    {
      BranchIsChild(t, p, n);
      ItemIsN(kec, t.kids, q, n);
    }
  }

  lemma {:induction false} ItemsAreBranches(kec: Keccak, j: map<Nibbles, Bytes>, i: nat, refs: seq<ChildRef>, n: nat)
    requires j != map[] && Shared(j, i) && SameItems(kec, j, i, refs)
    ensures RlpEach(Branches(kec, j, i, n)) == ChildItems(refs, n)
  {
    if n > 0 {
      ItemsAreBranches(kec, j, i, refs, n - 1);
      RlpEachSnoc(Branches(kec, j, i, n - 1), N(kec, Branch(j, i, n - 1), i + 1));
    }
  }

  /** The value in the last slot of a branch. */
  lemma ValueIsOwn(t: Trie, p: Nibbles)
    requires Ordered(t.kids, 0)
    ensures ValueAt(Entries(t, p), |p + t.path|) == ValueOf(t.value)
  {
    var q, j := p + t.path, Entries(t, p);
    forall k | k in j && |k| == |q|
      ensures k == q && t.value.Some? && j[k] == t.value.value
    {
      EntryPrefix(t, p, k);
      if q in KidEntries(t.kids, q) {
        KidPrefix(t.kids, q, q);
      }
    }
    if t.value.Some? {
      assert q in j;
    }
  }

  lemma TwoItems(a: Item, b: Item)
    ensures Rlp(List([a, b])) == RlpList(Rlp(a) + Rlp(b))
  {
    RlpEachTwo(a, b);
  }

  lemma RlpEachTwo(a: Item, b: Item)
    ensures RlpEach([a, b]) == Rlp(a) + Rlp(b)
  {
    var two, one := [a, b], [b];
    assert two[1..] == one && one[1..] == [];
    assert RlpEach(one) == Rlp(b) + RlpEach([]) && Rlp(b) + [] == Rlp(b);
  }

  // ---- the three shapes of c(J, i) ----

  lemma LeafShape(kec: Keccak, k: Nibbles, v: Bytes, i: nat)
    requires i <= |k|
    ensures
      var j := map[k := v];
      Shared(j, i) && Rlp(C(kec, j, i)) == RlpList(RlpString(Hex(k[i..], true)) + RlpString(v))
  {
    var j := map[k := v];
    assert SomeKey(j) == k && |j| == 1;
    assert Slice(k, i, |k|) == k[i..];
    TwoItems(Str(Hex(k[i..], true)), Str(v));
  }

  lemma ExtensionShape(kec: Keccak, j: map<Nibbles, Bytes>, i: nat)
    requires |j| >= 2 && Shared(j, i) && SharedLength(j, i) != i
    ensures
      var x := SharedLength(j, i);
      Rlp(C(kec, j, i)) == RlpList(RlpString(Hex(Slice(SomeKey(j), i, x), false)) + Rlp(N(kec, j, x)))
  {
    var x := SharedLength(j, i);
    TwoItems(Str(Hex(Slice(SomeKey(j), i, x), false)), N(kec, j, x));
  }

  lemma BranchShape(kec: Keccak, j: map<Nibbles, Bytes>, i: nat, refs: seq<ChildRef>)
    requires |j| >= 2 && Shared(j, i) && SharedLength(j, i) == i && SameItems(kec, j, i, refs)
    ensures Rlp(C(kec, j, i)) == RlpList(ChildItems(refs, 16) + RlpString(ValueAt(j, i)))
  {
    ItemsAreBranches(kec, j, i, refs, 16);
    LastItem(Branches(kec, j, i, 16), Str(ValueAt(j, i)));
  }

  lemma LastItem(xs: seq<Item>, x: Item)
    ensures Rlp(List(xs + [x])) == RlpList(RlpEach(xs) + Rlp(x))
  {
    RlpEachSnoc(xs, x);
  }

  lemma EncodeBranchValue(refs: seq<ChildRef>, value: Option<Bytes>)
    ensures EncodeBranch(refs, value) == RlpList(ChildItems(refs, 16) + RlpString(ValueOf(value)))
  {
    assert RlpString([]) == [0x80];
  }

  /** A node's branch encoding is the structural composition past its path. */
  lemma BranchIsC(kec: Keccak, t: Trie, p: Nibbles)
    requires Canonical(t) && t.kids.Kid? && KidsMatch(kec, t.kids, p + t.path)
    ensures
      var j, i := Entries(t, p), |p + t.path|;
      j != map[] && Shared(j, i) && Rlp(C(kec, j, i)) == EncodeBranch(Refs(kec, t.kids), t.value)
  {
    var j, i := Entries(t, p), |p + t.path|;
    NodeShares(t, p, i);
    KidsOrdered(t.kids, 0);
    NodeItems(kec, t, p);
    ValueIsOwn(t, p);
    BranchShape(kec, j, i, Refs(kec, t.kids));
    EncodeBranchValue(Refs(kec, t.kids), t.value);
  }

  /** The slice of any key between the prefix and the end of the path is the path. */
  lemma SliceIsPath(t: Trie, p: Nibbles, i: nat, k: Nibbles)
    requires k in Entries(t, p) && i <= |p|
    ensures Slice(k, i, |p + t.path|) == p[i..] + t.path
  {
    EntryPrefix(t, p, k);
    assert k[i..|p + t.path|] == (p + t.path)[i..];
  }

  /** An extension: all keys share the path. */
  lemma ExtensionIsC(kec: Keccak, t: Trie, p: Nibbles, i: nat)
    requires Canonical(t) && t.kids.Kid? && KidsMatch(kec, t.kids, p + t.path) && i <= |p| && i < |p + t.path|
    ensures
      var j := Entries(t, p);
      j != map[] && Shared(j, i) && Rlp(C(kec, j, i)) == EncodeTwoPieces(p[i..] + t.path, BranchData(kec, t), false)
  {
    var j, q := Entries(t, p), p + t.path;
    NodeShares(t, p, i);
    BranchIsC(kec, t, p);
    SliceIsPath(t, p, i, SomeKey(j));
    ExtensionOver(kec, j, i, p[i..] + t.path, EncodeBranch(Refs(kec, t.kids), t.value));
  }

  /** An extension over a branch encoded as `branch`. */
  lemma ExtensionOver(kec: Keccak, j: map<Nibbles, Bytes>, i: nat, path: Nibbles, branch: Bytes)
    requires |j| >= 2 && Shared(j, i) && SharedLength(j, i) != i
    requires Slice(SomeKey(j), i, SharedLength(j, i)) == path && Rlp(C(kec, j, SharedLength(j, i))) == branch
    ensures Rlp(C(kec, j, i)) == EncodeTwoPieces(path, Reference(kec, branch), false)
  {
    ExtensionShape(kec, j, i);
    ReferenceIsN(kec, j, SharedLength(j, i));
  }

  /** A leaf. */
  lemma LeafIsC(kec: Keccak, t: Trie, p: Nibbles, i: nat)
    requires Canonical(t) && t.kids.NoKids? && i <= |p|
    ensures
      var j := Entries(t, p);
      j != map[] && Shared(j, i) && Rlp(C(kec, j, i)) == EncodeTwoPieces(p[i..] + t.path, ValueOf(t.value), true)
  {
    var q := p + t.path;
    assert Entries(t, p) == map[q := t.value.value];
    assert q[i..] == p[i..] + t.path;
    LeafShape(kec, q, t.value.value, i);
  }

  lemma {:induction false} ComputeMatches(kec: Keccak, t: Trie, p: Nibbles)
    requires Canonical(t)
    ensures Matches(kec, t, p)
    decreases t, 1
  {
    assert p[|p|..] == [];
    if t.kids.NoKids? {
      LeafIsC(kec, t, p, |p|);
      assert [] + t.path == t.path;
    } else {
      AllKidsMatch(kec, t.kids, 0, p + t.path);
      if t.path != [] {
        ExtensionIsC(kec, t, p, |p|);
        assert [] + t.path == t.path;
      } else {
        assert p + t.path == p;
        BranchIsC(kec, t, p);
      }
    }
  }

  lemma {:induction false} AllKidsMatch(kec: Keccak, kids: KidList, lo: nat, q: Nibbles)
    requires Kids(kids, lo)
    ensures KidsMatch(kec, kids, q)
    decreases kids
  {
    if kids.Kid? {
      ComputeMatches(kec, kids.sub, q + [kids.branch]);
      AllKidsMatch(kec, kids.rest, kids.branch + 1, q);
      OneMoreMatches(kec, kids, q);
    }
  }

  lemma OneMoreMatches(kec: Keccak, kids: KidList, q: Nibbles)
    requires kids.Kid? && Matches(kec, kids.sub, q + [kids.branch]) && KidsMatch(kec, kids.rest, q)
    ensures KidsMatch(kec, kids, q)
  {
    forall n: nat | KidAt(kids, n).Some?
      ensures Matches(kec, KidAt(kids, n).value, q + [n])
    {
      assert n == kids.branch || KidAt(kids, n) == KidAt(kids.rest, n);
    }
  }

  // ---- the root ----

  /** Hashing a reference that is not yet a hash gives the hash of the encoding. */
  lemma RootHash(kec: Keccak, rlp: Bytes)
    ensures
      var state := Reference(kec, rlp);
      (if |state| < 32 then kec(state) else state) == kec(rlp)
  {
  }

  /**
    The root data is the tree root of the trie's entries, for every canonical
    trie: with one child, with several, with children shorter than a hash and
    with values on branches. A root with a single child leaves its own entry
    out, if it has one.
   */
  lemma RootIsTrieRoot(kec: Keccak, kids: KidList, value: Option<Bytes>)
    requires Kids(kids, 0) && kids.Kid?
    ensures
      var all := Entries(Trie([], value, kids), []);
      var counted := if kids.rest.NoKids? then all - {[]} else all;
      counted != map[] && RootData(kec, kids, value) == TrieRoot(kec, counted)
    ensures value.None? ==> [] !in Entries(Trie([], value, kids), [])
  {
    WithoutOwn(kids, value);
    WithoutOwn(kids, None);
    if kids.rest.Kid? {
      SeveralChildrenAreC(kec, Trie([], value, kids));
    } else {
      SingleEntries(kids);
      SingleChildIsC(kec, kids.branch, kids.sub);
    }
  }

  /** The entries below the root are those of the same trie without a value. */
  lemma WithoutOwn(kids: KidList, value: Option<Bytes>)
    ensures Entries(Trie([], value, kids), []) - {[]} == Entries(Trie([], None, kids), [])
    ensures value.None? ==> [] !in Entries(Trie([], value, kids), [])
  {
    var q: Nibbles := [];
    assert q + q == q;
    if q in KidEntries(kids, q) {
      KidPrefix(kids, q, q);
    }
    var all := Entries(Trie([], value, kids), []);
    assert Own(q, None) + KidEntries(kids, q) == KidEntries(kids, q);
    assert forall k :: k in all - {[]} <==> k in KidEntries(kids, q);
  }

  lemma SeveralChildrenAreC(kec: Keccak, root: Trie)
    requires Canonical(root) && root.kids.Kid? && root.path == []
    ensures
      var j := Entries(root, []);
      var state := Reference(kec, EncodeBranch(Refs(kec, root.kids), root.value));
      j != map[] && Shared(j, 0) && (if |state| < 32 then kec(state) else state) == kec(Rlp(C(kec, j, 0)))
  {
    var q: Nibbles := [];
    assert q + root.path == q;
    AllKidsMatch(kec, root.kids, 0, q);
    BranchIsC(kec, root, q);
    RootHash(kec, EncodeBranch(Refs(kec, root.kids), root.value));
  }

  lemma SingleEntries(kids: KidList)
    requires kids.Kid? && kids.rest.NoKids?
    ensures Entries(Trie([], None, kids), []) == Entries(kids.sub, [kids.branch])
  {
    var q: Nibbles := [];
    assert q + q == q && q + [kids.branch] == [kids.branch];
    var m := Entries(kids.sub, [kids.branch]);
    assert KidEntries(kids, q) == m + KidEntries(kids.rest, q);
    assert KidEntries(kids.rest, q) == map[] && m + map[] == m;
    assert Own(q, None) == map[];
  }

  lemma SingleChildIsC(kec: Keccak, branch: nat, t: Trie)
    requires Canonical(t)
    ensures
      var j := Entries(t, [branch]);
      var state := SingleChild(kec, branch, t);
      j != map[] && Shared(j, 0) && (if |state| < 32 then kec(state) else state) == kec(Rlp(C(kec, j, 0)))
  {
    assert [branch][0..] == [branch];
    if t.kids.NoKids? {
      LeafIsC(kec, t, [branch], 0);
    } else {
      AllKidsMatch(kec, t.kids, 0, [branch] + t.path);
      ExtensionIsC(kec, t, [branch], 0);
    }
    RootHash(kec, Rlp(C(kec, Entries(t, [branch]), 0)));
  }

  /** An empty root value, which is how a subtrie root is stored, changes nothing. */
  lemma EmptyRootValue(kec: Keccak, kids: KidList)
    requires kids.Kid?
    ensures RootData(kec, kids, Some([])) == RootData(kec, kids, None)
  {
  }
}
