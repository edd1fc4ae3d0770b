/**
  The Ethereum Yellow Paper, Appendices B (recursive length prefix), C
  (hex-prefix) and D (modified Merkle Patricia tree), for any 32-byte hash.
 */
module YellowPaper {

  type Byte = nat
  type Bytes = seq<Byte>
  type Nibbles = seq<nat>

  /** Any hash with 32-byte results stands in for Keccak-256. */
  type Keccak = f: Bytes -> Bytes | forall b: Bytes :: |f(b)| == 32 witness (b: Bytes) => seq(32, i => 0)

  // ---- Appendix B ----

  datatype Item = Str(s: Bytes) | List(items: seq<Item>)

  function BigEndian(n: nat): Bytes {
    if n == 0 then [] else BigEndian(n / 256) + [n % 256]
  }

  function RlpString(s: Bytes): Bytes {
    if |s| == 1 && s[0] < 128 then s
    else if |s| < 56 then [128 + |s|] + s
    else [183 + |BigEndian(|s|)|] + BigEndian(|s|) + s
  }

  function RlpList(payload: Bytes): Bytes {
    if |payload| < 56 then [192 + |payload|] + payload
    else [247 + |BigEndian(|payload|)|] + BigEndian(|payload|) + payload
  }

  function Rlp(x: Item): Bytes {
    match x
    case Str(s) => RlpString(s)
    case List(items) => RlpList(RlpEach(items))
  }

  function RlpEach(items: seq<Item>): Bytes {
    if items == [] then [] else Rlp(items[0]) + RlpEach(items[1..])
  }

  // ---- Appendix C ----

  function HexPairs(x: Nibbles): Bytes {
    if |x| < 2 then [] else [16 * x[0] + x[1]] + HexPairs(x[2..])
  }

  function Hex(x: Nibbles, t: bool): Bytes {
    var f := if t then 2 else 0;
    if |x| % 2 == 0 then [16 * f] + HexPairs(x) else [16 * (f + 1) + x[0]] + HexPairs(x[1..])
  }

  // ---- Appendix D ----

  /** Every key starts with the same `x` nibbles. */
  ghost predicate Shared(j: map<Nibbles, Bytes>, x: nat) {
    forall a, b :: a in j && b in j ==> x <= |a| && x <= |b| && a[..x] == b[..x]
  }

  /** A key of maximal length. */
  lemma {:induction false} LongestExists(keys: set<Nibbles>) returns (k: Nibbles)
    requires keys != {}
    ensures k in keys && forall a :: a in keys ==> |a| <= |k|
    decreases |keys|
  {
    k :| k in keys;
    if keys != {k} {
      var m := LongestExists(keys - {k});
      if |k| < |m| {
        k := m;
      }
    }
  }

  /** An upper bound of the key lengths that some key attains; zero if there are no keys. */
  ghost predicate IsDepth(j: map<Nibbles, Bytes>, d: nat) {
    (forall k :: k in j ==> |k| <= d) && (d == 0 || exists k :: k in j && |k| == d)
  }

  lemma DepthExists(j: map<Nibbles, Bytes>)
    ensures exists d: nat :: IsDepth(j, d)
  {
    if j.Keys == {} {
      assert IsDepth(j, 0);
    } else {
      var k := LongestExists(j.Keys);
      assert IsDepth(j, |k|);
    }
  }

  ghost function Depth(j: map<Nibbles, Bytes>): (d: nat)
    ensures IsDepth(j, d)
  {
    DepthExists(j);
    var d: nat :| IsDepth(j, d);
    d
  }

  /** The largest `x >= i` such that all keys start with the same `x` nibbles. */
  ghost function SharedLength(j: map<Nibbles, Bytes>, i: nat): (x: nat)
    requires j != map[] && Shared(j, i)
    ensures i <= x && Shared(j, x) && !Shared(j, x + 1)
    decreases Depth(j) - i
  {
    SharedBelowDepth(j, i);
    if Shared(j, i + 1) then SharedBelowDepth(j, i + 1); SharedLength(j, i + 1) else i
  }

  lemma SharedBelowDepth(j: map<Nibbles, Bytes>, x: nat)
    requires j != map[] && Shared(j, x)
    ensures x <= Depth(j)
  {
    var k :| k in j;
  }

  lemma SharedDown(j: map<Nibbles, Bytes>, x: nat, y: nat)
    requires Shared(j, x) && y <= x
    ensures Shared(j, y)
  {
    forall a, b | a in j && b in j
      ensures a[..y] == b[..y]
    {
      assert a[..y] == a[..x][..y] && b[..y] == b[..x][..y];
    }
  }

  /** It is the maximum that Appendix D asks for. */
  lemma SharedLengthIsMax(j: map<Nibbles, Bytes>, i: nat, x: nat)
    requires j != map[] && Shared(j, i) && Shared(j, x)
    ensures x <= SharedLength(j, i)
  {
    if SharedLength(j, i) < x {
      SharedDown(j, x, SharedLength(j, i) + 1);
    }
  }

  /** The pairs whose key has nibble `n` at position `i`. */
  ghost function Branch(j: map<Nibbles, Bytes>, i: nat, n: nat): map<Nibbles, Bytes> {
    map k | k in j && i < |k| && k[i] == n :: j[k]
  }

  lemma BranchShared(j: map<Nibbles, Bytes>, i: nat, n: nat)
    requires Shared(j, i)
    ensures Shared(Branch(j, i, n), i + 1)
    ensures Branch(j, i, n) != map[] ==> i < Depth(Branch(j, i, n)) <= Depth(j)
  {
    var b := Branch(j, i, n);
    forall x, y | x in b && y in b
      ensures x[..i + 1] == y[..i + 1]
    {
      assert x[..i + 1] == x[..i] + [n] && y[..i + 1] == y[..i] + [n];
    }
    if b != map[] {
      var k :| k in b;
      assert forall a :: a in b ==> a in j;
    }
  }

  /** The value of the key that ends at `i`, or the empty string. */
  ghost function ValueAt(j: map<Nibbles, Bytes>, i: nat): Bytes {
    if k :| k in j && |k| == i then j[k] else []
  }

  /** Nibbles still to be consumed, for termination. */
  ghost function Rank(j: map<Nibbles, Bytes>, i: nat): nat {
    if j == map[] then 0 else if i <= Depth(j) then Depth(j) - i + 1 else 1
  }

  lemma RankShared(j: map<Nibbles, Bytes>, i: nat, x: nat)
    requires j != map[] && Shared(j, x) && i < x
    ensures Rank(j, x) < Rank(j, i)
  {
    SharedBelowDepth(j, x);
  }

  lemma RankBranch(j: map<Nibbles, Bytes>, i: nat, n: nat)
    requires j != map[] && Shared(j, i)
    ensures Shared(Branch(j, i, n), i + 1) && Rank(Branch(j, i, n), i + 1) < Rank(j, i)
  {
    SharedBelowDepth(j, i);
    BranchShared(j, i, n);
  }

  /** Nibbles `i` to `x` of `k`. */
  function Slice(k: Nibbles, i: nat, x: nat): Nibbles {
    if i <= x <= |k| then k[i..x] else []
  }

  ghost function SomeKey(j: map<Nibbles, Bytes>): (k: Nibbles)
    requires j != map[]
    ensures k in j
  {
    var k :| k in j;
    k
  }

  /** The structural composition c(J, i). */
  ghost function C(kec: Keccak, j: map<Nibbles, Bytes>, i: nat): Item
    requires j != map[] && Shared(j, i)
    decreases Rank(j, i), 2
  {
    var k, x := SomeKey(j), SharedLength(j, i);
    if |j| == 1 then List([Str(Hex(Slice(k, i, |k|), true)), Str(j[k])])
    else if x != i then RankShared(j, i, x); List([Str(Hex(Slice(k, i, x), false)), N(kec, j, x)])
    else List(Branches(kec, j, i, 16) + [Str(ValueAt(j, i))])
  }

  /** The node composition function n(J, i). */
  ghost function N(kec: Keccak, j: map<Nibbles, Bytes>, i: nat): Item
    requires Shared(j, i)
    decreases Rank(j, i), 3
  {
    if j == map[] then Str([]) else if |Rlp(C(kec, j, i))| < 32 then C(kec, j, i) else Str(kec(Rlp(C(kec, j, i))))
  }

  /** The item u(n) of a branch. */
  ghost function U(kec: Keccak, j: map<Nibbles, Bytes>, i: nat, n: nat): Item
    requires j != map[] && Shared(j, i)
    decreases Rank(j, i), 0
  {
    RankBranch(j, i, n);
    N(kec, Branch(j, i, n), i + 1)
  }

  /** The first `n` of the items u(0) ... u(15) of a branch. */
  ghost function Branches(kec: Keccak, j: map<Nibbles, Bytes>, i: nat, n: nat): (r: seq<Item>)
    requires j != map[] && Shared(j, i)
    ensures |r| == n
    decreases Rank(j, i), 1, n
  {
    if n == 0 then [] else Branches(kec, j, i, n - 1) + [U(kec, j, i, n - 1)]
  }

  /** The root of the tree. */
  ghost function TrieRoot(kec: Keccak, j: map<Nibbles, Bytes>): Bytes
    requires j != map[]
  {
    kec(Rlp(C(kec, j, 0)))
  }
}
