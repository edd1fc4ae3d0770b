/**
  The compact encoding of a path, written nibble by nibble into a buffer, and
  its decoder: together they are the hex-prefix encoding of the Yellow Paper and
  its exact inverse.
 */
module CompactEncoding {
  import opened YellowPaper
  import opened RlpCodec

  const MAX_PATH: nat := 255

  ghost predicate IsNibbles(x: Nibbles) {
    forall i :: 0 <= i < |x| ==> x[i] < 16
  }

  /** What the encoder accepts; an empty path must terminate. */
  ghost predicate ValidPath(x: Nibbles, terminating: bool) {
    IsNibbles(x) && (x != [] || terminating)
  }

  /** The path with its prefix: flag nibble, and a padding nibble in front of an even path. */
  function Prefixed(x: Nibbles, terminating: bool): (r: Nibbles)
    ensures |r| == 2 * (|x| / 2 + 1) && r[2 - |x| % 2..] == x
  {
    var f := if terminating then 2 else 0;
    if |x| % 2 == 0 then [f, 0] + x else [f + 1] + x
  }

  lemma {:induction false} PairAt(x: Nibbles, j: nat)
    ensures |HexPairs(x)| == |x| / 2
    ensures j < |x| / 2 ==> HexPairs(x)[j] == 16 * x[2 * j] + x[2 * j + 1]
    decreases |x|
  {
    if |x| >= 2 {
      PairAt(x[2..], if j > 0 then j - 1 else 0);
    }
  }

  lemma HexIsPairs(x: Nibbles, terminating: bool)
    ensures Hex(x, terminating) == HexPairs(Prefixed(x, terminating))
  {
    var p := Prefixed(x, terminating);
    if |x| % 2 == 0 {
      assert p[2..] == x;
    } else {
      assert p[2..] == x[1..];
    }
  }

  /** The byte after `set_nibble`. */
  function WithNibble(b: Byte, n: nat, v: nat): Byte {
    if n % 2 == 0 then b % 16 + 16 * v else 16 * (b / 16) + v
  }

  function NibbleAt(b: Byte, n: nat): nat {
    if n % 2 == 0 then b / 16 else b % 16
  }

  /** The first `n` nibbles of the buffer. */
  ghost predicate Holds(b: Bytes, p: Nibbles, n: nat)
    requires n <= |p| && n <= 2 * |b|
  {
    forall k :: 0 <= k < n ==> NibbleAt(b[k / 2], k) == p[k]
  }

  lemma HoldsNext(b: Bytes, p: Nibbles, n: nat)
    requires n < |p| && n < 2 * |b| && Holds(b, p, n) && p[n] < 16
    ensures Holds(b[n / 2 := WithNibble(b[n / 2], n, p[n])], p, n + 1)
  {
    var c := b[n / 2 := WithNibble(b[n / 2], n, p[n])];
    forall k | 0 <= k < n + 1
      ensures NibbleAt(c[k / 2], k) == p[k]
    {
      if k < n {
        assert NibbleAt(b[k / 2], k) == p[k];
      }
    }
  }

  lemma HoldsAll(b: Bytes, p: Nibbles, n: nat)
    requires |p| == 2 * n && n <= |b| && Holds(b, p, 2 * n)
    ensures b[..n] == HexPairs(p)
  {
    PairAt(p, 0);
    forall j | 0 <= j < n
      ensures b[j] == HexPairs(p)[j]
    {
      PairAt(p, j);
      assert NibbleAt(b[(2 * j) / 2], 2 * j) == p[2 * j] && NibbleAt(b[(2 * j + 1) / 2], 2 * j + 1) == p[2 * j + 1];
    }
  }

  lemma PrefixedIsNibbles(x: Nibbles, terminating: bool)
    requires IsNibbles(x)
    ensures IsNibbles(Prefixed(x, terminating))
  {
  }

  /** The first byte carries the flags and, for an odd path, the first nibble. */
  lemma FirstByte(b: Bytes, x: Nibbles, terminating: bool, first: Byte)
    requires |b| > 0 && IsNibbles(x)
    requires first == (if terminating then 0x20 else 0x00) + if |x| % 2 == 1 then 0x10 + x[0] else 0
    ensures Holds(b[0 := first], Prefixed(x, terminating), 2)
  {
  }

  /** `compact_encode`: the encoding in the buffer, the rest of the buffer as it was. */
  method CompactEncode(res: array<Byte>, nibbles: Nibbles, terminating: bool) returns (len: nat)
    requires ValidPath(nibbles, terminating) && res.Length >= |nibbles| / 2 + 1
    modifies res
    ensures len == |nibbles| / 2 + 1 && res[..len] == Hex(nibbles, terminating) && res[len..] == old(res[len..])
  {
    len := |nibbles| / 2 + 1;
    ghost var p := Prefixed(nibbles, terminating);
    var i := 0;
    PrefixedIsNibbles(nibbles, terminating);
    var first := if terminating then 0x20 else 0x00;
    if |nibbles| % 2 == 1 {
      first := first + (0x10 + nibbles[0]);
      i := 1;
    }
    FirstByte(res[..], nibbles, terminating, first);
    res[0] := first;
    var at := 2;
    assert res[..] == old(res[..])[0 := first];
    while i < |nibbles|
      invariant i <= |nibbles| && at == i + (2 - |nibbles| % 2)
      invariant Holds(res[..], p, at)
      invariant res[len..] == old(res[len..])
    {
      assert p[at] == p[2 - |nibbles| % 2..][i] == nibbles[i];
      ghost var before := res[..];
      HoldsNext(before, p, at);
      res[at / 2] := WithNibble(res[at / 2], at, nibbles[i]);
      assert res[..] == before[at / 2 := WithNibble(before[at / 2], at, p[at])];
      at, i := at + 1, i + 1;
    }
    HoldsAll(res[..], p, len);
    assert res[..][..len] == res[..len];
    HexIsPairs(nibbles, terminating);
  }

  // ---- the decoder ----

  /** The nibbles of some bytes. */
  function Unpacked(b: Bytes): (r: Nibbles)
    ensures |r| == 2 * |b|
  {
    if b == [] then [] else Unpacked(b[..|b| - 1]) + [b[|b| - 1] / 16, b[|b| - 1] % 16]
  }

  lemma {:induction false} UnpackedAt(b: Bytes, k: nat)
    requires k < 2 * |b|
    ensures Unpacked(b)[k] == NibbleAt(b[k / 2], k)
    decreases |b|
  {
    if k / 2 < |b| - 1 {
      UnpackedAt(b[..|b| - 1], k);
    }
  }

  lemma PackUnpacked(b: Bytes)
    ensures HexPairs(Unpacked(b)) == b
  {
    PairAt(Unpacked(b), 0);
    forall j | 0 <= j < |b|
      ensures HexPairs(Unpacked(b))[j] == b[j]
    {
      PairAt(Unpacked(b), j);
      UnpackedAt(b, 2 * j);
      UnpackedAt(b, 2 * j + 1);
    }
  }

  lemma UnpackedIsNibbles(b: Bytes)
    requires IsBytes(b)
    ensures IsNibbles(Unpacked(b))
  {
    forall k | 0 <= k < |Unpacked(b)|
      ensures Unpacked(b)[k] < 16
    {
      UnpackedAt(b, k);
    }
  }

  lemma NibblesOfByte(a: nat, b: nat)
    requires b < 16
    ensures (16 * a + b) / 16 == a && (16 * a + b) % 16 == b
  {
  }

  lemma PairNibble(x: Nibbles, k: nat)
    requires IsNibbles(x) && |x| % 2 == 0 && k < |x|
    ensures |HexPairs(x)| == |x| / 2 && NibbleAt(HexPairs(x)[k / 2], k) == x[k]
  {
    PairAt(x, k / 2);
    NibblesOfByte(x[2 * (k / 2)], x[2 * (k / 2) + 1]);
  }

  lemma UnpackPairs(x: Nibbles)
    requires IsNibbles(x) && |x| % 2 == 0
    ensures Unpacked(HexPairs(x)) == x
  {
    PairAt(x, 0);
    forall k | 0 <= k < |x|
      ensures Unpacked(HexPairs(x))[k] == x[k]
    {
      PairNibble(x, k);
      UnpackedAt(HexPairs(x), k);
    }
  }

  /** The first byte of every encoding, and how long it is. */
  lemma HexHead(x: Nibbles, t: bool)
    requires IsNibbles(x)
    ensures
      var b := Hex(x, t);
      |b| == |x| / 2 + 1 && b[0] == (if t then 0x20 else 0x00) + (if |x| % 2 == 1 then 0x10 + x[0] else 0) &&
      b[1..] == HexPairs(x[|x| % 2..])
  {
    PairAt(x[|x| % 2..], 0);
    assert x[0..] == x;
  }

  /** The path that the bytes behind the first one and, if it is odd, the first one hold. */
  function Path(enc: Bytes, odd: bool): Nibbles
    requires enc != []
  {
    (if odd then [enc[0] % 16] else []) + Unpacked(enc[1..])
  }

  lemma PathParts(enc: Bytes, odd: bool, x: Nibbles)
    requires enc != [] && IsBytes(enc) && x == Path(enc, odd)
    ensures IsNibbles(x) && |x| % 2 == (if odd then 1 else 0) && x[|x| % 2..] == Unpacked(enc[1..]) &&
            (odd ==> x[0] == enc[0] % 16)
  {
    UnpackedIsNibbles(enc[1..]);
  }

  lemma PathEncodes(enc: Bytes, t: bool, odd: bool, x: Nibbles)
    requires enc != [] && IsBytes(enc) && x == Path(enc, odd)
    requires enc[0] == (if t then 0x20 else 0x00) + (if odd then 0x10 + enc[0] % 16 else 0)
    ensures IsNibbles(x) && Hex(x, t) == enc
  {
    PathParts(enc, odd, x);
    PackUnpacked(enc[1..]);
    HexHead(x, t);
    assert enc == [enc[0]] + enc[1..] && Hex(x, t) == [Hex(x, t)[0]] + Hex(x, t)[1..];
  }

  lemma Flags(t: bool, odd: bool, low: nat, first: Byte)
    requires low < 16 && first == (if t then 0x20 else 0x00) + if odd then 0x10 + low else 0
    ensures first < 64 && t == (first / 32 % 2 == 1) && odd == (first / 16 % 2 == 1) &&
            first % 16 == if odd then low else 0
  {
  }

  lemma FlagsBack(first: Byte)
    requires first < 64 && (first / 16 % 2 == 1 || first % 16 == 0)
    ensures first == (if first / 32 % 2 == 1 then 0x20 else 0x00) +
                     if first / 16 % 2 == 1 then 0x10 + first % 16 else 0
  {
  }

  /** What an encoding is an encoding of. */
  lemma EncodingDetermines(x: Nibbles, t: bool, enc: Bytes)
    requires IsNibbles(x) && Hex(x, t) == enc
    ensures enc != [] && enc[0] < 64 && t == (enc[0] / 32 % 2 == 1) && (|x| % 2 == 1) == (enc[0] / 16 % 2 == 1)
    ensures (|x| % 2 == 0 ==> enc[0] % 16 == 0) && x == Path(enc, |x| % 2 == 1)
  {
    HexHead(x, t);
    Flags(t, |x| % 2 == 1, if |x| % 2 == 1 then x[0] else 0, enc[0]);
    UnpackPairs(x[|x| % 2..]);
    HeadAndTail(x);
  }

  lemma HeadAndTail(x: Nibbles)
    ensures x == (if |x| % 2 == 1 then [x[0]] else []) + x[|x| % 2..]
  {
  }

  /** Decoding undoes encoding, and no two paths share an encoding. */
  lemma CompactIsInjective(x: Nibbles, t: bool, y: Nibbles, u: bool)
    requires IsNibbles(x) && IsNibbles(y) && Hex(x, t) == Hex(y, u)
    ensures x == y && t == u
  {
    EncodingDetermines(x, t, Hex(x, t));
    EncodingDetermines(y, u, Hex(x, t));
  }

  /** The bytes are an encoding that the decoder has room for. */
  ghost predicate Decodes(enc: Bytes, x: Nibbles, t: bool) {
    ValidPath(x, t) && |x| <= 255 && Hex(x, t) == enc
  }

  lemma DecodesIff(enc: Bytes, x: Nibbles, t: bool)
    requires IsBytes(enc)
    ensures Decodes(enc, x, t) <==>
            enc != [] && enc[0] < 64 && (enc[0] / 16 % 2 == 1 || enc[0] % 16 == 0) &&
            t == (enc[0] / 32 % 2 == 1) && x == Path(enc, enc[0] / 16 % 2 == 1) && |x| <= 255 && (x != [] || t)
  {
    if Decodes(enc, x, t) {
      EncodingDetermines(x, t, enc);
    }
    if enc != [] && enc[0] < 64 && (enc[0] / 16 % 2 == 1 || enc[0] % 16 == 0) && t == (enc[0] / 32 % 2 == 1) &&
       x == Path(enc, enc[0] / 16 % 2 == 1) {
      FlagsBack(enc[0]);
      PathEncodes(enc, t, enc[0] / 16 % 2 == 1, x);
    }
  }

  method ReadNibbles(enc: Bytes, odd: bool) returns (result: Nibbles)
    requires enc != []
    ensures result == Path(enc, odd)
  {
    result := if odd then [enc[0] % 16] else [];
    for i := 1 to |enc|
      invariant result == (if odd then [enc[0] % 16] else []) + Unpacked(enc[1..i])
    {
      assert enc[1..i + 1][..i - 1] == enc[1..i];
      result := result + [enc[i] / 16];
      result := result + [enc[i] % 16];
    }
    assert enc[1..|enc|] == enc[1..];
  }

  /** `compact_decode`. */
  method CompactDecode(enc: Bytes) returns (r: Decoded<(Nibbles, bool)>)
    requires IsBytes(enc)
    ensures forall x: Nibbles, t: bool :: r == Ok((x, t)) <==> Decodes(enc, x, t)
    ensures r == Err(InputTooShort) <==> enc == []
    ensures r == Err(TypeUnexpected) <==>
            enc != [] && (enc[0] >= 64 || (enc[0] / 16 % 2 == 0 && enc[0] % 16 != 0))
    ensures r == Err(PathTooShort) <==> enc == [0]
  {
    forall x: Nibbles, t: bool {
      DecodesIff(enc, x, t);
    }
    if enc == [] {
      return Err(InputTooShort);
    }
    if enc[0] >= 64 {
      return Err(TypeUnexpected);
    }
    var terminating, odd := enc[0] / 32 % 2 == 1, enc[0] / 16 % 2 == 1;
    if !odd && enc[0] % 16 != 0 {
      return Err(TypeUnexpected);
    }
    var nibbleCount := (|enc| - 1) * 2 + if odd then 1 else 0;
    if nibbleCount == 0 && !terminating {
      return Err(PathTooShort);
    }
    if nibbleCount > MAX_PATH {
      return Err(PathTooLong);
    }
    var result := ReadNibbles(enc, odd);
    r := Ok((result, terminating));
  }
}
