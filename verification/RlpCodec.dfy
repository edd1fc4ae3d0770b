/**
  The RLP decoder: it accepts exactly the canonical encodings, so decoding and
  encoding are inverse to each other and an encoding determines its item.
 */
module RlpCodec {
  import opened YellowPaper

  datatype DecodeError = InputTooShort | TypeUnexpected | Overflow | LeadingZero | PathTooShort | PathTooLong

  datatype Decoded<T> = Ok(value: T) | Err(error: DecodeError)

  /** `RlpType`, the payload, and what is left of the input. */
  datatype Parsed = Parsed(isList: bool, payload: Bytes, rest: Bytes)

  const SIZE_LIMIT: nat := 0x1_0000_0000_0000_0000

  ghost predicate IsBytes(b: Bytes) {
    forall i :: 0 <= i < |b| ==> b[i] < 256
  }

  /** The number with big-endian digits `b`. */
  function FromBigEndian(b: Bytes): nat {
    if b == [] then 0 else 256 * FromBigEndian(b[..|b| - 1]) + b[|b| - 1]
  }

  /** `decode_raw_num<size_t>`. */
  function DecodeLength(enc: Bytes): Decoded<nat> {
    if |enc| > 8 then Err(Overflow)
    else if enc == [] then Ok(0)
    else if enc[0] == 0 then Err(LeadingZero)
    else Ok(FromBigEndian(enc))
  }

  /** `extract_payload`: the end of the payload is computed in 64 bits. */
  function ExtractPayload(isList: bool, enc: Bytes, i: nat, length: nat): Decoded<Parsed> {
    var end := (i + length) % SIZE_LIMIT;
    if end > |enc| || end < i then Err(InputTooShort) else Ok(Parsed(isList, enc[i..end], enc[end..]))
  }

  /** A length that is itself preceded by its length. */
  function LongPayload(isList: bool, enc: Bytes, lengthOfLength: nat): Decoded<Parsed> {
    if 1 + lengthOfLength >= |enc| then Err(InputTooShort)
    else
      match DecodeLength(enc[1..1 + lengthOfLength])
      case Err(error) => Err(error)
      case Ok(length) =>
        if length < 56 then Err(TypeUnexpected) else ExtractPayload(isList, enc, 1 + lengthOfLength, length)
  }

  /** `parse_metadata`. */
  function ParseMetadata(enc: Bytes): Decoded<Parsed> {
    if enc == [] then Err(InputTooShort)
    else if enc[0] < 0x80 then ExtractPayload(false, enc, 0, 1)
    else if enc[0] < 0xb8 then
      if enc[0] == 0x81 && |enc| < 2 then Err(InputTooShort)
      else if enc[0] == 0x81 && enc[1] < 0x80 then Err(TypeUnexpected)
      else ExtractPayload(false, enc, 1, enc[0] - 0x80)
    else if enc[0] < 0xc0 then LongPayload(false, enc, enc[0] - 0xb7)
    else if enc[0] < 0xf8 then ExtractPayload(true, enc, 1, enc[0] - 0xc0)
    else LongPayload(true, enc, enc[0] - 0xf7)
  }

  /** The encoding of a payload: `encode_string` or `encode_list`. */
  function Encode(isList: bool, payload: Bytes): Bytes {
    if isList then RlpList(payload) else RlpString(payload)
  }

  // ---- lengths ----

  /** Big-endian digits without leading zeros. */
  lemma {:induction false} DigitsOfNumber(n: nat)
    ensures FromBigEndian(BigEndian(n)) == n && IsBytes(BigEndian(n)) && (n > 0 ==> BigEndian(n)[0] != 0)
  {
    if n > 0 {
      var high := BigEndian(n / 256);
      DigitsOfNumber(n / 256);
      assert BigEndian(n)[..|high|] == high;
    }
  }

  lemma {:induction false} NumberOfDigits(b: Bytes)
    requires IsBytes(b) && (b != [] ==> b[0] != 0)
    ensures BigEndian(FromBigEndian(b)) == b && (b != [] ==> FromBigEndian(b) > 0)
    decreases |b|
  {
    if b != [] {
      var high, last := b[..|b| - 1], b[|b| - 1];
      NumberOfDigits(high);
      assert (256 * FromBigEndian(high) + last) / 256 == FromBigEndian(high);
      assert b == high + [last];
    }
  }

  function Pow256(k: nat): (r: nat)
    ensures r > 0
  {
    if k == 0 then 1 else 256 * Pow256(k - 1)
  }

  /** Exactly the numbers below `256^k` have at most `k` digits. */
  lemma {:induction false} DigitsFit(n: nat, k: nat)
    ensures n < Pow256(k) <==> |BigEndian(n)| <= k
  {
    if k > 0 && n > 0 {
      DigitsFit(n / 256, k - 1);
      assert n < 256 * Pow256(k - 1) <==> n / 256 < Pow256(k - 1);
    }
  }

  lemma EightDigits(n: nat)
    ensures n < SIZE_LIMIT <==> |BigEndian(n)| <= 8
  {
    assert Pow256(4) == 0x1_0000_0000;
    assert Pow256(8) == 256 * (256 * (256 * (256 * Pow256(4))));
    DigitsFit(n, 8);
  }

  // ---- decoding an encoding ----

  lemma ExtractsPayload(isList: bool, head: Bytes, payload: Bytes, rest: Bytes, enc: Bytes)
    requires enc == head + payload + rest && |enc| < SIZE_LIMIT
    ensures ExtractPayload(isList, enc, |head|, |payload|) == Ok(Parsed(isList, payload, rest))
  {
    assert enc[|head|..|head| + |payload|] == payload && enc[|head| + |payload|..] == rest;
  }

  lemma ParsesLong(isList: bool, payload: Bytes, rest: Bytes, first: Byte, be: Bytes, enc: Bytes)
    requires |payload| >= 56 && be == BigEndian(|payload|) && enc == [first] + be + payload + rest && |enc| < SIZE_LIMIT
    ensures 1 <= |be| <= 8 && LongPayload(isList, enc, |be|) == Ok(Parsed(isList, payload, rest))
  {
    DigitsOfNumber(|payload|);
    EightDigits(|payload|);
    LengthDigits(first, be, payload, rest, enc);
    ExtractsPayload(isList, [first] + be, payload, rest, enc);
  }

  lemma LengthDigits(first: Byte, be: Bytes, payload: Bytes, rest: Bytes, enc: Bytes)
    requires enc == [first] + be + payload + rest
    ensures enc[1..1 + |be|] == be
  {
    assert enc[..1 + |be|] == [first] + be;
    assert enc[1..1 + |be|] == enc[..1 + |be|][1..];
  }

  lemma ParsesString(s: Bytes, rest: Bytes, enc: Bytes)
    requires enc == RlpString(s) + rest && |enc| < SIZE_LIMIT
    ensures ParseMetadata(enc) == Ok(Parsed(false, s, rest))
  {
    if |s| == 1 && s[0] < 128 {
      assert enc == [] + s + rest;
      ExtractsPayload(false, [], s, rest, enc);
    } else if |s| < 56 {
      ExtractsPayload(false, [128 + |s|], s, rest, enc);
    } else {
      var be := BigEndian(|s|);
      ParsesLong(false, s, rest, 183 + |be|, be, enc);
    }
  }

  lemma ParsesList(payload: Bytes, rest: Bytes, enc: Bytes)
    requires enc == RlpList(payload) + rest && |enc| < SIZE_LIMIT
    ensures ParseMetadata(enc) == Ok(Parsed(true, payload, rest))
  {
    if |payload| < 56 {
      ExtractsPayload(true, [192 + |payload|], payload, rest, enc);
    } else {
      var be := BigEndian(|payload|);
      ParsesLong(true, payload, rest, 247 + |be|, be, enc);
    }
  }

  // ---- what is decoded was encoded ----

  lemma ExtractedPayload(isList: bool, enc: Bytes, i: nat, length: nat, p: Parsed)
    requires ExtractPayload(isList, enc, i, length) == Ok(p) && i <= |enc| < SIZE_LIMIT && length < SIZE_LIMIT
    ensures p.isList == isList && |p.payload| == length && enc == enc[..i] + p.payload + p.rest
  {
    assert i + length < SIZE_LIMIT;
  }

  lemma LongIsEncoding(isList: bool, enc: Bytes, k: nat, p: Parsed)
    requires IsBytes(enc) && |enc| < SIZE_LIMIT && 1 <= k <= 8 && LongPayload(isList, enc, k) == Ok(p)
    ensures
      var be := BigEndian(|p.payload|);
      p.isList == isList && |p.payload| >= 56 && |be| == k && enc == [enc[0]] + be + p.payload + p.rest
  {
    var be := enc[1..1 + k];
    var length := FromBigEndian(be);
    NumberOfDigits(be);
    EightDigits(length);
    ExtractedPayload(isList, enc, 1 + k, length, p);
    assert enc[..1 + k] == [enc[0]] + be;
  }

  lemma ShortIsEncoding(isList: bool, enc: Bytes, length: nat, p: Parsed)
    requires 1 <= |enc| < SIZE_LIMIT && length < 56 && ExtractPayload(isList, enc, 1, length) == Ok(p)
    ensures p.isList == isList && |p.payload| == length && enc == [enc[0]] + p.payload + p.rest
  {
    ExtractedPayload(isList, enc, 1, length, p);
    assert enc[..1] == [enc[0]];
  }

  lemma ParsedIsEncoding(enc: Bytes, p: Parsed)
    requires IsBytes(enc) && |enc| < SIZE_LIMIT && ParseMetadata(enc) == Ok(p)
    ensures enc == Encode(p.isList, p.payload) + p.rest
  {
    if enc[0] < 0x80 {
      ExtractedPayload(false, enc, 0, 1, p);
      assert enc == p.payload + p.rest;
    } else if enc[0] < 0xb8 {
      ShortIsEncoding(false, enc, enc[0] - 0x80, p);
    } else if enc[0] < 0xc0 {
      LongIsEncoding(false, enc, enc[0] - 0xb7, p);
    } else if enc[0] < 0xf8 {
      ShortIsEncoding(true, enc, enc[0] - 0xc0, p);
    } else {
      LongIsEncoding(true, enc, enc[0] - 0xf7, p);
    }
  }

  /** The decoder accepts exactly the canonical encodings, and returns what was encoded and what follows it. */
  lemma ParsesExactlyEncodings(enc: Bytes, p: Parsed)
    requires IsBytes(enc) && |enc| < SIZE_LIMIT
    ensures ParseMetadata(enc) == Ok(p) <==> enc == Encode(p.isList, p.payload) + p.rest
  {
    if ParseMetadata(enc) == Ok(p) {
      ParsedIsEncoding(enc, p);
    }
    if enc == Encode(p.isList, p.payload) + p.rest {
      if p.isList {
        ParsesList(p.payload, p.rest, enc);
      } else {
        ParsesString(p.payload, p.rest, enc);
      }
    }
  }

  // ---- items ----

  /** No encoding of an item is a prefix of another: the item and what follows it can be told apart. */
  lemma {:induction false} ItemIsDetermined(x: Item, a: Bytes, y: Item, b: Bytes)
    requires Rlp(x) + a == Rlp(y) + b && |Rlp(x) + a| < SIZE_LIMIT
    ensures x == y && a == b
    decreases x
  {
    var enc := Rlp(x) + a;
    HeadParses(x, a, enc);
    HeadParses(y, b, enc);
    if x.List? && y.List? {
      ItemsAreDetermined(x.items, y.items);
    }
  }

  function Payload(x: Item): Bytes {
    match x
    case Str(s) => s
    case List(items) => RlpEach(items)
  }

  lemma HeadParses(x: Item, a: Bytes, enc: Bytes)
    requires enc == Rlp(x) + a && |enc| < SIZE_LIMIT
    ensures ParseMetadata(enc) == Ok(Parsed(x.List?, Payload(x), a)) && |Payload(x)| <= |Rlp(x)|
  {
    match x
    case Str(s) => ParsesString(s, a, enc);
    case List(items) => ParsesList(RlpEach(items), a, enc);
  }

  lemma {:induction false} ItemsAreDetermined(xs: seq<Item>, ys: seq<Item>)
    requires RlpEach(xs) == RlpEach(ys) && |RlpEach(xs)| < SIZE_LIMIT
    ensures xs == ys
    decreases xs
  {
    if xs != [] && ys != [] {
      ItemIsDetermined(xs[0], RlpEach(xs[1..]), ys[0], RlpEach(ys[1..]));
      ItemsAreDetermined(xs[1..], ys[1..]);
      assert xs == [xs[0]] + xs[1..] && ys == [ys[0]] + ys[1..];
    } else if xs != [] {
      NotEmpty(xs[0]);
    } else if ys != [] {
      NotEmpty(ys[0]);
    }
  }

  lemma NotEmpty(x: Item)
    ensures |Rlp(x)| > 0
  {
  }
}
