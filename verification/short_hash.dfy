/**
  `generateShortNumericHash`: an 18-digit decimal string derived from the MD5
  digest of the input and from the input's length. The digest arrives as four
  signed 32-bit words; word i is XORed with word i + 2 and stored into a byte
  (keeping its low 8 bits), giving 2 bytes; the length follows as 4 bytes in
  big-endian order; each of the 6 bytes is written as 3 zero-padded decimal
  digits.

  MD5 itself is a parameter `md5`, returning the four words for a string.
 */
module ShortHash {
  import opened JsText
  import opened NumberText
  import opened Bits

  type Byte = b: int | 0 <= b < 0x100

  /** The `Int32Array` of four words the digest library returns. */
  type Digest = w: seq<Int32> | |w| == 4 witness [0, 0, 0, 0]

  /** The fold: byte i is `w[i] ^ w[i + 2]` stored into a byte, for i in 0..1. */
  function XorFold(w: Digest): (r: seq<Byte>)
    ensures |r| == |w| / 2
  {
    [ToUint8(Xor32(w[0], w[2])), ToUint8(Xor32(w[1], w[3]))]
  }

  /** Folded byte i is the low 8 bits of the 32-bit XOR of words i and i + 2,
      that is, the XOR of their low bytes. */
  lemma FoldIsLowByteXor(w: Digest, i: nat)
    requires i < 2
    ensures XorFold(w)[i] == XorBits(ToUint32(w[i]), ToUint32(w[i + 2]), 32) % 0x100
    ensures XorFold(w)[i] == XorBits(ToUint8(w[i]), ToUint8(w[i + 2]), 8)
  {
    StoredXorIsLowByteXor(w[i], w[i + 2]);
  }

  /** A byte string read as a big-endian unsigned integer. */
  function BigEndianValue(bs: seq<nat>): nat {
    if |bs| == 0 then 0 else BigEndianValue(bs[..|bs| - 1]) * 256 + bs[|bs| - 1]
  }

  /** `writeUInt32BE(n)` into a fresh 4-byte buffer. */
  function UInt32BE(n: nat): (r: seq<Byte>)
    requires n < 0x1_0000_0000
    ensures |r| == 4
    ensures BigEndianValue(r) == n
  {
    var r := [n / 0x100_0000, n / 0x1_0000 % 256, n / 0x100 % 256, n % 256];
    assert r[..3][..2][..1][..0] == [];
    assert BigEndianValue(r[..1]) == n / 0x100_0000;
    assert BigEndianValue(r[..2]) == n / 0x1_0000 by {
      assert r[..2][..1] == r[..1];
    }
    assert BigEndianValue(r[..3]) == n / 0x100 by {
      assert r[..3][..2] == r[..2];
    }
    assert r[..4][..3] == r[..3] && r[..4] == r;
    r
  }

  /** `b.toString().padStart(3, "0")`. */
  function ByteDigits(b: Byte): (r: JsString)
    ensures |r| == 3
    ensures AllDecimalDigits(r)
    ensures DigitsValue(r, 10) == b
  {
    RenderNatBelowThousand(b);
    var r := PadStart(Render(b), 3, Zero);
    LeadingZeros(3 - |Render(b)|, Render(b));
    r
  }

  /** The concatenated 3-digit renderings of the bytes, in order. */
  function EncodeBytes(bs: seq<Byte>): (r: JsString)
    ensures |r| == 3 * |bs|
    ensures AllDecimalDigits(r)
  {
    if |bs| == 0 then [] else ByteDigits(bs[0]) + EncodeBytes(bs[1..])
  }

  /** Reads a digit string back as the values of its 3-digit groups. */
  function DecodeGroups(s: JsString): (r: seq<nat>)
    requires |s| % 3 == 0
    ensures |r| == |s| / 3
  {
    if |s| == 0 then [] else [DigitsValue(s[..3], 10)] + DecodeGroups(s[3..])
  }

  /** Every 3-digit group reads back as the byte it renders. */
  lemma {:induction false} DecodeEncode(bs: seq<Byte>)
    ensures DecodeGroups(EncodeBytes(bs)) == bs
    decreases |bs|
  {
    if |bs| > 0 {
      var e := EncodeBytes(bs);
      assert e[..3] == ByteDigits(bs[0]);
      assert e[3..] == EncodeBytes(bs[1..]);
      DecodeEncode(bs[1..]);
    }
  }

  /** Encoding distributes over concatenation. */
  lemma {:induction false} EncodeAppend(a: seq<Byte>, b: seq<Byte>)
    ensures EncodeBytes(a + b) == EncodeBytes(a) + EncodeBytes(b)
    decreases |a|
  {
    if |a| == 0 {
      assert a + b == b;
    } else {
      assert (a + b)[1..] == a[1..] + b;
      EncodeAppend(a[1..], b);
    }
  }

  /** The result of the hash: the digits, or the `RangeError` that
      `writeUInt32BE` throws when the length does not fit in 32 bits. */
  datatype HashResult = Hash(digits: JsString) | RangeError

  /** The bytes the digits are rendered from: the folded digest, then the
      big-endian length. */
  function CombinedBytes(data: JsString, md5: JsString -> Digest): (r: seq<Byte>)
    requires |data| < 0x1_0000_0000
    ensures |r| == 6
    ensures r[..2] == XorFold(md5(data))
    ensures |r[2..]| == 4 && BigEndianValue(r[2..]) == |data|
  {
    assert (XorFold(md5(data)) + UInt32BE(|data|))[2..] == UInt32BE(|data|);
    XorFold(md5(data)) + UInt32BE(|data|)
  }

  /** `generateShortNumericHash(data)`. */
  function GenerateShortNumericHash(data: JsString, md5: JsString -> Digest): (r: HashResult)
    ensures r.RangeError? <==> |data| >= 0x1_0000_0000
    ensures r.Hash? ==> |r.digits| == 18 && AllDecimalDigits(r.digits)
  {
    if |data| >= 0x1_0000_0000 then RangeError
    else Hash(EncodeBytes(CombinedBytes(data, md5)))
  }

  /** The 6 groups of 3 digits read back as the folded digest bytes followed by
      the 4 big-endian length bytes. */
  lemma {:induction false} HashDecodes(data: JsString, md5: JsString -> Digest)
    requires |data| < 0x1_0000_0000
    ensures DecodeGroups(GenerateShortNumericHash(data, md5).digits) == CombinedBytes(data, md5)
  {
    var c := CombinedBytes(data, md5);
    assert GenerateShortNumericHash(data, md5).digits == EncodeBytes(c);
    DecodeEncode(c);
  }

  /** The first two groups are the XOR folds of the digest: the low bytes of
      word 0 and word 2 XORed, then those of word 1 and word 3. */
  lemma {:induction false} HashFoldedGroups(data: JsString, md5: JsString -> Digest)
    requires |data| < 0x1_0000_0000
    ensures var d := GenerateShortNumericHash(data, md5).digits;
      var w := md5(data);
      && DigitsValue(d[0..3], 10) == XorBits(ToUint8(w[0]), ToUint8(w[2]), 8)
      && DigitsValue(d[3..6], 10) == XorBits(ToUint8(w[1]), ToUint8(w[3]), 8)
  {
    var d := GenerateShortNumericHash(data, md5).digits;
    HashDecodes(data, md5);
    assert DecodeGroups(d)[0] == DigitsValue(d[..3], 10);
    assert d[3..][..3] == d[3..6];
    assert DecodeGroups(d)[1] == DigitsValue(d[3..6], 10);
    FoldIsLowByteXor(md5(data), 0);
    FoldIsLowByteXor(md5(data), 1);
  }

  /** The last 12 digits, read as 4 groups and then as a big-endian integer,
      give back the length of the input. */
  lemma {:induction false} HashLengthSuffix(data: JsString, md5: JsString -> Digest)
    requires |data| < 0x1_0000_0000
    ensures BigEndianValue(DecodeGroups(GenerateShortNumericHash(data, md5).digits[6..])) == |data|
  {
    var fold := XorFold(md5(data));
    var len := UInt32BE(|data|);
    var d := GenerateShortNumericHash(data, md5).digits;
    assert CombinedBytes(data, md5) == fold + len;
    assert d == EncodeBytes(fold + len);
    EncodeAppend(fold, len);
    assert |EncodeBytes(fold)| == 6;
    assert d[6..] == EncodeBytes(len);
    DecodeEncode(len);
  }

  /** Inputs of different lengths always hash to different digits. */
  lemma {:induction false} HashSeparatesLengths(a: JsString, b: JsString, md5: JsString -> Digest)
    requires |a| < 0x1_0000_0000 && |b| < 0x1_0000_0000
    requires |a| != |b|
    ensures GenerateShortNumericHash(a, md5) != GenerateShortNumericHash(b, md5)
  {
    HashLengthSuffix(a, md5);
    HashLengthSuffix(b, md5);
  }

  /** The empty string ends in twelve zeros: its length bytes are all 0. */
  lemma {:induction false} EmptyHashSuffix(md5: JsString -> Digest)
    ensures GenerateShortNumericHash([], md5).digits[6..] == seq(12, _ => Zero)
  {
    var fold := XorFold(md5([]));
    var len := UInt32BE(0);
    assert len == seq(4, _ => 0);
    EncodeAppend(fold, len);
    ZeroBytes(4);
  }

  /** Zero bytes render as all-zero digit groups. */
  lemma {:induction false} ZeroBytes(k: nat)
    ensures EncodeBytes(seq(k, _ => 0)) == seq(3 * k, _ => Zero)
  {
    if k > 0 {
      var z := ByteDigits(0);
      assert Render(0) == [Zero];
      assert z == [Zero, Zero, Zero];
      assert seq(k, _ => 0)[1..] == seq(k - 1, _ => 0);
      ZeroBytes(k - 1);
      assert z + seq(3 * (k - 1), _ => Zero) == seq(3 * k, _ => Zero);
    }
  }
}
