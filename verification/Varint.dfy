/** Variable-length integers (src/util/varint.c; section 16 of RFC 9000). */
module Varint {
  import opened Bytes

  const MAX: nat := 0x3FFF_FFFF_FFFF_FFFF

  /** `nxp_varint_len`; 0 marks a value that has no encoding. */
  function Length(v: nat): (n: nat)
    ensures n > 0 <==> v <= MAX
  {
    if v <= 63 then 1
    else if v <= 16383 then 2
    else if v <= 1073741823 then 4
    else if v <= MAX then 8
    else 0
  }

  /** The two prefix bits for an encoding of `n` bytes. */
  function Prefix(n: nat): (p: nat)
    requires n in {1, 2, 4, 8}
    ensures p < 4
  {
    if n == 1 then 0 else if n == 2 then 1 else if n == 4 then 2 else 3
  }

  /** The first byte of a big-endian number that leaves its top two bits clear. */
  lemma {:induction false} TopBitsClear(v: nat, n: nat)
    requires n > 0 && 4 * v < Pow256(n)
    ensures BigEndian(v, n)[0] < 64
  {
    if n > 1 {
      assert 4 * (v / 256) < Pow256(n - 1);
      TopBitsClear(v / 256, n - 1);
    }
  }

  lemma LengthFits(v: nat)
    requires v <= MAX
    ensures Length(v) in {1, 2, 4, 8} && 4 * v < Pow256(Length(v))
  {
    assert Pow256(1) == 256;
    assert Pow256(2) == 0x1_0000;
    assert Pow256(4) == 256 * 256 * Pow256(2);
    assert Pow256(6) == 256 * 256 * Pow256(4);
    assert Pow256(8) == 256 * 256 * Pow256(6);
  }

  /** The bytes that `nxp_varint_encode` writes: prefix bits, then the value, most significant byte first. */
  function Encode(v: nat): (b: Bytes)
    requires v <= MAX
    ensures |b| == Length(v)
  {
    LengthFits(v);
    var n := Length(v);
    var digits := BigEndian(v, n);
    TopBitsClear(v, n);
    [64 * Prefix(n) + digits[0]] + digits[1..]
  }

  /** `nxp_varint_decode`: the value and the bytes after it. */
  function Decode(b: Bytes): (r: Option<(nat, Bytes)>)
    ensures r.Some? ==> |r.value.1| < |b| && r.value.1 == b[|b| - |r.value.1|..]
  {
    if b == [] then None
    else
      var prefix := b[0] / 64;
      var n := if prefix == 0 then 1 else if prefix == 1 then 2 else if prefix == 2 then 4 else 8;
      if |b| < n then None
      else Some((FromBigEndian([b[0] % 64] + b[1..n]), b[n..]))
  }

  /** Decoding undoes encoding, whatever follows. */
  lemma RoundTrip(v: nat, rest: Bytes)
    requires v <= MAX
    ensures Decode(Encode(v) + rest) == Some((v, rest))
  {
    hide BigEndian, FromBigEndian;
    LengthFits(v);
    var n := Length(v);
    TopBitsClear(v, n);
    BigEndianRoundTrip(v, n);
    Reassembled(BigEndian(v, n), Prefix(n), rest);
  }

  lemma Reassembled(digits: Bytes, prefix: nat, rest: Bytes)
    requires digits != [] && digits[0] < 64 && prefix < 4
    ensures var b := [64 * prefix + digits[0]] + digits[1..] + rest;
            b[0] / 64 == prefix && [b[0] % 64] + b[1..|digits|] == digits && b[|digits|..] == rest
  {
  }

  /** On the wire: the length is two to the power of the two prefix bits, and the other bits are the value. */
  lemma WireFormat(v: nat)
    requires v <= MAX
    ensures var b := Encode(v);
            var prefix := b[0] / 64;
            && |b| == (if prefix == 0 then 1 else if prefix == 1 then 2 else if prefix == 2 then 4 else 8)
            && 4 * FromBigEndian(b) == 4 * v + prefix * Pow256(|b|)
  {
    hide BigEndian, FromBigEndian, Pow256;
    LengthFits(v);
    var n := Length(v);
    TopBitsClear(v, n);
    BigEndianRoundTrip(v, n);
    var digits := BigEndian(v, n);
    FirstDigit(digits[0], digits[1..]);
    assert [digits[0]] + digits[1..] == digits;
    FirstDigit(64 * Prefix(n) + digits[0], digits[1..]);
    PowerStep(n);
    PrefixPart(Prefix(n), digits[0], Pow256(n - 1));
  }

  lemma PowerStep(n: nat)
    requires n > 0
    ensures Pow256(n) == 256 * Pow256(n - 1)
  {
  }

  lemma PrefixPart(prefix: nat, digit: nat, p: nat)
    ensures 4 * ((64 * prefix + digit) * p) == 4 * (digit * p) + prefix * (256 * p)
  {
  }

  /** No byte string that decodes to the same value is shorter than the encoding. */
  lemma EncodingIsShortest(b: Bytes)
    ensures var r := Decode(b);
            r.Some? ==> r.value.0 <= MAX && |Encode(r.value.0)| <= |b| - |r.value.1|
  {
    if Decode(b).Some? {
      var n := |b| - |Decode(b).value.1|;
      FirstDigit(b[0] % 64, b[1..n]);
      BelowPower(b[1..n]);
      Thresholds(n, b[0] % 64, FromBigEndian(b[1..n]));
    }
  }

  lemma Thresholds(n: nat, first: nat, rest: nat)
    requires n in {1, 2, 4, 8} && first < 64 && rest < Pow256(n - 1)
    ensures var v := first * Pow256(n - 1) + rest; v <= MAX && Length(v) <= n
  {
    assert Pow256(0) == 1 && Pow256(1) == 256;
    assert Pow256(3) == 256 * 256 * Pow256(1);
    assert Pow256(5) == 256 * 256 * Pow256(3);
    assert Pow256(7) == 256 * 256 * Pow256(5);
  }

  /** `encode_varint`: writes at `pos` and returns the number of bytes, or 0 when there is no room or no encoding. */
  method Write(v: nat, buf: array<Byte>, pos: nat) returns (n: nat)
    requires pos <= buf.Length
    modifies buf
    ensures n == if v <= MAX && pos + Length(v) <= buf.Length then Length(v) else 0
    ensures n == 0 ==> buf[..] == old(buf[..])
    ensures n > 0 ==> buf[..pos + n] == old(buf[..pos]) + Encode(v)
  {
    hide Encode, Overwrite;
    if v > MAX || pos + Length(v) > buf.Length {
      return 0;
    }
    CopyInto(buf, pos, Encode(v));
    n := Length(v);
  }
}
