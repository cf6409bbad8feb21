/** Long and short packet headers (src/core/packet.c). */
module Headers {
  import opened Bytes
  import Frames
  import opened Readers
  import Varint

  const MAX_TOKEN_LEN := 1024
  const MAX_PAYLOAD_LEN := 65536

  datatype Kind = Initial | Handshake | Retry | ZeroRtt | OneRtt

  datatype LongHeader = LongHeader(kind: Kind, version: nat, dcid: Bytes, scid: Bytes, token: Bytes,
                                   payloadLen: nat, number: nat, numberLen: nat)

  datatype ShortHeader = ShortHeader(dcid: Bytes, spin: bool, keyPhase: bool, number: nat, numberLen: nat)

  /** A decoded header with the offset of its packet number and its length in bytes. */
  datatype Decoded<H> = Decoded(header: H, numberOffset: nat, headerLen: nat)

  // ---------- Encoding ----------

  function TypeBits(kind: Kind): (t: nat)
    requires kind != OneRtt
    ensures t < 4
  {
    match kind case Initial => 0 case Handshake => 1 case Retry => 2 case ZeroRtt => 3
  }

  function KindOf(t: nat): (kind: Kind)
    requires t < 4
    ensures kind != OneRtt && TypeBits(kind) == t
  {
    if t == 0 then Initial else if t == 1 then Handshake else if t == 2 then Retry else ZeroRtt
  }

  /** The field widths of the C record. */
  predicate LongTyped(h: LongHeader)
  {
    h.version < 0x1_0000_0000
  }

  /** What the encoder accepts. */
  predicate LongEncodable(h: LongHeader)
  {
    && 1 <= h.numberLen <= 4 && |h.dcid| <= MAX_CID_LEN && |h.scid| <= MAX_CID_LEN && h.kind != OneRtt
    && (h.kind == Initial ==> |h.token| <= Varint.MAX)
    && h.payloadLen <= Varint.MAX
  }

  function LongFirst(h: LongHeader): (b: Byte)
    requires LongEncodable(h)
    ensures b >= 192 && b / 16 % 4 == TypeBits(h.kind) && b % 4 + 1 == h.numberLen
  {
    192 + 16 * TypeBits(h.kind) + (h.numberLen - 1)
  }

  function LongIds(h: LongHeader): (b: Bytes)
    requires LongEncodable(h)
  {
    BigEndian(h.version, 4) + ([|h.dcid|] + h.dcid) + ([|h.scid|] + h.scid)
  }

  function TokenField(h: LongHeader): (b: Bytes)
    requires LongEncodable(h)
  {
    if h.kind == Initial then Varint.Encode(|h.token|) + h.token else []
  }

  /** The header up to the packet number. */
  function LongPrefix(h: LongHeader): (b: Bytes)
    requires LongEncodable(h)
    ensures b != [] && b[0] == LongFirst(h)
  {
    [LongFirst(h)] + (LongIds(h) + (TokenField(h) + Varint.Encode(h.payloadLen)))
  }

  /** The bytes that `nxp_pkt_encode_long_header` writes. */
  function EncodeLong(h: LongHeader): (b: Bytes)
    requires LongEncodable(h)
  {
    LongPrefix(h) + BigEndian(h.number, h.numberLen)
  }

  predicate ShortEncodable(h: ShortHeader)
  {
    1 <= h.numberLen <= 4 && |h.dcid| <= MAX_CID_LEN
  }

  function ShortFirst(h: ShortHeader): (b: Byte)
    requires ShortEncodable(h)
  {
    64 + (if h.spin then 32 else 0) + (if h.keyPhase then 16 else 0) + (h.numberLen - 1)
  }

  /** The bytes that `nxp_pkt_encode_short_header` writes. */
  function EncodeShort(h: ShortHeader): (b: Bytes)
    requires ShortEncodable(h)
    ensures |b| == 1 + |h.dcid| + h.numberLen
  {
    [ShortFirst(h)] + (h.dcid + BigEndian(h.number, h.numberLen))
  }

  // ---------- Decoding ----------

  /** A connection id after its length byte. */
  function TakeCid(b: Bytes): (r: Option<(Bytes, Bytes)>)
    ensures r.Some? ==> |r.value.1| < |b|
  {
    if b == [] || b[0] > MAX_CID_LEN then None else Frames.TakeBytes(b[1..], b[0])
  }

  datatype Ids = Ids(version: nat, dcid: Bytes, scid: Bytes, rest: Bytes)

  function TakeIds(b: Bytes): (r: Option<Ids>)
    ensures r.Some? ==> |r.value.rest| <= |b|
  {
    var (version, b1) :- Frames.TakeBytes(b, 4);
    var (dcid, b2) :- TakeCid(b1);
    var (scid, b3) :- TakeCid(b2);
    Some(Ids(FromBigEndian(version), dcid, scid, b3))
  }

  datatype Lengths = Lengths(token: Bytes, payloadLen: nat, rest: Bytes)

  /** Token and payload length, up to the packet number. */
  function TakeLengths(kind: Kind, b: Bytes): (r: Option<Lengths>)
    ensures r.Some? ==> |r.value.rest| <= |b|
  {
    var (token, b1) :- if kind == Initial then Frames.TakeBlock(b, MAX_TOKEN_LEN) else Some(([], b));
    var (payloadLen, b2) :- Varint.Decode(b1);
    if payloadLen > MAX_PAYLOAD_LEN then None else Some(Lengths(token, payloadLen, b2))
  }

  /** `nxp_pkt_decode_long_header`. */
  function DecodeLong(b: Bytes): (r: Option<Decoded<LongHeader>>)
  {
    if |b| < 7 || b[0] < 192 then None
    else
      var kind := KindOf(b[0] / 16 % 4);
      var ids :- TakeIds(b[1..]);
      if kind == Retry then
        Some(Decoded(LongHeader(Retry, ids.version, ids.dcid, ids.scid, [], |ids.rest|, 0, 0), 0, |b| - |ids.rest|))
      else
        var ls :- TakeLengths(kind, ids.rest);
        var n := b[0] % 4 + 1;
        var (digits, _) :- Frames.TakeBytes(ls.rest, n);
        var offset := |b| - |ls.rest|;
        var number := FromBigEndian(digits);
        Some(Decoded(LongHeader(kind, ids.version, ids.dcid, ids.scid, ls.token, ls.payloadLen, number, n),
                     offset, offset + n))
  }

  /** `nxp_pkt_decode_short_header`; the length of the connection id is not on the wire. */
  function DecodeShort(b: Bytes, dcidLen: nat): (r: Option<Decoded<ShortHeader>>)
  {
    if dcidLen > MAX_CID_LEN || |b| < 1 + dcidLen + 1 || b[0] < 64 || b[0] >= 128 then None
    else
      var n := b[0] % 4 + 1;
      var (dcid, b1) :- Frames.TakeBytes(b[1..], dcidLen);
      var (digits, _) :- Frames.TakeBytes(b1, n);
      Some(Decoded(ShortHeader(dcid, b[0] / 32 % 2 == 1, b[0] / 16 % 2 == 1, FromBigEndian(digits), n),
                   1 + dcidLen, 1 + dcidLen + n))
  }

  // ---------- Round trips ----------

  /** The fields before the packet number are within the decoder's limits. */
  predicate PrefixInLimits(h: LongHeader)
  {
    && h.kind != Retry
    && |h.token| <= MAX_TOKEN_LEN && (h.kind != Initial ==> h.token == [])
    && h.payloadLen <= MAX_PAYLOAD_LEN
  }

  /** The headers that decoding returns unchanged. */
  ghost predicate LongInLimits(h: LongHeader)
  {
    PrefixInLimits(h) && h.number < Pow256(h.numberLen)
  }

  lemma CidRoundTrip(cid: Bytes, rest: Bytes)
    requires |cid| <= MAX_CID_LEN
    ensures TakeCid([|cid|] + cid + rest) == Some((cid, rest))
  {
    assert ([|cid|] + cid + rest)[1..] == cid + rest;
    Frames.TakeBytesRoundTrip(cid, rest);
  }

  lemma IdsRoundTrip(h: LongHeader, rest: Bytes)
    requires LongEncodable(h) && LongTyped(h)
    ensures TakeIds(LongIds(h) + rest) == Some(Ids(h.version, h.dcid, h.scid, rest))
  {
    hide TakeCid, Frames.TakeBytes, BigEndian, FromBigEndian;
    var d, s := [|h.dcid|] + h.dcid, [|h.scid|] + h.scid;
    assert LongIds(h) + rest == BigEndian(h.version, 4) + (d + (s + rest));
    Frames.TakeBytesRoundTrip(BigEndian(h.version, 4), d + (s + rest));
    BigEndianRoundTrip(h.version, 4);
    assert Pow256(4) == 256 * 256 * Pow256(2);
    CidRoundTrip(h.dcid, s + rest);
    CidRoundTrip(h.scid, rest);
  }

  /** The two length limits are the only reason why the decoder refuses what the encoder wrote. */
  lemma LengthsRoundTrip(h: LongHeader, rest: Bytes)
    requires LongEncodable(h)
    ensures TakeLengths(h.kind, TokenField(h) + Varint.Encode(h.payloadLen) + rest)
      == if (h.kind == Initial && |h.token| > MAX_TOKEN_LEN) || h.payloadLen > MAX_PAYLOAD_LEN then None
         else Some(Lengths(if h.kind == Initial then h.token else [], h.payloadLen, rest))
  {
    hide Varint.Decode, Varint.Encode, Frames.TakeBytes;
    var tail := Varint.Encode(h.payloadLen) + rest;
    Varint.RoundTrip(h.payloadLen, rest);
    if h.kind == Initial {
      assert TokenField(h) + Varint.Encode(h.payloadLen) + rest == Varint.Encode(|h.token|) + (h.token + tail);
      Varint.RoundTrip(|h.token|, h.token + tail);
      Frames.TakeBytesRoundTrip(h.token, tail);
    } else {
      assert TokenField(h) + Varint.Encode(h.payloadLen) + rest == tail;
    }
  }

  /** Decoding anything that starts with an encoded prefix, whatever the low four bits of the first byte became. */
  lemma PrefixDecoded(h: LongHeader, first: Byte, rest: Bytes)
    requires LongEncodable(h) && LongTyped(h) && PrefixInLimits(h) && first / 16 == LongFirst(h) / 16
    ensures var b, n := [first] + LongPrefix(h)[1..] + rest, first % 4 + 1;
      DecodeLong(b) == if |rest| < n then None
        else Some(Decoded(h.(number := FromBigEndian(rest[..n]), numberLen := n), |LongPrefix(h)|, |LongPrefix(h)| + n))
  {
    hide TakeIds, TakeLengths, LongIds, TokenField, Varint.Encode, FromBigEndian;
    var b := [first] + LongPrefix(h)[1..] + rest;
    var ls := TokenField(h) + Varint.Encode(h.payloadLen);
    assert LongPrefix(h)[1..] == LongIds(h) + ls;
    assert b[1..] == LongIds(h) + (ls + rest);
    IdsRoundTrip(h, ls + rest);
    LengthsRoundTrip(h, rest);
    IdsLength(h);
    assert |b| == |LongPrefix(h)| + |rest|;
  }

  lemma IdsLength(h: LongHeader)
    requires LongEncodable(h)
    ensures |LongIds(h)| >= 6
  {
  }

  /** Decoding an encoded long header returns it, whatever follows, exactly when it is in limits. */
  lemma LongRoundTrip(h: LongHeader, rest: Bytes)
    requires LongEncodable(h) && LongTyped(h)
    ensures DecodeLong(EncodeLong(h) + rest) == Some(Decoded(h, |LongPrefix(h)|, |EncodeLong(h)|)) <==> LongInLimits(h)
  {
    hide DecodeLong, LongPrefix, BigEndian, FromBigEndian, Pow256, LongFirst;
    var n, digits := h.numberLen, BigEndian(h.number, h.numberLen);
    BigEndianRoundTrip(h.number, n);
    assert EncodeLong(h) + rest == LongPrefix(h) + (digits + rest);
    if PrefixInLimits(h) {
      assert EncodeLong(h) + rest == [LongFirst(h)] + LongPrefix(h)[1..] + (digits + rest);
      PrefixDecoded(h, LongFirst(h), digits + rest);
      assert (digits + rest)[..n] == digits;
    } else {
      OutsideLimits(h, digits + rest);
    }
  }

  /** A Retry, an oversized token or payload, or a token in the wrong kind of packet never comes back. */
  lemma OutsideLimits(h: LongHeader, rest: Bytes)
    requires LongEncodable(h) && LongTyped(h) && !PrefixInLimits(h)
    ensures DecodeLong(LongPrefix(h) + rest).Some? ==> DecodeLong(LongPrefix(h) + rest).value.header != h
  {
    hide TakeIds, TakeLengths, LongIds, TokenField, Varint.Encode, FromBigEndian;
    var b := LongPrefix(h) + rest;
    var ls := TokenField(h) + Varint.Encode(h.payloadLen);
    assert b[1..] == LongIds(h) + (ls + rest);
    IdsRoundTrip(h, ls + rest);
    LengthsRoundTrip(h, rest);
  }

  lemma ShortFirstBits(h: ShortHeader)
    requires ShortEncodable(h)
    ensures var b := ShortFirst(h);
            && 64 <= b < 128 && b % 4 + 1 == h.numberLen
            && (b / 32 % 2 == 1 <==> h.spin) && (b / 16 % 2 == 1 <==> h.keyPhase)
  {
  }

  /** Decoding an encoded short header returns it, whatever follows, exactly when the number fits its length. */
  lemma ShortRoundTrip(h: ShortHeader, rest: Bytes)
    requires ShortEncodable(h)
    ensures DecodeShort(EncodeShort(h) + rest, |h.dcid|) == Some(Decoded(h, 1 + |h.dcid|, |EncodeShort(h)|))
      <==> h.number < Pow256(h.numberLen)
  {
    hide BigEndian, FromBigEndian, Pow256, ShortFirst, Frames.TakeBytes;
    var digits := BigEndian(h.number, h.numberLen);
    var b := EncodeShort(h) + rest;
    ShortFirstBits(h);
    BigEndianRoundTrip(h.number, h.numberLen);
    assert b == [ShortFirst(h)] + (h.dcid + (digits + rest));
    assert b[1..] == h.dcid + (digits + rest);
    Frames.TakeBytesRoundTrip(h.dcid, digits + rest);
    Frames.TakeBytesRoundTrip(digits, rest);
  }

  // ---------- The same in place ----------

  /** Byte `i` of a big-endian number, as the shifts of the encoders pick it. */
  lemma {:induction false} BigEndianAt(v: nat, n: nat, i: nat)
    requires i < n
    ensures BigEndian(v, n)[i] == v / Pow256(n - 1 - i) % 256
  {
    if i < n - 1 {
      BigEndianAt(v / 256, n - 1, i);
      var p := Pow256(n - 2 - i);
      DivTwice(v, p);
    } else {
      assert Pow256(0) == 1;
    }
  }

  lemma DivTwice(v: nat, p: nat)
    requires p > 0
    ensures v / 256 / p == v / (256 * p)
  {
    var q, r := v / 256 / p, v / 256 % p;
    assert v / 256 == p * q + r;
    assert v == q * (256 * p) + (256 * r + v % 256);
    DivUnique(v, 256 * p, q, 256 * r + v % 256);
  }

  lemma DivUnique(v: nat, m: nat, q: nat, r: nat)
    requires r < m && v == q * m + r
    ensures v / m == q
  {
    ModUnique(v, m, q, r);
    assert m * (v / m) == m * q;
    MulCancel(m, v / m, q);
  }

  lemma MulCancel(m: nat, a: nat, b: nat)
    requires m > 0 && m * a == m * b
    ensures a == b
  {
    if a < b {
      MulAtLeast(b - a, m);
    } else if b < a {
      MulAtLeast(a - b, m);
    }
  }

  /** 256 to the power `n`, as a shift by `8 * n` computes it. */
  function Shifted(n: nat): (r: nat)
    ensures r == Pow256(n)
  {
    if n == 0 then 1 else 256 * Shifted(n - 1)
  }

  /** The loop that writes the packet number. */
  method WriteNumber(number: nat, n: nat, buf: array<Byte>, start: nat)
    requires start + n <= buf.Length
    modifies buf
    ensures buf[..start + n] == old(buf[..start]) + BigEndian(number, n)
  {
    ghost var digits := BigEndian(number, n);
    for i := 0 to n
      invariant buf[..start + i] == old(buf[..start]) + digits[..i]
    {
      BigEndianAt(number, n, i);
      buf[start + i] := number / Shifted(n - 1 - i) % 256;
      assert buf[..start + i + 1] == buf[..start + i] + [digits[i]];
    }
  }

  /** Taking bytes at `pos` of the first `len` bytes. */
  lemma TakeInside(all: Bytes, pos: nat, len: nat, n: nat)
    requires pos <= len <= |all|
    ensures Frames.TakeBytes(all[..len][pos..], n) ==
            if pos + n > len then None else Some((all[pos..pos + n], all[..len][pos + n..]))
  {
    if pos + n <= len {
      SliceOfSlice(all, pos, len, 0, n);
      RestOfRest(all[..len], pos, n);
    }
  }

  /** The loop that reads the packet number. */
  method ReadNumber(buf: array<Byte>, start: nat, n: nat) returns (number: nat)
    requires start + n <= buf.Length
    ensures number == FromBigEndian(buf[start..start + n])
  {
    number := 0;
    for i := 0 to n
      invariant number == FromBigEndian(buf[start..start + i])
    {
      ghost var b := buf[start..start + i + 1];
      assert b[..|b| - 1] == buf[start..start + i];
      number := number * 256 + buf[start + i];
    }
  }

  /** `nxp_pkt_encode_short_header`: the bytes written, or 0. */
  method EncodeShortInto(h: ShortHeader, buf: array<Byte>) returns (n: nat)
    modifies buf
    ensures n == if ShortEncodable(h) && |EncodeShort(h)| <= buf.Length then |EncodeShort(h)| else 0
    ensures n > 0 ==> buf[..n] == EncodeShort(h)
    ensures n == 0 ==> buf[..] == old(buf[..])
  {
    if h.numberLen < 1 || h.numberLen > 4 || |h.dcid| > MAX_CID_LEN || buf.Length < 1 + |h.dcid| + h.numberLen {
      return 0;
    }
    hide BigEndian, Overwrite;
    var first := 64;
    if h.spin {
      first := first + 32;
    }
    if h.keyPhase {
      first := first + 16;
    }
    buf[0] := first + (h.numberLen - 1);
    assert buf[..1] == [ShortFirst(h)];
    hide ShortFirst;
    CopyInto(buf, 1, h.dcid);
    Associate([ShortFirst(h)], h.dcid, BigEndian(h.number, h.numberLen));
    WriteNumber(h.number, h.numberLen, buf, 1 + |h.dcid|);
    n := 1 + |h.dcid| + h.numberLen;
  }

  /** A length byte and a connection id, written at `pos`. */
  method WriteCid(cid: Bytes, buf: array<Byte>, pos: nat)
    requires |cid| <= MAX_CID_LEN && pos + 1 + |cid| <= buf.Length
    modifies buf
    ensures buf[..pos + 1 + |cid|] == old(buf[..pos]) + ([|cid|] + cid)
  {
    hide Overwrite;
    ghost var before := buf[..pos];
    buf[pos] := |cid|;
    assert buf[..pos + 1] == before + [|cid|];
    CopyInto(buf, pos + 1, cid);
    Associate(before, [|cid|], cid);
  }

  /** `nxp_pkt_encode_long_header`: the bytes written, or 0. */
  method EncodeLongInto(h: LongHeader, buf: array<Byte>) returns (n: nat)
    modifies buf
    ensures n == if LongEncodable(h) && |EncodeLong(h)| <= buf.Length then |EncodeLong(h)| else 0
    ensures n > 0 ==> buf[..n] == EncodeLong(h)
    ensures n == 0 ==> buf[..] == old(buf[..])
  {
    hide BigEndian, Varint.Encode, LongFirst;
    if h.numberLen < 1 || h.numberLen > 4 || |h.dcid| > MAX_CID_LEN || |h.scid| > MAX_CID_LEN || h.kind == OneRtt {
      return 0;
    }
    var needed := 7 + |h.dcid| + |h.scid|;
    if h.kind == Initial {
      if Varint.Length(|h.token|) == 0 {
        return 0;
      }
      needed := needed + Varint.Length(|h.token|) + |h.token|;
    }
    if Varint.Length(h.payloadLen) == 0 {
      return 0;
    }
    needed := needed + Varint.Length(h.payloadLen) + h.numberLen;
    assert LongEncodable(h) && needed == |EncodeLong(h)|;
    if buf.Length < needed {
      return 0;
    }
    WriteLong(h, buf);
    n := needed;
  }

  method WriteLong(h: LongHeader, buf: array<Byte>)
    requires LongEncodable(h) && |EncodeLong(h)| <= buf.Length
    modifies buf
    ensures buf[..|EncodeLong(h)|] == EncodeLong(h)
  {
    hide BigEndian, Varint.Encode, LongFirst, LongIds, TokenField;
    buf[0] := LongFirst(h);
    assert buf[..1] == [LongFirst(h)];
    var pos := WriteIds(h, buf);
    pos := WriteLengths(h, buf, pos);
    Associate([LongFirst(h)], LongIds(h), TokenField(h) + Varint.Encode(h.payloadLen));
    WriteNumber(h.number, h.numberLen, buf, pos);
  }

  method WriteIds(h: LongHeader, buf: array<Byte>) returns (pos: nat)
    requires LongEncodable(h) && 1 + |LongIds(h)| <= buf.Length
    modifies buf
    ensures pos == 1 + |LongIds(h)| && buf[..pos] == old(buf[..1]) + LongIds(h)
  {
    hide BigEndian, Overwrite;
    ghost var first := buf[..1];
    CopyInto(buf, 1, BigEndian(h.version, 4));
    WriteCid(h.dcid, buf, 5);
    WriteCid(h.scid, buf, 6 + |h.dcid|);
    Associate(first, BigEndian(h.version, 4), [|h.dcid|] + h.dcid);
    Associate(first, BigEndian(h.version, 4) + ([|h.dcid|] + h.dcid), [|h.scid|] + h.scid);
    pos := 7 + |h.dcid| + |h.scid|;
  }

  method WriteLengths(h: LongHeader, buf: array<Byte>, start: nat) returns (pos: nat)
    requires LongEncodable(h) && start + |TokenField(h)| + Varint.Length(h.payloadLen) <= buf.Length
    modifies buf
    ensures pos == start + |TokenField(h)| + Varint.Length(h.payloadLen)
    ensures buf[..pos] == old(buf[..start]) + (TokenField(h) + Varint.Encode(h.payloadLen))
  {
    hide Varint.Encode, Overwrite;
    ghost var before := buf[..start];
    pos := start;
    if h.kind == Initial {
      var k := Varint.Write(|h.token|, buf, pos);
      pos := pos + k;
      CopyInto(buf, pos, h.token);
      pos := pos + |h.token|;
      Associate(before, Varint.Encode(|h.token|), h.token);
    }
    assert buf[..pos] == before + TokenField(h);
    Associate(before, TokenField(h), Varint.Encode(h.payloadLen));
    var k := Varint.Write(h.payloadLen, buf, pos);
    pos := pos + k;
  }

  /** `nxp_pkt_decode_short_header` on the first `len` bytes of a buffer. */
  method DecodeShortFrom(buf: array<Byte>, len: nat, dcidLen: nat) returns (r: Option<Decoded<ShortHeader>>)
    requires len <= buf.Length
    ensures r == DecodeShort(buf[..len], dcidLen)
  {
    if dcidLen > MAX_CID_LEN || len < 1 + dcidLen + 1 {
      return None;
    }
    var first := buf[0];
    if first >= 128 || first < 64 {
      return None;
    }
    hide FromBigEndian, Frames.TakeBytes;
    var n := first % 4 + 1;
    var dcid := buf[1..1 + dcidLen];
    var pos := 1 + dcidLen;
    TakeInside(buf[..], 1, len, dcidLen);
    TakeInside(buf[..], pos, len, n);
    if pos + n > len {
      return None;
    }
    var number := ReadNumber(buf, pos, n);
    r := Some(Decoded(ShortHeader(dcid, first / 32 % 2 == 1, first / 16 % 2 == 1, number, n), pos, pos + n));
  }

  /** A connection id after its length byte. */
  method ReadCid(rd: Reader) returns (cid: Option<Bytes>)
    requires rd.Valid()
    modifies rd`pos
    ensures rd.Valid()
    ensures var r := TakeCid(old(rd.Rest()));
            if r.None? then cid == None else cid == Some(r.value.0) && rd.Rest() == r.value.1
  {
    hide Frames.TakeBytes;
    if rd.pos >= rd.len {
      return None;
    }
    ghost var b := rd.Rest();
    var n := rd.buf[rd.pos];
    rd.pos := rd.pos + 1;
    assert rd.Rest() == b[1..];
    if n > MAX_CID_LEN {
      return None;
    }
    cid := rd.Raw(n);
  }

  /** Version and connection ids. */
  method ReadIds(rd: Reader) returns (version: nat, dcid: Bytes, scid: Bytes, ok: bool)
    requires rd.Valid()
    modifies rd`pos
    ensures rd.Valid() && (ok <==> TakeIds(old(rd.Rest())).Some?)
    ensures ok ==> TakeIds(old(rd.Rest())).value == Ids(version, dcid, scid, rd.Rest())
  {
    hide Frames.TakeBytes, TakeCid, FromBigEndian;
    version, dcid, scid, ok := 0, [], [], false;
    ghost var start := rd.Rest();
    if rd.pos + 4 > rd.len {
      TooShort(rd.Rest());
      return;
    }
    version := ReadNumber(rd.buf, rd.pos, 4);
    var at := rd.pos;
    var bytes := rd.Raw(4);
    FourBytes(start);
    assert rd.buf[at..at + 4] == start[..4];
    var d := ReadCid(rd);
    if d.None? {
      return;
    }
    var s := ReadCid(rd);
    if s.None? {
      return;
    }
    dcid, scid, ok := d.value, s.value, true;
  }

  lemma TooShort(b: Bytes)
    requires |b| < 4
    ensures Frames.TakeBytes(b, 4) == None
  {
  }

  lemma FourBytes(b: Bytes)
    requires |b| >= 4
    ensures Frames.TakeBytes(b, 4) == Some((b[..4], b[4..]))
  {
  }

  /** Token and payload length. */
  method ReadLengths(rd: Reader, kind: Kind) returns (token: Bytes, payloadLen: nat, ok: bool)
    requires rd.Valid()
    modifies rd`pos
    ensures rd.Valid() && (ok <==> TakeLengths(kind, old(rd.Rest())).Some?)
    ensures ok ==> TakeLengths(kind, old(rd.Rest())).value == Lengths(token, payloadLen, rd.Rest())
  {
    hide Frames.TakeBlock, Varint.Decode;
    token, payloadLen, ok := [], 0, false;
    if kind == Initial {
      var t := rd.Block(MAX_TOKEN_LEN);
      if t.None? {
        return;
      }
      token := t.value;
    }
    var n := rd.Varint();
    if n.None? || n.value > MAX_PAYLOAD_LEN {
      return;
    }
    payloadLen, ok := n.value, true;
  }

  /** `nxp_pkt_decode_long_header` on the first `len` bytes of a buffer. */
  method DecodeLongFrom(buf: array<Byte>, len: nat) returns (r: Option<Decoded<LongHeader>>)
    requires len <= buf.Length
    ensures r == DecodeLong(buf[..len])
  {
    hide TakeIds, TakeLengths, FromBigEndian, KindOf, Frames.TakeBytes;
    if len < 7 || buf[0] < 192 {
      return None;
    }
    ghost var b := buf[..len];
    var kind := KindOf(buf[0] / 16 % 4);
    var n := buf[0] % 4 + 1;
    var rd := new Reader(buf, 1, len);
    assert rd.Rest() == b[1..];
    var version, dcid, scid, ok := ReadIds(rd);
    if !ok {
      return None;
    }
    if kind == Retry {
      return Some(Decoded(LongHeader(Retry, version, dcid, scid, [], len - rd.pos, 0, 0), 0, rd.pos));
    }
    var token, payloadLen, fits := ReadLengths(rd, kind);
    if !fits {
      return None;
    }
    TakeInside(buf[..], rd.pos, len, n);
    if rd.pos + n > len {
      return None;
    }
    var number := ReadNumber(buf, rd.pos, n);
    r := Some(Decoded(LongHeader(kind, version, dcid, scid, token, payloadLen, number, n), rd.pos, rd.pos + n));
  }
}
