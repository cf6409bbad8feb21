/** Header protection (src/crypto/header_protection.c; section 5.4 of RFC 9001). */
module HeaderProtection {
  import opened Bytes
  import opened Headers

  const SAMPLE_LEN := 16

  type Mask = m: Bytes | |m| == 5 witness [0, 0, 0, 0, 0]

  /** The mask for a sample under some key; None when the cipher fails. */
  type MaskFn = Bytes -> Option<Mask>

  // ---------- Exclusive or ----------

  /** Exclusive or of the lowest bits. */
  function XorBit(a: nat, b: nat): (r: nat)
    ensures r < 2
  {
    if a % 2 == b % 2 then 0 else 1
  }

  /** Bitwise exclusive or of the low `n` bits. */
  function XorBits(a: nat, b: nat, n: nat): (r: nat)
    ensures r < Pow2(n)
  {
    if n == 0 then 0 else 2 * XorBits(a / 2, b / 2, n - 1) + XorBit(a, b)
  }

  lemma HighAndLow(high: nat, low: nat)
    requires low < 2
    ensures (2 * high + low) / 2 == high && (2 * high + low) % 2 == low
  {
  }

  lemma {:induction false} XorTwice(a: nat, b: nat, n: nat)
    requires a < Pow2(n)
    ensures XorBits(XorBits(a, b, n), b, n) == a
  {
    if n > 0 {
      assert a / 2 < Pow2(n - 1);
      hide Pow2;
      XorTwice(a / 2, b / 2, n - 1);
      HighAndLow(XorBits(a / 2, b / 2, n - 1), XorBit(a, b));
    }
  }

  lemma {:induction false} XorZero(a: nat, n: nat)
    requires a < Pow2(n)
    ensures XorBits(a, 0, n) == a
  {
    if n > 0 {
      XorZero(a / 2, n - 1);
    }
  }

  function HighBits(x: nat, k: nat): (r: nat)
  {
    if k == 0 then x else HighBits(x / 2, k - 1)
  }

  /** A mask below 2^k leaves all bits from `k` on alone. */
  lemma {:induction false} XorSparesHighBits(a: nat, b: nat, n: nat, k: nat)
    requires a < Pow2(n) && b < Pow2(k) && k <= n
    ensures HighBits(XorBits(a, b, n), k) == HighBits(a, k)
  {
    if k == 0 {
      XorZero(a, n);
    } else {
      XorSparesHighBits(a / 2, b / 2, n - 1, k - 1);
      HighAndLow(XorBits(a / 2, b / 2, n - 1), XorBit(a, b));
    }
  }

  lemma Powers()
    ensures Pow2(4) == 16 && Pow2(5) == 32 && Pow2(8) == 256
  {
    assert Pow2(4) == 4 * Pow2(2) && Pow2(6) == 4 * Pow2(4) && Pow2(8) == 4 * Pow2(6);
  }

  lemma HighBitsOfByte(x: nat)
    ensures HighBits(x, 4) == x / 16 && HighBits(x, 5) == x / 32
  {
    var y := x / 2 / 2;
    assert HighBits(x, 4) == HighBits(x / 2, 3) == HighBits(y, 2) == HighBits(y / 2, 1) == HighBits(y / 2 / 2, 0);
    assert HighBits(x, 5) == HighBits(x / 2, 4) == HighBits(y, 3) == HighBits(y / 2, 2) == HighBits(y / 2 / 2, 1);
  }

  function Xor(a: Byte, b: Byte): (r: Byte)
  {
    Powers();
    XorBits(a, b, 8)
  }

  // ---------- Bit by bit ----------

  /** Whether bit `k` of `x` is set, bit 0 being the lowest. */
  ghost predicate Bit(x: nat, k: nat)
  {
    x / Pow2(k) % 2 == 1
  }

  lemma LowestBit(x: nat)
    ensures Bit(x, 0) <==> x % 2 == 1
  {
  }

  lemma NextBit(x: nat, k: nat)
    ensures Bit(x, k + 1) <==> Bit(x / 2, k)
  {
    var m := Pow2(k);
    var q, r := x / 2 / m, x / 2 % m;
    assert x == 2 * (q * m + r) + x % 2;
    assert x == q * (2 * m) + (2 * r + x % 2);
    assert 2 * r + x % 2 < 2 * m;
    ModUnique(x, 2 * m, q, 2 * r + x % 2);
  }

  /** Exclusive or flips exactly the bits that are set in the mask. */
  lemma {:induction false} XorFlips(a: nat, b: nat, n: nat, k: nat)
    requires k < n
    ensures Bit(XorBits(a, b, n), k) <==> Bit(a, k) != Bit(b, k)
  {
    hide Bit;
    var high := XorBits(a / 2, b / 2, n - 1);
    HighAndLow(high, XorBit(a, b));
    if k == 0 {
      LowestBit(a);
      LowestBit(b);
      LowestBit(XorBits(a, b, n));
    } else {
      XorFlips(a / 2, b / 2, n - 1, k - 1);
      NextBit(a, k - 1);
      NextBit(b, k - 1);
      NextBit(XorBits(a, b, n), k - 1);
    }
  }

  /** The low `j` bits of a number are those below `j`. */
  lemma {:induction false} LowBits(x: nat, j: nat, k: nat)
    ensures Bit(x % Pow2(j), k) <==> Bit(x, k) && k < j
  {
    hide Bit;
    var low := x % Pow2(j);
    if j == 0 {
      NoBits(k);
    } else {
      HalfOfLow(x, j);
      if k == 0 {
        LowestBit(x);
        LowestBit(low);
      } else {
        LowBits(x / 2, j - 1, k - 1);
        NextBit(x, k - 1);
        NextBit(low, k - 1);
      }
    }
  }

  lemma NoBits(k: nat)
    ensures !Bit(0, k)
  {
  }

  lemma HalfOfLow(x: nat, j: nat)
    requires j > 0
    ensures x % Pow2(j) / 2 == x / 2 % Pow2(j - 1) && x % Pow2(j) % 2 == x % 2
  {
    var m := Pow2(j - 1);
    var q, r := x / 2 / m, x / 2 % m;
    assert x == 2 * (q * m + r) + x % 2;
    assert x == q * (2 * m) + (2 * r + x % 2);
    ModUnique(x, 2 * m, q, 2 * r + x % 2);
  }

  // ---------- Masking ----------

  /** The low four bits of a long header, the low five of a short one. */
  function MaskFirst(first: Byte, m: Byte): (r: Byte)
  {
    Xor(first, if first >= 128 then m % 16 else m % 32)
  }

  /** Masking the first byte keeps the form bit and is its own inverse. */
  lemma MaskFirstFacts(first: Byte, m: Byte)
    ensures MaskFirst(first, m) / 32 == first / 32
    ensures first >= 128 ==> MaskFirst(first, m) / 16 == first / 16
    ensures MaskFirst(MaskFirst(first, m), m) == first
  {
    hide XorBits, HighBits, Pow2;
    var k, low := if first >= 128 then 4 else 5, if first >= 128 then m % 16 else m % 32;
    var x := MaskFirst(first, m);
    Powers();
    HighBitsOfByte(first);
    HighBitsOfByte(x);
    XorSparesHighBits(first, low, 8, k);
    XorTwice(first, low, 8);
  }

  /** `p` with the bytes of `m` exclusive-ored in from `offset` on. */
  function XorAt(p: Bytes, offset: nat, m: Bytes): (r: Bytes)
    ensures |r| == |p|
    ensures forall i :: 0 <= i < |p| && !(offset <= i < offset + |m|) ==> r[i] == p[i]
  {
    seq(|p|, i requires 0 <= i < |p| => if offset <= i < offset + |m| then Xor(p[i], m[i - offset]) else p[i])
  }

  /** First byte, then `n` packet-number bytes. */
  function Masked(p: Bytes, mask: Mask, offset: nat, n: nat): (r: Bytes)
    requires p != [] && n <= 4
    ensures |r| == |p|
  {
    XorAt(p[0 := MaskFirst(p[0], mask[0])], offset, mask[1..1 + n])
  }

  /** `nxp_hp_protect`. */
  function Protect(p: Bytes, offset: nat, n: nat, maskOf: MaskFn): (r: Option<Bytes>)
    requires n <= 4
  {
    if offset + 4 + SAMPLE_LEN > |p| then None
    else
      var mask :- maskOf(p[offset + 4..offset + 4 + SAMPLE_LEN]);
      Some(Masked(p, mask, offset, n))
  }

  /** `nxp_hp_unprotect`: the clear packet and the length of its packet number. */
  function Unprotect(p: Bytes, offset: nat, maskOf: MaskFn): (r: Option<(Bytes, nat)>)
  {
    if offset + 4 + SAMPLE_LEN > |p| then None
    else
      var mask :- maskOf(p[offset + 4..offset + 4 + SAMPLE_LEN]);
      var n := MaskFirst(p[0], mask[0]) % 4 + 1;
      Some((Masked(p, mask, offset, n), n))
  }

  // ---------- What masking does, bit by bit ----------

  /** How many low bits of the first byte are masked. */
  function FirstBits(first: Byte): (n: nat)
  {
    if first >= 128 then 4 else 5
  }

  /**
   * `q` is `p` with exactly these bits flipped: those of the first byte that `mask[0]` has among the low four of a
   * long header or the low five of a short one, and those of each number byte that its byte of the mask has.
   */
  ghost predicate Flips(p: Bytes, q: Bytes, mask: Mask, offset: nat, n: nat)
    requires 0 < offset && offset + n <= |p| && n <= 4
  {
    && |q| == |p|
    && (forall k :: 0 <= k < 8 ==> (Bit(q[0], k) != Bit(p[0], k) <==> Bit(mask[0], k) && k < FirstBits(p[0])))
    && (forall j, k :: offset <= j < offset + n && 0 <= k < 8 ==>
          (Bit(q[j], k) != Bit(p[j], k) <==> Bit(mask[1 + (j - offset)], k)))
    && (forall i :: 0 < i < |p| && !(offset <= i < offset + n) ==> q[i] == p[i])
  }

  lemma MaskFirstFlips(first: Byte, m: Byte, k: nat)
    requires k < 8
    ensures Bit(MaskFirst(first, m), k) != Bit(first, k) <==> Bit(m, k) && k < FirstBits(first)
  {
    hide Bit, XorBits;
    var j := FirstBits(first);
    Powers();
    LowBits(m, j, k);
    XorFlips(first, m % Pow2(j), 8, k);
  }

  lemma ByteFlips(a: Byte, b: Byte, k: nat)
    requires k < 8
    ensures Bit(Xor(a, b), k) != Bit(a, k) <==> Bit(b, k)
  {
    hide Bit, XorBits;
    XorFlips(a, b, 8, k);
  }

  lemma MaskedFlips(p: Bytes, mask: Mask, offset: nat, n: nat)
    requires 0 < offset && offset + n <= |p| && n <= 4
    ensures Flips(p, Masked(p, mask, offset, n), mask, offset, n)
  {
    hide Bit, Xor, MaskFirst, FirstBits;
    var q := Masked(p, mask, offset, n);
    forall k | 0 <= k < 8 ensures Bit(q[0], k) != Bit(p[0], k) <==> Bit(mask[0], k) && k < FirstBits(p[0]) {
      MaskFirstFlips(p[0], mask[0], k);
    }
    forall j, k | offset <= j < offset + n && 0 <= k < 8
      ensures Bit(q[j], k) != Bit(p[j], k) <==> Bit(mask[1 + (j - offset)], k)
    {
      assert q[j] == Xor(p[j], mask[1..1 + n][j - offset]);
      ByteFlips(p[j], mask[1 + (j - offset)], k);
    }
  }

  /** Protection flips exactly the bits that the mask of the sample selects. */
  lemma ProtectFlips(p: Bytes, offset: nat, n: nat, maskOf: MaskFn)
    requires 0 < offset && n <= 4
    ensures match Protect(p, offset, n, maskOf)
      case None => offset + 4 + SAMPLE_LEN > |p| || maskOf(p[offset + 4..offset + 4 + SAMPLE_LEN]) == None
      case Some(q) =>
        && offset + 4 + SAMPLE_LEN <= |p| && maskOf(p[offset + 4..offset + 4 + SAMPLE_LEN]).Some?
        && Flips(p, q, maskOf(p[offset + 4..offset + 4 + SAMPLE_LEN]).value, offset, n)
  {
    hide Masked, Flips;
    if Protect(p, offset, n, maskOf).Some? {
      MaskedFlips(p, maskOf(p[offset + 4..offset + 4 + SAMPLE_LEN]).value, offset, n);
    }
  }

  /** Removing it flips the same bits, over as many number bytes as the first byte then says. */
  lemma UnprotectFlips(p: Bytes, offset: nat, maskOf: MaskFn)
    requires 0 < offset
    ensures match Unprotect(p, offset, maskOf)
      case None => offset + 4 + SAMPLE_LEN > |p| || maskOf(p[offset + 4..offset + 4 + SAMPLE_LEN]) == None
      case Some((q, n)) =>
        && offset + 4 + SAMPLE_LEN <= |p| && maskOf(p[offset + 4..offset + 4 + SAMPLE_LEN]).Some?
        && 1 <= n <= 4 && q != [] && n == q[0] % 4 + 1
        && Flips(p, q, maskOf(p[offset + 4..offset + 4 + SAMPLE_LEN]).value, offset, n)
  {
    hide Masked, Flips, MaskFirst;
    var r := Unprotect(p, offset, maskOf);
    if r.Some? {
      var mask := maskOf(p[offset + 4..offset + 4 + SAMPLE_LEN]).value;
      MaskedFlips(p, mask, offset, r.value.1);
      MaskedTwice(p, mask, offset, r.value.1);
    }
  }

  lemma XorAtTwice(p: Bytes, offset: nat, m: Bytes)
    ensures XorAt(XorAt(p, offset, m), offset, m) == p
  {
    var q := XorAt(p, offset, m);
    forall i | offset <= i < offset + |m| && i < |p| ensures Xor(q[i], m[i - offset]) == p[i] {
      Powers();
      XorTwice(p[i], m[i - offset], 8);
    }
  }

  lemma MaskedTwice(p: Bytes, mask: Mask, offset: nat, n: nat)
    requires p != [] && n <= 4 && offset > 0
    ensures Masked(Masked(p, mask, offset, n), mask, offset, n) == p
    ensures Masked(p, mask, offset, n)[0] == MaskFirst(p[0], mask[0])
  {
    hide MaskFirst, XorAt;
    var f, m := MaskFirst(p[0], mask[0]), mask[1..1 + n];
    var q := Masked(p, mask, offset, n);
    MaskFirstFacts(p[0], mask[0]);
    assert q[0] == f;
    XorAtCommutesWithFirst(q, offset, m, MaskFirst(f, mask[0]));
    XorAtTwice(p[0 := f], offset, m);
    assert p[0 := f][0 := p[0]] == p;
  }

  lemma XorAtCommutesWithFirst(q: Bytes, offset: nat, m: Bytes, x: Byte)
    requires q != [] && offset > 0
    ensures XorAt(q[0 := x], offset, m) == XorAt(q, offset, m)[0 := x]
  {
  }

  lemma SampleSpared(p: Bytes, mask: Mask, offset: nat, n: nat)
    requires p != [] && n <= 4 && 0 < offset && offset + 4 + SAMPLE_LEN <= |p|
    ensures Masked(p, mask, offset, n)[offset + 4..offset + 4 + SAMPLE_LEN] == p[offset + 4..offset + 4 + SAMPLE_LEN]
  {
    hide MaskFirst, XorAt;
  }

  /** Removing protection undoes applying it, for every mask function: the mask never reaches the sample. */
  lemma UnprotectUndoesProtect(p: Bytes, offset: nat, maskOf: MaskFn)
    requires p != [] && offset > 0
    ensures var n := p[0] % 4 + 1; match Protect(p, offset, n, maskOf)
      case None => offset + 4 + SAMPLE_LEN > |p| || maskOf(p[offset + 4..offset + 4 + SAMPLE_LEN]) == None
      case Some(q) => |q| == |p| && Unprotect(q, offset, maskOf) == Some((p, n))
  {
    hide MaskFirst, Masked;
    var n := p[0] % 4 + 1;
    var protected := Protect(p, offset, n, maskOf);
    if protected.Some? {
      var mask := maskOf(p[offset + 4..offset + 4 + SAMPLE_LEN]).value;
      SampleSpared(p, mask, offset, n);
      MaskFirstFacts(p[0], mask[0]);
      MaskedTwice(p, mask, offset, n);
    }
  }

  /** Only the first byte and the packet number change. */
  lemma ProtectChangesOnlyTheHeader(p: Bytes, offset: nat, n: nat, maskOf: MaskFn, i: nat)
    requires n <= 4 && Protect(p, offset, n, maskOf).Some? && 0 < i < |p| && !(offset <= i < offset + n)
    ensures Protect(p, offset, n, maskOf).value[i] == p[i]
  {
  }

  // ---------- Headers under protection ----------

  /** A short header survives encoding, protection, its removal and decoding, whatever the mask function. */
  lemma ShortHeaderSurvives(h: ShortHeader, payload: Bytes, maskOf: MaskFn)
    requires ShortEncodable(h) && h.number < Pow256(h.numberLen)
    requires h.numberLen + |payload| >= 4 + SAMPLE_LEN
    ensures var p, offset := EncodeShort(h) + payload, 1 + |h.dcid|; match Protect(p, offset, h.numberLen, maskOf)
      case None => maskOf(p[offset + 4..offset + 4 + SAMPLE_LEN]) == None
      case Some(q) =>
        && Unprotect(q, offset, maskOf) == Some((p, h.numberLen))
        && DecodeShort(p, |h.dcid|) == Some(Decoded(h, offset, |EncodeShort(h)|))
  {
    hide Protect, Unprotect, DecodeShort, BigEndian, Pow256;
    var p := EncodeShort(h) + payload;
    assert p[0] % 4 + 1 == h.numberLen;
    UnprotectUndoesProtect(p, 1 + |h.dcid|, maskOf);
    ShortRoundTrip(h, payload);
  }

  /** Decoding a protected long header already finds every field but the packet number, at the right offset. */
  lemma ProtectedPrefixIsReadable(h: LongHeader, payload: Bytes, mask: Mask)
    requires LongEncodable(h) && LongTyped(h) && LongInLimits(h) && h.numberLen + |payload| >= 4
    ensures var q, offset := Masked(EncodeLong(h) + payload, mask, |LongPrefix(h)|, h.numberLen), |LongPrefix(h)|;
      && DecodeLong(q).Some? && DecodeLong(q).value.numberOffset == offset
      && DecodeLong(q).value.header.(number := h.number, numberLen := h.numberLen) == h
  {
    hide DecodeLong, LongPrefix, BigEndian, FromBigEndian, Pow256, LongFirst, MaskFirst, Xor;
    var p, offset := EncodeLong(h) + payload, |LongPrefix(h)|;
    var q := Masked(p, mask, offset, h.numberLen);
    var first := MaskFirst(p[0], mask[0]);
    assert p[0] == LongFirst(h) >= 192 && p[..offset] == LongPrefix(h);
    MaskFirstFacts(p[0], mask[0]);
    assert q[0] == first && q[1..offset] == p[1..offset] == LongPrefix(h)[1..];
    assert q == [first] + LongPrefix(h)[1..] + q[offset..];
    PrefixDecoded(h, first, q[offset..]);
  }

  /** An Initial, Handshake or 0-RTT header survives as well, and the receiver finds where to unmask. */
  lemma LongHeaderSurvives(h: LongHeader, payload: Bytes, maskOf: MaskFn)
    requires LongEncodable(h) && LongTyped(h) && LongInLimits(h)
    requires h.numberLen + |payload| >= 4 + SAMPLE_LEN
    ensures var p, offset := EncodeLong(h) + payload, |LongPrefix(h)|; match Protect(p, offset, h.numberLen, maskOf)
      case None => maskOf(p[offset + 4..offset + 4 + SAMPLE_LEN]) == None
      case Some(q) =>
        && DecodeLong(q).Some? && DecodeLong(q).value.numberOffset == offset
        && DecodeLong(q).value.header.(number := h.number, numberLen := h.numberLen) == h
        && Unprotect(q, offset, maskOf) == Some((p, h.numberLen))
        && DecodeLong(p) == Some(Decoded(h, offset, |EncodeLong(h)|))
  {
    hide Unprotect, DecodeLong, LongPrefix, BigEndian, Pow256, LongFirst, Masked;
    var p, offset := EncodeLong(h) + payload, |LongPrefix(h)|;
    assert p[0] == LongFirst(h) && p[0] % 4 + 1 == h.numberLen;
    UnprotectUndoesProtect(p, offset, maskOf);
    LongRoundTrip(h, payload);
    if Protect(p, offset, h.numberLen, maskOf).Some? {
      ProtectedPrefixIsReadable(h, payload, maskOf(p[offset + 4..offset + 4 + SAMPLE_LEN]).value);
    }
  }

  // ---------- The same in place ----------

  /** The masking loop over the packet number. */
  method XorInto(packet: array<Byte>, offset: nat, m: Bytes)
    requires offset + |m| <= packet.Length
    modifies packet
    ensures packet[..] == XorAt(old(packet[..]), offset, m)
  {
    for i := 0 to |m|
      invariant forall j :: 0 <= j < packet.Length ==>
        packet[j] == if offset <= j < offset + i then Xor(old(packet[j]), m[j - offset]) else old(packet[j])
    {
      packet[offset + i] := Xor(packet[offset + i], m[i]);
    }
  }

  /** Masking a packet inside a buffer is masking the packet. */
  lemma MaskedInside(all: Bytes, len: nat, mask: Mask, offset: nat, n: nat)
    requires 0 < len <= |all| && n <= 4 && offset + n <= len
    ensures Masked(all, mask, offset, n)[..len] == Masked(all[..len], mask, offset, n)
    ensures Masked(all, mask, offset, n)[len..] == all[len..]
  {
    hide Xor, MaskFirst;
  }

  /** `nxp_hp_protect` on the first `len` bytes of a buffer. */
  method ProtectPacket(packet: array<Byte>, len: nat, offset: nat, n: nat, maskOf: MaskFn) returns (ok: bool)
    requires len <= packet.Length && n <= 4
    modifies packet
    ensures ok == Protect(old(packet[..len]), offset, n, maskOf).Some?
    ensures ok ==> Some(packet[..len]) == Protect(old(packet[..len]), offset, n, maskOf)
    ensures ok && 0 < offset ==>
      var sample := old(packet[..len])[offset + 4..offset + 4 + SAMPLE_LEN];
      maskOf(sample).Some? && Flips(old(packet[..len]), packet[..len], maskOf(sample).value, offset, n)
    ensures !ok ==> packet[..] == old(packet[..])
    ensures packet[len..] == old(packet[len..])
  {
    hide Xor, XorAt, MaskFirst, Flips;
    if offset + 4 + SAMPLE_LEN > len {
      return false;
    }
    var sample := packet[offset + 4..offset + 4 + SAMPLE_LEN];
    SliceOfSlice(packet[..], 0, len, offset + 4, offset + 4 + SAMPLE_LEN);
    var mask := maskOf(sample);
    if mask.None? {
      return false;
    }
    if 0 < offset {
      ProtectFlips(packet[..len], offset, n, maskOf);
    }
    MaskedInside(packet[..], len, mask.value, offset, n);
    packet[0] := MaskFirst(packet[0], mask.value[0]);
    XorInto(packet, offset, mask.value[1..1 + n]);
    ok := true;
  }

  /** `nxp_hp_unprotect`: the packet-number length, or 0. */
  method UnprotectPacket(packet: array<Byte>, len: nat, offset: nat, maskOf: MaskFn) returns (n: nat)
    requires len <= packet.Length
    modifies packet
    ensures n == 0 <==> Unprotect(old(packet[..len]), offset, maskOf).None?
    ensures n > 0 ==> Some((packet[..len], n)) == Unprotect(old(packet[..len]), offset, maskOf)
    ensures n > 0 && 0 < offset ==>
      var sample := old(packet[..len])[offset + 4..offset + 4 + SAMPLE_LEN];
      && maskOf(sample).Some? && n == packet[0] % 4 + 1 <= 4
      && Flips(old(packet[..len]), packet[..len], maskOf(sample).value, offset, n)
    ensures n == 0 ==> packet[..] == old(packet[..])
    ensures packet[len..] == old(packet[len..])
  {
    hide Xor, XorAt, MaskFirst, Flips;
    ghost var all := packet[..];
    if 0 < offset {
      UnprotectFlips(packet[..len], offset, maskOf);
    }
    if offset + 4 + SAMPLE_LEN > len {
      return 0;
    }
    var sample := packet[offset + 4..offset + 4 + SAMPLE_LEN];
    SliceOfSlice(packet[..], 0, len, offset + 4, offset + 4 + SAMPLE_LEN);
    var mask := maskOf(sample);
    if mask.None? {
      return 0;
    }
    packet[0] := MaskFirst(packet[0], mask.value[0]);
    n := packet[0] % 4 + 1;
    MaskedInside(all, len, mask.value, offset, n);
    XorInto(packet, offset, mask.value[1..1 + n]);
  }
}
