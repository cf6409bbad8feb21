/**
 * `nxp_frame_decode` and the decode loop of `process_frames`, at an advancing position (src/core/frame.c,
 * src/core/connection.c).
 */
module FrameDecoder {
  import opened Bytes
  import opened Frames
  import opened Readers
  import V = Varint

  /** A frame and the unread rest, as the specification of the decoder has them. */
  ghost predicate Agrees(spec: Option<Parsed>, r: Option<Frame>, rest: Bytes)
  {
    match spec
    case None => r == None
    case Some(p) => r == Some(p.frame) && rest == p.rest
  }

  lemma ZerosCounted(b: Bytes, n: nat)
    requires n <= |b| && (forall i :: 0 <= i < n ==> b[i] == 0) && (n < |b| ==> b[n] != 0)
    ensures n == LeadingZeros(b)
  {
    hide LeadingZeros;
    var m := LeadingZeros(b);
    assert m < |b| ==> b[m] != 0;
  }

  /** The padding loop. */
  method CountPadding(rd: Reader) returns (count: nat)
    requires rd.Valid()
    modifies rd`pos
    ensures rd.Valid() && count == LeadingZeros(old(rd.Rest())) && rd.Rest() == old(rd.Rest())[count..]
  {
    hide LeadingZeros;
    ghost var b := rd.Rest();
    count := 0;
    while rd.pos < rd.len && rd.buf[rd.pos] == 0
      invariant rd.Valid() && rd.pos == old(rd.pos) + count
      invariant forall i :: 0 <= i < count ==> b[i] == 0
      decreases rd.len - rd.pos
    {
      assert b[count] == 0;
      count := count + 1;
      rd.pos := rd.pos + 1;
    }
    ZerosCounted(b, count);
  }

  /** STREAM: the type byte carries the flags. */
  method DecodeStreamAt(rd: Reader) returns (r: Option<Frame>)
    requires rd.Valid() && rd.pos < rd.len && 8 <= rd.buf[rd.pos] < 16
    modifies rd`pos
    ensures rd.Valid() && Agrees(DecodeStream(old(rd.Rest())), r, rd.Rest())
  {
    hide TakeVarints, TakeBytes;
    ghost var b := rd.Rest();
    var ty := rd.buf[rd.pos];
    var hasOffset, hasLength, fin := ty / 4 % 2 == 1, ty / 2 % 2 == 1, ty % 2 == 1;
    rd.pos := rd.pos + 1;
    assert rd.Rest() == b[1..];
    var vs := rd.Varints(1 + (if hasOffset then 1 else 0) + (if hasLength then 1 else 0));
    if vs.None? {
      return None;
    }
    var fields := vs.value;
    var offset := if hasOffset then fields[1] else 0;
    var length := if hasLength then fields[|fields| - 1] else rd.len - rd.pos;
    if fields[0] > MAX_STREAM_ID || offset > MAX_STREAM_OFFSET || length > MAX_STREAM_FRAME_DATA {
      return None;
    }
    var data := rd.Raw(length);
    if data.None? {
      return None;
    }
    r := Some(Stream(StreamFrame(fields[0], offset, hasOffset, hasLength, fin, data.value)));
  }

  /** The ACK-range loop. */
  method ReadAckRanges(rd: Reader, count: nat) returns (ranges: Option<seq<AckRange>>)
    requires rd.Valid()
    modifies rd`pos
    ensures rd.Valid()
    ensures var spec := TakeVarints(old(rd.Rest()), 2 * count);
            if spec.None? then ranges == None else ranges == Some(Pair(spec.value.0)) && rd.Rest() == spec.value.1
  {
    hide V.Decode, TakeVarints, Pair;
    var rs: seq<AckRange> := [];
    ghost var b := rd.Rest();
    for i := 0 to count
      invariant rd.Valid() && |rs| == i
      invariant var all, more := TakeVarints(b, 2 * count), TakeVarints(rd.Rest(), 2 * (count - i));
                && (all.None? <==> more.None?)
                && (all.Some? ==> all.value.1 == more.value.1 && Pair(all.value.0) == rs + Pair(more.value.0))
    {
      ghost var k := count - i;
      NextVarint(rd.Rest(), 2 * k);
      var gap := rd.Varint();
      if gap.None? {
        return None;
      }
      NextVarint(rd.Rest(), 2 * k - 1);
      var range := rd.Varint();
      if range.None? {
        return None;
      }
      AnotherRange(rs, gap.value, range.value, TakeVarints(rd.Rest(), 2 * (k - 1)));
      rs := rs + [AckRange(gap.value, range.value)];
    }
    NothingTaken(rd.Rest());
    NoPairs();
    assert rs + [] == rs;
    ranges := Some(rs);
  }

  lemma NoPairs()
    ensures Pair([]) == []
  {
  }

  /** One more pair in front of the varints still to come. */
  lemma AnotherRange(rs: seq<AckRange>, gap: nat, range: nat, more: Option<(seq<nat>, Bytes)>)
    requires more.Some? ==> |more.value.0| % 2 == 0
    ensures more.Some? ==>
            rs + Pair([gap] + ([range] + more.value.0)) == rs + [AckRange(gap, range)] + Pair(more.value.0)
  {
    if more.Some? {
      var vs := [gap] + ([range] + more.value.0);
      assert vs[2..] == more.value.0;
      assert Pair(vs) == [AckRange(gap, range)] + Pair(more.value.0);
      assert rs + ([AckRange(gap, range)] + Pair(more.value.0)) == rs + [AckRange(gap, range)] + Pair(more.value.0);
    }
  }

  /** ACK and ACK_ECN. */
  method DecodeAckAt(rd: Reader, hasEcn: bool) returns (r: Option<Frame>)
    requires rd.Valid()
    modifies rd`pos
    ensures rd.Valid() && Agrees(DecodeAck(hasEcn, old(rd.Rest())), r, rd.Rest())
  {
    hide TakeVarints, Pair;
    var h := rd.Varints(4);
    if h.None? || h.value[2] > ACK_MAX_RANGES {
      return None;
    }
    var ranges := ReadAckRanges(rd, h.value[2]);
    if ranges.None? {
      return None;
    }
    var ecn := NoEcn;
    if hasEcn {
      var e := rd.Varints(3);
      if e.None? {
        return None;
      }
      ecn := EcnCounts(e.value[0], e.value[1], e.value[2]);
    }
    r := Some(Ack(AckFrame(h.value[0], h.value[1], h.value[3], ranges.value, ecn)));
  }

  /** The number of varints in the frames that consist of nothing else. */
  function FieldCount(ty: nat): (n: nat)
  {
    if ty in {0x01, 0x1E} then 0
    else if ty == 0x04 then 3
    else if ty in {0x05, 0x11, 0x15} then 2
    else 1
  }

  predicate IsPlain(ty: nat)
  {
    ty in {0x01, 0x1E, 0x04, 0x05, 0x10, 0x11, 0x12, 0x13, 0x14, 0x15, 0x16, 0x17, 0x19, 0x20}
  }

  /** The frames made of varints. */
  method DecodePlainAt(rd: Reader, ty: nat) returns (r: Option<Frame>)
    requires rd.Valid() && IsPlain(ty)
    modifies rd`pos
    ensures rd.Valid() && Agrees(DecodeBody(ty, old(rd.Rest())), r, rd.Rest())
  {
    hide TakeVarints;
    NothingTaken(rd.Rest());
    var vs := rd.Varints(FieldCount(ty));
    if vs.None? {
      return None;
    }
    var h := vs.value;
    r := Some(match ty
              case 0x01 => Ping
              case 0x1E => HandshakeDone
              case 0x04 => ResetStream(h[0], h[1], h[2])
              case 0x05 => StopSending(h[0], h[1])
              case 0x10 => MaxData(h[0])
              case 0x11 => MaxStreamData(h[0], h[1])
              case 0x12 => MaxStreams(true, h[0])
              case 0x13 => MaxStreams(false, h[0])
              case 0x14 => DataBlocked(h[0])
              case 0x15 => StreamDataBlocked(h[0], h[1])
              case 0x16 => StreamsBlocked(true, h[0])
              case 0x17 => StreamsBlocked(false, h[0])
              case 0x19 => RetireConnectionId(h[0])
              case _ => Heartbeat(h[0]));
  }

  predicate IsBlock(ty: nat)
  {
    ty in {0x06, 0x07, 0x22}
  }

  /** CRYPTO, NEW_TOKEN and DATAGRAM. */
  method DecodeBlockAt(rd: Reader, ty: nat) returns (r: Option<Frame>)
    requires rd.Valid() && IsBlock(ty)
    modifies rd`pos
    ensures rd.Valid() && Agrees(DecodeBody(ty, old(rd.Rest())), r, rd.Rest())
  {
    hide TakeVarints, TakeBlock;
    var offset := 0;
    if ty == 0x06 {
      var h := rd.Varints(1);
      if h.None? {
        return None;
      }
      offset := h.value[0];
    }
    var data := rd.Block(if ty == 0x06 then MAX_CRYPTO_FRAME_DATA
                         else if ty == 0x07 then MAX_TOKEN_LEN else MAX_DATAGRAM_LEN);
    if data.None? {
      return None;
    }
    r := Some(if ty == 0x06 then Crypto(offset, data.value)
              else if ty == 0x07 then NewToken(data.value) else Datagram(data.value));
  }

  /** CONNECTION_CLOSE. */
  method DecodeCloseAt(rd: Reader, isApp: bool) returns (r: Option<Frame>)
    requires rd.Valid()
    modifies rd`pos
    ensures rd.Valid() && Agrees(DecodeClose(isApp, old(rd.Rest())), r, rd.Rest())
  {
    hide TakeVarints, TakeBlock;
    var h := rd.Varints(if isApp then 1 else 2);
    if h.None? {
      return None;
    }
    var reason := rd.Block(MAX_CLOSE_REASON_LEN);
    if reason.None? {
      return None;
    }
    r := Some(ConnectionClose(isApp, h.value[0], if isApp then 0 else h.value[1], reason.value));
  }

  /** NEW_CONNECTION_ID. */
  method DecodeNewConnectionIdAt(rd: Reader) returns (r: Option<Frame>)
    requires rd.Valid()
    modifies rd`pos
    ensures rd.Valid() && Agrees(DecodeNewConnectionId(old(rd.Rest())), r, rd.Rest())
  {
    hide TakeVarints, TakeBytes;
    var h := rd.Varints(2);
    if h.None? || rd.pos >= rd.len {
      return None;
    }
    ghost var b := rd.Rest();
    var cidLen := rd.buf[rd.pos];
    rd.pos := rd.pos + 1;
    assert rd.Rest() == b[1..];
    if cidLen > MAX_CID_LEN {
      return None;
    }
    var cid := rd.Raw(cidLen);
    if cid.None? {
      return None;
    }
    var token := rd.Raw(16);
    if token.None? {
      return None;
    }
    r := Some(NewConnectionId(h.value[0], h.value[1], cid.value, token.value));
  }

  predicate IsRaw(ty: nat)
  {
    ty in {0x1A, 0x1B, 0x21}
  }

  /** PATH_CHALLENGE, PATH_RESPONSE and STREAM_PRIORITY. */
  method DecodeRawAt(rd: Reader, ty: nat) returns (r: Option<Frame>)
    requires rd.Valid() && IsRaw(ty)
    modifies rd`pos
    ensures rd.Valid() && Agrees(DecodeBody(ty, old(rd.Rest())), r, rd.Rest())
  {
    hide TakeVarints, TakeBytes;
    var id := 0;
    if ty == 0x21 {
      var h := rd.Varints(1);
      if h.None? {
        return None;
      }
      id := h.value[0];
    }
    var data := rd.Raw(if ty == 0x21 then 1 else 8);
    if data.None? {
      return None;
    }
    r := Some(if ty == 0x1A then PathChallenge(data.value) else if ty == 0x1B then PathResponse(data.value)
              else StreamPriority(id, data.value[0]));
  }

  /** The switch. */
  method DecodeBodyAt(rd: Reader, ty: nat) returns (r: Option<Frame>)
    requires rd.Valid()
    modifies rd`pos
    ensures rd.Valid() && Agrees(DecodeBody(ty, old(rd.Rest())), r, rd.Rest())
  {
    hide Agrees, DecodeAck, DecodeClose, DecodeNewConnectionId, TakeVarints, TakeBytes, TakeBlock;
    if ty in {0x02, 0x03} {
      r := DecodeAckAt(rd, ty == 0x03);
    } else if IsPlain(ty) {
      r := DecodePlainAt(rd, ty);
    } else if IsBlock(ty) {
      r := DecodeBlockAt(rd, ty);
    } else if ty in {0x1C, 0x1D} {
      r := DecodeCloseAt(rd, ty == 0x1D);
    } else if ty == 0x18 {
      r := DecodeNewConnectionIdAt(rd);
    } else if IsRaw(ty) {
      r := DecodeRawAt(rd, ty);
    } else {
      r := None;
      Unknown(rd.Rest());
    }
  }

  lemma Unknown(rest: Bytes)
    ensures Agrees(None, None, rest)
  {
  }

  /** `nxp_frame_decode`: the first frame of the unread bytes, or None for its return value 0. */
  method DecodeFrame(rd: Reader) returns (r: Option<Frame>)
    requires rd.Valid()
    modifies rd`pos
    ensures rd.Valid() && Agrees(Decode(old(rd.Rest())), r, rd.Rest())
  {
    hide DecodeStream, DecodeBody, V.Decode, LeadingZeros, WellTyped;
    if rd.pos >= rd.len {
      return None;
    }
    if rd.buf[rd.pos] == 0 {
      var count := CountPadding(rd);
      return Some(Padding(count));
    }
    if 8 <= rd.buf[rd.pos] < 16 {
      r := DecodeStreamAt(rd);
      return;
    }
    var ty := rd.Varint();
    if ty.None? {
      return None;
    }
    r := DecodeBodyAt(rd, ty.value);
  }

  /** The decode loop of `process_frames`: the frames dispatched, and whether the payload was well formed to its end. */
  method ProcessPayload(buf: array<Byte>, len: nat) returns (frames: seq<Frame>, ok: bool)
    requires len <= buf.Length
    ensures (frames, ok) == DecodeAll(buf[..len])
  {
    hide Decode, DecodeAll;
    var rd := new Reader(buf, 0, len);
    frames := [];
    ghost var payload := buf[..len];
    assert rd.Rest() == payload;
    assert [] + DecodeAll(payload).0 == DecodeAll(payload).0;
    while rd.pos < len
      invariant rd.Valid() && rd.buf == buf && rd.len == len
      invariant DecodeAll(payload) == (frames + DecodeAll(rd.Rest()).0, DecodeAll(rd.Rest()).1)
      decreases len - rd.pos
    {
      DecodeNext(frames, rd.Rest());
      var frame := DecodeFrame(rd);
      if frame.None? {
        return frames, false;
      }
      frames := frames + [frame.value];
    }
    assert rd.Rest() == [] && buf[..len] == payload;
    DecodeNothing(frames);
    ok := true;
  }

  /** One round of the loop, after the frames `fs`. */
  lemma DecodeNext(fs: seq<Frame>, b: Bytes)
    requires b != []
    ensures match Decode(b)
            case None => (fs + DecodeAll(b).0, DecodeAll(b).1) == (fs, false)
            case Some(p) =>
              && |p.rest| < |b|
              && (fs + DecodeAll(b).0, DecodeAll(b).1) == (fs + [p.frame] + DecodeAll(p.rest).0, DecodeAll(p.rest).1)
  {
    hide Decode;
    DecodeShrinks(b);
    var p := Decode(b);
    if p.None? {
      assert DecodeAll(b) == ([], false);
      assert fs + [] == fs;
    } else {
      var more := DecodeAll(p.value.rest);
      assert DecodeAll(b) == ([p.value.frame] + more.0, more.1);
      assert fs + ([p.value.frame] + more.0) == fs + [p.value.frame] + more.0;
    }
  }

  lemma DecodeNothing(fs: seq<Frame>)
    ensures (fs + DecodeAll([]).0, DecodeAll([]).1) == (fs, true)
  {
    assert fs + [] == fs;
  }

  lemma DecodeShrinks(b: Bytes)
    ensures Decode(b).Some? ==> |Decode(b).value.rest| < |b|
  {
  }
}
