/**
 * The frame engine (src/core/frame.c, src/core/frame_internal.h).
 *
 * On the wire every frame is a list of varints, the first of which is its type, followed by raw bytes.
 * `Fields` and `Tail` give the two parts in the order in which the encoders write them.  A C pair of a
 * length and a data pointer is one byte string here, so a length is the size of its data.
 */
module Frames {
  import opened Bytes
  import Varint

  const MAX_TOKEN_LEN := 1024
  const MAX_CLOSE_REASON_LEN := 1024
  const MAX_CRYPTO_FRAME_DATA := 16384
  const MAX_STREAM_FRAME_DATA := 1048576
  const MAX_DATAGRAM_LEN := 65536
  const MAX_STREAM_ID: nat := 0x1000_0000_0000_0000
  const MAX_STREAM_OFFSET: nat := 0x1000_0000_0000_0000
  const ACK_MAX_RANGES := 64

  datatype AckRange = AckRange(gap: nat, ackRange: nat)

  datatype Ecn = NoEcn | EcnCounts(ect0: nat, ect1: nat, ce: nat)

  datatype AckFrame = AckFrame(largestAcked: nat, ackDelay: nat, firstAckRange: nat, ranges: seq<AckRange>, ecn: Ecn)

  datatype StreamFrame = StreamFrame(streamId: nat, offset: nat, hasOffset: bool, hasLength: bool, fin: bool,
                                     data: Bytes)

  datatype Frame =
    | Padding(count: nat)
    | Ping
    | Ack(ack: AckFrame)
    | ResetStream(streamId: nat, errorCode: nat, finalSize: nat)
    | StopSending(streamId: nat, errorCode: nat)
    | Crypto(offset: nat, data: Bytes)
    | NewToken(token: Bytes)
    | Stream(stream: StreamFrame)
    | MaxData(maxData: nat)
    | MaxStreamData(streamId: nat, maxData: nat)
    | MaxStreams(isBidi: bool, maxStreams: nat)
    | DataBlocked(maxData: nat)
    | StreamDataBlocked(streamId: nat, maxData: nat)
    | StreamsBlocked(isBidi: bool, maxStreams: nat)
    | NewConnectionId(seqNum: nat, retirePriorTo: nat, cid: Bytes, resetToken: Bytes)
    | RetireConnectionId(seqNum: nat)
    | PathChallenge(data: Bytes)
    | PathResponse(data: Bytes)
    | ConnectionClose(isApp: bool, errorCode: nat, frameType: nat, reason: Bytes)
    | HandshakeDone
    | Heartbeat(timestamp: nat)
    | StreamPriority(streamId: nat, priority: Byte)
    | Datagram(data: Bytes)

  /** The sizes that the C types fix. */
  predicate WellTyped(f: Frame)
  {
    match f
    case Ack(a) => |a.ranges| <= ACK_MAX_RANGES
    case NewConnectionId(_, _, cid, token) => |token| == 16
    case PathChallenge(d) => |d| == 8
    case PathResponse(d) => |d| == 8
    case _ => true
  }

  // ---------- Encoding ----------

  function StreamType(s: StreamFrame): (t: nat)
    ensures 8 <= t < 16
  {
    8 + (if s.hasOffset then 4 else 0) + (if s.hasLength then 2 else 0) + (if s.fin then 1 else 0)
  }

  function Flatten(rs: seq<AckRange>): (vs: seq<nat>)
    ensures |vs| == 2 * |rs|
  {
    if rs == [] then [] else [rs[0].gap, rs[0].ackRange] + Flatten(rs[1..])
  }

  /** The frame type and every other varint of a frame, in wire order. */
  function Fields(f: Frame): (vs: seq<nat>)
    requires !f.Padding?
    ensures |vs| > 0
  {
    match f
    case Ping => [0x01]
    case Ack(a) =>
      [if a.ecn.NoEcn? then 0x02 else 0x03, a.largestAcked, a.ackDelay, |a.ranges|, a.firstAckRange]
      + (Flatten(a.ranges) + (if a.ecn.NoEcn? then [] else [a.ecn.ect0, a.ecn.ect1, a.ecn.ce]))
    case ResetStream(id, code, size) => [0x04, id, code, size]
    case StopSending(id, code) => [0x05, id, code]
    case Crypto(offset, data) => [0x06, offset, |data|]
    case NewToken(token) => [0x07, |token|]
    case Stream(s) =>
      [StreamType(s), s.streamId] +
        ((if s.hasOffset then [s.offset] else []) + (if s.hasLength then [|s.data|] else []))
    case MaxData(v) => [0x10, v]
    case MaxStreamData(id, v) => [0x11, id, v]
    case MaxStreams(bidi, v) => [if bidi then 0x12 else 0x13, v]
    case DataBlocked(v) => [0x14, v]
    case StreamDataBlocked(id, v) => [0x15, id, v]
    case StreamsBlocked(bidi, v) => [if bidi then 0x16 else 0x17, v]
    case NewConnectionId(seqNum, retire, _, _) => [0x18, seqNum, retire]
    case RetireConnectionId(seqNum) => [0x19, seqNum]
    case PathChallenge(_) => [0x1A]
    case PathResponse(_) => [0x1B]
    case ConnectionClose(isApp, code, ty, reason) =>
      if isApp then [0x1D, code, |reason|] else [0x1C, code, ty, |reason|]
    case HandshakeDone => [0x1E]
    case Heartbeat(t) => [0x20, t]
    case StreamPriority(id, _) => [0x21, id]
    case Datagram(data) => [0x22, |data|]
  }

  predicate AllVarints(vs: seq<nat>)
  {
    forall i :: 0 <= i < |vs| ==> vs[i] <= Varint.MAX
  }

  /** Whether the encoder of the frame accepts it, given room. */
  predicate Encodable(f: Frame)
  {
    && (!f.Padding? ==> AllVarints(Fields(f)))
    && (f.NewConnectionId? ==> |f.cid| <= MAX_CID_LEN)
  }

  /** The raw bytes after the varints. */
  function Tail(f: Frame): (b: Bytes)
    requires Encodable(f)
  {
    match f
    case Crypto(_, data) => data
    case NewToken(token) => token
    case Stream(s) => if s.hasLength then s.data else []
    case NewConnectionId(_, _, cid, token) => [|cid|] + (cid + token)
    case PathChallenge(data) => data
    case PathResponse(data) => data
    case ConnectionClose(_, _, _, reason) => reason
    case StreamPriority(_, priority) => [priority]
    case Datagram(data) => data
    case _ => []
  }

  function Varints(vs: seq<nat>): (b: Bytes)
    requires AllVarints(vs)
    ensures |b| >= |vs|
  {
    if vs == [] then [] else Varint.Encode(vs[0]) + Varints(vs[1..])
  }

  function Zeros(n: nat): (b: Bytes)
    ensures |b| == n
  {
    seq(n, _ => 0)
  }

  /** The bytes of a frame. */
  function Encode(f: Frame): (b: Bytes)
    requires Encodable(f)
    ensures !f.Padding? ==> |b| > 0
  {
    if f.Padding? then Zeros(f.count) else Varints(Fields(f)) + Tail(f)
  }

  // ---------- Decoding ----------

  datatype Parsed = Parsed(frame: Frame, rest: Bytes)

  function TakeVarints(b: Bytes, n: nat): (r: Option<(seq<nat>, Bytes)>)
    ensures r.Some? ==> |r.value.0| == n && |r.value.1| <= |b|
  {
    if n == 0 then Some(([], b))
    else
      var (v, b1) :- Varint.Decode(b);
      var (vs, b2) :- TakeVarints(b1, n - 1);
      Some(([v] + vs, b2))
  }

  function TakeBytes(b: Bytes, n: nat): (r: Option<(Bytes, Bytes)>)
    ensures r.Some? ==> |r.value.0| == n && |r.value.1| <= |b|
  {
    if n > |b| then None else Some((b[..n], b[n..]))
  }

  function LeadingZeros(b: Bytes): (n: nat)
    ensures n <= |b|
    ensures forall i :: 0 <= i < n ==> b[i] == 0
    ensures n < |b| ==> b[n] != 0
  {
    if b == [] || b[0] != 0 then 0 else 1 + LeadingZeros(b[1..])
  }

  function Pair(vs: seq<nat>): (rs: seq<AckRange>)
    requires |vs| % 2 == 0
    ensures 2 * |rs| == |vs|
  {
    if vs == [] then [] else [AckRange(vs[0], vs[1])] + Pair(vs[2..])
  }

  function DecodeStreamBody(hasOffset: bool, hasLength: bool, fin: bool, b: Bytes): (r: Option<Parsed>)
    ensures r.Some? ==> |r.value.rest| <= |b| && WellTyped(r.value.frame)
  {
    var (vs, b1) :- TakeVarints(b, 1 + (if hasOffset then 1 else 0) + (if hasLength then 1 else 0));
    var id := vs[0];
    var offset := if hasOffset then vs[1] else 0;
    var length := if hasLength then vs[|vs| - 1] else |b1|;
    if id > MAX_STREAM_ID || offset > MAX_STREAM_OFFSET || length > MAX_STREAM_FRAME_DATA then None else
    var (data, rest) :- TakeBytes(b1, length);
    Some(Parsed(Stream(StreamFrame(id, offset, hasOffset, hasLength, fin, data)), rest))
  }

  /** The type byte of a STREAM frame carries its flags. */
  function DecodeStream(b: Bytes): (r: Option<Parsed>)
    requires |b| > 0 && 8 <= b[0] < 16
    ensures r.Some? ==> |r.value.rest| < |b| && WellTyped(r.value.frame)
  {
    DecodeStreamBody(b[0] / 4 % 2 == 1, b[0] / 2 % 2 == 1, b[0] % 2 == 1, b[1..])
  }

  function DecodeAck(hasEcn: bool, b: Bytes): (r: Option<Parsed>)
    ensures r.Some? ==> |r.value.rest| <= |b| && WellTyped(r.value.frame)
  {
    var (h, b1) :- TakeVarints(b, 4);
    if h[2] > ACK_MAX_RANGES then None else
    var (vs, b2) :- TakeVarints(b1, 2 * h[2]);
    if !hasEcn then Some(Parsed(Ack(AckFrame(h[0], h[1], h[3], Pair(vs), NoEcn)), b2)) else
    var (e, b3) :- TakeVarints(b2, 3);
    Some(Parsed(Ack(AckFrame(h[0], h[1], h[3], Pair(vs), EcnCounts(e[0], e[1], e[2]))), b3))
  }

  /** A length of at most `limit`, then that many bytes. */
  function TakeBlock(b: Bytes, limit: nat): (r: Option<(Bytes, Bytes)>)
    ensures r.Some? ==> |r.value.0| <= limit && |r.value.1| <= |b|
  {
    var (n, b1) :- Varint.Decode(b);
    if n > limit then None else TakeBytes(b1, n)
  }

  function DecodeNewConnectionId(b: Bytes): (r: Option<Parsed>)
    ensures r.Some? ==> |r.value.rest| <= |b| && WellTyped(r.value.frame)
  {
    var (h, b1) :- TakeVarints(b, 2);
    if b1 == [] || b1[0] > MAX_CID_LEN then None else
    var (cid, b2) :- TakeBytes(b1[1..], b1[0]);
    var (token, b3) :- TakeBytes(b2, 16);
    Some(Parsed(NewConnectionId(h[0], h[1], cid, token), b3))
  }

  function DecodeClose(isApp: bool, b: Bytes): (r: Option<Parsed>)
    ensures r.Some? ==> |r.value.rest| <= |b| && WellTyped(r.value.frame)
  {
    var (h, b1) :- TakeVarints(b, if isApp then 1 else 2);
    var (reason, b2) :- TakeBlock(b1, MAX_CLOSE_REASON_LEN);
    Some(Parsed(ConnectionClose(isApp, h[0], if isApp then 0 else h[1], reason), b2))
  }

  /** The switch of `nxp_frame_decode`: the frame of type `ty` whose other fields start `b`. */
  function DecodeBody(ty: nat, b: Bytes): (r: Option<Parsed>)
    ensures r.Some? ==> |r.value.rest| <= |b| && WellTyped(r.value.frame)
  {
    match ty
    case 0x01 => Some(Parsed(Ping, b))
    case 0x02 => DecodeAck(false, b)
    case 0x03 => DecodeAck(true, b)
    case 0x04 => var (h, r) :- TakeVarints(b, 3); Some(Parsed(ResetStream(h[0], h[1], h[2]), r))
    case 0x05 => var (h, r) :- TakeVarints(b, 2); Some(Parsed(StopSending(h[0], h[1]), r))
    case 0x06 =>
      var (h, b1) :- TakeVarints(b, 1);
      var (data, r) :- TakeBlock(b1, MAX_CRYPTO_FRAME_DATA);
      Some(Parsed(Crypto(h[0], data), r))
    case 0x07 => var (token, r) :- TakeBlock(b, MAX_TOKEN_LEN); Some(Parsed(NewToken(token), r))
    case 0x10 => var (h, r) :- TakeVarints(b, 1); Some(Parsed(MaxData(h[0]), r))
    case 0x11 => var (h, r) :- TakeVarints(b, 2); Some(Parsed(MaxStreamData(h[0], h[1]), r))
    case 0x12 => var (h, r) :- TakeVarints(b, 1); Some(Parsed(MaxStreams(true, h[0]), r))
    case 0x13 => var (h, r) :- TakeVarints(b, 1); Some(Parsed(MaxStreams(false, h[0]), r))
    case 0x14 => var (h, r) :- TakeVarints(b, 1); Some(Parsed(DataBlocked(h[0]), r))
    case 0x15 => var (h, r) :- TakeVarints(b, 2); Some(Parsed(StreamDataBlocked(h[0], h[1]), r))
    case 0x16 => var (h, r) :- TakeVarints(b, 1); Some(Parsed(StreamsBlocked(true, h[0]), r))
    case 0x17 => var (h, r) :- TakeVarints(b, 1); Some(Parsed(StreamsBlocked(false, h[0]), r))
    case 0x18 => DecodeNewConnectionId(b)
    case 0x19 => var (h, r) :- TakeVarints(b, 1); Some(Parsed(RetireConnectionId(h[0]), r))
    case 0x1A => var (data, r) :- TakeBytes(b, 8); Some(Parsed(PathChallenge(data), r))
    case 0x1B => var (data, r) :- TakeBytes(b, 8); Some(Parsed(PathResponse(data), r))
    case 0x1C => DecodeClose(false, b)
    case 0x1D => DecodeClose(true, b)
    case 0x1E => Some(Parsed(HandshakeDone, b))
    case 0x20 => var (h, r) :- TakeVarints(b, 1); Some(Parsed(Heartbeat(h[0]), r))
    case 0x21 =>
      var (h, b1) :- TakeVarints(b, 1);
      var (p, r) :- TakeBytes(b1, 1);
      Some(Parsed(StreamPriority(h[0], p[0]), r))
    case 0x22 => var (data, r) :- TakeBlock(b, MAX_DATAGRAM_LEN); Some(Parsed(Datagram(data), r))
    case _ => None
  }

  /** `nxp_frame_decode`: the first frame of `b` and the bytes after it; every frame consumes something. */
  function Decode(b: Bytes): (r: Option<Parsed>)
    ensures r.Some? ==> |r.value.rest| < |b| && WellTyped(r.value.frame)
  {
    if b == [] then None
    else if b[0] == 0 then Some(Parsed(Padding(LeadingZeros(b)), b[LeadingZeros(b)..]))
    else if 8 <= b[0] < 16 then DecodeStream(b)
    else
      var (ty, b1) :- Varint.Decode(b);
      DecodeBody(ty, b1)
  }

  // ---------- Decoding undoes encoding ----------

  lemma TakeOneVarint(v: nat, ws: seq<nat>, rest: Bytes)
    requires v <= Varint.MAX && AllVarints(ws)
    ensures AllVarints([v] + ws)
    ensures Varint.Decode(Varints([v] + ws) + rest) == Some((v, Varints(ws) + rest))
  {
    assert ([v] + ws)[1..] == ws;
    assert Varints([v] + ws) + rest == Varint.Encode(v) + (Varints(ws) + rest);
    Varint.RoundTrip(v, Varints(ws) + rest);
  }

  lemma {:induction false} TakeVarintsRoundTrip(vs: seq<nat>, ws: seq<nat>, rest: Bytes)
    requires AllVarints(vs) && AllVarints(ws)
    ensures AllVarints(vs + ws)
    ensures TakeVarints(Varints(vs + ws) + rest, |vs|) == Some((vs, Varints(ws) + rest))
  {
    hide Varint.Decode, Varint.Encode;
    if vs == [] {
      assert vs + ws == ws;
    } else {
      TakeVarintsRoundTrip(vs[1..], ws, rest);
      assert [vs[0]] + (vs[1..] + ws) == vs + ws;
      TakeOneVarint(vs[0], vs[1..] + ws, rest);
      assert [vs[0]] + vs[1..] == vs;
    }
  }

  /** All the varints, then whatever follows. */
  lemma TakeAllVarints(vs: seq<nat>, rest: Bytes)
    requires AllVarints(vs)
    ensures TakeVarints(Varints(vs) + rest, |vs|) == Some((vs, rest))
  {
    TakeVarintsRoundTrip(vs, [], rest);
    assert vs + [] == vs;
    assert Varints([]) + rest == rest;
  }

  lemma TakeBytesRoundTrip(data: Bytes, rest: Bytes)
    ensures TakeBytes(data + rest, |data|) == Some((data, rest))
  {
  }

  lemma TakeBlockRoundTrip(data: Bytes, rest: Bytes, limit: nat)
    requires |data| <= Varint.MAX
    ensures TakeBlock(Varints([|data|]) + (data + rest), limit) == if |data| > limit then None else Some((data, rest))
  {
    TakeOneVarint(|data|, [], data + rest);
    assert [|data|] + [] == [|data|];
    assert Varints([]) + (data + rest) == data + rest;
    TakeBytesRoundTrip(data, rest);
  }

  lemma {:induction false} PairUndoesFlatten(rs: seq<AckRange>)
    ensures Pair(Flatten(rs)) == rs
  {
    if rs != [] {
      PairUndoesFlatten(rs[1..]);
      assert Flatten(rs)[2..] == Flatten(rs[1..]);
    }
  }

  lemma TypeIsOneByte(f: Frame)
    requires !f.Padding?
    ensures 0 < Fields(f)[0] < 64
    ensures 8 <= Fields(f)[0] < 16 <==> f.Stream?
  {
  }

  lemma OneByteVarint(v: nat)
    requires v < 64
    ensures Varint.Encode(v) == [v]
  {
    assert BigEndian(v, 1) == [v];
  }

  /** The bytes of a frame, type first. */
  lemma TypeFirst(f: Frame, rest: Bytes)
    requires Encodable(f) && !f.Padding?
    ensures AllVarints(Fields(f)[1..])
    ensures Encode(f) + rest == [Fields(f)[0]] + (Varints(Fields(f)[1..]) + (Tail(f) + rest))
  {
    hide Fields, Tail, Varint.Encode;
    TypeIsOneByte(f);
    OneByteVarint(Fields(f)[0]);
    assert Varints(Fields(f)) == Varint.Encode(Fields(f)[0]) + Varints(Fields(f)[1..]);
    hide Varints;
    Regroup(Varint.Encode(Fields(f)[0]), Varints(Fields(f)[1..]), Tail(f), rest);
  }

  /** The type that each frame has on the wire: section 19 of RFC 9000, and the three extensions from 0x20 on. */
  lemma TypeOnTheWire(f: Frame)
    requires Encodable(f) && (f.Padding? ==> f.count > 0)
    ensures Encode(f) != []
    ensures Encode(f)[0] ==
      match f
      case Padding(_) => 0x00
      case Ping => 0x01
      case Ack(a) => if a.ecn.NoEcn? then 0x02 else 0x03
      case ResetStream(_, _, _) => 0x04
      case StopSending(_, _) => 0x05
      case Crypto(_, _) => 0x06
      case NewToken(_) => 0x07
      case Stream(s) => 0x08 + (if s.hasOffset then 4 else 0) + (if s.hasLength then 2 else 0) + if s.fin then 1 else 0
      case MaxData(_) => 0x10
      case MaxStreamData(_, _) => 0x11
      case MaxStreams(bidi, _) => if bidi then 0x12 else 0x13
      case DataBlocked(_) => 0x14
      case StreamDataBlocked(_, _) => 0x15
      case StreamsBlocked(bidi, _) => if bidi then 0x16 else 0x17
      case NewConnectionId(_, _, _, _) => 0x18
      case RetireConnectionId(_) => 0x19
      case PathChallenge(_) => 0x1A
      case PathResponse(_) => 0x1B
      case ConnectionClose(isApp, _, _, _) => if isApp then 0x1D else 0x1C
      case HandshakeDone => 0x1E
      case Heartbeat(_) => 0x20
      case StreamPriority(_, _) => 0x21
      case Datagram(_) => 0x22
  {
    if !f.Padding? {
      hide Varints, Tail, Varint.Encode;
      TypeFirst(f, []);
      assert Encode(f) + [] == Encode(f);
    }
  }

  /** A frame other than PADDING and STREAM is decoded by the branch of its type. */
  lemma DecodeByType(f: Frame, rest: Bytes)
    requires Encodable(f) && !f.Padding? && !f.Stream?
    ensures AllVarints(Fields(f)[1..])
    ensures Decode(Encode(f) + rest) == DecodeBody(Fields(f)[0], Varints(Fields(f)[1..]) + (Tail(f) + rest))
  {
    hide Fields, Tail, Encode, Varint.Encode, Varint.Decode, DecodeBody;
    TypeIsOneByte(f);
    OneByteVarint(Fields(f)[0]);
    TypeFirst(f, rest);
    Varint.RoundTrip(Fields(f)[0], Varints(Fields(f)[1..]) + (Tail(f) + rest));
  }

  /** The limits within which the decoder returns what the encoder was given, when `rest` follows the frame. */
  predicate InLimits(f: Frame, rest: Bytes)
  {
    match f
    case Padding(count) => count > 0 && LeadingZeros(rest) == 0
    case Crypto(_, data) => |data| <= MAX_CRYPTO_FRAME_DATA
    case NewToken(token) => |token| <= MAX_TOKEN_LEN
    case Stream(s) => StreamInLimits(s, rest)
    case ConnectionClose(isApp, _, ty, reason) => |reason| <= MAX_CLOSE_REASON_LEN && (isApp ==> ty == 0)
    case Datagram(data) => |data| <= MAX_DATAGRAM_LEN
    case _ => true
  }

  predicate StreamInLimits(s: StreamFrame, rest: Bytes)
  {
    && s.streamId <= MAX_STREAM_ID
    && (if s.hasOffset then s.offset <= MAX_STREAM_OFFSET else s.offset == 0)
    && (if s.hasLength then |s.data| <= MAX_STREAM_FRAME_DATA else s.data == [] == rest)
  }

  lemma SplitVarints(vs: seq<nat>, ws: seq<nat>)
    requires AllVarints(vs + ws)
    ensures AllVarints(vs) && AllVarints(ws)
  {
    assert forall i :: 0 <= i < |vs| ==> (vs + ws)[i] == vs[i];
    assert forall i :: 0 <= i < |ws| ==> (vs + ws)[|vs| + i] == ws[i];
  }

  lemma AckRoundTrip(a: AckFrame, rest: Bytes)
    requires Encodable(Ack(a)) && WellTyped(Ack(a))
    ensures Decode(Encode(Ack(a)) + rest) == Some(Parsed(Ack(a), rest))
  {
    hide Decode, Varint.Encode, Varint.Decode, Varints, TakeVarints, Encode, Flatten, Pair;
    var f := Ack(a);
    DecodeByType(f, rest);
    var head := [a.largestAcked, a.ackDelay, |a.ranges|, a.firstAckRange];
    var ranges := Flatten(a.ranges);
    var ecn := if a.ecn.NoEcn? then [] else [a.ecn.ect0, a.ecn.ect1, a.ecn.ce];
    assert Fields(f)[1..] == head + (ranges + ecn);
    SplitVarints(head, ranges + ecn);
    SplitVarints(ranges, ecn);
    assert Tail(f) + rest == rest;
    TakeVarintsRoundTrip(head, ranges + ecn, rest);
    TakeVarintsRoundTrip(ranges, ecn, rest);
    TakeAllVarints(ecn, rest);
    PairUndoesFlatten(a.ranges);
    NoVarints(rest);
  }

  lemma NoVarints(rest: Bytes)
    ensures Varints([]) + rest == rest
  {
  }

  /** What the decoder makes of a STREAM frame: without an explicit length it takes everything that follows. */
  function StreamResult(s: StreamFrame, rest: Bytes): (r: Option<Parsed>)
  {
    if s.streamId > MAX_STREAM_ID || (s.hasOffset && s.offset > MAX_STREAM_OFFSET) then None
    else if (if s.hasLength then |s.data| else |rest|) > MAX_STREAM_FRAME_DATA then None
    else
      var offset := if s.hasOffset then s.offset else 0;
      if s.hasLength then Some(Parsed(Stream(s.(offset := offset)), rest))
      else Some(Parsed(Stream(s.(offset := offset, data := rest)), []))
  }

  lemma StreamDecoded(s: StreamFrame, rest: Bytes)
    requires Encodable(Stream(s))
    ensures Decode(Encode(Stream(s)) + rest) == StreamResult(s, rest)
  {
    hide Varint.Encode, Varint.Decode, Varints, Encode, TakeVarints, TakeBytes, DecodeBody, AllVarints, LeadingZeros;
    var f := Stream(s);
    TypeFirst(f, rest);
    TakeAllVarints(Fields(f)[1..], Tail(f) + rest);
    if s.hasLength {
      TakeBytesRoundTrip(s.data, rest);
    } else {
      assert Tail(f) + rest == rest == rest + [];
      TakeBytesRoundTrip(rest, []);
    }
  }

  /** Frames that consist of a type and a fixed number of varints. */
  lemma PlainRoundTrip(f: Frame, rest: Bytes)
    requires Encodable(f)
    requires f.Ping? || f.ResetStream? || f.StopSending? || f.MaxData? || f.MaxStreamData? || f.MaxStreams? ||
             f.DataBlocked?
             || f.StreamDataBlocked? || f.StreamsBlocked? || f.RetireConnectionId? || f.HandshakeDone? || f.Heartbeat?
    ensures Decode(Encode(f) + rest) == Some(Parsed(f, rest))
  {
    hide Decode, Varint.Encode, Varint.Decode, Varints, TakeVarints, Encode;
    DecodeByType(f, rest);
    assert Tail(f) + rest == rest;
    TakeAllVarints(Fields(f)[1..], rest);
    NoVarints(rest);
  }

  /** Frames that end in a block with an explicit length: some varints, the length, the bytes. */
  lemma BlockDecoded(head: seq<nat>, data: Bytes, rest: Bytes, limit: nat)
    requires AllVarints(head) && AllVarints([|data|])
    ensures AllVarints(head + [|data|])
    ensures TakeVarints(Varints(head + [|data|]) + (data + rest), |head|) ==
            Some((head, Varints([|data|]) + (data + rest)))
    ensures TakeBlock(Varints([|data|]) + (data + rest), limit) == if |data| > limit then None else Some((data, rest))
  {
    hide Varint.Encode, Varint.Decode, Varints, TakeVarints, TakeBlock;
    assert [|data|][0] == |data|;
    TakeVarintsRoundTrip(head, [|data|], data + rest);
    TakeBlockRoundTrip(data, rest, limit);
  }

  lemma BlockRoundTrip(f: Frame, rest: Bytes)
    requires Encodable(f) && (f.Crypto? || f.NewToken? || f.Datagram?)
    ensures Decode(Encode(f) + rest) == Some(Parsed(f, rest)) <==> InLimits(f, rest)
  {
    hide Decode, Varint.Encode, Varint.Decode, Varints, TakeVarints, TakeBlock, Encode;
    DecodeByType(f, rest);
    var head := if f.Crypto? then [f.offset] else [];
    assert Fields(f)[1..] == head + [|Tail(f)|];
    SplitVarints(head, [|Tail(f)|]);
    BlockDecoded(head, Tail(f), rest,
                 if f.Crypto? then MAX_CRYPTO_FRAME_DATA else if f.NewToken? then MAX_TOKEN_LEN else MAX_DATAGRAM_LEN);
    assert !f.Crypto? ==> head + [|Tail(f)|] == [|Tail(f)|];
  }

  lemma CloseRoundTrip(f: Frame, rest: Bytes)
    requires Encodable(f) && f.ConnectionClose?
    ensures Decode(Encode(f) + rest) == Some(Parsed(f, rest)) <==> InLimits(f, rest)
  {
    hide Decode, Varint.Encode, Varint.Decode, Varints, TakeVarints, TakeBlock, Encode;
    DecodeByType(f, rest);
    var head := if f.isApp then [f.errorCode] else [f.errorCode, f.frameType];
    assert Fields(f)[1..] == head + [|f.reason|];
    SplitVarints(head, [|f.reason|]);
    BlockDecoded(head, f.reason, rest, MAX_CLOSE_REASON_LEN);
  }

  /** Frames that end in bytes of a fixed size. */
  lemma RawRoundTrip(f: Frame, rest: Bytes)
    requires Encodable(f) && WellTyped(f) && (f.PathChallenge? || f.PathResponse? || f.StreamPriority?)
    ensures Decode(Encode(f) + rest) == Some(Parsed(f, rest))
  {
    hide Decode, Varint.Encode, Varint.Decode, Varints, TakeVarints, Encode;
    DecodeByType(f, rest);
    TakeAllVarints(Fields(f)[1..], Tail(f) + rest);
    NoVarints(Tail(f) + rest);
    TakeBytesRoundTrip(Tail(f), rest);
  }

  lemma LengthByte(n: Byte, a: Bytes, b: Bytes, rest: Bytes)
    ensures var all := [n] + (a + b) + rest; |all| > 0 && all[0] == n && all[1..] == a + (b + rest)
  {
  }

  lemma NewConnectionIdRoundTrip(f: Frame, rest: Bytes)
    requires Encodable(f) && WellTyped(f) && f.NewConnectionId?
    ensures Decode(Encode(f) + rest) == Some(Parsed(f, rest))
  {
    hide Decode, Varint.Encode, Varint.Decode, Varints, TakeVarints, Encode, TakeBytes;
    DecodeByType(f, rest);
    TakeAllVarints(Fields(f)[1..], Tail(f) + rest);
    LengthByte(|f.cid|, f.cid, f.resetToken, rest);
    TakeBytesRoundTrip(f.cid, f.resetToken + rest);
    TakeBytesRoundTrip(f.resetToken, rest);
  }

  lemma {:induction false} PaddingZeros(n: nat, rest: Bytes)
    ensures LeadingZeros(Zeros(n) + rest) == n + LeadingZeros(rest)
  {
    hide Zeros, LeadingZeros;
    if n == 0 {
      NoZeros(rest);
    } else {
      PaddingZeros(n - 1, rest);
      ZerosFirst(n, rest, 0);
      OneMoreZero(Zeros(n) + rest);
    }
  }

  lemma OneMoreZero(b: Bytes)
    requires b != [] && b[0] == 0
    ensures LeadingZeros(b) == 1 + LeadingZeros(b[1..])
  {
  }

  lemma NoZeros(rest: Bytes)
    ensures Zeros(0) + rest == rest
  {
  }

  lemma ZerosFirst(n: nat, rest: Bytes, k: nat)
    requires n > 0 && k <= |rest|
    ensures var b := Zeros(n) + rest; b[0] == 0 && b[1..] == Zeros(n - 1) + rest && b[n + k..] == rest[k..]
  {
  }

  lemma DecodeZeros(b: Bytes)
    requires b != [] && b[0] == 0
    ensures Decode(b) == Some(Parsed(Padding(LeadingZeros(b)), b[LeadingZeros(b)..]))
  {
    hide LeadingZeros, DecodeStream, DecodeBody, Varint.Decode;
  }

  /** A PADDING frame absorbs the zero bytes that follow it. */
  lemma PaddingDecoded(n: nat, rest: Bytes)
    requires n > 0
    ensures Decode(Encode(Padding(n)) + rest) ==
            Some(Parsed(Padding(n + LeadingZeros(rest)), rest[LeadingZeros(rest)..]))
  {
    hide Decode, LeadingZeros, Zeros;
    PaddingZeros(n, rest);
    ZerosFirst(n, rest, LeadingZeros(rest));
    DecodeZeros(Zeros(n) + rest);
  }

  /**
   * Decoding an encoded frame returns that frame and exactly what followed it, if and only if the frame
   * is within the decoder's limits.
   */
  lemma RoundTrip(f: Frame, rest: Bytes)
    requires Encodable(f) && WellTyped(f)
    ensures Decode(Encode(f) + rest) == Some(Parsed(f, rest)) <==> InLimits(f, rest)
  {
    hide Decode, Encode;
    match f
    case Padding(n) =>
      if n > 0 { PaddingDecoded(n, rest); } else { NoPadding(rest); }
    case Ack(a) => AckRoundTrip(a, rest);
    case Stream(s) => StreamDecoded(s, rest);
    case Crypto(_, _) => BlockRoundTrip(f, rest);
    case NewToken(_) => BlockRoundTrip(f, rest);
    case ConnectionClose(_, _, _, _) => CloseRoundTrip(f, rest);
    case Datagram(_) => BlockRoundTrip(f, rest);
    case NewConnectionId(_, _, _, _) => NewConnectionIdRoundTrip(f, rest);
    case PathChallenge(_) => RawRoundTrip(f, rest);
    case PathResponse(_) => RawRoundTrip(f, rest);
    case StreamPriority(_, _) => RawRoundTrip(f, rest);
    case _ => PlainRoundTrip(f, rest);
  }

  lemma NoPadding(rest: Bytes)
    ensures Decode(Encode(Padding(0)) + rest) != Some(Parsed(Padding(0), rest))
  {
    if rest != [] && rest[0] == 0 {
      assert Encode(Padding(0)) + rest == rest;
    }
  }

  // ---------- The payload of a packet ----------

  function EncodeAll(fs: seq<Frame>): (b: Bytes)
    requires forall i :: 0 <= i < |fs| ==> Encodable(fs[i])
  {
    if fs == [] then [] else Encode(fs[0]) + EncodeAll(fs[1..])
  }

  /**
   * The decode loop of `process_frames`: the frames of a payload up to the first malformed one, and whether there
   * was none.
   */
  function DecodeAll(b: Bytes): (r: (seq<Frame>, bool))
    decreases |b|
  {
    if b == [] then ([], true)
    else match Decode(b)
      case None => ([], false)
      case Some(p) => var (fs, ok) := DecodeAll(p.rest); ([p.frame] + fs, ok)
  }

  /** Every frame is within limits, given what follows it in a payload that ends in `rest`. */
  predicate AllInLimits(fs: seq<Frame>, rest: Bytes)
  {
    fs == [] ||
    (&& Encodable(fs[0]) && WellTyped(fs[0])
     && AllInLimits(fs[1..], rest)
     && (forall i :: 0 <= i < |fs| - 1 ==> Encodable(fs[1..][i]))
     && InLimits(fs[0], EncodeAll(fs[1..]) + rest))
  }

  lemma {:induction false} AllEncodable(fs: seq<Frame>, rest: Bytes)
    requires AllInLimits(fs, rest)
    ensures forall i :: 0 <= i < |fs| ==> Encodable(fs[i])
  {
    hide Encodable, WellTyped, InLimits, EncodeAll;
    if fs != [] {
      forall i | 0 < i < |fs| ensures Encodable(fs[i]) {
        assert fs[i] == fs[1..][i - 1];
      }
    }
  }

  /** The payload loop recovers every list of frames, in order, and goes on with what follows, well formed or not. */
  lemma {:induction false} PayloadRoundTrip(fs: seq<Frame>, rest: Bytes)
    requires AllInLimits(fs, rest)
    ensures forall i :: 0 <= i < |fs| ==> Encodable(fs[i])
    ensures DecodeAll(EncodeAll(fs) + rest) == (fs + DecodeAll(rest).0, DecodeAll(rest).1)
  {
    hide Decode, Encode, InLimits, WellTyped;
    AllEncodable(fs, rest);
    var b := EncodeAll(fs) + rest;
    if fs == [] {
      assert b == rest && fs + DecodeAll(rest).0 == DecodeAll(rest).0;
    } else {
      var b1 := EncodeAll(fs[1..]) + rest;
      PayloadRoundTrip(fs[1..], rest);
      RoundTrip(fs[0], b1);
      Associate(Encode(fs[0]), EncodeAll(fs[1..]), rest);
      assert [fs[0]] + (fs[1..] + DecodeAll(rest).0) == fs + DecodeAll(rest).0;
      if b == [] {
        NothingToDecode();
      }
    }
  }

  lemma NothingToDecode()
    ensures Decode([]) == None
  {
  }

  // ---------- The same in place ----------

  /** A run of `encode_varint` calls, as every encoder begins: writes all the varints, or gives up with 0. */
  method WriteVarints(vs: seq<nat>, buf: array<Byte>) returns (pos: nat)
    requires |vs| > 0
    modifies buf
    ensures pos == if AllVarints(vs) && |Varints(vs)| <= buf.Length then |Varints(vs)| else 0
    ensures pos > 0 ==> buf[..pos] == Varints(vs)
  {
    pos := 0;
    for i := 0 to |vs|
      invariant pos <= buf.Length
      invariant AllVarints(vs[..i]) && pos == |Varints(vs[..i])| && buf[..pos] == Varints(vs[..i])
    {
      var n := Varint.Write(vs[i], buf, pos);
      if vs[i] <= Varint.MAX {
        VarintsAppend(vs[..i], vs[i]);
      }
      assert vs[..i + 1] == vs[..i] + [vs[i]];
      if n == 0 {
        if AllVarints(vs) {
          assert vs == vs[..i + 1] + vs[i + 1..];
          VarintsLonger(vs[..i + 1], vs[i + 1..]);
        }
        return 0;
      }
      pos := pos + n;
    }
    assert vs[..|vs|] == vs;
  }

  lemma BothVarints(vs: seq<nat>, ws: seq<nat>)
    requires AllVarints(vs) && AllVarints(ws) && vs != []
    ensures vs[0] <= Varint.MAX && AllVarints(vs[1..]) && AllVarints(vs + ws)
  {
  }

  lemma VarintsOfNone()
    ensures Varints([]) == []
  {
  }

  lemma VarintsStep(vs: seq<nat>)
    requires AllVarints(vs) && vs != []
    ensures AllVarints(vs[1..]) && Varints(vs) == Varint.Encode(vs[0]) + Varints(vs[1..])
  {
    hide Varint.Encode;
  }

  lemma {:induction false} VarintsConcat(vs: seq<nat>, ws: seq<nat>)
    requires AllVarints(vs) && AllVarints(ws)
    ensures AllVarints(vs + ws) && Varints(vs + ws) == Varints(vs) + Varints(ws)
  {
    hide Varint.Encode, AllVarints, Varints;
    if vs == [] {
      VarintsOfNone();
      assert vs + ws == ws;
    } else {
      BothVarints(vs, ws);
      VarintsConcat(vs[1..], ws);
      VarintsStep(vs);
      VarintsStep(vs + ws);
      assert (vs + ws)[0] == vs[0] && (vs + ws)[1..] == vs[1..] + ws;
      Associate(Varint.Encode(vs[0]), Varints(vs[1..]), Varints(ws));
    }
  }

  lemma OneVarint(v: nat)
    requires v <= Varint.MAX
    ensures AllVarints([v]) && |Varints([v])| == Varint.Length(v)
  {
    hide Varint.Encode;
    VarintsStep([v]);
    VarintsOfNone();
    assert [v][1..] == [];
  }

  /** The header of a STREAM frame with less than 16 KB of data takes at most 19 bytes. */
  lemma StreamHeaderSize(s: StreamFrame)
    requires s.streamId <= Varint.MAX && s.offset <= Varint.MAX && |s.data| <= 16383
    ensures Encodable(Stream(s)) && |Encode(Stream(s))| <= 19 + |s.data|
  {
    hide Varints, AllVarints, Varint.Encode;
    var offset, length := if s.hasOffset then [s.offset] else [], if s.hasLength then [|s.data|] else [];
    OptionalVarint(s.hasOffset, s.offset);
    OptionalVarint(s.hasLength, |s.data|);
    OptionalVarint(true, StreamType(s));
    OptionalVarint(true, s.streamId);
    var head := [StreamType(s)] + [s.streamId];
    VarintsConcat([StreamType(s)], [s.streamId]);
    VarintsConcat(offset, length);
    VarintsConcat(head, offset + length);
    assert Fields(Stream(s)) == head + (offset + length);
  }

  lemma OptionalVarint(present: bool, v: nat)
    requires v <= Varint.MAX
    ensures var vs := if present then [v] else [];
            && AllVarints(vs) && |Varints(vs)| <= 8
            && (v <= 63 ==> |Varints(vs)| <= 1) && (v <= 16383 ==> |Varints(vs)| <= 2)
  {
    hide Varints;
    OneVarint(v);
    VarintsOfNone();
  }

  lemma VarintsAppend(vs: seq<nat>, v: nat)
    requires AllVarints(vs) && v <= Varint.MAX
    ensures AllVarints(vs + [v]) && Varints(vs + [v]) == Varints(vs) + Varint.Encode(v)
  {
    VarintsConcat(vs, [v]);
    assert Varints([v]) == Varint.Encode(v) + Varints([]);
  }

  lemma VarintsLonger(vs: seq<nat>, ws: seq<nat>)
    requires AllVarints(vs + ws)
    ensures AllVarints(vs) && |Varints(vs)| <= |Varints(vs + ws)|
  {
    SplitVarints(vs, ws);
    VarintsConcat(vs, ws);
  }

  /** The encoders: the number of bytes written, or 0 when a field has no encoding or the buffer has no room. */
  method EncodeInto(f: Frame, buf: array<Byte>) returns (n: nat)
    modifies buf
    ensures n == if Encodable(f) && |Encode(f)| <= buf.Length then |Encode(f)| else 0
    ensures n > 0 ==> buf[..n] == Encode(f)
  {
    if f.Padding? {
      if f.count == 0 || buf.Length < f.count {
        return 0;
      }
      CopyInto(buf, 0, Zeros(f.count));
      return f.count;
    }
    if f.NewConnectionId? && |f.cid| > MAX_CID_LEN {
      return 0;
    }
    var pos := WriteVarints(Fields(f), buf);
    if pos == 0 || pos + |Tail(f)| > buf.Length {
      return 0;
    }
    CopyInto(buf, pos, Tail(f));
    n := pos + |Tail(f)|;
  }
}
