/**
 * Streams: circular send and receive buffers, STREAM frames and FIN (src/core/stream.c), as functions on
 * values.  A stream's two buffers have whatever size their byte strings have (64 KB in the C code).
 */
module Streams {
  import opened Bytes
  import opened FlowControl
  import Circular
  import Frames

  datatype Phase = Idle | Open | HalfClosedLocal | HalfClosedRemote | Closed | Reset

  datatype SendBuf = SendBuf(data: Bytes, writeOffset: nat, sentOffset: nat, ackedOffset: nat,
                             fin: bool, finSent: bool, finAcked: bool)

  datatype RecvBuf = RecvBuf(data: Bytes, readOffset: nat, recvOffset: nat, finReceived: bool, finOffset: nat)

  datatype Stream = Stream(id: nat, phase: Phase, send: SendBuf, recv: RecvBuf, flow: Flow)

  /** `is_valid_stream_state_transition`. */
  predicate ValidTransition(from: Phase, to: Phase)
  {
    || to.Reset? || to.Closed?
    || (from.Idle? && to.Open?)
    || (from.Open? && (to.HalfClosedLocal? || to.HalfClosedRemote?))
  }

  function SetPhase(from: Phase, to: Phase): (p: Phase)
  {
    if ValidTransition(from, to) then to else from
  }

  /** `nxp_stream_create`. */
  function Create(id: nat, sendCap: nat, recvCap: nat, maxSend: nat, maxRecv: nat): (s: Stream)
  {
    Stream(id, Open,
           SendBuf(seq(sendCap, _ => 0), 0, 0, 0, false, false, false),
           RecvBuf(seq(recvCap, _ => 0), 0, 0, false, 0),
           Init(maxRecv, maxSend))
  }

  /** Room for new data: free buffer space, capped by the peer's stream limit. */
  function Room(s: Stream): (n: nat)
    ensures n <= |s.send.data|
  {
    var buffered := Sub64(s.send.writeOffset, s.send.ackedOffset);
    var free := if |s.send.data| > buffered then |s.send.data| - buffered else 0;
    var credit := if s.flow.peerMaxData > s.send.writeOffset then s.flow.peerMaxData - s.send.writeOffset else 0;
    Min(free, credit)
  }

  predicate CanWrite(s: Stream)
  {
    !s.phase.HalfClosedLocal? && !s.phase.Closed? && !s.phase.Reset? && !s.send.fin
  }

  /** How much of `d` a write accepts; None stands for the return value -1. */
  function Accepts(s: Stream, d: Bytes): (n: Option<nat>)
    ensures n.Some? ==> n.value <= |d| && n.value <= |s.send.data|
  {
    if CanWrite(s) then Some(Min(|d|, Room(s))) else None
  }

  /** `nxp_stream_write`. */
  function Write(s: Stream, d: Bytes, fin: bool): (s': Stream)
    requires |s.send.data| > 0
  {
    var n := Accepts(s, d);
    if n.None? then s
    else s.(send := s.send.(data := Circular.Put(s.send.data, s.send.writeOffset, d[..n.value]),
                            writeOffset := s.send.writeOffset + n.value,
                            fin := s.send.fin || fin))
  }

  /** The offsets of the send buffer make sense: nothing is acknowledged that was not written. */
  predicate Counted(send: SendBuf)
  {
    send.ackedOffset <= send.writeOffset < send.ackedOffset + TWO_64
  }

  /**
   * A write goes as far as it can and no further: up to the peer's limit, up to a full buffer, or to the end of
   * the data.
   */
  lemma WriteIsMaximal(s: Stream, d: Bytes, fin: bool)
    requires |s.send.data| > 0 && Counted(s.send) && CanWrite(s)
    ensures var s' := Write(s, d, fin);
            var (w, w', cap) := (s.send.writeOffset, s'.send.writeOffset, |s.send.data|);
            && Accepts(s, d) == Some(w' - w) && w <= w' <= w + |d|
            && (w' == w || w' <= s.flow.peerMaxData) && (w' == w || w' <= s.send.ackedOffset + cap)
            && (w' == w + |d| || w' >= s.flow.peerMaxData || w' >= s.send.ackedOffset + cap)
            && s'.flow == s.flow && s'.send.ackedOffset == s.send.ackedOffset && s'.send.fin == fin
  {
    hide Circular.Put;
    assert Sub64(s.send.writeOffset, s.send.ackedOffset) == s.send.writeOffset - s.send.ackedOffset;
  }

  /** A write is refused exactly after FIN was queued or sending was closed, and then changes nothing. */
  lemma WriteRefused(s: Stream, d: Bytes, fin: bool)
    requires |s.send.data| > 0
    ensures Accepts(s, d).None? <==> s.send.fin || s.phase in {HalfClosedLocal, Closed, Reset}
    ensures Accepts(s, d).None? ==> Write(s, d, fin) == s
  {
  }

  /** Never past the peer's limit, whatever the offsets are. */
  lemma WriteWithinCredit(s: Stream, d: Bytes, fin: bool)
    requires |s.send.data| > 0
    ensures var w, w' := s.send.writeOffset, Write(s, d, fin).send.writeOffset; w' == w || w < w' <= s.flow.peerMaxData
  {
    hide Circular.Put, Sub64;
  }

  /** How much a read returns. */
  function Available(s: Stream, len: nat): (n: nat)
  {
    if s.recv.readOffset >= s.recv.recvOffset then 0 else Min(len, s.recv.recvOffset - s.recv.readOffset)
  }

  predicate FinReached(s: Stream)
  {
    s.recv.finReceived && s.recv.readOffset >= s.recv.finOffset
  }

  /** `nxp_stream_read`: the new state, the bytes and the FIN flag. */
  function Read(s: Stream, len: nat): (r: (Stream, Bytes, bool))
    requires 0 < |s.recv.data| && s.recv.recvOffset <= s.recv.readOffset + |s.recv.data|
  {
    if s.recv.readOffset >= s.recv.recvOffset then (s, [], FinReached(s))
    else
      var n := Available(s, len);
      var s' := s.(recv := s.recv.(readOffset := s.recv.readOffset + n), flow := OnConsume(s.flow));
      (s', Circular.Get(s.recv.data, s.recv.readOffset, n), FinReached(s'))
  }

  /** `nxp_stream_unsent`. */
  function Unsent(s: Stream): (n: nat)
  {
    if s.send.sentOffset >= s.send.writeOffset then 0 else s.send.writeOffset - s.send.sentOffset
  }

  predicate HasWork(s: Stream)
  {
    Unsent(s) > 0 || (s.send.fin && !s.send.finSent)
  }

  /** The data length of the next frame: what is unsent, what the packet takes, and no further than the buffer's end. */
  function FrameLength(s: Stream, maxLen: nat): (n: nat)
    requires |s.send.data| > 0
    ensures n <= Unsent(s) && n <= maxLen && s.send.sentOffset % |s.send.data| + n <= |s.send.data|
    ensures n == Unsent(s) || n == maxLen || s.send.sentOffset % |s.send.data| + n == |s.send.data|
  {
    Min(Min(Unsent(s), maxLen), |s.send.data| - s.send.sentOffset % |s.send.data|)
  }

  /** `nxp_stream_fill_frame`; None stands for the return value false. */
  function FillFrame(s: Stream, maxLen: nat): (r: Option<(Stream, Frames.StreamFrame)>)
    requires |s.send.data| > 0
  {
    if !HasWork(s) then None
    else
      var n := FrameLength(s, maxLen);
      var pos := s.send.sentOffset % |s.send.data|;
      var fin := s.send.fin && !s.send.finSent && s.send.sentOffset + n == s.send.writeOffset;
      Some((s.(send := s.send.(sentOffset := s.send.sentOffset + n, finSent := s.send.finSent || fin)),
            Frames.StreamFrame(s.id, s.send.sentOffset, s.send.sentOffset > 0, true, fin, s.send.data[pos..pos + n])))
  }

  datatype RecvOutcome = Accepted(s: Stream) | StreamClosed | FlowControlViolated

  function FrameOffset(f: Frames.StreamFrame): nat { if f.hasOffset then f.offset else 0 }

  function FrameEnd(f: Frames.StreamFrame): nat { FrameOffset(f) + |f.data| }

  /** The receive buffer after the part of the frame that the application has not read is copied in. */
  function Absorb(recv: RecvBuf, f: Frames.StreamFrame): (r: RecvBuf)
    requires 0 < |recv.data| && |f.data| <= |recv.data|
  {
    if |f.data| == 0 || FrameEnd(f) <= recv.readOffset then recv
    else
      var start := Max(FrameOffset(f), recv.readOffset);
      recv.(data := Circular.Put(recv.data, start, f.data[start - FrameOffset(f)..]),
            recvOffset := Max(recv.recvOffset, FrameEnd(f)))
  }

  /** `nxp_stream_on_recv`; the C code leaves it to its callers that a frame is no longer than the buffer. */
  function OnRecvFrame(s: Stream, f: Frames.StreamFrame): (r: RecvOutcome)
    requires 0 < |s.recv.data| && |f.data| <= |s.recv.data|
  {
    if s.phase.HalfClosedRemote? || s.phase.Closed? || s.phase.Reset? then StreamClosed
    else if FrameEnd(f) > s.flow.localMaxData then FlowControlViolated
    else
      var s1 := s.(recv := Absorb(s.recv, f), flow := if |f.data| > 0 then OnRecv(s.flow, |f.data|) else s.flow);
      if !f.fin then Accepted(s1)
      else Accepted(s1.(recv := s1.recv.(finReceived := true, finOffset := FrameEnd(f)),
                        phase := if s.phase.Open? then SetPhase(s.phase, HalfClosedRemote)
                                 else if s.phase.HalfClosedLocal? then SetPhase(s.phase, Closed) else s.phase))
  }

  /** `nxp_stream_on_ack`. */
  function OnAckFrame(s: Stream, offset: nat, len: nat, fin: bool): (s': Stream)
  {
    var send := s.send.(ackedOffset := Max(s.send.ackedOffset, offset + len), finAcked := s.send.finAcked || fin);
    var s1 := s.(send := send);
    if !fin then s1
    else s1.(phase := if s.phase.HalfClosedRemote? then SetPhase(s.phase, Closed)
                      else if s.phase.Open? then SetPhase(s.phase, HalfClosedLocal) else s.phase)
  }

  /** `nxp_stream_on_loss`: rewinds, so that everything from the lost data on is sent again. */
  function OnLossFrame(s: Stream, offset: nat, fin: bool): (s': Stream)
  {
    s.(send := s.send.(sentOffset := Min(s.send.sentOffset, offset), finSent := s.send.finSent && !fin))
  }
}
