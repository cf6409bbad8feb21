/** A stream as the C code keeps it: two byte arrays and offsets updated in place (src/core/stream.c). */
module StreamObjects {
  import opened Bytes
  import opened FlowControl
  import opened Streams
  import Circular
  import Frames

  datatype RecvCode = Ok | ErrStreamClosed | ErrFlowControl

  function CodeOf(r: RecvOutcome): (code: RecvCode)
  {
    match r
    case Accepted(_) => Ok
    case StreamClosed => ErrStreamClosed
    case FlowControlViolated => ErrFlowControl
  }

  /** A piece that does not wrap, of the part of the stream that is still held. */
  lemma HeldPiece(ring: Bytes, s: Bytes, off: nat, n: nat)
    requires Circular.HoldsLap(ring, s) && 0 < |ring| && off + n <= |s| && off % |ring| + n <= |ring|
    ensures |s| <= off + |ring| ==> ring[off % |ring|..off % |ring| + n] == s[off..off + n]
  {
    hide Circular.HoldsLap;
    if |s| <= off + |ring| {
      Circular.GetFromLap(ring, s, off, n);
    }
  }

  lemma AcceptedMeansOpen(s: Stream, d: Bytes)
    requires Accepts(s, d).Some?
    ensures CanWrite(s)
  {
  }

  class StreamObject {
    const id: nat
    var phase: Phase

    var sendData: array<Byte>
    var writeOffset: nat
    var sentOffset: nat
    var ackedOffset: nat
    var fin: bool
    var finSent: bool
    var finAcked: bool

    var recvData: array<Byte>
    var readOffset: nat
    var recvOffset: nat
    var finReceived: bool
    var finOffset: nat

    const flow: FlowCtrl

    /** Everything the application has written. */
    ghost var written: Bytes

    /** The send buffer holds the last lap of what was written, whatever was acknowledged or lost. */
    ghost predicate Valid()
      reads this, sendData, flow
    {
      && 0 < sendData.Length && 0 < recvData.Length && sendData != recvData
      && writeOffset == |written| && sentOffset <= writeOffset
      && Circular.HoldsLap(sendData[..], written)
      && flow.Valid()
    }

    ghost function View(): (s: Stream)
      reads this, sendData, recvData, flow
    {
      Stream(id, phase,
             SendBuf(sendData[..], writeOffset, sentOffset, ackedOffset, fin, finSent, finAcked),
             RecvBuf(recvData[..], readOffset, recvOffset, finReceived, finOffset),
             flow.View())
    }

    /** `nxp_stream_create`. */
    constructor (id: nat, cap: nat, maxSend: nat, maxRecv: nat)
      requires 0 < cap
      ensures Valid() && fresh(sendData) && fresh(recvData) && fresh(flow) && written == []
      ensures View() == Create(id, cap, cap, maxSend, maxRecv)
    {
      this.id, phase := id, Open;
      sendData := new Byte[cap](_ => 0);
      writeOffset, sentOffset, ackedOffset := 0, 0, 0;
      fin, finSent, finAcked := false, false, false;
      recvData := new Byte[cap](_ => 0);
      readOffset, recvOffset, finReceived, finOffset := 0, 0, false, 0;
      flow := new FlowCtrl(maxRecv, maxSend);
      written := [];
      new;
      assert sendData[..] == seq(cap, _ => 0) && recvData[..] == seq(cap, _ => 0);
    }

    /** Free buffer space, within the peer's limit. */
    method Space() returns (avail: nat)
      requires Valid()
      ensures avail == Room(View())
    {
      hide Circular.HoldsLap;
      var buffered := Sub64(writeOffset, ackedOffset);
      avail := if sendData.Length > buffered then sendData.Length - buffered else 0;
      var credit := if flow.peerMaxData > writeOffset then flow.peerMaxData - writeOffset else 0;
      if avail > credit {
        avail := credit;
      }
    }

    /** `nxp_stream_write`: appends what it accepts. */
    method WriteData(d: Bytes, last: bool) returns (accepted: Option<nat>)
      requires Valid()
      modifies this`writeOffset, this`fin, this`written, sendData
      ensures Valid()
      ensures accepted == Accepts(old(View()), d)
      ensures written == old(written) + if accepted.Some? then d[..accepted.value] else []
      ensures View() == Write(old(View()), d, last)
      ensures writeOffset == old(writeOffset) || writeOffset <= flow.peerMaxData
      ensures accepted.Some? && old(Counted(View().send)) ==>
              && (accepted.value == 0 || writeOffset <= ackedOffset + sendData.Length)
              && (accepted.value == |d| || writeOffset >= flow.peerMaxData ||
                  writeOffset >= ackedOffset + sendData.Length)
    {
      hide Circular.HoldsLap, Write, Accepts, Counted, CanWrite;
      ghost var s := View();
      accepted := Append(d, last);
      WriteWithinCredit(s, d, last);
      if accepted.Some? && Counted(s.send) {
        AcceptedMeansOpen(s, d);
        WriteIsMaximal(s, d, last);
      }
    }

    method Append(d: Bytes, last: bool) returns (accepted: Option<nat>)
      requires Valid()
      modifies this`writeOffset, this`fin, this`written, sendData
      ensures Valid()
      ensures accepted == Accepts(old(View()), d)
      ensures written == old(written) + if accepted.Some? then d[..accepted.value] else []
      ensures View() == Write(old(View()), d, last)
    {
      hide Circular.Put, Circular.HoldsLap, Room;
      if phase.HalfClosedLocal? || phase.Closed? || phase.Reset? || fin {
        return None;
      }
      var avail := Space();
      var n := if |d| < avail then |d| else avail;
      Circular.PutKeepsLap(sendData[..], written, d[..n]);
      Circular.CopyIn(sendData, writeOffset, d[..n]);
      written := written + d[..n];
      writeOffset := writeOffset + n;
      if last {
        fin := true;
      }
      assert recvData[..] == old(recvData[..]);
      accepted := Some(n);
    }

    /** `nxp_stream_read`. */
    method ReadData(len: nat) returns (bytes: Bytes, finReached: bool)
      requires Valid() && recvOffset <= readOffset + recvData.Length
      modifies this`readOffset, flow
      ensures Valid()
      ensures (View(), bytes, finReached) == Read(old(View()), len)
    {
      hide Circular.Get, Circular.HoldsLap;
      if readOffset >= recvOffset {
        return [], finReceived && readOffset >= finOffset;
      }
      var n := if len < recvOffset - readOffset then len else recvOffset - readOffset;
      bytes := Circular.CopyOut(recvData, readOffset, n);
      readOffset := readOffset + n;
      finReached := finReceived && readOffset >= finOffset;
      flow.Consumed();
    }

    /** `nxp_stream_fill_frame`: a piece of what was written, as long as no more than a lap has been written since. */
    method FillNext(maxLen: nat) returns (frame: Option<Frames.StreamFrame>)
      requires Valid()
      modifies this`sentOffset, this`finSent
      ensures Valid()
      ensures var r := FillFrame(old(View()), maxLen);
              if r.None? then frame == None && View() == old(View())
              else View() == r.value.0 && frame == Some(r.value.1)
      ensures frame.Some? && writeOffset <= old(sentOffset) + sendData.Length ==>
              frame.value.data == written[old(sentOffset)..sentOffset]
    {
      hide Circular.HoldsLap, FrameLength, Unsent;
      var n, data := NextPiece(maxLen);
      if n.None? {
        return None;
      }
      var offset, last := sentOffset, false;
      if fin && !finSent && sentOffset + n.value == writeOffset {
        last, finSent := true, true;
      }
      sentOffset := sentOffset + n.value;
      frame := Some(Frames.StreamFrame(id, offset, offset > 0, true, last, data));
    }

    /** The length of the next frame and its bytes, straight out of the buffer; None when there is nothing to send. */
    method NextPiece(maxLen: nat) returns (n: Option<nat>, data: Bytes)
      requires Valid()
      ensures n.Some? <==> HasWork(View())
      ensures n.Some? ==> n.value == FrameLength(View(), maxLen) && sentOffset + n.value <= writeOffset
      ensures n.Some? ==> var pos := sentOffset % sendData.Length; data == View().send.data[pos..pos + n.value]
      ensures n.Some? && writeOffset <= sentOffset + sendData.Length ==>
              data == written[sentOffset..sentOffset + n.value]
    {
      hide Circular.HoldsLap;
      var unsent := if sentOffset >= writeOffset then 0 else writeOffset - sentOffset;
      if unsent == 0 && !(fin && !finSent) {
        return None, [];
      }
      var len := if unsent < maxLen then unsent else maxLen;
      var pos := sentOffset % sendData.Length;
      if len > sendData.Length - pos {
        len := sendData.Length - pos;
      }
      HeldPiece(sendData[..], written, sentOffset, len);
      n, data := Some(len), sendData[pos..pos + len];
    }

    /** Copies what the application has not read yet. */
    method AbsorbData(f: Frames.StreamFrame)
      requires Valid() && |f.data| <= recvData.Length
      modifies this`recvOffset, recvData
      ensures Valid() && View() == old(View()).(recv := Absorb(old(View()).recv, f))
    {
      hide Circular.Put, Circular.HoldsLap;
      var offset := if f.hasOffset then f.offset else 0;
      var end := offset + |f.data|;
      if |f.data| > 0 && end > readOffset {
        var start, skip := offset, 0;
        if start < readOffset {
          skip := readOffset - start;
          start := readOffset;
        }
        Circular.CopyIn(recvData, start, f.data[skip..]);
        if end > recvOffset {
          recvOffset := end;
        }
      }
      assert sendData[..] == old(sendData[..]);
    }

    /** `nxp_stream_on_recv`. */
    method Receive(f: Frames.StreamFrame) returns (code: RecvCode)
      requires Valid() && |f.data| <= recvData.Length
      modifies this`phase, this`recvOffset, this`finReceived, this`finOffset, flow, recvData
      ensures Valid()
      ensures var r := OnRecvFrame(old(View()), f);
              code == CodeOf(r) && View() == if r.Accepted? then r.s else old(View())
    {
      hide Absorb, Circular.Put, Circular.HoldsLap, SetPhase;
      if phase.HalfClosedRemote? || phase.Closed? || phase.Reset? {
        return ErrStreamClosed;
      }
      var end := (if f.hasOffset then f.offset else 0) + |f.data|;
      if end > flow.localMaxData {
        return ErrFlowControl;
      }
      AbsorbData(f);
      if |f.data| > 0 {
        flow.Received(|f.data|);
      }
      if f.fin {
        EndReceived(end);
      }
      code := Ok;
    }

    /** The FIN part of `nxp_stream_on_recv`. */
    method EndReceived(end: nat)
      requires Valid()
      modifies this`finReceived, this`finOffset, this`phase
      ensures Valid()
      ensures var s := old(View());
              View() == s.(recv := s.recv.(finReceived := true, finOffset := end),
                           phase := if s.phase.Open? then SetPhase(s.phase, HalfClosedRemote)
                                    else if s.phase.HalfClosedLocal? then SetPhase(s.phase, Closed) else s.phase)
    {
      hide Circular.HoldsLap;
      finReceived, finOffset := true, end;
      if phase.Open? {
        phase := SetPhase(phase, HalfClosedRemote);
      } else if phase.HalfClosedLocal? {
        phase := SetPhase(phase, Closed);
      }
    }

    /**
     * `nxp_stream_on_ack`, of any range: never takes acknowledged bytes back, and leaves what is held and what is
     * due.
     */
    method Acknowledge(offset: nat, len: nat, last: bool)
      requires Valid()
      modifies this`ackedOffset, this`finAcked, this`phase
      ensures Valid() && View() == OnAckFrame(old(View()), offset, len, last)
      ensures ackedOffset >= old(ackedOffset) && ackedOffset >= offset + len && Unsent(View()) == old(Unsent(View()))
      ensures ackedOffset == old(ackedOffset) || ackedOffset == offset + len
    {
      hide Circular.HoldsLap;
      if offset + len > ackedOffset {
        ackedOffset := offset + len;
      }
      if last {
        finAcked := true;
        if phase.HalfClosedRemote? {
          phase := SetPhase(phase, Closed);
        } else if phase.Open? {
          phase := SetPhase(phase, HalfClosedLocal);
        }
      }
    }

    /**
     * `nxp_stream_on_loss`, of any range: everything from the lost byte on is due again, and nothing that was due
     * is forgotten.
     */
    method Rewind(offset: nat, last: bool)
      requires Valid()
      modifies this`sentOffset, this`finSent
      ensures Valid() && View() == OnLossFrame(old(View()), offset, last)
      ensures Unsent(View()) >= old(Unsent(View())) &&
              (offset <= writeOffset ==> Unsent(View()) >= writeOffset - offset)
      ensures last && fin ==> HasWork(View())
    {
      hide Circular.HoldsLap;
      if offset < sentOffset {
        sentOffset := offset;
      }
      if last {
        finSent := false;
      }
    }
  }
}
