/**
 * The sending side of a connection: application writes, retransmission after loss, and the loop that packs
 * STREAM frames into a packet (src/core/connection.c), for streams without a per-stream rate limit.
 */
module SendPath {
  import opened Bytes
  import opened FlowControl
  import opened Scheduler
  import opened Streams
  import Frames
  import Varint

  const MAX_STREAM_FRAMES := 8
  const FRAME_OVERHEAD := 20

  /** The size of a STREAM frame on the wire, or 0 when it does not fit: `nxp_frame_encode_stream`. */
  function EncodedSize(f: Frames.StreamFrame, space: nat): (n: nat)
    ensures n <= space
  {
    var frame := Frames.Stream(f);
    if Frames.Encodable(frame) && |Frames.Encode(frame)| <= space then |Frames.Encode(frame)| else 0
  }

  ghost function TotalSize(fs: seq<Frames.StreamFrame>): (n: nat)
    requires AllEncodable(fs)
  {
    if fs == [] then 0 else TotalSize(fs[..|fs| - 1]) + |Frames.Encode(Frames.Stream(fs[|fs| - 1]))|
  }

  ghost function TotalData(fs: seq<Frames.StreamFrame>): (n: nat)
  {
    if fs == [] then 0 else TotalData(fs[..|fs| - 1]) + |fs[|fs| - 1].data|
  }

  // ---------- What packing does to the streams ----------

  /** How much data a frame may take: what the packet has room for, within the connection's credit. */
  function MaxData(avail: nat, f: Flow): (n: nat)
    ensures CanSend(f, n) || n == 0
    ensures n + 20 <= avail || n == 0
    ensures n + 20 >= avail || f.dataSent + n >= f.peerMaxData
  {
    Min(if avail > FRAME_OVERHEAD then avail - FRAME_OVERHEAD else 0,
        if f.peerMaxData > f.dataSent then f.peerMaxData - f.dataSent else 0)
  }

  /** A stream after its next frame of at most `m` bytes was packed. */
  function Taken(s: Stream, m: nat): (r: Stream)
    requires |s.send.data| > 0
    ensures r.send.data == s.send.data
    ensures r.flow.dataSent == s.flow.dataSent + if HasWork(s) then FrameLength(s, m) else 0
  {
    match FillFrame(s, m)
    case None => s
    case Some((s', f)) => s'.(flow := OnSend(s'.flow, |f.data|))
  }

  /** A frame that cannot be encoded leaves no trace: rewinding undoes filling. */
  lemma RewindUndoesFill(s: Stream, m: nat)
    requires |s.send.data| > 0 && HasWork(s)
    ensures var (s', f) := FillFrame(s, m).value; OnLossFrame(s', f.offset, f.fin) == s
  {
  }

  type Snapshot = map<SchedStream, Stream>

  /** The stream served, and the most data its frame may take. */
  datatype Step = Step(s: SchedStream, m: nat)

  ghost predicate Possible(streams: Snapshot, step: Step)
  {
    step.s in streams && |streams[step.s].send.data| > 0 && HasWork(streams[step.s])
  }

  ghost function PlayOne(streams: Snapshot, step: Step): (r: Snapshot)
  {
    if Possible(streams, step) then streams[step.s := Taken(streams[step.s], step.m)] else streams
  }

  ghost function Play(streams: Snapshot, steps: seq<Step>): (r: Snapshot)
  {
    if steps == [] then streams else PlayOne(Play(streams, steps[..|steps| - 1]), steps[|steps| - 1])
  }

  /** The frames are, one by one, the next frames of the streams served, each as the frames before have left it. */
  ghost predicate FramesOf(streams: Snapshot, steps: seq<Step>, frames: seq<Frames.StreamFrame>)
  {
    && |steps| == |frames|
    && forall i :: 0 <= i < |steps| ==> IsNextFrame(Play(streams, steps[..i]), steps[i], frames[i])
  }

  ghost predicate IsNextFrame(streams: Snapshot, step: Step, f: Frames.StreamFrame)
  {
    Possible(streams, step) && FillFrame(streams[step.s], step.m).value.1 == f
  }

  lemma PlayedMore(streams: Snapshot, steps: seq<Step>, frames: seq<Frames.StreamFrame>, step: Step,
                   f: Frames.StreamFrame)
    requires FramesOf(streams, steps, frames) && IsNextFrame(Play(streams, steps), step, f)
    ensures FramesOf(streams, steps + [step], frames + [f])
    ensures Play(streams, steps + [step]) == PlayOne(Play(streams, steps), step)
  {
    hide IsNextFrame, PlayOne;
    var steps' := steps + [step];
    assert steps'[..|steps|] == steps;
    assert Play(streams, steps') == PlayOne(Play(streams, steps), step);
    hide Play;
    forall i | 0 <= i < |steps'| ensures IsNextFrame(Play(streams, steps'[..i]), steps'[i], (frames + [f])[i]) {
      if i < |steps| {
        assert steps'[..i] == steps[..i];
        assert IsNextFrame(Play(streams, steps[..i]), steps[i], frames[i]);
      }
    }
  }

  /** The next frame of at most `m` bytes has an encoding that fits in `avail` bytes. */
  ghost predicate NextFits(s: Stream, m: nat, avail: nat)
    requires |s.send.data| > 0 && HasWork(s)
  {
    var frame := Frames.Stream(FillFrame(s, m).value.1);
    Frames.Encodable(frame) && |Frames.Encode(frame)| <= avail
  }

  /** Fills the next frame of a stream and encodes it; rewinds the stream when the frame does not fit. */
  method FillAndEncode(s: Stream, maxData: nat, avail: nat) returns (s': Stream, r: Round)
    requires |s.send.data| > 0
    ensures r.Skipped? <==> !HasWork(s)
    ensures r.Packed? ==> FitsIn(r, avail) && HasWork(s) && FillFrame(s, maxData).value.1 == r.frame
    ensures r.Packed? <==> HasWork(s) && NextFits(s, maxData, avail)
    ensures s' == if r.Packed? then Taken(s, maxData) else s
  {
    hide FillFrame, EncodedSize, Frames.Encodable, Frames.Encode, Unsent, HasWork;
    Filling(s, maxData);
    var filled := FillFrame(s, maxData);
    if filled.None? {
      return s, Skipped;
    }
    RewindUndoesFill(s, maxData);
    var frame := filled.value.1;
    s' := filled.value.0;
    var n := EncodedSize(frame, avail);
    Encoding(frame, avail);
    if n == 0 {
      s' := OnLossFrame(s', frame.offset, frame.fin);
      return s', Stopped;
    }
    s' := s'.(flow := OnSend(s'.flow, |frame.data|));
    r := Packed(frame, n);
  }

  class Connection {
    const sched: RoundRobin
    const flow: FlowCtrl

    ghost predicate Valid()
      reads this, flow, sched, sched.streams, sched.queue
    {
      && sched.Valid() && flow.Valid()
      && (forall s :: s in sched.streams ==> |s.stream.send.data| > 0)
      && NoneForgotten()
    }

    /** No stream with unsent bytes is outside the scheduler. */
    ghost predicate NoneForgotten()
      reads this, sched, sched.streams
    {
      forall s :: s in sched.streams && Unsent(s.stream) > 0 ==> s in sched.queue
    }

    ghost function Streams(): (m: Snapshot)
      reads sched`streams, sched.streams`stream
    {
      map s | s in sched.streams :: s.stream
    }

    constructor (localMax: nat, peerMax: nat)
      ensures Valid() && fresh(sched) && fresh(flow) && sched.streams == {} && flow.View() == Init(localMax, peerMax)
    {
      sched := new RoundRobin();
      flow := new FlowCtrl(localMax, peerMax);
    }

    /** A stream joins the connection: `nxp_conn_open_stream`, or the first frame of a remote stream. */
    method Open(s: SchedStream)
      requires Valid() && s !in sched.streams && !s.scheduled && Unsent(s.stream) == 0 && |s.stream.send.data| > 0
      modifies sched`streams
      ensures Valid() && sched.streams == old(sched.streams) + {s}
    {
      sched.streams := sched.streams + {s};
    }

    /** `nxp_conn_stream_send`: a stream is scheduled when some of the data was accepted. */
    method StreamSend(s: SchedStream, d: Bytes, fin: bool) returns (accepted: Option<nat>)
      requires Valid() && s in sched.streams
      modifies s, sched`head, sched`queue, sched.streams`schedNext, sched.streams`schedPrev
      ensures Valid()
      ensures accepted == Accepts(old(s.stream), d) && s.stream == Write(old(s.stream), d, fin)
      ensures sched.queue == if accepted.Some? && accepted.value > 0 && s !in old(sched.queue)
                             then old(sched.queue) + [s]
                             else old(sched.queue)
      // A pending FIN is left unscheduled exactly when it comes without any accepted data.
      ensures old(HasWork(s.stream) ==> s in sched.queue) ==>
                ((HasWork(s.stream) ==> s in sched.queue) <==>
                 !(fin && Accepts(old(s.stream), d) == Some(0) && old(s !in sched.queue && !s.stream.send.finSent)))
    {
      hide RoundRobin.Valid, Accepts;
      Writing(s.stream, d, fin);
      accepted := Accepts(s.stream, d);
      s.stream := Write(s.stream, d, fin);
      if accepted.Some? && accepted.value > 0 {
        sched.Add(s);
      }
    }

    /**
     * Such a call: an empty write with FIN on a fresh stream leaves the FIN pending and the stream out of the
     * queue.
     */
    method FinAlone(s: SchedStream)
      requires Valid() && s in sched.streams && s !in sched.queue && CanWrite(s.stream) && !s.stream.send.finSent
      modifies s, sched`head, sched`queue, sched.streams`schedNext, sched.streams`schedPrev
      ensures Valid() && HasWork(s.stream) && s !in sched.queue
    {
      hide RoundRobin.Valid, Write;
      NothingAccepted(s.stream);
      var accepted := StreamSend(s, [], true);
    }

    /** The stream part of `on_packet_lost`: rewind and reschedule. */
    method StreamLost(s: SchedStream, offset: nat, fin: bool)
      requires Valid() && s in sched.streams
      modifies s, sched`head, sched`queue, sched.streams`schedNext, sched.streams`schedPrev
      ensures Valid()
      ensures s.stream == OnLossFrame(old(s.stream), offset, fin)
      ensures s in sched.queue
    {
      s.stream := OnLossFrame(s.stream, offset, fin);
      sched.Add(s);
    }

    /** The handling of MAX_STREAM_DATA. */
    method StreamCredit(s: SchedStream, limit: nat)
      requires Valid() && s in sched.streams
      modifies s, sched`head, sched`queue, sched.streams`schedNext, sched.streams`schedPrev
      ensures Valid()
      ensures s.stream == old(s.stream).(flow := SetPeerMax(old(s.stream.flow), limit))
    {
      s.stream := s.stream.(flow := SetPeerMax(s.stream.flow, limit));
      if Unsent(s.stream) > 0 {
        sched.Add(s);
      }
    }

    /** Packs a frame of the stream that is being served: its next frame, or nothing at all. */
    method PackFrom(s: SchedStream, avail: nat) returns (r: Round)
      requires Valid() && s in sched.streams && (HasWork(s.stream) ==> s in sched.queue)
      modifies flow`dataSent, s`stream
      ensures Valid()
      ensures r.Packed? ==> FitsIn(r, avail)
      ensures r.Packed? ==>
        var step := Step(s, MaxData(avail, old(flow.View())));
        IsNextFrame(old(Streams()), step, r.frame) && Streams() == PlayOne(old(Streams()), step)
      ensures !r.Packed? ==> Streams() == old(Streams())
      ensures flow.View() == if r.Packed? then OnSend(old(flow.View()), |r.frame.data|) else old(flow.View())
      ensures r.Skipped? <==> !old(HasWork(s.stream))
      ensures !r.Packed? ==> s.stream == old(s.stream)
      ensures r.Packed? <==> old(HasWork(s.stream) && NextFits(s.stream, MaxData(avail, flow.View()), avail))
    {
      hide RoundRobin.Valid, FillFrame, Taken, FitsIn, Unsent, HasWork, Streams, NextFits;
      var maxData := if avail > FRAME_OVERHEAD then avail - FRAME_OVERHEAD else 0;
      var credit := if flow.peerMaxData > flow.dataSent then flow.peerMaxData - flow.dataSent else 0;
      if maxData > credit {
        maxData := credit;
      }
      Listed(s);
      var after;
      after, r := FillAndEncode(s.stream, maxData, avail);
      if r.Skipped? {
        return;
      }
      SetStream(s, after);
      if r.Packed? {
        flow.Sent(|r.frame.data|);
      }
    }

    lemma Listed(s: SchedStream)
      requires s in sched.streams
      ensures s in Streams() && Streams()[s] == s.stream && Streams()[s := s.stream] == Streams()
    {
    }

    method SetStream(s: SchedStream, after: Stream)
      requires Valid() && s in sched.queue && s in sched.streams && |after.send.data| > 0
      modifies s`stream
      ensures Valid() && s.stream == after && Streams() == old(Streams())[s := after]
    {
      hide RoundRobin.Valid, Unsent;
      s.stream := after;
    }

    /** A stream that has to wait: unsent bytes without connection credit, or a next frame that does not fit. */
    ghost predicate Blocked(s: SchedStream, avail: nat)
      reads flow, s
    {
      || (Unsent(s.stream) > 0 && flow.dataSent >= flow.peerMaxData)
      || (HasWork(s.stream) && |s.stream.send.data| > 0 && !NextFits(s.stream, MaxData(avail, flow.View()), avail))
    }

    /** One round of the packing loop, with `avail` bytes left in the packet: it serves the front of the queue. */
    method PackNext(avail: nat) returns (r: Round)
      requires Valid()
      modifies flow`dataSent, sched`head, sched`queue, sched.streams
      ensures Valid()
      ensures r.Packed? ==> FitsIn(r, avail) && old(sched.queue) != []
      ensures r.Packed? ==>
        var step := Step(old(sched.queue)[0], MaxData(avail, old(flow.View())));
        IsNextFrame(old(Streams()), step, r.frame) && Streams() == PlayOne(old(Streams()), step)
      ensures !r.Packed? ==> Streams() == old(Streams())
      ensures flow.View() == if r.Packed? then OnSend(old(flow.View()), |r.frame.data|) else old(flow.View())
      ensures r.Skipped? ==> |sched.queue| < |old(sched.queue)|
      // When it stops, and when it serves a stream without work.
      ensures r.Stopped? <==> old(sched.queue) == [] || old(Blocked(sched.queue[0], avail))
      ensures r.Stopped? ==> if old(sched.queue) == [] then sched.queue == []
                             else old(sched.queue)[0] in sched.streams && Blocked(old(sched.queue)[0], avail)
      ensures r.Skipped? <==> old(sched.queue) != [] && !old(HasWork(sched.queue[0].stream))
      ensures old(sched.queue != [] && Ready(sched.queue[0].stream, flow.View(), avail)) ==>
              r.Packed? && |r.frame.data| > 0
    {
      hide Valid, Streams, FitsIn, MaxData, IsNextFrame, PlayOne, HasWork, NextFits, Ready, FillFrame;
      ghost var ready := sched.queue != [] && Ready(sched.queue[0].stream, flow.View(), avail);
      if ready {
        ReadyFront(avail);
      }
      ghost var now, m := Streams(), MaxData(avail, flow.View());
      var s := Serve();
      if s == null {
        return Stopped;
      }
      UnsentIsWork(s.stream);
      if Unsent(s.stream) > 0 && !flow.MaySend(1) {
        return Stopped;
      }
      r := PackFrom(s, avail);
      if r.Packed? {
        NextFrame(now, Step(s, m), r.frame);
        Requeue(s);
      }
    }

    /** `nxp_sched_next`, seen from the connection. */
    method Serve() returns (s: SchedStream?)
      requires Valid()
      modifies sched`head, sched`queue, sched.streams`schedNext, sched.streams`schedPrev, sched.streams`scheduled
      ensures Valid() && (s == null <==> old(sched.queue) == [])
      ensures s != null ==> s == old(sched.queue)[0] && s in sched.streams && (HasWork(s.stream) ==> s in sched.queue)
      ensures s != null && !HasWork(s.stream) ==> |sched.queue| < |old(sched.queue)|
      ensures s != null ==> |s.stream.send.data| > 0
      ensures s == null ==> sched.queue == []
    {
      hide RoundRobin.Valid;
      s := sched.Next();
    }

    method Requeue(s: SchedStream)
      requires Valid() && s in sched.streams
      modifies s`scheduled, sched`head, sched`queue, sched.streams`schedNext, sched.streams`schedPrev
      ensures Valid()
    {
      hide RoundRobin.Valid;
      if HasWork(s.stream) {
        sched.Add(s);
      }
    }

    /**
     * The frame-packing loop of `nxp_conn_send`.  It ends because every round either packs one of at most
     * eight frames or takes a stream without work out of the scheduler; it stays within the packet and
     * within the connection's credit, and forgets no stream with unsent bytes.  The frames it packs are the
     * next frames of the streams served, and no other stream changes.  It ends for one of four reasons only, and
     * a front stream with unsent bytes, credit and room for one byte sends at least that byte.
     */
    method PackStreams(frameSpace: nat, start: nat)
      returns (frames: seq<Frames.StreamFrame>, pos: nat, ghost steps: seq<Step>, ghost why: Reason)
      requires Valid() && start <= frameSpace
      modifies flow`dataSent, sched`head, sched`queue, sched.streams
      ensures Valid()
      ensures |frames| <= MAX_STREAM_FRAMES && start <= pos <= frameSpace
      ensures flow.View() == old(flow.View()).(dataSent := flow.dataSent)
      ensures Packing(old(Streams()), steps, frames, Streams(), pos - start, flow.dataSent - old(flow.dataSent))
      ensures old(flow.dataSent) <= old(flow.peerMaxData) ==> flow.dataSent <= flow.peerMaxData
      ensures match why
        case EnoughFrames => |frames| == MAX_STREAM_FRAMES
        case PacketFull => pos == frameSpace
        case NothingScheduled => sched.queue == [] && forall s :: s in sched.streams ==> Unsent(s.stream) == 0
        case Waiting(s) => s in sched.streams && Blocked(s, frameSpace - pos)
      ensures old(sched.queue != [] && Ready(sched.queue[0].stream, flow.View(), frameSpace - start)) ==>
              frames != [] && |frames[0].data| > 0
    {
      hide Frames.Encodable, Frames.Encode, Valid, Packing, PlayOne, IsNextFrame, Streams, Blocked, Ready, MaxData,
        FillFrame, Unsent;
      frames, pos, steps := [], start, [];
      ghost var before := Streams();
      ghost var ready := sched.queue != [] && Ready(sched.queue[0].stream, flow.View(), frameSpace - start);
      StartPacking(before);
      while pos < frameSpace && |frames| < MAX_STREAM_FRAMES
        invariant Valid()
        invariant |frames| <= MAX_STREAM_FRAMES && start <= pos <= frameSpace
        invariant flow.View() == old(flow.View()).(dataSent := flow.dataSent)
        invariant Packing(before, steps, frames, Streams(), pos - start, flow.dataSent - old(flow.dataSent))
        invariant old(flow.dataSent) <= old(flow.peerMaxData) ==> flow.dataSent <= flow.peerMaxData
        invariant ready && frames == [] ==>
                    sched.queue != [] && Ready(sched.queue[0].stream, flow.View(), frameSpace - pos)
        invariant ready && frames != [] ==> |frames[0].data| > 0
        decreases MAX_STREAM_FRAMES - |frames|, |sched.queue|
      {
        ghost var queue, m := sched.queue, MaxData(frameSpace - pos, flow.View());
        ghost var now, data := Streams(), flow.dataSent - old(flow.dataSent);
        var r := PackNext(frameSpace - pos);
        if r.Stopped? {
          why := if queue == [] then NothingScheduled else Waiting(queue[0]);
          if queue == [] {
            AllSent();
          }
          return;
        }
        if r.Packed? {
          PackOne(before, steps, frames, now, pos - start, data, Step(queue[0], m), r.frame);
          pos := pos + r.size;
          frames, steps := frames + [r.frame], steps + [Step(queue[0], m)];
        }
      }
      if ready && frames == [] {
        RoomWhenReady(sched.queue[0].stream, flow.View(), frameSpace - pos);
      }
      why := if pos < frameSpace then EnoughFrames else PacketFull;
    }

    lemma ReadyFront(avail: nat)
      requires Valid() && sched.queue != [] && Ready(sched.queue[0].stream, flow.View(), avail)
      ensures sched.queue[0] in sched.streams && |sched.queue[0].stream.send.data| > 0
      ensures !Blocked(sched.queue[0], avail) && HasWork(sched.queue[0].stream)
      ensures sched.queue[0] in Streams() && Streams()[sched.queue[0]] == sched.queue[0].stream
      ensures |FillFrame(sched.queue[0].stream, MaxData(avail, flow.View())).value.1.data| > 0
    {
      ReadyIsServed(sched.queue[0].stream, flow.View(), avail);
    }

    lemma AllSent()
      requires Valid() && sched.queue == []
      ensures forall s :: s in sched.streams ==> Unsent(s.stream) == 0
    {
    }
  }

  /** Why the packing loop ended. */
  datatype Reason = EnoughFrames | PacketFull | NothingScheduled | Waiting(s: SchedStream)

  /** Unsent bytes, connection credit, room for the header of a frame and a byte, in a packet of ordinary size. */
  ghost predicate Ready(s: Stream, f: Flow, avail: nat)
  {
    && Unsent(s) > 0 && f.dataSent < f.peerMaxData && 20 < avail <= 20 + 16383
    && s.id <= Varint.MAX && s.send.sentOffset <= Varint.MAX
  }

  lemma RoomWhenReady(s: Stream, f: Flow, avail: nat)
    requires Ready(s, f, avail)
    ensures avail > 0
  {
  }

  lemma ReadyIsServed(s: Stream, f: Flow, avail: nat)
    requires |s.send.data| > 0 && Ready(s, f, avail)
    ensures HasWork(s) && NextFits(s, MaxData(avail, f), avail)
    ensures |FillFrame(s, MaxData(avail, f)).value.1.data| > 0
  {
    hide Frames.Encode, Frames.Encodable;
    Frames.StreamHeaderSize(FillFrame(s, MaxData(avail, f)).value.1);
  }

  datatype Round = Stopped | Skipped | Packed(frame: Frames.StreamFrame, size: nat)

  ghost predicate AllEncodable(fs: seq<Frames.StreamFrame>)
  {
    forall i :: 0 <= i < |fs| ==> Frames.Encodable(Frames.Stream(fs[i]))
  }

  predicate FitsIn(r: Round, avail: nat)
    requires r.Packed?
  {
    0 < r.size <= avail && Frames.Encodable(Frames.Stream(r.frame)) && r.size == |Frames.Encode(Frames.Stream(r.frame))|
  }

  lemma WithinLimit(streams: Snapshot, step: Step, f: Frames.StreamFrame)
    requires IsNextFrame(streams, step, f)
    ensures |f.data| <= step.m
  {
  }

  lemma NextFrame(streams: Snapshot, step: Step, f: Frames.StreamFrame)
    requires IsNextFrame(streams, step, f)
    ensures step.s in streams && |streams[step.s].send.data| > 0 && FillFrame(streams[step.s], step.m).Some?
    ensures f == FillFrame(streams[step.s], step.m).value.1
  {
  }

  /**
   * What packing has done: the frames are the next frames of the streams served, one after the other, and take
   * `size` bytes with `data` bytes of stream data; no other stream has changed.
   */
  ghost predicate Packing(before: Snapshot, steps: seq<Step>, frames: seq<Frames.StreamFrame>, now: Snapshot,
                          size: int, data: int)
  {
    && AllEncodable(frames) && TotalSize(frames) == size && TotalData(frames) == data
    && FramesOf(before, steps, frames) && now == Play(before, steps)
  }

  lemma StartPacking(streams: Snapshot)
    ensures Packing(streams, [], [], streams, 0, 0)
  {
  }

  lemma PackOne(before: Snapshot, steps: seq<Step>, frames: seq<Frames.StreamFrame>, now: Snapshot, size: int,
                data: int, step: Step, f: Frames.StreamFrame)
    requires Packing(before, steps, frames, now, size, data)
    requires IsNextFrame(now, step, f) && Frames.Encodable(Frames.Stream(f))
    ensures |f.data| <= step.m
    ensures Packing(before, steps + [step], frames + [f], PlayOne(now, step),
                    size + |Frames.Encode(Frames.Stream(f))|, data + |f.data|)
  {
    hide Frames.Encodable, Frames.Encode, TotalSize, TotalData, AllEncodable, FramesOf, Play, IsNextFrame;
    WithinLimit(now, step, f);
    PackedMore(frames, f);
    PlayedMore(before, steps, frames, step, f);
  }

  lemma PackedMore(fs: seq<Frames.StreamFrame>, f: Frames.StreamFrame)
    requires AllEncodable(fs) && Frames.Encodable(Frames.Stream(f))
    ensures AllEncodable(fs + [f])
    ensures TotalSize(fs + [f]) == TotalSize(fs) + |Frames.Encode(Frames.Stream(f))|
    ensures TotalData(fs + [f]) == TotalData(fs) + |f.data|
  {
    hide Frames.Encodable, Frames.Encode;
    assert (fs + [f])[..|fs|] == fs;
  }

  lemma Encoding(f: Frames.StreamFrame, space: nat)
    ensures var n := EncodedSize(f, space);
            && (n > 0 <==> Frames.Encodable(Frames.Stream(f)) && |Frames.Encode(Frames.Stream(f))| <= space)
            && (n > 0 ==> n == |Frames.Encode(Frames.Stream(f))|)
  {
    hide Frames.Fields, Frames.Tail;
    if Frames.Encodable(Frames.Stream(f)) {
      NotEmpty(f);
    }
  }

  lemma NotEmpty(f: Frames.StreamFrame)
    requires Frames.Encodable(Frames.Stream(f))
    ensures |Frames.Encode(Frames.Stream(f))| > 0
  {
    hide Frames.Tail, Varint.Encode;
  }

  /** What packing needs to know about a filled frame. */
  lemma Filling(s: Stream, maxLen: nat)
    requires |s.send.data| > 0
    ensures FillFrame(s, maxLen).None? <==> !HasWork(s)
    ensures var r := FillFrame(s, maxLen);
            r.Some? ==> |r.value.1.data| <= maxLen && r.value.0.send.data == s.send.data
  {
  }

  lemma UnsentIsWork(s: Stream)
    ensures Unsent(s) > 0 ==> HasWork(s)
  {
  }

  lemma NothingAccepted(s: Stream)
    requires CanWrite(s) && |s.send.data| > 0 && !s.send.finSent
    ensures Accepts(s, []) == Some(0) && HasWork(Write(s, [], true))
  {
  }

  lemma Writing(s: Stream, d: Bytes, fin: bool)
    requires |s.send.data| > 0
    ensures var s', n := Write(s, d, fin), Accepts(s, d);
            && |s'.send.data| == |s.send.data|
            && (n.None? ==> s' == s)
            && (n == Some(0) ==> Unsent(s') == Unsent(s))
            && (n == Some(0) ==> s'.send.fin == (s.send.fin || fin) && s'.send.finSent == s.send.finSent && !s.send.fin)
  {
  }
}
