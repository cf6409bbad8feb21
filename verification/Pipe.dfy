/**
 * Two endpoints of a stream joined by a network that loses, duplicates and reorders frames.
 *
 * Each endpoint keeps what its application wrote and read and every frame it ever produced; delivery,
 * acknowledgement and loss may name any such frame, any number of times.  The two conditions under which the
 * code keeps the stream intact are `Fits`, on deliveries, and `StillHeld`, on what is sent next; the last
 * two sections show that both are exact.
 */
module Pipe {
  import opened Bytes
  import opened Streams
  import Circular
  import Frames
  import FlowControl

  datatype Endpoint = Endpoint(stream: Stream, written: Bytes, delivered: Bytes, finSeen: bool,
                               sent: set<Frames.StreamFrame>)

  datatype Net = Net(a: Endpoint, b: Endpoint)

  datatype Action =
    | AppWrite(d: Bytes, fin: bool)
    | SendFrame(maxLen: nat)
    | Deliver(f: Frames.StreamFrame)
    | Acked(f: Frames.StreamFrame)
    | Lost(f: Frames.StreamFrame)
    | AppRead(len: nat)
    | PeerMaxStreamData(limit: nat)

  // ---------- What the network may do ----------

  /** The frame leaves no gap after the data received so far, and ends within the receive buffer. */
  predicate Fits(recv: RecvBuf, f: Frames.StreamFrame)
  {
    FrameOffset(f) <= recv.recvOffset && FrameEnd(f) <= recv.readOffset + |recv.data|
  }

  /** The next byte to be sent has not been overwritten by bytes written since. */
  predicate StillHeld(send: SendBuf)
  {
    send.writeOffset <= send.sentOffset + |send.data|
  }

  /** Whether endpoint `x` with peer `y` can take the action. */
  predicate Enabled(x: Endpoint, y: Endpoint, act: Action)
  {
    match act
    case Deliver(f) => f in y.sent && Fits(x.stream.recv, f) && |f.data| <= |x.stream.recv.data|
    case SendFrame(_) => StillHeld(x.stream.send)
    case Acked(f) => f in x.sent
    case Lost(f) => f in x.sent
    case AppRead(_) => x.stream.recv.recvOffset <= x.stream.recv.readOffset + |x.stream.recv.data|
    case _ => true
  }

  /** Endpoint `x` after the action. */
  function Act(x: Endpoint, act: Action): (x': Endpoint)
    requires 0 < |x.stream.send.data| && 0 < |x.stream.recv.data|
    requires act.Deliver? ==> |act.f.data| <= |x.stream.recv.data|
    requires act.AppRead? ==> x.stream.recv.recvOffset <= x.stream.recv.readOffset + |x.stream.recv.data|
  {
    match act
    case AppWrite(d, fin) =>
      var n := Accepts(x.stream, d);
      x.(stream := Write(x.stream, d, fin), written := x.written + if n.Some? then d[..n.value] else [])
    case SendFrame(maxLen) =>
      var r := FillFrame(x.stream, maxLen);
      if r.None? then x else x.(stream := r.value.0, sent := x.sent + {r.value.1})
    case Deliver(f) =>
      var r := OnRecvFrame(x.stream, f);
      if r.Accepted? then x.(stream := r.s) else x
    case Acked(f) => x.(stream := OnAckFrame(x.stream, FrameOffset(f), |f.data|, f.fin))
    case Lost(f) => x.(stream := OnLossFrame(x.stream, FrameOffset(f), f.fin))
    case AppRead(len) =>
      var (stream, bytes, fin) := Read(x.stream, len);
      x.(stream := stream, delivered := x.delivered + bytes, finSeen := x.finSeen || fin)
    case PeerMaxStreamData(limit) => x.(stream := x.stream.(flow := FlowControl.SetPeerMax(x.stream.flow, limit)))
  }

  // ---------- The invariant, one direction at a time ----------

  ghost predicate SenderIntact(x: Endpoint)
  {
    var s := x.stream.send;
    && s.writeOffset == |x.written| && s.sentOffset <= s.writeOffset
    && Circular.HoldsLap(s.data, x.written)
  }

  /** Every frame ever produced is a piece of what was written, and a FIN marks its end. */
  ghost predicate FrameGenuine(f: Frames.StreamFrame, written: Bytes, fin: bool)
  {
    && FrameEnd(f) <= |written| && f.data == written[FrameOffset(f)..FrameEnd(f)]
    && (f.fin ==> fin && FrameEnd(f) == |written|)
  }

  ghost predicate ReceiverIntact(y: Endpoint, written: Bytes, fin: bool)
  {
    var r := y.stream.recv;
    && Circular.Buffers(r.data, written, r.readOffset, r.recvOffset)
    && y.delivered == written[..r.readOffset]
    && (r.finReceived ==> fin && r.finOffset == r.recvOffset == |written|)
    && (y.finSeen ==> fin && y.delivered == written)
  }

  ghost predicate Intact(x: Endpoint, y: Endpoint)
  {
    && SenderIntact(x)
    && (forall f :: f in x.sent ==> FrameGenuine(f, x.written, x.stream.send.fin))
    && ReceiverIntact(y, x.written, x.stream.send.fin)
  }

  ghost predicate Inv(n: Net)
  {
    Intact(n.a, n.b) && Intact(n.b, n.a)
  }

  // ---------- Sender steps ----------

  /** What the receiving side and the frames in flight say about the written bytes survives more of them. */
  lemma MoreWritten(x: Endpoint, y: Endpoint, written: Bytes, fin: bool)
    requires Intact(x, y) && x.written <= written && (x.stream.send.fin ==> fin && written == x.written)
    ensures forall f :: f in x.sent ==> FrameGenuine(f, written, fin)
    ensures ReceiverIntact(y, written, fin)
  {
    var r := y.stream.recv;
    Circular.BuffersMore(r.data, x.written, written, r.readOffset, r.readOffset, r.recvOffset);
    assert written[..|x.written|] == x.written;
    forall f | f in x.sent ensures FrameGenuine(f, written, fin) {
      assert written[FrameOffset(f)..FrameEnd(f)] == x.written[FrameOffset(f)..FrameEnd(f)];
    }
  }

  lemma WriteKeeps(x: Endpoint, y: Endpoint, d: Bytes, fin: bool)
    requires Intact(x, y) && 0 < |x.stream.recv.data|
    ensures 0 < |x.stream.send.data| && Intact(Act(x, AppWrite(d, fin)), y)
  {
    hide Circular.HoldsLap, Circular.Put, ReceiverIntact, FrameGenuine, Room;
    BufferNonEmpty(x);
    var n := Accepts(x.stream, d);
    if n.Some? {
      var x' := Act(x, AppWrite(d, fin));
      Circular.PutKeepsLap(x.stream.send.data, x.written, d[..n.value]);
      MoreWritten(x, y, x'.written, x'.stream.send.fin);
    } else {
      assert x.written + [] == x.written;
    }
  }

  lemma BufferNonEmpty(x: Endpoint)
    requires SenderIntact(x)
    ensures 0 < |x.stream.send.data|
  {
  }

  lemma SendKeeps(x: Endpoint, y: Endpoint, maxLen: nat)
    requires Intact(x, y) && 0 < |x.stream.recv.data| && StillHeld(x.stream.send)
    ensures 0 < |x.stream.send.data| && Intact(Act(x, SendFrame(maxLen)), y)
  {
    hide Circular.HoldsLap, ReceiverIntact;
    BufferNonEmpty(x);
    var r := FillFrame(x.stream, maxLen);
    if r.Some? {
      var s, f := x.stream.send, r.value.1;
      FilledBytes(x.stream, x.written, maxLen);
      assert FrameOffset(f) == s.sentOffset && FrameGenuine(f, x.written, s.fin);
    }
  }

  /** The bytes a frame takes straight out of the send buffer are the written ones. */
  lemma FilledBytes(s: Stream, written: Bytes, maxLen: nat)
    requires |s.send.data| > 0 && s.send.writeOffset == |written| && s.send.sentOffset <= |written|
    requires Circular.HoldsLap(s.send.data, written) && StillHeld(s.send)
    ensures var n, pos := FrameLength(s, maxLen), s.send.sentOffset % |s.send.data|;
            s.send.data[pos..pos + n] == written[s.send.sentOffset..s.send.sentOffset + n]
  {
    hide Circular.HoldsLap;
    Circular.GetFromLap(s.send.data, written, s.send.sentOffset, FrameLength(s, maxLen));
  }

  lemma AckKeeps(x: Endpoint, y: Endpoint, f: Frames.StreamFrame)
    requires Intact(x, y) && BuffersExist(x)
    ensures Intact(Act(x, Acked(f)), y)
  {
    hide Circular.HoldsLap, ReceiverIntact, FrameGenuine;
  }

  lemma LossKeeps(x: Endpoint, y: Endpoint, f: Frames.StreamFrame)
    requires Intact(x, y) && BuffersExist(x)
    ensures Intact(Act(x, Lost(f)), y)
  {
    hide Circular.HoldsLap, ReceiverIntact, FrameGenuine;
  }

  // ---------- Receiver steps ----------

  /** Copying in a genuine piece, without what was read before, keeps the buffer a window of the written bytes. */
  lemma PieceKeeps(ring: Bytes, written: Bytes, lo: nat, hi: nat, off: nat, end: nat)
    requires Circular.Buffers(ring, written, lo, hi)
    requires off <= hi && lo < end <= lo + |ring| && off <= end <= |written|
    ensures var start := Max(off, lo);
            Circular.Buffers(Circular.Put(ring, start, written[off..end][start - off..]), written, lo, Max(hi, end))
  {
    hide Circular.Put;
    var start := Max(off, lo);
    assert written[off..end][start - off..] == written[start..end];
    Circular.PutBuffers(ring, written, lo, hi, start, written[start..end]);
  }

  /** Absorbing a genuine frame that fits keeps the receive buffer a window of the written bytes. */
  lemma AbsorbKeeps(recv: RecvBuf, written: Bytes, f: Frames.StreamFrame, fin: bool)
    requires Circular.Buffers(recv.data, written, recv.readOffset, recv.recvOffset)
    requires FrameGenuine(f, written, fin) && Fits(recv, f) && |f.data| <= |recv.data|
    ensures var r := Absorb(recv, f);
            && Circular.Buffers(r.data, written, r.readOffset, r.recvOffset)
            && r == recv.(data := r.data, recvOffset := r.recvOffset)
            && FrameEnd(f) <= r.recvOffset && recv.recvOffset <= r.recvOffset
  {
    hide Circular.Put, Circular.Buffers;
    BuffersWithin(recv, written);
    if |f.data| > 0 && FrameEnd(f) > recv.readOffset {
      PieceKeeps(recv.data, written, recv.readOffset, recv.recvOffset, FrameOffset(f), FrameEnd(f));
    }
  }

  lemma DeliverKeeps(x: Endpoint, y: Endpoint, f: Frames.StreamFrame)
    requires Intact(y, x) && 0 < |x.stream.send.data| && 0 < |x.stream.recv.data|
    requires f in y.sent && Fits(x.stream.recv, f) && |f.data| <= |x.stream.recv.data|
    ensures Intact(y, Act(x, Deliver(f)))
  {
    hide Circular.Buffers, SenderIntact, Absorb;
    AbsorbKeeps(x.stream.recv, y.written, f, y.stream.send.fin);
    BuffersWithin(x.stream.recv, y.written);
    BuffersWithin(Absorb(x.stream.recv, f), y.written);
  }

  lemma BuffersWithin(recv: RecvBuf, written: Bytes)
    ensures Circular.Buffers(recv.data, written, recv.readOffset, recv.recvOffset) ==>
              0 < |recv.data| && recv.readOffset <= recv.recvOffset <= |written| &&
              recv.recvOffset - recv.readOffset <= |recv.data|
  {
  }

  lemma ReadKeeps(x: Endpoint, y: Endpoint, len: nat)
    requires Intact(y, x) && 0 < |x.stream.send.data|
    ensures 0 < |x.stream.recv.data| && Enabled(x, y, AppRead(len)) && Intact(y, Act(x, AppRead(len)))
  {
    hide Circular.Buffers, Circular.Get, SenderIntact, FrameGenuine;
    var r := x.stream.recv;
    BuffersWithin(r, y.written);
    var n := Available(x.stream, len);
    Circular.GetBuffered(r.data, y.written, r.readOffset, r.recvOffset, r.readOffset, n);
    Circular.BuffersMore(r.data, y.written, y.written, r.readOffset, r.readOffset + n, r.recvOffset);
    assert y.written[..r.readOffset] + y.written[r.readOffset..r.readOffset + n] == y.written[..r.readOffset + n];
    assert y.written[..|y.written|] == y.written;
  }

  // ---------- Whole runs ----------

  ghost predicate BuffersExist(x: Endpoint)
  {
    0 < |x.stream.send.data| && 0 < |x.stream.recv.data|
  }

  /** What an action at `x` does not touch: the other direction of the stream. */
  lemma OtherDirection(x: Endpoint, y: Endpoint, act: Action)
    requires Intact(x, y) && Intact(y, x) && BuffersExist(x) && Enabled(x, y, act)
    ensures act.Deliver? || act.AppRead? ==> Intact(Act(x, act), y)
    ensures !act.Deliver? && !act.AppRead? ==> Intact(y, Act(x, act))
    ensures BuffersExist(Act(x, act))
  {
    hide Act, Circular.Buffers, Circular.HoldsLap, FrameGenuine;
    if act.Deliver? || act.AppRead? {
      ReceivingOnly(x, act);
    } else {
      SendingOnly(x, act);
    }
  }

  lemma ReceivingOnly(x: Endpoint, act: Action)
    requires BuffersExist(x) && (act.Deliver? || act.AppRead?)
    requires act.Deliver? ==> |act.f.data| <= |x.stream.recv.data|
    requires act.AppRead? ==> x.stream.recv.recvOffset <= x.stream.recv.readOffset + |x.stream.recv.data|
    ensures var x' := Act(x, act);
            x'.stream.send == x.stream.send && x'.written == x.written && x'.sent == x.sent && BuffersExist(x')
  {
    hide Circular.Put, Circular.Get;
  }

  lemma SendingOnly(x: Endpoint, act: Action)
    requires BuffersExist(x) && !act.Deliver? && !act.AppRead?
    ensures var x' := Act(x, act);
            && x'.stream.recv == x.stream.recv && x'.delivered == x.delivered && x'.finSeen == x.finSeen
            && BuffersExist(x')
  {
    hide Circular.Put, Room, FrameLength;
  }

  lemma ActKeeps(x: Endpoint, y: Endpoint, act: Action)
    requires Intact(x, y) && Intact(y, x) && BuffersExist(x) && Enabled(x, y, act)
    ensures Intact(Act(x, act), y) && Intact(y, Act(x, act)) && BuffersExist(Act(x, act))
  {
    hide Intact;
    OtherDirection(x, y, act);
    match act
    case AppWrite(d, fin) => WriteKeeps(x, y, d, fin);
    case SendFrame(maxLen) => SendKeeps(x, y, maxLen);
    case Deliver(f) => DeliverKeeps(x, y, f);
    case Acked(f) => AckKeeps(x, y, f);
    case Lost(f) => LossKeeps(x, y, f);
    case AppRead(len) => ReadKeeps(x, y, len);
    case PeerMaxStreamData(limit) => LimitKeeps(x, y, limit);
  }

  lemma LimitKeeps(x: Endpoint, y: Endpoint, limit: nat)
    requires Intact(x, y) && BuffersExist(x)
    ensures Intact(Act(x, PeerMaxStreamData(limit)), y)
  {
    hide Circular.HoldsLap, ReceiverIntact, FrameGenuine;
  }

  /** An action at one of the two endpoints. */
  datatype Event = Event(atA: bool, act: Action)

  predicate StepEnabled(n: Net, e: Event)
  {
    if e.atA then Enabled(n.a, n.b, e.act) else Enabled(n.b, n.a, e.act)
  }

  ghost predicate IsStep(n: Net, e: Event, n': Net)
  {
    && BuffersExist(n.a) && BuffersExist(n.b) && StepEnabled(n, e)
    && n' == if e.atA then n.(a := Act(n.a, e.act)) else n.(b := Act(n.b, e.act))
  }

  ghost predicate IsRun(run: seq<Net>, events: seq<Event>)
  {
    |run| == |events| + 1 && forall i :: 0 <= i < |events| ==> IsStep(run[i], events[i], run[i + 1])
  }

  /** How one end creates its stream: the sizes of its buffers and its own two limits. */
  datatype Config = Config(sendCap: nat, recvCap: nat, maxSend: nat, maxRecv: nat)

  function Fresh(id: nat, c: Config): (x: Endpoint)
  {
    Endpoint(Create(id, c.sendCap, c.recvCap, c.maxSend, c.maxRecv), [], [], false, {})
  }

  predicate HasBuffers(c: Config)
  {
    0 < c.sendCap && 0 < c.recvCap
  }

  /** Two fresh ends of one stream, each configured in its own way. */
  function Start(id: nat, a: Config, b: Config): (n: Net)
  {
    Net(Fresh(id, a), Fresh(id, b))
  }

  lemma StepKeeps(n: Net, e: Event, n': Net)
    requires Inv(n) && IsStep(n, e, n')
    ensures Inv(n')
  {
    hide Intact, Act, Enabled;
    if e.atA {
      ActKeeps(n.a, n.b, e.act);
    } else {
      ActKeeps(n.b, n.a, e.act);
    }
  }

  /** Every reachable state is intact, in both directions. */
  lemma {:induction false} InvAlways(run: seq<Net>, events: seq<Event>, id: nat, a: Config, b: Config, i: nat)
    requires HasBuffers(a) && HasBuffers(b) && IsRun(run, events) && run[0] == Start(id, a, b) && i < |run|
    ensures Inv(run[i])
  {
    hide IsStep, Intact;
    if i == 0 {
      StartIntact(id, a, b);
    } else {
      InvAlways(run, events, id, a, b, i - 1);
      StepKeeps(run[i - 1], events[i - 1], run[i]);
    }
  }

  lemma StartIntact(id: nat, a: Config, b: Config)
    requires HasBuffers(a) && HasBuffers(b)
    ensures Inv(Start(id, a, b))
  {
  }

  /**
   * End to end, over every interleaving of writes, sends, deliveries, duplicates, acknowledgements, losses and
   * reads on both sides: what an application has read is a prefix of what the other wrote, and an application
   * that has seen FIN has read everything the other side wrote or ever will.
   */
  lemma StreamIsAPipe(run: seq<Net>, events: seq<Event>, id: nat, a: Config, b: Config, i: nat)
    requires HasBuffers(a) && HasBuffers(b) && IsRun(run, events) && run[0] == Start(id, a, b) && i < |run|
    ensures run[i].b.delivered <= run[i].a.written && run[i].a.delivered <= run[i].b.written
    ensures run[i].b.finSeen ==> run[i].b.delivered == run[i].a.written && !CanWrite(run[i].a.stream)
    ensures run[i].a.finSeen ==> run[i].a.delivered == run[i].b.written && !CanWrite(run[i].b.stream)
  {
    InvAlways(run, events, id, a, b, i);
  }

  // ---------- Credit over whole runs ----------

  /** No more was written than the peer's limit allows, nor acknowledged than was written. */
  ghost predicate Credited(x: Endpoint)
  {
    |x.written| <= x.stream.flow.peerMaxData && x.stream.send.ackedOffset <= |x.written|
  }

  lemma CreditKept(x: Endpoint, y: Endpoint, act: Action)
    requires Intact(x, y) && BuffersExist(x) && Enabled(x, y, act) && Credited(x)
    ensures Credited(Act(x, act))
    ensures Act(x, act).stream.flow.localMaxData == x.stream.flow.localMaxData
    ensures Act(x, act).stream.flow.peerMaxData ==
            if act.PeerMaxStreamData? then Max(x.stream.flow.peerMaxData, act.limit) else x.stream.flow.peerMaxData
  {
    hide Circular.HoldsLap, Circular.Put, Circular.Get, ReceiverIntact, Write, Accepts, FillFrame, OnRecvFrame;
    match act
    case AppWrite(d, fin) => Writing(x.stream, d, fin);
    case SendFrame(maxLen) => FillingAdvances(x.stream, maxLen);
    case Deliver(f) => ReceivingSparesSending(x.stream, f);
    case Acked(f) => assert FrameGenuine(f, x.written, x.stream.send.fin);
    case _ =>
  }

  lemma Writing(s: Stream, d: Bytes, fin: bool)
    requires |s.send.data| > 0
    ensures var s', n := Write(s, d, fin), Accepts(s, d);
            && s'.flow == s.flow && s'.send.ackedOffset == s.send.ackedOffset
            && s'.send.writeOffset == s.send.writeOffset + (if n.Some? then n.value else 0)
            && (s'.send.writeOffset == s.send.writeOffset || s'.send.writeOffset <= s.flow.peerMaxData)
  {
    hide Circular.Put, Room;
    WriteWithinCredit(s, d, fin);
  }

  /** In every reachable state, on both sides, what was written is within the peer's limit. */
  lemma {:induction false} CreditAlways(run: seq<Net>, events: seq<Event>, id: nat, a: Config, b: Config, i: nat)
    requires HasBuffers(a) && HasBuffers(b) && IsRun(run, events) && run[0] == Start(id, a, b) && i < |run|
    ensures Credited(run[i].a) && Credited(run[i].b)
  {
    if i > 0 {
      hide Intact, Act, Enabled, Credited;
      CreditAlways(run, events, id, a, b, i - 1);
      InvAlways(run, events, id, a, b, i - 1);
      var n, e := run[i - 1], events[i - 1];
      assert IsStep(n, e, run[i]);
      if e.atA {
        CreditKept(n.a, n.b, e.act);
      } else {
        CreditKept(n.b, n.a, e.act);
      }
    }
  }

  /** Each end's limit for sending is never above what the other end is ready to receive. */
  ghost predicate LimitsOrdered(events: seq<Event>, a: Config, b: Config)
  {
    && a.maxSend <= b.maxRecv && b.maxSend <= a.maxRecv
    && forall i :: 0 <= i < |events| && events[i].act.PeerMaxStreamData? ==>
         events[i].act.limit <= if events[i].atA then b.maxRecv else a.maxRecv
  }

  ghost predicate WithinLimits(n: Net, a: Config, b: Config)
  {
    && n.a.stream.flow.peerMaxData <= b.maxRecv == n.b.stream.flow.localMaxData
    && n.b.stream.flow.peerMaxData <= a.maxRecv == n.a.stream.flow.localMaxData
  }

  lemma {:induction false} LimitsAlways(run: seq<Net>, events: seq<Event>, id: nat, a: Config, b: Config, i: nat)
    requires HasBuffers(a) && HasBuffers(b) && IsRun(run, events) && run[0] == Start(id, a, b) && i < |run|
    requires LimitsOrdered(events, a, b)
    ensures WithinLimits(run[i], a, b)
  {
    if i > 0 {
      hide Intact, Act, Enabled, Credited;
      LimitsAlways(run, events, id, a, b, i - 1);
      InvAlways(run, events, id, a, b, i - 1);
      CreditAlways(run, events, id, a, b, i - 1);
      var n, e := run[i - 1], events[i - 1];
      assert IsStep(n, e, run[i]);
      if e.atA {
        CreditKept(n.a, n.b, e.act);
      } else {
        CreditKept(n.b, n.a, e.act);
      }
    }
  }

  /** So with ordered limits no frame that either end ever produced is a flow-control violation at the other. */
  lemma NeverAViolation(run: seq<Net>, events: seq<Event>, id: nat, a: Config, b: Config, i: nat, f: Frames.StreamFrame)
    requires HasBuffers(a) && HasBuffers(b) && IsRun(run, events) && run[0] == Start(id, a, b) && i < |run|
    requires LimitsOrdered(events, a, b)
    ensures BuffersExist(run[i].a) && BuffersExist(run[i].b)
    ensures f in run[i].a.sent && |f.data| <= |run[i].b.stream.recv.data| ==>
              !OnRecvFrame(run[i].b.stream, f).FlowControlViolated?
    ensures f in run[i].b.sent && |f.data| <= |run[i].a.stream.recv.data| ==>
              !OnRecvFrame(run[i].a.stream, f).FlowControlViolated?
  {
    hide Circular.HoldsLap, Circular.Buffers, Absorb;
    InvAlways(run, events, id, a, b, i);
    CreditAlways(run, events, id, a, b, i);
    LimitsAlways(run, events, id, a, b, i);
    IntactBuffers(run[i].a, run[i].b);
    IntactBuffers(run[i].b, run[i].a);
  }

  lemma IntactBuffers(x: Endpoint, y: Endpoint)
    requires Intact(x, y)
    ensures 0 < |x.stream.send.data| && 0 < |y.stream.recv.data|
  {
  }

  // ---------- Everything arrives ----------

  /** Everything that `x` has sent has arrived at `y` and been read, and `y` takes what comes next. */
  ghost predicate Synced(x: Endpoint, y: Endpoint)
  {
    var s, r := x.stream.send, y.stream.recv;
    && StillHeld(s) && r.readOffset == r.recvOffset == s.sentOffset && |x.written| <= y.stream.flow.localMaxData
    && if s.finSent then s.fin && s.sentOffset == s.writeOffset && y.finSeen
       else !y.stream.phase.HalfClosedRemote? && !y.stream.phase.Closed? && !y.stream.phase.Reset?
  }

  /** How much is left to do for a sender. */
  function Left(s: Stream): (n: nat)
  {
    Unsent(s) + if s.send.fin && !s.send.finSent then 1 else 0
  }

  /** The next frame of a stream in numbers. */
  lemma NextFrame(s: Stream, maxLen: nat)
    requires |s.send.data| > 0 && HasWork(s) && 0 < maxLen && s.send.sentOffset <= s.send.writeOffset
    ensures var (s', f) := FillFrame(s, maxLen).value;
            && FrameOffset(f) == s.send.sentOffset && FrameEnd(f) == s'.send.sentOffset <= s.send.writeOffset
            && |f.data| <= maxLen && Left(s') < Left(s)
            && s' == s.(send := s.send.(sentOffset := FrameEnd(f), finSent := s'.send.finSent))
            && (f.fin ==> s.send.fin && FrameEnd(f) == s.send.writeOffset)
            && s'.send.finSent == (s.send.finSent || f.fin)
  {
  }

  /** A frame that follows directly on what was read, once delivered and read, is read to its end. */
  lemma DeliveredAndRead(y: Endpoint, f: Frames.StreamFrame, len: nat)
    requires BuffersExist(y) && |f.data| <= |y.stream.recv.data| && |f.data| <= len
    requires y.stream.recv.readOffset == y.stream.recv.recvOffset == FrameOffset(f)
    requires FrameEnd(f) <= y.stream.flow.localMaxData
    requires !y.stream.phase.HalfClosedRemote? && !y.stream.phase.Closed? && !y.stream.phase.Reset?
    ensures var y1 := Act(y, Deliver(f));
            && BuffersExist(y1) && y1.stream.recv.recvOffset <= y1.stream.recv.readOffset + |y1.stream.recv.data|
            && var y' := Act(y1, AppRead(len));
            && |y'.stream.recv.data| == |y.stream.recv.data| && y'.stream.send.data == y.stream.send.data
            && y'.stream.recv.readOffset == y'.stream.recv.recvOffset == FrameEnd(f)
            && y'.stream.flow.localMaxData == y.stream.flow.localMaxData
            && (f.fin ==> y'.finSeen) && (!f.fin ==> y'.stream.phase == y.stream.phase)
  {
    hide OnRecvFrame, Read;
    NextReceived(y.stream, f);
    ReadToTheEnd(OnRecvFrame(y.stream, f).s, len);
  }

  lemma NextReceived(s: Stream, f: Frames.StreamFrame)
    requires 0 < |s.recv.data| && |f.data| <= |s.recv.data|
    requires s.recv.readOffset == s.recv.recvOffset == FrameOffset(f) && FrameEnd(f) <= s.flow.localMaxData
    requires !s.phase.HalfClosedRemote? && !s.phase.Closed? && !s.phase.Reset?
    ensures OnRecvFrame(s, f).Accepted?
    ensures var s' := OnRecvFrame(s, f).s;
            && s'.send == s.send && |s'.recv.data| == |s.recv.data| && s'.flow.localMaxData == s.flow.localMaxData
            && s'.recv.readOffset == s.recv.readOffset && s'.recv.recvOffset == FrameEnd(f)
            && (f.fin ==> s'.recv.finReceived && s'.recv.finOffset == FrameEnd(f))
            && (!f.fin ==> s'.phase == s.phase)
  {
    hide Circular.Put, SetPhase;
  }

  lemma ReadToTheEnd(s: Stream, len: nat)
    requires 0 < |s.recv.data| && s.recv.readOffset <= s.recv.recvOffset <= s.recv.readOffset + |s.recv.data|
    requires s.recv.recvOffset - s.recv.readOffset <= len
    ensures var (s', _, fin) := Read(s, len);
            && s' == s.(recv := s.recv.(readOffset := s.recv.recvOffset), flow := s'.flow)
            && s'.flow.localMaxData == s.flow.localMaxData
            && (s.recv.finReceived && s.recv.finOffset == s.recv.recvOffset ==> fin)
  {
    hide Circular.Get;
  }

  /** The next frame of `x`, delivered to `y` and read there, leaves the two in step again, with less to do. */
  lemma RoundDelivers(x: Endpoint, y: Endpoint, maxLen: nat)
    requires SenderIntact(x) && BuffersExist(x) && BuffersExist(y) && Synced(x, y)
    requires HasWork(x.stream) && 0 < maxLen <= |y.stream.recv.data|
    ensures FillFrame(x.stream, maxLen).Some?
    ensures var f := FillFrame(x.stream, maxLen).value.1;
            var x' := Act(x, SendFrame(maxLen));
            && x'.written == x.written && x'.stream.send.fin == x.stream.send.fin
            && Enabled(x, y, SendFrame(maxLen)) && Enabled(y, x', Deliver(f)) && |f.data| <= |y.stream.recv.data|
            && var y1 := Act(y, Deliver(f));
            && BuffersExist(x') && BuffersExist(y1) && Enabled(y1, x', AppRead(maxLen))
            && y1.stream.recv.recvOffset <= y1.stream.recv.readOffset + |y1.stream.recv.data|
            && var y' := Act(y1, AppRead(maxLen));
            && BuffersExist(y') && |y'.stream.recv.data| == |y.stream.recv.data|
            && Synced(x', y') && Left(x'.stream) < Left(x.stream)
  {
    hide Circular.HoldsLap, FillFrame, OnRecvFrame, Read, HasWork, Left;
    Filling(x.stream, maxLen);
    NextFrame(x.stream, maxLen);
    DeliveredAndRead(y, FillFrame(x.stream, maxLen).value.1, maxLen);
  }

  lemma Filling(s: Stream, maxLen: nat)
    requires |s.send.data| > 0
    ensures FillFrame(s, maxLen).Some? <==> HasWork(s)
    ensures HasWork(s) && s.send.sentOffset <= s.send.writeOffset ==>
              s.send.sentOffset < s.send.writeOffset || (s.send.fin && !s.send.finSent)
  {
  }

  /**
   * From any state in which the ends are in step, a network that loses nothing brings over everything that was
   * written, and the FIN: there is a run of sends, deliveries and reads that ends there.
   */
  lemma {:induction false} EverythingArrives(n: Net, maxLen: nat) returns (run: seq<Net>, events: seq<Event>)
    requires Inv(n) && BuffersExist(n.a) && BuffersExist(n.b) && Synced(n.a, n.b)
    requires 0 < maxLen <= |n.b.stream.recv.data|
    ensures IsRun(run, events) && run[0] == n
    ensures var m := run[|run| - 1];
            && m.a.written == n.a.written == m.b.delivered
            && (n.a.stream.send.fin ==> m.b.finSeen)
    decreases Left(n.a.stream)
  {
    hide Act, Enabled, Circular.HoldsLap, Circular.Buffers, FrameGenuine, FillFrame;
    if !HasWork(n.a.stream) {
      run, events := [n], [];
      assert n.a.written[..|n.a.written|] == n.a.written;
    } else {
      Filling(n.a.stream, maxLen);
      var f := FillFrame(n.a.stream, maxLen).value.1;
      RoundDelivers(n.a, n.b, maxLen);
      var n1 := n.(a := Act(n.a, SendFrame(maxLen)));
      var n2 := n1.(b := Act(n1.b, Deliver(f)));
      var n3 := n2.(b := Act(n2.b, AppRead(maxLen)));
      var e1, e2, e3 := Event(true, SendFrame(maxLen)), Event(false, Deliver(f)), Event(false, AppRead(maxLen));
      ThreeSteps(n, n1, n2, n3, e1, e2, e3);
      var run', events' := EverythingArrives(n3, maxLen);
      run, events := [n, n1, n2] + run', [e1, e2, e3] + events';
      LongerRun(n, n1, n2, run', e1, e2, e3, events');
    }
  }

  lemma ThreeSteps(n: Net, n1: Net, n2: Net, n3: Net, e1: Event, e2: Event, e3: Event)
    requires Inv(n) && IsStep(n, e1, n1) && IsStep(n1, e2, n2) && IsStep(n2, e3, n3)
    ensures Inv(n3)
  {
    hide Inv, IsStep;
    StepKeeps(n, e1, n1);
    StepKeeps(n1, e2, n2);
    StepKeeps(n2, e3, n3);
  }

  lemma LongerRun(n: Net, n1: Net, n2: Net, run: seq<Net>, e1: Event, e2: Event, e3: Event, events: seq<Event>)
    requires IsRun(run, events) && IsStep(n, e1, n1) && IsStep(n1, e2, n2) && IsStep(n2, e3, run[0])
    ensures IsRun([n, n1, n2] + run, [e1, e2, e3] + events)
  {
    hide IsStep;
    var run', events' := [n, n1, n2] + run, [e1, e2, e3] + events;
    forall i | 0 <= i < |events'| ensures IsStep(run'[i], events'[i], run'[i + 1]) {
      if i >= 3 {
        assert IsStep(run[i - 3], events[i - 3], run[i - 2]);
      }
    }
  }

  /**
   * So a fresh stream carries over exactly the front of the data that buffer and limit admit, and with it the FIN.
   */
  lemma FreshStreamDelivers(id: nat, a: Config, b: Config, d: Bytes, fin: bool)
    returns (run: seq<Net>, events: seq<Event>)
    requires HasBuffers(a) && HasBuffers(b) && a.sendCap < TWO_64 && a.maxSend <= b.maxRecv
    ensures IsRun(run, events) && run[0] == Start(id, a, b)
    ensures var m := run[|run| - 1];
            && |m.b.delivered| <= |d| && m.b.delivered == d[..|m.b.delivered|] && (fin ==> m.b.finSeen)
            && |m.b.delivered| <= a.maxSend && |m.b.delivered| <= a.sendCap
            && (|m.b.delivered| == |d| || |m.b.delivered| == a.maxSend || |m.b.delivered| == a.sendCap)
  {
    hide Circular.HoldsLap, Circular.Buffers, Circular.Put, Accepts, Write;
    var n := Start(id, a, b);
    var e := Event(true, AppWrite(d, fin));
    var n' := n.(a := Act(n.a, e.act));
    WriteIsMaximal(n.a.stream, d, fin);
    StartIntact(id, a, b);
    StepKeeps(n, e, n');
    WrittenFresh(n.a.stream, d, fin);
    var run', events' := EverythingArrives(n', b.recvCap);
    run, events := [n] + run', [e] + events';
    OneMoreStep(n, e, run', events');
  }

  lemma WrittenFresh(s: Stream, d: Bytes, fin: bool)
    requires |s.send.data| > 0 && s.send.sentOffset == 0
    ensures var s' := Write(s, d, fin);
            && s'.send.sentOffset == 0 && s'.send.finSent == s.send.finSent && s'.recv == s.recv
            && |s'.send.data| == |s.send.data| && s'.phase == s.phase
  {
    hide Circular.Put, Room;
  }

  lemma OneMoreStep(n: Net, e: Event, run: seq<Net>, events: seq<Event>)
    requires IsRun(run, events) && IsStep(n, e, run[0])
    ensures IsRun([n] + run, [e] + events)
  {
    hide IsStep;
    var run', events' := [n] + run, [e] + events;
    forall i | 0 <= i < |events'| ensures IsStep(run'[i], events'[i], run'[i + 1]) {
      if i >= 1 {
        assert IsStep(run[i - 1], events[i - 1], run[i]);
      }
    }
  }

  // ---------- FIN over whole runs ----------

  /** The phase of a stream says which FINs have been received and acknowledged. */
  predicate PhaseTellsFins(s: Stream)
  {
    s.phase == if s.recv.finReceived then if s.send.finAcked then Closed else HalfClosedRemote
               else if s.send.finAcked then HalfClosedLocal else Open
  }

  lemma PhaseKept(x: Endpoint, act: Action)
    requires BuffersExist(x) && PhaseTellsFins(x.stream)
    requires act.Deliver? ==> |act.f.data| <= |x.stream.recv.data|
    requires act.AppRead? ==> x.stream.recv.recvOffset <= x.stream.recv.readOffset + |x.stream.recv.data|
    ensures PhaseTellsFins(Act(x, act).stream)
  {
    hide Circular.Put, Circular.Get, Room, FrameLength;
  }

  /** In every reachable state each stream's phase tells exactly which FINs have been received and acknowledged. */
  lemma {:induction false} PhaseAlways(run: seq<Net>, events: seq<Event>, id: nat, a: Config, b: Config, i: nat)
    requires HasBuffers(a) && HasBuffers(b) && IsRun(run, events) && run[0] == Start(id, a, b) && i < |run|
    ensures PhaseTellsFins(run[i].a.stream) && PhaseTellsFins(run[i].b.stream)
  {
    if i > 0 {
      hide Act, PhaseTellsFins;
      PhaseAlways(run, events, id, a, b, i - 1);
      var n, e := run[i - 1], events[i - 1];
      assert IsStep(n, e, run[i]);
      if e.atA {
        PhaseKept(n.a, e.act);
      } else {
        PhaseKept(n.b, e.act);
      }
    }
  }

  // ---------- What the receiver needs is exact ----------

  /** The buffer returns the stream's bytes at every offset of the part held. */
  ghost predicate Readable(ring: Bytes, s: Bytes, lo: nat, hi: nat)
    requires 0 < |ring| && hi <= |s|
  {
    forall i :: lo <= i < hi ==> ring[i % |ring|] == s[i]
  }

  /** Whatever the bytes are, absorbing bytes `off .. off + len` leaves a readable buffer. */
  ghost predicate AlwaysReadable(read: nat, recv: nat, cap: nat, off: nat, len: nat)
    requires 0 < cap && 0 < len <= cap && read <= recv && read < off + len
  {
    forall ring: Bytes, s: Bytes ::
      |ring| == cap && recv <= |s| && off + len <= |s| && Readable(ring, s, read, recv) ==>
        var start := Max(off, read);
        Readable(Circular.Put(ring, start, s[start..off + len]), s, read, Max(recv, off + len))
  }

  lemma FitsSuffices(read: nat, recv: nat, cap: nat, off: nat, len: nat)
    requires 0 < cap && 0 < len <= cap && read <= recv <= read + cap && read < off + len
    requires off <= recv && off + len <= read + cap
    ensures AlwaysReadable(read, recv, cap, off, len)
  {
    hide Circular.Put;
    forall ring: Bytes, s: Bytes |
      |ring| == cap && recv <= |s| && off + len <= |s| && Readable(ring, s, read, recv)
      ensures var start := Max(off, read);
              Readable(Circular.Put(ring, start, s[start..off + len]), s, read, Max(recv, off + len))
    {
      var start := Max(off, read);
      Circular.PutBuffers(ring, s, read, recv, start, s[start..off + len]);
    }
  }

  lemma PutZeros(ring: Bytes, off: nat, d: Bytes, i: nat)
    requires 0 < |ring| && |d| <= |ring| && i < |ring|
    requires forall j :: 0 <= j < |ring| ==> ring[j] == 0
    requires forall j :: 0 <= j < |d| ==> d[j] == 0
    ensures Circular.Put(ring, off, d)[i] == 0
  {
  }

  /** Buffer contents and stream for which absorbing the bytes leaves something else to be read. */
  lemma NotAlwaysReadable(read: nat, recv: nat, cap: nat, off: nat, len: nat, ring: Bytes, s: Bytes, i: nat)
    requires 0 < cap && 0 < len <= cap && read <= recv && read < off + len
    requires |ring| == cap && recv <= |s| && off + len <= |s| && Readable(ring, s, read, recv)
    requires read <= i < Max(recv, off + len)
    requires var start := Max(off, read); Circular.Put(ring, start, s[start..off + len])[i % cap] != s[i]
    ensures !AlwaysReadable(read, recv, cap, off, len)
  {
    hide Circular.Put, Readable;
    var start := Max(off, read);
    NotReadableAt(Circular.Put(ring, start, s[start..off + len]), s, read, Max(recv, off + len), i);
  }

  lemma NotReadableAt(ring: Bytes, s: Bytes, lo: nat, hi: nat, i: nat)
    requires 0 < |ring| && lo <= i < hi <= |s| && ring[i % |ring|] != s[i]
    ensures !Readable(ring, s, lo, hi)
  {
  }

  /** With a gap, a byte that never arrived is read as whatever the buffer held. */
  lemma GapIsReadAsData(read: nat, recv: nat, cap: nat, off: nat, len: nat)
    requires 0 < cap && 0 < len <= cap && read <= recv < off
    ensures !AlwaysReadable(read, recv, cap, off, len)
  {
    hide Circular.Put, AlwaysReadable;
    var ring: Bytes := seq(cap, _ => 0);
    var s: Bytes := seq(off + len, i => if i == recv then 1 else 0);
    PutZeros(ring, off, s[off..off + len], recv % cap);
    NotAlwaysReadable(read, recv, cap, off, len, ring, s, recv);
  }

  /** Beyond a full lap, a byte still to be read is overwritten. */
  lemma OverrunOverwrites(read: nat, recv: nat, cap: nat, off: nat, len: nat)
    requires 0 < cap && 0 < len <= cap && read <= recv <= read + cap && off <= recv && read + cap < off + len
    ensures !AlwaysReadable(read, recv, cap, off, len)
  {
    hide Circular.Put, AlwaysReadable;
    var e := off + len - 1;
    var ring: Bytes := seq(cap, _ => 0);
    var s: Bytes := seq(off + len, i => if i == e then 1 else 0);
    var start := Max(off, read);
    var after := Circular.Put(ring, start, s[start..off + len]);
    Circular.Wrap(e - cap, cap, cap);
    assert after[e % cap] != s[e] || after[(e - cap) % cap] != s[e - cap];
    NotAlwaysReadable(read, recv, cap, off, len, ring, s, if after[e % cap] != s[e] then e else e - cap);
  }

  /** The condition `Fits` is exact: the receiver stays readable for all contents if and only if it holds. */
  lemma FitsIsExact(read: nat, recv: nat, cap: nat, off: nat, len: nat)
    requires 0 < cap && 0 < len <= cap && read <= recv <= read + cap && read < off + len
    ensures AlwaysReadable(read, recv, cap, off, len) <==> off <= recv && off + len <= read + cap
  {
    hide AlwaysReadable;
    if off <= recv && off + len <= read + cap {
      FitsSuffices(read, recv, cap, off, len);
    } else if off > recv {
      GapIsReadAsData(read, recv, cap, off, len);
    } else {
      OverrunOverwrites(read, recv, cap, off, len);
    }
  }

  /** A frame that overtakes another: the application reads a byte that nobody wrote. */
  lemma OvertakingCorrupts(cap: nat)
    requires 2 <= cap
    ensures var s := Create(0, cap, cap, 100, 100);
            var second := Frames.StreamFrame(0, 1, true, true, false, [7]);
            OnRecvFrame(s, second).Accepted? && Read(OnRecvFrame(s, second).s, 2).1 == [0, 7]
  {
    var s := Create(0, cap, cap, 100, 100);
    var second := Frames.StreamFrame(0, 1, true, true, false, [7]);
    var ring := Circular.Put(s.recv.data, 1, [7]);
    Circular.Wrap(0, 1, cap);
    assert 0 % cap == 0 && 1 % cap == 1;
    assert ring[0] == 0 && ring[1] == 7;
  }

  // ---------- What the sender needs is exact ----------

  /** Whatever was written, the next frame carries the written bytes, if the buffer still holds the last lap of them. */
  ghost predicate AlwaysHonest(s: Stream, maxLen: nat)
    requires |s.send.data| > 0 && HasWork(s)
  {
    forall ring: Bytes, written: Bytes ::
      |ring| == |s.send.data| && |written| == s.send.writeOffset && Circular.HoldsLap(ring, written) ==>
        SendsWritten(s.(send := s.send.(data := ring)), written, maxLen)
  }

  ghost predicate SendsWritten(s: Stream, written: Bytes, maxLen: nat)
    requires |s.send.data| > 0 && HasWork(s)
  {
    var n, offset := FrameLength(s, maxLen), s.send.sentOffset;
    offset + n <= |written| && FillFrame(s, maxLen).value.1.data == written[offset..offset + n]
  }

  /**
   * The condition `StillHeld` is exact: since the send buffer always holds the last lap of what was written, the
   * next frame is honest for all contents if and only if no more than a lap has been written since its first byte.
   */
  lemma RetransmissionIsExact(s: Stream, maxLen: nat)
    requires |s.send.data| > 0 && s.send.sentOffset < s.send.writeOffset && 0 < maxLen
    ensures AlwaysHonest(s, maxLen) <==> StillHeld(s.send)
  {
    hide Circular.HoldsLap;
    if StillHeld(s.send) {
      forall ring: Bytes, written: Bytes |
        |ring| == |s.send.data| && |written| == s.send.writeOffset && Circular.HoldsLap(ring, written)
        ensures SendsWritten(s.(send := s.send.(data := ring)), written, maxLen)
      {
        FilledBytes(s.(send := s.send.(data := ring)), written, maxLen);
      }
    } else {
      OverwrittenByte(s, maxLen);
    }
  }

  /** The first byte of the next frame has been overwritten: a zero is sent where a one was written. */
  lemma OverwrittenByte(s: Stream, maxLen: nat)
    requires |s.send.data| > 0 && s.send.sentOffset < s.send.writeOffset && 0 < maxLen && !StillHeld(s.send)
    ensures !AlwaysHonest(s, maxLen)
  {
    hide FillFrame, FrameLength;
    var ring: Bytes := seq(|s.send.data|, _ => 0);
    var written: Bytes := seq(s.send.writeOffset, i => if i == s.send.sentOffset then 1 else 0);
    assert Circular.HoldsLap(ring, written);
    hide Circular.HoldsLap;
    var s' := s.(send := s.send.(data := ring));
    FirstByte(s', maxLen);
    var n, offset := FrameLength(s', maxLen), s.send.sentOffset;
    assert offset + n <= |written| ==> written[offset..offset + n][0] == 1;
    assert !SendsWritten(s', written, maxLen);
  }

  lemma FirstByte(s: Stream, maxLen: nat)
    requires |s.send.data| > 0 && s.send.sentOffset < s.send.writeOffset && 0 < maxLen
    ensures var pos := s.send.sentOffset % |s.send.data|;
            && FrameLength(s, maxLen) > 0 && FillFrame(s, maxLen).Some?
            && FillFrame(s, maxLen).value.1.data != [] && FillFrame(s, maxLen).value.1.data[0] == s.send.data[pos]
  {
  }

  /** What the offsets satisfy as long as acknowledgements and losses come in order. */
  predicate Ordered(send: SendBuf)
  {
    send.ackedOffset <= send.sentOffset <= send.writeOffset <= send.ackedOffset + |send.data| &&
    send.writeOffset < TWO_64
  }

  /** An acknowledgement of what was sent, or a loss of what was not acknowledged; limits are 64-bit numbers. */
  predicate InOrder(send: SendBuf, act: Action)
  {
    match act
    case Acked(f) => FrameEnd(f) <= send.sentOffset
    case Lost(f) => send.ackedOffset <= FrameOffset(f)
    case PeerMaxStreamData(limit) => limit < TWO_64
    case _ => true
  }

  predicate Orderly(x: Endpoint)
  {
    Ordered(x.stream.send) && x.stream.flow.peerMaxData < TWO_64
  }

  lemma OrderKept(x: Endpoint, y: Endpoint, act: Action)
    requires BuffersExist(x) && Enabled(x, y, act) && Orderly(x) && InOrder(x.stream.send, act)
    ensures StillHeld(x.stream.send) && Orderly(Act(x, act))
  {
    hide Circular.Get, OnRecvFrame, FillFrame, Write, Accepts;
    match act
    case AppWrite(d, fin) => WritingKeepsOrder(x.stream, d, fin);
    case Deliver(f) => ReceivingSparesSending(x.stream, f);
    case SendFrame(maxLen) => FillingAdvances(x.stream, maxLen);
    case _ =>
  }

  lemma WritingKeepsOrder(s: Stream, d: Bytes, fin: bool)
    requires |s.send.data| > 0 && Ordered(s.send) && s.flow.peerMaxData < TWO_64
    ensures Ordered(Write(s, d, fin).send) && Write(s, d, fin).flow == s.flow
  {
    hide Circular.Put;
    assert Sub64(s.send.writeOffset, s.send.ackedOffset) == s.send.writeOffset - s.send.ackedOffset;
  }

  lemma ReceivingSparesSending(s: Stream, f: Frames.StreamFrame)
    requires 0 < |s.recv.data| && |f.data| <= |s.recv.data|
    ensures var r := OnRecvFrame(s, f); r.Accepted? ==>
      && r.s.send == s.send && r.s.flow.peerMaxData == s.flow.peerMaxData
      && r.s.flow.localMaxData == s.flow.localMaxData
  {
  }

  lemma FillingAdvances(s: Stream, maxLen: nat)
    requires |s.send.data| > 0
    ensures var r := FillFrame(s, maxLen); r.Some? ==>
      && r.value.0.flow == s.flow
      && s.send.sentOffset <= r.value.0.send.sentOffset <= Max(s.send.sentOffset, s.send.writeOffset)
      && r.value.0.send == s.send.(sentOffset := r.value.0.send.sentOffset, finSent := r.value.0.send.finSent)
  {
  }

  /** Every event is in order for the endpoint that it happens at. */
  ghost predicate InOrderRun(run: seq<Net>, events: seq<Event>)
  {
    |run| == |events| + 1 && forall i :: 0 <= i < |events| ==>
      InOrder((if events[i].atA then run[i].a else run[i].b).stream.send, events[i].act)
  }

  /**
   * A network that acknowledges and loses in order never meets the condition: every frame is still held when it is
   * due.
   */
  lemma {:induction false} OrderSuffices(run: seq<Net>, events: seq<Event>, id: nat, a: Config, b: Config, i: nat)
    requires HasBuffers(a) && HasBuffers(b) && a.maxSend < TWO_64 && b.maxSend < TWO_64
    requires IsRun(run, events) && InOrderRun(run, events) && run[0] == Start(id, a, b) && i < |run|
    ensures Orderly(run[i].a) && Orderly(run[i].b)
    ensures StillHeld(run[i].a.stream.send) && StillHeld(run[i].b.stream.send)
  {
    if i > 0 {
      hide Enabled, Act, InOrder;
      OrderSuffices(run, events, id, a, b, i - 1);
      var n, e := run[i - 1], events[i - 1];
      assert IsStep(n, e, run[i]);
      if e.atA {
        OrderKept(n.a, n.b, e.act);
      } else {
        OrderKept(n.b, n.a, e.act);
      }
    }
  }

  /** A stream that has filled its buffer, all of it sent. */
  function FullBuffer(cap: nat, acked: nat): (s: Stream)
  {
    Create(0, cap, cap, 2 * cap, cap).(send := SendBuf(seq(cap, _ => 0), cap, cap, acked, false, false, false))
  }

  /**
   * A loss below the acknowledged offset: after bytes 1 .. cap are acknowledged out of order, the freed
   * slot of byte 0 takes new data, and retransmitting byte 0 sends the new byte in its place.
   */
  lemma LossBelowAckedCorrupts(cap: nat)
    requires 2 <= cap < TWO_64
    ensures var lost := OnLossFrame(Write(OnAckFrame(FullBuffer(cap, 0), 1, cap - 1, false), [7], false), 0, false);
            FillFrame(lost, 1).Some? && FillFrame(lost, 1).value.1.data == [7] &&
            FrameOffset(FillFrame(lost, 1).value.1) == 0
  {
    ReusedSlot(OnAckFrame(FullBuffer(cap, 0), 1, cap - 1, false));
  }

  /**
   * An acknowledgement above the sent offset: byte 0 is declared lost, the bytes after it are acknowledged; new
   * data takes the slot of byte 0, and the pending retransmission of byte 0 sends it.
   */
  lemma AckAboveSentCorrupts(cap: nat)
    requires 2 <= cap < TWO_64
    ensures var acked := Write(OnAckFrame(OnLossFrame(FullBuffer(cap, 0), 0, false), 1, cap - 1, false), [7], false);
            FillFrame(acked, 1).Some? && FillFrame(acked, 1).value.1.data == [7] &&
            FrameOffset(FillFrame(acked, 1).value.1) == 0
  {
    ReusedSlot(OnAckFrame(OnLossFrame(FullBuffer(cap, 0), 0, false), 1, cap - 1, false));
  }

  /** Writing a byte into a full buffer of zeros that has been acknowledged puts it in the slot of byte 0. */
  lemma ReusedSlot(s: Stream)
    requires var cap := |s.send.data|; 2 <= cap < TWO_64 && s.send.writeOffset == s.send.ackedOffset == cap
    requires CanWrite(s) && s.flow.peerMaxData > s.send.writeOffset && !s.send.finSent
    ensures var s' := OnLossFrame(Write(s, [7], false), 0, false);
            && s'.send.sentOffset == 0 && s'.send.data[0..1] == [7] && s'.send.writeOffset == |s.send.data| + 1
            && FillFrame(s', 1).Some? && FillFrame(s', 1).value.1.data == [7]
            && FrameOffset(FillFrame(s', 1).value.1) == 0
  {
    var cap := |s.send.data|;
    assert Sub64(cap, cap) == 0;
    assert Accepts(s, [7]) == Some(1);
    Circular.Wrap(0, cap, cap);
    var ring := Circular.Put(s.send.data, cap, [7]);
    assert cap % cap == 0 && 0 % cap == 0;
    assert ring[0] == 7;
    var s' := OnLossFrame(Write(s, [7], false), 0, false);
    assert s'.send.data == ring && ring[0..1] == [7];
  }
}
