/**
 * The ACK tracker as the C code keeps it: fixed range array, growing packet array, in-place updates
 * (src/core/ack.c).
 */
module AckTracker {
  import opened Bytes
  import opened AckRanges
  import opened Recovery
  import Frames

  /** The packets as `on_loss` sees them. */
  function Marked(xs: seq<SentPkt>): (r: seq<SentPkt>)
    ensures |r| == |xs|
  {
    if xs == [] then [] else Marked(xs[..|xs| - 1]) + [xs[|xs| - 1].(declaredLost := true)]
  }

  class AckState {
    var recvRanges: array<Range>
    var recvRangeCount: nat
    var largestRecvPn: nat
    var largestRecvTime: nat
    var ackNeeded: bool
    var ackDelayTimer: nat

    var rtt: Rtt

    var sent: array<SentPkt>
    var sentCount: nat
    var bytesInFlight: nat

    var lossTime: nat
    var ptoCount: nat
    var lastAckEliciting: nat

    ghost predicate Valid()
      reads this, recvRanges, sent
    {
      && recvRanges.Length == MAX_RECV_RANGES && recvRangeCount <= MAX_RECV_RANGES
      && Normal(recvRanges[..recvRangeCount])
      && 0 < sent.Length && sentCount <= sent.Length
    }

    ghost function Ranges(): (rs: seq<Range>)
      reads this, recvRanges
      requires recvRangeCount <= recvRanges.Length
    {
      recvRanges[..recvRangeCount]
    }

    ghost function View(): (st: State)
      reads this, sent
      requires sentCount <= sent.Length
    {
      State(sent[..sentCount], bytesInFlight, lossTime, ptoCount, lastAckEliciting, rtt)
    }

    /** `nxp_ack_init`. */
    constructor ()
      ensures Valid() && fresh(recvRanges) && fresh(sent)
      ensures Ranges() == [] && View() == Initial && !ackNeeded
    {
      recvRanges := new Range[MAX_RECV_RANGES](_ => Range(0, 0));
      recvRangeCount := 0;
      largestRecvPn, largestRecvTime, ackNeeded, ackDelayTimer := 0, 0, false, 0;
      rtt := Initial.rtt;
      sent := new SentPkt[256](_ => SentPkt(0, 0, 0, false, false, false, []));
      sentCount, bytesInFlight := 0, 0;
      lossTime, ptoCount, lastAckEliciting := NEVER, 0, 0;
      new;
      assert sent[..0] == [];
    }

    // ---------- Received packets ----------

    /** The duplicate check. */
    method IsDuplicate(pn: nat) returns (found: bool)
      requires Valid()
      ensures found <==> Holds(Ranges(), pn)
    {
      for i := 0 to recvRangeCount
        invariant !Holds(recvRanges[..i], pn)
      {
        if Contains(recvRanges[i], pn) {
          assert Ranges()[i] == recvRanges[i];
          return true;
        }
      }
      return false;
    }

    /** The first range that the number touches. */
    method FindTouched(pn: nat) returns (i: nat)
      requires Valid()
      ensures i <= recvRangeCount && !Touches(Ranges()[..i], pn)
      ensures i < recvRangeCount ==> pn == recvRanges[i].end + 1 || pn + 1 == recvRanges[i].start
    {
      i := 0;
      while i < recvRangeCount && !(pn == recvRanges[i].end + 1 || pn + 1 == recvRanges[i].start)
        invariant i <= recvRangeCount && !Touches(Ranges()[..i], pn)
      {
        i := i + 1;
      }
    }

    /** memmove that closes slot `i`. */
    method CloseSlot(i: nat)
      requires i < recvRangeCount <= recvRanges.Length
      modifies this`recvRangeCount, recvRanges
      ensures recvRangeCount <= recvRanges.Length
      ensures Ranges() == old(Ranges())[..i] + old(Ranges())[i + 1..]
    {
      forall j | i <= j < recvRangeCount - 1 {
        recvRanges[j] := recvRanges[j + 1];
      }
      recvRangeCount := recvRangeCount - 1;
    }

    /** memmove that opens slot `pos`. */
    method OpenSlot(pos: nat, r: Range)
      requires pos <= recvRangeCount < recvRanges.Length
      modifies this`recvRangeCount, recvRanges
      ensures recvRangeCount <= recvRanges.Length
      ensures Ranges() == old(Ranges())[..pos] + [r] + old(Ranges())[pos..]
    {
      forall j | pos < j <= recvRangeCount {
        recvRanges[j] := recvRanges[j - 1];
      }
      recvRanges[pos] := r;
      recvRangeCount := recvRangeCount + 1;
    }

    /** Extends a range that the number touches, merging two ranges when it closes the gap between them. */
    method Extend(pn: nat) returns (inserted: bool)
      requires Valid() && !Holds(Ranges(), pn)
      modifies this`recvRangeCount, recvRanges
      ensures recvRangeCount <= recvRanges.Length
      ensures inserted <==> Touches(old(Ranges()), pn)
      ensures Ranges() == if inserted then Insert(old(Ranges()), pn) else old(Ranges())
    {
      hide Normal, Holds, Insert, Touches;
      ghost var rs := Ranges();
      var i := FindTouched(pn);
      if i == recvRangeCount {
        assert rs[..i] == rs;
        return false;
      }
      ExtendAt(rs, pn, i);
      ExtendSlot(i, pn);
      inserted := true;
    }

    method ExtendSlot(i: nat, pn: nat)
      requires i < recvRangeCount <= recvRanges.Length
      modifies this`recvRangeCount, recvRanges
      ensures recvRangeCount <= recvRanges.Length
      ensures Ranges() == old(Ranges())[..i] + Extended(old(Ranges())[i..], pn)
    {
      ghost var rs := Ranges();
      var r := recvRanges[i];
      if pn == r.end + 1 {
        recvRanges[i] := Range(r.start, pn);
        ReplaceOne(rs, i, Range(r.start, pn));
      } else if i + 1 < recvRangeCount && recvRanges[i + 1].end + 1 == pn {
        var low := recvRanges[i + 1].start;
        recvRanges[i] := Range(low, r.end);
        assert Ranges() == rs[i := Range(low, r.end)];
        ReplaceTwo(rs, i, Range(low, r.end));
        CloseSlot(i + 1);
      } else {
        recvRanges[i] := Range(pn, r.end);
        ReplaceOne(rs, i, Range(pn, r.end));
      }
    }

    /** Opens a new range, keeping descending order. */
    method InsertNew(pn: nat)
      requires Valid() && !Holds(Ranges(), pn) && !Touches(Ranges(), pn) && recvRangeCount < MAX_RECV_RANGES
      modifies this`recvRangeCount, recvRanges
      ensures recvRangeCount <= recvRanges.Length
      ensures Ranges() == Insert(old(Ranges()), pn)
    {
      ghost var rs := Ranges();
      var pos := 0;
      while pos < recvRangeCount && recvRanges[pos].start > pn
        invariant pos <= recvRangeCount
        invariant forall j :: 0 <= j < pos ==> pn < rs[j].start
      {
        pos := pos + 1;
      }
      InsertAt(rs, pn, pos);
      OpenSlot(pos, Range(pn, pn));
    }

    /** `nxp_ack_on_pkt_recv`; a duplicate changes nothing at all. */
    method OnPktRecv(pn: nat, now: nat, ackEliciting: bool)
      requires Valid()
      modifies this`recvRangeCount, this`largestRecvPn, this`largestRecvTime, this`ackNeeded, this`ackDelayTimer,
               recvRanges
      ensures Valid()
      ensures Ranges() == Record(old(Ranges()), pn)
      ensures if Holds(old(Ranges()), pn) then
                unchanged(`largestRecvPn) && unchanged(`largestRecvTime) && unchanged(`ackNeeded) &&
                unchanged(`ackDelayTimer)
              else
                && (var newest := old(recvRangeCount) == 0 || pn > old(largestRecvPn);
                    && largestRecvPn == (if newest then pn else old(largestRecvPn))
                    && largestRecvTime == (if newest then now else old(largestRecvTime)))
                && ackNeeded == (ackEliciting || old(ackNeeded))
                && ackDelayTimer == (if ackEliciting then now + ACK_DELAY else old(ackDelayTimer))
    {
      hide Normal, Holds, Touches, Insert;
      ghost var rs := Ranges();
      RecordExact(rs, pn);
      var duplicate := IsDuplicate(pn);
      if duplicate {
        InsertDuplicate(rs, pn);
        return;
      }
      if recvRangeCount == 0 || pn > largestRecvPn {
        largestRecvPn, largestRecvTime := pn, now;
      }
      var inserted := Extend(pn);
      if !inserted && recvRangeCount < MAX_RECV_RANGES {
        InsertNew(pn);
      }
      if ackEliciting {
        ackNeeded, ackDelayTimer := true, now + ACK_DELAY;
      }
    }

    /** `nxp_ack_build_frame`; None stands for the return value false. */
    method BuildAck(now: nat) returns (frame: Option<Frames.AckFrame>)
      requires Valid()
      ensures frame == if Ranges() == [] then None
                       else Some(BuildFrame(Ranges(), if now > largestRecvTime then now - largestRecvTime else 0))
    {
      hide Normal, Gaps;
      if recvRangeCount == 0 {
        return None;
      }
      FirstRange(Ranges());
      var first := recvRanges[0];
      var gaps := BuildGaps();
      var delay := if now > largestRecvTime then now - largestRecvTime else 0;
      frame := Some(Frames.AckFrame(first.end, delay, first.end - first.start, gaps, Frames.NoEcn));
    }

    /** The loop over the further ranges. */
    method BuildGaps() returns (gaps: seq<Frames.AckRange>)
      requires Valid() && recvRangeCount > 0
      ensures gaps == Gaps(Ranges())
    {
      hide Normal, Gaps;
      ghost var rs := Ranges();
      gaps := [];
      var i := 1;
      assert rs[0..] == rs;
      while i < recvRangeCount
        invariant 1 <= i <= recvRangeCount && Normal(rs[i - 1..])
        invariant Gaps(rs) == gaps + Gaps(rs[i - 1..])
      {
        GapsStep(rs, i);
        var gap, range := recvRanges[i - 1].start - recvRanges[i].end - 2, recvRanges[i].end - recvRanges[i].start;
        gaps := gaps + [Frames.AckRange(gap, range)];
        i := i + 1;
      }
      NoGaps(rs[i - 1..]);
      assert gaps + [] == gaps;
    }

    // ---------- Sent packets ----------

    /** The realloc that doubles the array; `filler` stands for the uninitialised slots. */
    method GrowSent(filler: SentPkt)
      requires 0 < sent.Length && sentCount <= sent.Length
      modifies this`sent
      ensures fresh(sent) && sent.Length > sentCount && sent[..sentCount] == old(sent[..sentCount])
    {
      var bigger := new SentPkt[2 * sent.Length](_ => filler);
      forall i | 0 <= i < sentCount {
        bigger[i] := sent[i];
      }
      sent := bigger;
    }

    /** `nxp_ack_on_pkt_sent`, doubling the array when it is full. */
    method OnPktSent(pkt: SentPkt)
      requires Valid()
      modifies this`sent, this`sentCount, this`bytesInFlight, this`lastAckEliciting, sent
      ensures Valid() && (sent == old(sent) || fresh(sent))
      ensures View() == OnSent(old(View()), pkt)
    {
      hide Normal;
      ghost var before := sent[..sentCount];
      if sentCount >= sent.Length {
        GrowSent(pkt);
      }
      sent[sentCount] := pkt;
      sentCount := sentCount + 1;
      assert sent[..sentCount] == before + [pkt];
      assert Ranges() == old(Ranges());
      if pkt.inFlight {
        bytesInFlight := bytesInFlight + pkt.sentBytes;
      }
      if pkt.ackEliciting {
        lastAckEliciting := pkt.sentTime;
      }
    }

    /** The range walk that decides whether an ACK frame covers a packet. */
    static method IsAcked(frame: Frames.AckFrame, pn: nat) returns (acked: bool)
      ensures acked <==> AckedBy(frame, pn)
    {
      var start := Sub64(frame.largestAcked, frame.firstAckRange);
      acked := start <= pn <= frame.largestAcked;
      var above: nat, r := start, 0;
      while r < |frame.ranges| && !acked
        invariant r <= |frame.ranges|
        invariant AckedBy(frame, pn) <==> acked || AckedByRanges(frame.ranges[r..], above, pn)
      {
        if above < frame.ranges[r].gap + 2 {
          break;
        }
        above := above - frame.ranges[r].gap - 2;
        var from := if above >= frame.ranges[r].ackRange then above - frame.ranges[r].ackRange else 0;
        acked := from <= pn <= above;
        above := from;
        assert frame.ranges[r..][1..] == frame.ranges[r + 1..];
        r := r + 1;
      }
    }

    /** The first loop of `nxp_ack_on_ack_recv`: takes acknowledged packets out of the array, in place. */
    method CompactAcked(frame: Frames.AckFrame, now: nat) returns (acked: seq<SentPkt>, sample: Option<nat>)
      requires sentCount <= sent.Length
      modifies this`sentCount, this`bytesInFlight, sent
      ensures sentCount <= sent.Length
      ensures sent[..sentCount] == Unacked(old(sent[..sentCount]), frame)
      ensures acked == Acked(old(sent[..sentCount]), frame)
      ensures bytesInFlight == Deduct(old(bytesInFlight), acked)
      ensures sample == RttSample(old(sent[..sentCount]), frame, now)
    {
      hide AckedBy, Acked, Unacked, RttSample, Deduct;
      ghost var xs := sent[..sentCount];
      var write := 0;
      acked, sample := [], None;
      AckStart(frame, now, bytesInFlight);
      for i := 0 to sentCount
        invariant write <= i && sentCount == |xs| && forall j :: i <= j < sentCount ==> sent[j] == xs[j]
        invariant sent[..write] == Unacked(xs[..i], frame) && acked == Acked(xs[..i], frame)
        invariant bytesInFlight == Deduct(old(bytesInFlight), acked)
        invariant sample == RttSample(xs[..i], frame, now)
      {
        var pkt := sent[i];
        AckStep(xs, i, frame, now);
        DeductStep(old(bytesInFlight), acked, pkt);
        var isAcked := IsAcked(frame, pkt.pktNum);
        if isAcked {
          if pkt.pktNum == frame.largestAcked && pkt.ackEliciting {
            sample := Some(Sub64(now, pkt.sentTime));
          }
          if pkt.inFlight && bytesInFlight >= pkt.sentBytes {
            bytesInFlight := bytesInFlight - pkt.sentBytes;
          }
          acked := acked + [pkt];
        } else {
          Keep(write, i);
          write := write + 1;
        }
      }
      assert xs[..sentCount] == xs;
      sentCount := write;
    }

    /** `detect_lost_packets`: one in-place pass; `lost` are the calls of `on_loss`. */
    method DetectLostPackets(now: nat, largest: nat) returns (lost: seq<SentPkt>)
      requires Valid()
      modifies this`sentCount, this`bytesInFlight, this`lossTime, sent
      ensures Valid()
      ensures View() == DetectLost(old(View()), now, largest).0
      ensures lost == Marked(DetectLost(old(View()), now, largest).1)
      ensures NoneDeclaredLost(old(sent[..sentCount])) ==>
              forall p :: p in sent[..sentCount] <==>
                p in old(sent[..sentCount]) &&
                (p.pktNum > largest || (p.pktNum + 3 > largest && InTime(rtt, now - p.sentTime)))
    {
      hide Normal, Filter, NoneDeclaredLost, InTime, TimeThreshold;
      var delay := LossDelay(rtt);
      if NoneDeclaredLost(View().sent) {
        DetectionIsExact(View(), now, largest, delay);
      }
      lost := CompactLost(now, largest, delay);
    }

    method CompactLost(now: nat, largest: nat, delay: nat) returns (lost: seq<SentPkt>)
      requires sentCount <= sent.Length
      modifies this`sentCount, this`bytesInFlight, this`lossTime, sent
      ensures sentCount <= sent.Length
      ensures sent[..sentCount] == Survivors(old(sent[..sentCount]), now, largest, delay)
      ensures lost == Marked(Lost(old(sent[..sentCount]), now, largest, delay))
      ensures bytesInFlight == Deduct(old(bytesInFlight), Lost(old(sent[..sentCount]), now, largest, delay))
      ensures lossTime == LossTime(old(sent[..sentCount]), now, largest, delay)
    {
      hide Lost, Survivors, LossTime, Marked, Deduct;
      ghost var xs := sent[..sentCount];
      ghost var gone: seq<SentPkt> := [];
      lossTime := NEVER;
      lost := [];
      var write := 0;
      LossStart(now, largest, delay, bytesInFlight);
      for i := 0 to sentCount
        invariant write <= i && sentCount == |xs| && forall j :: i <= j < sentCount ==> sent[j] == xs[j]
        invariant sent[..write] == Survivors(xs[..i], now, largest, delay)
        invariant gone == Lost(xs[..i], now, largest, delay) && lost == Marked(gone)
        invariant bytesInFlight == Deduct(old(bytesInFlight), gone)
        invariant lossTime == LossTime(xs[..i], now, largest, delay)
      {
        var pkt := sent[i];
        LossStep(xs, i, now, largest, delay);
        DeductStep(old(bytesInFlight), gone, pkt);
        MarkedStep(gone, pkt);
        if pkt.declaredLost {
          continue;
        }
        if pkt.pktNum > largest {
          Keep(write, i);
          write := write + 1;
          continue;
        }
        var reorderLost := pkt.pktNum + REORDER_THRESHOLD <= largest;
        var timeLost := pkt.sentTime + delay <= now;
        if reorderLost || timeLost {
          sent[i] := pkt.(declaredLost := true);
          if pkt.inFlight && bytesInFlight >= pkt.sentBytes {
            bytesInFlight := bytesInFlight - pkt.sentBytes;
          }
          gone := gone + [pkt];
          lost := lost + [sent[i]];
        } else {
          lossTime := Min(lossTime, pkt.sentTime + delay);
          Keep(write, i);
          write := write + 1;
        }
      }
      assert xs[..sentCount] == xs;
      sentCount := write;
    }

    /** Moves packet `i` down behind the packets kept so far. */
    method Keep(write: nat, i: nat)
      requires write <= i < sent.Length
      modifies sent
      ensures sent[..write + 1] == old(sent[..write]) + [old(sent[i])]
      ensures forall j :: write < j < sent.Length ==> sent[j] == old(sent[j])
    {
      sent[write] := sent[i];
    }

    /** `nxp_ack_on_ack_recv`; `acked` and `lost` are the calls of `on_ack` and `on_loss`. */
    method OnAckRecv(frame: Frames.AckFrame, now: nat) returns (acked: seq<SentPkt>, lost: seq<SentPkt>)
      requires Valid()
      modifies this`sentCount, this`bytesInFlight, this`rtt, this`ptoCount, this`lossTime, sent
      ensures Valid()
      ensures var r := OnAck(old(View()), frame, now); View() == r.0 && acked == r.1 && lost == Marked(r.2)
    {
      hide Normal, Filter, AckedBy, DetectLost, UpdateRtt, RttSample, Deduct;
      var sample;
      acked, sample := CompactAcked(frame, now);
      if sample.Some? {
        rtt := UpdateRtt(rtt, sample.value, frame.ackDelay);
      }
      ptoCount := 0;
      assert View() == RemoveAcked(old(View()), frame, now);
      lost := DetectLostPackets(now, frame.largestAcked);
    }

    /** `nxp_ack_on_loss_timeout`: a due loss timer runs detection up to the largest packet number outstanding. */
    method OnLossTimeout(now: nat) returns (lost: seq<SentPkt>)
      requires Valid()
      modifies this`sentCount, this`bytesInFlight, this`lossTime, this`ptoCount, sent
      ensures Valid()
      ensures var r := OnTimeout(old(View()), now); View() == r.0 && lost == Marked(r.1)
    {
      hide Normal, Filter, DetectLost;
      if lossTime != NEVER && now >= lossTime {
        var largest := 0;
        for i := 0 to sentCount
          invariant largest == LargestSent(sent[..i])
        {
          assert sent[..i + 1][..i] == sent[..i];
          if sent[i].pktNum > largest {
            largest := sent[i].pktNum;
          }
        }
        lost := DetectLostPackets(now, largest);
        return;
      }
      ptoCount := ptoCount + 1;
      lost := [];
    }
  }

  // ---------- One iteration of the compaction loops ----------

  lemma FilterStep<T>(keep: T -> bool, xs: seq<T>, i: nat)
    requires i < |xs|
    ensures Filter(keep, xs[..i + 1]) == Filter(keep, xs[..i]) + if keep(xs[i]) then [xs[i]] else []
  {
    assert xs[..i + 1][..i] == xs[..i];
  }

  lemma AckStart(frame: Frames.AckFrame, now: nat, bytes: nat)
    ensures Acked([], frame) == [] && Unacked([], frame) == [] && RttSample([], frame, now) == None &&
            Deduct(bytes, []) == bytes
  {
  }

  lemma AckStep(xs: seq<SentPkt>, i: nat, frame: Frames.AckFrame, now: nat)
    requires i < |xs|
    ensures Acked(xs[..i + 1], frame) == Acked(xs[..i], frame) + if AckedBy(frame, xs[i].pktNum) then [xs[i]] else []
    ensures Unacked(xs[..i + 1], frame) == Unacked(xs[..i], frame) +
            if AckedBy(frame, xs[i].pktNum) then [] else [xs[i]]
    ensures RttSample(xs[..i + 1], frame, now) ==
            if AckedBy(frame, xs[i].pktNum) && xs[i].pktNum == frame.largestAcked && xs[i].ackEliciting
            then Some(Sub64(now, xs[i].sentTime)) else RttSample(xs[..i], frame, now)
  {
    hide AckedBy;
    FilterStep((p: SentPkt) => AckedBy(frame, p.pktNum), xs, i);
    FilterStep((p: SentPkt) => !AckedBy(frame, p.pktNum), xs, i);
    assert xs[..i + 1][..i] == xs[..i];
  }

  lemma DeductStep(bytes: nat, xs: seq<SentPkt>, p: SentPkt)
    ensures var left := Deduct(bytes, xs);
            Deduct(bytes, xs + [p]) == if p.inFlight && left >= p.sentBytes then left - p.sentBytes else left
  {
    assert (xs + [p])[..|xs|] == xs;
  }

  lemma MarkedStep(xs: seq<SentPkt>, p: SentPkt)
    ensures Marked(xs + [p]) == Marked(xs) + [p.(declaredLost := true)]
  {
    assert (xs + [p])[..|xs|] == xs;
  }

  lemma LossStart(now: nat, largest: nat, delay: nat, bytes: nat)
    ensures Lost([], now, largest, delay) == [] && Survivors([], now, largest, delay) == []
    ensures LossTime([], now, largest, delay) == NEVER && Marked([]) == [] && Deduct(bytes, []) == bytes
  {
  }

  lemma LossStep(xs: seq<SentPkt>, i: nat, now: nat, largest: nat, delay: nat)
    requires i < |xs|
    ensures Lost(xs[..i + 1], now, largest, delay) ==
            Lost(xs[..i], now, largest, delay) + if IsLost(xs[i], now, largest, delay) then [xs[i]] else []
    ensures Survivors(xs[..i + 1], now, largest, delay) ==
            Survivors(xs[..i], now, largest, delay) + if Survives(xs[i], now, largest, delay) then [xs[i]] else []
    ensures LossTime(xs[..i + 1], now, largest, delay) ==
            var before := LossTime(xs[..i], now, largest, delay);
            if Survives(xs[i], now, largest, delay) && xs[i].pktNum <= largest
            then Min(before, xs[i].sentTime + delay) else before
  {
    FilterStep(p => IsLost(p, now, largest, delay), xs, i);
    FilterStep(p => Survives(p, now, largest, delay), xs, i);
    assert xs[..i + 1][..i] == xs[..i];
  }

  // ---------- The range edits ----------

  lemma ReplaceOne(rs: seq<Range>, i: nat, r: Range)
    requires i < |rs|
    ensures rs[i := r] == rs[..i] + ([r] + rs[i..][1..])
  {
  }

  lemma ReplaceTwo(rs: seq<Range>, i: nat, r: Range)
    requires i + 1 < |rs|
    ensures rs[i := r][..i + 1] + rs[i := r][i + 2..] == rs[..i] + ([r] + rs[i..][2..])
  {
  }

  lemma FirstRange(rs: seq<Range>)
    requires Normal(rs) && rs != []
    ensures rs[0].start <= rs[0].end
  {
  }

  lemma NoGaps(rs: seq<Range>)
    requires Normal(rs) && |rs| == 1
    ensures Gaps(rs) == []
  {
  }

  lemma GapsStep(rs: seq<Range>, i: nat)
    requires Normal(rs) && 1 <= i < |rs|
    ensures Normal(rs[i - 1..]) && Normal(rs[i..])
    ensures rs[i].start <= rs[i].end && rs[i].end + 2 <= rs[i - 1].start
    ensures Gaps(rs[i - 1..]) == [Frames.AckRange(rs[i - 1].start - rs[i].end - 2, rs[i].end - rs[i].start)] +
            Gaps(rs[i..])
  {
    assert rs[i - 1..][1..] == rs[i..];
  }

  /** The effect on the first range when the number touches it. */
  function Extended(rs: seq<Range>, pn: nat): (r: seq<Range>)
    requires rs != []
  {
    if pn == rs[0].end + 1 then [Range(rs[0].start, pn)] + rs[1..]
    else if |rs| > 1 && rs[1].end + 1 == pn then [Range(rs[1].start, rs[0].end)] + rs[2..]
    else [Range(pn, rs[0].end)] + rs[1..]
  }

  /** What insertion does where the number touches range `i`; the range above it never touches as well. */
  lemma ExtendAt(rs: seq<Range>, pn: nat, i: nat)
    requires Normal(rs) && i < |rs| && !Holds(rs, pn) && !Touches(rs[..i], pn)
    requires pn == rs[i].end + 1 || pn + 1 == rs[i].start
    ensures Touches(rs, pn)
    ensures i > 0 ==> rs[i - 1].start != pn + 1
    ensures Insert(rs, pn) == rs[..i] + Extended(rs[i..], pn)
  {
    forall j | 0 <= j < i ensures pn + 1 < rs[j].start {
      assert rs[..i][j] == rs[j];
    }
    InsertSkips(rs, pn, i);
    ExtendHead(rs[i..], pn);
  }

  lemma ExtendHead(rs: seq<Range>, pn: nat)
    requires rs != [] && rs[0].start <= rs[0].end && (pn == rs[0].end + 1 || pn + 1 == rs[0].start)
    ensures Insert(rs, pn) == Extended(rs, pn)
  {
  }

  lemma InsertAt(rs: seq<Range>, pn: nat, pos: nat)
    requires Normal(rs) && pos <= |rs| && !Holds(rs, pn) && !Touches(rs, pn)
    requires forall j :: 0 <= j < pos ==> pn < rs[j].start
    requires pos < |rs| ==> rs[pos].start <= pn
    ensures Insert(rs, pn) == rs[..pos] + [Range(pn, pn)] + rs[pos..]
  {
    forall j | 0 <= j < pos ensures pn + 1 < rs[j].start <= rs[j].end {
    }
    InsertSkips(rs, pn, pos);
    if pos < |rs| {
      assert !Contains(rs[pos], pn) && pn != rs[pos].end + 1;
    }
  }

  lemma {:induction false} InsertDuplicate(rs: seq<Range>, pn: nat)
    requires Normal(rs) && Holds(rs, pn)
    ensures Insert(rs, pn) == rs
  {
    var i :| 0 <= i < |rs| && Contains(rs[i], pn);
    forall j | 0 <= j < i ensures pn + 1 < rs[j].start <= rs[j].end {
    }
    InsertSkips(rs, pn, i);
  }
}
