/**
 * Sent-packet tracking, RTT estimation and loss detection (src/core/ack.c; sections 5.3 and 6.1 of
 * RFC 9002), as functions on values, and what holds over whole runs of them.
 */
module Recovery {
  import opened Bytes
  import Frames
  import AckRanges

  const INITIAL_RTT: nat := 333000
  const ACK_DELAY: nat := 25000
  const LOSS_DELAY_FACTOR: nat := 9
  const REORDER_THRESHOLD: nat := 3
  const MIN_LOSS_DELAY: nat := 1000
  const NEVER: nat := TWO_64 - 1  // UINT64_MAX

  datatype FrameRecord = FrameRecord(streamId: nat, offset: nat, length: nat, fin: bool)

  datatype SentPkt = SentPkt(pktNum: nat, sentTime: nat, sentBytes: nat, ackEliciting: bool, inFlight: bool,
                             declaredLost: bool, frames: seq<FrameRecord>)

  datatype Rtt = Rtt(hasSample: bool, smoothed: nat, variance: nat, min: nat, latest: nat)

  datatype State = State(sent: seq<SentPkt>, bytesInFlight: nat, lossTime: nat, ptoCount: nat,
                         lastAckEliciting: nat, rtt: Rtt)

  const Initial := State([], 0, NEVER, 0, 0, Rtt(false, INITIAL_RTT, INITIAL_RTT / 2, NEVER, 0))

  // ---------- Lists ----------

  function Filter<T>(keep: T -> bool, xs: seq<T>): (r: seq<T>)
    ensures |r| <= |xs|
  {
    if xs == [] then []
    else Filter(keep, xs[..|xs| - 1]) + if keep(xs[|xs| - 1]) then [xs[|xs| - 1]] else []
  }

  /** Sizes of the packets that count as in flight. */
  function InFlight(xs: seq<SentPkt>): (n: nat)
  {
    if xs == [] then 0
    else InFlight(xs[..|xs| - 1]) + if xs[|xs| - 1].inFlight then xs[|xs| - 1].sentBytes else 0
  }

  /** The guarded subtraction of the removal loops, packet by packet. */
  function Deduct(bytes: nat, xs: seq<SentPkt>): (n: nat)
  {
    if xs == [] then bytes
    else
      var left, p := Deduct(bytes, xs[..|xs| - 1]), xs[|xs| - 1];
      if p.inFlight && left >= p.sentBytes then left - p.sentBytes else left
  }

  // ---------- Operations ----------

  /** `nxp_ack_on_pkt_sent`. */
  function OnSent(st: State, pkt: SentPkt): (r: State)
  {
    st.(sent := st.sent + [pkt],
        bytesInFlight := st.bytesInFlight + if pkt.inFlight then pkt.sentBytes else 0,
        lastAckEliciting := if pkt.ackEliciting then pkt.sentTime else st.lastAckEliciting)
  }

  /** The sample without the peer's delay, unless that takes it below the minimum: the delay counts up to 25 ms. */
  function Adjusted(latest: nat, ackDelay: nat, min: nat): (a: nat)
    ensures a == latest || a + ackDelay == latest || a + 25000 == latest
    ensures a <= latest <= a + 25000 && latest <= a + ackDelay && (min <= latest ==> min <= a)
    ensures ackDelay <= 25000 && latest > ackDelay && latest >= min + ackDelay ==> a + ackDelay == latest
    ensures ackDelay >= 25000 && latest > 25000 && latest >= min + 25000 ==> a + 25000 == latest
  {
    var delay := Min(ackDelay, ACK_DELAY);
    if latest > delay && latest - delay >= min then latest - delay else latest
  }

  /** `update_rtt`. */
  function UpdateRtt(rtt: Rtt, latest: nat, ackDelay: nat): (r: Rtt)
  {
    var min := Min(rtt.min, latest);
    if !rtt.hasSample then Rtt(true, latest, latest / 2, min, latest)
    else
      var adjusted := Adjusted(latest, ackDelay, min);
      var diff := if rtt.smoothed > adjusted then rtt.smoothed - adjusted else adjusted - rtt.smoothed;
      Rtt(true, (7 * rtt.smoothed + adjusted) / 8, (3 * rtt.variance + diff) / 4, min, latest)
  }

  /** `d` microseconds are nine eighths of the larger RTT, rounded down, and at least a millisecond. */
  ghost predicate TimeThreshold(rtt: Rtt, d: int)
  {
    && 1000 <= d
    && 9 * rtt.smoothed < 8 * (d + 1) && 9 * rtt.latest < 8 * (d + 1)
    && (d == 1000 || 8 * d <= 9 * rtt.smoothed || 8 * d <= 9 * rtt.latest)
  }

  function LossDelay(rtt: Rtt): (d: nat)
    ensures TimeThreshold(rtt, d)
  {
    Max(Max(rtt.smoothed, rtt.latest) * LOSS_DELAY_FACTOR / 8, MIN_LOSS_DELAY)
  }

  /** Lost by the packet threshold or by the time threshold, among packets not above `largest`. */
  predicate IsLost(p: SentPkt, now: nat, largest: nat, delay: nat)
  {
    && !p.declaredLost
    && p.pktNum <= largest
    && (p.pktNum + REORDER_THRESHOLD <= largest || p.sentTime + delay <= now)
  }

  predicate Survives(p: SentPkt, now: nat, largest: nat, delay: nat)
  {
    !p.declaredLost && !IsLost(p, now, largest, delay)
  }

  function Lost(xs: seq<SentPkt>, now: nat, largest: nat, delay: nat): (r: seq<SentPkt>)
  {
    Filter(p => IsLost(p, now, largest, delay), xs)
  }

  function Survivors(xs: seq<SentPkt>, now: nat, largest: nat, delay: nat): (r: seq<SentPkt>)
  {
    Filter(p => Survives(p, now, largest, delay), xs)
  }

  /** The deadline kept by the detection loop. */
  function LossTime(xs: seq<SentPkt>, now: nat, largest: nat, delay: nat): (t: nat)
  {
    if xs == [] then NEVER
    else
      var before, p := LossTime(xs[..|xs| - 1], now, largest, delay), xs[|xs| - 1];
      if Survives(p, now, largest, delay) && p.pktNum <= largest then Min(before, p.sentTime + delay) else before
  }

  /** `detect_lost_packets`. */
  function DetectLost(st: State, now: nat, largest: nat): (r: (State, seq<SentPkt>))
  {
    var delay := LossDelay(st.rtt);
    var lost := Lost(st.sent, now, largest, delay);
    (st.(sent := Survivors(st.sent, now, largest, delay),
         bytesInFlight := Deduct(st.bytesInFlight, lost),
         lossTime := LossTime(st.sent, now, largest, delay)),
     lost)
  }

  function Acked(xs: seq<SentPkt>, f: Frames.AckFrame): (r: seq<SentPkt>)
  {
    Filter((p: SentPkt) => AckRanges.AckedBy(f, p.pktNum), xs)
  }

  function Unacked(xs: seq<SentPkt>, f: Frames.AckFrame): (r: seq<SentPkt>)
  {
    Filter((p: SentPkt) => !AckRanges.AckedBy(f, p.pktNum), xs)
  }

  /** The RTT sample of an ACK: the last acknowledged ack-eliciting packet with the largest number. */
  function RttSample(xs: seq<SentPkt>, f: Frames.AckFrame, now: nat): (r: Option<nat>)
  {
    if xs == [] then None
    else
      var p := xs[|xs| - 1];
      if AckRanges.AckedBy(f, p.pktNum) && p.pktNum == f.largestAcked && p.ackEliciting
      then Some(Sub64(now, p.sentTime))
      else RttSample(xs[..|xs| - 1], f, now)
  }

  /** The first half of `nxp_ack_on_ack_recv`: everything before loss detection. */
  function RemoveAcked(st: State, f: Frames.AckFrame, now: nat): (r: State)
  {
    var sample := RttSample(st.sent, f, now);
    st.(sent := Unacked(st.sent, f),
        bytesInFlight := Deduct(st.bytesInFlight, Acked(st.sent, f)),
        rtt := if sample.Some? then UpdateRtt(st.rtt, sample.value, f.ackDelay) else st.rtt,
        ptoCount := 0)
  }

  /** `nxp_ack_on_ack_recv`: the new state, the packets passed to `on_ack` and those passed to `on_loss`. */
  function OnAck(st: State, f: Frames.AckFrame, now: nat): (r: (State, seq<SentPkt>, seq<SentPkt>))
  {
    var (st', lost) := DetectLost(RemoveAcked(st, f, now), now, f.largestAcked);
    (st', Acked(st.sent, f), lost)
  }

  function LargestSent(xs: seq<SentPkt>): (n: nat)
  {
    if xs == [] then 0 else Max(LargestSent(xs[..|xs| - 1]), xs[|xs| - 1].pktNum)
  }

  /** `nxp_ack_on_loss_timeout`. */
  function OnTimeout(st: State, now: nat): (r: (State, seq<SentPkt>))
  {
    if st.lossTime != NEVER && now >= st.lossTime then DetectLost(st, now, LargestSent(st.sent))
    else (st.(ptoCount := st.ptoCount + 1), [])
  }

  /** `compute_pto`. */
  function Pto(rtt: Rtt): (t: nat)
    ensures !rtt.hasSample ==> t == 1024000
    ensures rtt.hasSample ==> t >= rtt.smoothed + 26000 && t >= rtt.smoothed + 4 * rtt.variance + 25000
    ensures rtt.hasSample ==> t == rtt.smoothed + 26000 || t == rtt.smoothed + 4 * rtt.variance + 25000
  {
    var (base, variance) := if rtt.hasSample then (rtt.smoothed, rtt.variance) else (INITIAL_RTT, INITIAL_RTT / 2);
    base + Max(4 * variance, 1000) + ACK_DELAY
  }

  /** `nxp_ack_loss_timeout`, with None for UINT64_MAX. */
  function LossTimeout(st: State): (t: Option<nat>)
  {
    if st.lossTime != NEVER then Some(st.lossTime)
    else if st.bytesInFlight == 0 then None
    else Some(st.lastAckEliciting + Pto(st.rtt) * Pow2(st.ptoCount))
  }

  // ---------- Filtering splits a list ----------

  lemma {:induction false} FilterMembers<T>(keep: T -> bool, xs: seq<T>, x: T)
    ensures x in Filter(keep, xs) <==> x in xs && keep(x)
  {
    if xs != [] {
      FilterMembers(keep, xs[..|xs| - 1], x);
      assert xs == xs[..|xs| - 1] + [xs[|xs| - 1]];
    }
  }

  /** The elements of a list, as often as they occur. */
  ghost function Bag<T>(xs: seq<T>): (m: multiset<T>)
  {
    multiset(xs)
  }

  lemma BagSnoc<T>(xs: seq<T>)
    requires xs != []
    ensures Bag(xs) == Bag(xs[..|xs| - 1]) + multiset{xs[|xs| - 1]}
  {
    assert xs == xs[..|xs| - 1] + [xs[|xs| - 1]];
  }

  lemma FilterSnoc<T>(keep: T -> bool, xs: seq<T>)
    requires xs != []
    ensures var init, last := xs[..|xs| - 1], xs[|xs| - 1];
            if keep(last) then Bag(Filter(keep, xs)) == Bag(Filter(keep, init)) + multiset{last}
            else Bag(Filter(keep, xs)) == Bag(Filter(keep, init))
  {
    if keep(xs[|xs| - 1]) {
      hide Bag;
      var kept := Filter(keep, xs);
      BagSnoc(kept);
      assert kept[..|kept| - 1] == Filter(keep, xs[..|xs| - 1]);
    } else {
      assert Filter(keep, xs) == Filter(keep, xs[..|xs| - 1]);
    }
  }

  lemma MoveOne<T>(k: multiset<T>, d: multiset<T>, x: multiset<T>)
    ensures (k + d) + x == (k + x) + d == k + (d + x)
  {
  }

  lemma {:induction false} FilterSplits<T>(keep: T -> bool, drop: T -> bool, xs: seq<T>)
    requires forall i :: 0 <= i < |xs| ==> (keep(xs[i]) <==> !drop(xs[i]))
    ensures Bag(xs) == Bag(Filter(keep, xs)) + Bag(Filter(drop, xs))
  {
    if xs != [] {
      hide Filter, Bag;
      var init, last := xs[..|xs| - 1], xs[|xs| - 1];
      FilterSplits(keep, drop, init);
      assert keep(xs[|xs| - 1]) <==> !drop(last);
      BagSnoc(xs);
      FilterSnoc(keep, xs);
      FilterSnoc(drop, xs);
      MoveOne(Bag(Filter(keep, init)), Bag(Filter(drop, init)), multiset{last});
    }
  }

  lemma InFlightSnoc(xs: seq<SentPkt>, p: SentPkt)
    ensures InFlight(xs + [p]) == InFlight(xs) + if p.inFlight then p.sentBytes else 0
  {
    assert (xs + [p])[..|xs|] == xs;
  }

  lemma {:induction false} InFlightSplits(keep: SentPkt -> bool, drop: SentPkt -> bool, xs: seq<SentPkt>)
    requires forall i :: 0 <= i < |xs| ==> (keep(xs[i]) <==> !drop(xs[i]))
    ensures InFlight(xs) == InFlight(Filter(keep, xs)) + InFlight(Filter(drop, xs))
  {
    if xs != [] {
      var init, last := xs[..|xs| - 1], xs[|xs| - 1];
      InFlightSplits(keep, drop, init);
      InFlightSnoc(if keep(last) then Filter(keep, init) else Filter(drop, init), last);
      assert if keep(last) then Filter(drop, xs) == Filter(drop, init) else Filter(keep, xs) == Filter(keep, init);
    }
  }

  /** When the counter covers the packets removed, no guarded subtraction skips. */
  lemma {:induction false} DeductExact(bytes: nat, xs: seq<SentPkt>)
    requires bytes >= InFlight(xs)
    ensures Deduct(bytes, xs) == bytes - InFlight(xs)
  {
    if xs != [] {
      DeductExact(bytes, xs[..|xs| - 1]);
    }
  }

  // ---------- Loss detection is exact ----------

  predicate NoneDeclaredLost(xs: seq<SentPkt>)
  {
    forall i :: 0 <= i < |xs| ==> !xs[i].declaredLost
  }

  /** The earliest deadline: every survivor's is at or after it, and it is `NEVER` or some survivor's. */
  lemma {:induction false} LossTimeIsEarliest(xs: seq<SentPkt>, now: nat, largest: nat, delay: nat)
    ensures var t := LossTime(xs, now, largest, delay);
            && (forall p :: p in Survivors(xs, now, largest, delay) && p.pktNum <= largest ==> t <= p.sentTime + delay)
            && t <= NEVER
            && (t == NEVER || exists p ::
                  p in Survivors(xs, now, largest, delay) && p.pktNum <= largest && t == p.sentTime + delay)
            && (now < NEVER ==> now < t)
  {
    if xs != [] {
      LossTimeIsEarliest(xs[..|xs| - 1], now, largest, delay);
      var last := xs[|xs| - 1];
      var before, after := Survivors(xs[..|xs| - 1], now, largest, delay), Survivors(xs, now, largest, delay);
      assert after == before + if Survives(last, now, largest, delay) then [last] else [];
      assert forall p :: p in before ==> p in after;
      if Survives(last, now, largest, delay) {
        assert last in after;
      }
    }
  }

  /** A packet sent this long ago is not overdue: less than a millisecond, or less than 9/8 of one of the RTTs. */
  ghost predicate InTime(rtt: Rtt, elapsed: int)
  {
    elapsed < 1000 || 8 * (elapsed + 1) <= 9 * rtt.smoothed || 8 * (elapsed + 1) <= 9 * rtt.latest
  }

  /** There is one time threshold, and it is the boundary of being in time. */
  lemma ThresholdIsTheBoundary(rtt: Rtt, d: int, elapsed: int)
    requires TimeThreshold(rtt, d)
    ensures InTime(rtt, elapsed) <==> elapsed < d
    ensures d == LossDelay(rtt)
  {
    hide LossDelay;
  }

  /**
   * One detection pass removes precisely the packets at or below `largest` that are out of the reorder
   * window or out of time, reports exactly those, and arms the timer for the earliest survivor.
   */
  lemma DetectionIsExact(st: State, now: nat, largest: nat, delay: nat)
    requires NoneDeclaredLost(st.sent) && TimeThreshold(st.rtt, delay)
    ensures var (st', lost) := DetectLost(st, now, largest);
            && (forall p :: p in st'.sent <==>
                  p in st.sent &&
                  (p.pktNum > largest || (p.pktNum + 3 > largest && InTime(st.rtt, now - p.sentTime))))
            && (forall p :: p in lost <==> p in st.sent && p !in st'.sent)
            && (forall p :: p in st'.sent && p.pktNum <= largest ==> st'.lossTime <= p.sentTime + delay)
            && (st'.lossTime == NEVER || exists p ::
                  p in st'.sent && p.pktNum <= largest && st'.lossTime == p.sentTime + delay)
            && (now < NEVER ==> now < st'.lossTime)
  {
    hide TimeThreshold, InTime, LossDelay, LossTime;
    ThresholdIsTheBoundary(st.rtt, delay, 0);
    LossTimeIsEarliest(st.sent, now, largest, delay);
    forall p
      ensures p in Survivors(st.sent, now, largest, delay) <==> p in st.sent && Survives(p, now, largest, delay)
    {
      FilterMembers(p => Survives(p, now, largest, delay), st.sent, p);
    }
    forall p: SentPkt ensures InTime(st.rtt, now - p.sentTime) <==> p.sentTime + delay > now {
      ThresholdIsTheBoundary(st.rtt, delay, now - p.sentTime);
    }
    forall p ensures p in Lost(st.sent, now, largest, delay) <==> p in st.sent && IsLost(p, now, largest, delay) {
      FilterMembers(p => IsLost(p, now, largest, delay), st.sent, p);
    }
  }

  // ---------- Whole runs ----------

  datatype Event = Sent(pkt: SentPkt) | AckReceived(frame: Frames.AckFrame, now: nat) | TimerFired(now: nat)

  /** A state together with every packet ever tracked, acknowledged and lost. */
  datatype Run = Run(st: State, tracked: seq<SentPkt>, acked: seq<SentPkt>, lost: seq<SentPkt>)

  function Step(run: Run, e: Event): (r: Run)
  {
    match e
    case Sent(pkt) => run.(st := OnSent(run.st, pkt), tracked := run.tracked + [pkt])
    case AckReceived(frame, now) =>
      var (st, acked, lost) := OnAck(run.st, frame, now);
      run.(st := st, acked := run.acked + acked, lost := run.lost + lost)
    case TimerFired(now) =>
      var (st, lost) := OnTimeout(run.st, now);
      run.(st := st, lost := run.lost + lost)
  }

  function Execute(events: seq<Event>): (run: Run)
  {
    if events == [] then Run(Initial, [], [], [])
    else Step(Execute(events[..|events| - 1]), events[|events| - 1])
  }

  predicate Increasing(xs: seq<SentPkt>)
  {
    forall i, j :: 0 <= i < j < |xs| ==> xs[i].pktNum < xs[j].pktNum
  }

  /** What the connection does when it sends: a fresh, higher packet number, not declared lost. */
  predicate Legal(run: Run, e: Event)
  {
    e.Sent? ==> !e.pkt.declaredLost && forall i :: 0 <= i < |run.tracked| ==> run.tracked[i].pktNum < e.pkt.pktNum
  }

  predicate LegalRun(events: seq<Event>)
  {
    events == [] || (LegalRun(events[..|events| - 1]) && Legal(Execute(events[..|events| - 1]), events[|events| - 1]))
  }

  /** The loss timer, when armed, stands for the deadline of an outstanding packet. */
  ghost predicate TimerIsBacked(st: State)
  {
    st.lossTime == NEVER || exists p :: p in st.sent && TimeThreshold(st.rtt, st.lossTime - p.sentTime)
  }

  ghost predicate Conserved(run: Run)
  {
    && multiset(run.tracked) == multiset(run.st.sent) + multiset(run.acked) + multiset(run.lost)
    && run.st.bytesInFlight == InFlight(run.st.sent)
    && NoneDeclaredLost(run.tracked) && NoneDeclaredLost(run.st.sent)
    && Increasing(run.tracked) && Increasing(run.st.sent)
    && (forall p :: p in run.st.sent ==> p in run.tracked)
    && TimerIsBacked(run.st)
  }

  lemma {:induction false} FilterKeepsOrder(keep: SentPkt -> bool, xs: seq<SentPkt>)
    requires Increasing(xs) && NoneDeclaredLost(xs)
    ensures Increasing(Filter(keep, xs)) && NoneDeclaredLost(Filter(keep, xs))
    ensures forall p :: p in Filter(keep, xs) ==> p in xs
  {
    forall p ensures p in Filter(keep, xs) <==> p in xs && keep(p) {
      FilterMembers(keep, xs, p);
    }
    if xs != [] {
      var init, last := xs[..|xs| - 1], xs[|xs| - 1];
      FilterKeepsOrder(keep, init);
      var kept := Filter(keep, init);
      forall i | 0 <= i < |kept| ensures kept[i].pktNum < last.pktNum {
        assert kept[i] in init;
      }
    }
  }

  /** Removal by a filter keeps the books: packets, order and bytes in flight. */
  lemma RemovalBalances(keep: SentPkt -> bool, drop: SentPkt -> bool, xs: seq<SentPkt>, bytes: nat)
    requires Increasing(xs) && NoneDeclaredLost(xs) && bytes == InFlight(xs)
    requires forall i :: 0 <= i < |xs| ==> (keep(xs[i]) <==> !drop(xs[i]))
    ensures multiset(xs) == multiset(Filter(keep, xs)) + multiset(Filter(drop, xs))
    ensures Deduct(bytes, Filter(drop, xs)) == InFlight(Filter(keep, xs))
    ensures Increasing(Filter(keep, xs)) && NoneDeclaredLost(Filter(keep, xs))
    ensures forall p :: p in Filter(keep, xs) ==> p in xs
  {
    FilterSplits(keep, drop, xs);
    InFlightSplits(keep, drop, xs);
    DeductExact(bytes, Filter(drop, xs));
    FilterKeepsOrder(keep, xs);
  }

  lemma DetectionBalances(st: State, now: nat, largest: nat)
    requires Increasing(st.sent) && NoneDeclaredLost(st.sent) && st.bytesInFlight == InFlight(st.sent)
    ensures var (st', lost) := DetectLost(st, now, largest);
            && multiset(st.sent) == multiset(st'.sent) + multiset(lost)
            && st'.bytesInFlight == InFlight(st'.sent)
            && Increasing(st'.sent) && NoneDeclaredLost(st'.sent)
            && (forall p :: p in st'.sent ==> p in st.sent)
            && TimerIsBacked(st')
  {
    var delay := LossDelay(st.rtt);
    RemovalBalances(p => Survives(p, now, largest, delay), p => IsLost(p, now, largest, delay), st.sent,
                    st.bytesInFlight);
    LossTimeIsEarliest(st.sent, now, largest, delay);
  }

  lemma AckBalances(st: State, f: Frames.AckFrame, now: nat)
    requires Increasing(st.sent) && NoneDeclaredLost(st.sent) && st.bytesInFlight == InFlight(st.sent)
    ensures var st' := RemoveAcked(st, f, now);
            && multiset(st.sent) == multiset(st'.sent) + multiset(Acked(st.sent, f))
            && st'.bytesInFlight == InFlight(st'.sent)
            && Increasing(st'.sent) && NoneDeclaredLost(st'.sent)
            && (forall p :: p in st'.sent ==> p in st.sent)
  {
    RemovalBalances((p: SentPkt) => !AckRanges.AckedBy(f, p.pktNum), (p: SentPkt) => AckRanges.AckedBy(f, p.pktNum),
                    st.sent, st.bytesInFlight);
  }

  lemma StepConserves(run: Run, e: Event)
    requires Conserved(run) && Legal(run, e)
    ensures Conserved(Step(run, e))
  {
    hide Conserved, Step;
    match e
    case Sent(pkt) => SendConserves(run, pkt);
    case AckReceived(frame, now) => AckConserves(run, frame, now);
    case TimerFired(now) => TimerConserves(run, now);
  }

  lemma AckConserves(run: Run, frame: Frames.AckFrame, now: nat)
    requires Conserved(run)
    ensures Conserved(Step(run, AckReceived(frame, now)))
  {
    hide Increasing, NoneDeclaredLost, InFlight, TimerIsBacked, DetectLost, RemoveAcked, Acked;
    AckBalances(run.st, frame, now);
    DetectionBalances(RemoveAcked(run.st, frame, now), now, frame.largestAcked);
  }

  lemma TimerConserves(run: Run, now: nat)
    requires Conserved(run)
    ensures Conserved(Step(run, TimerFired(now)))
  {
    hide Increasing, NoneDeclaredLost, InFlight, DetectLost;
    if run.st.lossTime != NEVER && now >= run.st.lossTime {
      DetectionBalances(run.st, now, LargestSent(run.st.sent));
    }
  }

  lemma IncreasingSnoc(xs: seq<SentPkt>, p: SentPkt)
    requires Increasing(xs) && NoneDeclaredLost(xs) && !p.declaredLost
    requires forall i :: 0 <= i < |xs| ==> xs[i].pktNum < p.pktNum
    ensures Increasing(xs + [p]) && NoneDeclaredLost(xs + [p])
  {
  }

  lemma SendConserves(run: Run, pkt: SentPkt)
    requires Conserved(run) && Legal(run, Sent(pkt))
    ensures Conserved(Step(run, Sent(pkt)))
  {
    hide Increasing, NoneDeclaredLost, InFlight, TimerIsBacked;
    var run' := Step(run, Sent(pkt));
    InFlightSnoc(run.st.sent, pkt);
    forall i | 0 <= i < |run.st.sent| ensures run.st.sent[i].pktNum < pkt.pktNum {
      assert run.st.sent[i] in run.tracked;
    }
    IncreasingSnoc(run.st.sent, pkt);
    IncreasingSnoc(run.tracked, pkt);
    assert multiset(run'.tracked) == multiset(run.tracked) + multiset{pkt};
    assert multiset(run'.st.sent) == multiset(run.st.sent) + multiset{pkt};
    TimerStaysBacked(run.st, pkt);
  }

  lemma TimerStaysBacked(st: State, pkt: SentPkt)
    requires TimerIsBacked(st)
    ensures TimerIsBacked(OnSent(st, pkt))
  {
    if st.lossTime != NEVER {
      var p :| p in st.sent && TimeThreshold(st.rtt, st.lossTime - p.sentTime);
      assert p in OnSent(st, pkt).sent;
    }
  }

  /** In every reachable state the books balance. */
  lemma {:induction false} ConservedAlways(events: seq<Event>)
    requires LegalRun(events)
    ensures Conserved(Execute(events))
  {
    if events != [] {
      ConservedAlways(events[..|events| - 1]);
      StepConserves(Execute(events[..|events| - 1]), events[|events| - 1]);
    }
  }

  lemma {:induction false} DistinctPackets(xs: seq<SentPkt>, p: SentPkt)
    requires Increasing(xs)
    ensures multiset(xs)[p] == if p in xs then 1 else 0
  {
    if xs != [] {
      var last := xs[|xs| - 1];
      DistinctPackets(xs[..|xs| - 1], p);
      assert xs == xs[..|xs| - 1] + [last];
    }
  }

  /** Every tracked packet is in exactly one place: still outstanding, acknowledged once, or lost once. */
  lemma ExactlyOneFate(events: seq<Event>, p: SentPkt)
    requires LegalRun(events) && p in Execute(events).tracked
    ensures var run := Execute(events);
            multiset(run.st.sent)[p] + multiset(run.acked)[p] + multiset(run.lost)[p] == 1
  {
    ConservedAlways(events);
    var run := Execute(events);
    DistinctPackets(run.tracked, p);
    assert multiset(run.tracked)[p] == 1;
  }

  /** While a packet that counts as in flight is outstanding, the loss timer is armed. */
  lemma TimerStaysArmed(events: seq<Event>, p: SentPkt)
    requires LegalRun(events) && p in Execute(events).st.sent && p.inFlight && p.sentBytes > 0
    ensures LossTimeout(Execute(events).st).Some?
  {
    ConservedAlways(events);
    InFlightPositive(Execute(events).st.sent, p);
  }

  lemma {:induction false} InFlightPositive(xs: seq<SentPkt>, p: SentPkt)
    requires p in xs && p.inFlight && p.sentBytes > 0
    ensures InFlight(xs) > 0
  {
    if p != xs[|xs| - 1] {
      InFlightPositive(xs[..|xs| - 1], p);
    }
  }

  lemma {:induction false} LargestSentBounds(xs: seq<SentPkt>, p: SentPkt)
    requires p in xs
    ensures p.pktNum <= LargestSent(xs)
  {
    if p != xs[|xs| - 1] {
      LargestSentBounds(xs[..|xs| - 1], p);
    }
  }

  /** A loss timer that fires on time declares at least one packet lost and moves past `now`: it never spins. */
  lemma FiringMakesProgress(events: seq<Event>, now: nat)
    requires LegalRun(events)
    requires var st := Execute(events).st; st.lossTime != NEVER && st.lossTime <= now < NEVER
    ensures var (st', lost) := OnTimeout(Execute(events).st, now); lost != [] && now < st'.lossTime
  {
    hide Execute, Increasing, InFlight, NoneDeclaredLost, OnTimeout;
    ConservedAlways(events);
    FiringLoses(Execute(events).st, now);
  }

  lemma FiringLoses(st: State, now: nat)
    requires TimerIsBacked(st) && NoneDeclaredLost(st.sent) && st.lossTime != NEVER && st.lossTime <= now < NEVER
    ensures var (st', lost) := OnTimeout(st, now); lost != [] && now < st'.lossTime
  {
    hide TimeThreshold, InTime, DetectLost, NoneDeclaredLost;
    var p :| p in st.sent && TimeThreshold(st.rtt, st.lossTime - p.sentTime);
    var delay := st.lossTime - p.sentTime;
    LargestSentBounds(st.sent, p);
    ThresholdIsTheBoundary(st.rtt, delay, now - p.sentTime);
    DetectionIsExact(st, now, LargestSent(st.sent), delay);
    assert p in OnTimeout(st, now).1;
  }

  // ---------- The probe timer ----------

  /** Without a loss deadline the timer runs from the last ack-eliciting packet, for the PTO doubled per expiry. */
  lemma ProbeBacksOff(st: State, now: nat)
    requires st.lossTime == NEVER && st.bytesInFlight > 0
    ensures LossTimeout(st).Some? && LossTimeout(OnTimeout(st, now).0).Some?
    ensures st.ptoCount == 0 ==> LossTimeout(st).value == st.lastAckEliciting + Pto(st.rtt)
    ensures LossTimeout(OnTimeout(st, now).0).value - st.lastAckEliciting ==
            2 * (LossTimeout(st).value - st.lastAckEliciting)
  {
    hide Pto;
    var t, n := Pto(st.rtt), st.ptoCount;
    assert Pow2(n + 1) == 2 * Pow2(n);
    assert t * Pow2(n + 1) == 2 * (t * Pow2(n));
  }

  /** Any ACK resets the backoff: without a loss deadline the timer stands one PTO after the last packet again. */
  lemma AckResetsTheBackoff(st: State, f: Frames.AckFrame, now: nat)
    ensures var st' := OnAck(st, f, now).0;
            && st'.ptoCount == 0 && st'.lastAckEliciting == st.lastAckEliciting
            && (st'.lossTime == NEVER && st'.bytesInFlight > 0 ==>
                  LossTimeout(st') == Some(st.lastAckEliciting + Pto(st'.rtt)))
  {
    hide Lost, Survivors, LossTime, Deduct, Pto, UpdateRtt;
  }

  /** A loss deadline comes first; without one there is no timer exactly when nothing is in flight. */
  lemma DeadlineComesFirst(st: State)
    ensures st.lossTime != NEVER ==> LossTimeout(st) == Some(st.lossTime)
    ensures st.lossTime == NEVER ==> (LossTimeout(st) == None <==> st.bytesInFlight == 0)
  {
  }

  /** The timer runs from the last ack-eliciting packet that was ever sent. */
  lemma {:induction false} TimerRunsFromTheLast(events: seq<Event>, i: nat)
    requires i < |events| && events[i].Sent? && events[i].pkt.ackEliciting
    requires forall j :: i < j < |events| ==> !(events[j].Sent? && events[j].pkt.ackEliciting)
    ensures Execute(events).st.lastAckEliciting == events[i].pkt.sentTime
  {
    hide DetectLost, RemoveAcked;
    var init, last := events[..|events| - 1], events[|events| - 1];
    if i < |init| {
      TimerRunsFromTheLast(init, i);
    }
    LastAckElicitingKept(Execute(init).st, last);
  }

  lemma LastAckElicitingKept(st: State, e: Event)
    ensures e.AckReceived? ==> OnAck(st, e.frame, e.now).0.lastAckEliciting == st.lastAckEliciting
    ensures e.TimerFired? ==> OnTimeout(st, e.now).0.lastAckEliciting == st.lastAckEliciting
  {
  }

  // ---------- RTT estimation over runs of samples ----------

  /** An ACK of its largest packet takes that packet's round trip as sample, if the packet asked for an ACK. */
  lemma {:induction false} SampleIsTaken(xs: seq<SentPkt>, f: Frames.AckFrame, now: nat, p: SentPkt)
    requires Increasing(xs) && p in xs && p.pktNum == f.largestAcked && f.firstAckRange <= f.largestAcked
    ensures RttSample(xs, f, now) == if p.ackEliciting then Some(Sub64(now, p.sentTime)) else None
  {
    hide Increasing;
    var init, last := xs[..|xs| - 1], xs[|xs| - 1];
    LastIsLargest(xs);
    if p in init {
      SampleIsTaken(init, f, now, p);
    } else {
      NoSample(init, f, now);
    }
  }

  lemma LastIsLargest(xs: seq<SentPkt>)
    requires Increasing(xs) && xs != []
    ensures Increasing(xs[..|xs| - 1]) && xs == xs[..|xs| - 1] + [xs[|xs| - 1]]
    ensures forall p :: p in xs[..|xs| - 1] ==> p.pktNum < xs[|xs| - 1].pktNum
  {
  }

  /** No sample is taken when the largest packet of the ACK is not outstanding. */
  lemma {:induction false} NoSample(xs: seq<SentPkt>, f: Frames.AckFrame, now: nat)
    requires forall p :: p in xs ==> p.pktNum != f.largestAcked
    ensures RttSample(xs, f, now) == None
  {
    if xs != [] {
      NoSample(xs[..|xs| - 1], f, now);
    }
  }

  /** The weights: smoothed RTT moves an eighth of the way to the sample, variance a quarter, each rounded down. */
  lemma RttWeights(rtt: Rtt, latest: nat, ackDelay: nat)
    ensures var r := UpdateRtt(rtt, latest, ackDelay);
            && r.hasSample && r.latest == latest && r.min <= latest && r.min <= rtt.min && r.min in {latest, rtt.min}
            && (!rtt.hasSample ==> r.smoothed == latest && 2 * r.variance <= latest < 2 * r.variance + 2)
    ensures rtt.hasSample ==>
            var r := UpdateRtt(rtt, latest, ackDelay);
            var a := Adjusted(latest, ackDelay, r.min);
            && 8 * (r.smoothed - a) <= 7 * (rtt.smoothed - a) < 8 * (r.smoothed - a) + 8
            && (rtt.smoothed >= a ==>
                  4 * r.variance <= 3 * rtt.variance + (rtt.smoothed - a) < 4 * r.variance + 4)
            && (rtt.smoothed <= a ==>
                  4 * r.variance <= 3 * rtt.variance + (a - rtt.smoothed) < 4 * r.variance + 4)
  {
    hide Adjusted;
  }

  /** The estimator after a list of (RTT sample, reported ACK delay) pairs. */
  function RttAfter(samples: seq<(nat, nat)>): (r: Rtt)
  {
    if samples == [] then Initial.rtt
    else UpdateRtt(RttAfter(samples[..|samples| - 1]), samples[|samples| - 1].0, samples[|samples| - 1].1)
  }

  lemma UpdateStaysWithin(rtt: Rtt, latest: nat, ackDelay: nat, lo: nat, hi: nat)
    requires lo <= latest <= hi < NEVER
    requires if rtt.hasSample then lo <= rtt.min <= rtt.smoothed <= hi && rtt.variance <= hi else rtt.min == NEVER
    ensures var r := UpdateRtt(rtt, latest, ackDelay);
      r.hasSample && lo <= r.min <= r.smoothed <= hi && r.variance <= hi && r.min == Min(rtt.min, latest)
  {
  }

  /** The minimum is exact, and smoothed RTT and variance stay between the extremes of the samples. */
  lemma {:induction false} RttStaysWithinSamples(samples: seq<(nat, nat)>, lo: nat, hi: nat)
    requires samples != [] && hi < NEVER
    requires forall i :: 0 <= i < |samples| ==> lo <= samples[i].0 <= hi
    ensures var r := RttAfter(samples);
            && r.hasSample && lo <= r.min <= r.smoothed <= hi && r.variance <= hi
            && (exists i :: 0 <= i < |samples| && samples[i].0 == r.min)
            && (forall i :: 0 <= i < |samples| ==> r.min <= samples[i].0)
  {
    hide UpdateRtt;
    var init, last := samples[..|samples| - 1], samples[|samples| - 1];
    if |samples| > 1 {
      RttStaysWithinSamples(init, lo, hi);
    } else {
      assert RttAfter(init) == Initial.rtt;
    }
    UpdateStaysWithin(RttAfter(init), last.0, last.1, lo, hi);
    if RttAfter(init).min <= last.0 && |samples| > 1 {
      var i :| 0 <= i < |init| && init[i].0 == RttAfter(init).min;
      assert samples[i] == init[i];
    }
  }
}
