/** BBR congestion control (src/congestion/bbr.c). */
module Bbr {
  import opened Bytes
  import WF = WindowedFilter

  const MIN_CWND: nat := 4800
  const MAX_DATAGRAM: nat := 1200
  const PROBE_RTT_CWND: nat := 4800
  const PROBE_RTT_DURATION: nat := 200000
  const RTPROP_WINDOW: nat := 10000000
  const BW_WINDOW: nat := 10
  const FULL_BW_ROUNDS: nat := 3

  datatype Phase = Startup | Drain | ProbeBw | ProbeRtt

  datatype State = State(
    phase: Phase, filter: WF.Filter, btlBw: nat, rtProp: nat, rtPropStamp: nat,
    pacingRate: nat, cwnd: nat, sendQuantum: nat, targetCwnd: nat,
    pacingGain: (nat, nat), cwndGain: (nat, nat), cycleIndex: nat, cycleStamp: nat,
    filledPipe: bool, fullBw: nat, fullBwCount: nat,
    probeRttDone: bool, probeRttDoneStamp: nat, rtPropExpired: bool,
    roundCount: nat, roundStart: bool, appLimited: bool, bytesInFlight: nat, priorCwnd: nat, lossInRound: nat)

  datatype AckInfo = AckInfo(now: nat, rtt: nat, bytesInFlight: nat, deliveryRate: nat, roundCount: nat,
                             isAppLimited: bool, roundStart: bool)

  datatype LossInfo = LossInfo(lostBytes: nat, bytesInFlight: nat)

  const STARTUP_GAIN: (nat, nat) := (277, 100)
  const DRAIN_GAIN: (nat, nat) := (100, 277)
  const UNIT_GAIN: (nat, nat) := (100, 100)
  const CWND_GAIN: (nat, nat) := (200, 100)

  /** The ProbeBW gain cycle: up, down, six rounds of cruise. */
  function CycleGain(i: nat): (g: (nat, nat))
  {
    if i == 0 then (125, 100) else if i == 1 then (75, 100) else (100, 100)
  }

  function ApplyGain(v: nat, gain: (nat, nat)): (r: nat)
  {
    if gain.1 == 0 then v else v * gain.0 / gain.1
  }

  /** The bandwidth-delay product, in bytes rounded down, and at least four packets. */
  function Bdp(b: State): (n: nat)
    ensures n >= 4800
  {
    if b.btlBw == 0 || b.rtProp == 0 then MIN_CWND else Max(b.btlBw * b.rtProp / 1000000, MIN_CWND)
  }

  /** `nxp_bbr_init_state`. */
  const Initial := State(Startup, WF.Init(BW_WINDOW, true), 0, 0, 0, 0, 10 * MAX_DATAGRAM, MAX_DATAGRAM, 0,
                         STARTUP_GAIN, CWND_GAIN, 0, 0, false, 0, 0, false, 0, false, 0, false, false, 0, 0, 0)

  // ---------- The steps of an ACK ----------

  function UpdateBandwidth(b: State, info: AckInfo): (r: State)
  {
    if info.deliveryRate == 0 then b
    else
      var filter := if !info.isAppLimited || info.deliveryRate > WF.Get(b.filter)
                    then WF.Update(b.filter, info.deliveryRate, info.roundCount) else b.filter;
      b.(filter := filter, btlBw := WF.Get(filter))
  }

  function UpdateMinRtt(b: State, info: AckInfo): (r: State)
  {
    if info.rtt == 0 then b
    else
      var expired := Sub64(info.now, b.rtPropStamp) > RTPROP_WINDOW;
      var b1 := if info.rtt <= b.rtProp || b.rtProp == 0 || expired
                then b.(rtProp := info.rtt, rtPropStamp := info.now) else b;
      b1.(rtPropExpired := expired)
  }

  /** `nxp_bbr_update_model`. */
  function UpdateModel(b: State, info: AckInfo): (r: State)
  {
    UpdateMinRtt(UpdateBandwidth(
      b.(roundCount := info.roundCount, roundStart := info.roundStart, appLimited := info.isAppLimited), info), info)
  }

  function EnterDrain(b: State): (r: State)
  {
    b.(filledPipe := true, phase := Drain, pacingGain := DRAIN_GAIN)
  }

  /** `nxp_bbr_check_startup_done`. */
  function CheckStartupDone(b: State): (r: State)
  {
    if !b.phase.Startup? || b.filledPipe || !b.roundStart then b
    else if b.btlBw >= ApplyGain(b.fullBw, (125, 100)) then b.(fullBw := b.btlBw, fullBwCount := 0)
    else
      var b1 := b.(fullBwCount := b.fullBwCount + 1);
      if b1.fullBwCount >= FULL_BW_ROUNDS then EnterDrain(b1) else b1
  }

  /** `nxp_bbr_check_drain_done`. */
  function CheckDrainDone(b: State): (r: State)
  {
    if b.phase.Drain? && b.bytesInFlight <= Bdp(b)
    then b.(phase := ProbeBw, cycleIndex := 0, pacingGain := (125, 100), cwndGain := (200, 100))
    else b
  }

  /** `nxp_bbr_update_probe_bw`. */
  function UpdateProbeBw(b: State, now: nat): (r: State)
  {
    if b.phase.ProbeBw? && b.rtProp > 0 && Sub64(now, b.cycleStamp) >= b.rtProp
    then
      var i := (b.cycleIndex + 1) % 8;
      b.(cycleIndex := i, cycleStamp := now, pacingGain := CycleGain(i))
    else b
  }

  function EnterProbeRtt(b: State): (r: State)
  {
    if !b.phase.ProbeRtt? && b.rtPropExpired && !b.appLimited
    then b.(priorCwnd := b.cwnd, phase := ProbeRtt, pacingGain := UNIT_GAIN, probeRttDone := false)
    else b
  }

  function LeaveProbeRtt(b: State, now: nat): (r: State)
  {
    var b1 := b.(rtPropExpired := false, cwnd := Max(b.priorCwnd, MIN_CWND));
    if b.filledPipe
    then b1.(phase := ProbeBw, cycleIndex := 0, cycleStamp := now, pacingGain := CycleGain(0), cwndGain := (200, 100))
    else b1.(phase := Startup, pacingGain := STARTUP_GAIN, cwndGain := CWND_GAIN)
  }

  /** `nxp_bbr_check_probe_rtt`. */
  function CheckProbeRtt(b: State, now: nat): (r: State)
  {
    var b0 := EnterProbeRtt(b);
    if !b0.phase.ProbeRtt? then b0
    else
      var b1 := if b0.cwnd > PROBE_RTT_CWND then b0.(cwnd := PROBE_RTT_CWND) else b0;
      if b1.bytesInFlight > PROBE_RTT_CWND then b1
      else
        var b2 := if b1.probeRttDone then b1 else b1.(probeRttDone := true, probeRttDoneStamp := now);
        if Sub64(now, b2.probeRttDoneStamp) >= PROBE_RTT_DURATION then LeaveProbeRtt(b2, now) else b2
  }

  function ControlledCwnd(b: State, target: nat): (cwnd: nat)
  {
    if b.phase.ProbeRtt? then b.cwnd
    else
      var raised := Max(b.cwnd, target);
      if b.filledPipe && raised > target * 2 then target else raised
  }

  /** `nxp_bbr_update_control`. */
  function UpdateControl(b: State): (r: State)
  {
    var rate := ApplyGain(b.btlBw, b.pacingGain);
    var target := Max(ApplyGain(Bdp(b), b.cwndGain), MIN_CWND);
    var quantum := Max(rate / 1000, 2 * MAX_DATAGRAM);
    b.(pacingRate := rate, targetCwnd := target, cwnd := ControlledCwnd(b, target),
       sendQuantum := if quantum > 65536 then 65536 else quantum)
  }

  /** The state machine of `bbr_on_ack`, before the control update. */
  function RunStateMachine(b: State, info: AckInfo): (r: State)
  {
    CheckProbeRtt(UpdateProbeBw(CheckDrainDone(CheckStartupDone(b)), info.now), info.now)
  }

  /** `bbr_on_ack`. */
  function OnAck(b: State, info: AckInfo): (r: State)
  {
    UpdateControl(RunStateMachine(UpdateModel(b.(bytesInFlight := info.bytesInFlight), info), info))
  }

  /** `bbr_on_loss`. */
  function OnLoss(b: State, info: LossInfo): (r: State)
  {
    var b1 := b.(bytesInFlight := info.bytesInFlight, lossInRound := b.lossInRound + info.lostBytes);
    if b1.phase.Startup? && !b1.filledPipe && b1.bytesInFlight > 0 && b1.lossInRound > b1.bytesInFlight / 5
    then EnterDrain(b1) else b1
  }

  /** `bbr_on_sent`. */
  function OnSent(b: State, bytesInFlight: nat): (r: State)
  {
    b.(bytesInFlight := bytesInFlight)
  }

  // ---------- What every event keeps ----------

  predicate GainMatches(b: State)
  {
    && b.cycleIndex < 8
    && b.cwndGain == CWND_GAIN
    && b.pacingGain == match b.phase
                       case Startup => STARTUP_GAIN
                       case Drain => DRAIN_GAIN
                       case ProbeBw => CycleGain(b.cycleIndex)
                       case ProbeRtt => UNIT_GAIN
  }

  /** Outside ProbeRTT the phase says whether the pipe has been filled. */
  predicate PhaseMatches(b: State)
  {
    (b.phase.Startup? ==> !b.filledPipe) && (b.phase.Drain? || b.phase.ProbeBw? ==> b.filledPipe)
  }

  predicate Inv(b: State)
  {
    && b.cwnd >= MIN_CWND && GainMatches(b) && PhaseMatches(b)
    && (!b.filledPipe ==> b.fullBwCount < FULL_BW_ROUNDS)
  }

  /** What the bandwidth model and STARTUP's plateau detection rest on. */
  ghost predicate SameModel(b: State, b': State)
  {
    && b'.filter == b.filter && b'.btlBw == b.btlBw
    && b'.fullBw == b.fullBw && b'.fullBwCount == b.fullBwCount && b'.filledPipe == b.filledPipe
    && b'.rtProp == b.rtProp && b'.rtPropStamp == b.rtPropStamp && b'.bytesInFlight == b.bytesInFlight
  }

  lemma BdpInNumbers(b: State)
    ensures var n, p := Bdp(b), b.btlBw * b.rtProp;
            n >= 4800 && p < 1000000 * (n + 1) && (n == 4800 || 1000000 * n <= p)
  {
    BdpOf(b.btlBw * b.rtProp);
    if b.btlBw == 0 || b.rtProp == 0 {
      assert b.btlBw * b.rtProp == 0;
    }
  }

  lemma BdpOf(p: nat)
    ensures var n := Max(p / 1000000, 4800); p < 1000000 * (n + 1) && (n == 4800 || 1000000 * n <= p)
  {
  }

  /** What an ACK sets the controls to: the window follows twice the BDP, and no further than twice that. */
  predicate Controlled(b: State)
  {
    && b.pacingRate == ApplyGain(b.btlBw, b.pacingGain) && b.targetCwnd == 2 * Bdp(b)
    && (b.phase.ProbeRtt? ==> b.cwnd == 4800)
    && (!b.phase.ProbeRtt? ==> b.cwnd >= b.targetCwnd && (b.filledPipe ==> b.cwnd <= 2 * b.targetCwnd))
    && (b.sendQuantum == 65536 || b.sendQuantum == 2400 || 1000 * b.sendQuantum <= b.pacingRate)
    && 2400 <= b.sendQuantum <= 65536
    && (b.sendQuantum == 65536 || b.pacingRate < 1000 * (b.sendQuantum + 1))
  }

  lemma BandwidthFrame(b: State, info: AckInfo)
    ensures var b' := UpdateBandwidth(b, info); b' == b.(filter := b'.filter, btlBw := b'.btlBw)
  {
    hide WF.Update;
  }

  lemma MinRttFrame(b: State, info: AckInfo)
    ensures var b' := UpdateMinRtt(b, info);
            b' == b.(rtProp := b'.rtProp, rtPropStamp := b'.rtPropStamp, rtPropExpired := b'.rtPropExpired)
  {
    hide Sub64;
  }

  /** The model update leaves the state machine alone. */
  lemma ModelKeeps(b: State, info: AckInfo)
    ensures var b' := UpdateModel(b, info);
            && (Inv(b) ==> Inv(b'))
            && b'.phase == b.phase && b'.roundStart == info.roundStart
            && b'.fullBw == b.fullBw && b'.fullBwCount == b.fullBwCount && b'.filledPipe == b.filledPipe
  {
    hide UpdateBandwidth, UpdateMinRtt;
    var b0 := b.(roundCount := info.roundCount, roundStart := info.roundStart, appLimited := info.isAppLimited);
    BandwidthFrame(b0, info);
    MinRttFrame(UpdateBandwidth(b0, info), info);
  }

  lemma StartupCheckKeeps(b: State)
    requires Inv(b)
    ensures Inv(CheckStartupDone(b)) && (b.filledPipe ==> CheckStartupDone(b).filledPipe)
  {
    hide ApplyGain;
  }

  lemma DrainAndCycleKeep(b: State, now: nat)
    requires Inv(b)
    ensures Inv(CheckDrainDone(b)) && SameModel(b, CheckDrainDone(b))
    ensures Inv(UpdateProbeBw(b, now)) && SameModel(b, UpdateProbeBw(b, now))
  {
    hide Bdp, Sub64;
  }

  lemma LeavingKeeps(b: State, now: nat)
    requires b.phase.ProbeRtt? && Inv(b)
    ensures Inv(LeaveProbeRtt(b, now)) && SameModel(b, LeaveProbeRtt(b, now)) && !LeaveProbeRtt(b, now).phase.ProbeRtt?
  {
  }

  lemma ProbeRttKeeps(b: State, now: nat)
    requires Inv(b)
    ensures var b' := CheckProbeRtt(b, now); Inv(b') && SameModel(b, b') && (b'.phase.ProbeRtt? ==> b'.cwnd == MIN_CWND)
  {
    hide Sub64, LeaveProbeRtt;
    var b0 := EnterProbeRtt(b);
    if b0.phase.ProbeRtt? && b0.bytesInFlight <= PROBE_RTT_CWND {
      var b1 := if b0.cwnd > PROBE_RTT_CWND then b0.(cwnd := PROBE_RTT_CWND) else b0;
      LeavingKeeps(if b1.probeRttDone then b1 else b1.(probeRttDone := true, probeRttDoneStamp := now), now);
    }
  }

  lemma ControlKeeps(b: State)
    requires Inv(b)
    ensures var b' := UpdateControl(b);
            && Inv(b') && SameModel(b, b') && b'.phase == b.phase
            && (b.phase.ProbeRtt? ==> b'.cwnd == b.cwnd)
            && ((b.phase.ProbeRtt? ==> b.cwnd == 4800) ==> Controlled(b'))
  {
    hide ApplyGain, Bdp;
    TwiceTheBdp(b);
    SameBdp(b, UpdateControl(b));
  }

  lemma SameBdp(b: State, b': State)
    requires b'.btlBw == b.btlBw && b'.rtProp == b.rtProp
    ensures Bdp(b') == Bdp(b)
  {
  }

  lemma TwiceTheBdp(b: State)
    ensures ApplyGain(Bdp(b), (200, 100)) == 2 * Bdp(b)
  {
    hide Bdp;
  }

  /** Everything after the plateau check. */
  lemma RestOfAckKeeps(b: State, now: nat)
    requires Inv(b)
    ensures var b' := UpdateControl(CheckProbeRtt(UpdateProbeBw(CheckDrainDone(b), now), now));
            Inv(b') && SameModel(b, b') && Controlled(b')
  {
    hide Inv, CheckDrainDone, UpdateProbeBw, CheckProbeRtt, UpdateControl, Controlled;
    DrainAndCycleKeep(b, now);
    var b1 := CheckDrainDone(b);
    DrainAndCycleKeep(b1, now);
    var b2 := UpdateProbeBw(b1, now);
    ProbeRttKeeps(b2, now);
    ControlKeeps(CheckProbeRtt(b2, now));
  }

  lemma AckKeeps(b: State, info: AckInfo)
    requires Inv(b)
    ensures var b' := OnAck(b, info);
            && Inv(b') && Controlled(b')
            && (b'.phase.ProbeRtt? ==> b'.cwnd == MIN_CWND)
            && (b.filledPipe ==> b'.filledPipe)
  {
    hide Bdp, UpdateModel, CheckStartupDone, CheckDrainDone, UpdateProbeBw, CheckProbeRtt, UpdateControl, ApplyGain;
    var b0 := b.(bytesInFlight := info.bytesInFlight);
    ModelKeeps(b0, info);
    StartupCheckKeeps(UpdateModel(b0, info));
    RestOfAckKeeps(CheckStartupDone(UpdateModel(b0, info)), info.now);
  }

  lemma LossKeeps(b: State, info: LossInfo)
    requires Inv(b)
    ensures Inv(OnLoss(b, info)) && OnLoss(b, info).cwnd == b.cwnd
    ensures b.filledPipe ==> OnLoss(b, info).filledPipe
    ensures OnLoss(b, info).phase == b.phase || (b.phase.Startup? && OnLoss(b, info).phase.Drain?)
  {
  }

  // ---------- Whole runs ----------

  datatype Event = Acked(ack: AckInfo) | Lost(loss: LossInfo) | Sent(bytesInFlight: nat)

  function Step(b: State, e: Event): (r: State)
  {
    match e
    case Acked(info) => OnAck(b, info)
    case Lost(info) => OnLoss(b, info)
    case Sent(n) => OnSent(b, n)
  }

  function Run(b: State, es: seq<Event>): (r: State)
  {
    if es == [] then b else Step(Run(b, es[..|es| - 1]), es[|es| - 1])
  }

  lemma StepKeeps(b: State, e: Event)
    requires Inv(b)
    ensures Inv(Step(b, e)) && (b.filledPipe ==> Step(b, e).filledPipe)
    ensures e.Acked? && Step(b, e).phase.ProbeRtt? ==> Step(b, e).cwnd == MIN_CWND
  {
    hide OnAck, OnLoss;
    match e
    case Acked(info) => AckKeeps(b, info);
    case Lost(info) => LossKeeps(b, info);
    case Sent(n) =>
  }

  /** Over any sequence of ACKs, losses and sends: the window never drops below four packets, gains match the phase. */
  lemma {:induction false} InvAlways(es: seq<Event>)
    ensures Inv(Run(Initial, es))
  {
    hide Step;
    if es == [] {
    } else {
      InvAlways(es[..|es| - 1]);
      StepKeeps(Run(Initial, es[..|es| - 1]), es[|es| - 1]);
    }
  }

  /**
   * The pacing rate in numbers: 2.77 times the bandwidth in STARTUP, the inverse in DRAIN, the bandwidth itself in
   * PROBE_RTT, and 5/4, 3/4 and then six times 1 in the cycle of PROBE_BW, each rounded down.
   */
  lemma PacingFollowsThePhase(es: seq<Event>, info: AckInfo)
    ensures var b := OnAck(Run(Initial, es), info);
            var rate, bw := b.pacingRate, b.btlBw;
            && (b.phase.Startup? ==> 100 * rate <= 277 * bw < 100 * rate + 100)
            && (b.phase.Drain? ==> 277 * rate <= 100 * bw < 277 * rate + 277)
            && (b.phase.ProbeRtt? ==> rate == bw)
            && (b.phase.ProbeBw? && b.cycleIndex == 0 ==> 4 * rate <= 5 * bw < 4 * rate + 4)
            && (b.phase.ProbeBw? && b.cycleIndex == 1 ==> 4 * rate <= 3 * bw < 4 * rate + 4)
            && (b.phase.ProbeBw? && b.cycleIndex > 1 ==> rate == bw)
  {
    hide OnAck, Run, Bdp;
    InvAlways(es);
    AckKeeps(Run(Initial, es), info);
  }

  /** After every ACK of every run the controls follow the model, and the window target is twice the BDP. */
  lemma ControlledAlways(es: seq<Event>, info: AckInfo)
    ensures Controlled(OnAck(Run(Initial, es), info))
  {
    hide OnAck, Run, Controlled;
    InvAlways(es);
    AckKeeps(Run(Initial, es), info);
  }

  // ---------- When the phases change ----------

  /** The least RTT is out of date: it was last measured more than ten seconds ago. */
  predicate OutOfDate(b: State, info: AckInfo)
  {
    if info.rtt > 0 then Sub64(info.now, b.rtPropStamp) > 10000000 else b.rtPropExpired
  }

  lemma ModelOutOfDate(b: State, info: AckInfo)
    ensures UpdateModel(b, info).rtPropExpired == OutOfDate(b, info)
    ensures UpdateModel(b, info).bytesInFlight == b.bytesInFlight
    ensures UpdateModel(b, info).appLimited == info.isAppLimited
    ensures UpdateModel(b, info).probeRttDone == b.probeRttDone
    ensures UpdateModel(b, info).probeRttDoneStamp == b.probeRttDoneStamp
  {
    hide UpdateBandwidth, Sub64;
    var b0 := b.(roundCount := info.roundCount, roundStart := info.roundStart, appLimited := info.isAppLimited);
    BandwidthFrame(b0, info);
  }

  /** What the decisions about DRAIN and PROBE_RTT rest on. */
  ghost predicate SameProbe(b: State, b': State)
  {
    && b'.rtPropExpired == b.rtPropExpired && b'.appLimited == b.appLimited && b'.bytesInFlight == b.bytesInFlight
    && b'.probeRttDone == b.probeRttDone && b'.probeRttDoneStamp == b.probeRttDoneStamp
    && b'.btlBw == b.btlBw && b'.rtProp == b.rtProp
  }

  lemma StartupPhase(b: State)
    requires Inv(b)
    ensures var c := CheckStartupDone(b);
            && SameProbe(b, c) && (!b.phase.Startup? ==> c == b)
            && (b.phase.Startup? ==> c.phase == if c.filledPipe then Drain else Startup)
  {
    hide ApplyGain;
  }

  lemma DrainPhase(b: State, now: nat)
    ensures var d := UpdateProbeBw(CheckDrainDone(b), now);
            && SameProbe(b, d) && d.filledPipe == b.filledPipe
            && d.phase == if b.phase.Drain? && b.bytesInFlight <= Bdp(b) then ProbeBw else b.phase
  {
    hide Bdp, Sub64;
  }

  lemma ProbePhase(b: State, now: nat)
    ensures CheckProbeRtt(b, now).phase ==
            if b.phase.ProbeRtt? then
              if b.bytesInFlight > 4800 || !b.probeRttDone || Sub64(now, b.probeRttDoneStamp) < 200000 then ProbeRtt
              else if b.filledPipe then ProbeBw else Startup
            else if b.rtPropExpired && !b.appLimited then ProbeRtt else b.phase
  {
    assert Sub64(now, now) == 0;
    hide Sub64;
  }

  /** The phase after an ACK, from the model that the ACK leaves. */
  lemma AckPhase(b: State, info: AckInfo)
    requires Inv(b)
    ensures var m := UpdateModel(b.(bytesInFlight := info.bytesInFlight), info);
            var done := CheckStartupDone(m);
            OnAck(b, info).phase ==
            if b.phase.ProbeRtt? then
              if info.bytesInFlight > 4800 || !b.probeRttDone || Sub64(info.now, b.probeRttDoneStamp) < 200000
              then ProbeRtt else if b.filledPipe then ProbeBw else Startup
            else if OutOfDate(b, info) && !info.isAppLimited then ProbeRtt
            else if done.phase.Drain? && info.bytesInFlight <= Bdp(m) then ProbeBw else done.phase
  {
    hide UpdateModel, CheckStartupDone, CheckDrainDone, UpdateProbeBw, CheckProbeRtt, Bdp, Sub64;
    var b0 := b.(bytesInFlight := info.bytesInFlight);
    var m := UpdateModel(b0, info);
    ModelKeeps(b0, info);
    ModelOutOfDate(b0, info);
    StartupPhase(m);
    var done := CheckStartupDone(m);
    DrainPhase(done, info.now);
    SameBdp(m, done);
    var d := UpdateProbeBw(CheckDrainDone(done), info.now);
    ProbePhase(d, info.now);
    ControlPhase(CheckProbeRtt(d, info.now));
  }

  lemma ControlPhase(b: State)
    ensures UpdateControl(b).phase == b.phase
  {
    hide ApplyGain, Bdp;
  }

  /**
   * PROBE_RTT begins exactly when the least RTT is out of date and the application is not the limit; it ends exactly
   * when 200 ms have passed since no more than four packets were in flight, and that is still so.
   */
  lemma ProbeRttExactlyWhen(es: seq<Event>, info: AckInfo)
    ensures var b, b' := Run(Initial, es), OnAck(Run(Initial, es), info);
            if b.phase.ProbeRtt? then
              && (b'.phase.ProbeRtt? <==> info.bytesInFlight > 4800 || !b.probeRttDone ||
                                          Sub64(info.now, b.probeRttDoneStamp) < 200000)
              && (!b'.phase.ProbeRtt? ==> b'.phase == if b.filledPipe then ProbeBw else Startup)
            else b'.phase.ProbeRtt? <==> OutOfDate(b, info) && !info.isAppLimited
  {
    hide OnAck, Run, UpdateModel, Bdp, Sub64, CheckStartupDone;
    InvAlways(es);
    var b := Run(Initial, es);
    AckPhase(b, info);
    var m := UpdateModel(b.(bytesInFlight := info.bytesInFlight), info);
    ModelKeeps(b.(bytesInFlight := info.bytesInFlight), info);
    StartupPhase(m);
  }

  /** PROBE_RTT gives the window back that it found, within the bounds that hold outside of it. */
  lemma ProbeRttGivesTheWindowBack(es: seq<Event>, info: AckInfo)
    ensures var b, b' := Run(Initial, es), OnAck(Run(Initial, es), info);
            && (!b.phase.ProbeRtt? && b'.phase.ProbeRtt? ==> b'.priorCwnd == b.cwnd)
            && (b.phase.ProbeRtt? && b'.phase.ProbeRtt? ==> b'.priorCwnd == b.priorCwnd)
            && (b.phase.ProbeRtt? && !b'.phase.ProbeRtt? ==>
                  var w := Max(Max(b.priorCwnd, 4800), b'.targetCwnd);
                  b'.cwnd == if b'.filledPipe && w > 2 * b'.targetCwnd then b'.targetCwnd else w)
  {
    hide OnAck, Run, Inv, Sub64;
    InvAlways(es);
    WindowStep(Run(Initial, es), info);
  }

  lemma WindowStep(b: State, info: AckInfo)
    requires Inv(b)
    ensures var b' := OnAck(b, info);
            && (!b.phase.ProbeRtt? && b'.phase.ProbeRtt? ==> b'.priorCwnd == b.cwnd)
            && (b.phase.ProbeRtt? && b'.phase.ProbeRtt? ==> b'.priorCwnd == b.priorCwnd)
            && (b.phase.ProbeRtt? && !b'.phase.ProbeRtt? ==>
                  var w := Max(Max(b.priorCwnd, 4800), b'.targetCwnd);
                  b'.cwnd == if b'.filledPipe && w > 2 * b'.targetCwnd then b'.targetCwnd else w)
  {
    hide UpdateModel, CheckStartupDone, CheckDrainDone, UpdateProbeBw, CheckProbeRtt, UpdateControl, Sub64;
    var b0 := b.(bytesInFlight := info.bytesInFlight);
    var m := UpdateModel(b0, info);
    ModelKeeps(b0, info);
    ModelWindow(b0, info);
    StartupPhase(m);
    StartupWindow(m);
    var done := CheckStartupDone(m);
    DrainPhase(done, info.now);
    DrainWindow(done, info.now);
    var d := UpdateProbeBw(CheckDrainDone(done), info.now);
    ProbeWindow(d, info.now);
    ControlWindow(CheckProbeRtt(d, info.now));
  }

  lemma ModelWindow(b: State, info: AckInfo)
    ensures UpdateModel(b, info).cwnd == b.cwnd && UpdateModel(b, info).priorCwnd == b.priorCwnd
  {
    hide UpdateBandwidth, UpdateMinRtt;
    var b0 := b.(roundCount := info.roundCount, roundStart := info.roundStart, appLimited := info.isAppLimited);
    BandwidthFrame(b0, info);
    MinRttFrame(UpdateBandwidth(b0, info), info);
  }

  lemma StartupWindow(b: State)
    ensures CheckStartupDone(b).cwnd == b.cwnd && CheckStartupDone(b).priorCwnd == b.priorCwnd
  {
    hide ApplyGain;
  }

  lemma DrainWindow(b: State, now: nat)
    ensures var d := UpdateProbeBw(CheckDrainDone(b), now); d.cwnd == b.cwnd && d.priorCwnd == b.priorCwnd
  {
    hide Bdp, Sub64;
  }

  lemma ProbeWindow(b: State, now: nat)
    ensures var p := CheckProbeRtt(b, now);
            && (!b.phase.ProbeRtt? && p.phase.ProbeRtt? ==> p.priorCwnd == b.cwnd)
            && (b.phase.ProbeRtt? && p.phase.ProbeRtt? ==> p.priorCwnd == b.priorCwnd)
            && (b.phase.ProbeRtt? && !p.phase.ProbeRtt? ==> p.cwnd == Max(b.priorCwnd, 4800))
  {
    assert Sub64(now, now) == 0;
    hide Sub64;
  }

  lemma ControlWindow(b: State)
    ensures var b' := UpdateControl(b);
            && b'.phase == b.phase && b'.priorCwnd == b.priorCwnd
            && (!b.phase.ProbeRtt? ==>
                  var w := Max(b.cwnd, b'.targetCwnd);
                  b'.cwnd == if b'.filledPipe && w > 2 * b'.targetCwnd then b'.targetCwnd else w)
  {
    hide ApplyGain, Bdp;
  }

  /** DRAIN ends exactly when no more than the BDP of the updated model is in flight, unless PROBE_RTT comes first. */
  lemma DrainEndsExactlyWhen(es: seq<Event>, info: AckInfo)
    requires Run(Initial, es).phase.Drain?
    ensures var b, b' := Run(Initial, es), OnAck(Run(Initial, es), info);
            if OutOfDate(b, info) && !info.isAppLimited then b'.phase.ProbeRtt?
            else b'.phase == if info.bytesInFlight <= Bdp(b') then ProbeBw else Drain
  {
    hide OnAck, Run, UpdateModel, Bdp, Sub64, CheckStartupDone;
    InvAlways(es);
    var b := Run(Initial, es);
    AckPhase(b, info);
    AckModel(b, info);
    var m := UpdateModel(b.(bytesInFlight := info.bytesInFlight), info);
    ModelKeeps(b.(bytesInFlight := info.bytesInFlight), info);
    StartupPhase(m);
    SameBdp(m, OnAck(b, info));
  }

  /** Bandwidth and least RTT after an ACK are those of the model update. */
  lemma AckModel(b: State, info: AckInfo)
    requires Inv(b)
    ensures var m, b' := UpdateModel(b.(bytesInFlight := info.bytesInFlight), info), OnAck(b, info);
            && b'.btlBw == m.btlBw && b'.filter == m.filter
            && b'.rtProp == m.rtProp && b'.rtPropStamp == m.rtPropStamp
  {
    hide UpdateModel, CheckStartupDone, CheckDrainDone, UpdateProbeBw, CheckProbeRtt, UpdateControl, Controlled;
    var b0 := b.(bytesInFlight := info.bytesInFlight);
    var m := UpdateModel(b0, info);
    ModelKeeps(b0, info);
    StartupCheckKeeps(m);
    StartupPhase(m);
    StartupStamp(m);
    RestOfAckKeeps(CheckStartupDone(m), info.now);
  }

  lemma StartupStamp(b: State)
    ensures CheckStartupDone(b).rtPropStamp == b.rtPropStamp && CheckStartupDone(b).filter == b.filter
  {
    hide ApplyGain;
  }

  /** A loss ends STARTUP exactly when more than a fifth of what is in flight has been lost. */
  lemma LossEndsStartupExactlyWhen(es: seq<Event>, info: LossInfo)
    requires Run(Initial, es).phase.Startup?
    ensures var b, b' := Run(Initial, es), OnLoss(Run(Initial, es), info);
            if info.bytesInFlight > 0 && 5 * (b.lossInRound + info.lostBytes) > info.bytesInFlight
            then b'.phase.Drain? && b'.filledPipe else b'.phase.Startup?
  {
    hide Run;
    InvAlways(es);
  }

  /** In PROBE_BW the gain cycle advances by one exactly when a round trip has passed since it last did. */
  lemma CycleAdvancesExactlyWhen(es: seq<Event>, info: AckInfo)
    requires Run(Initial, es).phase.ProbeBw? && OnAck(Run(Initial, es), info).phase.ProbeBw?
    ensures var b, b' := Run(Initial, es), OnAck(Run(Initial, es), info);
            if b'.rtProp > 0 && Sub64(info.now, b.cycleStamp) >= b'.rtProp
            then b'.cycleIndex == (if b.cycleIndex == 7 then 0 else b.cycleIndex + 1) && b'.cycleStamp == info.now
            else b'.cycleIndex == b.cycleIndex && b'.cycleStamp == b.cycleStamp
  {
    hide OnAck, Run, Inv;
    InvAlways(es);
    CycleStep(Run(Initial, es), info);
  }

  lemma CycleStep(b: State, info: AckInfo)
    requires Inv(b) && b.phase.ProbeBw? && OnAck(b, info).phase.ProbeBw?
    ensures var b' := OnAck(b, info);
            if b'.rtProp > 0 && Sub64(info.now, b.cycleStamp) >= b'.rtProp
            then b'.cycleIndex == (if b.cycleIndex == 7 then 0 else b.cycleIndex + 1) && b'.cycleStamp == info.now
            else b'.cycleIndex == b.cycleIndex && b'.cycleStamp == b.cycleStamp
  {
    hide UpdateModel, UpdateProbeBw, CheckProbeRtt, UpdateControl, Sub64, OutOfDate;
    var b0 := b.(bytesInFlight := info.bytesInFlight);
    var m := UpdateModel(b0, info);
    ModelKeeps(b0, info);
    ModelCycle(b0, info);
    AckModel(b, info);
    assert CheckDrainDone(CheckStartupDone(m)) == m;
    CycleOnly(m, info.now);
    var c := UpdateProbeBw(m, info.now);
    ProbePhase(c, info.now);
    ControlPhase(CheckProbeRtt(c, info.now));
    ProbeKeepsCycle(c, info.now);
    ControlKeepsCycle(CheckProbeRtt(c, info.now));
  }

  lemma ModelCycle(b: State, info: AckInfo)
    ensures UpdateModel(b, info).cycleIndex == b.cycleIndex && UpdateModel(b, info).cycleStamp == b.cycleStamp
  {
    hide UpdateBandwidth, UpdateMinRtt;
    var b0 := b.(roundCount := info.roundCount, roundStart := info.roundStart, appLimited := info.isAppLimited);
    BandwidthFrame(b0, info);
    MinRttFrame(UpdateBandwidth(b0, info), info);
  }

  lemma CycleOnly(b: State, now: nat)
    requires b.phase.ProbeBw? && b.cycleIndex < 8
    ensures var c := UpdateProbeBw(b, now);
            && c.phase.ProbeBw?
            && if b.rtProp > 0 && Sub64(now, b.cycleStamp) >= b.rtProp
               then c.cycleIndex == (if b.cycleIndex == 7 then 0 else b.cycleIndex + 1) && c.cycleStamp == now
               else c == b
  {
    hide Sub64;
  }

  lemma ProbeKeepsCycle(b: State, now: nat)
    requires b.phase.ProbeBw? && CheckProbeRtt(b, now).phase.ProbeBw?
    ensures CheckProbeRtt(b, now) == b
  {
    assert Sub64(now, now) == 0;
    hide Sub64;
  }

  lemma ControlKeepsCycle(b: State)
    ensures UpdateControl(b).cycleIndex == b.cycleIndex && UpdateControl(b).cycleStamp == b.cycleStamp
  {
    hide ApplyGain, Bdp;
  }

  /**
   * The bandwidth estimate: a sample above it replaces it at once, samples taken while the application was the limit
   * count only then, and every other sample goes into the windowed maximum.
   */
  lemma BandwidthStep(b: State, info: AckInfo)
    requires Inv(b) && b.filter.isMax
    ensures var b', best := OnAck(b, info), WF.Get(b.filter);
            && (info.deliveryRate > best ==> b'.btlBw == info.deliveryRate)
            && (info.deliveryRate == 0 ==> b'.filter == b.filter && b'.btlBw == b.btlBw)
            && (info.isAppLimited && 0 < info.deliveryRate <= best ==> b'.filter == b.filter && b'.btlBw == best)
            && (!info.isAppLimited && 0 < info.deliveryRate ==>
                  && b'.filter == WF.Update(b.filter, info.deliveryRate, info.roundCount)
                  && b'.btlBw == WF.Get(b'.filter))
  {
    hide OnAck, UpdateMinRtt;
    AckModel(b, info);
    var b0 := b.(bytesInFlight := info.bytesInFlight, roundCount := info.roundCount, roundStart := info.roundStart,
                 appLimited := info.isAppLimited);
    MinRttFrame(UpdateBandwidth(b0, info), info);
  }

  // ---------- The least RTT ----------

  /** An ACK with an RTT sample keeps the smaller of the two, unless the old one is out of date or missing. */
  lemma LeastRttStep(b: State, info: AckInfo)
    requires Inv(b) && info.rtt > 0
    ensures var b' := OnAck(b, info);
            if b.rtProp == 0 || info.rtt <= b.rtProp || Sub64(info.now, b.rtPropStamp) > 10000000
            then b'.rtProp == info.rtt && b'.rtPropStamp == info.now
            else b'.rtProp == b.rtProp && b'.rtPropStamp == b.rtPropStamp
  {
    hide OnAck, UpdateBandwidth, Sub64;
    AckModel(b, info);
    var b0 := b.(bytesInFlight := info.bytesInFlight, roundCount := info.roundCount, roundStart := info.roundStart,
                 appLimited := info.isAppLimited);
    BandwidthFrame(b0, info);
  }

  /** ACKs with RTT samples, in the order of their times, within ten seconds. */
  predicate WithinTenSeconds(infos: seq<AckInfo>)
  {
    && (forall i :: 0 <= i < |infos| ==> infos[i].rtt > 0 && infos[i].now < TWO_64)
    && (forall i, j :: 0 <= i <= j < |infos| ==> infos[i].now <= infos[j].now <= infos[i].now + 10000000)
  }

  function Acks(infos: seq<AckInfo>): (es: seq<Event>)
  {
    seq(|infos|, i requires 0 <= i < |infos| => Acked(infos[i]))
  }

  /** Over ten seconds of ACKs the least RTT is exactly the minimum of their samples. */
  lemma {:induction false} LeastRttIsTheMinimum(infos: seq<AckInfo>)
    requires infos != [] && WithinTenSeconds(infos)
    ensures var b := Run(Initial, Acks(infos));
            && (forall i :: 0 <= i < |infos| ==> b.rtProp <= infos[i].rtt)
            && (exists i :: 0 <= i < |infos| && infos[i].rtt == b.rtProp && infos[i].now == b.rtPropStamp)
  {
    hide OnAck, Run, Inv, Acks, Sub64;
    var init, last := infos[..|infos| - 1], infos[|infos| - 1];
    InvAlways(Acks(init));
    var b := Run(Initial, Acks(init));
    LastAck(infos);
    LeastRttStep(b, last);
    if init != [] {
      LeastRttIsTheMinimum(init);
      var i :| 0 <= i < |init| && init[i].rtt == b.rtProp && init[i].now == b.rtPropStamp;
      assert infos[i] == init[i];
      Elapsed(last.now, b.rtPropStamp);
    }
  }

  lemma Elapsed(a: nat, b: nat)
    requires b <= a < TWO_64
    ensures Sub64(a, b) == a - b
  {
  }

  lemma LastAck(infos: seq<AckInfo>)
    requires infos != []
    ensures var init, last := infos[..|infos| - 1], infos[|infos| - 1];
            && Run(Initial, Acks(infos)) == OnAck(Run(Initial, Acks(init)), last)
            && (init == [] ==> Run(Initial, Acks(init)).rtProp == 0)
  {
    hide OnAck;
    var es := Acks(infos);
    assert es[..|es| - 1] == Acks(infos[..|infos| - 1]) && es[|es| - 1] == Acked(infos[|infos| - 1]);
  }

  /**
   * The clock starts at zero: a controller whose first RTT sample comes more than ten seconds later goes straight
   * into PROBE_RTT, and only then.
   */
  lemma FirstAckProbesExactlyWhen(info: AckInfo)
    requires info.now < TWO_64
    ensures OnAck(Initial, info).phase.ProbeRtt? <==> info.rtt > 0 && info.now > 10000000 && !info.isAppLimited
  {
    hide OnAck;
    ProbeRttExactlyWhen([], info);
  }

  /** Every ACK that leaves BBR in ProbeRTT leaves the window at exactly four packets. */
  lemma ProbeRttWindow(es: seq<Event>, info: AckInfo)
    requires OnAck(Run(Initial, es), info).phase.ProbeRtt?
    ensures OnAck(Run(Initial, es), info).cwnd == MIN_CWND
  {
    hide OnAck;
    InvAlways(es);
    AckKeeps(Run(Initial, es), info);
  }

  /** Once the pipe has been filled, STARTUP never returns. */
  lemma {:induction false} FilledPipeIsForever(b: State, es: seq<Event>)
    requires Inv(b) && b.filledPipe
    ensures Inv(Run(b, es)) && Run(b, es).filledPipe && !Run(b, es).phase.Startup?
  {
    hide Step;
    if es != [] {
      FilledPipeIsForever(b, es[..|es| - 1]);
      StepKeeps(Run(b, es[..|es| - 1]), es[|es| - 1]);
    }
  }

  // ---------- STARTUP ends ----------

  /** Nothing in the bandwidth filter exceeds `bound`. */
  predicate BandwidthBounded(b: State, bound: nat)
  {
    && b.btlBw <= bound && b.fullBw <= bound
    && b.filter.best.value <= bound && b.filter.second.value <= bound && b.filter.third.value <= bound
  }

  predicate EventBounded(e: Event, bound: nat)
  {
    e.Acked? ==> e.ack.deliveryRate <= bound
  }

  /** How many more round starts STARTUP can take. */
  function Patience(b: State, bound: nat): (n: nat)
    requires b.fullBw <= bound
  {
    if b.filledPipe || b.fullBwCount >= FULL_BW_ROUNDS then 0
    else 3 * (bound - b.fullBw) + (FULL_BW_ROUNDS - b.fullBwCount)
  }

  /** Whether the event is an ACK that starts a round while in STARTUP. */
  predicate IsStartupRound(b: State, e: Event)
  {
    e.Acked? && e.ack.roundStart && b.phase.Startup?
  }

  lemma StartupCheckProgress(b: State, bound: nat)
    requires Inv(b) && 4 <= b.fullBw <= bound && b.btlBw <= bound
    ensures var b' := CheckStartupDone(b);
            && b'.filter == b.filter && b'.btlBw == b.btlBw
            && 4 <= b'.fullBw <= bound && Patience(b', bound) <= Patience(b, bound)
            && (b.phase.Startup? && b.roundStart ==> Patience(b', bound) < Patience(b, bound))
  {
  }

  /** The rest of an ACK does not touch what STARTUP counts. */
  lemma AckPatience(b: State, info: AckInfo, bound: nat)
    requires Inv(b) && BandwidthBounded(b, bound) && 4 <= b.fullBw && info.deliveryRate <= bound
    ensures var b' := OnAck(b, info);
            && BandwidthBounded(b', bound) && 4 <= b'.fullBw && Patience(b', bound) <= Patience(b, bound)
            && (b.phase.Startup? && info.roundStart ==> Patience(b', bound) < Patience(b, bound))
  {
    hide UpdateModel, CheckStartupDone, CheckDrainDone, UpdateProbeBw, CheckProbeRtt, UpdateControl;
    var b0 := b.(bytesInFlight := info.bytesInFlight);
    ModelKeeps(b0, info);
    ModelBounded(b0, info, bound);
    var b1 := UpdateModel(b0, info);
    StartupCheckKeeps(b1);
    StartupCheckProgress(b1, bound);
    RestOfAckKeeps(CheckStartupDone(b1), info.now);
  }

  lemma ModelBounded(b: State, info: AckInfo, bound: nat)
    requires BandwidthBounded(b, bound) && info.deliveryRate <= bound
    ensures BandwidthBounded(UpdateModel(b, info), bound)
  {
    hide WF.Update, UpdateMinRtt;
    var b0 := b.(roundCount := info.roundCount, roundStart := info.roundStart, appLimited := info.isAppLimited);
    WF.BoundedUpdate(b.filter, info.deliveryRate, info.roundCount, bound);
    MinRttFrame(UpdateBandwidth(b0, info), info);
  }

  /** The number of STARTUP round starts in a run. */
  function StartupRounds(b: State, es: seq<Event>): (n: nat)
  {
    if es == [] then 0
    else
      var before := Run(b, es[..|es| - 1]);
      StartupRounds(b, es[..|es| - 1]) + if IsStartupRound(before, es[|es| - 1]) then 1 else 0
  }

  /**
   * STARTUP ends: over any run with delivery rates at most `bound`, once a bandwidth of at least 4 has been
   * seen, the ACKs that start a round in STARTUP number at most 3 (bound - fullBw) + 3 - fullBwCount.
   */
  lemma {:induction false} StartupEnds(b: State, es: seq<Event>, bound: nat)
    requires Inv(b) && BandwidthBounded(b, bound) && 4 <= b.fullBw
    requires forall i :: 0 <= i < |es| ==> EventBounded(es[i], bound)
    ensures Inv(Run(b, es)) && BandwidthBounded(Run(b, es), bound) && 4 <= Run(b, es).fullBw
    ensures StartupRounds(b, es) + Patience(Run(b, es), bound) <= Patience(b, bound)
  {
    hide OnAck, OnLoss, BandwidthBounded, Inv, Patience;
    if es != [] {
      var init, last := es[..|es| - 1], es[|es| - 1];
      StartupEnds(b, init, bound);
      var mid := Run(b, init);
      assert EventBounded(last, bound);
      StepKeeps(mid, last);
      StepPatience(mid, last, bound);
    }
  }

  lemma StepPatience(b: State, e: Event, bound: nat)
    requires Inv(b) && BandwidthBounded(b, bound) && 4 <= b.fullBw && EventBounded(e, bound)
    ensures BandwidthBounded(Step(b, e), bound) && 4 <= Step(b, e).fullBw
    ensures Patience(Step(b, e), bound) + (if IsStartupRound(b, e) then 1 else 0) <= Patience(b, bound)
  {
    hide OnAck;
    if e.Acked? {
      AckPatience(b, e.ack, bound);
    }
  }

  /** On a true plateau the no-growth counter moves if and only if the bandwidth is at least 4 bytes per second. */
  lemma PlateauIsNoticedExactlyFrom4(b: State)
    requires b.phase.Startup? && !b.filledPipe && b.roundStart && b.btlBw == b.fullBw
    ensures CheckStartupDone(b).fullBwCount == b.fullBwCount + 1 <==> b.fullBw >= 4
  {
  }

  // ---------- The controller, updated in place ----------

  /**
   * The record, with its filter as an object of its own that `s.filter` is the value of.  Everything that has
   * happened is in `history`, so that what holds over all runs holds of every controller.
   */
  class Controller {
    const bw: WF.FilterObject
    var s: State
    ghost var history: seq<Event>

    ghost predicate Mirrored()
      reads this`s, bw, bw.samples
    {
      bw.Valid() && s.filter == bw.View()
    }

    ghost predicate Valid()
      reads this, bw, bw.samples
    {
      Mirrored() && s == Run(Initial, history)
    }

    /** `nxp_bbr_init_state`: the window is ten packets, the phase STARTUP. */
    constructor ()
      ensures Valid() && fresh(bw) && fresh(bw.samples) && history == [] && Inv(s)
    {
      s, history := Initial, [];
      bw := new WF.FilterObject(BW_WINDOW, true);
    }

    /** The bandwidth part of `nxp_bbr_update_model`. */
    method MeasureBandwidth(info: AckInfo)
      requires Mirrored()
      modifies this`s, bw, bw.samples
      ensures Mirrored() && s == UpdateBandwidth(old(s), info)
    {
      hide WF.Update;
      if info.deliveryRate > 0 {
        var best := bw.Best();
        if !info.isAppLimited || info.deliveryRate > best {
          bw.Add(info.deliveryRate, info.roundCount);
        }
        best := bw.Best();
        var filter := bw.Value();
        s := s.(filter := filter, btlBw := best);
      }
    }

    /** The RTT part of `nxp_bbr_update_model`. */
    method MeasureRtt(info: AckInfo)
      modifies this`s
      ensures s == UpdateMinRtt(old(s), info) && s.filter == old(s.filter)
    {
      if info.rtt > 0 {
        var expired := Sub64(info.now, s.rtPropStamp) > RTPROP_WINDOW;
        if info.rtt <= s.rtProp || s.rtProp == 0 || expired {
          s := s.(rtProp := info.rtt, rtPropStamp := info.now);
        }
        s := s.(rtPropExpired := expired);
      }
    }

    /** `nxp_bbr_check_startup_done`. */
    method StartupCheck()
      modifies this`s
      ensures s == CheckStartupDone(old(s)) && s.filter == old(s.filter)
    {
      if !s.phase.Startup? || s.filledPipe || !s.roundStart {
        return;
      }
      if s.btlBw >= ApplyGain(s.fullBw, (125, 100)) {
        s := s.(fullBw := s.btlBw, fullBwCount := 0);
        return;
      }
      s := s.(fullBwCount := s.fullBwCount + 1);
      if s.fullBwCount >= FULL_BW_ROUNDS {
        s := s.(filledPipe := true);
        s := s.(phase := Drain, pacingGain := DRAIN_GAIN);
      }
    }

    /** `nxp_bbr_check_drain_done`. */
    method DrainCheck()
      modifies this`s
      ensures s == CheckDrainDone(old(s)) && s.filter == old(s.filter)
    {
      if s.phase.Drain? && s.bytesInFlight <= Bdp(s) {
        s := s.(phase := ProbeBw, cycleIndex := 0);
        s := s.(pacingGain := (125, 100), cwndGain := (200, 100));
      }
    }

    /** `nxp_bbr_update_probe_bw`. */
    method CycleProbeBw(now: nat)
      modifies this`s
      ensures s == UpdateProbeBw(old(s), now) && s.filter == old(s.filter)
    {
      if s.phase.ProbeBw? && s.rtProp > 0 && Sub64(now, s.cycleStamp) >= s.rtProp {
        s := s.(cycleIndex := (s.cycleIndex + 1) % 8, cycleStamp := now);
        s := s.(pacingGain := CycleGain(s.cycleIndex));
      }
    }

    /** `nxp_bbr_check_probe_rtt`. */
    method ProbeRttCheck(now: nat)
      modifies this`s
      ensures s == CheckProbeRtt(old(s), now) && s.filter == old(s.filter)
    {
      if !s.phase.ProbeRtt? && s.rtPropExpired && !s.appLimited {
        s := s.(priorCwnd := s.cwnd, phase := ProbeRtt, pacingGain := UNIT_GAIN, probeRttDone := false);
      }
      if !s.phase.ProbeRtt? {
        return;
      }
      if s.cwnd > PROBE_RTT_CWND {
        s := s.(cwnd := PROBE_RTT_CWND);
      }
      if s.bytesInFlight <= PROBE_RTT_CWND {
        if !s.probeRttDone {
          s := s.(probeRttDone := true, probeRttDoneStamp := now);
        }
        if Sub64(now, s.probeRttDoneStamp) >= PROBE_RTT_DURATION {
          Leave(now);
        }
      }
    }

    /** The end of PROBE_RTT: the window before it comes back. */
    method Leave(now: nat)
      modifies this`s
      ensures s == LeaveProbeRtt(old(s), now) && s.filter == old(s.filter)
    {
      s := s.(rtPropExpired := false, cwnd := s.priorCwnd);
      if s.cwnd < MIN_CWND {
        s := s.(cwnd := MIN_CWND);
      }
      if s.filledPipe {
        s := s.(phase := ProbeBw, cycleIndex := 0, cycleStamp := now);
        s := s.(pacingGain := CycleGain(0), cwndGain := (200, 100));
      } else {
        s := s.(phase := Startup, pacingGain := STARTUP_GAIN, cwndGain := CWND_GAIN);
      }
    }

    /** `nxp_bbr_update_control`. */
    method Control()
      modifies this`s
      ensures s == UpdateControl(old(s)) && s.filter == old(s.filter)
    {
      hide ApplyGain, Bdp;
      var rate := ApplyGain(s.btlBw, s.pacingGain);
      var target := Max(ApplyGain(Bdp(s), s.cwndGain), MIN_CWND);
      var cwnd := s.cwnd;
      if !s.phase.ProbeRtt? {
        if cwnd < target {
          cwnd := target;
        }
        if s.filledPipe && cwnd > target * 2 {
          cwnd := target;
        }
      }
      var quantum := rate / 1000;
      if quantum < 2 * MAX_DATAGRAM {
        quantum := 2 * MAX_DATAGRAM;
      }
      if quantum > 65536 {
        quantum := 65536;
      }
      s := s.(pacingRate := rate, targetCwnd := target, cwnd := cwnd, sendQuantum := quantum);
    }

    /** The model update, the state machine and the control update of `bbr_on_ack`. */
    method ProcessAck(info: AckInfo)
      requires Mirrored()
      modifies this`s, bw, bw.samples
      ensures Mirrored() && s == OnAck(old(s), info)
    {
      hide UpdateBandwidth, UpdateMinRtt, CheckStartupDone, CheckDrainDone, UpdateProbeBw, CheckProbeRtt, UpdateControl,
        ApplyGain;
      s := s.(bytesInFlight := info.bytesInFlight);
      s := s.(roundCount := info.roundCount, roundStart := info.roundStart, appLimited := info.isAppLimited);
      MeasureBandwidth(info);
      MeasureRtt(info);
      StartupCheck();
      DrainCheck();
      CycleProbeBw(info.now);
      ProbeRttCheck(info.now);
      Control();
    }

    /**
     * `bbr_on_ack`: the window is never below four packets and exactly four in PROBE_RTT, the gains match the
     * phase, and a filled pipe rules out STARTUP for good.
     */
    method AckReceived(info: AckInfo)
      requires Valid()
      modifies this, bw, bw.samples
      ensures Valid() && history == old(history) + [Acked(info)]
      ensures s.cwnd >= MIN_CWND && (s.phase.ProbeRtt? ==> s.cwnd == MIN_CWND)
      ensures GainMatches(s) && PhaseMatches(s) && (old(s.filledPipe) ==> s.filledPipe)
    {
      hide OnAck, GainMatches, PhaseMatches, Mirrored;
      InvAlways(history);
      AckKeeps(s, info);
      ProcessAck(info);
      assert (history + [Acked(info)])[..|history|] == history;
      history := history + [Acked(info)];
    }

    method ProcessLoss(info: LossInfo)
      requires Mirrored()
      modifies this`s
      ensures Mirrored() && s == OnLoss(old(s), info)
    {
      s := s.(bytesInFlight := info.bytesInFlight);
      s := s.(lossInRound := s.lossInRound + info.lostBytes);
      if s.phase.Startup? && !s.filledPipe && s.bytesInFlight > 0 && s.lossInRound > s.bytesInFlight / 5 {
        s := s.(filledPipe := true);
        s := s.(phase := Drain, pacingGain := DRAIN_GAIN);
      }
    }

    /** `bbr_on_loss`: the window stays; STARTUP may end, and nothing else. */
    method LossDeclared(info: LossInfo)
      requires Valid()
      modifies this
      ensures Valid() && history == old(history) + [Lost(info)]
      ensures s.cwnd == old(s.cwnd) >= MIN_CWND && GainMatches(s) && PhaseMatches(s) &&
              (old(s.filledPipe) ==> s.filledPipe)
      ensures s.phase == old(s.phase) || (old(s.phase).Startup? && s.phase.Drain?)
    {
      hide OnLoss, GainMatches, PhaseMatches, Mirrored;
      InvAlways(history);
      LossKeeps(s, info);
      ProcessLoss(info);
      assert (history + [Lost(info)])[..|history|] == history;
      history := history + [Lost(info)];
    }
  }
}
