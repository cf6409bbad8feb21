/** Credit-based flow control (src/core/flow_control.c; section 4.1 of RFC 9000). */
module FlowControl {
  import opened Bytes

  datatype Flow = Flow(peerMaxData: nat, dataSent: nat, localMaxData: nat, dataRecv: nat, maxDataNext: nat,
                       sendMaxData: bool)

  function Init(localMax: nat, peerMax: nat): (f: Flow)
  {
    Flow(peerMax, 0, localMax, 0, localMax, false)
  }

  predicate CanSend(f: Flow, len: nat)
  {
    f.dataSent + len <= f.peerMaxData
  }

  function OnSend(f: Flow, len: nat): (r: Flow)
  {
    f.(dataSent := f.dataSent + len)
  }

  function OnRecv(f: Flow, len: nat): (r: Flow)
  {
    f.(dataRecv := f.dataRecv + len)
  }

  /** Opens the window once more than half of it has been received. */
  function OnConsume(f: Flow): (r: Flow)
  {
    var newMax := f.dataRecv + f.localMaxData;
    if f.dataRecv > f.localMaxData / 2 && newMax > f.maxDataNext
    then f.(maxDataNext := newMax, sendMaxData := true)
    else f
  }

  /** MAX_DATA from the peer only ever raises the limit. */
  function SetPeerMax(f: Flow, maxData: nat): (r: Flow)
  {
    if maxData > f.peerMaxData then f.(peerMaxData := maxData) else f
  }

  function GetUpdate(f: Flow): (r: Flow)
  {
    f.(sendMaxData := false, localMaxData := f.maxDataNext)
  }

  // ---------- One direction of a connection ----------

  /** The sending and the receiving end, and every MAX_DATA value sent so far. */
  datatype Link = Link(sender: Flow, receiver: Flow, updates: seq<nat>)

  datatype Action =
    | Transmit(len: nat)
    | Arrive(len: nat)
    | Consume
    | Advertise
    | MaxDataArrives(which: nat)

  /**
   * Data is sent only within credit; MAX_DATA is sent only when it is due; any MAX_DATA ever sent may
   * arrive, at any time and any number of times, or never.
   */
  predicate Enabled(l: Link, a: Action)
  {
    match a
    case Transmit(len) => CanSend(l.sender, len)
    case Advertise => l.receiver.sendMaxData
    case MaxDataArrives(which) => which < |l.updates|
    case _ => true
  }

  function Next(l: Link, a: Action): (l': Link)
    requires Enabled(l, a)
  {
    match a
    case Transmit(len) => l.(sender := OnSend(l.sender, len))
    case Arrive(len) => l.(receiver := OnRecv(l.receiver, len))
    case Consume => l.(receiver := OnConsume(l.receiver))
    case Advertise =>
      var receiver := GetUpdate(l.receiver);
      l.(receiver := receiver, updates := l.updates + [receiver.localMaxData])
    case MaxDataArrives(which) => l.(sender := SetPeerMax(l.sender, l.updates[which]))
  }

  ghost predicate Increasing(xs: seq<nat>)
  {
    forall i, j :: 0 <= i < j < |xs| ==> xs[i] < xs[j]
  }

  ghost predicate CreditSafe(l: Link)
  {
    && l.sender.dataSent <= l.sender.peerMaxData <= l.receiver.localMaxData <= l.receiver.maxDataNext
    && (l.receiver.sendMaxData <==> l.receiver.localMaxData < l.receiver.maxDataNext)
    && Increasing(l.updates)
    && (forall i :: 0 <= i < |l.updates| ==> l.updates[i] <= l.receiver.localMaxData)
  }

  ghost predicate IsRun(run: seq<Link>, actions: seq<Action>)
  {
    && |run| == |actions| + 1
    && forall i :: 0 <= i < |actions| ==> Enabled(run[i], actions[i]) && run[i + 1] == Next(run[i], actions[i])
  }

  /**
   * In every reachable state the sender stays within the limit it knows, which never exceeds the limit the
   * receiver stands by, and every MAX_DATA value sent exceeds all the earlier ones.
   */
  lemma {:induction false} CreditSafeAlways(run: seq<Link>, actions: seq<Action>, senderLimit: nat, receiverLimit: nat,
                                            other: nat, other': nat, i: nat)
    requires IsRun(run, actions) && i < |run| && senderLimit <= receiverLimit
    requires run[0] == Link(Init(other, senderLimit), Init(receiverLimit, other'), [])
    ensures CreditSafe(run[i])
  {
    if i > 0 {
      CreditSafeAlways(run, actions, senderLimit, receiverLimit, other, other', i - 1);
      StepIsSafe(run[i - 1], actions[i - 1]);
    }
  }

  lemma StepIsSafe(l: Link, a: Action)
    requires CreditSafe(l) && Enabled(l, a)
    ensures CreditSafe(Next(l, a))
    ensures a.Advertise? ==> Next(l, a).receiver.localMaxData > l.receiver.localMaxData
  {
  }

  /** Credit is never taken back: both limits only grow. */
  lemma {:induction false} LimitsOnlyGrow(run: seq<Link>, actions: seq<Action>, i: nat, j: nat)
    requires IsRun(run, actions) && i <= j < |run| && CreditSafe(run[i])
    ensures CreditSafe(run[j])
    ensures run[i].sender.peerMaxData <= run[j].sender.peerMaxData
    ensures run[i].receiver.localMaxData <= run[j].receiver.localMaxData
  {
    if i < j {
      LimitsOnlyGrow(run, actions, i, j - 1);
      StepIsSafe(run[j - 1], actions[j - 1]);
    }
  }

  /** The initial limits must be ordered: a sender that starts above the receiver's limit oversteps it at once. */
  lemma InitialLimitsMatter(senderLimit: nat, receiverLimit: nat, other: nat)
    ensures var start := Link(Init(other, senderLimit), Init(receiverLimit, other), []);
            && Enabled(start, Transmit(senderLimit))
            && (CreditSafe(Next(start, Transmit(senderLimit))) <==> senderLimit <= receiverLimit)
  {
  }

  /**
   * Credit comes back: a sender that has used all of it, and whose data has all arrived, can send again once
   * the receiver has consumed and the update it then owes has arrived; the limit at least doubles.
   */
  lemma BlockedSenderIsReleased(l: Link)
    requires CreditSafe(l) && 0 < l.receiver.localMaxData == l.receiver.dataRecv
    requires l.sender.dataSent == l.sender.peerMaxData == l.receiver.localMaxData
    ensures var l1 := Next(l, Consume);
            && !CanSend(l.sender, 1) && Enabled(l1, Advertise)
            && var l2 := Next(l1, Advertise);
            && Enabled(l2, MaxDataArrives(|l.updates|))
            && var l3 := Next(l2, MaxDataArrives(|l.updates|));
            CanSend(l3.sender, 1) && l3.sender.peerMaxData >= 2 * l.sender.peerMaxData
  {
    StepIsSafe(l, Consume);
  }

  /** Whether a run lacks one of the two steps that credit needs in order to come back. */
  predicate NeverRenewed(actions: seq<Action>)
  {
    || (forall i :: 0 <= i < |actions| ==> !actions[i].Consume?)
    || (forall i :: 0 <= i < |actions| ==> !actions[i].Advertise?)
  }

  /**
   * Credit is spent once: over any run that never consumes, or never advertises, no update is ever sent, both
   * limits stay what they were at first, and the sender can never send more than its first limit in all.
   */
  lemma {:induction false} CreditIsSpentOnce(run: seq<Link>, actions: seq<Action>, senderLimit: nat, receiverLimit: nat,
                                             other: nat, other': nat, i: nat)
    requires IsRun(run, actions) && i < |run| && NeverRenewed(actions)
    requires run[0] == Link(Init(other, senderLimit), Init(receiverLimit, other'), [])
    ensures run[i].updates == [] && run[i].sender.peerMaxData == senderLimit &&
            run[i].receiver.localMaxData == receiverLimit
    ensures run[i].sender.dataSent <= senderLimit
    ensures run[i].receiver.sendMaxData ==> exists j :: 0 <= j < i && actions[j].Consume?
  {
    if i > 0 {
      CreditIsSpentOnce(run, actions, senderLimit, receiverLimit, other, other', i - 1);
      assert Enabled(run[i - 1], actions[i - 1]) && run[i] == Next(run[i - 1], actions[i - 1]);
    }
  }

  // ---------- In place ----------

  /** The credit record of a connection or a stream; both of its limits only grow. */
  class FlowCtrl {
    var peerMaxData: nat
    var dataSent: nat
    var localMaxData: nat
    var dataRecv: nat
    var maxDataNext: nat
    var sendMaxData: bool

    /** An update is due exactly when a higher limit than the advertised one has been decided on. */
    ghost predicate Valid()
      reads this
    {
      localMaxData <= maxDataNext && (sendMaxData <==> localMaxData < maxDataNext)
    }

    ghost function View(): (f: Flow)
      reads this
    {
      Flow(peerMaxData, dataSent, localMaxData, dataRecv, maxDataNext, sendMaxData)
    }

    constructor (localMax: nat, peerMax: nat)
      ensures Valid() && View() == Init(localMax, peerMax)
    {
      peerMaxData, dataSent := peerMax, 0;
      localMaxData, dataRecv, maxDataNext, sendMaxData := localMax, 0, localMax, false;
    }

    /** `nxp_flow_can_send`. */
    predicate MaySend(len: nat)
      reads this
      ensures MaySend(len) <==> CanSend(View(), len)
    {
      dataSent + len <= peerMaxData
    }

    /** `nxp_flow_on_send`: the limit is respected afterwards exactly if `nxp_flow_can_send` allowed it. */
    method Sent(len: nat)
      requires Valid()
      modifies this`dataSent
      ensures Valid() && View() == OnSend(old(View()), len)
      ensures dataSent <= peerMaxData <==> old(CanSend(View(), len))
    {
      dataSent := dataSent + len;
    }

    method Received(len: nat)
      requires Valid()
      modifies this`dataRecv
      ensures Valid() && View() == OnRecv(old(View()), len)
    {
      dataRecv := dataRecv + len;
    }

    /**
     * `nxp_flow_on_consume`: advertises nothing by itself, takes no decision back, and owes an update once half
     * the limit is used up.
     */
    method Consumed()
      requires Valid()
      modifies this`maxDataNext, this`sendMaxData
      ensures Valid() && View() == OnConsume(old(View()))
      ensures maxDataNext >= old(maxDataNext) && (old(sendMaxData) ==> sendMaxData)
      ensures 2 * dataRecv >= localMaxData + 2 ==> sendMaxData && maxDataNext >= dataRecv + localMaxData
      ensures 2 * dataRecv <= localMaxData ==> sendMaxData == old(sendMaxData)
      ensures maxDataNext == old(maxDataNext) || (maxDataNext == dataRecv + localMaxData && 2 * dataRecv > localMaxData)
    {
      if dataRecv > localMaxData / 2 {
        var newMax := dataRecv + localMaxData;
        if newMax > maxDataNext {
          maxDataNext, sendMaxData := newMax, true;
        }
      }
    }

    /** `nxp_flow_set_peer_max`: limits may arrive in any order and any number of times. */
    method RaisePeerMax(maxData: nat)
      requires Valid()
      modifies this`peerMaxData
      ensures Valid() && View() == SetPeerMax(old(View()), maxData)
      ensures peerMaxData == Max(old(peerMaxData), maxData)
    {
      if maxData > peerMaxData {
        peerMaxData := maxData;
      }
    }

    /** `nxp_flow_get_update`: the advertised limit never shrinks, and grows exactly if an update was due. */
    method TakeUpdate() returns (maxData: nat)
      requires Valid()
      modifies this`sendMaxData, this`localMaxData
      ensures Valid() && View() == GetUpdate(old(View()))
      ensures maxData == localMaxData >= old(localMaxData) && !sendMaxData
      ensures maxData > old(localMaxData) <==> old(sendMaxData)
    {
      sendMaxData := false;
      localMaxData := maxDataNext;
      maxData := localMaxData;
    }
  }
}
