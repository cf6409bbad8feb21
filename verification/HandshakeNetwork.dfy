/**
 * A client and a server handshaking over a network that drops, duplicates and reorders (src/core/handshake.c,
 * src/core/connection.c).
 */
module HandshakeNetwork {
  import opened Bytes
  import opened TransportParams
  import opened Handshakes

  /** A packet with the keys that seal it; it opens only with the same keys. */
  datatype Packet = CryptoPacket(level: Level, algo: Byte, keys: Keys, data: Bytes) | DonePacket(algo: Byte, keys: Keys)

  /** Every packet ever sent stays available: delivery may come late, twice or never. */
  datatype Net = Net(client: Handshake, server: Handshake, toServer: seq<Packet>, toClient: seq<Packet>)

  datatype Action =
    | StartClientWith(cid: Bytes) | StartServerWith(cid: Bytes)
    | ClientSends | ServerSends
    | DeliverToServer(i: nat) | DeliverToClient(i: nat)

  /** `send_handshake_packet`: the hello under the initial keys, then HANDSHAKE_DONE under the application keys. */
  function Send(h: Handshake): (r: (Handshake, seq<Packet>))
  {
    if h.sent < |h.outgoing| then
      if !h.initial.available then (h, [])
      else
        var (h', data) := FillCrypto(h, SEND_BUF);
        (h', [CryptoPacket(InitialLevel, h.initial.algo, h.initial.send, data)])
    else if h.sendDone && h.app.available then
      (h.(sendDone := false), [DonePacket(h.app.algo, h.app.send)])
    else (h, [])
  }

  predicate Opens(k: KeyState, algo: Byte, keys: Keys)
  {
    k.available && k.algo == algo && k.recv == keys
  }

  /** `recv_handshake_packet`, and the HANDSHAKE_DONE case of `process_frames`. */
  function Receive(c: Crypto, h: Handshake, p: Packet): (r: Handshake)
  {
    match p
    case CryptoPacket(level, algo, keys, data) =>
      var k := if level == InitialLevel then h.initial else h.handshake;
      if level == ApplicationLevel || !Opens(k, algo, keys) then h else RecvCrypto(c, h, level, data).0
    case DonePacket(algo, keys) =>
      if !Opens(h.app, algo, keys) then h else OnHandshakeDone(h).0
  }

  function Init(a: Bytes, pa: Params, b: Bytes, pb: Params): (n: Net)
  {
    Net(Create(false, a, pa), Create(true, b, pb), [], [])
  }

  function Next(c: Crypto, n: Net, action: Action): (r: Net)
  {
    match action
    case StartClientWith(cid) => n.(client := StartClient(c, n.client, cid).0)
    case StartServerWith(cid) => n.(server := StartServer(c, n.server, cid).0)
    case ClientSends => var (h, ps) := Send(n.client); n.(client := h, toServer := n.toServer + ps)
    case ServerSends => var (h, ps) := Send(n.server); n.(server := h, toClient := n.toClient + ps)
    case DeliverToServer(i) => if i < |n.toServer| then n.(server := Receive(c, n.server, n.toServer[i])) else n
    case DeliverToClient(i) => if i < |n.toClient| then n.(client := Receive(c, n.client, n.toClient[i])) else n
  }

  function Run(c: Crypto, n: Net, actions: seq<Action>): (r: Net)
    decreases actions
  {
    if actions == [] then n else Run(c, Next(c, n, actions[0]), actions[1..])
  }

  // ---------- Invariant ----------

  /** Two fresh endpoints: the client's private key and parameters, then the server's. */
  datatype Parties = Parties(a: Bytes, pa: Params, b: Bytes, pb: Params)

  function CH(c: Crypto, q: Parties): (b: Bytes) { ClientHello(c, q.a, q.pa) }

  function SH(c: Crypto, q: Parties): (b: Bytes) { ServerHello(c, q.b, AES_256_GCM, q.pb) }

  /** The client after its own hello. */
  function Greeting(c: Crypto, q: Parties, h: Handshake): (r: Handshake)
  {
    Create(false, q.a, q.pa).(initial := h.initial, outgoing := CH(c, q), sent := h.sent, transcript := CH(c, q),
                              phase := WaitServerHello)
  }

  ghost predicate ClientShape(c: Crypto, q: Parties, h: Handshake)
  {
    match h.phase
    case Idle => h == Create(false, q.a, q.pa)
    case WaitServerHello => h == Greeting(c, q, h) && h.sent in {0, |CH(c, q)|}
    case WaitClientHello => false
    case _ =>
      && Encodable(q.pb) && h.sent in {0, |CH(c, q)|}
      && h == ClientReady(c, Greeting(c, q, h), q.b, q.pb, CH(c, q), SH(c, q)).(phase := h.phase)
  }

  function Listening(q: Parties, h: Handshake): (r: Handshake)
  {
    Create(true, q.b, q.pb).(initial := h.initial, phase := WaitClientHello)
  }

  ghost predicate ServerShape(c: Crypto, q: Parties, h: Handshake)
  {
    match h.phase
    case Idle => h == Create(true, q.b, q.pb)
    case WaitClientHello => h == Listening(q, h)
    case Complete =>
      && h.sent in {0, |SH(c, q)|}
      && h == ServerDone(c, Listening(q, h), q.a, q.pa, CH(c, q), SH(c, q)).(sent := h.sent, sendDone := h.sendDone)
    case _ => false
  }

  /** All a network can hold are copies of the two hellos and of HANDSHAKE_DONE under the server's keys. */
  ghost predicate Honest(c: Crypto, q: Parties, n: Net)
  {
    && (forall i :: 0 <= i < |n.toServer| ==> FromClient(c, q, n.toServer[i]))
    && (n.toClient != [] ==> n.server.phase == Complete)
    && (forall i :: 0 <= i < |n.toClient| ==> FromServer(c, q, n.server.app, n.toClient[i]))
  }

  ghost predicate Inv(c: Crypto, q: Parties, n: Net)
  {
    && ClientShape(c, q, n.client) && ServerShape(c, q, n.server) && Honest(c, q, n)
    && (n.client.phase in {WaitHandshakeDone, Complete} ==> n.server.phase == Complete)
  }

  /** Parties that can occur: lawful primitives and parameters of their C types. */
  ghost predicate Proper(c: Crypto, q: Parties)
  {
    Lawful(c) && Typed(q.pa) && Typed(q.pb)
  }

  lemma Fits(c: Crypto, q: Parties)
    requires Proper(c, q)
    ensures 36 <= |CH(c, q)| <= SEND_BUF && 34 <= |SH(c, q)| <= SEND_BUF
  {
    HellosFit(c, q.a, q.pa, q.b, AES_256_GCM, q.pb);
  }

  /** What a client may put on the wire. */
  ghost predicate FromClient(c: Crypto, q: Parties, p: Packet)
  {
    p.CryptoPacket? && p.level == InitialLevel && p.data == CH(c, q)
  }

  /** What a server with these application keys may put on the wire. */
  ghost predicate FromServer(c: Crypto, q: Parties, app: KeyState, p: Packet)
  {
    match p
    case CryptoPacket(level, _, _, data) => level == InitialLevel && data == SH(c, q)
    case DonePacket(_, keys) => keys == app.send
  }

  lemma ClientStarts(c: Crypto, q: Parties, h: Handshake, cid: Bytes)
    requires ClientShape(c, q, h)
    ensures var h' := StartClient(c, h, cid).0; ClientShape(c, q, h') && (h' == h || h'.phase == WaitServerHello)
  {
    hide ClientHello, ServerHello, KeySchedule, InitialKeys;
    var h' := StartClient(c, h, cid).0;
    if h.phase == Idle {
      assert h' == Greeting(c, q, h');
    }
  }

  lemma ServerStarts(c: Crypto, q: Parties, h: Handshake, cid: Bytes)
    requires ServerShape(c, q, h)
    ensures var h' := StartServer(c, h, cid).0; ServerShape(c, q, h') && (h' == h || h.phase == Idle)
  {
    hide ClientHello, ServerHello, KeySchedule, InitialKeys;
    var h' := StartServer(c, h, cid).0;
    if h.phase == Idle {
      assert h' == Listening(q, h');
    }
  }

  lemma ClientSend(c: Crypto, q: Parties, h: Handshake)
    requires Proper(c, q) && ClientShape(c, q, h)
    ensures var (h', ps) := Send(h);
      && ClientShape(c, q, h') && h'.phase == h.phase
      && (ps == [] || (|ps| == 1 && FromClient(c, q, ps[0])))
  {
    hide ClientHello, ServerHello, KeySchedule, InitialKeys;
    Fits(c, q);
    var (h', ps) := Send(h);
    if h.sent < |h.outgoing| && h.initial.available {
      assert h.outgoing == CH(c, q) && h.sent == 0;
      assert h.outgoing[0..|CH(c, q)|] == CH(c, q);
      assert h' == h.(sent := |CH(c, q)|);
    } else {
      assert !h.sendDone && h' == h;
    }
  }

  lemma ServerSend(c: Crypto, q: Parties, h: Handshake)
    requires Proper(c, q) && ServerShape(c, q, h)
    ensures var (h', ps) := Send(h);
      && ServerShape(c, q, h') && h'.phase == h.phase && h'.app == h.app
      && (ps == [] || (|ps| == 1 && h.phase == Complete && FromServer(c, q, h.app, ps[0])))
  {
    hide ClientHello, ServerHello, KeySchedule, InitialKeys;
    Fits(c, q);
    var (h', ps) := Send(h);
    if h.phase != Complete {
      assert h.outgoing == [] && !h.sendDone && h' == h;
    } else if h.sent < |h.outgoing| && h.initial.available {
      assert h.outgoing == SH(c, q) && h.sent == 0;
      assert h.outgoing[0..|SH(c, q)|] == SH(c, q);
      assert h' == h.(sent := |SH(c, q)|);
    } else {
      assert h' == h.(sendDone := h'.sendDone);
    }
  }

  lemma StartKeeps(c: Crypto, q: Parties, n: Net, action: Action)
    requires Proper(c, q) && Inv(c, q, n) && (action.StartClientWith? || action.StartServerWith?)
    ensures Inv(c, q, Next(c, n, action))
  {
    hide ClientShape, ServerShape, StartClient, StartServer;
    var n' := Next(c, n, action);
    if action.StartClientWith? {
      ClientStarts(c, q, n.client, action.cid);
      assert n' == n.(client := StartClient(c, n.client, action.cid).0);
    } else {
      ServerStarts(c, q, n.server, action.cid);
      assert n' == n.(server := StartServer(c, n.server, action.cid).0);
    }
    assert Honest(c, q, n');
  }

  lemma ClientSendKeeps(c: Crypto, q: Parties, n: Net)
    requires Proper(c, q) && Inv(c, q, n)
    ensures Inv(c, q, Next(c, n, ClientSends))
  {
    hide ClientShape, ServerShape, Send;
    ClientSend(c, q, n.client);
    var (h, ps) := Send(n.client);
    var n' := Next(c, n, ClientSends);
    assert n' == n.(client := h, toServer := n.toServer + ps);
    assert Honest(c, q, n');
  }

  lemma ServerSendKeeps(c: Crypto, q: Parties, n: Net)
    requires Proper(c, q) && Inv(c, q, n)
    ensures Inv(c, q, Next(c, n, ServerSends))
  {
    hide ClientShape, ServerShape, Send;
    ServerSend(c, q, n.server);
    var (h, ps) := Send(n.server);
    var n' := Next(c, n, ServerSends);
    assert n' == n.(server := h, toClient := n.toClient + ps);
    assert Honest(c, q, n');
  }

  lemma ServerReceiveKeeps(c: Crypto, q: Parties, n: Net, i: nat)
    requires Proper(c, q) && Inv(c, q, n) && i < |n.toServer|
    ensures Inv(c, q, Next(c, n, DeliverToServer(i)))
  {
    hide ClientHello, ServerHello, KeySchedule, InitialKeys, ClientShape, ProcessClientHello, ProcessServerHello;
    if n.server.phase == WaitClientHello {
      ClientHelloAccepted(c, n.server, q.a, q.pa);
    }
  }

  lemma ClientReceiveKeeps(c: Crypto, q: Parties, n: Net, i: nat)
    requires Proper(c, q) && Inv(c, q, n) && i < |n.toClient|
    ensures Inv(c, q, Next(c, n, DeliverToClient(i)))
  {
    hide ClientHello, ServerHello, KeySchedule, InitialKeys, ServerShape, ProcessClientHello, ProcessServerHello;
    if n.client.phase == WaitServerHello {
      Fits(c, q);
      ServerHelloAccepted(c, n.client, CH(c, q), q.b, q.pb);
    }
  }

  lemma StepKeeps(c: Crypto, q: Parties, n: Net, action: Action)
    requires Proper(c, q) && Inv(c, q, n)
    ensures Inv(c, q, Next(c, n, action))
  {
    hide Inv;
    match action
    case StartClientWith(_) => StartKeeps(c, q, n, action);
    case StartServerWith(_) => StartKeeps(c, q, n, action);
    case ClientSends => ClientSendKeeps(c, q, n);
    case ServerSends => ServerSendKeeps(c, q, n);
    case DeliverToServer(i) => if i < |n.toServer| { ServerReceiveKeeps(c, q, n, i); }
    case DeliverToClient(i) => if i < |n.toClient| { ClientReceiveKeeps(c, q, n, i); }
  }

  lemma {:induction false} InvAlways(c: Crypto, q: Parties, n: Net, actions: seq<Action>)
    requires Proper(c, q) && Inv(c, q, n)
    ensures Inv(c, q, Run(c, n, actions))
    decreases actions
  {
    hide Inv, Next;
    if actions != [] {
      StepKeeps(c, q, n, actions[0]);
      InvAlways(c, q, Next(c, n, actions[0]), actions[1..]);
    }
  }

  lemma InvAtStart(c: Crypto, q: Parties)
    ensures Inv(c, q, Init(q.a, q.pa, q.b, q.pb))
  {
    hide ClientHello, ServerHello, KeySchedule;
  }

  // ---------- Agreement ----------

  /** Each side sends with what the other receives with. */
  predicate Crossed(x: KeyState, y: KeyState)
  {
    x.available && y.available && x.algo == y.algo && x.send == y.recv && x.recv == y.send
  }

  /** What the two sides share once the handshake has done its work. */
  predicate Agreed(q: Parties, n: Net)
  {
    && n.server.phase == Complete
    && n.client.transcript == n.server.transcript && n.client.shared == n.server.shared
    && Crossed(n.client.handshake, n.server.handshake) && Crossed(n.client.app, n.server.app)
    && n.client.master == n.server.master && n.client.resumption == n.server.resumption
    && Encodable(q.pb) && n.client.hasPeer && n.client.peer == Rounded(q.pb)
    && (n.server.hasPeer <==> Encodable(q.pa)) && (n.server.hasPeer ==> n.server.peer == Rounded(q.pa))
  }

  /**
   * Over every run of the network, a client that holds application keys has a complete server that agrees
   * with it on transcript, secrets and crossed keys, and each side has the other's parameters; the server
   * goes without exactly when the client's could not be encoded.
   */
  lemma Agreement(c: Crypto, q: Parties, actions: seq<Action>)
    requires Proper(c, q)
    ensures var n := Run(c, Init(q.a, q.pa, q.b, q.pb), actions);
      (n.client.app.available ==> Agreed(q, n)) && (n.client.phase == Complete ==> n.client.app.available)
  {
    hide Run, Honest, ClientHello, ServerHello, KeySchedule;
    var n := Run(c, Init(q.a, q.pa, q.b, q.pb), actions);
    InvAtStart(c, q);
    InvAlways(c, q, Init(q.a, q.pa, q.b, q.pb), actions);
    assert c.dh(q.a, c.pub(q.b)) == c.dh(q.b, c.pub(q.a));
  }

  // ---------- When the handshake can complete ----------

  lemma {:induction false} RunConcat(c: Crypto, n: Net, xs: seq<Action>, ys: seq<Action>)
    ensures Run(c, n, xs + ys) == Run(c, Run(c, n, xs), ys)
    decreases xs
  {
    hide Next;
    if xs == [] {
      assert xs + ys == ys;
    } else {
      assert (xs + ys)[1..] == xs[1..] + ys;
      RunConcat(c, Next(c, n, xs[0]), xs[1..], ys);
    }
  }

  lemma RunTwo(c: Crypto, n: Net, x: Action, y: Action)
    ensures Run(c, n, [x, y]) == Next(c, Next(c, n, x), y)
  {
    hide Next;
    assert [x, y][1..] == [y] && [y][1..] == [];
    var n1 := Next(c, n, x);
    assert Run(c, n1, [y]) == Run(c, Next(c, n1, y), []);
  }

  /** Both sides started, and the client hello is on its way. */
  ghost predicate Greeted(c: Crypto, q: Parties, n: Net, k: KeyState)
  {
    && n.client == Greeting(c, q, n.client) && n.client.initial == k && n.client.sent == |CH(c, q)|
    && n.server == Listening(q, n.server) && n.server.initial == k.(send := k.recv, recv := k.send)
    && n.toServer == [CryptoPacket(InitialLevel, k.algo, k.send, CH(c, q))] && n.toClient == []
    && k.available
  }

  lemma GreetingGoesOut(c: Crypto, q: Parties, cid: Bytes)
    requires Proper(c, q)
    ensures var n := Run(c, Init(q.a, q.pa, q.b, q.pb), [StartClientWith(cid), StartServerWith(cid)] + [ClientSends]);
            Greeted(c, q, n, InitialKeys(c, cid))
  {
    hide ClientHello, ServerHello, TrafficKeys;
    Fits(c, q);
    var n0 := Init(q.a, q.pa, q.b, q.pb);
    var n1 := Next(c, n0, StartClientWith(cid));
    var n2 := Next(c, n1, StartServerWith(cid));
    var n3 := Next(c, n2, ClientSends);
    RunTwo(c, n0, StartClientWith(cid), StartServerWith(cid));
    RunConcat(c, n0, [StartClientWith(cid), StartServerWith(cid)], [ClientSends]);
    RunOne(c, n2, ClientSends);
    assert n2.client.outgoing[0..|CH(c, q)|] == CH(c, q);
  }

  lemma RunOne(c: Crypto, n: Net, x: Action)
    ensures Run(c, n, [x]) == Next(c, n, x)
  {
    hide Next;
    assert [x][1..] == [];
  }

  /** The server has answered, and its hello is on its way. */
  ghost predicate Answered(c: Crypto, q: Parties, n: Net, k: KeyState)
  {
    && n.client == Greeting(c, q, n.client) && n.client.initial == k && k.available
    && n.server == ServerDone(c, Listening(q, n.server), q.a, q.pa, CH(c, q), SH(c, q)).(sent := |SH(c, q)|)
    && n.toClient == [CryptoPacket(InitialLevel, k.algo, k.recv, SH(c, q))]
  }

  lemma AnswerGoesOut(c: Crypto, q: Parties, n: Net, k: KeyState)
    requires Proper(c, q) && Greeted(c, q, n, k)
    ensures Answered(c, q, Run(c, n, [DeliverToServer(0), ServerSends]), k)
  {
    hide ClientHello, ServerHello, KeySchedule, ProcessClientHello;
    Fits(c, q);
    RunTwo(c, n, DeliverToServer(0), ServerSends);
    ClientHelloAccepted(c, n.server, q.a, q.pa);
    var n1 := Next(c, n, DeliverToServer(0));
    assert n1.server == ServerDone(c, Listening(q, n.server), q.a, q.pa, CH(c, q), SH(c, q));
    assert n1.server.outgoing[0..|SH(c, q)|] == SH(c, q);
  }

  lemma ClientBecomesReady(c: Crypto, q: Parties, n: Net, k: KeyState)
    requires Proper(c, q) && Answered(c, q, n, k) && Encodable(q.pb)
    ensures var n' := Run(c, n, [DeliverToClient(0), ServerSends]);
      && n'.client.phase == WaitHandshakeDone && n'.server.phase == Complete && |n'.toClient| == 2
      && n'.toClient[1].DonePacket? && Opens(n'.client.app, n'.toClient[1].algo, n'.toClient[1].keys)
  {
    hide ClientHello, ServerHello, KeySchedule, ProcessServerHello;
    Fits(c, q);
    RunTwo(c, n, DeliverToClient(0), ServerSends);
    ServerHelloAccepted(c, n.client, CH(c, q), q.b, q.pb);
    assert c.dh(q.a, c.pub(q.b)) == c.dh(q.b, c.pub(q.a));
  }

  /** A run without losses. */
  function FullRun(cid: Bytes): (actions: seq<Action>)
  {
    [StartClientWith(cid), StartServerWith(cid)] + [ClientSends] + [DeliverToServer(0), ServerSends]
    + [DeliverToClient(0), ServerSends] + [DeliverToClient(1)]
  }

  lemma FullRunCompletes(c: Crypto, q: Parties, cid: Bytes)
    requires Proper(c, q) && Encodable(q.pb)
    ensures var n := Run(c, Init(q.a, q.pa, q.b, q.pb), FullRun(cid));
            n.client.phase == Complete && n.server.phase == Complete
  {
    hide Run, Greeted, Answered, Init, KeySchedule, InitialKeys;
    var n0, k := Init(q.a, q.pa, q.b, q.pb), InitialKeys(c, cid);
    var xs := [StartClientWith(cid), StartServerWith(cid)] + [ClientSends];
    var ys, zs := [DeliverToServer(0), ServerSends], [DeliverToClient(0), ServerSends];
    GreetingGoesOut(c, q, cid);
    var n1 := Run(c, n0, xs);
    RunConcat(c, n0, xs, ys);
    AnswerGoesOut(c, q, n1, k);
    var n2 := Run(c, n1, ys);
    RunConcat(c, n0, xs + ys, zs);
    ClientBecomesReady(c, q, n2, k);
    var n3 := Run(c, n2, zs);
    RunConcat(c, n0, xs + ys + zs, [DeliverToClient(1)]);
    RunOne(c, n3, DeliverToClient(1));
  }

  /**
   * Some run completes both sides exactly when the server's parameters can be encoded: a bare server hello is one
   * byte too short.
   */
  lemma CompletesExactlyWhen(c: Crypto, q: Parties)
    requires Proper(c, q)
    ensures (exists actions :: Run(c, Init(q.a, q.pa, q.b, q.pb), actions).client.phase == Complete) <==>
            Encodable(q.pb)
  {
    hide Run, Init;
    var n0 := Init(q.a, q.pa, q.b, q.pb);
    if Encodable(q.pb) {
      FullRunCompletes(c, q, []);
    }
    forall actions | Run(c, n0, actions).client.phase == Complete ensures Encodable(q.pb) {
      Agreement(c, q, actions);
    }
  }
}
