/** The handshake record and its steps (src/core/handshake.c), with symbolic cryptography. */
module Handshakes {
  import opened Bytes
  import opened TransportParams

  const AES_256_GCM: Byte := 0
  const CHACHA20_POLY1305: Byte := 1
  const CLIENT_HELLO: Byte := 1
  const SERVER_HELLO: Byte := 2
  const KEY_LEN := 32
  const SEND_BUF := 512
  const TRANSCRIPT_BUF := 1024

  /** The cryptographic primitives, as functions that always succeed. */
  datatype Crypto = Crypto(
    pub: Bytes -> Bytes,
    dh: (Bytes, Bytes) -> Bytes,
    hash: Bytes -> Bytes,
    extract: (Bytes, Bytes) -> Bytes,
    expand: (Bytes, string, Bytes, nat) -> Bytes,
    resume: (Bytes, Bytes) -> Bytes)

  /** Public keys are 32 bytes long and both sides of an exchange compute the same secret. */
  ghost predicate Lawful(c: Crypto)
  {
    && (forall a :: |c.pub(a)| == KEY_LEN)
    && (forall a, b :: c.dh(a, c.pub(b)) == c.dh(b, c.pub(a)))
  }

  datatype Keys = NoKeys | Keys(key: Bytes, iv: Bytes, hp: Bytes)

  datatype KeyState = KeyState(available: bool, algo: Byte, send: Keys, recv: Keys)

  const NO_KEYS := KeyState(false, AES_256_GCM, NoKeys, NoKeys)

  datatype Phase = Idle | WaitServerHello | WaitClientHello | WaitHandshakeDone | Complete

  datatype Level = InitialLevel | HandshakeLevel | ApplicationLevel

  datatype Handshake = Handshake(
    phase: Phase, isServer: bool, priv: Bytes, peerPub: Option<Bytes>, shared: Bytes, algo: Byte, transcript: Bytes,
    initial: KeyState, handshake: KeyState, app: KeyState, master: Bytes, resumption: Bytes,
    outgoing: Bytes, sent: nat, sendDone: bool,
    local: Params, peer: Params, hasPeer: bool)

  /** `nxp_handshake_create` and `nxp_handshake_set_local_params`. */
  function Create(isServer: bool, priv: Bytes, local: Params): (h: Handshake)
  {
    Handshake(Idle, isServer, priv, None, [], AES_256_GCM, [], NO_KEYS, NO_KEYS, NO_KEYS, [], [], [], 0, false, local,
              ZERO, false)
  }

  // ---------- Key schedule ----------

  const KEY_LABEL := "key"
  const IV_LABEL := "iv"
  const HP_LABEL := "hp"
  const CLIENT_INITIAL := "client in"
  const SERVER_INITIAL := "server in"
  const DERIVED := "derived"
  const CLIENT_HANDSHAKE := "c hs traffic"
  const SERVER_HANDSHAKE := "s hs traffic"
  const CLIENT_TRAFFIC := "c ap traffic"
  const SERVER_TRAFFIC := "s ap traffic"
  const ZEROS: Bytes := seq(32, _ => 0)
  const INITIAL_SALT: Bytes := [0x4e, 0x58, 0x50, 0x31, 0x2d, 0x69, 0x6e, 0x69, 0x74, 0x69,
                                0x61, 0x6c, 0x2d, 0x73, 0x61, 0x6c, 0x74, 0x2d, 0x76, 0x31]

  /** `nxp_crypto_derive_traffic_keys`. */
  function TrafficKeys(c: Crypto, secret: Bytes): (k: Keys)
  {
    Keys(c.expand(secret, KEY_LABEL, [], 32), c.expand(secret, IV_LABEL, [], 12), c.expand(secret, HP_LABEL, [], 32))
  }

  /** `nxp_crypto_derive_initial_keys`, from the point of view of the client. */
  function InitialKeys(c: Crypto, cid: Bytes): (k: KeyState)
  {
    var secret := c.extract(INITIAL_SALT, cid);
    KeyState(true, AES_256_GCM, TrafficKeys(c, c.expand(secret, CLIENT_INITIAL, [], 32)),
             TrafficKeys(c, c.expand(secret, SERVER_INITIAL, [], 32)))
  }

  /** The keys of each direction that a transcript and a shared secret lead to. */
  datatype Schedule = Schedule(clientHandshake: Keys, serverHandshake: Keys, clientApp: Keys, serverApp: Keys,
                               master: Bytes)

  function KeySchedule(c: Crypto, transcript: Bytes, shared: Bytes): (s: Schedule)
  {
    var digest := c.hash(transcript);
    var handshakeSecret := c.extract(ZEROS, shared);
    var master := c.extract(c.expand(handshakeSecret, DERIVED, [], 32), ZEROS);
    Schedule(
      TrafficKeys(c, c.expand(handshakeSecret, CLIENT_HANDSHAKE, digest, 32)),
      TrafficKeys(c, c.expand(handshakeSecret, SERVER_HANDSHAKE, digest, 32)),
      TrafficKeys(c, c.expand(master, CLIENT_TRAFFIC, digest, 32)),
      TrafficKeys(c, c.expand(master, SERVER_TRAFFIC, digest, 32)),
      master)
  }

  /** `derive_handshake_and_app_keys`: each side sends with its own keys and receives with the other's. */
  function DeriveKeys(c: Crypto, h: Handshake): (r: Handshake)
  {
    var s := KeySchedule(c, h.transcript, h.shared);
    h.(handshake := if h.isServer then KeyState(true, h.algo, s.serverHandshake, s.clientHandshake)
                    else KeyState(true, h.algo, s.clientHandshake, s.serverHandshake),
       app := if h.isServer then KeyState(true, h.algo, s.serverApp, s.clientApp)
              else KeyState(true, h.algo, s.clientApp, s.serverApp),
       master := s.master,
       resumption := c.resume(s.master, h.transcript))
  }

  // ---------- Hello messages ----------

  /** `encode_client_hello`. */
  function ClientHello(c: Crypto, priv: Bytes, local: Params): (b: Bytes)
  {
    [CLIENT_HELLO] + c.pub(priv) + [2, AES_256_GCM, CHACHA20_POLY1305] + TransportParams.Encode(local)
  }

  /** `encode_server_hello`. */
  function ServerHello(c: Crypto, priv: Bytes, algo: Byte, local: Params): (b: Bytes)
  {
    [SERVER_HELLO] + c.pub(priv) + [algo] + TransportParams.Encode(local)
  }

  /** Both hellos fit the send buffer, and together the transcript. */
  lemma HellosFit(c: Crypto, a: Bytes, pa: Params, b: Bytes, algo: Byte, pb: Params)
    requires Lawful(c)
    ensures 36 <= |ClientHello(c, a, pa)| <= 106 && 34 <= |ServerHello(c, b, algo, pb)| <= 104
    ensures |ClientHello(c, a, pa)| <= SEND_BUF && |ServerHello(c, b, algo, pb)| <= SEND_BUF
    ensures |ClientHello(c, a, pa)| + |ServerHello(c, b, algo, pb)| <= TRANSCRIPT_BUF
  {
    hide TransportParams.Encode;
  }

  // ---------- Steps; each returns the new record and whether it succeeded ----------

  type Step = (Handshake, bool)

  /** `nxp_handshake_start_client`. */
  function StartClient(c: Crypto, h: Handshake, cid: Bytes): (r: Step)
  {
    if h.phase != Idle || h.isServer then (h, false)
    else
      var hello := ClientHello(c, h.priv, h.local);
      (h.(initial := InitialKeys(c, cid), outgoing := hello, sent := 0, transcript := hello, phase := WaitServerHello),
       true)
  }

  /** `nxp_handshake_start_server`: the same keys, swapped. */
  function StartServer(c: Crypto, h: Handshake, cid: Bytes): (r: Step)
  {
    if h.phase != Idle || !h.isServer then (h, false)
    else
      var k := InitialKeys(c, cid);
      (h.(initial := k.(send := k.recv, recv := k.send), phase := WaitClientHello), true)
  }

  /** The first offered cipher that is supported. */
  function SelectCipher(offered: Bytes): (r: Option<Byte>)
  {
    if offered == [] then None
    else if offered[0] == AES_256_GCM || offered[0] == CHACHA20_POLY1305 then Some(offered[0])
    else SelectCipher(offered[1..])
  }

  /** The transport parameters of a hello, if there are any. */
  function TakeParams(h: Handshake, b: Bytes): (r: Step)
  {
    if b == [] then (h, true)
    else
      var (p, ok) := Decode(b);
      (h.(peer := p, hasPeer := ok || h.hasPeer), ok)
  }

  function AppendTranscript(h: Handshake, b: Bytes): (r: Step)
  {
    if |h.transcript| + |b| > TRANSCRIPT_BUF then (h, false) else (h.(transcript := h.transcript + b), true)
  }

  /** The end of `process_client_hello`: reply, transcript, keys. */
  function AnswerClientHello(c: Crypto, h: Handshake, peerPub: Bytes): (r: Step)
  {
    var h1 := h.(shared := c.dh(h.priv, peerPub));
    var hello := ServerHello(c, h1.priv, h1.algo, h1.local);
    var (h2, ok) := AppendTranscript(h1.(outgoing := hello, sent := 0), hello);
    if !ok then (h2, false) else (DeriveKeys(c, h2).(sendDone := true, phase := Complete), true)
  }

  /** `process_client_hello`. */
  function ProcessClientHello(c: Crypto, h: Handshake, data: Bytes): (r: Step)
  {
    if |data| < 36 || data[0] != CLIENT_HELLO then (h, false)
    else
      var peerPub := data[1..33];
      var h1 := h.(peerPub := Some(peerPub));
      var n := data[33];
      if 34 + n > |data| then (h1, false)
      else match SelectCipher(data[34..34 + n])
        case None => (h1, false)
        case Some(algo) =>
          var (h2, ok2) := TakeParams(h1.(algo := algo), data[34 + n..]);
          if !ok2 then (h2, false)
          else
            var (h3, ok3) := AppendTranscript(h2, data);
            if !ok3 then (h3, false) else AnswerClientHello(c, h3, peerPub)
  }

  /** `process_server_hello`. */
  function ProcessServerHello(c: Crypto, h: Handshake, data: Bytes): (r: Step)
  {
    if |data| < 35 || data[0] != SERVER_HELLO then (h, false)
    else
      var peerPub := data[1..33];
      var h1 := h.(peerPub := Some(peerPub), algo := data[33]);
      var (h2, ok2) := TakeParams(h1, data[34..]);
      if !ok2 then (h2, false)
      else
        var (h3, ok3) := AppendTranscript(h2, data);
        if !ok3 then (h3, false)
        else (DeriveKeys(c, h3.(shared := c.dh(h3.priv, peerPub))).(phase := WaitHandshakeDone), true)
  }

  /** `nxp_handshake_recv_crypto`. */
  function RecvCrypto(c: Crypto, h: Handshake, level: Level, data: Bytes): (r: Step)
  {
    match h.phase
    case WaitClientHello => if level != InitialLevel then (h, false) else ProcessClientHello(c, h, data)
    case WaitServerHello => if level != InitialLevel then (h, false) else ProcessServerHello(c, h, data)
    case _ => (h, false)
  }

  /** `nxp_handshake_on_handshake_done`. */
  function OnHandshakeDone(h: Handshake): (r: Step)
  {
    if h.phase != WaitHandshakeDone then (h, false) else (h.(phase := Complete), true)
  }

  /** `nxp_handshake_fill_crypto`: at most `max` bytes of what is left to send. */
  function FillCrypto(h: Handshake, max: nat): (r: (Handshake, Bytes))
    requires h.sent <= |h.outgoing|
    ensures h.sent + |r.1| == r.0.sent <= |h.outgoing| && r.1 == h.outgoing[h.sent..r.0.sent]
    ensures |r.1| <= max && (|r.1| < max ==> r.0.sent == |h.outgoing|)
  {
    var n := if |h.outgoing| - h.sent > max then max else |h.outgoing| - h.sent;
    (h.(sent := h.sent + n), h.outgoing[h.sent..h.sent + n])
  }

  // ---------- Whatever arrives ----------

  predicate HasKeys(phase: Phase)
  {
    phase in {WaitHandshakeDone, Complete}
  }

  /**
   * Keys are there exactly once the hello has been accepted, and are those that the record's own transcript and
   * the secret shared with the peer's key lead to, each side sending with its own.
   */
  ghost predicate Keyed(c: Crypto, h: Handshake)
  {
    && (h.app.available <==> HasKeys(h.phase))
    && (h.phase == WaitClientHello ==> h.isServer) && (h.phase == WaitServerHello ==> !h.isServer)
    && (h.app.available ==>
          && h.peerPub.Some? && h.shared == c.dh(h.priv, h.peerPub.value)
          && var s := KeySchedule(c, h.transcript, h.shared);
          && h.app == (if h.isServer then KeyState(true, h.algo, s.serverApp, s.clientApp)
                       else KeyState(true, h.algo, s.clientApp, s.serverApp))
          && h.handshake == (if h.isServer then KeyState(true, h.algo, s.serverHandshake, s.clientHandshake)
                             else KeyState(true, h.algo, s.clientHandshake, s.serverHandshake))
          && h.master == s.master && h.resumption == c.resume(s.master, h.transcript))
  }

  lemma CreatedKeyed(c: Crypto, isServer: bool, priv: Bytes, local: Params)
    ensures Keyed(c, Create(isServer, priv, local))
  {
  }

  lemma StartKeyed(c: Crypto, h: Handshake, cid: Bytes)
    requires Keyed(c, h)
    ensures Keyed(c, StartClient(c, h, cid).0) && Keyed(c, StartServer(c, h, cid).0)
    ensures h.app.available ==> StartClient(c, h, cid) == StartServer(c, h, cid) == (h, false)
  {
    hide KeySchedule, InitialKeys, ClientHello;
  }

  /**
   * No message, honest or not, gives wrong keys: it is refused with the phase unchanged, or accepted with the right
   * ones.
   */
  lemma ReceiveKeyed(c: Crypto, h: Handshake, level: Level, data: Bytes)
    requires Keyed(c, h)
    ensures var (h', ok) := RecvCrypto(c, h, level, data);
            && Keyed(c, h') && (ok <==> h'.phase != h.phase) && (ok ==> h'.app.available)
            && (h.app.available ==> h' == h && !ok)
  {
    hide KeySchedule, ServerHello, SelectCipher, TakeParams, AppendTranscript;
    match h.phase
    case WaitClientHello => ClientHelloKeyed(c, h, data);
    case WaitServerHello => ServerHelloKeyed(c, h, data);
    case _ =>
  }

  lemma TakeParamsFrame(h: Handshake, b: Bytes)
    ensures var (h', _) := TakeParams(h, b); h' == h.(peer := h'.peer, hasPeer := h'.hasPeer)
  {
    hide Decode;
  }

  lemma AppendFrame(h: Handshake, b: Bytes)
    ensures var (h', _) := AppendTranscript(h, b); h' == h.(transcript := h'.transcript)
  {
  }

  lemma ClientHelloKeyed(c: Crypto, h: Handshake, data: Bytes)
    requires h.phase == WaitClientHello && h.isServer && !h.app.available
    ensures var (h', ok) := ProcessClientHello(c, h, data);
            Keyed(c, h') && (ok <==> h'.phase != h.phase) && (ok ==> h'.app.available)
  {
    hide KeySchedule, ServerHello, SelectCipher, TakeParams, AppendTranscript, AnswerClientHello;
    if |data| >= 36 && data[0] == CLIENT_HELLO && 34 + data[33] <= |data| {
      var peerPub, n := data[1..33], data[33];
      var algo := SelectCipher(data[34..34 + n]);
      if algo.Some? {
        var h1 := h.(peerPub := Some(peerPub), algo := algo.value);
        TakeParamsFrame(h1, data[34 + n..]);
        var h2 := TakeParams(h1, data[34 + n..]).0;
        AppendFrame(h2, data);
        AnswerKeyed(c, AppendTranscript(h2, data).0, peerPub);
      }
    }
  }

  lemma AnswerKeyed(c: Crypto, h: Handshake, peerPub: Bytes)
    requires h.phase == WaitClientHello && h.isServer && !h.app.available && h.peerPub == Some(peerPub)
    ensures var (h', ok) := AnswerClientHello(c, h, peerPub);
            Keyed(c, h') && (ok <==> h'.phase != h.phase) && (ok ==> h'.app.available)
  {
    hide KeySchedule, ServerHello, AppendTranscript;
    var hello := ServerHello(c, h.priv, h.algo, h.local);
    AppendFrame(h.(shared := c.dh(h.priv, peerPub), outgoing := hello, sent := 0), hello);
  }

  lemma ServerHelloKeyed(c: Crypto, h: Handshake, data: Bytes)
    requires h.phase == WaitServerHello && !h.isServer && !h.app.available
    ensures var (h', ok) := ProcessServerHello(c, h, data);
            Keyed(c, h') && (ok <==> h'.phase != h.phase) && (ok ==> h'.app.available)
  {
    hide KeySchedule, TakeParams, AppendTranscript;
    if |data| >= 35 && data[0] == SERVER_HELLO {
      var h1 := h.(peerPub := Some(data[1..33]), algo := data[33]);
      TakeParamsFrame(h1, data[34..]);
      AppendFrame(TakeParams(h1, data[34..]).0, data);
    }
  }

  lemma DoneKeyed(c: Crypto, h: Handshake)
    requires Keyed(c, h)
    ensures var (h', ok) := OnHandshakeDone(h); Keyed(c, h') && (ok ==> h'.app == h.app && h'.app.available)
  {
    hide KeySchedule;
  }

  /** A call of the handshake interface, with any arguments. */
  datatype Call = CallStartClient(cid: Bytes) | CallStartServer(cid: Bytes)
                | CallReceive(level: Level, data: Bytes) | CallDone

  function Perform(c: Crypto, h: Handshake, call: Call): (r: Handshake)
  {
    match call
    case CallStartClient(cid) => StartClient(c, h, cid).0
    case CallStartServer(cid) => StartServer(c, h, cid).0
    case CallReceive(level, data) => RecvCrypto(c, h, level, data).0
    case CallDone => OnHandshakeDone(h).0
  }

  function PerformAll(c: Crypto, h: Handshake, calls: seq<Call>): (r: Handshake)
  {
    if calls == [] then h else Perform(c, PerformAll(c, h, calls[..|calls| - 1]), calls[|calls| - 1])
  }

  /**
   * Over any sequence of calls with any messages, the keys are those of the record's transcript and secret, and
   * once there they, the transcript and the secret never change.
   */
  lemma {:induction false} KeysAreForever(c: Crypto, h: Handshake, calls: seq<Call>)
    requires Keyed(c, h)
    ensures var h' := PerformAll(c, h, calls);
            && Keyed(c, h')
            && (h.app.available ==> h'.app == h.app && h'.handshake == h.handshake)
            && (h.app.available ==> h'.transcript == h.transcript && h'.shared == h.shared)
  {
    hide Keyed, StartClient, StartServer, RecvCrypto;
    if calls != [] {
      var init, last := calls[..|calls| - 1], calls[|calls| - 1];
      KeysAreForever(c, h, init);
      var mid := PerformAll(c, h, init);
      match last
      case CallStartClient(cid) => StartKeyed(c, mid, cid);
      case CallStartServer(cid) => StartKeyed(c, mid, cid);
      case CallReceive(level, data) => ReceiveKeyed(c, mid, level, data);
      case CallDone => DoneKeyed(c, mid);
    }
  }

  /** In particular, every record that comes about at all holds no keys but those. */
  lemma EveryRecordIsKeyed(c: Crypto, isServer: bool, priv: Bytes, local: Params, calls: seq<Call>)
    ensures Keyed(c, PerformAll(c, Create(isServer, priv, local), calls))
  {
    hide Keyed, PerformAll;
    CreatedKeyed(c, isServer, priv, local);
    KeysAreForever(c, Create(isServer, priv, local), calls);
  }

  /** The first offered cipher that is supported is chosen, and none exactly when no offered one is. */
  lemma {:induction false} FirstSupportedCipher(offered: Bytes)
    ensures match SelectCipher(offered)
      case None => forall i :: 0 <= i < |offered| ==> offered[i] !in {0, 1}
      case Some(x) =>
        && x in {0, 1}
        && exists i :: 0 <= i < |offered| && offered[i] == x && forall j :: 0 <= j < i ==> offered[j] !in {0, 1}
  {
    if offered != [] && offered[0] !in {0, 1} {
      FirstSupportedCipher(offered[1..]);
      var r := SelectCipher(offered[1..]);
      if r.Some? {
        var i :| 0 <= i < |offered[1..]| && offered[1..][i] == r.value &&
                 forall j :: 0 <= j < i ==> offered[1..][j] !in {0, 1};
        assert offered[i + 1] == r.value;
        forall j | 0 <= j < i + 1 ensures offered[j] !in {0, 1} {
          assert j > 0 ==> offered[j] == offered[1..][j - 1];
        }
      } else {
        forall i | 0 <= i < |offered| ensures offered[i] !in {0, 1} {
          assert i > 0 ==> offered[i] == offered[1..][i - 1];
        }
      }
    }
  }

  // ---------- What the keys depend on ----------

  /** Ideal primitives: equal outputs come from equal inputs. */
  ghost predicate Injective(c: Crypto)
  {
    && (forall a, b :: c.hash(a) == c.hash(b) ==> a == b)
    && (forall s, k, s', k' :: c.extract(s, k) == c.extract(s', k') ==> s == s' && k == k')
    && (forall s, l, x, n, s', l', x', n' ::
          c.expand(s, l, x, n) == c.expand(s', l', x', n') ==> s == s' && l == l' && x == x' && n == n')
  }

  /** What a traffic secret is expanded from. */
  datatype Origin = Origin(shared: Bytes, transcript: Bytes, application: bool, server: bool)

  function LabelOf(o: Origin): (l: string)
  {
    if o.application then if o.server then SERVER_TRAFFIC else CLIENT_TRAFFIC
    else if o.server then SERVER_HANDSHAKE else CLIENT_HANDSHAKE
  }

  lemma LabelsDiffer(a: Origin, b: Origin)
    requires LabelOf(a) == LabelOf(b)
    ensures a.application == b.application && a.server == b.server
  {
    assert CLIENT_HANDSHAKE[0] == CLIENT_TRAFFIC[0] == 'c' && SERVER_HANDSHAKE[0] == SERVER_TRAFFIC[0] == 's';
    assert CLIENT_HANDSHAKE[2] == SERVER_HANDSHAKE[2] == 'h' && CLIENT_TRAFFIC[2] == SERVER_TRAFFIC[2] == 'a';
  }

  /** The keys of one direction at one level, out of the schedule. */
  function ScheduledKeys(c: Crypto, o: Origin): (k: Keys)
  {
    var s := KeySchedule(c, o.transcript, o.shared);
    if o.application then if o.server then s.serverApp else s.clientApp
    else if o.server then s.serverHandshake else s.clientHandshake
  }

  lemma SameKeysSameSecret(c: Crypto, s: Bytes, s': Bytes)
    requires Injective(c) && TrafficKeys(c, s) == TrafficKeys(c, s')
    ensures s == s'
  {
    assert c.expand(s, KEY_LABEL, [], 32) == c.expand(s', KEY_LABEL, [], 32);
  }

  /** Nothing but the shared secret, the transcript, the level and the direction gives the same keys. */
  lemma ScheduleIsInjective(c: Crypto, a: Origin, b: Origin)
    requires Injective(c) && ScheduledKeys(c, a) == ScheduledKeys(c, b)
    ensures a == b
  {
    hide TrafficKeys;
    var secret, secret' := c.extract(ZEROS, a.shared), c.extract(ZEROS, b.shared);
    var base := if a.application then c.extract(c.expand(secret, DERIVED, [], 32), ZEROS) else secret;
    var base' := if b.application then c.extract(c.expand(secret', DERIVED, [], 32), ZEROS) else secret';
    var digest, digest' := c.hash(a.transcript), c.hash(b.transcript);
    assert ScheduledKeys(c, a) == TrafficKeys(c, c.expand(base, LabelOf(a), digest, 32));
    assert ScheduledKeys(c, b) == TrafficKeys(c, c.expand(base', LabelOf(b), digest', 32));
    SameKeysSameSecret(c, c.expand(base, LabelOf(a), digest, 32), c.expand(base', LabelOf(b), digest', 32));
    LabelsDiffer(a, b);
    assert c.expand(secret, DERIVED, [], 32) == c.expand(secret', DERIVED, [], 32);
  }

  /** Which keys a record sends and receives with. */
  lemma RecordKeys(c: Crypto, h: Handshake)
    requires Keyed(c, h) && h.app.available
    ensures h.app.send == ScheduledKeys(c, Origin(h.shared, h.transcript, true, h.isServer))
    ensures h.app.recv == ScheduledKeys(c, Origin(h.shared, h.transcript, true, !h.isServer))
    ensures h.handshake.send == ScheduledKeys(c, Origin(h.shared, h.transcript, false, h.isServer))
    ensures h.handshake.recv == ScheduledKeys(c, Origin(h.shared, h.transcript, false, !h.isServer))
  {
    hide KeySchedule;
  }

  /**
   * The keys bind everything: two records that send with the same keys, at either level, have the same secret, the
   * same transcript and the same role; a record that receives with them has the other role; and keys of the two
   * levels always differ.
   */
  lemma KeysBind(c: Crypto, h: Handshake, h': Handshake)
    requires Injective(c) && Keyed(c, h) && Keyed(c, h') && h.app.available && h'.app.available
    ensures h.app.send == h'.app.send || h.handshake.send == h'.handshake.send ==>
              h.shared == h'.shared && h.transcript == h'.transcript && h.isServer == h'.isServer
    ensures h.app.send == h'.app.recv || h.handshake.send == h'.handshake.recv ==>
              h.shared == h'.shared && h.transcript == h'.transcript && h.isServer != h'.isServer
    ensures {h.app.send, h.app.recv} !! {h'.handshake.send, h'.handshake.recv}
  {
    hide Keyed, ScheduledKeys;
    RecordKeys(c, h);
    RecordKeys(c, h');
    var app, hs := Origin(h.shared, h.transcript, true, h.isServer), Origin(h.shared, h.transcript, false, h.isServer);
    forall a, b | a in {app, app.(server := !app.server), hs, hs.(server := !hs.server)} &&
                  ScheduledKeys(c, a) == ScheduledKeys(c, b)
      ensures a == b
    {
      ScheduleIsInjective(c, a, b);
    }
  }

  /** The master secret, and with it what a resumption starts from, binds the shared secret. */
  lemma MasterBinds(c: Crypto, h: Handshake, h': Handshake)
    requires Injective(c) && Keyed(c, h) && Keyed(c, h') && h.app.available && h'.app.available
    ensures h.master == h'.master ==> h.shared == h'.shared
    ensures h.resumption == c.resume(h.master, h.transcript)
  {
    hide TrafficKeys;
    var secret, secret' := c.extract(ZEROS, h.shared), c.extract(ZEROS, h'.shared);
    assert h.master == c.extract(c.expand(secret, DERIVED, [], 32), ZEROS);
    assert h'.master == c.extract(c.expand(secret', DERIVED, [], 32), ZEROS);
  }

  /** In particular, no record sends with the keys that it receives with. */
  lemma DirectionsDiffer(c: Crypto, h: Handshake)
    requires Injective(c) && Keyed(c, h) && h.app.available
    ensures h.app.send != h.app.recv && h.handshake.send != h.handshake.recv
  {
    hide Keyed;
    KeysBind(c, h, h);
  }

  /** Initial keys bind the connection id and the direction. */
  lemma InitialKeysBind(c: Crypto, cid: Bytes, cid': Bytes)
    requires Injective(c)
    ensures InitialKeys(c, cid).send == InitialKeys(c, cid').send ==> cid == cid'
    ensures InitialKeys(c, cid).recv == InitialKeys(c, cid').recv ==> cid == cid'
    ensures InitialKeys(c, cid).send != InitialKeys(c, cid').recv
  {
    hide TrafficKeys;
    assert CLIENT_INITIAL[0] == 'c' && SERVER_INITIAL[0] == 's';
    var s, s' := c.extract(INITIAL_SALT, cid), c.extract(INITIAL_SALT, cid');
    forall l, l' | TrafficKeys(c, c.expand(s, l, [], 32)) == TrafficKeys(c, c.expand(s', l', [], 32))
      ensures l == l' && cid == cid'
    {
      SameKeysSameSecret(c, c.expand(s, l, [], 32), c.expand(s', l', [], 32));
    }
  }

  // ---------- What each step does to an honest message ----------

  /** A client hello leaves the server complete, with the keys of this transcript and secret. */
  lemma ClientHelloAccepted(c: Crypto, h: Handshake, a: Bytes, pa: Params)
    requires Lawful(c) && Typed(pa) && h.isServer && h.transcript == [] && !h.hasPeer
    ensures var ch := ClientHello(c, a, pa);
      var sh := ServerHello(c, h.priv, AES_256_GCM, h.local);
      ProcessClientHello(c, h, ch) == (ServerDone(c, h, a, pa, ch, sh), true)
  {
    hide TransportParams.Encode, Decode, KeySchedule;
    var ch, sh := ClientHello(c, a, pa), ServerHello(c, h.priv, AES_256_GCM, h.local);
    HellosFit(c, a, pa, h.priv, AES_256_GCM, h.local);
    assert ch[1..33] == c.pub(a);
    assert ch[33] == 2 && ch[34..36] == [AES_256_GCM, CHACHA20_POLY1305];
    assert ch[36..] == TransportParams.Encode(pa);
    if Encodable(pa) {
      RoundTrip(pa);
    } else {
      NothingEncoded(pa);
    }
    assert [] + ch == ch;
  }

  lemma NothingEncoded(p: Params)
    requires Typed(p) && !Encodable(p)
    ensures TransportParams.Encode(p) == []
  {
    EncodableEntries(p);
  }

  /** The server's record after the hello `ch` of a client with private key `a`. */
  function ServerDone(c: Crypto, h: Handshake, a: Bytes, pa: Params, ch: Bytes, sh: Bytes): (r: Handshake)
  {
    DeriveKeys(c, h.(peerPub := Some(c.pub(a)), algo := AES_256_GCM,
                     peer := if Encodable(pa) then Rounded(pa) else h.peer, hasPeer := Encodable(pa),
                     transcript := ch + sh, shared := c.dh(h.priv, c.pub(a)), outgoing := sh, sent := 0))
    .(sendDone := true, phase := Complete)
  }

  /** A server hello is accepted exactly when it carries parameters; it gives the client the keys of this transcript. */
  lemma ServerHelloAccepted(c: Crypto, h: Handshake, ch: Bytes, b: Bytes, pb: Params)
    requires Lawful(c) && Typed(pb) && !h.isServer && h.transcript == ch && |ch| <= SEND_BUF && !h.hasPeer
    ensures var sh := ServerHello(c, b, AES_256_GCM, pb);
      ProcessServerHello(c, h, sh) == if Encodable(pb) then (ClientReady(c, h, b, pb, ch, sh), true) else (h, false)
  {
    hide TransportParams.Encode, Decode, KeySchedule;
    var sh := ServerHello(c, b, AES_256_GCM, pb);
    HellosFit(c, b, pb, b, AES_256_GCM, pb);
    assert sh[1..33] == c.pub(b);
    assert sh[33] == AES_256_GCM;
    assert sh[34..] == TransportParams.Encode(pb);
    if Encodable(pb) {
      RoundTrip(pb);
    } else {
      NothingEncoded(pb);
    }
  }

  /** The client's record after the hello `sh` of a server with private key `b`. */
  function ClientReady(c: Crypto, h: Handshake, b: Bytes, pb: Params, ch: Bytes, sh: Bytes): (r: Handshake)
  {
    DeriveKeys(c, h.(peerPub := Some(c.pub(b)), algo := AES_256_GCM, peer := Rounded(pb), hasPeer := true,
                     transcript := ch + sh, shared := c.dh(h.priv, c.pub(b))))
    .(phase := WaitHandshakeDone)
  }
}
