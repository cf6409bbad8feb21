/** The handshake record updated in place (src/core/handshake.c). */
module HandshakeObjects {
  import opened Bytes
  import opened TransportParams
  import opened Handshakes

  /** The cipher loop of `process_client_hello`. */
  method FindCipher(offered: Bytes) returns (r: Option<Byte>)
    ensures r == SelectCipher(offered)
  {
    assert offered[0..] == offered;
    for i := 0 to |offered|
      invariant SelectCipher(offered) == SelectCipher(offered[i..])
    {
      assert offered[i..][1..] == offered[i + 1..];
      if offered[i] == AES_256_GCM || offered[i] == CHACHA20_POLY1305 {
        return Some(offered[i]);
      }
    }
    r := None;
  }

  /** The secrets of `derive_handshake_and_app_keys`, in the order in which they are derived. */
  method ComputeSchedule(c: Crypto, transcript: Bytes, shared: Bytes) returns (s: Schedule)
    ensures s == KeySchedule(c, transcript, shared)
  {
    hide TrafficKeys;
    var digest := c.hash(transcript);
    var handshakeSecret := c.extract(ZEROS, shared);
    var clientSecret := c.expand(handshakeSecret, CLIENT_HANDSHAKE, digest, 32);
    var serverSecret := c.expand(handshakeSecret, SERVER_HANDSHAKE, digest, 32);
    var derived := c.expand(handshakeSecret, DERIVED, [], 32);
    var master := c.extract(derived, ZEROS);
    var clientApp := c.expand(master, CLIENT_TRAFFIC, digest, 32);
    var serverApp := c.expand(master, SERVER_TRAFFIC, digest, 32);
    s := Schedule(TrafficKeys(c, clientSecret), TrafficKeys(c, serverSecret), TrafficKeys(c, clientApp),
                  TrafficKeys(c, serverApp), master);
  }

  class HandshakeContext {
    const isServer: bool
    const priv: Bytes
    const transcript: array<Byte>
    const sendBuf: array<Byte>
    var phase: Phase
    var peerPub: Option<Bytes>
    var shared: Bytes
    var algo: Byte
    var transcriptLen: nat
    var initial: KeyState
    var handshake: KeyState
    var app: KeyState
    var master: Bytes
    var resumption: Bytes
    var sendLen: nat
    var sendOffset: nat
    var sendDone: bool
    var local: Params
    var peer: Params
    var hasPeer: bool

    ghost predicate Valid()
      reads this
    {
      && transcript.Length == TRANSCRIPT_BUF && transcriptLen <= TRANSCRIPT_BUF
      && sendBuf.Length == SEND_BUF && sendOffset <= sendLen <= SEND_BUF
      && transcript != sendBuf
    }

    ghost function Value(): (h: Handshake)
      requires Valid()
      reads this, transcript, sendBuf
    {
      Handshake(phase, isServer, priv, peerPub, shared, algo, transcript[..transcriptLen], initial, handshake, app,
                master, resumption, sendBuf[..sendLen], sendOffset, sendDone, local, peer, hasPeer)
    }

    constructor (isServer: bool, priv: Bytes, local: Params)
      ensures Valid() && fresh(transcript) && fresh(sendBuf) && Value() == Create(isServer, priv, local)
      ensures !app.available && phase == Idle
    {
      this.isServer, this.priv, this.local := isServer, priv, local;
      transcript := new Byte[TRANSCRIPT_BUF](_ => 0);
      sendBuf := new Byte[SEND_BUF](_ => 0);
      phase, peerPub, shared, algo := Idle, None, [], AES_256_GCM;
      transcriptLen, sendLen, sendOffset, sendDone := 0, 0, 0, false;
      initial, handshake, app, master, resumption := NO_KEYS, NO_KEYS, NO_KEYS, [], [];
      peer, hasPeer := ZERO, false;
    }

    /** A hello in the send buffer: `head`, then the local transport parameters. */
    method EncodeHello(head: Bytes)
      requires Valid() && |head| <= 36
      modifies sendBuf, this`sendLen, this`sendOffset
      ensures Valid() && Value() == old(Value()).(outgoing := head + TransportParams.Encode(local), sent := 0)
    {
      hide TransportParams.Encode;
      CopyInto(sendBuf, 0, head);
      assert sendBuf[..|head|] == head;
      var n := WriteParams(sendBuf, |head|, local);
      Nothing(local);
      assert sendBuf[..|head| + n] == head + TransportParams.Encode(local);
      sendLen, sendOffset := |head| + n, 0;
    }

    /** `nxp_handshake_start_client`. */
    method BeginClient(c: Crypto, cid: Bytes) returns (ok: bool)
      requires Valid() && Lawful(c) && Keyed(c, Value())
      modifies this, transcript, sendBuf
      ensures Valid() && (Value(), ok) == StartClient(c, old(Value()), cid)
      ensures Keyed(c, Value()) &&
              (ok ==> sendBuf[..sendLen] == transcript[..transcriptLen] == ClientHello(c, priv, local))
    {
      hide ClientHello, InitialKeys, Keyed;
      StartKeyed(c, Value(), cid);
      if phase != Idle || isServer {
        return false;
      }
      initial := InitialKeys(c, cid);
      WriteClientHello(c);
      phase := WaitServerHello;
      ok := true;
    }

    method WriteClientHello(c: Crypto)
      requires Valid() && Lawful(c)
      modifies this`sendLen, this`sendOffset, this`transcriptLen, transcript, sendBuf
      ensures Valid()
      ensures var hello := ClientHello(c, priv, local);
              Value() == old(Value()).(outgoing := hello, sent := 0, transcript := hello)
    {
      hide TransportParams.Encode, Overwrite;
      EncodeHello([CLIENT_HELLO] + c.pub(priv) + [2, AES_256_GCM, CHACHA20_POLY1305]);
      assert sendBuf[..sendLen] == ClientHello(c, priv, local);
      var hello := sendBuf[..sendLen];
      CopyInto(transcript, 0, hello);
      assert transcript[..sendLen] == hello;
      transcriptLen := sendLen;
    }

    /** `nxp_handshake_start_server`: its initial keys are the client's, crossed. */
    method BeginServer(c: Crypto, cid: Bytes) returns (ok: bool)
      requires Valid() && Keyed(c, Value())
      modifies this
      ensures Valid() && (Value(), ok) == StartServer(c, old(Value()), cid)
      ensures Keyed(c, Value()) &&
              (ok ==> initial.send == InitialKeys(c, cid).recv && initial.recv == InitialKeys(c, cid).send)
    {
      hide InitialKeys, Keyed;
      StartKeyed(c, Value(), cid);
      if phase != Idle || !isServer {
        return false;
      }
      initial := InitialKeys(c, cid);
      var tmp := initial.send;
      initial := initial.(send := initial.recv);
      initial := initial.(recv := tmp);
      phase := WaitClientHello;
      ok := true;
    }

    method TakeHelloParams(b: Bytes) returns (ok: bool)
      requires Valid()
      modifies this`peer, this`hasPeer
      ensures Valid() && (Value(), ok) == TakeParams(old(Value()), b)
    {
      hide Decode;
      if b == [] {
        return true;
      }
      peer, ok := ReadParams(b);
      if ok {
        hasPeer := true;
      }
    }

    method Append(b: Bytes) returns (ok: bool)
      requires Valid()
      modifies this`transcriptLen, transcript
      ensures Valid() && (Value(), ok) == AppendTranscript(old(Value()), b)
    {
      if transcriptLen + |b| > TRANSCRIPT_BUF {
        return false;
      }
      CopyInto(transcript, transcriptLen, b);
      transcriptLen := transcriptLen + |b|;
      ok := true;
    }

    /** `derive_handshake_and_app_keys`. */
    method Derive(c: Crypto)
      requires Valid()
      modifies this`handshake, this`app, this`master, this`resumption
      ensures Valid() && Value() == DeriveKeys(c, old(Value()))
    {
      hide KeySchedule;
      var text := transcript[..transcriptLen];
      var s := ComputeSchedule(c, text, shared);
      handshake := if isServer then KeyState(true, algo, s.serverHandshake, s.clientHandshake)
                   else KeyState(true, algo, s.clientHandshake, s.serverHandshake);
      app := if isServer then KeyState(true, algo, s.serverApp, s.clientApp)
             else KeyState(true, algo, s.clientApp, s.serverApp);
      master := s.master;
      resumption := c.resume(s.master, text);
    }

    method ShareSecret(c: Crypto, peerKey: Bytes)
      requires Valid()
      modifies this`shared
      ensures Valid() && Value() == old(Value()).(shared := c.dh(old(Value()).priv, peerKey))
    {
      shared := c.dh(priv, peerKey);
    }

    method EncodeServerHello(c: Crypto)
      requires Valid() && Lawful(c)
      modifies sendBuf, this`sendLen, this`sendOffset
      ensures Valid()
      ensures var h := old(Value()); Value() == h.(outgoing := ServerHello(c, h.priv, h.algo, h.local), sent := 0)
    {
      hide TransportParams.Encode;
      EncodeHello([SERVER_HELLO] + c.pub(priv) + [algo]);
    }

    method AppendOutgoing() returns (ok: bool)
      requires Valid()
      modifies this`transcriptLen, transcript
      ensures Valid() && (Value(), ok) == AppendTranscript(old(Value()), old(Value()).outgoing)
    {
      ok := Append(sendBuf[..sendLen]);
    }

    method PromiseDone()
      requires Valid()
      modifies this`sendDone
      ensures Valid() && Value() == old(Value()).(sendDone := true)
    {
      sendDone := true;
    }

    method Enter(next: Phase)
      requires Valid()
      modifies this`phase
      ensures Valid() && Value() == old(Value()).(phase := next)
    {
      phase := next;
    }

    method Answer(c: Crypto, peerKey: Bytes) returns (ok: bool)
      requires Valid() && Lawful(c)
      modifies this, transcript, sendBuf
      ensures Valid() && (Value(), ok) == AnswerClientHello(c, old(Value()), peerKey)
    {
      hide Value, ServerHello, DeriveKeys, AppendTranscript;
      ShareSecret(c, peerKey);
      EncodeServerHello(c);
      ok := AppendOutgoing();
      if ok {
        Derive(c);
        PromiseDone();
        Enter(Complete);
      }
    }

    /** `process_client_hello`. */
    method OnClientHello(c: Crypto, data: Bytes) returns (ok: bool)
      requires Valid() && Lawful(c)
      modifies this, transcript, sendBuf
      ensures Valid() && (Value(), ok) == ProcessClientHello(c, old(Value()), data)
    {
      hide AnswerClientHello, Decode, AppendTranscript, TakeParams, SelectCipher;
      if |data| < 36 || data[0] != CLIENT_HELLO {
        return false;
      }
      var peerKey := data[1..33];
      peerPub := Some(peerKey);
      var n := data[33];
      if 34 + n > |data| {
        return false;
      }
      var cipher := FindCipher(data[34..34 + n]);
      if cipher.None? {
        return false;
      }
      algo := cipher.value;
      ok := TakeHelloParams(data[34 + n..]);
      if ok {
        ok := Append(data);
        if ok {
          ok := Answer(c, peerKey);
        }
      }
    }

    method Conclude(c: Crypto, peerKey: Bytes)
      requires Valid()
      modifies this
      ensures Valid()
      ensures var h := old(Value());
              Value() == DeriveKeys(c, h.(shared := c.dh(h.priv, peerKey))).(phase := WaitHandshakeDone)
    {
      hide Value, DeriveKeys;
      ShareSecret(c, peerKey);
      Derive(c);
      Enter(WaitHandshakeDone);
    }

    /** `process_server_hello`. */
    method OnServerHello(c: Crypto, data: Bytes) returns (ok: bool)
      requires Valid()
      modifies this, transcript
      ensures Valid() && (Value(), ok) == ProcessServerHello(c, old(Value()), data)
    {
      hide DeriveKeys, Decode, AppendTranscript, TakeParams;
      if |data| < 35 || data[0] != SERVER_HELLO {
        return false;
      }
      var peerKey := data[1..33];
      peerPub := Some(peerKey);
      algo := data[33];
      ok := TakeHelloParams(data[34..]);
      if ok {
        ok := Append(data);
        if ok {
          Conclude(c, peerKey);
        }
      }
    }

    /**
     * `nxp_handshake_recv_crypto`: any message is refused, or leaves exactly the keys of the new transcript; keys
     * once there stay.
     */
    method Receive(c: Crypto, level: Level, data: Bytes) returns (ok: bool)
      requires Valid() && Lawful(c) && Keyed(c, Value())
      modifies this, transcript, sendBuf
      ensures Valid() && (Value(), ok) == RecvCrypto(c, old(Value()), level, data)
      ensures Keyed(c, Value()) && (ok <==> phase != old(phase)) && (ok ==> app.available)
      ensures old(app.available) ==> !ok && Value() == old(Value())
    {
      hide ProcessClientHello, ProcessServerHello, Keyed;
      ReceiveKeyed(c, Value(), level, data);
      match phase
      case WaitClientHello =>
        if level != InitialLevel {
          return false;
        }
        ok := OnClientHello(c, data);
      case WaitServerHello =>
        if level != InitialLevel {
          return false;
        }
        ok := OnServerHello(c, data);
      case _ =>
        ok := false;
    }

    /** `nxp_handshake_fill_crypto`. */
    method Fill(max: nat) returns (data: Bytes, offset: nat)
      requires Valid()
      modifies this`sendOffset
      ensures Valid() && (Value(), data) == FillCrypto(old(Value()), max)
      ensures offset == old(sendOffset)
    {
      var n := sendLen - sendOffset;
      if n > max {
        n := max;
      }
      offset := sendOffset;
      data := sendBuf[offset..offset + n];
      assert data == Value().outgoing[offset..offset + n];
      sendOffset := sendOffset + n;
    }

    /** `nxp_handshake_on_handshake_done`: completes only a client that holds the keys of its transcript. */
    method OnDone(ghost c: Crypto) returns (ok: bool)
      requires Valid() && Keyed(c, Value())
      modifies this`phase
      ensures Valid() && (Value(), ok) == OnHandshakeDone(old(Value()))
      ensures Keyed(c, Value()) && (ok ==> phase == Complete && app.available) && (!ok ==> phase == old(phase))
    {
      hide Keyed;
      DoneKeyed(c, Value());
      ok := phase == WaitHandshakeDone;
      if ok {
        phase := Complete;
      }
    }
  }

  lemma Nothing(p: Params)
    ensures !AllVarints(Entries(p)) ==> TransportParams.Encode(p) == []
  {
  }
}
