/** The handshake as its implementations write it: one routine per party that reads and writes
    a transport from top to bottom, proved against the frame-by-frame roles. */
module HandshakeRoutines {
  import opened Crc16
  import opened SymbolicKeys
  import opened Frame
  import opened Handshake
  import B = HandshakeBackoff

  datatype Arrival = Arrived(frame: HandshakeFrame) | Closed | Malformed

  datatype Outcome = Success | Failure(error: HandshakeError) | BadFrame

  class Transport {
    var incoming: seq<Arrival>
    var sent: seq<HandshakeFrame>

    /** What the next read yields; a transport with nothing left is closed. */
    method Read() returns (a: Arrival)
      modifies this
      ensures a == Next(old(incoming)) && incoming == Rest(old(incoming)) && sent == old(sent)
    {
      a, incoming := Next(incoming), Rest(incoming);
    }

    method Write(f: HandshakeFrame)
      modifies this
      ensures sent == old(sent) + [f] && incoming == old(incoming)
    {
      sent := sent + [f];
    }
  }

  function Next(incoming: seq<Arrival>): Arrival { if |incoming| == 0 then Closed else incoming[0] }
  function Rest(incoming: seq<Arrival>): seq<Arrival> { if |incoming| == 0 then [] else incoming[1..] }

  // ---------------------------------------------------------------- running a role to its end

  datatype ClientEnd = ClientEnd(client: Client, outcome: Outcome, sent: seq<HandshakeFrame>, left: seq<Arrival>)

  function DriveClient(c: Client, incoming: seq<Arrival>, lowOrder: set<seq<Cell>>): ClientEnd
    decreases |incoming|
  {
    if c.phase.Established? then ClientEnd(c, Success, [], incoming)
    else if c.phase.ClientFailed? then ClientEnd(c, Failure(c.phase.error), [], incoming)
    else
      match Next(incoming)
      case Closed => ClientEnd(c, Failure(ConnectionClosed), [], Rest(incoming))
      case Malformed => ClientEnd(c, BadFrame, [], Rest(incoming))
      case Arrived(f) =>
        var (d, out) := ClientReceive(c, f, lowOrder);
        var end := DriveClient(d, Rest(incoming), lowOrder);
        end.(sent := out + end.sent)
  }

  function RunClient(psk: Psk, deviceId: seq<Cell>, run: nat, incoming: seq<Arrival>, lowOrder: set<seq<Cell>>): ClientEnd {
    var (c, out) := StartClient(psk, deviceId, run);
    var end := DriveClient(c, incoming, lowOrder);
    end.(sent := out + end.sent)
  }

  datatype ServerEnd = ServerEnd(server: Server, outcome: Outcome, sent: seq<HandshakeFrame>, left: seq<Arrival>)

  function DriveServer(s: Server, incoming: seq<Arrival>, lowOrder: set<seq<Cell>>): ServerEnd
    decreases |incoming|
  {
    if s.phase.Accepted? then ServerEnd(s, Success, [], incoming)
    else if s.phase.ServerFailed? then ServerEnd(s, Failure(s.phase.error), [], incoming)
    else
      match Next(incoming)
      case Closed => ServerEnd(s, Failure(ConnectionClosed), [], Rest(incoming))
      case Malformed => ServerEnd(s, BadFrame, [], Rest(incoming))
      case Arrived(f) =>
        var (t, out) := ServerReceive(s, f, lowOrder);
        var end := DriveServer(t, Rest(incoming), lowOrder);
        end.(sent := out + end.sent)
  }

  /** The whole run is what has been sent so far, then what this state still does. */
  ghost predicate ClientAt(whole: ClientEnd, c: Client, left: seq<Arrival>, sent: seq<HandshakeFrame>, lowOrder: set<seq<Cell>>) {
    var end := DriveClient(c, left, lowOrder);
    whole == end.(sent := sent + end.sent)
  }

  lemma ClientAdvance(whole: ClientEnd, c: Client, left: seq<Arrival>, sent: seq<HandshakeFrame>, lowOrder: set<seq<Cell>>)
    requires ClientAt(whole, c, left, sent, lowOrder)
    requires c.phase.AwaitChallenge? || c.phase.AwaitSessionOk?
    ensures Next(left).Arrived? ==>
              var (d, out) := ClientReceive(c, Next(left).frame, lowOrder);
              ClientAt(whole, d, Rest(left), sent + out, lowOrder)
    ensures Next(left).Closed? ==> whole == ClientEnd(c, Failure(ConnectionClosed), sent, Rest(left))
    ensures Next(left).Malformed? ==> whole == ClientEnd(c, BadFrame, sent, Rest(left))
  {
    assert sent + [] == sent;
    if Next(left).Arrived? {
      var (d, out) := ClientReceive(c, Next(left).frame, lowOrder);
      var end := DriveClient(d, Rest(left), lowOrder);
      assert sent + (out + end.sent) == sent + out + end.sent;
    }
  }

  lemma ClientStops(whole: ClientEnd, c: Client, left: seq<Arrival>, sent: seq<HandshakeFrame>, lowOrder: set<seq<Cell>>)
    requires ClientAt(whole, c, left, sent, lowOrder)
    ensures c.phase.Established? ==> whole == ClientEnd(c, Success, sent, left)
    ensures c.phase.ClientFailed? ==> whole == ClientEnd(c, Failure(c.phase.error), sent, left)
  {
    assert sent + [] == sent;
  }

  ghost predicate ServerAt(whole: ServerEnd, s: Server, left: seq<Arrival>, sent: seq<HandshakeFrame>, lowOrder: set<seq<Cell>>) {
    var end := DriveServer(s, left, lowOrder);
    whole == end.(sent := sent + end.sent)
  }

  lemma ServerAdvance(whole: ServerEnd, s: Server, left: seq<Arrival>, sent: seq<HandshakeFrame>, lowOrder: set<seq<Cell>>)
    requires ServerAt(whole, s, left, sent, lowOrder)
    requires s.phase.AwaitHello? || s.phase.AwaitAck?
    ensures Next(left).Arrived? ==>
              var (t, out) := ServerReceive(s, Next(left).frame, lowOrder);
              ServerAt(whole, t, Rest(left), sent + out, lowOrder)
    ensures Next(left).Closed? ==> whole == ServerEnd(s, Failure(ConnectionClosed), sent, Rest(left))
    ensures Next(left).Malformed? ==> whole == ServerEnd(s, BadFrame, sent, Rest(left))
  {
    assert sent + [] == sent;
    if Next(left).Arrived? {
      var (t, out) := ServerReceive(s, Next(left).frame, lowOrder);
      var end := DriveServer(t, Rest(left), lowOrder);
      assert sent + (out + end.sent) == sent + out + end.sent;
    }
  }

  lemma ServerStops(whole: ServerEnd, s: Server, left: seq<Arrival>, sent: seq<HandshakeFrame>, lowOrder: set<seq<Cell>>)
    requires ServerAt(whole, s, left, sent, lowOrder)
    ensures s.phase.Accepted? ==> whole == ServerEnd(s, Success, sent, left)
    ensures s.phase.ServerFailed? ==> whole == ServerEnd(s, Failure(s.phase.error), sent, left)
  {
    assert sent + [] == sent;
  }

  function NewServerRun(source: PskSource, run: nat): Server { Server(source, run, AwaitHello, [], [], [], NO_KEYS) }

  // ---------------------------------------------------------------- an undisturbed run

  /** With the same key at both ends and nothing lost or altered, both parties finish, whether
      or not the server first asks for a cookie: they hold crossed keys and one session id. */
  lemma UndisturbedRun(psk: Psk, source: PskSource, deviceId: seq<Cell>, c: nat, s: nat, lowOrder: set<seq<Cell>>, cookie: Option<seq<Cell>>)
    requires |psk| >= MIN_PSK_LEN && |deviceId| == DEVICE_ID_LEN && Lookup(source, deviceId) == Some(psk)
    requires Pub(c) !in lowOrder && Pub(s) !in lowOrder
    requires cookie.Some? ==> |cookie.value| == COOKIE_LEN
    ensures var challenge := HandshakeFrame(CHALLENGE, Nonce(s) + Pub(s));
            var hello := HandshakeFrame(HELLO, deviceId + Pub(c));
            var again := HandshakeFrame(HELLO, deviceId + Pub(c) + if cookie.Some? then cookie.value else []);
            var ack := HandshakeFrame(HELLO_ACK, Hmac(psk, Transcript(HELLO_ACK, Nonce(s), deviceId, Pub(c), Pub(s))));
            var ok := HandshakeFrame(SESSION_OK, SessionId(s) + Hmac(psk, Transcript(SESSION_OK, Nonce(s), SessionId(s), Pub(c), Pub(s))));
            var asked := if cookie.Some? then [Arrived(HandshakeFrame(HELLO_RETRY, cookie.value))] else [];
            var ce := RunClient(psk, deviceId, c, asked + [Arrived(challenge), Arrived(ok)], lowOrder);
            var se := DriveServer(NewServerRun(source, s), [Arrived(again), Arrived(ack)], lowOrder);
            && ce.outcome == Success && ce.sent == [hello] + (if cookie.Some? then [again] else []) + [ack]
            && se.outcome == Success && se.sent == [challenge, ok]
            && Crossed(ce.client.keys, se.server.keys) && SessionMatches(ce.client, se.server)
  {
    var challenge := HandshakeFrame(CHALLENGE, Nonce(s) + Pub(s));
    var again := HandshakeFrame(HELLO, deviceId + Pub(c) + if cookie.Some? then cookie.value else []);
    var ack := HandshakeFrame(HELLO_ACK, Hmac(psk, Transcript(HELLO_ACK, Nonce(s), deviceId, Pub(c), Pub(s))));
    var ok := HandshakeFrame(SESSION_OK, SessionId(s) + Hmac(psk, Transcript(SESSION_OK, Nonce(s), SessionId(s), Pub(c), Pub(s))));
    ExchangeCommutes(c, s);
    UndisturbedServer(psk, source, deviceId, c, s, lowOrder, again, ack);
    var (c0, out) := StartClient(psk, deviceId, c);
    UndisturbedClient(c0, challenge, ok, s, lowOrder);
    if cookie.Some? {
      var retry := Arrived(HandshakeFrame(HELLO_RETRY, cookie.value));
      UndisturbedClient(c0.(phase := AwaitChallenge(true)), challenge, ok, s, lowOrder);
      assert ([retry] + [Arrived(challenge), Arrived(ok)])[1..] == [Arrived(challenge), Arrived(ok)];
    } else {
      assert [] + [Arrived(challenge), Arrived(ok)] == [Arrived(challenge), Arrived(ok)];
    }
  }

  lemma UndisturbedServer(psk: Psk, source: PskSource, deviceId: seq<Cell>, c: nat, s: nat, lowOrder: set<seq<Cell>>,
                          hello: HandshakeFrame, ack: HandshakeFrame)
    requires |psk| >= MIN_PSK_LEN && |deviceId| == DEVICE_ID_LEN && Lookup(source, deviceId) == Some(psk)
    requires Pub(c) !in lowOrder && hello.ptype == HELLO
    requires |hello.payload| == DEVICE_ID_LEN + PUB_KEY_LEN || |hello.payload| == DEVICE_ID_LEN + PUB_KEY_LEN + COOKIE_LEN
    requires hello.payload[..DEVICE_ID_LEN + PUB_KEY_LEN] == deviceId + Pub(c)
    requires ack == HandshakeFrame(HELLO_ACK, Hmac(psk, Transcript(HELLO_ACK, Nonce(s), deviceId, Pub(c), Pub(s))))
    ensures var se := DriveServer(NewServerRun(source, s), [Arrived(hello), Arrived(ack)], lowOrder);
            && se.outcome == Success && se.server.phase.Accepted? && se.server.run == s
            && se.server.psk == psk && se.server.deviceId == deviceId && se.server.pubC == Pub(c)
            && se.server.keys == ServerKeys(Exchange(s, Pub(c)), Nonce(s), Pub(c), Pub(s))
            && se.sent == [HandshakeFrame(CHALLENGE, Nonce(s) + Pub(s)),
                           HandshakeFrame(SESSION_OK, SessionId(s) + Hmac(psk, Transcript(SESSION_OK, Nonce(s), SessionId(s), Pub(c), Pub(s))))]
  {
    assert hello.payload[..DEVICE_ID_LEN] == hello.payload[..DEVICE_ID_LEN + PUB_KEY_LEN][..DEVICE_ID_LEN] == deviceId;
    assert hello.payload[DEVICE_ID_LEN..DEVICE_ID_LEN + PUB_KEY_LEN] == hello.payload[..DEVICE_ID_LEN + PUB_KEY_LEN][DEVICE_ID_LEN..] == Pub(c);
    assert [Arrived(hello), Arrived(ack)][1..] == [Arrived(ack)];
    var s0 := NewServerRun(source, s);
    var s1 := ServerReceive(s0, hello, lowOrder).0;
    var challenge := [HandshakeFrame(CHALLENGE, Nonce(s) + Pub(s))];
    var whole := DriveServer(s0, [Arrived(hello), Arrived(ack)], lowOrder);
    ServerAdvance(whole, s0, [Arrived(hello), Arrived(ack)], [], lowOrder);
    assert [] + challenge == challenge;
    ServerAdvance(whole, s1, [Arrived(ack)], challenge, lowOrder);
    var (s2, ok) := ServerReceive(s1, ack, lowOrder);
    ServerStops(whole, s2, [], challenge + ok, lowOrder);
  }

  lemma UndisturbedClient(c: Client, challenge: HandshakeFrame, ok: HandshakeFrame, s: nat, lowOrder: set<seq<Cell>>)
    requires c.phase.AwaitChallenge? && |c.deviceId| == DEVICE_ID_LEN && Pub(s) !in lowOrder
    requires challenge == HandshakeFrame(CHALLENGE, Nonce(s) + Pub(s))
    requires ok == HandshakeFrame(SESSION_OK,
                                  SessionId(s) + Hmac(c.psk, Transcript(SESSION_OK, Nonce(s), SessionId(s), Pub(c.run), Pub(s))))
    ensures var end := DriveClient(c, [Arrived(challenge), Arrived(ok)], lowOrder);
            && end.outcome == Success && end.client.phase.Established?
            && end.client.psk == c.psk && end.client.deviceId == c.deviceId && end.client.run == c.run
            && end.client.nonce == Nonce(s) && end.client.pubS == Pub(s) && end.client.sessionId == SessionId(s)
            && end.client.keys == ClientKeys(Exchange(c.run, Pub(s)), Nonce(s), Pub(c.run), Pub(s))
            && end.sent == [HandshakeFrame(HELLO_ACK, Hmac(c.psk, Transcript(HELLO_ACK, Nonce(s), c.deviceId, Pub(c.run), Pub(s))))]
  {
    assert challenge.payload[..HANDSHAKE_NONCE_LEN] == Nonce(s) && challenge.payload[HANDSHAKE_NONCE_LEN..] == Pub(s);
    assert [Arrived(challenge), Arrived(ok)][1..] == [Arrived(ok)];
    assert ok.payload[..SESSION_ID_LEN] == SessionId(s);
    assert ok.payload[SESSION_ID_LEN..] == Hmac(c.psk, Transcript(SESSION_OK, Nonce(s), SessionId(s), Pub(c.run), Pub(s)));
    var whole := DriveClient(c, [Arrived(challenge), Arrived(ok)], lowOrder);
    ClientAdvance(whole, c, [Arrived(challenge), Arrived(ok)], [], lowOrder);
    var (c1, ack) := ClientReceive(c, challenge, lowOrder);
    assert [] + ack == ack;
    ClientAdvance(whole, c1, [Arrived(ok)], ack, lowOrder);
    var c2 := ClientReceive(c1, ok, lowOrder).0;
    assert ack + [] == ack;
    ClientStops(whole, c2, [], ack, lowOrder);
  }

  // ---------------------------------------------------------------- the routines

  datatype SessionInfo = NoSession | SessionInfo(deviceId: seq<Cell>, sessionId: seq<Cell>, keys: KeyPair)

  function ClientInfo(end: ClientEnd): SessionInfo {
    if end.outcome == Success then SessionInfo(end.client.deviceId, end.client.sessionId, end.client.keys) else NoSession
  }

  function ServerInfo(end: ServerEnd): SessionInfo {
    if end.outcome == Success then SessionInfo(end.server.deviceId, SessionId(end.server.run), end.server.keys) else NoSession
  }

  lemma Assoc<T>(a: seq<T>, b: seq<T>, c: seq<T>)
    ensures a + (b + c) == (a + b) + c && a + [] == a && [] + a == a
  {}

  /** The frame that should be the CHALLENGE, one HELLO_RETRY having been answered if it came. */
  method ReadChallenge(transport: Transport, ghost whole: ClientEnd, ghost c: Client, ghost before: seq<HandshakeFrame>,
                       ghost out: seq<HandshakeFrame>, deviceId: seq<Cell>, pubC: seq<Cell>, lowOrder: set<seq<Cell>>)
    returns (a: Arrival, failed: Option<HandshakeError>, ghost d: Client, ghost left: seq<Arrival>, ghost out': seq<HandshakeFrame>)
    requires ClientAt(whole, c, transport.incoming, out, lowOrder)
    requires c.phase == AwaitChallenge(false) && c.deviceId == deviceId && Pub(c.run) == pubC
    requires transport.sent == before + out
    modifies transport
    ensures transport.sent == before + out'
    ensures failed.Some? ==> whole.outcome == Failure(failed.value) && whole.sent == out' && whole.left == transport.incoming
    ensures failed.None? ==>
              && ClientAt(whole, d, left, out', lowOrder)
              && a == Next(left) && transport.incoming == Rest(left)
              && (d == c || d == c.(phase := AwaitChallenge(true)))
              && (a.Arrived? && a.frame.ptype == HELLO_RETRY ==> d.phase.retried)
  {
    d, left, out', failed := c, transport.incoming, out, None;
    a := transport.Read();
    if a.Arrived? && a.frame.ptype == HELLO_RETRY {
      ClientAdvance(whole, c, left, out, lowOrder);
      ghost var (next, sending) := ClientReceive(c, a.frame, lowOrder);
      d, out', left := next, out + sending, transport.incoming;
      Assoc(before, out, sending);
      ClientStops(whole, d, left, out', lowOrder);
      if |a.frame.payload| != COOKIE_LEN { failed := Some(BadLength); return; }
      if |deviceId| + PUB_KEY_LEN + COOKIE_LEN > MAX_PAYLOAD { failed := Some(InvalidArgument); return; }
      transport.Write(HandshakeFrame(HELLO, deviceId + pubC + a.frame.payload));
      a := transport.Read();
    }
  }

  /** Step 3 of the client: the challenge is examined, the keys are derived, HELLO_ACK goes out. */
  method AnswerChallenge(transport: Transport, ghost c: Client, a: HandshakeFrame, psk: Psk, deviceId: seq<Cell>, run: nat,
                         lowOrder: set<seq<Cell>>)
    returns (failed: Option<HandshakeError>, nonce: seq<Cell>, pubS: seq<Cell>, keys: KeyPair)
    requires c.phase.AwaitChallenge? && c.psk == psk && c.deviceId == deviceId && c.run == run
    requires a.ptype == HELLO_RETRY ==> c.phase.retried
    modifies transport
    ensures transport.incoming == old(transport.incoming)
    ensures var (d, sending) := ClientReceive(c, a, lowOrder);
            && transport.sent == old(transport.sent) + sending
            && (if failed.Some? then d.phase == ClientFailed(failed.value)
                else d == c.(phase := AwaitSessionOk, nonce := nonce, pubS := pubS, keys := keys))
  {
    failed, nonce, pubS, keys := None, [], [], NO_KEYS;
    if a.ptype != CHALLENGE { return Some(UnexpectedType), nonce, pubS, keys; }
    if |a.payload| != HANDSHAKE_NONCE_LEN + PUB_KEY_LEN { return Some(BadLength), nonce, pubS, keys; }
    nonce, pubS := a.payload[..HANDSHAKE_NONCE_LEN], a.payload[HANDSHAKE_NONCE_LEN..];
    if pubS in lowOrder { return Some(KeyExchange), nonce, pubS, keys; }
    keys := ClientKeys(Exchange(run, pubS), nonce, Pub(run), pubS);
    transport.Write(HandshakeFrame(HELLO_ACK, Hmac(psk, Transcript(HELLO_ACK, nonce, deviceId, Pub(run), pubS))));
  }

  /** Step 4 of the client: SESSION_OK is examined. */
  method CheckSessionOk(ghost c: Client, a: HandshakeFrame, psk: Psk, deviceId: seq<Cell>, run: nat, nonce: seq<Cell>, pubS: seq<Cell>,
                        ghost lowOrder: set<seq<Cell>>)
    returns (failed: Option<HandshakeError>, sessionId: seq<Cell>)
    requires c.phase.AwaitSessionOk? && c.psk == psk && c.deviceId == deviceId && c.run == run && c.nonce == nonce && c.pubS == pubS
    ensures var (d, sending) := ClientReceive(c, a, lowOrder);
            && sending == []
            && (if failed.Some? then d.phase == ClientFailed(failed.value)
                else d == c.(phase := Established, sessionId := sessionId))
  {
    failed, sessionId := None, [];
    if a.ptype != SESSION_OK { return Some(UnexpectedType), sessionId; }
    if |a.payload| != SESSION_ID_LEN + HMAC_LEN { return Some(BadLength), sessionId; }
    sessionId := a.payload[..SESSION_ID_LEN];
    if a.payload[SESSION_ID_LEN..] != Hmac(psk, Transcript(SESSION_OK, nonce, sessionId, Pub(run), pubS)) {
      return Some(NotAuthentic), sessionId;
    }
    if |deviceId| != DEVICE_ID_LEN { return Some(InvalidArgument), sessionId; }
  }

  /** `client_handshake`. */
  method ClientHandshake(transport: Transport, psk: Psk, deviceId: seq<Cell>, run: nat, lowOrder: set<seq<Cell>>)
    returns (outcome: Outcome, info: SessionInfo)
    modifies transport
    ensures var end := RunClient(psk, deviceId, run, old(transport.incoming), lowOrder);
            outcome == end.outcome && info == ClientInfo(end)
            && transport.sent == old(transport.sent) + end.sent && transport.incoming == end.left
  {
    ghost var whole, before := RunClient(psk, deviceId, run, transport.incoming, lowOrder), transport.sent;
    ghost var (c, out) := StartClient(psk, deviceId, run);
    ClientStops(whole, c, transport.incoming, out, lowOrder);
    Assoc(before, [], []);
    if |psk| < MIN_PSK_LEN || |deviceId| + PUB_KEY_LEN > MAX_PAYLOAD { return Failure(InvalidArgument), NoSession; }
    transport.Write(HandshakeFrame(HELLO, deviceId + Pub(run)));
    var a, failed;
    ghost var left;
    a, failed, c, left, out := ReadChallenge(transport, whole, c, before, out, deviceId, Pub(run), lowOrder);
    if failed.Some? { return Failure(failed.value), NoSession; }
    ClientAdvance(whole, c, left, out, lowOrder);
    if a.Closed? { return Failure(ConnectionClosed), NoSession; }
    if a.Malformed? { return BadFrame, NoSession; }
    ghost var (d, sending) := ClientReceive(c, a.frame, lowOrder);
    Assoc(before, out, sending);
    out := out + sending;
    var nonce, pubS, keys;
    failed, nonce, pubS, keys := AnswerChallenge(transport, c, a.frame, psk, deviceId, run, lowOrder);
    outcome, info := FinishClient(transport, whole, d, out, failed, psk, deviceId, run, nonce, pubS, keys, lowOrder);
  }

  method FinishClient(transport: Transport, ghost whole: ClientEnd, ghost c: Client, ghost out: seq<HandshakeFrame>,
                      early: Option<HandshakeError>, psk: Psk, deviceId: seq<Cell>, run: nat, nonce: seq<Cell>, pubS: seq<Cell>,
                      keys: KeyPair, lowOrder: set<seq<Cell>>)
    returns (outcome: Outcome, info: SessionInfo)
    requires ClientAt(whole, c, transport.incoming, out, lowOrder)
    requires if early.Some? then c.phase == ClientFailed(early.value)
             else c == Client(psk, deviceId, run, AwaitSessionOk, nonce, pubS, c.sessionId, keys)
    modifies transport
    ensures outcome == whole.outcome && info == ClientInfo(whole)
    ensures whole.sent == out && transport.sent == old(transport.sent) && transport.incoming == whole.left
  {
    ClientStops(whole, c, transport.incoming, out, lowOrder);
    if early.Some? { return Failure(early.value), NoSession; }
    ClientAdvance(whole, c, transport.incoming, out, lowOrder);
    var a := transport.Read();
    if a.Closed? { return Failure(ConnectionClosed), NoSession; }
    if a.Malformed? { return BadFrame, NoSession; }
    var failed, sessionId := CheckSessionOk(c, a.frame, psk, deviceId, run, nonce, pubS, lowOrder);
    ghost var (d, sending) := ClientReceive(c, a.frame, lowOrder);
    Assoc(out, [], []);
    ClientStops(whole, d, transport.incoming, out, lowOrder);
    if failed.Some? { return Failure(failed.value), NoSession; }
    return Success, SessionInfo(deviceId, sessionId, keys);
  }

  /** Steps 1 and 2 of the server: HELLO is examined, CHALLENGE goes out, the keys are derived. */
  method AnswerHello(transport: Transport, ghost s: Server, a: HandshakeFrame, source: PskSource, run: nat, lowOrder: set<seq<Cell>>)
    returns (failed: Option<HandshakeError>, psk: Psk, deviceId: seq<Cell>, pubC: seq<Cell>, keys: KeyPair)
    requires s == NewServerRun(source, run)
    modifies transport
    ensures transport.incoming == old(transport.incoming)
    ensures var (t, sending) := ServerReceive(s, a, lowOrder);
            && transport.sent == old(transport.sent) + sending
            && (if failed.Some? then t.phase == ServerFailed(failed.value)
                else t == s.(phase := AwaitAck, psk := psk, deviceId := deviceId, pubC := pubC, keys := keys))
  {
    failed, psk, deviceId, pubC, keys := None, [], [], [], NO_KEYS;
    if a.ptype != HELLO { failed := Some(UnexpectedType); return; }
    if |a.payload| != 38 && |a.payload| != 54 { failed := Some(BadLength); return; }
    deviceId, pubC := a.payload[..DEVICE_ID_LEN], a.payload[DEVICE_ID_LEN..DEVICE_ID_LEN + PUB_KEY_LEN];
    var found := Lookup(source, deviceId);
    if found.None? { failed := Some(NotRegistered); return; }
    psk := found.value;
    if |psk| < MIN_PSK_LEN { failed := Some(InvalidArgument); return; }
    transport.Write(HandshakeFrame(CHALLENGE, Nonce(run) + Pub(run)));
    if pubC in lowOrder { failed := Some(KeyExchange); return; }
    keys := ServerKeys(Exchange(run, pubC), Nonce(run), pubC, Pub(run));
  }

  /** Steps 3 and 4 of the server: HELLO_ACK is examined, SESSION_OK goes out. */
  method AnswerAck(transport: Transport, ghost s: Server, a: HandshakeFrame, psk: Psk, deviceId: seq<Cell>, pubC: seq<Cell>, run: nat,
                   ghost lowOrder: set<seq<Cell>>)
    returns (failed: Option<HandshakeError>)
    requires s.phase.AwaitAck? && s.psk == psk && s.deviceId == deviceId && s.pubC == pubC && s.run == run
    modifies transport
    ensures transport.incoming == old(transport.incoming)
    ensures var (t, sending) := ServerReceive(s, a, lowOrder);
            && transport.sent == old(transport.sent) + sending
            && (if failed.Some? then t.phase == ServerFailed(failed.value) else t == s.(phase := Accepted))
  {
    failed := None;
    if a.ptype != HELLO_ACK { return Some(UnexpectedType); }
    if |a.payload| != HMAC_LEN { return Some(BadLength); }
    if a.payload != Hmac(psk, Transcript(HELLO_ACK, Nonce(run), deviceId, pubC, Pub(run))) { return Some(NotAuthentic); }
    var sessionId := SessionId(run);
    transport.Write(HandshakeFrame(SESSION_OK, sessionId + Hmac(psk, Transcript(SESSION_OK, Nonce(run), sessionId, pubC, Pub(run)))));
  }

  /** `server_handshake` between the lock-out test and the bookkeeping of failures. */
  method ServerHandshake(transport: Transport, source: PskSource, run: nat, lowOrder: set<seq<Cell>>)
    returns (outcome: Outcome, info: SessionInfo)
    modifies transport
    ensures var end := DriveServer(NewServerRun(source, run), old(transport.incoming), lowOrder);
            outcome == end.outcome && info == ServerInfo(end)
            && transport.sent == old(transport.sent) + end.sent && transport.incoming == end.left
  {
    ghost var s := NewServerRun(source, run);
    ghost var whole, before := DriveServer(s, transport.incoming, lowOrder), transport.sent;
    Assoc(whole.sent, [], []);
    Assoc(before, [], []);
    ServerAdvance(whole, s, transport.incoming, [], lowOrder);
    var a := transport.Read();
    if a.Closed? { return Failure(ConnectionClosed), NoSession; }
    if a.Malformed? { return BadFrame, NoSession; }
    ghost var (t, out) := ServerReceive(s, a.frame, lowOrder);
    Assoc(out, [], []);
    var failed, psk, deviceId, pubC, keys := AnswerHello(transport, s, a.frame, source, run, lowOrder);
    outcome, info := FinishServer(transport, whole, t, before, out, failed, psk, deviceId, pubC, run, keys, lowOrder);
  }

  /** `server_handshake` as a whole. A locked-out address is refused before anything is read;
      success clears its record; every failure is recorded, a connection closed while a message was
      awaited included. */
  method GuardedServerHandshake(failures: B.Failures, address: string, now: real, later: real,
                                transport: Transport, source: PskSource, run: nat, lowOrder: set<seq<Cell>>)
    returns (locked: bool, outcome: Outcome, info: SessionInfo)
    requires 0.0 < now <= later && |failures.table| <= B.TABLE_LIMIT
    modifies failures, transport
    ensures locked <==> B.Blocked(old(failures.table), address, now)
    ensures locked ==> info == NoSession && failures.table == old(failures.table)
                       && transport.sent == old(transport.sent) && transport.incoming == old(transport.incoming)
    ensures !locked ==>
              var end := DriveServer(NewServerRun(source, run), old(transport.incoming), lowOrder);
              && outcome == end.outcome && info == ServerInfo(end)
              && transport.sent == old(transport.sent) + end.sent && transport.incoming == end.left
              && (outcome == Success ==> failures.table == old(failures.table) - {address})
              && (outcome != Success ==> exists victim :: failures.table == B.Record(old(failures.table), address, later, victim))
    ensures |failures.table| <= B.TABLE_LIMIT
  {
    if address in failures.table && failures.table[address].lockedUntil > now {
      return true, BadFrame, NoSession;
    }
    locked := false;
    outcome, info := ServerHandshake(transport, source, run, lowOrder);
    if outcome == Success {
      B.RemovalShrinks(failures.table, address);
      failures.Forget(address);
    } else {
      var raised, victim := failures.RecordFailure(address, later);
    }
  }

  method FinishServer(transport: Transport, ghost whole: ServerEnd, ghost s: Server, ghost before: seq<HandshakeFrame>,
                      ghost out: seq<HandshakeFrame>, early: Option<HandshakeError>, psk: Psk, deviceId: seq<Cell>, pubC: seq<Cell>,
                      run: nat, keys: KeyPair, lowOrder: set<seq<Cell>>)
    returns (outcome: Outcome, info: SessionInfo)
    requires ServerAt(whole, s, transport.incoming, out, lowOrder) && transport.sent == before + out
    requires if early.Some? then s.phase == ServerFailed(early.value)
             else s == Server(s.source, run, AwaitAck, psk, deviceId, pubC, keys)
    modifies transport
    ensures outcome == whole.outcome && info == ServerInfo(whole)
    ensures transport.sent == before + whole.sent && transport.incoming == whole.left
  {
    ServerStops(whole, s, transport.incoming, out, lowOrder);
    if early.Some? { return Failure(early.value), NoSession; }
    ServerAdvance(whole, s, transport.incoming, out, lowOrder);
    var a := transport.Read();
    if a.Closed? { return Failure(ConnectionClosed), NoSession; }
    if a.Malformed? { return BadFrame, NoSession; }
    ghost var (t, sending) := ServerReceive(s, a.frame, lowOrder);
    Assoc(before, out, sending);
    ServerStops(whole, t, Rest(old(transport.incoming)), out + sending, lowOrder);
    var failed := AnswerAck(transport, s, a.frame, psk, deviceId, pubC, run, lowOrder);
    if failed.Some? { return Failure(failed.value), NoSession; }
    return Success, SessionInfo(deviceId, SessionId(run), keys);
  }
}
