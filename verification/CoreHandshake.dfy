/** The C client's handshake: the same exchange as the Python client's, writing into a session
    context, with its keys wiped whenever it does not succeed. */
module CoreHandshake {
  import opened Crc16
  import opened SymbolicKeys
  import opened Frame
  import opened Handshake
  import opened HandshakeRoutines

  datatype CoreStatus = Okay | InvalidArg | TransportFailed | AuthFailed | CryptoFailed

  /** The error code for each way of failing. */
  function StatusOf(outcome: Outcome): CoreStatus {
    match outcome
    case Success => Okay
    case BadFrame => AuthFailed
    case Failure(error) =>
      match error
      case InvalidArgument => InvalidArg
      case ConnectionClosed => TransportFailed
      case KeyExchange => CryptoFailed
      case _ => AuthFailed
  }

  const TRANSCRIPT_BUFFER: nat := 4 + HANDSHAKE_NONCE_LEN + SESSION_ID_LEN + PUB_KEY_LEN + PUB_KEY_LEN

  /** `memcpy`. */
  method CopyInto(dest: array<Cell>, at: nat, source: seq<Cell>) returns (off: nat)
    requires at + |source| <= dest.Length
    modifies dest
    ensures off == at + |source| && dest[..off] == old(dest[..at]) + source
  {
    for i := 0 to |source|
      invariant forall j :: 0 <= j < at ==> dest[j] == old(dest[j])
      invariant forall j :: 0 <= j < i ==> dest[at + j] == source[j]
    {
      dest[at + i] := source[i];
    }
    off := at + |source|;
  }

  /** `compute_transcript_hmac`: the parts are laid one after the other in a buffer sized for the
      longer id, and what is authenticated is the transcript. */
  method ComputeTranscriptHmac(psk: Psk, ptype: byte, nonce: seq<Cell>, id: seq<Cell>, pubC: seq<Cell>, pubS: seq<Cell>)
    returns (tag: seq<Cell>)
    requires |nonce| == HANDSHAKE_NONCE_LEN && |id| <= SESSION_ID_LEN && |pubC| == |pubS| == PUB_KEY_LEN
    ensures tag == Hmac(psk, Transcript(ptype, nonce, id, pubC, pubS))
  {
    var input := new Cell[TRANSCRIPT_BUFFER](_ => Byte(0));
    input[0], input[1], input[2], input[3] := Byte(MAGIC % 256), Byte(MAGIC / 256 % 256), Byte(VERSION), Byte(ptype);
    assert input[..4] == [Byte(MAGIC % 256), Byte(MAGIC / 256), Byte(VERSION), Byte(ptype)];
    var off := CopyInto(input, 4, nonce);
    off := CopyInto(input, off, id);
    off := CopyInto(input, off, pubC);
    off := CopyInto(input, off, pubS);
    assert input[..off] == Transcript(ptype, nonce, id, pubC, pubS);
    tag := Hmac(psk, input[..off]);
  }

  class Context {
    var txKey: Key
    var rxKey: Key
    var sessionId: seq<Cell>
    var deviceId: seq<Cell>
    var established: bool

    /** `usmp_handshake`. The context ends with the client's keys and session id and is marked
        established exactly when the exchange succeeds; on any failure after the first check
        its keys are zero. */
    method Handshake(transport: Transport, psk: Psk, device: seq<Cell>, run: nat, lowOrder: set<seq<Cell>>) returns (status: CoreStatus)
      requires |device| == DEVICE_ID_LEN
      modifies this, transport
      ensures var end := RunClient(psk, device, run, old(transport.incoming), lowOrder);
              && status == StatusOf(end.outcome)
              && transport.sent == old(transport.sent) + end.sent && transport.incoming == end.left
              && (status == Okay ==>
                    && KeyPair(txKey, rxKey) == end.client.keys && sessionId == end.client.sessionId
                    && deviceId == device && established)
              && (status != Okay ==>
                    && established == old(established)
                    && (|psk| >= MIN_PSK_LEN ==> txKey == rxKey == Zeroed)
                    && (|psk| < MIN_PSK_LEN ==> txKey == old(txKey) && rxKey == old(rxKey)))
    {
      ghost var whole, before := RunClient(psk, device, run, transport.incoming, lowOrder), transport.sent;
      ghost var (c, out) := StartClient(psk, device, run);
      ClientStops(whole, c, transport.incoming, out, lowOrder);
      Assoc(before, [], []);
      if |psk| < MIN_PSK_LEN { return InvalidArg; }
      deviceId := device;
      var pubC := Pub(run);
      transport.Write(HandshakeFrame(HELLO, deviceId + pubC));
      var a, failed;
      ghost var left;
      a, failed, c, left, out := ReadChallenge(transport, whole, c, before, out, deviceId, pubC, lowOrder);
      status := Okay;
      if failed.Some? {
        status := StatusOf(Failure(failed.value));
      } else {
        ClientAdvance(whole, c, left, out, lowOrder);
        if a.Closed? {
          status := TransportFailed;
        } else if a.Malformed? {
          status := AuthFailed;
        } else {
          ghost var (d, sending) := ClientReceive(c, a.frame, lowOrder);
          Assoc(before, out, sending);
          status := AfterChallenge(transport, whole, c, d, before, out + sending, a.frame, psk, run, lowOrder);
        }
      }
      if status == Okay {
        established := true;
      } else {
        txKey, rxKey := Zeroed, Zeroed;
      }
    }

    /** From the CHALLENGE on: the keys are stored before the server has been authenticated. */
    method AfterChallenge(transport: Transport, ghost whole: ClientEnd, ghost c: Client, ghost d: Client, ghost before: seq<HandshakeFrame>,
                          ghost out: seq<HandshakeFrame>, challenge: HandshakeFrame, psk: Psk, run: nat, lowOrder: set<seq<Cell>>)
      returns (status: CoreStatus)
      requires c.phase.AwaitChallenge? && c.psk == psk && c.deviceId == deviceId && c.run == run && |deviceId| == DEVICE_ID_LEN
      requires challenge.ptype == HELLO_RETRY ==> c.phase.retried
      requires d == ClientReceive(c, challenge, lowOrder).0
      requires transport.sent + ClientReceive(c, challenge, lowOrder).1 == before + out
      requires ClientAt(whole, d, transport.incoming, out, lowOrder)
      modifies this, transport
      ensures status == StatusOf(whole.outcome)
      ensures transport.sent == before + whole.sent && transport.incoming == whole.left
      ensures deviceId == old(deviceId) && established == old(established)
      ensures status == Okay ==> KeyPair(txKey, rxKey) == whole.client.keys && sessionId == whole.client.sessionId
    {
      ClientStops(whole, d, transport.incoming, out, lowOrder);
      if challenge.ptype != CHALLENGE || |challenge.payload| != HANDSHAKE_NONCE_LEN + PUB_KEY_LEN { return AuthFailed; }
      var nonce, pubS := challenge.payload[..HANDSHAKE_NONCE_LEN], challenge.payload[HANDSHAKE_NONCE_LEN..];
      if pubS in lowOrder { return CryptoFailed; }
      var keys := ClientKeys(Exchange(run, pubS), nonce, Pub(run), pubS);
      txKey, rxKey := keys.tx, keys.rx;
      var tag := ComputeTranscriptHmac(psk, HELLO_ACK, nonce, deviceId, Pub(run), pubS);
      transport.Write(HandshakeFrame(HELLO_ACK, tag));
      status := AfterAck(transport, whole, d, out, psk, run, nonce, pubS, lowOrder);
    }

    /** SESSION_OK: the session id is stored before its HMAC is checked. */
    method AfterAck(transport: Transport, ghost whole: ClientEnd, ghost d: Client, ghost out: seq<HandshakeFrame>,
                    psk: Psk, run: nat, nonce: seq<Cell>, pubS: seq<Cell>, ghost lowOrder: set<seq<Cell>>)
      returns (status: CoreStatus)
      requires d.phase.AwaitSessionOk? && d.psk == psk && d.deviceId == deviceId && d.run == run && d.nonce == nonce && d.pubS == pubS
      requires |nonce| == HANDSHAKE_NONCE_LEN && |pubS| == PUB_KEY_LEN && |deviceId| == DEVICE_ID_LEN
      requires d.keys == KeyPair(txKey, rxKey) && ClientAt(whole, d, transport.incoming, out, lowOrder)
      modifies this, transport
      ensures status == StatusOf(whole.outcome)
      ensures whole.sent == out && transport.sent == old(transport.sent) && transport.incoming == whole.left
      ensures deviceId == old(deviceId) && established == old(established)
      ensures status == Okay ==> KeyPair(txKey, rxKey) == whole.client.keys && sessionId == whole.client.sessionId
    {
      ClientAdvance(whole, d, transport.incoming, out, lowOrder);
      var a := transport.Read();
      if a.Closed? { return TransportFailed; }
      if a.Malformed? { return AuthFailed; }
      ghost var (e, sending) := ClientReceive(d, a.frame, lowOrder);
      Assoc(out, [], []);
      ClientStops(whole, e, transport.incoming, out, lowOrder);
      if a.frame.ptype != SESSION_OK || |a.frame.payload| != SESSION_ID_LEN + HMAC_LEN { return AuthFailed; }
      sessionId := a.frame.payload[..SESSION_ID_LEN];
      var expected := ComputeTranscriptHmac(psk, SESSION_OK, nonce, sessionId, Pub(run), pubS);
      if a.frame.payload[SESSION_ID_LEN..] != expected { return AuthFailed; }
      return Okay;
    }
  }
}
