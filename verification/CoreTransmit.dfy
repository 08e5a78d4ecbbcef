/** The transmit half of the C session: one context, no locking, every frame through
    `emit_frame`. */
module CoreTransmit {
  import opened Crc16
  import opened Frame
  import opened SymbolicKeys
  import S = SessionSend

  const LAST_SEQ: nat := 0xFFFF_FFFF

  datatype Status = Done | InvalidArg | TransportFailed | BufferOverflow | SeqExhausted | NotConnected

  /** A frame handed to `transport.send`, in which handshake's session, and whether the
      transport reported success. */
  datatype Entry = Entry(session: nat, box: Box, ok: bool)

  /** What the world does at one transmission: the clock and the transport's answer. */
  datatype Transmit = Transmit(now: uint32, ok: bool)

  /** Indexed by the number of transmissions before it. */
  type Net = nat -> Transmit

  /** `usmp_t`, with the number of handshakes begun and the history of transmissions. */
  datatype Core = Core(
    keys: KeyPair,
    sessionId: seq<byte>,
    established: bool,
    txSeq: uint32,
    rxSeq: uint32,
    bitmap: bv64,
    lastTx: uint32,
    keepalive: uint32,
    session: nat,
    log: seq<Entry>)

  /** `emit_frame`: the exhaustion guard, then the sequence is burned, then the transport. */
  function EmitFrame(c: Core, kind: Kind, plaintext: seq<byte>, net: Net): (Core, bool) {
    if c.txSeq >= LAST_SEQ then (c.(established := false), false)
    else
      var t := net(|c.log|);
      (c.(txSeq := c.txSeq + 1,
          lastTx := t.now,
          log := c.log + [Entry(c.session, Seal(c.keys.tx, c.txSeq, c.sessionId, kind, plaintext), t.ok)],
          established := c.established && t.ok),
       t.ok)
  }

  function SendLoop(c: Core, data: seq<byte>, offset: nat, net: Net): (Core, Status)
    requires offset <= |data|
    decreases |data| - offset
  {
    var chunk := S.Chunk(data, offset);
    var (d, ok) := EmitFrame(c, if S.IsFragment(data, offset) then DataFrag else Data, chunk, net);
    if !ok then (d, TransportFailed)
    else if S.IsFragment(data, offset) then SendLoop(d, data, offset + |chunk|, net)
    else (d, Done)
  }

  /** `usmp_send`. */
  function Send(c: Core, data: seq<byte>, net: Net): (Core, Status) {
    if !c.established then (c, NotConnected)
    else if S.Fragments(data) > LAST_SEQ - c.txSeq then (c.(established := false), SeqExhausted)
    else if |data| > S.MAX_DATA_LEN * S.MAX_FRAMES then (c, BufferOverflow)
    else SendLoop(c, data, 0, net)
  }

  /** `usmp_ping`. */
  function SendPing(c: Core, net: Net): (Core, Status) {
    if !c.established then (c, NotConnected)
    else
      var (d, ok) := EmitFrame(c, Ping, [], net);
      if ok then (d, Done) else (d.(established := false), TransportFailed)
  }

  /** `usmp_keepalive_tick`; the difference of the two clocks is taken modulo 2^32. */
  function Tick(c: Core, now: uint32, net: Net): (Core, Status) {
    if !c.established then (c, NotConnected)
    else if c.keepalive != 0 && (now + 0x1_0000_0000 - c.lastTx) % 0x1_0000_0000 >= c.keepalive then SendPing(c, net)
    else (c, Done)
  }

  /** `usmp_send_bye`. */
  function SendBye(c: Core, net: Net): (Core, Status) {
    if !c.established then (c, NotConnected)
    else
      var (d, ok) := EmitFrame(c, Bye, [], net);
      (d, if ok then Done else TransportFailed)
  }

  function Rotate(c: Core, isInitiator: bool, salt: seq<byte>): Core {
    c.(keys := DeriveRekeyKeys(isInitiator, c.keys, c.sessionId, salt), txSeq := 0, rxSeq := 0, bitmap := 0)
  }

  /** `usmp_rekey`. */
  function DoRekey(c: Core, salt: seq<byte>, net: Net): (Core, Status) {
    if !c.established then (c, NotConnected)
    else
      var (d, ok) := EmitFrame(c, Rekey, salt, net);
      if ok then (Rotate(d, true, salt), Done) else (d, TransportFailed)
  }

  /** What a handshake leaves: nothing, or keys and a session id. */
  datatype Handshaken = Refused | Agreement(keys: KeyPair, sessionId: seq<byte>)

  const ZERO_KEYS := KeyPair(Zeroed, Zeroed)

  function Install(c: Core, h: Handshaken, now: uint32): (Core, Status) {
    match h
    case Refused => (c, TransportFailed)
    case Agreement(keys, sessionId) =>
      (c.(keys := keys, sessionId := sessionId, established := true, txSeq := 0, rxSeq := 0, bitmap := 0, lastTx := now), Done)
  }

  /** `usmp_connect`: a transport without `send` or `recv` is refused; otherwise everything but the
      pre-shared key and the keepalive interval is cleared. */
  function Connect(c: Core, usable: bool, h: Handshaken, now: uint32): (Core, Status) {
    if !usable then (c, InvalidArg)
    else Install(Core(ZERO_KEYS, [], false, 0, 0, 0, 0, c.keepalive, c.session + 1, c.log), h, now)
  }

  /** `usmp_reconnect`: the keys are wiped first, whatever follows. */
  function Reconnect(c: Core, hasHook: bool, redialled: bool, h: Handshaken, now: uint32): (Core, Status) {
    var wiped := c.(keys := ZERO_KEYS);
    if !hasHook then (wiped, TransportFailed)
    else if !redialled then (wiped.(established := false, session := c.session + 1), TransportFailed)
    else Install(wiped.(established := false, session := c.session + 1), h, now)
  }

  /** `usmp_close`. */
  function Close(c: Core, net: Net): Core {
    SendBye(c, net).0.(established := false, keys := ZERO_KEYS)
  }

  // ---------------------------------------------------------------- the transmit discipline

  /** The frame precedes the given position: an earlier session, or an earlier key of this one
      (a rekeyed key is a larger term), or an earlier sequence under the same key. */
  predicate Precedes(e: Entry, session: nat, key: Key, seqNo: nat) {
    || e.session < session
    || (e.session == session && (Size(e.box.key) < Size(key) || (e.box.key == key && e.box.seqNo < seqNo)))
  }

  ghost predicate Disciplined(log: seq<Entry>) {
    && (forall i :: 0 <= i < |log| ==> log[i].box.seqNo < LAST_SEQ)
    && (forall i, j :: 0 <= i < j < |log| ==> Precedes(log[i], log[j].session, log[j].box.key, log[j].box.seqNo))
    && (forall i, j :: 0 <= i < j < |log| ==> log[i].ok || log[i].session < log[j].session)
  }

  ghost predicate TxOk(c: Core) {
    && Disciplined(c.log)
    && (forall i :: 0 <= i < |c.log| ==> c.log[i].session <= c.session)
    && (c.established ==> forall i :: 0 <= i < |c.log| ==>
          Precedes(c.log[i], c.session, c.keys.tx, c.txSeq) && (c.log[i].ok || c.log[i].session < c.session))
  }

  lemma SnocKeepsDiscipline(log: seq<Entry>, e: Entry)
    requires Disciplined(log) && e.box.seqNo < LAST_SEQ
    requires forall i :: 0 <= i < |log| ==> Precedes(log[i], e.session, e.box.key, e.box.seqNo)
    requires forall i :: 0 <= i < |log| ==> log[i].ok || log[i].session < e.session
    ensures Disciplined(log + [e])
  {}

  lemma EmitKeepsTxOk(c: Core, kind: Kind, plaintext: seq<byte>, net: Net)
    requires TxOk(c) && c.established
    ensures TxOk(EmitFrame(c, kind, plaintext, net).0)
    ensures EmitFrame(c, kind, plaintext, net).0.established <==> EmitFrame(c, kind, plaintext, net).1
  {
    if c.txSeq < LAST_SEQ {
      var e := Entry(c.session, Seal(c.keys.tx, c.txSeq, c.sessionId, kind, plaintext), net(|c.log|).ok);
      SnocKeepsDiscipline(c.log, e);
    }
  }

  lemma RotateKeepsTxOk(c: Core, isInitiator: bool, salt: seq<byte>)
    requires TxOk(c) && c.established
    ensures TxOk(Rotate(c, isInitiator, salt))
  {
    RekeyGrows(isInitiator, c.keys, c.sessionId, salt);
  }

  lemma {:induction false} SendLoopKeepsTxOk(c: Core, data: seq<byte>, offset: nat, net: Net)
    requires TxOk(c) && c.established && offset <= |data|
    ensures TxOk(SendLoop(c, data, offset, net).0)
    decreases |data| - offset
  {
    var chunk := S.Chunk(data, offset);
    var kind := if S.IsFragment(data, offset) then DataFrag else Data;
    EmitKeepsTxOk(c, kind, chunk, net);
    var (d, ok) := EmitFrame(c, kind, chunk, net);
    if ok && S.IsFragment(data, offset) {
      SendLoopKeepsTxOk(d, data, offset + |chunk|, net);
    }
  }

  lemma InstallKeepsTxOk(c: Core, h: Handshaken, now: uint32)
    requires TxOk(c) && !c.established
    requires forall i :: 0 <= i < |c.log| ==> c.log[i].session < c.session
    ensures TxOk(Install(c, h, now).0)
  {}

  // ---------------------------------------------------------------- one message

  /** The sealed frames of a message from `offset` on. */
  function Boxes(key: Key, seqNo: nat, sessionId: seq<byte>, data: seq<byte>, offset: nat): seq<Box>
    requires offset <= |data|
    decreases |data| - offset
  {
    var chunk := S.Chunk(data, offset);
    if S.IsFragment(data, offset) then
      [Seal(key, seqNo, sessionId, DataFrag, chunk)] + Boxes(key, seqNo + 1, sessionId, data, offset + |chunk|)
    else [Seal(key, seqNo, sessionId, Data, chunk)]
  }

  /** The history of handing these frames to the transport, up to the first failure. */
  function Transmitted(session: nat, boxes: seq<Box>, net: Net, from: nat): seq<Entry>
    decreases |boxes|
  {
    if |boxes| == 0 then []
    else
      var e := Entry(session, boxes[0], net(from).ok);
      if e.ok then [e] + Transmitted(session, boxes[1..], net, from + 1) else [e]
  }

  predicate AllOk(es: seq<Entry>) { |es| == 0 || (es[0].ok && AllOk(es[1..])) }

  /** Frame by frame: the entries are the leading frames, and every one but the last was
      accepted; they are all there, or the last was refused. */
  lemma {:induction false} TransmittedMeaning(session: nat, boxes: seq<Box>, net: Net, from: nat)
    ensures var es := Transmitted(session, boxes, net, from);
            && |es| <= |boxes| && (|boxes| > 0 ==> |es| > 0)
            && (forall i :: 0 <= i < |es| ==> es[i].session == session && es[i].box == boxes[i])
            && (forall i :: 0 <= i < |es| - 1 ==> es[i].ok)
            && (AllOk(es) <==> |boxes| == 0 || es[|es| - 1].ok)
            && (AllOk(es) ==> |es| == |boxes|)
    decreases |boxes|
  {
    if |boxes| > 0 && net(from).ok {
      var es, rest := Transmitted(session, boxes, net, from), Transmitted(session, boxes[1..], net, from + 1);
      TransmittedMeaning(session, boxes[1..], net, from + 1);
      assert es == [es[0]] + rest;
      assert es[1..] == rest;
      forall i | 0 < i < |es|
        ensures es[i].session == session && es[i].box == boxes[i] && (i < |es| - 1 ==> es[i].ok)
      {
        assert es[i] == rest[i - 1] && boxes[i] == boxes[1..][i - 1];
      }
    }
  }

  lemma {:induction false} BoxCount(key: Key, seqNo: nat, sessionId: seq<byte>, data: seq<byte>, offset: nat)
    requires offset % S.MAX_DATA_LEN == 0 && offset <= |data| && (offset == 0 || offset < |data|)
    ensures |Boxes(key, seqNo, sessionId, data, offset)| == S.Fragments(data) - offset / S.MAX_DATA_LEN >= 1
    decreases |data| - offset
  {
    if S.IsFragment(data, offset) {
      BoxCount(key, seqNo + 1, sessionId, data, offset + S.MAX_DATA_LEN);
    }
  }

  lemma Assoc<T>(a: seq<T>, b: seq<T>, c: seq<T>)
    ensures (a + b) + c == a + (b + c)
  {}

  lemma AllOkCons(e: Entry, rest: seq<Entry>)
    ensures AllOk([e] + rest) <==> e.ok && AllOk(rest)
  {
    assert ([e] + rest)[1..] == rest;
  }

  /** With enough sequences left, the loop transmits the message's frames in order up to the
      first failure; the guard inside `emit_frame` never fires. */
  lemma {:induction false} SendLoopMeaning(c: Core, data: seq<byte>, offset: nat, net: Net)
    requires c.established && offset <= |data|
    requires c.txSeq + |Boxes(c.keys.tx, c.txSeq, c.sessionId, data, offset)| <= LAST_SEQ
    ensures var (d, st) := SendLoop(c, data, offset, net);
            var es := Transmitted(c.session, Boxes(c.keys.tx, c.txSeq, c.sessionId, data, offset), net, |c.log|);
            && d.log == c.log + es && d.txSeq == c.txSeq + |es|
            && d == c.(log := d.log, txSeq := d.txSeq, established := st == Done, lastTx := d.lastTx)
            && st == (if AllOk(es) then Done else TransportFailed)
    decreases |data| - offset
  {
    var boxes := Boxes(c.keys.tx, c.txSeq, c.sessionId, data, offset);
    var d, e := FirstFragment(c, data, offset, net);
    if S.IsFragment(data, offset) && e.ok {
      var rest := boxes[1..];
      SendLoopMeaning(d, data, offset + S.MAX_DATA_LEN, net);
      var more := Transmitted(c.session, rest, net, |d.log|);
      assert Transmitted(c.session, boxes, net, |c.log|) == [e] + more;
      AllOkCons(e, more);
      Assoc(c.log, [e], more);
    } else {
      assert Transmitted(c.session, boxes, net, |c.log|) == [e];
    }
  }

  /** The first turn of the fragment loop, and what the rest of it makes of the call. */
  lemma FirstFragment(c: Core, data: seq<byte>, offset: nat, net: Net) returns (d: Core, e: Entry)
    requires c.established && offset <= |data|
    requires c.txSeq + |Boxes(c.keys.tx, c.txSeq, c.sessionId, data, offset)| <= LAST_SEQ
    ensures var boxes := Boxes(c.keys.tx, c.txSeq, c.sessionId, data, offset);
            && |boxes| > 0 && e == Entry(c.session, boxes[0], net(|c.log|).ok)
            && d == c.(txSeq := c.txSeq + 1, log := c.log + [e], established := e.ok, lastTx := net(|c.log|).now)
            && (S.IsFragment(data, offset) ==>
                  boxes[1..] == Boxes(c.keys.tx, c.txSeq + 1, c.sessionId, data, offset + S.MAX_DATA_LEN))
            && (!S.IsFragment(data, offset) ==> |boxes| == 1)
            && SendLoop(c, data, offset, net) ==
               if !e.ok then (d, TransportFailed)
               else if S.IsFragment(data, offset) then SendLoop(d, data, offset + S.MAX_DATA_LEN, net)
               else (d, Done)
  {
    var boxes := Boxes(c.keys.tx, c.txSeq, c.sessionId, data, offset);
    e := Entry(c.session, boxes[0], net(|c.log|).ok);
    d := c.(txSeq := c.txSeq + 1, log := c.log + [e], established := e.ok, lastTx := net(|c.log|).now);
    var kind := if S.IsFragment(data, offset) then DataFrag else Data;
    assert EmitFrame(c, kind, S.Chunk(data, offset), net) == (d, e.ok);
  }

  /** `usmp_send`: once its own sequence check has passed it either refuses an oversized message
      untouched or transmits the message's frames, in order and under consecutive sequences,
      stopping only at a failure the transport reports; in particular the exhaustion guard of
      `emit_frame` cannot fire inside the message. */
  lemma SendMeaning(c: Core, data: seq<byte>, net: Net)
    requires c.established
    ensures var (d, st) := Send(c, data, net);
            var boxes := Boxes(c.keys.tx, c.txSeq, c.sessionId, data, 0);
            var es := Transmitted(c.session, boxes, net, |c.log|);
            && (st == SeqExhausted <==> c.txSeq + S.Fragments(data) > LAST_SEQ)
            && (st == SeqExhausted ==> d == c.(established := false))
            && (st != SeqExhausted && |data| > S.MAX_DATA_LEN * S.MAX_FRAMES ==> st == BufferOverflow && d == c)
            && (st != SeqExhausted && |data| <= S.MAX_DATA_LEN * S.MAX_FRAMES ==>
                  && |boxes| == S.Fragments(data) <= S.MAX_FRAMES
                  && d.log == c.log + es && d.txSeq == c.txSeq + |es|
                  && (st == Done || st == TransportFailed)
                  && (st == Done <==> d.established)
                  && (st == Done <==> |es| == |boxes| && AllOk(es)))
  {
    BoxCount(c.keys.tx, c.txSeq, c.sessionId, data, 0);
    TransmittedMeaning(c.session, Boxes(c.keys.tx, c.txSeq, c.sessionId, data, 0), net, |c.log|);
    if S.Fragments(data) <= LAST_SEQ - c.txSeq {
      SendLoopMeaning(c, data, 0, net);
    }
  }

  lemma WrappedDifference(a: nat, b: nat)
    requires a <= b < a + 0x1_0000_0000
    ensures (b % 0x1_0000_0000 + 0x1_0000_0000 - a % 0x1_0000_0000) % 0x1_0000_0000 == b - a
  {}

  /** The keepalive sends its ping exactly when the interval has passed, also across a wrap of the
      32-bit clock, provided the last transmission is less than one wrap ago. */
  lemma TickMeaning(c: Core, sentAt: nat, now: nat, net: Net)
    requires c.established && c.lastTx == sentAt % 0x1_0000_0000 && sentAt <= now < sentAt + 0x1_0000_0000
    ensures Tick(c, now % 0x1_0000_0000, net) ==
            if c.keepalive != 0 && now - sentAt >= c.keepalive then SendPing(c, net) else (c, Done)
  {
    WrappedDifference(sentAt, now);
  }

  /** After a reconnect that reports failure nothing can be sent, with one exception: without a
      reconnect hook an established session sends on, every frame under the all-zero key. */
  lemma FailedReconnectSends(c: Core, hasHook: bool, redialled: bool, h: Handshaken, now: uint32, data: seq<byte>, net: Net)
    requires Reconnect(c, hasHook, redialled, h, now).1 != Done && |data| <= S.MAX_DATA_LEN * S.MAX_FRAMES
    ensures var d := Reconnect(c, hasHook, redialled, h, now).0;
            var e := Send(d, data, net).0;
            && (e.log != c.log <==> !hasHook && c.established && c.txSeq + S.Fragments(data) <= LAST_SEQ)
            && c.log <= e.log
            && forall i :: |c.log| <= i < |e.log| ==> e.log[i].box.key == Zeroed
  {
    var d := Reconnect(c, hasHook, redialled, h, now).0;
    if d.established {
      SendMeaning(d, data, net);
      var boxes := Boxes(Zeroed, d.txSeq, d.sessionId, data, 0);
      TransmittedMeaning(d.session, boxes, net, |d.log|);
      BoxKeys(Zeroed, d.txSeq, d.sessionId, data, 0);
    }
  }

  lemma {:induction false} BoxKeys(key: Key, seqNo: nat, sessionId: seq<byte>, data: seq<byte>, offset: nat)
    requires offset <= |data|
    ensures var boxes := Boxes(key, seqNo, sessionId, data, offset);
            |boxes| > 0 && forall i :: 0 <= i < |boxes| ==> boxes[i].key == key
    decreases |data| - offset
  {
    if S.IsFragment(data, offset) {
      BoxKeys(key, seqNo + 1, sessionId, data, offset + S.MAX_DATA_LEN);
    }
  }
}
