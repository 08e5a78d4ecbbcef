/** What a connect or reconnect of the C session leads to: a context in step with the peer of its
    handshake, from which whole conversations are received. */
module CoreLifecycle {
  import opened Crc16
  import opened Frame
  import opened SymbolicKeys
  import opened ReplayWindow
  import opened CoreTransmit
  import opened CoreReceive
  import W = CoreRoundTrip
  import S = SessionSend
  import P = SessionReceive
  import R = RoundTrip
  import I = Interop

  /** The two ways to a session. */
  datatype Opening = Connecting(usable: bool) | Reconnecting(hasHook: bool, redialled: bool)

  function Open(c: Core, how: Opening, h: Handshaken, now: uint32): (Core, Status) {
    match how
    case Connecting(usable) => Connect(c, usable, h, now)
    case Reconnecting(hasHook, redialled) => Reconnect(c, hasHook, redialled, h, now)
  }

  /** A session is opened exactly when nothing stands in the way and the handshake agreed. */
  lemma OpensExactlyWhen(c: Core, how: Opening, h: Handshaken, now: uint32)
    ensures Open(c, how, h, now).1 == Done <==>
            h.Agreement? && if how.Connecting? then how.usable else how.hasHook && how.redialled
  {}

  /** Whatever the context was before, after a successful connect or reconnect it sends under the
      agreed transmit key from sequence 0, and expects the first frame of whoever holds the agreed
      keys the other way round; its history and keepalive interval stay. */
  lemma OpenedIsInStep(c: Core, how: Opening, h: Handshaken, now: uint32, datagrams: bool, peer: KeyPair)
    requires Open(c, how, h, now).1 == Done && Crossed(h.keys, peer)
    ensures var d := Open(c, how, h, now).0;
            && W.InStep(datagrams, d, W.Tx(peer, 0, 0), h.sessionId) && W.Sends(d, W.Tx(h.keys, 0, 0), h.sessionId)
            && d.log == c.log && d.session == c.session + 1 && d.keepalive == c.keepalive
            && Represents(Window(d.rxSeq, d.bitmap), {})
  {
    EmptyWindow();
  }

  /** Two contexts that open with the two sides of one agreement: what the one sends from then on,
      messages with control frames and rekeys between them, the other receives. */
  lemma OpenedConversation(a: Core, howA: Opening, b: Core, howB: Opening, keys: KeyPair, peer: KeyPair, sessionId: seq<byte>,
                           nowA: uint32, nowB: uint32, datagrams: bool, maxLen: nat, netA: Net, netB: Net,
                           batches: seq<W.Batch>, tail: seq<Reading>) returns (end: Core)
    requires Open(a, howA, Agreement(keys, sessionId), nowA).1 == Done && Open(b, howB, Agreement(peer, sessionId), nowB).1 == Done
    requires Crossed(keys, peer) && W.AllFit(maxLen, W.Tx(keys, 0, 0), sessionId, batches) && W.AllSent(netA) && W.AllSent(netB)
    ensures var sender := Open(a, howA, Agreement(keys, sessionId), nowA).0;
            var receiver := Open(b, howB, Agreement(peer, sessionId), nowB).0;
            var tx := W.Tx(keys, 0, 0);
            && W.DoAll(sender, batches, netA).log == sender.log + W.Logged(sender.session, W.AllBoxes(tx, sessionId, batches))
            && W.CallsOf(W.RecvOf(datagrams, maxLen, netB), receiver, W.AllReadings(tx, sessionId, batches) + tail, |batches|)
               == (W.Expected(batches), end, tail)
  {
    var sender := Open(a, howA, Agreement(keys, sessionId), nowA).0;
    var receiver := Open(b, howB, Agreement(peer, sessionId), nowB).0;
    OpenedIsInStep(a, howA, Agreement(keys, sessionId), nowA, datagrams, peer);
    OpenedIsInStep(b, howB, Agreement(peer, sessionId), nowB, datagrams, keys);
    W.ListSent(sender, W.Tx(keys, 0, 0), sessionId, batches, maxLen, netA);
    end := W.ListRoundTrip(datagrams, maxLen, receiver, netB, W.Tx(keys, 0, 0), sessionId, batches, tail);
  }

  /** A C device that opens with the keys of a handshake, and the Python session that the server
      made of its side of it: each receives the other's first message, over a stream or datagrams,
      and expects the next. */
  lemma DeviceAndServerTalk(c: Core, how: Opening, keys: KeyPair, sessionId: seq<byte>, now: uint32, server: KeyPair, reliable: bool,
                            up: seq<byte>, down: seq<byte>, start: real, at: real, net: Net, maxLen: nat, tail: seq<Reading>)
      returns (rx: P.Rx)
    requires Open(c, how, Agreement(keys, sessionId), now).1 == Done && Crossed(keys, server) && W.AllSent(net)
    requires |up| <= 1808 && |down| <= 1808 && |down| <= maxLen
    ensures var d := Open(c, how, Agreement(keys, sessionId), now).0;
            var upward, downward := Boxes(keys.tx, 0, sessionId, up, 0), Boxes(server.tx, 0, sessionId, down, 0);
            && P.Loop(reliable, sessionId, P.Rx(server, EMPTY, 0, []), P.Blank(start), I.AsEvents(upward, at)) == P.Got(rx, up, [])
            && R.InStep(reliable, rx, R.Tx(keys, |upward|))
            && var x := Recv(!reliable, maxLen, d, W.Readings(downward, true) + tail, net);
               x.code == |down| && x.local.payload == down && W.Expects(!reliable, x.core, server.tx, |downward|)
  {
    var d := Open(c, how, Agreement(keys, sessionId), now).0;
    OpenedIsInStep(c, how, Agreement(keys, sessionId), now, !reliable, server);
    rx := FirstUpward(d, P.Rx(server, EMPTY, 0, []), reliable, up, start, at);
    I.ServerToDevice(!reliable, maxLen, R.Tx(server, 0), d, down, at, net, tail);
    I.SameFrames(R.Tx(server, 0), sessionId, down, 0, at);
  }

  lemma FirstUpward(d: Core, server: P.Rx, reliable: bool, up: seq<byte>, start: real, at: real) returns (rx: P.Rx)
    requires R.InStep(reliable, server, R.Tx(d.keys, d.txSeq)) && |up| <= S.MAX_DATA_LEN * S.MAX_FRAMES
    requires d.established && d.txSeq + S.Fragments(up) <= LAST_SEQ
    ensures var boxes := Boxes(d.keys.tx, d.txSeq, d.sessionId, up, 0);
            && P.Loop(reliable, d.sessionId, server, P.Blank(start), I.AsEvents(boxes, at)) == P.Got(rx, up, [])
            && R.InStep(reliable, rx, R.Tx(d.keys, d.txSeq + |boxes|))
  {
    var net: Net := _ => Transmit(0, true);
    var boxes := Boxes(d.keys.tx, d.txSeq, d.sessionId, up, 0);
    SendMeaning(d, up, net);
    W.TransmittedIsLogged(d.session, boxes, net, |d.log|);
    TransmittedMeaning(d.session, boxes, net, |d.log|);
    rx := I.DeviceToServer(reliable, d, server, up, start, at, net);
  }

  /** The keepalive counts from the connect: a tick before the interval has passed sends nothing,
      and one after it sends the first frame of the session, a PING, also across a wrap of the
      32-bit clock. */
  lemma FirstTick(c: Core, how: Opening, h: Handshaken, connected: nat, ticked: nat, net: Net)
    requires connected <= ticked < connected + 0x1_0000_0000 && Open(c, how, h, connected % 0x1_0000_0000).1 == Done
    ensures var d := Open(c, how, h, connected % 0x1_0000_0000).0;
            var e := Tick(d, ticked % 0x1_0000_0000, net).0;
            && (c.keepalive == 0 || ticked - connected < c.keepalive ==> e == d)
            && (c.keepalive != 0 && ticked - connected >= c.keepalive ==>
                  e.log == c.log + [Entry(d.session, Seal(h.keys.tx, 0, h.sessionId, Ping, []), net(|c.log|).ok)])
  {
    TickMeaning(Open(c, how, h, connected % 0x1_0000_0000).0, connected, ticked, net);
  }

  /** It counts from every transmission: within the interval after one, a tick sends nothing. */
  lemma TickAfterEmit(c: Core, kind: Kind, plaintext: seq<byte>, sentAt: nat, ticked: nat, net: Net)
    requires c.established && EmitFrame(c, kind, plaintext, net).1 && net(|c.log|).now == sentAt % 0x1_0000_0000
    requires sentAt <= ticked < sentAt + 0x1_0000_0000
    ensures var d := EmitFrame(c, kind, plaintext, net).0;
            var e := Tick(d, ticked % 0x1_0000_0000, net).0;
            && (c.keepalive == 0 || ticked - sentAt < c.keepalive ==> e == d)
            && (c.keepalive != 0 && ticked - sentAt >= c.keepalive && d.txSeq < LAST_SEQ ==>
                  e.log == d.log + [Entry(d.session, Seal(c.keys.tx, d.txSeq, c.sessionId, Ping, []), net(|d.log|).ok)])
  {
    TickMeaning(EmitFrame(c, kind, plaintext, net).0, sentAt, ticked, net);
  }

  /** After a close nothing can be sent or received, and nothing of the keys is left; the last that
      went out, if a session was up and a sequence left, is one BYE. */
  lemma AfterClose(c: Core, data: seq<byte>, datagrams: bool, maxLen: nat, incoming: seq<Reading>, net: Net)
    ensures var d := Close(c, net);
            && d.keys == KeyPair(Zeroed, Zeroed)
            && Send(d, data, net) == (d, NotConnected) && SendPing(d, net) == (d, NotConnected)
            && Recv(datagrams, maxLen, d, incoming, net).core == d && Recv(datagrams, maxLen, d, incoming, net).code == -1
            && d.log == c.log + if c.established && c.txSeq < LAST_SEQ
                                then [Entry(c.session, Seal(c.keys.tx, c.txSeq, c.sessionId, Bye, []), net(|c.log|).ok)] else []
  {
    assert c.log + [] == c.log;
  }
}
