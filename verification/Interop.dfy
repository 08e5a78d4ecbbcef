/** The two implementations understand each other: they cut a message into the same frames, and
    either receives what the other sent. */
module Interop {
  import opened Crc16
  import opened Frame
  import opened SymbolicKeys
  import T = CoreTransmit
  import C = CoreReceive
  import W = CoreRoundTrip
  import P = SessionReceive
  import R = RoundTrip
  import S = SessionSend

  /** The frames as they reach a Python session. */
  function AsEvents(boxes: seq<Box>, at: real): seq<P.Event> {
    if |boxes| == 0 then []
    else [P.Frame(boxes[0].kind, boxes[0].seqNo, boxes[0].length, boxes[0], at, P.PongSent)] + AsEvents(boxes[1..], at)
  }

  lemma BoxesStep(key: Key, seqNo: nat, sessionId: seq<byte>, data: seq<byte>, offset: nat)
    requires offset <= |data|
    ensures var boxes := T.Boxes(key, seqNo, sessionId, data, offset);
            && |boxes| > 0
            && boxes[0] == Seal(key, seqNo, sessionId, if S.IsFragment(data, offset) then DataFrag else Data, S.Chunk(data, offset))
            && (S.IsFragment(data, offset) ==> boxes[1..] == T.Boxes(key, seqNo + 1, sessionId, data, offset + S.MAX_DATA_LEN))
            && (!S.IsFragment(data, offset) ==> |boxes| == 1)
  {}

  /** `send` and `usmp_send` cut a message into the same sealed frames. */
  lemma {:induction false} SameFrames(tx: R.Tx, sessionId: seq<byte>, data: seq<byte>, offset: nat, at: real)
    requires offset <= |data|
    ensures var boxes := T.Boxes(tx.keys.tx, tx.seqNo, sessionId, data, offset);
            R.DataEvents(tx, sessionId, data, offset, at) == (AsEvents(boxes, at), tx.(seqNo := tx.seqNo + |boxes|))
    decreases |data| - offset
  {
    var boxes := T.Boxes(tx.keys.tx, tx.seqNo, sessionId, data, offset);
    BoxesStep(tx.keys.tx, tx.seqNo, sessionId, data, offset);
    if S.IsFragment(data, offset) {
      SameFrames(tx.(seqNo := tx.seqNo + 1), sessionId, data, offset + S.MAX_DATA_LEN, at);
    } else {
      assert boxes[1..] == [] && AsEvents(boxes[1..], at) == [];
      assert AsEvents(boxes, at) == [R.Arriving(tx, sessionId, Data, S.Chunk(data, offset), at)];
    }
  }

  /** What `usmp_send` transmits, delivered in order over a stream or as datagrams, is what
      `recv` returns; the session then expects the device's next sequence. */
  lemma DeviceToServer(reliable: bool, sender: T.Core, rx: P.Rx, data: seq<byte>, start: real, at: real, net: T.Net) returns (rx': P.Rx)
    requires sender.established && T.Send(sender, data, net).1 == T.Done
    requires R.InStep(reliable, rx, R.Tx(sender.keys, sender.txSeq))
    ensures var d := T.Send(sender, data, net).0;
            var boxes := T.Boxes(sender.keys.tx, sender.txSeq, sender.sessionId, data, 0);
            && d.log == sender.log + T.Transmitted(sender.session, boxes, net, |sender.log|)
            && P.Loop(reliable, sender.sessionId, rx, P.Blank(start), AsEvents(boxes, at)) == P.Got(rx', data, [])
            && R.InStep(reliable, rx', R.Tx(sender.keys, d.txSeq))
  {
    var tx := R.Tx(sender.keys, sender.txSeq);
    T.SendMeaning(sender, data, net);
    SameFrames(tx, sender.sessionId, data, 0, at);
    assert data[..0] == [];
    R.RemainingIsFragments(data, 0, 0);
    rx' := R.DataRoundTrip(reliable, sender.sessionId, rx, tx, P.Blank(start), data, 0, at, []);
    var events := R.DataEvents(tx, sender.sessionId, data, 0, at).0;
    assert events + [] == events;
  }

  /** What `send` writes, delivered in order, is what `usmp_recv` puts into a large enough
      buffer; the device then expects the session's next sequence. */
  lemma ServerToDevice(datagrams: bool, maxLen: nat, tx: R.Tx, receiver: T.Core, data: seq<byte>, at: real, net: T.Net, tail: seq<C.Reading>)
    requires receiver.established && |data| <= maxLen && |data| <= S.MAX_DATA_LEN * S.MAX_FRAMES
    requires Crossed(receiver.keys, tx.keys) && W.Expects(datagrams, receiver, tx.keys.tx, tx.seqNo)
    requires tx.seqNo + S.Fragments(data) <= T.LAST_SEQ && W.AllSent(net)
    ensures var (events, next) := R.DataEvents(tx, receiver.sessionId, data, 0, at);
            var boxes := T.Boxes(tx.keys.tx, tx.seqNo, receiver.sessionId, data, 0);
            && events == AsEvents(boxes, at)
            && var x := C.Recv(datagrams, maxLen, receiver, W.Readings(boxes, true) + tail, net);
               x.code == |data| && x.local.payload == data && W.Expects(datagrams, x.core, tx.keys.tx, next.seqNo)
  {
    var b := W.Batch([], Some(data));
    var wire := W.Tx(tx.keys, tx.seqNo, receiver.txSeq);
    var boxes := T.Boxes(tx.keys.tx, tx.seqNo, receiver.sessionId, data, 0);
    SameFrames(tx, receiver.sessionId, data, 0, at);
    T.BoxCount(tx.keys.tx, tx.seqNo, receiver.sessionId, data, 0);
    assert [] + boxes == boxes;
    W.OneCall(datagrams, maxLen, receiver, net, wire, receiver.sessionId, b, tail);
  }
}
