/** The two ends of a rekeyed link are the sessions themselves: what the link model receives and
    sends is what the Python and the C session receive and send over a stream. */
module RekeyLink {
  import opened Crc16
  import opened Frame
  import opened SymbolicKeys
  import L = RekeySync
  import P = SessionReceive
  import S = SessionSend
  import SP = SendProgress
  import T = CoreTransmit
  import C = CoreReceive
  import W = CoreRoundTrip
  import F = CoreFilter

  /** The frame types that a link carries; a BYE ends it. */
  predicate Carried(kind: Kind) { kind == Data || kind == DataFrag || kind == Ping || kind == Pong || kind == Rekey }

  // ---------------------------------------------------------------- Python

  predicate IsReceiver(e: L.End, rx: P.Rx) { rx.keys == e.keys && rx.window.rxSeq == e.rxSeq }

  predicate IsSender(e: L.End, s: S.Sender) { s.keys == e.keys && s.txSeq == e.txSeq }

  /** Between messages `recv` takes a frame exactly when the link's end does, and is then that end. */
  lemma PythonReceives(e: L.End, rx: P.Rx, box: Box, local: P.Assembly, now: real, sessionId: seq<byte>)
    requires IsReceiver(e, rx) && local.payload == [] && local.frameCount == 0 && local.ctrlCount < P.MAX_CONTROL && Carried(box.kind)
    ensures var t := P.Handle(true, sessionId, rx, local, P.Frame(box.kind, box.seqNo, box.length, box, now, P.PongSent));
            var next := L.Receive(e, box, sessionId);
            && (t.outcome.Raise? <==> next.None?)
            && (next.Some? ==> IsReceiver(next.value, t.rx))
  {}

  /** The lock holder writes what the link's end writes, and a rekey leaves the sender as the end
      that initiated, or that followed, one. */
  lemma PythonSends(e: L.End, s: S.Sender, sessionId: seq<byte>, kind: Kind, chunk: seq<byte>, salt: seq<byte>)
    requires S.StateOk(s) && IsSender(e, s) && s.holder.Held? && !s.holder.inFlight && s.txSeq < S.LAST_SEQ
    requires S.NextFrame(s.holder.job) == (kind, chunk)
    ensures var t := S.EmitFrame(s);
            && |t.log| == |s.log| + 1 && t.log[..|s.log|] == s.log
            && SP.SealOf(t.log[|s.log|], sessionId) == L.Written(e, kind, chunk, sessionId)
            && IsSender(e.(txSeq := e.txSeq + 1), t)
    ensures s.holder.job == S.Rotation(salt) ==>
              (S.StepOk(s, S.Emit, sessionId); IsSender(L.Initiated(e, salt, sessionId), SP.OneWritten(s, sessionId)))
    ensures var box := Seal(e.keys.rx, e.rxSeq, sessionId, Rekey, salt);
            L.Receive(e, box, sessionId).Some? ==>
              IsSender(L.Receive(e, box, sessionId).value, S.Step(s, S.ReceiveRekey(salt), sessionId))
  {}

  // ---------------------------------------------------------------- C

  predicate IsCore(e: L.End, c: T.Core) { c.keys == e.keys && c.txSeq == e.txSeq && c.rxSeq == e.rxSeq }

  /** Between messages `usmp_recv` takes a frame that fits its buffers exactly when the link's end
      does, and the context is then that end; a PING's answer is a frame of its own. */
  lemma CoreReceives(e: L.End, c: T.Core, box: Box, l: C.Local, maxLen: nat, net: T.Net, more: bool)
    requires c.established && IsCore(e, c) && l.payload == [] && l.parts == [] && l.ctrlCount < C.MAX_CONTROL && Carried(box.kind)
    requires box.seqNo < 0x1_0000_0000 && F.WellPlaced(l, maxLen, W.Delivery(box, more))
    requires net(|c.log|).ok && c.txSeq < T.LAST_SEQ
    ensures var t := C.OnReading(false, maxLen, c, l, W.Delivery(box, more), net);
            var next := L.Receive(e, box, c.sessionId);
            && (t.verdict == C.Finish(-1) <==> next.None?)
            && (next.Some? ==> t.core.keys == next.value.keys && t.core.rxSeq == next.value.rxSeq
                               && t.core.txSeq == if box.kind == Ping then next.value.txSeq + 1 else next.value.txSeq)
  {}

  /** `emit_frame` and `usmp_rekey` write and become what the link's end does. */
  lemma CoreSends(e: L.End, c: T.Core, kind: Kind, plaintext: seq<byte>, salt: seq<byte>, net: T.Net)
    requires c.established && IsCore(e, c) && c.txSeq < T.LAST_SEQ && net(|c.log|).ok
    ensures var d := T.EmitFrame(c, kind, plaintext, net).0;
            d.log == c.log + [T.Entry(c.session, L.Written(e, kind, plaintext, c.sessionId), true)] && IsCore(e.(txSeq := e.txSeq + 1), d)
    ensures var d := T.DoRekey(c, salt, net).0;
            && d.log == c.log + [T.Entry(c.session, L.Written(e, Rekey, salt, c.sessionId), true)]
            && IsCore(L.Initiated(e, salt, c.sessionId), d)
  {}
}
