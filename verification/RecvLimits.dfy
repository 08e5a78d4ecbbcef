/** How a `recv` call ends when the peer says BYE, sends too many control frames, or breaks into
    its own message. */
module RecvLimits {
  import opened Crc16
  import opened SymbolicKeys
  import opened ReplayWindow
  import opened SessionReceive
  import opened RoundTrip

  /** The peer's next frame is a BYE: whatever is assembled, the call reports that the peer closed;
      under the reserved last sequence number it reports an overflow instead. */
  lemma ByeEndsTheCall(reliable: bool, sessionId: seq<byte>, rx: Rx, tx: Tx, local: Assembly, now: real, more: seq<Event>)
    requires InStep(reliable, rx, tx) && tx.seqNo <= LAST_SEQ
    ensures var r := Loop(reliable, sessionId, rx, local, [Arriving(tx, sessionId, Bye, [], now)] + more);
            r.Failed? && r.rest == more && r.error == if tx.seqNo < LAST_SEQ then PeerClosed else RxOverflow
  {
    var e := Arriving(tx, sessionId, Bye, [], now);
    LoopStep(reliable, sessionId, rx, local, e, more);
    if tx.seqNo < LAST_SEQ {
      AdmitsNext(reliable, sessionId, rx, tx, Bye, [], now);
    } else if !reliable {
      assert rx.window.Fresh(tx.seqNo);
    }
  }

  lemma NinthIsTooMany(reliable: bool, sessionId: seq<byte>, rx: Rx, tx: Tx, local: Assembly, b: Between)
    requires InStep(reliable, rx, tx) && Idle(local) && tx.seqNo < LAST_SEQ
    requires !WithinBudget([b], local.windowStart, local.ctrlCount)
    ensures Handle(reliable, sessionId, rx, local, SendBetween(tx, sessionId, b).0).outcome == Raise(Flooded)
  {
    match b
    case SendPing(now) => AdmitsNext(reliable, sessionId, rx, tx, Ping, [], now);
    case SendPong(now) => AdmitsNext(reliable, sessionId, rx, tx, Pong, [], now);
    case DoRekey(_, _) =>
  }

  lemma BudgetSplits(gap: seq<Between>, windowStart: real, count: nat, start: real, used: nat)
    requires |gap| > 0 && !WithinBudget(gap, windowStart, count) && WithinBudget([gap[0]], windowStart, count)
    requires if gap[0].DoRekey? then start == windowStart && used == count
             else if gap[0].now - windowStart > 1.0 then start == gap[0].now && used == 1
             else start == windowStart && used == count + 1
    ensures !WithinBudget(gap[1..], start, used)
  {}

  /** The ninth PING or PONG of a call, before more than a second has passed since the count was
      last restarted, ends the call; with `GapRoundTrip`, which says that any fewer do not, this is
      exactly when. */
  lemma {:induction false} FloodEndsTheCall(reliable: bool, sessionId: seq<byte>, rx: Rx, tx: Tx, local: Assembly,
                                            gap: seq<Between>, more: seq<Event>)
    requires InStep(reliable, rx, tx) && Idle(local) && GapFits(tx, sessionId, gap)
    requires !WithinBudget(gap, local.windowStart, local.ctrlCount)
    ensures var r := Loop(reliable, sessionId, rx, local, GapEvents(tx, sessionId, gap).0 + more);
            r.Failed? && r.error == Flooded
    decreases |gap|
  {
    var (e, next) := SendBetween(tx, sessionId, gap[0]);
    var rest := GapEvents(next, sessionId, gap[1..]).0;
    GapUnfolds(tx, sessionId, gap);
    if WithinBudget([gap[0]], local.windowStart, local.ctrlCount) {
      BetweenStep(reliable, sessionId, rx, tx, local, gap[0]);
      var t := Handle(reliable, sessionId, rx, local, e);
      BudgetSplits(gap, local.windowStart, local.ctrlCount, t.local.windowStart, t.local.ctrlCount);
      LoopContinues(reliable, sessionId, rx, local, e, rest, more);
      FloodEndsTheCall(reliable, sessionId, t.rx, next, t.local, gap[1..], more);
    } else {
      NinthIsTooMany(reliable, sessionId, rx, tx, local, gap[0]);
      assert ([e] + rest) + more == [e] + (rest + more);
      LoopStep(reliable, sessionId, rx, local, e, rest + more);
    }
  }

  /** A control frame or a REKEY inside a message, a frame that does not continue it, a fourth
      fragment, or a frame of unknown type: on a stream the call fails; on datagrams what was
      assembled is dropped, and nothing of it is ever returned. */
  predicate Breaks(local: Assembly, kind: Kind, seqNo: nat, plaintext: seq<byte>) {
    match kind
    case Ping => |local.payload| > 0
    case Pong => |local.payload| > 0
    case Rekey => |local.payload| > 0 || |plaintext| != SALT_LEN
    case Data => local.frameCount > 0 && seqNo != local.expected
    case DataFrag => (local.frameCount > 0 && seqNo != local.expected) || local.frameCount + 1 >= MAX_FRAMES
    case Bye => false
    case Other(_) => true
  }

  lemma BrokenMessage(reliable: bool, sessionId: seq<byte>, rx: Rx, tx: Tx, local: Assembly, kind: Kind, plaintext: seq<byte>,
                      now: real, more: seq<Event>) returns (rx': Rx, local': Assembly)
    requires InStep(reliable, rx, tx) && tx.seqNo < LAST_SEQ && Breaks(local, kind, tx.seqNo, plaintext)
    ensures var r := Loop(reliable, sessionId, rx, local, [Arriving(tx, sessionId, kind, plaintext, now)] + more);
            if reliable then r == Failed(rx', Violation, more)
            else r == Loop(reliable, sessionId, rx', local', more)
    ensures InStep(reliable, rx', tx.(seqNo := tx.seqNo + 1)) && rx'.pongs == rx.pongs
    ensures local'.payload == [] && local'.frameCount == 0 && local'.ctrlCount == local.ctrlCount
  {
    var e := Arriving(tx, sessionId, kind, plaintext, now);
    LoopStep(reliable, sessionId, rx, local, e, more);
    AdmitsNext(reliable, sessionId, rx, tx, kind, plaintext, now);
    var t := Handle(reliable, sessionId, rx, local, e);
    rx', local' := t.rx, local.(payload := [], frameCount := 0, expected := 0);
    if !reliable { assert t.local.payload == [] && t.local.frameCount == 0; local' := t.local; }
  }

  /** A PING that cannot be answered: the call fails with the transport's error, or, when the
      sequences for sending are spent, as at a violation. */
  lemma UnansweredPing(reliable: bool, sessionId: seq<byte>, rx: Rx, tx: Tx, local: Assembly, now: real, pong: Pong, more: seq<Event>)
    requires InStep(reliable, rx, tx) && tx.seqNo < LAST_SEQ && Idle(local) && pong != PongSent
    ensures var box := Seal(tx.keys.tx, tx.seqNo, sessionId, Ping, []);
            var e := Frame(Ping, tx.seqNo, box.length, box, now, pong);
            var r := Loop(reliable, sessionId, rx, local, [e] + more);
            && (pong == PongFailed ==> r.Failed? && r.error == SendFailed && r.rest == more)
            && (pong == PongExhausted && reliable ==> r.Failed? && r.error == Violation && r.rest == more)
  {
    var box := Seal(tx.keys.tx, tx.seqNo, sessionId, Ping, []);
    var e := Frame(Ping, tx.seqNo, box.length, box, now, pong);
    LoopStep(reliable, sessionId, rx, local, e, more);
    AdmitsNext(reliable, sessionId, rx, tx, Ping, [], now);
    assert Admit(reliable, sessionId, rx, e) == Admit(reliable, sessionId, rx, Arriving(tx, sessionId, Ping, [], now));
  }

  /** A `rekey()` of this process during the call: the session then expects the first frame of a
      peer that has followed, whatever it expected before. */
  lemma LocalRekeyFollows(reliable: bool, sessionId: seq<byte>, rx: Rx, tx: Tx, local: Assembly, salt: seq<byte>, more: seq<Event>)
      returns (rx': Rx)
    requires Crossed(rx.keys, tx.keys)
    ensures Loop(reliable, sessionId, rx, local, [LocalRekey(salt)] + more) == Loop(reliable, sessionId, rx', local, more)
    ensures InStep(reliable, rx', Tx(DeriveRekeyKeys(false, tx.keys, sessionId, salt), 0))
    ensures rx'.taken == rx.taken && rx'.pongs == rx.pongs
  {
    LoopStep(reliable, sessionId, rx, local, LocalRekey(salt), more);
    RekeyKeepsCrossed(rx.keys, tx.keys, sessionId, salt);
    rx' := Handle(reliable, sessionId, rx, local, LocalRekey(salt)).rx;
  }
}
