/** `recv` undoes `send`: a list of messages, with pings, pongs and rekeys between them, arrives
    as the same list. */
module RoundTrip {
  import opened Crc16
  import opened SymbolicKeys
  import opened ReplayWindow
  import opened SessionReceive
  import S = SessionSend

  /** What the sender does between two messages, with the time of arrival at the peer. */
  datatype Between = SendPing(now: real) | SendPong(now: real) | DoRekey(salt: seq<byte>, now: real)

  /** Some control traffic, then one message. */
  datatype Item = Item(gap: seq<Between>, data: seq<byte>, at: real)

  datatype Tx = Tx(keys: KeyPair, seqNo: nat)

  function Arriving(tx: Tx, sessionId: seq<byte>, kind: Kind, plaintext: seq<byte>, now: real): Event {
    var box := Seal(tx.keys.tx, tx.seqNo, sessionId, kind, plaintext);
    Frame(kind, tx.seqNo, box.length, box, now, PongSent)
  }

  function SendBetween(tx: Tx, sessionId: seq<byte>, b: Between): (Event, Tx) {
    match b
    case SendPing(now) => (Arriving(tx, sessionId, Ping, [], now), tx.(seqNo := tx.seqNo + 1))
    case SendPong(now) => (Arriving(tx, sessionId, Pong, [], now), tx.(seqNo := tx.seqNo + 1))
    case DoRekey(salt, now) =>
      (Arriving(tx, sessionId, Rekey, salt, now), Tx(DeriveRekeyKeys(true, tx.keys, sessionId, salt), 0))
  }

  function GapEvents(tx: Tx, sessionId: seq<byte>, gap: seq<Between>): (seq<Event>, Tx)
    decreases |gap|
  {
    if |gap| == 0 then ([], tx)
    else
      var (e, next) := SendBetween(tx, sessionId, gap[0]);
      var (more, end) := GapEvents(next, sessionId, gap[1..]);
      ([e] + more, end)
  }

  /** The frames of one message from `offset` on, as `send` cuts them. */
  function DataEvents(tx: Tx, sessionId: seq<byte>, data: seq<byte>, offset: nat, at: real): (seq<Event>, Tx)
    requires offset <= |data|
    decreases |data| - offset
  {
    var chunk := S.Chunk(data, offset);
    if S.IsFragment(data, offset) then
      var (more, end) := DataEvents(tx.(seqNo := tx.seqNo + 1), sessionId, data, offset + |chunk|, at);
      ([Arriving(tx, sessionId, DataFrag, chunk, at)] + more, end)
    else ([Arriving(tx, sessionId, Data, chunk, at)], tx.(seqNo := tx.seqNo + 1))
  }

  function ItemEvents(tx: Tx, sessionId: seq<byte>, item: Item): (seq<Event>, Tx) {
    var (gap, middle) := GapEvents(tx, sessionId, item.gap);
    var (data, end) := DataEvents(middle, sessionId, item.data, 0, item.at);
    (gap + data, end)
  }

  function AllEvents(tx: Tx, sessionId: seq<byte>, items: seq<Item>): (seq<Event>, Tx)
    decreases |items|
  {
    if |items| == 0 then ([], tx)
    else
      var (first, next) := ItemEvents(tx, sessionId, items[0]);
      var (more, end) := AllEvents(next, sessionId, items[1..]);
      (first + more, end)
  }

  // ---------------------------------------------------------------- what the sender must respect

  /** Salts have their length and no sequence number runs out. */
  predicate GapFits(tx: Tx, sessionId: seq<byte>, gap: seq<Between>)
    decreases |gap|
  {
    |gap| == 0 ||
    (tx.seqNo < LAST_SEQ && (gap[0].DoRekey? ==> |gap[0].salt| == SALT_LEN)
     && GapFits(SendBetween(tx, sessionId, gap[0]).1, sessionId, gap[1..]))
  }

  predicate ItemsFit(tx: Tx, sessionId: seq<byte>, items: seq<Item>)
    decreases |items|
  {
    |items| == 0 ||
    (GapFits(tx, sessionId, items[0].gap) && |items[0].data| <= 1808
     && GapEvents(tx, sessionId, items[0].gap).1.seqNo + S.Fragments(items[0].data) <= LAST_SEQ
     && ItemsFit(ItemEvents(tx, sessionId, items[0]).1, sessionId, items[1..]))
  }

  /** The control budget of one `recv` call: at most eight PING or PONG frames before more than
      a second has passed since the count was last restarted. */
  predicate WithinBudget(gap: seq<Between>, windowStart: real, count: nat)
    decreases |gap|
  {
    |gap| == 0 ||
    if gap[0].DoRekey? then WithinBudget(gap[1..], windowStart, count)
    else if gap[0].now - windowStart > 1.0 then WithinBudget(gap[1..], gap[0].now, 1)
    else count + 1 <= MAX_CONTROL && WithinBudget(gap[1..], windowStart, count + 1)
  }

  predicate AllWithinBudget(items: seq<Item>, starts: seq<real>)
    requires |items| == |starts|
  {
    |items| == 0 || (WithinBudget(items[0].gap, starts[0], 0) && AllWithinBudget(items[1..], starts[1..]))
  }

  function Counted(gap: seq<Between>): nat {
    if |gap| == 0 then 0 else (if gap[0].DoRekey? then 0 else 1) + Counted(gap[1..])
  }

  /** Eight control frames are always within the budget, whatever the clock says. */
  lemma {:induction false} EightAreWithinBudget(gap: seq<Between>, windowStart: real, count: nat)
    requires count + Counted(gap) <= 8
    ensures WithinBudget(gap, windowStart, count)
    decreases |gap|
  {
    if |gap| > 0 {
      if gap[0].DoRekey? {
        EightAreWithinBudget(gap[1..], windowStart, count);
      } else if gap[0].now - windowStart > 1.0 {
        EightAreWithinBudget(gap[1..], gap[0].now, 1);
      } else {
        EightAreWithinBudget(gap[1..], windowStart, count + 1);
      }
    }
  }

  // ---------------------------------------------------------------- the receiver keeps up

  /** The receiver expects exactly the sender's next frame. */
  predicate InStep(reliable: bool, rx: Rx, tx: Tx) {
    && Crossed(rx.keys, tx.keys)
    && if reliable then rx.window.rxSeq == tx.seqNo
       else if tx.seqNo == 0 then rx.window == EMPTY
       else rx.window.rxSeq == tx.seqNo - 1
  }

  /** An in-step frame is admitted, and its sequence is the next one. */
  lemma AdmitsNext(reliable: bool, sessionId: seq<byte>, rx: Rx, tx: Tx, kind: Kind, plaintext: seq<byte>, now: real)
    requires InStep(reliable, rx, tx) && tx.seqNo < LAST_SEQ
    ensures var (noted, admission) := Admit(reliable, sessionId, rx, Arriving(tx, sessionId, kind, plaintext, now));
            && admission == Admitted(plaintext)
            && InStep(reliable, noted, tx.(seqNo := tx.seqNo + 1))
            && noted.keys == rx.keys && noted.pongs == rx.pongs && noted.taken == rx.taken + [tx.seqNo]
  {
    if !reliable {
      EmptyWindow();
      if tx.seqNo == 0 {
        FreshMeaning(EMPTY, {}, 0);
      }
      assert rx.window.Fresh(tx.seqNo);
    }
  }

  lemma LoopStep(reliable: bool, sessionId: seq<byte>, rx: Rx, local: Assembly, e: Event, more: seq<Event>)
    ensures var t := Handle(reliable, sessionId, rx, local, e);
            Loop(reliable, sessionId, rx, local, [e] + more) ==
            match t.outcome
            case Continue => Loop(reliable, sessionId, t.rx, t.local, more)
            case Return(payload) => Got(t.rx, payload, more)
            case Raise(error) => Failed(t.rx, error, more)
  {
    assert ([e] + more)[0] == e && ([e] + more)[1..] == more;
  }

  lemma LoopContinues(reliable: bool, sessionId: seq<byte>, rx: Rx, local: Assembly, e: Event, rest: seq<Event>, more: seq<Event>)
    requires Handle(reliable, sessionId, rx, local, e).outcome == Continue
    ensures var t := Handle(reliable, sessionId, rx, local, e);
            Loop(reliable, sessionId, rx, local, ([e] + rest) + more) == Loop(reliable, sessionId, t.rx, t.local, rest + more)
  {
    LoopStep(reliable, sessionId, rx, local, e, rest + more);
    assert ([e] + rest) + more == [e] + (rest + more);
  }

  /** The sequence numbers of the frames among these events. */
  function SeqNos(events: seq<Event>): seq<nat> {
    if |events| == 0 then [] else (if events[0].Frame? then [events[0].seqNo] else []) + SeqNos(events[1..])
  }

  lemma TakenStep(taken: seq<nat>, e: Event, rest: seq<Event>)
    requires e.Frame?
    ensures taken + SeqNos([e] + rest) == (taken + [e.seqNo]) + SeqNos(rest)
    ensures SeqNos([]) == [] && (taken + [e.seqNo]) + [] == taken + [e.seqNo] && [e] + [] == [e]
  {
    assert ([e] + rest)[1..] == rest;
  }

  lemma {:induction false} SeqNosConcat(a: seq<Event>, b: seq<Event>)
    ensures SeqNos(a + b) == SeqNos(a) + SeqNos(b)
    decreases |a|
  {
    if |a| == 0 {
      assert a + b == b && [] + SeqNos(b) == SeqNos(b);
    } else {
      assert (a + b)[0] == a[0] && (a + b)[1..] == a[1..] + b;
      SeqNosConcat(a[1..], b);
    }
  }

  lemma TakenConcat(taken: seq<nat>, a: seq<Event>, b: seq<Event>)
    ensures (taken + SeqNos(a)) + SeqNos(b) == taken + SeqNos(a + b)
  {
    SeqNosConcat(a, b);
  }

  /** The frames carry the sequence numbers n, n + 1, … in turn, and start again at 0 after each
      REKEY. */
  predicate Counts(n: nat, events: seq<Event>)
    decreases |events|
  {
    |events| == 0 ||
    (events[0].Frame? && events[0].seqNo == n && Counts(if events[0].kind == Rekey then 0 else n + 1, events[1..]))
  }

  lemma {:induction false} CountsConcat(n: nat, a: seq<Event>, m: nat, b: seq<Event>)
    requires Counts(n, a) && Counts(m, b) && m == CountAfter(n, a)
    ensures Counts(n, a + b)
    decreases |a|
  {
    if |a| == 0 {
      assert a + b == b;
    } else {
      assert (a + b)[0] == a[0] && (a + b)[1..] == a[1..] + b;
      CountsConcat(if a[0].kind == Rekey then 0 else n + 1, a[1..], m, b);
    }
  }

  /** The number after these frames. */
  function CountAfter(n: nat, events: seq<Event>): nat
    decreases |events|
  {
    if |events| == 0 then n
    else CountAfter(if events[0].Frame? && events[0].kind == Rekey then 0 else n + 1, events[1..])
  }

  lemma {:induction false} CountAfterConcat(n: nat, a: seq<Event>, b: seq<Event>)
    ensures CountAfter(n, a + b) == CountAfter(CountAfter(n, a), b)
    decreases |a|
  {
    if |a| == 0 {
      assert a + b == b;
    } else {
      assert (a + b)[0] == a[0] && (a + b)[1..] == a[1..] + b;
      CountAfterConcat(if a[0].Frame? && a[0].kind == Rekey then 0 else n + 1, a[1..], b);
    }
  }

  lemma {:induction false} GapCounts(tx: Tx, sessionId: seq<byte>, gap: seq<Between>)
    ensures var (events, end) := GapEvents(tx, sessionId, gap); Counts(tx.seqNo, events) && CountAfter(tx.seqNo, events) == end.seqNo
    decreases |gap|
  {
    if |gap| > 0 {
      var (e, next) := SendBetween(tx, sessionId, gap[0]);
      GapCounts(next, sessionId, gap[1..]);
      var rest := GapEvents(next, sessionId, gap[1..]).0;
      assert ([e] + rest)[1..] == rest;
    }
  }

  lemma {:induction false} DataCounts(tx: Tx, sessionId: seq<byte>, data: seq<byte>, offset: nat, at: real)
    requires offset <= |data|
    ensures var (events, end) := DataEvents(tx, sessionId, data, offset, at);
            Counts(tx.seqNo, events) && CountAfter(tx.seqNo, events) == end.seqNo
    decreases |data| - offset
  {
    if S.IsFragment(data, offset) {
      var next := tx.(seqNo := tx.seqNo + 1);
      DataCounts(next, sessionId, data, offset + S.MAX_DATA_LEN, at);
      var rest := DataEvents(next, sessionId, data, offset + S.MAX_DATA_LEN, at).0;
      var e := Arriving(tx, sessionId, DataFrag, S.Chunk(data, offset), at);
      assert ([e] + rest)[1..] == rest;
    }
  }

  lemma {:induction false} AllCounts(tx: Tx, sessionId: seq<byte>, items: seq<Item>)
    ensures Counts(tx.seqNo, AllEvents(tx, sessionId, items).0)
    decreases |items|
  {
    if |items| > 0 {
      var (gap, middle) := GapEvents(tx, sessionId, items[0].gap);
      var (data, next) := DataEvents(middle, sessionId, items[0].data, 0, items[0].at);
      GapCounts(tx, sessionId, items[0].gap);
      DataCounts(middle, sessionId, items[0].data, 0, items[0].at);
      CountsConcat(tx.seqNo, gap, middle.seqNo, data);
      CountAfterConcat(tx.seqNo, gap, data);
      AllCounts(next, sessionId, items[1..]);
      CountsConcat(tx.seqNo, gap + data, next.seqNo, AllEvents(next, sessionId, items[1..]).0);
    }
  }

  /** Between messages nothing is assembled. */
  predicate Idle(local: Assembly) { local.payload == [] && local.frameCount == 0 }

  function Pings(gap: seq<Between>): nat {
    if |gap| == 0 then 0 else (if gap[0].SendPing? then 1 else 0) + Pings(gap[1..])
  }

  lemma BetweenStep(reliable: bool, sessionId: seq<byte>, rx: Rx, tx: Tx, local: Assembly, b: Between)
    requires InStep(reliable, rx, tx) && Idle(local) && tx.seqNo < LAST_SEQ
    requires b.DoRekey? ==> |b.salt| == SALT_LEN
    requires WithinBudget([b], local.windowStart, local.ctrlCount)
    ensures var (e, next) := SendBetween(tx, sessionId, b);
            var t := Handle(reliable, sessionId, rx, local, e);
            && t.outcome == Continue && InStep(reliable, t.rx, next) && Idle(t.local)
            && t.rx.pongs == rx.pongs + (if b.SendPing? then 1 else 0) && t.rx.taken == rx.taken + [tx.seqNo]
            && e.Frame? && e.seqNo == tx.seqNo
            && (if b.DoRekey? then t.local == local
                else if b.now - local.windowStart > 1.0 then t.local.windowStart == b.now && t.local.ctrlCount == 1
                else t.local.windowStart == local.windowStart && t.local.ctrlCount == local.ctrlCount + 1)
  {
    match b
    case SendPing(now) => AdmitsNext(reliable, sessionId, rx, tx, Ping, [], now);
    case SendPong(now) => AdmitsNext(reliable, sessionId, rx, tx, Pong, [], now);
    case DoRekey(salt, now) =>
      AdmitsNext(reliable, sessionId, rx, tx, Rekey, salt, now);
      RekeyKeepsCrossed(tx.keys, rx.keys, sessionId, salt);
  }

  lemma {:induction false} GapRoundTrip(reliable: bool, sessionId: seq<byte>, rx: Rx, tx: Tx, local: Assembly,
                                        gap: seq<Between>, more: seq<Event>)
      returns (rx': Rx, local': Assembly)
    requires InStep(reliable, rx, tx) && Idle(local) && GapFits(tx, sessionId, gap)
    requires WithinBudget(gap, local.windowStart, local.ctrlCount)
    ensures Loop(reliable, sessionId, rx, local, GapEvents(tx, sessionId, gap).0 + more) == Loop(reliable, sessionId, rx', local', more)
    ensures InStep(reliable, rx', GapEvents(tx, sessionId, gap).1) && Idle(local')
    ensures rx'.pongs == rx.pongs + Pings(gap) && rx'.taken == rx.taken + SeqNos(GapEvents(tx, sessionId, gap).0)
    decreases |gap|
  {
    if |gap| == 0 {
      rx', local' := rx, local;
      assert [] + more == more && rx.taken + [] == rx.taken;
    } else {
      var (e, next) := SendBetween(tx, sessionId, gap[0]);
      var rest := GapEvents(next, sessionId, gap[1..]).0;
      var rx1, local1 := GapFirst(reliable, sessionId, rx, tx, local, gap, more);
      rx', local' := GapRoundTrip(reliable, sessionId, rx1, next, local1, gap[1..], more);
      TakenStep(rx.taken, e, rest);
    }
  }

  /** The budget that the first of them leaves to the others. */
  lemma BudgetAfter(gap: seq<Between>, windowStart: real, count: nat, start: real, used: nat)
    requires |gap| > 0 && WithinBudget(gap, windowStart, count)
    requires if gap[0].DoRekey? then start == windowStart && used == count
             else if gap[0].now - windowStart > 1.0 then start == gap[0].now && used == 1
             else start == windowStart && used == count + 1
    ensures WithinBudget(gap[1..], start, used)
  {}

  lemma BudgetOfFirst(gap: seq<Between>, windowStart: real, count: nat)
    requires |gap| > 0 && WithinBudget(gap, windowStart, count)
    ensures WithinBudget([gap[0]], windowStart, count)
  {}

  lemma GapUnfolds(tx: Tx, sessionId: seq<byte>, gap: seq<Between>)
    requires |gap| > 0
    ensures var (e, next) := SendBetween(tx, sessionId, gap[0]);
            GapEvents(tx, sessionId, gap).0 == [e] + GapEvents(next, sessionId, gap[1..]).0
  {}

  /** The first of them in its turn. */
  lemma GapFirst(reliable: bool, sessionId: seq<byte>, rx: Rx, tx: Tx, local: Assembly, gap: seq<Between>, more: seq<Event>)
      returns (rx1: Rx, local1: Assembly)
    requires |gap| > 0 && InStep(reliable, rx, tx) && Idle(local) && GapFits(tx, sessionId, gap)
    requires WithinBudget(gap, local.windowStart, local.ctrlCount)
    ensures var next := SendBetween(tx, sessionId, gap[0]).1;
            && Loop(reliable, sessionId, rx, local, GapEvents(tx, sessionId, gap).0 + more)
               == Loop(reliable, sessionId, rx1, local1, GapEvents(next, sessionId, gap[1..]).0 + more)
            && InStep(reliable, rx1, next) && Idle(local1) && WithinBudget(gap[1..], local1.windowStart, local1.ctrlCount)
            && rx1.pongs == rx.pongs + (if gap[0].SendPing? then 1 else 0) && rx1.taken == rx.taken + [tx.seqNo]
            && SendBetween(tx, sessionId, gap[0]).0.Frame? && SendBetween(tx, sessionId, gap[0]).0.seqNo == tx.seqNo
  {
    var (e, next) := SendBetween(tx, sessionId, gap[0]);
    BudgetOfFirst(gap, local.windowStart, local.ctrlCount);
    BetweenStep(reliable, sessionId, rx, tx, local, gap[0]);
    var t := Handle(reliable, sessionId, rx, local, e);
    rx1, local1 := t.rx, t.local;
    BudgetAfter(gap, local.windowStart, local.ctrlCount, local1.windowStart, local1.ctrlCount);
    GapUnfolds(tx, sessionId, gap);
    LoopContinues(reliable, sessionId, rx, local, e, GapEvents(next, sessionId, gap[1..]).0, more);
  }

  /** The message is assembled up to `offset`. */
  predicate Assembled(local: Assembly, data: seq<byte>, offset: nat, seqNo: nat)
    requires offset <= |data|
  {
    && local.payload == data[..offset]
    && local.frameCount * S.MAX_DATA_LEN == offset
    && (local.frameCount > 0 ==> local.expected == seqNo)
  }

  /** One data frame, received in step. */
  lemma DataStep(reliable: bool, sessionId: seq<byte>, rx: Rx, tx: Tx, local: Assembly, data: seq<byte>, offset: nat, at: real)
    requires offset <= |data| <= S.MAX_DATA_LEN * S.MAX_FRAMES
    requires InStep(reliable, rx, tx) && Assembled(local, data, offset, tx.seqNo) && tx.seqNo < LAST_SEQ
    ensures var last := !S.IsFragment(data, offset);
            var e := Arriving(tx, sessionId, if last then Data else DataFrag, S.Chunk(data, offset), at);
            var t := Handle(reliable, sessionId, rx, local, e);
            && InStep(reliable, t.rx, tx.(seqNo := tx.seqNo + 1)) && t.rx.pongs == rx.pongs && t.rx.taken == rx.taken + [tx.seqNo]
            && (if last then t.outcome == Return(data)
                else t.outcome == Continue && Assembled(t.local, data, offset + S.MAX_DATA_LEN, tx.seqNo + 1)
                     && t.local.frameCount == local.frameCount + 1)
  {
    var last := !S.IsFragment(data, offset);
    S.ChunkExtendsPrefix(data, offset);
    AdmitsNext(reliable, sessionId, rx, tx, if last then Data else DataFrag, S.Chunk(data, offset), at);
  }

  /** How many frames the rest of a message takes. */
  function Remaining(data: seq<byte>, offset: nat): nat
    requires offset <= |data|
    decreases |data| - offset
  {
    if S.IsFragment(data, offset) then 1 + Remaining(data, offset + S.MAX_DATA_LEN) else 1
  }

  lemma {:induction false} RemainingIsFragments(data: seq<byte>, offset: nat, sent: nat)
    requires offset == sent * S.MAX_DATA_LEN && (offset == 0 || offset < |data|)
    ensures Remaining(data, offset) == S.Fragments(data) - sent
    decreases |data| - offset
  {
    if S.IsFragment(data, offset) {
      RemainingIsFragments(data, offset + S.MAX_DATA_LEN, sent + 1);
    }
  }

  lemma {:induction false} DataRoundTrip(reliable: bool, sessionId: seq<byte>, rx: Rx, tx: Tx, local: Assembly,
                                         data: seq<byte>, offset: nat, at: real, more: seq<Event>)
      returns (rx': Rx)
    requires offset <= |data| <= S.MAX_DATA_LEN * S.MAX_FRAMES
    requires InStep(reliable, rx, tx) && Assembled(local, data, offset, tx.seqNo)
    requires tx.seqNo + Remaining(data, offset) <= LAST_SEQ
    ensures Loop(reliable, sessionId, rx, local, DataEvents(tx, sessionId, data, offset, at).0 + more) == Got(rx', data, more)
    ensures InStep(reliable, rx', DataEvents(tx, sessionId, data, offset, at).1) && rx'.pongs == rx.pongs
    ensures rx'.taken == rx.taken + SeqNos(DataEvents(tx, sessionId, data, offset, at).0)
    decreases |data| - offset
  {
    if S.IsFragment(data, offset) {
      var rx1, local1 := FragmentReceived(reliable, sessionId, rx, tx, local, data, offset, at, more);
      var next := tx.(seqNo := tx.seqNo + 1);
      var e, rest := Arriving(tx, sessionId, DataFrag, S.Chunk(data, offset), at), DataEvents(next, sessionId, data, offset + S.MAX_DATA_LEN, at).0;
      rx' := DataRoundTrip(reliable, sessionId, rx1, next, local1, data, offset + S.MAX_DATA_LEN, at, more);
      TakenStep(rx.taken, e, rest);
    } else {
      rx' := LastReceived(reliable, sessionId, rx, tx, local, data, offset, at, more);
    }
  }

  lemma FragmentReceived(reliable: bool, sessionId: seq<byte>, rx: Rx, tx: Tx, local: Assembly, data: seq<byte>, offset: nat, at: real,
                         more: seq<Event>) returns (rx1: Rx, local1: Assembly)
    requires offset <= |data| <= S.MAX_DATA_LEN * S.MAX_FRAMES && S.IsFragment(data, offset)
    requires InStep(reliable, rx, tx) && Assembled(local, data, offset, tx.seqNo) && tx.seqNo < LAST_SEQ
    ensures var next := tx.(seqNo := tx.seqNo + 1); var rest := DataEvents(next, sessionId, data, offset + S.MAX_DATA_LEN, at).0;
            && DataEvents(tx, sessionId, data, offset, at).0 == [Arriving(tx, sessionId, DataFrag, S.Chunk(data, offset), at)] + rest
            && Loop(reliable, sessionId, rx, local, DataEvents(tx, sessionId, data, offset, at).0 + more)
               == Loop(reliable, sessionId, rx1, local1, rest + more)
            && InStep(reliable, rx1, next) && Assembled(local1, data, offset + S.MAX_DATA_LEN, next.seqNo)
            && rx1.pongs == rx.pongs && rx1.taken == rx.taken + [tx.seqNo]
  {
    DataStep(reliable, sessionId, rx, tx, local, data, offset, at);
    var e := Arriving(tx, sessionId, DataFrag, S.Chunk(data, offset), at);
    var t := Handle(reliable, sessionId, rx, local, e);
    LoopContinues(reliable, sessionId, rx, local, e, DataEvents(tx.(seqNo := tx.seqNo + 1), sessionId, data, offset + S.MAX_DATA_LEN, at).0, more);
    rx1, local1 := t.rx, t.local;
  }

  lemma LastReceived(reliable: bool, sessionId: seq<byte>, rx: Rx, tx: Tx, local: Assembly, data: seq<byte>, offset: nat, at: real,
                     more: seq<Event>) returns (rx': Rx)
    requires offset <= |data| <= S.MAX_DATA_LEN * S.MAX_FRAMES && !S.IsFragment(data, offset)
    requires InStep(reliable, rx, tx) && Assembled(local, data, offset, tx.seqNo) && tx.seqNo < LAST_SEQ
    ensures var (events, end) := DataEvents(tx, sessionId, data, offset, at);
            && Loop(reliable, sessionId, rx, local, events + more) == Got(rx', data, more)
            && InStep(reliable, rx', end) && rx'.pongs == rx.pongs && rx'.taken == rx.taken + SeqNos(events)
  {
    var e := Arriving(tx, sessionId, Data, S.Chunk(data, offset), at);
    DataStep(reliable, sessionId, rx, tx, local, data, offset, at);
    LoopStep(reliable, sessionId, rx, local, e, more);
    TakenStep(rx.taken, e, []);
    rx' := Handle(reliable, sessionId, rx, local, e).rx;
  }

  // ---------------------------------------------------------------- many messages

  /** One `recv` call per start time; None when a call raises or has to wait. */
  function RecvAll(reliable: bool, sessionId: seq<byte>, rx: Rx, starts: seq<real>, events: seq<Event>)
      : Option<(seq<seq<byte>>, Rx, seq<Event>)>
    decreases |starts|
  {
    if |starts| == 0 then Some(([], rx, events))
    else match Loop(reliable, sessionId, rx, Blank(starts[0]), events)
      case Waiting(_) => None
      case Failed(_, _, _) => None
      case Got(rx', payload, rest) =>
        match RecvAll(reliable, sessionId, rx', starts[1..], rest)
        case None => None
        case Some((more, rx'', left)) => Some(([payload] + more, rx'', left))
  }

  function Payloads(items: seq<Item>): seq<seq<byte>> {
    if |items| == 0 then [] else [items[0].data] + Payloads(items[1..])
  }

  function AllPings(items: seq<Item>): nat {
    if |items| == 0 then 0 else Pings(items[0].gap) + AllPings(items[1..])
  }

  lemma WholeMessage(reliable: bool, sessionId: seq<byte>, rx: Rx, tx: Tx, local: Assembly, data: seq<byte>, at: real, more: seq<Event>)
      returns (rx': Rx)
    requires InStep(reliable, rx, tx) && Idle(local) && |data| <= S.MAX_DATA_LEN * S.MAX_FRAMES
    requires tx.seqNo + S.Fragments(data) <= LAST_SEQ
    ensures var (events, end) := DataEvents(tx, sessionId, data, 0, at);
            && Loop(reliable, sessionId, rx, local, events + more) == Got(rx', data, more)
            && InStep(reliable, rx', end) && rx'.pongs == rx.pongs && rx'.taken == rx.taken + SeqNos(events)
  {
    assert data[..0] == [];
    RemainingIsFragments(data, 0, 0);
    rx' := DataRoundTrip(reliable, sessionId, rx, tx, local, data, 0, at, more);
  }

  lemma ItemRoundTrip(reliable: bool, sessionId: seq<byte>, rx: Rx, tx: Tx, item: Item, start: real, more: seq<Event>)
      returns (rx': Rx)
    requires InStep(reliable, rx, tx) && GapFits(tx, sessionId, item.gap) && |item.data| <= S.MAX_DATA_LEN * S.MAX_FRAMES
    requires GapEvents(tx, sessionId, item.gap).1.seqNo + S.Fragments(item.data) <= LAST_SEQ
    requires WithinBudget(item.gap, start, 0)
    ensures Loop(reliable, sessionId, rx, Blank(start), ItemEvents(tx, sessionId, item).0 + more) == Got(rx', item.data, more)
    ensures InStep(reliable, rx', ItemEvents(tx, sessionId, item).1)
    ensures rx'.pongs == rx.pongs + Pings(item.gap)
    ensures rx'.taken == rx.taken + SeqNos(ItemEvents(tx, sessionId, item).0)
  {
    var (gap, middle) := GapEvents(tx, sessionId, item.gap);
    var (data, end) := DataEvents(middle, sessionId, item.data, 0, item.at);
    var rx1, local1 := GapRoundTrip(reliable, sessionId, rx, tx, Blank(start), item.gap, data + more);
    assert (gap + data) + more == gap + (data + more);
    rx' := WholeMessage(reliable, sessionId, rx1, middle, local1, item.data, item.at, more);
    TakenConcat(rx.taken, gap, data);
  }

  lemma RecvAllStep(reliable: bool, sessionId: seq<byte>, rx: Rx, starts: seq<real>, first: seq<Event>, rest: seq<Event>,
                    tail: seq<Event>, rx1: Rx, payload: seq<byte>)
    requires |starts| > 0
    requires Loop(reliable, sessionId, rx, Blank(starts[0]), first + (rest + tail)) == Got(rx1, payload, rest + tail)
    ensures RecvAll(reliable, sessionId, rx, starts, (first + rest) + tail) ==
            match RecvAll(reliable, sessionId, rx1, starts[1..], rest + tail)
            case None => None
            case Some((more, rx2, left)) => Some(([payload] + more, rx2, left))
  {
    assert (first + rest) + tail == first + (rest + tail);
  }

  lemma {:induction false} ItemsRoundTrip(reliable: bool, sessionId: seq<byte>, rx: Rx, tx: Tx, items: seq<Item>,
                                             starts: seq<real>, tail: seq<Event>)
      returns (rx': Rx)
    requires |starts| == |items| && InStep(reliable, rx, tx) && ItemsFit(tx, sessionId, items)
    requires AllWithinBudget(items, starts)
    ensures RecvAll(reliable, sessionId, rx, starts, AllEvents(tx, sessionId, items).0 + tail) == Some((Payloads(items), rx', tail))
    ensures InStep(reliable, rx', AllEvents(tx, sessionId, items).1)
    ensures rx'.pongs == rx.pongs + AllPings(items)
    ensures rx'.taken == rx.taken + SeqNos(AllEvents(tx, sessionId, items).0)
    decreases |items|
  {
    if |items| == 0 {
      rx' := rx;
      assert [] + tail == tail && rx.taken + [] == rx.taken;
    } else {
      var (first, next) := ItemEvents(tx, sessionId, items[0]);
      var (rest, end) := AllEvents(next, sessionId, items[1..]);
      var rx1 := ItemRoundTrip(reliable, sessionId, rx, tx, items[0], starts[0], rest + tail);
      RecvAllStep(reliable, sessionId, rx, starts, first, rest, tail, rx1, items[0].data);
      rx' := ItemsRoundTrip(reliable, sessionId, rx1, next, items[1..], starts[1..], tail);
      TakenConcat(rx.taken, first, rest);
    }
  }

  /** Any list of messages of at most 1808 bytes each (empty ones included), with control frames
      and rekeys between them, is received as that list; the sequences accepted are n, n + 1, … in
      turn from the sender's first, starting again at 0 after each REKEY; the receiver ends at the
      sender's next sequence, and each PING got its PONG. */
  lemma SendRecvRoundTrip(reliable: bool, sessionId: seq<byte>, rx: Rx, tx: Tx, items: seq<Item>, starts: seq<real>, tail: seq<Event>)
      returns (rx': Rx)
    requires |starts| == |items| && InStep(reliable, rx, tx) && ItemsFit(tx, sessionId, items)
    requires AllWithinBudget(items, starts)
    ensures RecvAll(reliable, sessionId, rx, starts, AllEvents(tx, sessionId, items).0 + tail) == Some((Payloads(items), rx', tail))
    ensures rx'.taken == rx.taken + SeqNos(AllEvents(tx, sessionId, items).0) && Counts(tx.seqNo, AllEvents(tx, sessionId, items).0)
    ensures InStep(reliable, rx', AllEvents(tx, sessionId, items).1)
    ensures rx'.pongs == rx.pongs + AllPings(items)
  {
    rx' := ItemsRoundTrip(reliable, sessionId, rx, tx, items, starts, tail);
    AllCounts(tx, sessionId, items);
  }
}
