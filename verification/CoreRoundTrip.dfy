/** The C session as its own peer: `usmp_recv` undoes `usmp_send`, for whole lists of messages
    with control frames and rekeys between them. */
module CoreRoundTrip {
  import opened Crc16
  import opened Frame
  import opened SymbolicKeys
  import opened ReplayWindow
  import opened CoreTransmit
  import opened CoreReceive
  import S = SessionSend

  /** The answer of the transport that delivers this frame; `more` says whether bytes wait behind it. */
  function Delivery(b: Box, more: bool): Reading {
    Parsed(b.kind, b.seqNo % 0x1_0000_0000, b.length, b, more)
  }

  /** These frames are the transport's answers from the k-th on, each with more behind it. */
  ghost predicate Arrives(incoming: seq<Reading>, k: nat, boxes: seq<Box>)
    decreases |boxes|
  {
    |boxes| == 0 || (k < |incoming| && incoming[k] == Delivery(boxes[0], true) && Arrives(incoming, k + 1, boxes[1..]))
  }

  /** The receiver's next expected frame is number `seqNo` under this key. */
  predicate Expects(datagrams: bool, c: Core, key: Key, seqNo: nat) {
    && c.keys.rx == key
    && if datagrams then c.rxSeq + 1 == seqNo || (seqNo == 0 && c.rxSeq == 0 && c.bitmap == 0) else c.rxSeq == seqNo
  }

  lemma AcceptsNext(datagrams: bool, c: Core, key: Key, seqNo: uint32)
    requires Expects(datagrams, c, key, seqNo) && seqNo < LAST_SEQ
    ensures !Rejected(datagrams, c, seqNo)
    ensures Expects(datagrams, Note(datagrams, c, seqNo), key, seqNo + 1)
  {
    if datagrams {
      UnsignedAndSignedAgree(Window(c.rxSeq, c.bitmap), seqNo);
      EmptyWindow();
      FreshMeaning(EMPTY, {}, 0);
    }
  }

  /** Receiving moved nothing but the receive window. */
  predicate OnlyReceived(c: Core, d: Core) { d == c.(rxSeq := d.rxSeq, bitmap := d.bitmap) }

  // ---------------------------------------------------------------- the loop, whatever a turn does

  /** What one turn makes of the context, the local variables and the number of answers read. */
  type TurnFunction = (Core, Local, nat) -> Turn

  function LoopOf(turn: TurnFunction, c: Core, l: Local, k: nat): Received
    requires k <= MAX_ATTEMPTS
    decreases MAX_ATTEMPTS - k
  {
    if k == MAX_ATTEMPTS then
      if |l.parts| > 0 then Received(c.(established := false), l, -1, k) else Received(c, l, 0, k)
    else
      var t := turn(c, l, k);
      if t.verdict.Finish? then Received(t.core, t.local, t.verdict.code, k + 1) else LoopOf(turn, t.core, t.local, k + 1)
  }

  function TurnOf(datagrams: bool, maxLen: nat, incoming: seq<Reading>, net: Net): TurnFunction {
    (c: Core, l: Local, k: nat) => OnReading(datagrams, maxLen, c, l, At(incoming, k), net)
  }

  lemma {:induction false} LoopIsLoopOf(datagrams: bool, maxLen: nat, c: Core, l: Local, incoming: seq<Reading>, k: nat, net: Net)
    requires k <= MAX_ATTEMPTS
    ensures Loop(datagrams, maxLen, c, l, incoming, k, net) == LoopOf(TurnOf(datagrams, maxLen, incoming, net), c, l, k)
    decreases MAX_ATTEMPTS - k
  {
    if k < MAX_ATTEMPTS {
      var t := OnReading(datagrams, maxLen, c, l, At(incoming, k), net);
      assert TurnOf(datagrams, maxLen, incoming, net)(c, l, k) == t;
      if t.verdict == Again {
        LoopIsLoopOf(datagrams, maxLen, t.core, t.local, incoming, k + 1, net);
      }
    }
  }

  /** A mark for the turns whose effect a proof looks up. */
  predicate Asked(c: Core, l: Local, k: nat) { true }

  ghost predicate Plays(turn: TurnFunction, datagrams: bool, maxLen: nat, incoming: seq<Reading>, net: Net) {
    forall c, l, k {:trigger Asked(c, l, k)} :: turn(c, l, k) == OnReading(datagrams, maxLen, c, l, At(incoming, k), net)
  }

  /** The context and local variables after `n` more turns. */
  function Steps(turn: TurnFunction, c: Core, l: Local, k: nat, n: nat): (Core, Local)
    decreases n
  {
    if n == 0 then (c, l) else Steps(turn, turn(c, l, k).core, turn(c, l, k).local, k + 1, n - 1)
  }

  /** None of the `n` turns ends the call. */
  predicate AllAgain(turn: TurnFunction, c: Core, l: Local, k: nat, n: nat)
    decreases n
  {
    n == 0 || (turn(c, l, k).verdict == Again && AllAgain(turn, turn(c, l, k).core, turn(c, l, k).local, k + 1, n - 1))
  }

  lemma {:induction false} LoopSteps(turn: TurnFunction, c: Core, l: Local, k: nat, n: nat)
    requires k + n <= MAX_ATTEMPTS && AllAgain(turn, c, l, k, n)
    ensures LoopOf(turn, c, l, k) == LoopOf(turn, Steps(turn, c, l, k, n).0, Steps(turn, c, l, k, n).1, k + n)
    decreases n
  {
    if n > 0 {
      LoopSteps(turn, turn(c, l, k).core, turn(c, l, k).local, k + 1, n - 1);
    }
  }

  // ---------------------------------------------------------------- one message

  /** The chunks of a message from `offset` on. */
  function Chunks(data: seq<byte>, offset: nat): seq<seq<byte>>
    requires offset <= |data|
    decreases |data| - offset
  {
    if S.IsFragment(data, offset) then [S.Chunk(data, offset)] + Chunks(data, offset + S.MAX_DATA_LEN) else [S.Chunk(data, offset)]
  }

  function Flat(chunks: seq<seq<byte>>): seq<byte> {
    if |chunks| == 0 then [] else chunks[0] + Flat(chunks[1..])
  }

  /** The frames that carry these chunks, the last of them as DATA. */
  function ChunkBoxes(key: Key, seqNo: nat, sessionId: seq<byte>, chunks: seq<seq<byte>>): seq<Box>
    decreases |chunks|
  {
    if |chunks| == 0 then []
    else [Seal(key, seqNo, sessionId, if |chunks| > 1 then DataFrag else Data, chunks[0])] + ChunkBoxes(key, seqNo + 1, sessionId, chunks[1..])
  }

  lemma {:induction false} ChunksMeaning(key: Key, seqNo: nat, sessionId: seq<byte>, data: seq<byte>, offset: nat)
    requires offset <= |data|
    ensures var chunks := Chunks(data, offset);
            && |chunks| > 0 && Flat(chunks) == data[offset..]
            && ChunkBoxes(key, seqNo, sessionId, chunks) == Boxes(key, seqNo, sessionId, data, offset)
    decreases |data| - offset
  {
    var chunk := S.Chunk(data, offset);
    if S.IsFragment(data, offset) {
      var next := offset + S.MAX_DATA_LEN;
      ChunksMeaning(key, seqNo + 1, sessionId, data, next);
      var rest := Chunks(data, next);
      assert ([chunk] + rest)[1..] == rest;
      assert data[offset..] == chunk + data[next..];
    } else {
      var none: seq<seq<byte>> := [];
      assert [chunk][1..] == none && chunk + Flat(none) == chunk;
      assert ChunkBoxes(key, seqNo + 1, sessionId, none) == [];
    }
  }

  lemma {:induction false} ChunkBoxCount(key: Key, seqNo: nat, sessionId: seq<byte>, chunks: seq<seq<byte>>)
    ensures |ChunkBoxes(key, seqNo, sessionId, chunks)| == |chunks|
    decreases |chunks|
  {
    if |chunks| > 0 { ChunkBoxCount(key, seqNo + 1, sessionId, chunks[1..]); }
  }

  /** A frame with this chunk is taken in its turn. */
  lemma ChunkTurn(datagrams: bool, maxLen: nat, c: Core, l: Local, net: Net, seqNo: nat, chunk: seq<byte>, last: bool)
    requires Expects(datagrams, c, c.keys.rx, seqNo) && seqNo < LAST_SEQ
    requires |l.payload| + |chunk| <= maxLen && (|l.parts| > 0 ==> l.expected == seqNo)
    requires |l.parts| + (if last then 0 else 1) < S.MAX_FRAMES
    ensures var kind := if last then Data else DataFrag;
            var box := Seal(c.keys.rx, seqNo, c.sessionId, kind, chunk);
            var t := OnReading(datagrams, maxLen, c, l, Delivery(box, true), net);
            && t.core == Note(datagrams, c, seqNo) && Expects(datagrams, t.core, c.keys.rx, seqNo + 1) && OnlyReceived(c, t.core)
            && t.local.payload == l.payload + chunk && t.local.parts == l.parts + [box] && t.local.expected == seqNo + 1
            && t.verdict == if last then Finish(|l.payload + chunk|) else Again
  {
    AcceptsNext(datagrams, c, c.keys.rx, seqNo);
  }

  /** What does not change while one message is being received. */
  datatype Job = Job(turn: TurnFunction, datagrams: bool, maxLen: nat, net: Net, key: Key, sessionId: seq<byte>, incoming: seq<Reading>)

  /** A moment of the call: context, local variables, answers read, next sequence, chunks to come. */
  datatype Place = Place(c: Core, l: Local, pos: nat, seqNo: nat, chunks: seq<seq<byte>>)

  /** The chunks fit what is left of the protocol's limits, the buffer, the sequences and the call. */
  predicate Fits(j: Job, p: Place) {
    && 1 <= |p.chunks| && |p.l.parts| + |p.chunks| <= S.MAX_FRAMES
    && |p.l.payload| + |Flat(p.chunks)| <= j.maxLen
    && p.seqNo + |p.chunks| <= LAST_SEQ && p.pos + |p.chunks| <= MAX_ATTEMPTS
  }

  ghost predicate Poised(j: Job, p: Place) {
    && Plays(j.turn, j.datagrams, j.maxLen, j.incoming, j.net)
    && p.c.keys.rx == j.key && p.c.sessionId == j.sessionId && Expects(j.datagrams, p.c, j.key, p.seqNo)
    && (|p.l.parts| > 0 ==> p.l.expected == p.seqNo)
    && Fits(j, p) && Arrives(j.incoming, p.pos, ChunkBoxes(j.key, p.seqNo, j.sessionId, p.chunks))
  }

  /** The chunks are taken: the call ends with all of them behind what was assembled before. */
  ghost predicate Completes(j: Job, p: Place, x: Received) {
    && x.local.payload == p.l.payload + Flat(p.chunks) && x.code == |x.local.payload| && x.attempts == p.pos + |p.chunks|
    && OnlyReceived(p.c, x.core) && Expects(j.datagrams, x.core, j.key, p.seqNo + |p.chunks|)
  }

  /** One chunk further on. */
  predicate Follows(p: Place, q: Place) {
    && |p.chunks| > 1 && q.chunks == p.chunks[1..] && q.pos == p.pos + 1 && q.seqNo == p.seqNo + 1
    && q.l.payload == p.l.payload + p.chunks[0] && OnlyReceived(p.c, q.c)
  }

  /** The next answer is the first chunk's frame, and the others arrive behind it. */
  lemma NextArrives(j: Job, p: Place)
    requires Fits(j, p) && |p.chunks| > 1 && Arrives(j.incoming, p.pos, ChunkBoxes(j.key, p.seqNo, j.sessionId, p.chunks))
    ensures At(j.incoming, p.pos) == Delivery(Seal(j.key, p.seqNo, j.sessionId, DataFrag, p.chunks[0]), true)
    ensures Arrives(j.incoming, p.pos + 1, ChunkBoxes(j.key, p.seqNo + 1, j.sessionId, p.chunks[1..]))
  {}

  /** What the turn makes of the first chunk. */
  ghost predicate Appended(j: Job, p: Place, c: Core, l: Local) {
    && |p.chunks| > 0 && OnlyReceived(p.c, c) && Expects(j.datagrams, c, j.key, p.seqNo + 1)
    && l.payload == p.l.payload + p.chunks[0] && |l.parts| == |p.l.parts| + 1 && l.expected == p.seqNo + 1
  }

  lemma FirstTurn(j: Job, p: Place)
    requires Poised(j, p) && |p.chunks| > 1
    ensures var t := j.turn(p.c, p.l, p.pos); t.verdict == Again && Appended(j, p, t.core, t.local)
  {
    assert Asked(p.c, p.l, p.pos);
    NextArrives(j, p);
    ChunkTurn(j.datagrams, j.maxLen, p.c, p.l, j.net, p.seqNo, p.chunks[0], false);
  }

  lemma PoisedNext(j: Job, p: Place, c: Core, l: Local)
    requires Poised(j, p) && |p.chunks| > 1 && Appended(j, p, c, l)
    ensures var q := Place(c, l, p.pos + 1, p.seqNo + 1, p.chunks[1..]); Poised(j, q) && Follows(p, q)
  {
    NextArrives(j, p);
  }

  lemma FragmentTaken(j: Job, p: Place) returns (q: Place)
    requires Poised(j, p) && |p.chunks| > 1
    ensures Poised(j, q) && Follows(p, q) && LoopOf(j.turn, p.c, p.l, p.pos) == LoopOf(j.turn, q.c, q.l, q.pos)
  {
    FirstTurn(j, p);
    var t := j.turn(p.c, p.l, p.pos);
    PoisedNext(j, p, t.core, t.local);
    q := Place(t.core, t.local, p.pos + 1, p.seqNo + 1, p.chunks[1..]);
  }

  lemma FinalTaken(j: Job, p: Place)
    requires Poised(j, p) && |p.chunks| == 1
    ensures Completes(j, p, LoopOf(j.turn, p.c, p.l, p.pos))
  {
    assert Asked(p.c, p.l, p.pos);
    ChunkTurn(j.datagrams, j.maxLen, p.c, p.l, j.net, p.seqNo, p.chunks[0], true);
    assert Flat(p.chunks) == p.chunks[0];
  }

  lemma CompletesStep(j: Job, p: Place, q: Place, x: Received)
    requires Follows(p, q) && Completes(j, q, x)
    ensures Completes(j, p, x)
  {
    Assoc3(p.l.payload, p.chunks[0], Flat(q.chunks));
  }

  lemma {:induction false} DataLoop(j: Job, p: Place)
    requires Poised(j, p)
    ensures Completes(j, p, LoopOf(j.turn, p.c, p.l, p.pos))
    decreases |p.chunks|
  {
    if |p.chunks| > 1 {
      var q := FragmentTaken(j, p);
      DataLoop(j, q);
      CompletesStep(j, p, q, LoopOf(j.turn, q.c, q.l, q.pos));
    } else {
      FinalTaken(j, p);
    }
  }

  // ---------------------------------------------------------------- control frames in between

  /** What a sender does between two messages. */
  datatype Between = APing | APong | ARekey(salt: seq<byte>)

  /** The sender's keys and next sequence, and the next sequence of the peer that answers it. */
  datatype Tx = Tx(keys: KeyPair, seqNo: nat, peerSeq: nat)

  function BetweenBox(tx: Tx, sessionId: seq<byte>, b: Between): Box {
    match b
    case APing => Seal(tx.keys.tx, tx.seqNo, sessionId, Ping, [])
    case APong => Seal(tx.keys.tx, tx.seqNo, sessionId, Pong, [])
    case ARekey(salt) => Seal(tx.keys.tx, tx.seqNo, sessionId, Rekey, salt)
  }

  function AfterBetween(tx: Tx, sessionId: seq<byte>, b: Between): Tx {
    match b
    case APing => tx.(seqNo := tx.seqNo + 1, peerSeq := tx.peerSeq + 1)
    case APong => tx.(seqNo := tx.seqNo + 1)
    case ARekey(salt) => Tx(DeriveRekeyKeys(true, tx.keys, sessionId, salt), 0, 0)
  }

  /** Sequences are left on both sides, and a salt has its length. */
  predicate Possible(tx: Tx, b: Between) {
    tx.seqNo < LAST_SEQ && (b.APing? ==> tx.peerSeq < LAST_SEQ) && (b.ARekey? ==> |b.salt| == SALT_LEN)
  }

  /** The PONG with which the peer answers. */
  function Answer(tx: Tx, sessionId: seq<byte>, session: nat, b: Between): seq<Entry> {
    if b.APing? then [Entry(session, Seal(tx.keys.rx, tx.peerSeq, sessionId, Pong, []), true)] else []
  }

  /** The two ends agree on keys, session and both sequences. */
  predicate InStep(datagrams: bool, c: Core, tx: Tx, sessionId: seq<byte>) {
    && c.established && c.sessionId == sessionId && c.keys.tx == tx.keys.rx && c.txSeq == tx.peerSeq
    && Expects(datagrams, c, tx.keys.tx, tx.seqNo)
  }

  ghost predicate AllSent(net: Net) { forall n :: net(n).ok }

  /** Nothing is assembled. */
  predicate Idle(l: Local, controls: nat) { l.payload == [] && l.parts == [] && l.ctrlCount == controls }

  /** What a control frame in its turn leads to. */
  ghost predicate Handled(datagrams: bool, c: Core, t: Turn, tx: Tx, sessionId: seq<byte>, b: Between, more: bool, controls: nat) {
    && t.verdict == (if more then Again else Finish(0)) && Idle(t.local, controls + 1)
    && InStep(datagrams, t.core, AfterBetween(tx, sessionId, b), sessionId)
    && t.core.log == c.log + Answer(tx, sessionId, c.session, b) && t.core.session == c.session
  }

  lemma PingTurn(datagrams: bool, maxLen: nat, c: Core, l: Local, net: Net, tx: Tx, sessionId: seq<byte>, more: bool, controls: nat)
    requires InStep(datagrams, c, tx, sessionId) && Possible(tx, APing) && Idle(l, controls) && controls < MAX_CONTROL && net(|c.log|).ok
    ensures Handled(datagrams, c, OnReading(datagrams, maxLen, c, l, Delivery(BetweenBox(tx, sessionId, APing), more), net),
                    tx, sessionId, APing, more, controls)
  {
    AcceptsNext(datagrams, c, tx.keys.tx, tx.seqNo);
  }

  lemma PongTurn(datagrams: bool, maxLen: nat, c: Core, l: Local, net: Net, tx: Tx, sessionId: seq<byte>, more: bool, controls: nat)
    requires InStep(datagrams, c, tx, sessionId) && Possible(tx, APong) && Idle(l, controls) && controls < MAX_CONTROL
    ensures Handled(datagrams, c, OnReading(datagrams, maxLen, c, l, Delivery(BetweenBox(tx, sessionId, APong), more), net),
                    tx, sessionId, APong, more, controls)
  {
    AcceptsNext(datagrams, c, tx.keys.tx, tx.seqNo);
    assert c.log + [] == c.log;
  }

  lemma RekeyTurn(datagrams: bool, maxLen: nat, c: Core, l: Local, net: Net, tx: Tx, sessionId: seq<byte>, b: Between, more: bool, controls: nat)
    requires InStep(datagrams, c, tx, sessionId) && Possible(tx, b) && b.ARekey? && Idle(l, controls) && controls < MAX_CONTROL
    ensures Handled(datagrams, c, OnReading(datagrams, maxLen, c, l, Delivery(BetweenBox(tx, sessionId, b), more), net),
                    tx, sessionId, b, more, controls)
  {
    AcceptsNext(datagrams, c, tx.keys.tx, tx.seqNo);
    RekeyKeepsCrossed(tx.keys, c.keys, sessionId, b.salt);
    assert c.log + [] == c.log;
  }

  lemma ControlTurn(datagrams: bool, maxLen: nat, c: Core, l: Local, net: Net, tx: Tx, sessionId: seq<byte>, b: Between, more: bool, controls: nat)
    requires InStep(datagrams, c, tx, sessionId) && Possible(tx, b) && Idle(l, controls) && controls < MAX_CONTROL && AllSent(net)
    ensures Handled(datagrams, c, OnReading(datagrams, maxLen, c, l, Delivery(BetweenBox(tx, sessionId, b), more), net),
                    tx, sessionId, b, more, controls)
  {
    match b
    case APing => PingTurn(datagrams, maxLen, c, l, net, tx, sessionId, more, controls);
    case APong => PongTurn(datagrams, maxLen, c, l, net, tx, sessionId, more, controls);
    case ARekey(salt) => RekeyTurn(datagrams, maxLen, c, l, net, tx, sessionId, b, more, controls);
  }

  function GapBoxes(tx: Tx, sessionId: seq<byte>, gap: seq<Between>): seq<Box>
    decreases |gap|
  {
    if |gap| == 0 then [] else [BetweenBox(tx, sessionId, gap[0])] + GapBoxes(AfterBetween(tx, sessionId, gap[0]), sessionId, gap[1..])
  }

  function AfterGap(tx: Tx, sessionId: seq<byte>, gap: seq<Between>): Tx
    decreases |gap|
  {
    if |gap| == 0 then tx else AfterGap(AfterBetween(tx, sessionId, gap[0]), sessionId, gap[1..])
  }

  function Answers(tx: Tx, sessionId: seq<byte>, session: nat, gap: seq<Between>): seq<Entry>
    decreases |gap|
  {
    if |gap| == 0 then []
    else Answer(tx, sessionId, session, gap[0]) + Answers(AfterBetween(tx, sessionId, gap[0]), sessionId, session, gap[1..])
  }

  predicate GapPossible(tx: Tx, sessionId: seq<byte>, gap: seq<Between>)
    decreases |gap|
  {
    |gap| == 0 || (Possible(tx, gap[0]) && GapPossible(AfterBetween(tx, sessionId, gap[0]), sessionId, gap[1..]))
  }

  lemma {:induction false} GapLength(tx: Tx, sessionId: seq<byte>, gap: seq<Between>)
    ensures |GapBoxes(tx, sessionId, gap)| == |gap|
    decreases |gap|
  {
    if |gap| > 0 { GapLength(AfterBetween(tx, sessionId, gap[0]), sessionId, gap[1..]); }
  }

  lemma Assoc3<T>(a: seq<T>, b: seq<T>, c: seq<T>)
    ensures (a + b) + c == a + (b + c)
  {}

  /** What does not change while control frames are being received. */
  datatype Stage = Stage(turn: TurnFunction, datagrams: bool, maxLen: nat, incoming: seq<Reading>, net: Net, sessionId: seq<byte>)

  /** A moment of the call: context, local variables, answers read, the sender, the frames to come. */
  datatype Moment = Moment(c: Core, l: Local, k: nat, tx: Tx, gap: seq<Between>)

  /** The receiver is in step, and these control frames come next. */
  ghost predicate Controlled(g: Stage, m: Moment) {
    && Plays(g.turn, g.datagrams, g.maxLen, g.incoming, g.net) && AllSent(g.net)
    && InStep(g.datagrams, m.c, m.tx, g.sessionId) && GapPossible(m.tx, g.sessionId, m.gap)
    && Idle(m.l, m.k) && m.k + |m.gap| <= MAX_CONTROL && Arrives(g.incoming, m.k, GapBoxes(m.tx, g.sessionId, m.gap))
  }

  function NextMoment(g: Stage, m: Moment): Moment
    requires |m.gap| > 0
  {
    var t := g.turn(m.c, m.l, m.k);
    Moment(t.core, t.local, m.k + 1, AfterBetween(m.tx, g.sessionId, m.gap[0]), m.gap[1..])
  }

  lemma GapStep(g: Stage, m: Moment)
    requires |m.gap| > 0 && Controlled(g, m)
    ensures g.turn(m.c, m.l, m.k).verdict == Again && Controlled(g, NextMoment(g, m))
    ensures NextMoment(g, m).c.log == m.c.log + Answer(m.tx, g.sessionId, m.c.session, m.gap[0])
    ensures NextMoment(g, m).c.session == m.c.session
  {
    assert Asked(m.c, m.l, m.k);
    assert GapBoxes(m.tx, g.sessionId, m.gap)[1..] == GapBoxes(AfterBetween(m.tx, g.sessionId, m.gap[0]), g.sessionId, m.gap[1..]);
    ControlTurn(g.datagrams, g.maxLen, m.c, m.l, g.net, m.tx, g.sessionId, m.gap[0], true, m.k);
  }

  lemma {:induction false} GapGoesOn(g: Stage, m: Moment)
    requires Controlled(g, m)
    ensures AllAgain(g.turn, m.c, m.l, m.k, |m.gap|)
    decreases |m.gap|
  {
    if |m.gap| > 0 {
      GapStep(g, m);
      GapGoesOn(g, NextMoment(g, m));
    }
  }

  /** The moment after all these frames. */
  function LastMoment(g: Stage, m: Moment): (end: Moment)
    ensures end.gap == [] && end.k == m.k + |m.gap|
    decreases |m.gap|
  {
    if |m.gap| == 0 then m else LastMoment(g, NextMoment(g, m))
  }

  lemma {:induction false} LastMomentIsSteps(g: Stage, m: Moment)
    ensures Steps(g.turn, m.c, m.l, m.k, |m.gap|) == (LastMoment(g, m).c, LastMoment(g, m).l)
    ensures LastMoment(g, m).tx == AfterGap(m.tx, g.sessionId, m.gap)
    decreases |m.gap|
  {
    if |m.gap| > 0 {
      LastMomentIsSteps(g, NextMoment(g, m));
    }
  }

  lemma {:induction false} GapKeepsStep(g: Stage, m: Moment)
    requires Controlled(g, m)
    ensures Controlled(g, LastMoment(g, m)) && LastMoment(g, m).c.session == m.c.session
    decreases |m.gap|
  {
    if |m.gap| > 0 {
      GapStep(g, m);
      GapKeepsStep(g, NextMoment(g, m));
    }
  }

  lemma {:induction false} GapAnswers(g: Stage, m: Moment)
    requires Controlled(g, m)
    ensures LastMoment(g, m).c.log == m.c.log + Answers(m.tx, g.sessionId, m.c.session, m.gap)
    decreases |m.gap|
  {
    if |m.gap| > 0 {
      var q := NextMoment(g, m);
      GapStep(g, m);
      GapAnswers(g, q);
      Assoc3(m.c.log, Answer(m.tx, g.sessionId, m.c.session, m.gap[0]), Answers(q.tx, g.sessionId, m.c.session, q.gap));
    } else {
      assert m.c.log + [] == m.c.log;
    }
  }

  /** Control frames with more behind them are taken one by one, and the call goes on. */
  lemma GapLoop(g: Stage, m: Moment) returns (d: Core, l: Local)
    requires Controlled(g, m) && m.l == BLANK && m.k == 0
    ensures LoopOf(g.turn, m.c, BLANK, 0) == LoopOf(g.turn, d, l, |m.gap|)
    ensures InStep(g.datagrams, d, AfterGap(m.tx, g.sessionId, m.gap), g.sessionId) && Idle(l, |m.gap|) && d.session == m.c.session
    ensures d.log == m.c.log + Answers(m.tx, g.sessionId, m.c.session, m.gap)
  {
    GapGoesOn(g, m);
    LoopSteps(g.turn, m.c, m.l, 0, |m.gap|);
    LastMomentIsSteps(g, m);
    GapKeepsStep(g, m);
    GapAnswers(g, m);
    d, l := LastMoment(g, m).c, LastMoment(g, m).l;
  }

  // ---------------------------------------------------------------- what one call receives

  /** What the transport has for one `usmp_recv` call: control frames and then a message, or
      control frames only, with nothing waiting behind the last. */
  datatype Batch = Batch(gap: seq<Between>, data: Option<seq<byte>>)

  function BatchBoxes(tx: Tx, sessionId: seq<byte>, b: Batch): seq<Box> {
    var end := AfterGap(tx, sessionId, b.gap);
    GapBoxes(tx, sessionId, b.gap) + if b.data.Some? then Boxes(end.keys.tx, end.seqNo, sessionId, b.data.value, 0) else []
  }

  function AfterBatch(tx: Tx, sessionId: seq<byte>, b: Batch): Tx {
    var end := AfterGap(tx, sessionId, b.gap);
    if b.data.Some? then end.(seqNo := end.seqNo + S.Fragments(b.data.value)) else end
  }

  function Readings(boxes: seq<Box>, lastMore: bool): (readings: seq<Reading>)
    ensures |readings| == |boxes|
    ensures forall i :: 0 <= i < |boxes| ==> readings[i] == Delivery(boxes[i], i < |boxes| - 1 || lastMore)
  {
    seq(|boxes|, i requires 0 <= i < |boxes| => Delivery(boxes[i], i < |boxes| - 1 || lastMore))
  }

  function BatchReadings(tx: Tx, sessionId: seq<byte>, b: Batch): seq<Reading> {
    Readings(BatchBoxes(tx, sessionId, b), b.data.Some?)
  }

  /** The budgets: eight control frames and ten answers a call, messages that fit the protocol and
      the buffer, sequences that do not run out. */
  predicate BatchFits(maxLen: nat, tx: Tx, sessionId: seq<byte>, b: Batch) {
    && GapPossible(tx, sessionId, b.gap) && |b.gap| <= 8
    && match b.data
       case None => |b.gap| > 0
       case Some(data) =>
         && |data| <= maxLen && |data| <= 1808
         && |b.gap| + S.Fragments(data) <= 10
         && AfterGap(tx, sessionId, b.gap).seqNo + S.Fragments(data) <= LAST_SEQ
  }

  /** The call's result, its payload, how far it read, and what it left behind. */
  ghost predicate Receives(datagrams: bool, c: Core, tx: Tx, sessionId: seq<byte>, b: Batch, x: Received) {
    && x.code == (if b.data.Some? then |b.data.value| else 0)
    && x.local.payload == (if b.data.Some? then b.data.value else [])
    && x.attempts == |BatchBoxes(tx, sessionId, b)|
    && InStep(datagrams, x.core, AfterBatch(tx, sessionId, b), sessionId)
    && x.core.log == c.log + Answers(tx, sessionId, c.session, b.gap) && x.core.session == c.session
  }

  lemma {:induction false} ReadingsArrive(boxes: seq<Box>, lastMore: bool, tail: seq<Reading>, lo: nat, hi: nat)
    requires lo <= hi <= |boxes| && (hi < |boxes| || lastMore)
    ensures Arrives(Readings(boxes, lastMore) + tail, lo, boxes[lo..hi])
    decreases hi - lo
  {
    if lo < hi {
      ReadingsArrive(boxes, lastMore, tail, lo + 1, hi);
      assert boxes[lo..hi][1..] == boxes[lo + 1..hi];
    }
  }

  lemma MessageCall(turn: TurnFunction, datagrams: bool, maxLen: nat, c: Core, net: Net, tx: Tx, sessionId: seq<byte>, b: Batch, tail: seq<Reading>)
    requires InStep(datagrams, c, tx, sessionId) && BatchFits(maxLen, tx, sessionId, b) && AllSent(net) && b.data.Some?
    requires Plays(turn, datagrams, maxLen, BatchReadings(tx, sessionId, b) + tail, net)
    ensures Receives(datagrams, c, tx, sessionId, b, LoopOf(turn, c, BLANK, 0))
  {
    var incoming, boxes, n := BatchReadings(tx, sessionId, b) + tail, BatchBoxes(tx, sessionId, b), |b.gap|;
    var end, data := AfterGap(tx, sessionId, b.gap), b.data.value;
    var frames := Boxes(end.keys.tx, end.seqNo, sessionId, data, 0);
    GapLength(tx, sessionId, b.gap);
    BoxCount(end.keys.tx, end.seqNo, sessionId, data, 0);
    SplitAt2(GapBoxes(tx, sessionId, b.gap), frames);
    ReadingsArrive(boxes, true, tail, 0, n);
    ReadingsArrive(boxes, true, tail, n, |boxes|);
    var d, l := GapLoop(Stage(turn, datagrams, maxLen, incoming, net, sessionId), Moment(c, BLANK, 0, tx, b.gap));
    MessageLoop(Job(turn, datagrams, maxLen, net, end.keys.tx, sessionId, incoming), d, l, n, end.seqNo, data);
  }

  lemma SplitAt2<T>(a: seq<T>, b: seq<T>)
    ensures (a + b)[0..|a|] == a && (a + b)[|a|..|a + b|] == b
  {}

  lemma MessageLoop(j: Job, c: Core, l: Local, pos: nat, seqNo: nat, data: seq<byte>)
    requires Plays(j.turn, j.datagrams, j.maxLen, j.incoming, j.net)
    requires c.keys.rx == j.key && c.sessionId == j.sessionId && Expects(j.datagrams, c, j.key, seqNo)
    requires l.payload == [] && l.parts == [] && |data| <= j.maxLen && |data| <= S.MAX_DATA_LEN * S.MAX_FRAMES
    requires pos + S.Fragments(data) <= MAX_ATTEMPTS && seqNo + S.Fragments(data) <= LAST_SEQ
    requires Arrives(j.incoming, pos, Boxes(j.key, seqNo, j.sessionId, data, 0))
    ensures var x := LoopOf(j.turn, c, l, pos);
            && x.code == |data| && x.local.payload == data && x.attempts == pos + S.Fragments(data)
            && OnlyReceived(c, x.core) && Expects(j.datagrams, x.core, j.key, seqNo + S.Fragments(data))
  {
    var p := Place(c, l, pos, seqNo, Chunks(data, 0));
    ChunksMeaning(j.key, seqNo, j.sessionId, data, 0);
    BoxCount(j.key, seqNo, j.sessionId, data, 0);
    ChunkBoxCount(j.key, seqNo, j.sessionId, p.chunks);
    assert data[0..] == data && [] + data == data;
    DataLoop(j, p);
  }

  lemma {:induction false} GapSnoc(tx: Tx, sessionId: seq<byte>, session: nat, gap: seq<Between>, b: Between)
    requires GapPossible(tx, sessionId, gap + [b])
    ensures var end := AfterGap(tx, sessionId, gap);
            && GapPossible(tx, sessionId, gap) && Possible(end, b)
            && GapBoxes(tx, sessionId, gap + [b]) == GapBoxes(tx, sessionId, gap) + [BetweenBox(end, sessionId, b)]
            && AfterGap(tx, sessionId, gap + [b]) == AfterBetween(end, sessionId, b)
            && Answers(tx, sessionId, session, gap + [b]) == Answers(tx, sessionId, session, gap) + Answer(end, sessionId, session, b)
    decreases |gap|
  {
    if |gap| == 0 {
      assert gap + [b] == [b] && [b][1..] == [];
      assert Answers(AfterBetween(tx, sessionId, b), sessionId, session, []) == [];
    } else {
      assert (gap + [b])[1..] == gap[1..] + [b];
      GapSnoc(AfterBetween(tx, sessionId, gap[0]), sessionId, session, gap[1..], b);
    }
  }

  /** The last control frame, with nothing behind it, ends the call with 0. */
  lemma ControlEnds(turn: TurnFunction, datagrams: bool, maxLen: nat, c: Core, net: Net, tx: Tx, sessionId: seq<byte>, front: seq<Between>, last: Between,
                    incoming: seq<Reading>)
    requires Controlled(Stage(turn, datagrams, maxLen, incoming, net, sessionId), Moment(c, BLANK, 0, tx, front)) && |front| < MAX_CONTROL
    requires Possible(AfterGap(tx, sessionId, front), last)
    requires At(incoming, |front|) == Delivery(BetweenBox(AfterGap(tx, sessionId, front), sessionId, last), false)
    ensures var x := LoopOf(turn, c, BLANK, 0); var end := AfterGap(tx, sessionId, front);
            && x.code == 0 && x.local.payload == [] && x.attempts == |front| + 1
            && InStep(datagrams, x.core, AfterBetween(end, sessionId, last), sessionId) && x.core.session == c.session
            && x.core.log == (c.log + Answers(tx, sessionId, c.session, front)) + Answer(end, sessionId, c.session, last)
  {
    var d, l := GapLoop(Stage(turn, datagrams, maxLen, incoming, net, sessionId), Moment(c, BLANK, 0, tx, front));
    assert Asked(d, l, |front|);
    ControlTurn(datagrams, maxLen, d, l, net, AfterGap(tx, sessionId, front), sessionId, last, false, |front|);
  }

  lemma ControlCall(turn: TurnFunction, datagrams: bool, maxLen: nat, c: Core, net: Net, tx: Tx, sessionId: seq<byte>, b: Batch, tail: seq<Reading>)
    requires InStep(datagrams, c, tx, sessionId) && BatchFits(maxLen, tx, sessionId, b) && AllSent(net) && b.data.None?
    requires Plays(turn, datagrams, maxLen, BatchReadings(tx, sessionId, b) + tail, net)
    ensures Receives(datagrams, c, tx, sessionId, b, LoopOf(turn, c, BLANK, 0))
  {
    var n := |b.gap| - 1;
    var front, last := b.gap[..n], b.gap[n];
    assert b.gap == front + [last];
    GapSnoc(tx, sessionId, c.session, front, last);
    GapLength(tx, sessionId, front);
    var boxes := GapBoxes(tx, sessionId, b.gap);
    assert boxes + [] == boxes && boxes[0..n] == GapBoxes(tx, sessionId, front);
    ReadingsArrive(boxes, false, tail, 0, n);
    var incoming := BatchReadings(tx, sessionId, b) + tail;
    assert incoming[n] == Readings(boxes, false)[n];
    ControlEnds(turn, datagrams, maxLen, c, net, tx, sessionId, front, last, incoming);
    Assoc3(c.log, Answers(tx, sessionId, c.session, front), Answer(AfterGap(tx, sessionId, front), sessionId, c.session, last));
  }

  // ---------------------------------------------------------------- lists

  function AllReadings(tx: Tx, sessionId: seq<byte>, batches: seq<Batch>): seq<Reading>
    decreases |batches|
  {
    if |batches| == 0 then []
    else BatchReadings(tx, sessionId, batches[0]) + AllReadings(AfterBatch(tx, sessionId, batches[0]), sessionId, batches[1..])
  }

  function AfterAll(tx: Tx, sessionId: seq<byte>, batches: seq<Batch>): Tx
    decreases |batches|
  {
    if |batches| == 0 then tx else AfterAll(AfterBatch(tx, sessionId, batches[0]), sessionId, batches[1..])
  }

  function AllAnswers(tx: Tx, sessionId: seq<byte>, session: nat, batches: seq<Batch>): seq<Entry>
    decreases |batches|
  {
    if |batches| == 0 then []
    else Answers(tx, sessionId, session, batches[0].gap)
         + AllAnswers(AfterBatch(tx, sessionId, batches[0]), sessionId, session, batches[1..])
  }

  predicate AllFit(maxLen: nat, tx: Tx, sessionId: seq<byte>, batches: seq<Batch>)
    decreases |batches|
  {
    |batches| == 0 ||
    (BatchFits(maxLen, tx, sessionId, batches[0]) && AllFit(maxLen, AfterBatch(tx, sessionId, batches[0]), sessionId, batches[1..]))
  }

  /** A call's result and the bytes it put into the buffer. */
  datatype Result = Result(code: int, payload: seq<byte>)

  /** What the calls for these batches should return. */
  function Expected(batches: seq<Batch>): seq<Result> {
    if |batches| == 0 then []
    else
      [ResultOf(batches[0])] + Expected(batches[1..])
  }

  /** What one call makes of a context and the transport's answers from now on. */
  type CallFunction = (Core, seq<Reading>) -> Received

  /** `n` successive calls on one stream of answers. */
  function CallsOf(call: CallFunction, c: Core, incoming: seq<Reading>, n: nat): (seq<Result>, Core, seq<Reading>)
    decreases n
  {
    if n == 0 then ([], c, incoming)
    else
      var x := call(c, incoming);
      var left := if x.attempts <= |incoming| then incoming[x.attempts..] else [];
      var (results, end, rest) := CallsOf(call, x.core, left, n - 1);
      ([Result(x.code, x.local.payload)] + results, end, rest)
  }

  function RecvOf(datagrams: bool, maxLen: nat, net: Net): CallFunction {
    (c: Core, incoming: seq<Reading>) => Recv(datagrams, maxLen, c, incoming, net)
  }

  predicate Called(c: Core, incoming: seq<Reading>) { true }

  ghost predicate Serves(call: CallFunction, datagrams: bool, maxLen: nat, net: Net) {
    forall c, incoming {:trigger Called(c, incoming)} :: call(c, incoming) == Recv(datagrams, maxLen, c, incoming, net)
  }

  /** The call that finds a batch receives it. */
  lemma OneCall(datagrams: bool, maxLen: nat, c: Core, net: Net, tx: Tx, sessionId: seq<byte>, b: Batch, more: seq<Reading>)
    requires InStep(datagrams, c, tx, sessionId) && BatchFits(maxLen, tx, sessionId, b) && AllSent(net)
    ensures Receives(datagrams, c, tx, sessionId, b, Recv(datagrams, maxLen, c, BatchReadings(tx, sessionId, b) + more, net))
  {
    var incoming := BatchReadings(tx, sessionId, b) + more;
    var turn := TurnOf(datagrams, maxLen, incoming, net);
    LoopIsLoopOf(datagrams, maxLen, c, BLANK, incoming, 0, net);
    assert Plays(turn, datagrams, maxLen, incoming, net);
    if b.data.Some? {
      MessageCall(turn, datagrams, maxLen, c, net, tx, sessionId, b, more);
    } else {
      ControlCall(turn, datagrams, maxLen, c, net, tx, sessionId, b, more);
    }
  }

  function ResultOf(b: Batch): Result {
    var data := if b.data.Some? then b.data.value else [];
    Result(|data|, data)
  }

  lemma FirstCall(call: CallFunction, datagrams: bool, maxLen: nat, c: Core, net: Net, tx: Tx, sessionId: seq<byte>, batches: seq<Batch>,
                  tail: seq<Reading>) returns (d: Core)
    requires |batches| > 0 && InStep(datagrams, c, tx, sessionId) && BatchFits(maxLen, tx, sessionId, batches[0]) && AllSent(net)
    requires Serves(call, datagrams, maxLen, net)
    ensures var b, next := batches[0], AfterBatch(tx, sessionId, batches[0]);
            && InStep(datagrams, d, next, sessionId) && d.session == c.session && d.log == c.log + Answers(tx, sessionId, c.session, b.gap)
            && var (results, end, left) := CallsOf(call, d, AllReadings(next, sessionId, batches[1..]) + tail, |batches| - 1);
               CallsOf(call, c, AllReadings(tx, sessionId, batches) + tail, |batches|) == ([ResultOf(b)] + results, end, left)
  {
    var b, next := batches[0], AfterBatch(tx, sessionId, batches[0]);
    var first, more := BatchReadings(tx, sessionId, b), AllReadings(next, sessionId, batches[1..]) + tail;
    OneCall(datagrams, maxLen, c, net, tx, sessionId, b, more);
    assert Called(c, first + more);
    var x := call(c, first + more);
    d := x.core;
    assert (first + more)[|first|..] == more;
    Assoc3(first, AllReadings(next, sessionId, batches[1..]), tail);
  }

  lemma {:induction false} ListResults(call: CallFunction, datagrams: bool, maxLen: nat, c: Core, net: Net, tx: Tx, sessionId: seq<byte>,
                                       batches: seq<Batch>, tail: seq<Reading>) returns (d: Core)
    requires InStep(datagrams, c, tx, sessionId) && AllFit(maxLen, tx, sessionId, batches) && AllSent(net)
    requires Serves(call, datagrams, maxLen, net)
    ensures CallsOf(call, c, AllReadings(tx, sessionId, batches) + tail, |batches|) == (Expected(batches), d, tail)
    ensures InStep(datagrams, d, AfterAll(tx, sessionId, batches), sessionId)
    ensures d.log == c.log + AllAnswers(tx, sessionId, c.session, batches) && d.session == c.session
    decreases |batches|
  {
    if |batches| == 0 {
      d := c;
      assert [] + tail == tail && c.log + [] == c.log;
    } else {
      var next := AfterBatch(tx, sessionId, batches[0]);
      var c1 := FirstCall(call, datagrams, maxLen, c, net, tx, sessionId, batches, tail);
      d := ListResults(call, datagrams, maxLen, c1, net, next, sessionId, batches[1..], tail);
      Assoc3(c.log, Answers(tx, sessionId, c.session, batches[0].gap), AllAnswers(next, sessionId, c.session, batches[1..]));
    }
  }

  /** For any list of messages, empty ones included, with pings, pongs and rekeys between them, the
      successive calls of `usmp_recv` return that list; a call that finds only control frames
      returns 0. Each PING is answered by its PONG, under the receiver's key and next sequence of
      that moment; and the two ends agree on keys and on both sequences throughout, starting again
      at 0 together after each REKEY. */
  lemma ListRoundTrip(datagrams: bool, maxLen: nat, c: Core, net: Net, tx: Tx, sessionId: seq<byte>, batches: seq<Batch>, tail: seq<Reading>)
      returns (d: Core)
    requires InStep(datagrams, c, tx, sessionId) && AllFit(maxLen, tx, sessionId, batches) && AllSent(net)
    ensures CallsOf(RecvOf(datagrams, maxLen, net), c, AllReadings(tx, sessionId, batches) + tail, |batches|) == (Expected(batches), d, tail)
    ensures InStep(datagrams, d, AfterAll(tx, sessionId, batches), sessionId)
    ensures d.log == c.log + AllAnswers(tx, sessionId, c.session, batches) && d.session == c.session
  {
    var call := RecvOf(datagrams, maxLen, net);
    assert Serves(call, datagrams, maxLen, net);
    d := ListResults(call, datagrams, maxLen, c, net, tx, sessionId, batches, tail);
  }

  // ---------------------------------------------------------------- the sender's calls

  function DoBetween(s: Core, b: Between, net: Net): Core {
    match b
    case APing => SendPing(s, net).0
    case APong => EmitFrame(s, Pong, [], net).0
    case ARekey(salt) => DoRekey(s, salt, net).0
  }

  function DoGap(s: Core, gap: seq<Between>, net: Net): Core
    decreases |gap|
  {
    if |gap| == 0 then s else DoGap(DoBetween(s, gap[0], net), gap[1..], net)
  }

  function DoBatch(s: Core, b: Batch, net: Net): Core {
    var d := DoGap(s, b.gap, net);
    if b.data.Some? then Send(d, b.data.value, net).0 else d
  }

  function DoAll(s: Core, batches: seq<Batch>, net: Net): Core
    decreases |batches|
  {
    if |batches| == 0 then s else DoAll(DoBatch(s, batches[0], net), batches[1..], net)
  }

  function AllBoxes(tx: Tx, sessionId: seq<byte>, batches: seq<Batch>): seq<Box>
    decreases |batches|
  {
    if |batches| == 0 then []
    else BatchBoxes(tx, sessionId, batches[0]) + AllBoxes(AfterBatch(tx, sessionId, batches[0]), sessionId, batches[1..])
  }

  /** The history of these frames, all of them sent. */
  function Logged(session: nat, boxes: seq<Box>): seq<Entry> {
    if |boxes| == 0 then [] else [Entry(session, boxes[0], true)] + Logged(session, boxes[1..])
  }

  lemma {:induction false} LoggedConcat(session: nat, a: seq<Box>, b: seq<Box>)
    ensures Logged(session, a + b) == Logged(session, a) + Logged(session, b)
    decreases |a|
  {
    if |a| == 0 {
      assert a + b == b && [] + Logged(session, b) == Logged(session, b);
    } else {
      assert (a + b)[0] == a[0] && (a + b)[1..] == a[1..] + b;
      LoggedConcat(session, a[1..], b);
    }
  }

  lemma {:induction false} TransmittedIsLogged(session: nat, boxes: seq<Box>, net: Net, k: nat)
    requires AllSent(net)
    ensures Transmitted(session, boxes, net, k) == Logged(session, boxes) && AllOk(Logged(session, boxes))
    decreases |boxes|
  {
    if |boxes| > 0 {
      assert net(k).ok;
      TransmittedIsLogged(session, boxes[1..], net, k + 1);
      AllOkCons(Entry(session, boxes[0], true), Logged(session, boxes[1..]));
    }
  }

  /** The context is the sender that the model of the stream assumes. */
  predicate Sends(s: Core, tx: Tx, sessionId: seq<byte>) {
    s.established && s.keys == tx.keys && s.txSeq == tx.seqNo && s.sessionId == sessionId
  }

  lemma BetweenSent(s: Core, tx: Tx, sessionId: seq<byte>, b: Between, net: Net)
    requires Sends(s, tx, sessionId) && Possible(tx, b) && AllSent(net)
    ensures var d := DoBetween(s, b, net);
            && Sends(d, AfterBetween(tx, sessionId, b), sessionId) && d.session == s.session
            && d.log == s.log + [Entry(s.session, BetweenBox(tx, sessionId, b), true)]
  {
    assert net(|s.log|).ok;
  }

  lemma {:induction false} GapSent(s: Core, tx: Tx, sessionId: seq<byte>, gap: seq<Between>, net: Net)
    requires Sends(s, tx, sessionId) && GapPossible(tx, sessionId, gap) && AllSent(net)
    ensures var d := DoGap(s, gap, net);
            && Sends(d, AfterGap(tx, sessionId, gap), sessionId) && d.session == s.session
            && d.log == s.log + Logged(s.session, GapBoxes(tx, sessionId, gap))
    decreases |gap|
  {
    if |gap| == 0 {
      assert s.log + [] == s.log;
    } else {
      var next := AfterBetween(tx, sessionId, gap[0]);
      BetweenSent(s, tx, sessionId, gap[0], net);
      GapSent(DoBetween(s, gap[0], net), next, sessionId, gap[1..], net);
      LoggedCons(s, BetweenBox(tx, sessionId, gap[0]), GapBoxes(next, sessionId, gap[1..]));
    }
  }

  lemma LoggedCons(s: Core, box: Box, rest: seq<Box>)
    ensures s.log + Logged(s.session, [box] + rest) == (s.log + [Entry(s.session, box, true)]) + Logged(s.session, rest)
  {
    assert ([box] + rest)[1..] == rest;
  }

  lemma MessageSent(s: Core, tx: Tx, sessionId: seq<byte>, data: seq<byte>, net: Net)
    requires Sends(s, tx, sessionId) && AllSent(net) && |data| <= S.MAX_DATA_LEN * S.MAX_FRAMES
    requires tx.seqNo + S.Fragments(data) <= LAST_SEQ
    ensures var (d, status) := Send(s, data, net);
            && status == Done && Sends(d, tx.(seqNo := tx.seqNo + S.Fragments(data)), sessionId) && d.session == s.session
            && d.log == s.log + Logged(s.session, Boxes(tx.keys.tx, tx.seqNo, sessionId, data, 0))
  {
    var boxes := Boxes(tx.keys.tx, tx.seqNo, sessionId, data, 0);
    BoxCount(tx.keys.tx, tx.seqNo, sessionId, data, 0);
    SendLoopMeaning(s, data, 0, net);
    TransmittedIsLogged(s.session, boxes, net, |s.log|);
    TransmittedMeaning(s.session, boxes, net, |s.log|);
  }

  lemma BatchSent(s: Core, tx: Tx, sessionId: seq<byte>, b: Batch, maxLen: nat, net: Net)
    requires Sends(s, tx, sessionId) && BatchFits(maxLen, tx, sessionId, b) && AllSent(net)
    ensures var d := DoBatch(s, b, net);
            && Sends(d, AfterBatch(tx, sessionId, b), sessionId) && d.session == s.session
            && d.log == s.log + Logged(s.session, BatchBoxes(tx, sessionId, b))
  {
    GapSent(s, tx, sessionId, b.gap, net);
    var gap, end := GapBoxes(tx, sessionId, b.gap), AfterGap(tx, sessionId, b.gap);
    if b.data.Some? {
      var frames := Boxes(end.keys.tx, end.seqNo, sessionId, b.data.value, 0);
      MessageSent(DoGap(s, b.gap, net), end, sessionId, b.data.value, net);
      LoggedConcat(s.session, gap, frames);
      Assoc3(s.log, Logged(s.session, gap), Logged(s.session, frames));
    } else {
      assert gap + [] == gap;
    }
  }

  /** The calls of a sender put exactly these frames on the wire: what `ListRoundTrip` delivers is
      what `usmp_send`, `usmp_ping`, `usmp_rekey` and the answering of pings transmit. */
  lemma {:induction false} ListSent(s: Core, tx: Tx, sessionId: seq<byte>, batches: seq<Batch>, maxLen: nat, net: Net)
    requires Sends(s, tx, sessionId) && AllFit(maxLen, tx, sessionId, batches) && AllSent(net)
    ensures var d := DoAll(s, batches, net);
            && Sends(d, AfterAll(tx, sessionId, batches), sessionId) && d.session == s.session
            && d.log == s.log + Logged(s.session, AllBoxes(tx, sessionId, batches))
    decreases |batches|
  {
    if |batches| == 0 {
      assert s.log + [] == s.log;
    } else {
      var b, next := batches[0], AfterBatch(tx, sessionId, batches[0]);
      BatchSent(s, tx, sessionId, b, maxLen, net);
      ListSent(DoBatch(s, b, net), next, sessionId, batches[1..], maxLen, net);
      var first, rest := BatchBoxes(tx, sessionId, b), AllBoxes(next, sessionId, batches[1..]);
      LoggedConcat(s.session, first, rest);
      Assoc3(s.log, Logged(s.session, first), Logged(s.session, rest));
    }
  }

  /** The answers delivered are the frames sent, one for one. */
  lemma {:induction false} ReadingsAreBoxes(tx: Tx, sessionId: seq<byte>, batches: seq<Batch>, i: nat)
    requires i < |AllBoxes(tx, sessionId, batches)|
    ensures |AllReadings(tx, sessionId, batches)| == |AllBoxes(tx, sessionId, batches)|
    ensures AllReadings(tx, sessionId, batches)[i].Parsed? && AllReadings(tx, sessionId, batches)[i].box == AllBoxes(tx, sessionId, batches)[i]
    decreases |batches|
  {
    var first, next := BatchBoxes(tx, sessionId, batches[0]), AfterBatch(tx, sessionId, batches[0]);
    SameLength(next, sessionId, batches[1..]);
    if i >= |first| {
      ReadingsAreBoxes(next, sessionId, batches[1..], i - |first|);
    }
  }

  lemma {:induction false} SameLength(tx: Tx, sessionId: seq<byte>, batches: seq<Batch>)
    ensures |AllReadings(tx, sessionId, batches)| == |AllBoxes(tx, sessionId, batches)|
    decreases |batches|
  {
    if |batches| > 0 {
      SameLength(AfterBatch(tx, sessionId, batches[0]), sessionId, batches[1..]);
    }
  }
}
