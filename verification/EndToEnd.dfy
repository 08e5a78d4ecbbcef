/** From concurrent senders to the peer's `recv`: what any interleaving of tasks puts on the wire
    is received as the messages that were sent, in the order in which the tasks held the lock. */
module EndToEnd {
  import opened Crc16
  import opened SymbolicKeys
  import opened ReplayWindow
  import opened SessionReceive
  import opened RecvCalls
  import R = RoundTrip
  import S = SessionSend

  // ---------------------------------------------------------------- the frames form one chain

  /** The keys and the sequence that follow these frames. */
  function After(keys: KeyPair, sessionId: seq<byte>, log: seq<S.Sent>): R.Tx {
    if |log| == 0 then R.Tx(keys, 0)
    else
      var t, last := After(keys, sessionId, log[..|log| - 1]), log[|log| - 1];
      if last.kind == Rekey then R.Tx(DeriveRekeyKeys(true, t.keys, sessionId, last.chunk), 0) else t.(seqNo := t.seqNo + 1)
  }

  predicate Ordinary(f: S.Sent) {
    f.seqNo < LAST_SEQ && (f.kind.Data? || f.kind.DataFrag? || f.kind.Ping? || f.kind.Pong? || (f.kind.Rekey? && |f.chunk| == SALT_LEN))
  }

  /** Every frame has the key and the sequence that follow those before it. */
  predicate Chained(keys: KeyPair, sessionId: seq<byte>, log: seq<S.Sent>) {
    |log| == 0 ||
    var front, last := log[..|log| - 1], log[|log| - 1];
    && Chained(keys, sessionId, front) && Ordinary(last)
    && last.key == After(keys, sessionId, front).keys.tx && last.seqNo == After(keys, sessionId, front).seqNo
  }

  /** Writes that return, no BYE, no rekey by the peer, and salts of the right length. */
  predicate Steady(a: S.Action) {
    match a
    case WriteFails => false
    case StartBye => false
    case ReceiveRekey(_) => false
    case StartRekey(salt) => |salt| == SALT_LEN
    case _ => true
  }

  predicate AllSteady(actions: seq<S.Action>) { forall i :: 0 <= i < |actions| ==> Steady(actions[i]) }

  predicate SteadyJob(job: S.Job) {
    match job
    case Message(_, _) => true
    case Control(kind) => !kind.Bye?
    case Rotation(salt) => |salt| == SALT_LEN
  }

  /** The log is a chain, and the sender's keys and sequence follow it; a REKEY whose write has not
      returned yet is ahead of them. */
  predicate Aligned(keys: KeyPair, sessionId: seq<byte>, s: S.Sender) {
    && S.StateOk(s) && Chained(keys, sessionId, s.log) && (s.holder.Held? ==> SteadyJob(s.holder.job))
    && var t := After(keys, sessionId, s.log);
       if s.holder.Held? && s.holder.inFlight && s.holder.job.Rotation?
       then t == R.Tx(DeriveRekeyKeys(true, s.keys, sessionId, s.holder.job.salt), 0)
       else t == R.Tx(s.keys, s.txSeq)
  }

  lemma ChainSnoc(keys: KeyPair, sessionId: seq<byte>, log: seq<S.Sent>, f: S.Sent)
    requires Chained(keys, sessionId, log) && Ordinary(f)
    requires f.key == After(keys, sessionId, log).keys.tx && f.seqNo == After(keys, sessionId, log).seqNo
    ensures Chained(keys, sessionId, log + [f])
    ensures var t := After(keys, sessionId, log);
            After(keys, sessionId, log + [f]) ==
            if f.kind == Rekey then R.Tx(DeriveRekeyKeys(true, t.keys, sessionId, f.chunk), 0) else t.(seqNo := t.seqNo + 1)
  {
    assert (log + [f])[..|log|] == log;
  }

  lemma EmitKeepsAligned(keys: KeyPair, sessionId: seq<byte>, s: S.Sender)
    requires Aligned(keys, sessionId, s)
    ensures Aligned(keys, sessionId, S.EmitFrame(s))
  {
    if s.holder.Held? && !s.holder.inFlight && s.txSeq < LAST_SEQ {
      var (kind, chunk) := S.NextFrame(s.holder.job);
      ChainSnoc(keys, sessionId, s.log, S.Sent(s.keys.tx, s.txSeq, kind, chunk));
    }
  }

  lemma StepKeepsAligned(keys: KeyPair, sessionId: seq<byte>, s: S.Sender, a: S.Action)
    requires Aligned(keys, sessionId, s) && Steady(a)
    ensures Aligned(keys, sessionId, S.Step(s, a, sessionId))
  {
    match a
    case Emit => EmitKeepsAligned(keys, sessionId, s);
    case _ =>
  }

  lemma {:induction false} RunKeepsAligned(keys: KeyPair, sessionId: seq<byte>, s: S.Sender, actions: seq<S.Action>)
    requires Aligned(keys, sessionId, s) && AllSteady(actions)
    ensures Aligned(keys, sessionId, S.Run(s, actions, sessionId))
    decreases |actions|
  {
    if actions != [] {
      StepKeepsAligned(keys, sessionId, s, actions[0]);
      RunKeepsAligned(keys, sessionId, S.Step(s, actions[0], sessionId), actions[1..]);
    }
  }

  // ---------------------------------------------------------------- the receiver follows the log

  /** The frame as it arrives, the n-th at time `at(n)`. */
  function ArrivalOf(f: S.Sent, sessionId: seq<byte>, now: real): Event {
    var box := Seal(f.key, f.seqNo, sessionId, f.kind, f.chunk);
    Frame(f.kind, f.seqNo, box.length, box, now, PongSent)
  }

  function Arrivals(log: seq<S.Sent>, sessionId: seq<byte>, at: nat -> real): seq<Event> {
    if |log| == 0 then []
    else Arrivals(log[..|log| - 1], sessionId, at) + [ArrivalOf(log[|log| - 1], sessionId, at(|log| - 1))]
  }

  /** PING and PONG frames since the last message. */
  function Controls(log: seq<S.Sent>): nat {
    if |log| == 0 then 0
    else
      var front, last := log[..|log| - 1], log[|log| - 1];
      if last.kind.Data? then 0 else Controls(front) + if last.kind.Ping? || last.kind.Pong? then 1 else 0
  }

  /** Never more than eight of them. */
  predicate Calm(log: seq<S.Sent>) {
    |log| == 0 || (Calm(log[..|log| - 1]) && Controls(log) <= MAX_CONTROL)
  }

  /** The receiver holds what the log so far amounts to. */
  predicate Follows(reliable: bool, p: Progress, v: S.View, tx: R.Tx, controls: nat) {
    && v.ok && p.results == Payloads(v.messages) && p.local.payload == v.partial && p.local.frameCount == v.frames < S.MAX_FRAMES
    && R.InStep(reliable, p.rx, tx) && (v.frames > 0 ==> p.local.expected == tx.seqNo)
    && (v.frames == 0 ==> v.partial == []) && p.local.ctrlCount <= controls
  }

  lemma DataFollows(reliable: bool, sessionId: seq<byte>, starts: nat -> real, p: Progress, v: S.View, previous: Option<S.Sent>,
                    tx: R.Tx, controls: nat, f: S.Sent, now: real)
    requires Follows(reliable, p, v, tx, controls) && Ordinary(f) && (f.kind.Data? || f.kind.DataFrag?)
    requires f.key == tx.keys.tx && f.seqNo == tx.seqNo && S.Extend(v, previous, f).ok
    ensures var q := Advance(reliable, sessionId, starts, p, ArrivalOf(f, sessionId, now));
            Follows(reliable, q, S.Extend(v, previous, f), tx.(seqNo := tx.seqNo + 1), if f.kind.Data? then 0 else controls)
  {
    R.AdmitsNext(reliable, sessionId, p.rx, tx, f.kind, f.chunk, now);
    assert R.Arriving(tx, sessionId, f.kind, f.chunk, now) == ArrivalOf(f, sessionId, now);
  }

  lemma ControlFollows(reliable: bool, sessionId: seq<byte>, starts: nat -> real, p: Progress, v: S.View, previous: Option<S.Sent>,
                       tx: R.Tx, controls: nat, f: S.Sent, now: real)
    requires Follows(reliable, p, v, tx, controls) && Ordinary(f) && (f.kind.Ping? || f.kind.Pong?) && controls < MAX_CONTROL
    requires f.key == tx.keys.tx && f.seqNo == tx.seqNo && f.chunk == [] && S.Extend(v, previous, f).ok
    ensures var q := Advance(reliable, sessionId, starts, p, ArrivalOf(f, sessionId, now));
            Follows(reliable, q, S.Extend(v, previous, f), tx.(seqNo := tx.seqNo + 1), controls + 1)
  {
    R.AdmitsNext(reliable, sessionId, p.rx, tx, f.kind, f.chunk, now);
    assert R.Arriving(tx, sessionId, f.kind, f.chunk, now) == ArrivalOf(f, sessionId, now);
  }

  lemma RekeyFollows(reliable: bool, sessionId: seq<byte>, starts: nat -> real, p: Progress, v: S.View, previous: Option<S.Sent>,
                     tx: R.Tx, controls: nat, f: S.Sent, now: real)
    requires Follows(reliable, p, v, tx, controls) && Ordinary(f) && f.kind.Rekey?
    requires f.key == tx.keys.tx && f.seqNo == tx.seqNo && S.Extend(v, previous, f).ok
    ensures var q := Advance(reliable, sessionId, starts, p, ArrivalOf(f, sessionId, now));
            Follows(reliable, q, S.Extend(v, previous, f), R.Tx(DeriveRekeyKeys(true, tx.keys, sessionId, f.chunk), 0), controls)
  {
    R.AdmitsNext(reliable, sessionId, p.rx, tx, f.kind, f.chunk, now);
    assert R.Arriving(tx, sessionId, f.kind, f.chunk, now) == ArrivalOf(f, sessionId, now);
    RekeyKeepsCrossed(tx.keys, p.rx.keys, sessionId, f.chunk);
  }

  /** Control frames carry nothing. */
  predicate BareControls(log: seq<S.Sent>) {
    forall i :: 0 <= i < |log| && (log[i].kind.Ping? || log[i].kind.Pong?) ==> log[i].chunk == []
  }

  lemma ExtendKeepsFailure(v: S.View, previous: Option<S.Sent>, f: S.Sent)
    requires S.Extend(v, previous, f).ok
    ensures v.ok
  {}

  lemma {:induction false} ReceiverFollows(reliable: bool, sessionId: seq<byte>, starts: nat -> real, at: nat -> real, keys: KeyPair,
                                           p: Progress, log: seq<S.Sent>)
    requires Follows(reliable, p, S.View(true, [], [], 0), R.Tx(keys, 0), 0)
    requires Chained(keys, sessionId, log) && Calm(log) && BareControls(log) && S.Reassemble(log).ok
    ensures var q := Calls(reliable, sessionId, starts, p, Arrivals(log, sessionId, at));
            Follows(reliable, q, S.Reassemble(log), After(keys, sessionId, log), Controls(log))
    decreases |log|
  {
    if |log| > 0 {
      var front, f, now := log[..|log| - 1], log[|log| - 1], at(|log| - 1);
      var v, tx, controls := S.Reassemble(front), After(keys, sessionId, front), Controls(front);
      ExtendKeepsFailure(v, S.Last(front), f);
      ReceiverFollows(reliable, sessionId, starts, at, keys, p, front);
      var q := Calls(reliable, sessionId, starts, p, Arrivals(front, sessionId, at));
      CallsSnoc(reliable, sessionId, starts, p, Arrivals(front, sessionId, at), ArrivalOf(f, sessionId, now));
      if f.kind.Rekey? {
        RekeyFollows(reliable, sessionId, starts, q, v, S.Last(front), tx, controls, f, now);
      } else if f.kind.Ping? || f.kind.Pong? {
        ControlFollows(reliable, sessionId, starts, q, v, S.Last(front), tx, controls, f, now);
      } else {
        DataFollows(reliable, sessionId, starts, q, v, S.Last(front), tx, controls, f, now);
      }
    }
  }

  lemma {:induction false} RunKeepsBare(s: S.Sender, actions: seq<S.Action>, sessionId: seq<byte>)
    requires S.StateOk(s) && BareControls(s.log)
    ensures BareControls(S.Run(s, actions, sessionId).log)
    decreases |actions|
  {
    if actions != [] {
      S.StepOk(s, actions[0], sessionId);
      RunKeepsBare(S.Step(s, actions[0], sessionId), actions[1..], sessionId);
    }
  }

  /** Any number of tasks send, ping and rekey concurrently, no event cuts a message, and their
      frames arrive in order, over a stream or as datagrams: the successive calls of the peer's
      `recv` return the messages the tasks sent, in the order in which they held the lock, and
      nothing is left over when the lock is free. */
  lemma ConcurrentSendsAreReceived(keys: KeyPair, actions: seq<S.Action>, sessionId: seq<byte>, reliable: bool, peer: Rx,
                                   starts: nat -> real, at: nat -> real) returns (p: Progress)
    requires S.Undisturbed(S.Established(keys), actions, sessionId) && AllSteady(actions)
    requires Calm(S.Run(S.Established(keys), actions, sessionId).log)
    requires Crossed(peer.keys, keys) && peer.window == EMPTY
    ensures var end := S.Run(S.Established(keys), actions, sessionId);
            && Calls(reliable, sessionId, starts, Progress([], peer, Blank(starts(0))), Arrivals(end.log, sessionId, at)) == p
            && p.results == Payloads(end.finished) && (end.holder.Free? ==> p.local.payload == [] && p.local.frameCount == 0)
            && R.InStep(reliable, p.rx, After(keys, sessionId, end.log))
  {
    var start := S.Established(keys);
    var end := S.Run(start, actions, sessionId);
    S.EstablishedIsWhole(keys);
    S.MessageAtomicity(start, actions, sessionId);
    RunKeepsAligned(keys, sessionId, start, actions);
    RunKeepsBare(start, actions, sessionId);
    ReceiverFollows(reliable, sessionId, starts, at, keys, Progress([], peer, Blank(starts(0))), end.log);
    p := Calls(reliable, sessionId, starts, Progress([], peer, Blank(starts(0))), Arrivals(end.log, sessionId, at));
  }
}
