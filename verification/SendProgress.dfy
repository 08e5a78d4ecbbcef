/** What a task that gets the send lock achieves, whatever the other tasks attempt meanwhile: its
    whole message goes out, and nothing else does. */
module SendProgress {
  import opened Crc16
  import opened SymbolicKeys
  import opened SessionSend
  import CT = CoreTransmit

  /** What other tasks can do while the lock is held; all of them have to wait. */
  predicate OfOthers(a: Action) {
    a.StartMessage? || a.StartPing? || a.StartPong? || a.StartRekey? || a.CallBye? || a.StartBye? || a.AbandonBye?
  }

  /** Exactly `n` frames written by the lock holder, each write returning, with any actions of
      other tasks before, between and inside them. */
  predicate Writes(actions: seq<Action>, n: nat, inFlight: bool)
    decreases |actions|
  {
    if n == 0 then |actions| == 0
    else
      && |actions| > 0
      && if OfOthers(actions[0]) then Writes(actions[1..], n, inFlight)
         else if inFlight then actions[0] == WriteOk && Writes(actions[1..], n - 1, false)
         else actions[0] == Emit && Writes(actions[1..], n, true)
  }

  /** The frames written, as they are sealed. */
  function Wire(log: seq<Sent>, sessionId: seq<byte>): seq<Box> {
    if |log| == 0 then [] else Wire(log[..|log| - 1], sessionId) + [SealOf(log[|log| - 1], sessionId)]
  }

  function SealOf(f: Sent, sessionId: seq<byte>): Box { Seal(f.key, f.seqNo, sessionId, f.kind, f.chunk) }

  lemma WireSnoc(log: seq<Sent>, f: Sent, sessionId: seq<byte>)
    ensures Wire(log + [f], sessionId) == Wire(log, sessionId) + [SealOf(f, sessionId)]
  {
    assert (log + [f])[..|log|] == log;
  }

  /** Everything but the flags of `bye`, which any task may set. */
  predicate SameButBye(s: Sender, t: Sender) {
    t == s.(closed := t.closed, byeWaiting := t.byeWaiting)
  }

  /** The others leave the sender alone while the lock is held. */
  lemma OthersWait(s: Sender, a: Action, sessionId: seq<byte>)
    requires StateOk(s) && s.holder.Held? && OfOthers(a)
    ensures SameButBye(s, Step(s, a, sessionId))
  {}

  /** The holder, between two frames, up to the moment it hands one over or the write returns. */
  lemma {:induction false} UntilItsTurn(s: Sender, actions: seq<Action>, n: nat, sessionId: seq<byte>) returns (t: Sender, rest: seq<Action>)
    requires StateOk(s) && s.holder.Held? && n > 0 && Writes(actions, n, s.holder.inFlight)
    ensures StateOk(t) && SameButBye(s, t) && |rest| > 0 && |rest| <= |actions|
    ensures if s.holder.inFlight then rest[0] == WriteOk && Writes(rest[1..], n - 1, false)
            else rest[0] == Emit && Writes(rest[1..], n, true)
    ensures Run(s, actions, sessionId) == Run(t, rest, sessionId)
    decreases |actions|
  {
    if OfOthers(actions[0]) {
      OthersWait(s, actions[0], sessionId);
      StepOk(s, actions[0], sessionId);
      t, rest := UntilItsTurn(Step(s, actions[0], sessionId), actions[1..], n, sessionId);
    } else {
      t, rest := s, actions;
    }
  }

  /** The state after the holder's next frame has been written. */
  function OneWritten(s: Sender, sessionId: seq<byte>): Sender
    requires StateOk(s)
  {
    StepOk(s, Emit, sessionId);
    Resume(EmitFrame(s), sessionId)
  }

  lemma EmitSame(s: Sender, t: Sender)
    requires StateOk(s) && StateOk(t) && SameButBye(s, t)
    ensures SameButBye(EmitFrame(s), EmitFrame(t))
  {}

  lemma ResumeSame(s: Sender, t: Sender, sessionId: seq<byte>)
    requires StateOk(s) && StateOk(t) && SameButBye(s, t)
    ensures SameButBye(Resume(s, sessionId), Resume(t, sessionId))
  {}

  lemma HandsOver(s: Sender)
    requires StateOk(s) && s.holder.Held? && !s.holder.inFlight && (s.txSeq < LAST_SEQ || s.holder.job == Control(Bye))
    ensures EmitFrame(s).holder == Held(s.holder.job, true)
  {}

  lemma OneFrame(s: Sender, actions: seq<Action>, n: nat, sessionId: seq<byte>) returns (t: Sender, rest: seq<Action>)
    requires StateOk(s) && s.holder.Held? && !s.holder.inFlight && n > 0 && Writes(actions, n, false)
    requires s.txSeq < LAST_SEQ || s.holder.job == Control(Bye)
    ensures StateOk(t) && SameButBye(OneWritten(s, sessionId), t) && |rest| < |actions| && Writes(rest, n - 1, false)
    ensures Run(s, actions, sessionId) == Run(t, rest, sessionId)
  {
    var s1, rest1 := UntilItsTurn(s, actions, n, sessionId);
    StepOk(s, Emit, sessionId);
    StepOk(s1, Emit, sessionId);
    EmitSame(s, s1);
    HandsOver(s1);
    var s2, rest2 := UntilItsTurn(EmitFrame(s1), rest1[1..], n, sessionId);
    StepOk(s2, WriteOk, sessionId);
    ResumeSame(EmitFrame(s), s2, sessionId);
    t, rest := Resume(s2, sessionId), rest2[1..];
  }

  /** From `s` the frames of the message from `offset` on went out, in order and under the next
      sequences, and nothing else; the lock is free and the message counts as sent. */
  ghost predicate Delivers(s: Sender, end: Sender, sessionId: seq<byte>, data: seq<byte>, offset: nat)
    requires offset <= |data|
  {
    var boxes := CT.Boxes(s.keys.tx, s.txSeq, sessionId, data, offset);
    && end.holder.Free? && end.keys == s.keys && end.txSeq == s.txSeq + |boxes|
    && Wire(end.log, sessionId) == Wire(s.log, sessionId) + boxes
    && end.finished == s.finished + [data]
  }

  /** The number of frames from `offset` on. */
  function Frames(data: seq<byte>, offset: nat): nat
    decreases |data| - offset
  {
    if offset + MAX_DATA_LEN < |data| then 1 + Frames(data, offset + MAX_DATA_LEN) else 1
  }

  lemma {:induction false} FramesCounted(key: Key, seqNo: nat, sessionId: seq<byte>, data: seq<byte>, offset: nat)
    requires offset <= |data|
    ensures |CT.Boxes(key, seqNo, sessionId, data, offset)| == Frames(data, offset)
    decreases |data| - offset
  {
    if IsFragment(data, offset) {
      FramesCounted(key, seqNo + 1, sessionId, data, offset + MAX_DATA_LEN);
    }
  }

  /** One more frame of the message. */
  lemma MessageFrame(s: Sender, data: seq<byte>, offset: nat, sessionId: seq<byte>)
    requires StateOk(s) && s.holder == Held(Message(data, offset), false) && offset <= |data| && s.txSeq < LAST_SEQ
    ensures var t := OneWritten(s, sessionId);
            var box := Seal(s.keys.tx, s.txSeq, sessionId, if IsFragment(data, offset) then DataFrag else Data, Chunk(data, offset));
            && t.keys == s.keys && t.txSeq == s.txSeq + 1 && Wire(t.log, sessionId) == Wire(s.log, sessionId) + [box]
            && if IsFragment(data, offset)
               then t.holder == Held(Message(data, offset + MAX_DATA_LEN), false) && t.finished == s.finished
               else t.holder.Free? && t.finished == s.finished + [data]
  {
    var f := Sent(s.keys.tx, s.txSeq, if IsFragment(data, offset) then DataFrag else Data, Chunk(data, offset));
    assert EmitFrame(s).log == s.log + [f];
    WireSnoc(s.log, f, sessionId);
  }

  lemma {:induction false} RestIsSent(s: Sender, data: seq<byte>, offset: nat, actions: seq<Action>, sessionId: seq<byte>)
    requires StateOk(s) && offset <= |data| && s.holder == Held(Message(data, offset), false)
    requires Writes(actions, Frames(data, offset), false) && s.txSeq + Frames(data, offset) <= LAST_SEQ
    ensures Delivers(s, Run(s, actions, sessionId), sessionId, data, offset)
    decreases |data| - offset
  {
    var t, rest := OneFrame(s, actions, Frames(data, offset), sessionId);
    MessageFrame(s, data, offset, sessionId);
    if IsFragment(data, offset) {
      RestIsSent(t, data, offset + MAX_DATA_LEN, rest, sessionId);
      DeliversMore(s, t, Run(t, rest, sessionId), sessionId, data, offset);
    } else {
      assert rest == [];
    }
  }

  lemma DeliversMore(s: Sender, t: Sender, end: Sender, sessionId: seq<byte>, data: seq<byte>, offset: nat)
    requires offset <= |data| && IsFragment(data, offset) && Delivers(t, end, sessionId, data, offset + MAX_DATA_LEN)
    requires t.keys == s.keys && t.txSeq == s.txSeq + 1 && t.finished == s.finished
    requires Wire(t.log, sessionId) == Wire(s.log, sessionId) + [Seal(s.keys.tx, s.txSeq, sessionId, DataFrag, Chunk(data, offset))]
    ensures Delivers(s, end, sessionId, data, offset)
  {
    var first := Seal(s.keys.tx, s.txSeq, sessionId, DataFrag, Chunk(data, offset));
    var rest := CT.Boxes(s.keys.tx, s.txSeq + 1, sessionId, data, offset + MAX_DATA_LEN);
    assert CT.Boxes(s.keys.tx, s.txSeq, sessionId, data, offset) == [first] + rest;
    CT.Assoc(Wire(s.log, sessionId), [first], rest);
  }

  lemma {:induction false} FragmentsAreFrames(data: seq<byte>, offset: nat)
    requires offset % MAX_DATA_LEN == 0 && (offset == 0 || offset < |data|)
    ensures Frames(data, offset) == Fragments(data) - offset / MAX_DATA_LEN
    decreases |data| - offset
  {
    if offset + MAX_DATA_LEN < |data| {
      FragmentsAreFrames(data, offset + MAX_DATA_LEN);
    }
  }

  /** A task that finds the lock free, with a message that fits and sequences enough for it, and
      whose writes return, sends its message: the frames that carry it, and nothing else, go out
      under the next sequences, whatever other tasks try before, between and inside the writes; and
      the lock is free again. */
  lemma MessageIsSent(s: Sender, data: seq<byte>, actions: seq<Action>, sessionId: seq<byte>)
    requires StateOk(s) && s.holder.Free? && |data| <= 1808
    requires s.txSeq + Fragments(data) <= 0xFFFF_FFFF && Writes(actions, Fragments(data), false)
    ensures var end := Run(s, [StartMessage(data)] + actions, sessionId);
            var boxes := CT.Boxes(s.keys.tx, s.txSeq, sessionId, data, 0);
            && end.holder.Free? && end.finished == s.finished + [data]
            && Wire(end.log, sessionId) == Wire(s.log, sessionId) + boxes
            && |boxes| == Fragments(data) && end.keys == s.keys && end.txSeq == s.txSeq + Fragments(data)
  {
    StepOk(s, StartMessage(data), sessionId);
    var t := Step(s, StartMessage(data), sessionId);
    assert ([StartMessage(data)] + actions)[1..] == actions;
    FragmentsAreFrames(data, 0);
    FramesCounted(s.keys.tx, s.txSeq, sessionId, data, 0);
    RestIsSent(t, data, 0, actions, sessionId);
  }

  /** A job of one frame, from taking the lock on. */
  lemma SingleFrame(s: Sender, start: Action, actions: seq<Action>, sessionId: seq<byte>) returns (t: Sender)
    requires StateOk(s) && Writes(actions, 1, false)
    requires var h := Step(s, start, sessionId).holder; h.Held? && !h.inFlight && !h.job.Message?
    requires s.txSeq < LAST_SEQ || start.StartBye?
    requires Step(s, start, sessionId).txSeq == s.txSeq && (start.StartBye? ==> Step(s, start, sessionId).holder.job == Control(Bye))
    ensures t == Step(s, start, sessionId) && StateOk(t)
    ensures SameButBye(OneWritten(t, sessionId), Run(s, [start] + actions, sessionId))
  {
    StepOk(s, start, sessionId);
    t := Step(s, start, sessionId);
    assert ([start] + actions)[1..] == actions;
    var u, rest := OneFrame(t, actions, 1, sessionId);
    assert Run(u, rest, sessionId) == u;
  }

  /** What writing that frame comes to. */
  lemma SingleWritten(t: Sender, kind: Kind, chunk: seq<byte>, sessionId: seq<byte>)
    requires StateOk(t) && t.holder.Held? && !t.holder.inFlight && !t.holder.job.Message? && NextFrame(t.holder.job) == (kind, chunk)
    requires t.txSeq < LAST_SEQ || kind == Bye
    ensures var u := OneWritten(t, sessionId);
            && u.holder.Free? && u.finished == t.finished
            && Wire(u.log, sessionId) == Wire(t.log, sessionId) + [Seal(t.keys.tx, t.txSeq, sessionId, kind, chunk)]
            && (t.holder.job.Control? ==> u.keys == t.keys && u.txSeq == if t.txSeq < LAST_SEQ then t.txSeq + 1 else LAST_SEQ)
            && (t.holder.job.Rotation? ==> u.keys == DeriveRekeyKeys(true, t.keys, sessionId, chunk) && u.txSeq == 0)
  {
    assert EmitFrame(t).log == t.log + [Sent(t.keys.tx, t.txSeq, kind, chunk)];
    WireSnoc(t.log, Sent(t.keys.tx, t.txSeq, kind, chunk), sessionId);
  }

  /** The same for a PING or a PONG, one empty frame. */
  lemma ControlIsSent(s: Sender, kind: Kind, actions: seq<Action>, sessionId: seq<byte>)
    requires StateOk(s) && s.holder.Free? && s.txSeq < LAST_SEQ && Writes(actions, 1, false) && (kind == Ping || kind == Pong)
    ensures var end := Run(s, [if kind == Ping then StartPing else StartPong] + actions, sessionId);
            && end.holder.Free? && end.finished == s.finished && end.keys == s.keys && end.txSeq == s.txSeq + 1
            && Wire(end.log, sessionId) == Wire(s.log, sessionId) + [Seal(s.keys.tx, s.txSeq, sessionId, kind, [])]
  {
    var t := SingleFrame(s, if kind == Ping then StartPing else StartPong, actions, sessionId);
    SingleWritten(t, kind, [], sessionId);
  }

  /** A rekey: the salt goes out under the old key, and then the sequence starts again and the keys
      are those of a peer that follows. */
  lemma RekeyIsSent(s: Sender, salt: seq<byte>, actions: seq<Action>, sessionId: seq<byte>)
    requires StateOk(s) && s.holder.Free? && s.txSeq < LAST_SEQ && Writes(actions, 1, false)
    ensures var end := Run(s, [StartRekey(salt)] + actions, sessionId);
            && end.holder.Free? && end.finished == s.finished && end.txSeq == 0
            && Wire(end.log, sessionId) == Wire(s.log, sessionId) + [Seal(s.keys.tx, s.txSeq, sessionId, Rekey, salt)]
            && forall peer: KeyPair :: Crossed(s.keys, peer) ==> Crossed(end.keys, DeriveRekeyKeys(false, peer, sessionId, salt))
  {
    var t := SingleFrame(s, StartRekey(salt), actions, sessionId);
    SingleWritten(t, Rekey, salt, sessionId);
    forall peer: KeyPair | Crossed(s.keys, peer)
      ensures Crossed(DeriveRekeyKeys(true, s.keys, sessionId, salt), DeriveRekeyKeys(false, peer, sessionId, salt))
    {
      RekeyKeepsCrossed(s.keys, peer, sessionId, salt);
    }
  }

  /** A rekey received at any moment, with or without the lock held: the sender goes on as the one
      that has followed, from sequence 0. */
  lemma ReceivedRekeyFollows(s: Sender, salt: seq<byte>, sessionId: seq<byte>, peer: KeyPair)
    requires StateOk(s) && Crossed(peer, s.keys)
    ensures var t := Step(s, ReceiveRekey(salt), sessionId);
            && Crossed(DeriveRekeyKeys(true, peer, sessionId, salt), t.keys) && t.txSeq == 0
            && t.holder == s.holder && t.log == s.log && t.finished == s.finished
  {
    RekeyKeepsCrossed(peer, s.keys, sessionId, salt);
  }

  /** The one BYE of a `bye()` goes out too, even when only the reserved last number is left. */
  lemma ByeIsSent(s: Sender, actions: seq<Action>, sessionId: seq<byte>)
    requires StateOk(s) && s.holder.Free? && s.byeWaiting && Writes(actions, 1, false)
    ensures var end := Run(s, [StartBye] + actions, sessionId);
            && end.holder.Free? && end.finished == s.finished && end.keys == s.keys
            && Wire(end.log, sessionId) == Wire(s.log, sessionId) + [Seal(s.keys.tx, s.txSeq, sessionId, Bye, [])]
  {
    var t := SingleFrame(s, StartBye, actions, sessionId);
    SingleWritten(t, Bye, [], sessionId);
  }

  /** With the sequences spent, the lock is given back and nothing goes out, except that a BYE
      still has the reserved last number, once. */
  lemma SpentSendsNothing(s: Sender, sessionId: seq<byte>)
    requires StateOk(s) && s.holder.Held? && !s.holder.inFlight && s.txSeq == LAST_SEQ
    ensures var t := OneWritten(s, sessionId);
            && t.holder.Free? && t.keys == s.keys && t.txSeq == LAST_SEQ && t.finished == s.finished
            && t.log == if s.holder.job == Control(Bye) then s.log + [Sent(s.keys.tx, LAST_SEQ, Bye, [])] else s.log
  {}
}
