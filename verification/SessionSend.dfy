/** The transmit side of `USMPSession` as a machine whose steps end at the awaits: any number of
    tasks compete for the send lock, and a received REKEY may rotate the keys at any point. */
module SessionSend {
  import opened Crc16
  import opened Frame
  import opened SymbolicKeys

  const LAST_SEQ: nat := 0xFFFF_FFFF
  const MAX_DATA_LEN: nat := 452
  const MAX_FRAMES: nat := 4

  /** A frame handed to `write_frame`. */
  datatype Sent = Sent(key: Key, seqNo: nat, kind: Kind, chunk: seq<byte>)

  datatype Job =
    | Message(data: seq<byte>, offset: nat)
    | Control(kind: Kind)
    | Rotation(salt: seq<byte>)

  /** Who holds the send lock, and whether it is suspended inside `write_frame`. */
  datatype Holder = Free | Held(job: Job, inFlight: bool)

  datatype Sender = Sender(
    keys: KeyPair,
    txSeq: nat,
    closed: bool,
    byeWaiting: bool,
    holder: Holder,
    log: seq<Sent>,
    finished: seq<seq<byte>>)

  datatype Action =
    | StartMessage(data: seq<byte>)
    | StartPing
    | StartPong
    | StartRekey(salt: seq<byte>)
    | CallBye
    | StartBye
    | AbandonBye
    | Emit
    | WriteOk
    | WriteFails
    | ReceiveRekey(salt: seq<byte>)

  function Chunk(data: seq<byte>, offset: nat): seq<byte>
    requires offset <= |data|
  {
    if offset + MAX_DATA_LEN < |data| then data[offset..offset + MAX_DATA_LEN] else data[offset..]
  }

  predicate IsFragment(data: seq<byte>, offset: nat) {
    offset + MAX_DATA_LEN < |data|
  }

  /** The frame the lock holder writes next. */
  function NextFrame(job: Job): (Kind, seq<byte>)
    requires job.Message? ==> job.offset <= |job.data|
  {
    match job
    case Message(data, offset) =>
      (if IsFragment(data, offset) then DataFrag else Data, Chunk(data, offset))
    case Control(kind) => (kind, [])
    case Rotation(salt) => (Rekey, salt)
  }

  predicate JobOk(job: Job) {
    match job
    case Message(data, offset) => offset <= |data| <= MAX_DATA_LEN * MAX_FRAMES
    case Control(kind) => kind.Ping? || kind.Pong? || kind.Bye?
    case Rotation(_) => true
  }

  predicate StateOk(s: Sender) {
    s.txSeq <= LAST_SEQ && (s.holder.Held? ==> JobOk(s.holder.job))
  }

  function Acquire(s: Sender, job: Job): Sender {
    if s.holder.Free? then s.(holder := Held(job, false)) else s
  }

  /** `_send_encrypted_locked` up to the await: the overflow guard, then the sequence is burned
      and the frame is handed over. */
  function EmitFrame(s: Sender): Sender
    requires StateOk(s)
  {
    if s.holder.Free? || s.holder.inFlight then s
    else
      var (kind, chunk) := NextFrame(s.holder.job);
      if s.txSeq >= LAST_SEQ && !kind.Bye? then s.(holder := Free)
      else s.(
        holder := Held(s.holder.job, true),
        log := s.log + [Sent(s.keys.tx, s.txSeq, kind, chunk)],
        txSeq := if s.txSeq + 1 < LAST_SEQ then s.txSeq + 1 else LAST_SEQ,
        finished := if kind.Data? then s.finished + [s.holder.job.data] else s.finished)
  }

  /** The continuation of the lock holder when `write_frame` returns. */
  function Resume(s: Sender, sessionId: seq<byte>): Sender
    requires StateOk(s)
  {
    if s.holder.Free? || !s.holder.inFlight then s
    else match s.holder.job
      case Message(data, offset) =>
        if IsFragment(data, offset)
        then s.(holder := Held(Message(data, offset + |Chunk(data, offset)|), false))
        else s.(holder := Free)
      case Control(_) => s.(holder := Free)
      case Rotation(salt) => Rotate(s, true, sessionId, salt).(holder := Free)
  }

  function Rotate(s: Sender, isInitiator: bool, sessionId: seq<byte>, salt: seq<byte>): Sender {
    s.(keys := DeriveRekeyKeys(isInitiator, s.keys, sessionId, salt), txSeq := 0)
  }

  /** One step; an action that is not enabled changes nothing. */
  function Step(s: Sender, a: Action, sessionId: seq<byte>): Sender
    requires StateOk(s)
  {
    match a
    case StartMessage(data) =>
      if |data| > MAX_DATA_LEN * MAX_FRAMES then s else Acquire(s, Message(data, 0))
    case StartPing => Acquire(s, Control(Ping))
    case StartPong => Acquire(s, Control(Pong))
    case StartRekey(salt) => Acquire(s, Rotation(salt))
    case CallBye => if s.closed then s else s.(closed := true, byeWaiting := true)
    case StartBye =>
      if s.byeWaiting && s.holder.Free? then Acquire(s, Control(Bye)).(byeWaiting := false) else s
    case AbandonBye => s.(byeWaiting := false)
    case Emit => EmitFrame(s)
    case WriteOk => Resume(s, sessionId)
    case WriteFails => if s.holder.Held? && s.holder.inFlight then s.(holder := Free) else s
    case ReceiveRekey(salt) => Rotate(s, false, sessionId, salt)
  }

  lemma StepOk(s: Sender, a: Action, sessionId: seq<byte>)
    requires StateOk(s)
    ensures StateOk(Step(s, a, sessionId))
  {}

  function Run(s: Sender, actions: seq<Action>, sessionId: seq<byte>): (end: Sender)
    requires StateOk(s)
    ensures StateOk(end)
    decreases |actions|
  {
    if actions == [] then s
    else
      StepOk(s, actions[0], sessionId);
      Run(Step(s, actions[0], sessionId), actions[1..], sessionId)
  }

  function Established(keys: KeyPair): Sender {
    Sender(keys, 0, false, false, Free, [], [])
  }

  // ---------------------------------------------------------------- nonces

  /** seq(4, little-endian) followed by the first eight bytes of the session id. */
  function Nonce(seqNo: nat, sessionId: seq<byte>): seq<byte> {
    Le(seqNo, 4) + (if |sessionId| < 8 then sessionId else sessionId[..8])
  }

  lemma NonceDeterminesSequence(a: nat, b: nat, sessionId: seq<byte>)
    requires a <= LAST_SEQ && b <= LAST_SEQ && Nonce(a, sessionId) == Nonce(b, sessionId)
    ensures a == b
  {
    assert Pow256(4) == 0x1_0000_0000;
    assert Nonce(a, sessionId)[..4] == Le(a, 4) && Nonce(b, sessionId)[..4] == Le(b, 4);
    GetOfLe(a, 4);
    GetOfLe(b, 4);
  }

  predicate ByeOpen(s: Sender) {
    s.byeWaiting || (s.holder.Held? && !s.holder.inFlight && s.holder.job == Control(Bye))
  }

  /** Every frame so far was written under the current key with a smaller sequence, or under a
      smaller key; the only exception is the one BYE the reserved last sequence may carry. */
  ghost predicate Spent(s: Sender) {
    && s.txSeq <= LAST_SEQ
    && (forall i :: 0 <= i < |s.log| ==>
        && s.log[i].seqNo <= LAST_SEQ
        && Size(s.log[i].key) <= Size(s.keys.tx)
        && (s.log[i].key == s.keys.tx ==>
            s.log[i].seqNo < s.txSeq || (s.log[i].kind.Bye? && s.log[i].seqNo == s.txSeq == LAST_SEQ)))
    && (forall i :: 0 <= i < |s.log| && s.log[i].kind.Bye? ==> s.closed && !ByeOpen(s))
    && (ByeOpen(s) ==> s.closed && !(s.byeWaiting && s.holder == Held(Control(Bye), false)))
  }

  ghost predicate Unrepeated(log: seq<Sent>) {
    forall i, j :: 0 <= i < j < |log| ==> log[i].key != log[j].key || log[i].seqNo != log[j].seqNo
  }

  lemma EmitKeepsUnique(s: Sender)
    requires StateOk(s) && Spent(s) && Unrepeated(s.log)
    ensures Spent(EmitFrame(s)) && Unrepeated(EmitFrame(s).log)
  {}

  lemma RotateKeepsUnique(s: Sender, isInitiator: bool, sessionId: seq<byte>, salt: seq<byte>)
    requires StateOk(s) && Spent(s) && Unrepeated(s.log)
    ensures Spent(Rotate(s, isInitiator, sessionId, salt))
  {
    RekeyGrows(isInitiator, s.keys, sessionId, salt);
  }

  lemma ResumeKeepsUnique(s: Sender, sessionId: seq<byte>)
    requires StateOk(s) && Spent(s) && Unrepeated(s.log)
    ensures Spent(Resume(s, sessionId)) && Resume(s, sessionId).log == s.log
  {
    if s.holder.Held? && s.holder.inFlight && s.holder.job.Rotation? {
      RotateKeepsUnique(s, true, sessionId, s.holder.job.salt);
    }
  }

  lemma ByeStepsKeepUnique(s: Sender, a: Action, sessionId: seq<byte>)
    requires StateOk(s) && Spent(s)
    requires a.CallBye? || a.StartBye? || a.AbandonBye?
    ensures Spent(Step(s, a, sessionId)) && Step(s, a, sessionId).log == s.log
  {}

  lemma StepKeepsUnique(s: Sender, a: Action, sessionId: seq<byte>)
    requires StateOk(s) && Spent(s) && Unrepeated(s.log)
    ensures Spent(Step(s, a, sessionId)) && Unrepeated(Step(s, a, sessionId).log)
  {
    match a
    case Emit => EmitKeepsUnique(s);
    case ReceiveRekey(salt) => RotateKeepsUnique(s, false, sessionId, salt);
    case WriteOk => ResumeKeepsUnique(s, sessionId);
    case CallBye => ByeStepsKeepUnique(s, a, sessionId);
    case StartBye => ByeStepsKeepUnique(s, a, sessionId);
    case AbandonBye => ByeStepsKeepUnique(s, a, sessionId);
    case _ =>
  }

  lemma {:induction false} RunKeepsUnique(s: Sender, actions: seq<Action>, sessionId: seq<byte>)
    requires StateOk(s) && Spent(s) && Unrepeated(s.log)
    ensures Spent(Run(s, actions, sessionId)) && Unrepeated(Run(s, actions, sessionId).log)
    decreases |actions|
  {
    if actions != [] {
      StepOk(s, actions[0], sessionId);
      StepKeepsUnique(s, actions[0], sessionId);
      RunKeepsUnique(Step(s, actions[0], sessionId), actions[1..], sessionId);
    }
  }

  /** In every interleaving of sends, pings, pongs, byes and rekeys from either side, with
      writes that succeed, fail or are cancelled, no two frames share a key and a nonce. */
  lemma NonceUniqueness(keys: KeyPair, actions: seq<Action>, sessionId: seq<byte>, i: nat, j: nat)
    requires i < j < |Run(Established(keys), actions, sessionId).log|
    ensures var log := Run(Established(keys), actions, sessionId).log;
            log[i].key == log[j].key ==> Nonce(log[i].seqNo, sessionId) != Nonce(log[j].seqNo, sessionId)
  {
    RunKeepsUnique(Established(keys), actions, sessionId);
    var log := Run(Established(keys), actions, sessionId).log;
    if log[i].key == log[j].key && Nonce(log[i].seqNo, sessionId) == Nonce(log[j].seqNo, sessionId) {
      NonceDeterminesSequence(log[i].seqNo, log[j].seqNo, sessionId);
    }
  }

  // ---------------------------------------------------------------- message atomicity

  /** What a peer that reassembles by consecutive sequences makes of the frames on the wire. */
  datatype View = View(ok: bool, messages: seq<seq<byte>>, partial: seq<byte>, frames: nat)

  function Extend(v: View, previous: Option<Sent>, f: Sent): View {
    var follows := v.frames == 0 ||
                   (previous.Some? && previous.value.key == f.key && previous.value.seqNo + 1 == f.seqNo);
    match f.kind
    case Data =>
      if follows && v.frames < MAX_FRAMES then View(v.ok, v.messages + [v.partial + f.chunk], [], 0) else v.(ok := false)
    case DataFrag =>
      if follows && v.frames + 1 < MAX_FRAMES then v.(partial := v.partial + f.chunk, frames := v.frames + 1)
      else v.(ok := false)
    case _ => if v.frames == 0 then v else v.(ok := false)
  }

  function Last(log: seq<Sent>): Option<Sent> {
    if |log| == 0 then None else Some(log[|log| - 1])
  }

  /** The log as the peer reads it: whole blocks of DATA_FRAG* DATA with consecutive sequences
      under one key, control frames only between blocks. */
  function Reassemble(log: seq<Sent>): View {
    if |log| == 0 then View(true, [], [], 0)
    else
      var front := log[..|log| - 1];
      Extend(Reassemble(front), Last(front), log[|log| - 1])
  }

  function Fragments(data: seq<byte>): nat {
    if |data| == 0 then 1 else (|data| + MAX_DATA_LEN - 1) / MAX_DATA_LEN
  }

  /** Part of a message is on the wire and its final frame is not. */
  predicate MidMessage(s: Sender) {
    s.holder.Held? && s.holder.job.Message? && JobOk(s.holder.job)
    && if s.holder.inFlight then IsFragment(s.holder.job.data, s.holder.job.offset) else s.holder.job.offset > 0
  }

  /** An action that a caller or the network can make at a moment when it would cut a message
      in two: a failed write or a received REKEY inside it, or starting it with some, but too
      few, sequence numbers left. */
  predicate Disrupts(s: Sender, a: Action) {
    || (a.WriteFails? && MidMessage(s))
    || (a.ReceiveRekey? && MidMessage(s))
    || (a.StartMessage? && s.holder.Free? && |a.data| <= MAX_DATA_LEN * MAX_FRAMES && 0 < LAST_SEQ - s.txSeq < Fragments(a.data))
  }

  predicate Undisturbed(s: Sender, actions: seq<Action>, sessionId: seq<byte>)
    requires StateOk(s)
    decreases |actions|
  {
    actions == [] ||
    (!Disrupts(s, actions[0]) &&
     (StepOk(s, actions[0], sessionId); Undisturbed(Step(s, actions[0], sessionId), actions[1..], sessionId)))
  }

  /** How many frames of the current message are written. */
  function Written(job: Job, inFlight: bool): nat
    requires job.Message?
  {
    job.offset / MAX_DATA_LEN + if inFlight then 1 else 0
  }

  /** The peer's view of the log agrees with what the lock holder has done so far. */
  ghost predicate Whole(s: Sender) {
    var v := Reassemble(s.log);
    && StateOk(s)
    && v.ok && v.messages == s.finished
    && (!MidMessage(s) ==> v.frames == 0 && v.partial == [])
    && (s.holder.Held? && s.holder.job.Message? ==>
        var data, offset := s.holder.job.data, s.holder.job.offset;
        && offset % MAX_DATA_LEN == 0
        && (!s.holder.inFlight ==> offset == 0 || offset < |data|)
        && (!s.holder.inFlight ==>
            Fragments(data) - offset / MAX_DATA_LEN <= LAST_SEQ - s.txSeq || (offset == 0 && s.txSeq == LAST_SEQ))
        && (s.holder.inFlight && IsFragment(data, offset) ==>
            Fragments(data) - offset / MAX_DATA_LEN - 1 <= LAST_SEQ - s.txSeq))
    && (MidMessage(s) ==>
        var data, offset := s.holder.job.data, s.holder.job.offset;
        var through := if s.holder.inFlight then offset + MAX_DATA_LEN else offset;
        && v.partial == data[..through] && v.frames == through / MAX_DATA_LEN
        && |s.log| > 0 && s.log[|s.log| - 1].key == s.keys.tx
        && s.log[|s.log| - 1].seqNo + 1 == s.txSeq)
  }

  lemma FragmentArithmetic(data: seq<byte>, offset: nat)
    requires offset % MAX_DATA_LEN == 0 && offset <= |data| <= MAX_DATA_LEN * MAX_FRAMES
    ensures (offset + MAX_DATA_LEN) / MAX_DATA_LEN == offset / MAX_DATA_LEN + 1
    ensures offset == MAX_DATA_LEN * (offset / MAX_DATA_LEN)
    ensures IsFragment(data, offset) ==> Fragments(data) - offset / MAX_DATA_LEN >= 2 && offset / MAX_DATA_LEN + 1 < MAX_FRAMES
    ensures offset == 0 || offset < |data| ==> Fragments(data) - offset / MAX_DATA_LEN >= 1 && offset / MAX_DATA_LEN < MAX_FRAMES
  {}

  lemma ReassembleSnoc(log: seq<Sent>, f: Sent)
    ensures Reassemble(log + [f]) == Extend(Reassemble(log), Last(log), f)
  {
    assert (log + [f])[..|log|] == log;
  }

  lemma ChunkExtendsPrefix(data: seq<byte>, offset: nat)
    requires offset <= |data|
    ensures IsFragment(data, offset) ==> data[..offset] + Chunk(data, offset) == data[..offset + MAX_DATA_LEN]
    ensures !IsFragment(data, offset) ==> data[..offset] + Chunk(data, offset) == data
    ensures data[..0] == []
  {}

  lemma EmitFragmentKeepsWhole(s: Sender)
    requires Whole(s) && s.holder.Held? && !s.holder.inFlight && s.holder.job.Message?
    requires IsFragment(s.holder.job.data, s.holder.job.offset)
    ensures Whole(EmitFrame(s))
  {
    var data, offset := s.holder.job.data, s.holder.job.offset;
    FragmentArithmetic(data, offset);
    if s.txSeq < LAST_SEQ {
      ChunkExtendsPrefix(data, offset);
      var f := Sent(s.keys.tx, s.txSeq, DataFrag, Chunk(data, offset));
      ReassembleSnoc(s.log, f);
      assert EmitFrame(s).log == s.log + [f];
    }
  }

  lemma EmitFinalKeepsWhole(s: Sender)
    requires Whole(s) && s.holder.Held? && !s.holder.inFlight && s.holder.job.Message?
    requires !IsFragment(s.holder.job.data, s.holder.job.offset)
    ensures Whole(EmitFrame(s))
  {
    var data, offset := s.holder.job.data, s.holder.job.offset;
    FragmentArithmetic(data, offset);
    if s.txSeq < LAST_SEQ {
      ChunkExtendsPrefix(data, offset);
      var f := Sent(s.keys.tx, s.txSeq, Data, Chunk(data, offset));
      ReassembleSnoc(s.log, f);
      assert EmitFrame(s).log == s.log + [f];
    }
  }

  lemma EmitOtherKeepsWhole(s: Sender)
    requires Whole(s) && s.holder.Held? && !s.holder.inFlight && !s.holder.job.Message?
    ensures Whole(EmitFrame(s))
  {
    var (kind, chunk) := NextFrame(s.holder.job);
    ReassembleSnoc(s.log, Sent(s.keys.tx, s.txSeq, kind, chunk));
  }

  lemma EmitKeepsWhole(s: Sender)
    requires Whole(s)
    ensures Whole(EmitFrame(s))
  {
    if s.holder.Held? && !s.holder.inFlight {
      if !s.holder.job.Message? {
        EmitOtherKeepsWhole(s);
      } else if IsFragment(s.holder.job.data, s.holder.job.offset) {
        EmitFragmentKeepsWhole(s);
      } else {
        EmitFinalKeepsWhole(s);
      }
    }
  }

  lemma ResumeMessageKeepsWhole(s: Sender, sessionId: seq<byte>)
    requires Whole(s) && s.holder.Held? && s.holder.inFlight && s.holder.job.Message?
    ensures Whole(Resume(s, sessionId))
  {
    var data, offset := s.holder.job.data, s.holder.job.offset;
    FragmentArithmetic(data, offset);
    if IsFragment(data, offset) {
      assert Resume(s, sessionId) == s.(holder := Held(Message(data, offset + MAX_DATA_LEN), false));
      assert (offset + MAX_DATA_LEN) % MAX_DATA_LEN == 0;
    }
  }

  lemma ResumeKeepsWhole(s: Sender, sessionId: seq<byte>)
    requires Whole(s)
    ensures Whole(Resume(s, sessionId))
  {
    if s.holder.Held? && s.holder.inFlight && s.holder.job.Message? {
      ResumeMessageKeepsWhole(s, sessionId);
    }
  }

  lemma StepKeepsWhole(s: Sender, a: Action, sessionId: seq<byte>)
    requires Whole(s) && !Disrupts(s, a)
    ensures Whole(Step(s, a, sessionId))
  {
    match a
    case Emit => EmitKeepsWhole(s);
    case WriteOk => ResumeKeepsWhole(s, sessionId);
    case _ =>
  }

  /** In every undisturbed interleaving the wire carries whole blocks only, and their payloads
      are the messages of the callers in the order in which they held the lock; with the lock
      free nothing is left over. */
  lemma {:induction false} MessageAtomicity(s: Sender, actions: seq<Action>, sessionId: seq<byte>)
    requires Whole(s) && Undisturbed(s, actions, sessionId)
    ensures var end := Run(s, actions, sessionId);
            var v := Reassemble(end.log);
            v.ok && v.messages == end.finished && (end.holder.Free? ==> v.frames == 0 && v.partial == [])
    decreases |actions|
  {
    if actions != [] {
      StepOk(s, actions[0], sessionId);
      StepKeepsWhole(s, actions[0], sessionId);
      MessageAtomicity(Step(s, actions[0], sessionId), actions[1..], sessionId);
    }
  }

  lemma EstablishedIsWhole(keys: KeyPair)
    ensures Whole(Established(keys))
  {}

  /** `n` frames written one after the other by the task that holds the lock. */
  function Drive(s: Sender, n: nat, sessionId: seq<byte>): (end: Sender)
    requires StateOk(s)
    ensures StateOk(end)
    decreases n
  {
    if n == 0 then s
    else
      StepOk(s, Emit, sessionId);
      StepOk(EmitFrame(s), WriteOk, sessionId);
      Drive(Resume(EmitFrame(s), sessionId), n - 1, sessionId)
  }

  predicate EndsInFragment(log: seq<Sent>) {
    |log| > 0 && log[|log| - 1].kind == DataFrag
  }

  lemma {:induction false} DriveFragments(s: Sender, data: seq<byte>, offset: nat, n: nat, sessionId: seq<byte>)
    requires StateOk(s) && s.holder == Held(Message(data, offset), false)
    requires n <= LAST_SEQ - s.txSeq && offset + n * MAX_DATA_LEN < |data|
    ensures var end := Drive(s, n, sessionId);
            && end.holder == Held(Message(data, offset + n * MAX_DATA_LEN), false)
            && end.txSeq == s.txSeq + n
            && (n > 0 ==> EndsInFragment(end.log))
            && (n == 0 ==> end == s)
    decreases n
  {
    if n > 0 {
      var next := Resume(EmitFrame(s), sessionId);
      assert IsFragment(data, offset);
      assert next.holder == Held(Message(data, offset + MAX_DATA_LEN), false);
      DriveFragments(next, data, offset + MAX_DATA_LEN, n - 1, sessionId);
    }
  }

  lemma FragmentEndIsUnfinished(log: seq<Sent>)
    requires EndsInFragment(log)
    ensures !(Reassemble(log).ok && Reassemble(log).frames == 0)
  {}

  /** The guard is needed: `send` does not count the sequence numbers it will use, so a message
      begun with some but too few left is always cut, and the lock is released with its
      fragments dangling on the wire. */
  lemma ShortOfSequencesCutsMessage(s: Sender, data: seq<byte>, sessionId: seq<byte>)
    requires StateOk(s) && s.holder.Free? && |data| <= MAX_DATA_LEN * MAX_FRAMES
    requires 0 < LAST_SEQ - s.txSeq < Fragments(data)
    ensures var room := LAST_SEQ - s.txSeq;
            var end := EmitFrame(Drive(Step(s, StartMessage(data), sessionId), room, sessionId));
            end.holder.Free? && EndsInFragment(end.log)
            && !(Reassemble(end.log).ok && Reassemble(end.log).frames == 0)
  {
    var room := LAST_SEQ - s.txSeq;
    assert room * MAX_DATA_LEN < |data|;
    DriveFragments(Step(s, StartMessage(data), sessionId), data, 0, room, sessionId);
    FragmentEndIsUnfinished(Drive(Step(s, StartMessage(data), sessionId), room, sessionId).log);
  }

  /** So are the other two: a failed write inside a message frees the lock with fragments
      dangling, and after a REKEY received inside one the peer cannot join the rest on. */
  lemma FailedWriteCutsMessage(s: Sender, sessionId: seq<byte>)
    requires Whole(s) && MidMessage(s) && s.holder.inFlight
    ensures var end := Step(s, WriteFails, sessionId);
            end.holder.Free? && Reassemble(end.log).frames > 0
  {
    FragmentArithmetic(s.holder.job.data, s.holder.job.offset);
  }

  lemma ReceivedRekeyCutsMessage(s: Sender, salt: seq<byte>, sessionId: seq<byte>)
    requires Whole(s) && MidMessage(s)
    ensures !Reassemble(EmitFrame(Resume(Rotate(s, false, sessionId, salt), sessionId)).log).ok
  {
    var data, offset := s.holder.job.data, s.holder.job.offset;
    FragmentArithmetic(data, offset);
    RekeyGrows(false, s.keys, sessionId, salt);
    var next := Resume(Rotate(s, false, sessionId, salt), sessionId);
    var (kind, chunk) := NextFrame(next.holder.job);
    ReassembleSnoc(s.log, Sent(next.keys.tx, 0, kind, chunk));
    assert EmitFrame(next).log == s.log + [Sent(next.keys.tx, 0, kind, chunk)];
  }
}
