/** `usmp_recv`: one call reads the transport at most ten times and reassembles one message in
    the caller's buffer. */
module CoreReceive {
  import opened Crc16
  import opened Frame
  import opened SymbolicKeys
  import opened ReplayWindow
  import opened CoreTransmit
  import S = SessionSend

  const MAX_ATTEMPTS: nat := 10
  const MAX_CONTROL: nat := 8
  const SCRATCH: nat := 32
  const SALT_LEN: nat := 32

  /** One answer of the transport, parsed. `more` says whether, right after it, `available`
      reports further bytes (or the transport cannot tell). */
  datatype Reading =
    | ReadFailed
    | Unparsed
    | Parsed(kind: Kind, seqNo: uint32, length: nat, box: Box, more: bool)

  /** The local variables of the call; `parts` are the data frames accepted so far. */
  datatype Local = Local(payload: seq<byte>, parts: seq<Box>, ctrlCount: nat, expected: nat)

  const BLANK := Local([], [], 0, 0)

  datatype Verdict = Again | Finish(code: int)

  datatype Turn = Turn(core: Core, local: Local, verdict: Verdict)

  /** A frame that cannot be used: skipped on datagrams, an error on a stream. */
  function Skip(datagrams: bool, c: Core, l: Local): Turn {
    Turn(c, l, if datagrams then Again else Finish(-1))
  }

  function Drop(c: Core, l: Local): Turn { Turn(c.(established := false), l, Finish(-1)) }

  /** How many plaintext bytes the destination of this frame type holds; none if the type may
      not appear now. */
  function Capacity(l: Local, maxLen: nat, kind: Kind): Option<nat> {
    match kind
    case Data => if |l.payload| <= maxLen then Some(maxLen - |l.payload|) else None
    case DataFrag => if |l.payload| <= maxLen then Some(maxLen - |l.payload|) else None
    case Other(_) => None
    case _ => if |l.payload| > 0 then None else Some(SCRATCH)
  }

  /** The sequence checks and bookkeeping that follow decryption. */
  function Note(datagrams: bool, c: Core, seqNo: uint32): Core
    requires !datagrams ==> c.rxSeq < LAST_SEQ
  {
    if datagrams then
      var w := Window(c.rxSeq, c.bitmap).Record(seqNo);
      c.(rxSeq := if seqNo > c.rxSeq then seqNo else c.rxSeq, bitmap := w.bitmap)
    else c.(rxSeq := c.rxSeq + 1)
  }

  function Rejected(datagrams: bool, c: Core, seqNo: uint32): bool {
    datagrams && !Window(c.rxSeq, c.bitmap).FreshUnsigned(seqNo)
  }

  /** After a control frame: stop at the ninth, or when nothing more is waiting. */
  function AfterControl(c: Core, l: Local, more: bool): Turn {
    var counted := l.(ctrlCount := l.ctrlCount + 1);
    Turn(c, counted, if counted.ctrlCount > MAX_CONTROL then Finish(-1) else if more then Again else Finish(0))
  }

  /** The dispatch on the frame type. */
  function Act(c: Core, l: Local, r: Reading, net: Net): Turn
    requires r.Parsed?
  {
    match r.kind
    case Pong => AfterControl(c, l, r.more)
    case Ping =>
      var (d, ok) := EmitFrame(c, Pong, [], net);
      if ok then AfterControl(d, l, r.more) else Drop(d, l)
    case Bye => Drop(c, l)
    case Rekey =>
      if |r.box.plaintext| != SALT_LEN then Turn(c, l, Finish(-1))
      else AfterControl(Rotate(c, false, r.box.plaintext), l, r.more)
    case Other(_) => Turn(c, l, Again)
    case _ =>
      if |l.parts| > 0 && r.seqNo != l.expected then Turn(c, l, Finish(-1))
      else
        var grown := l.(payload := l.payload + r.box.plaintext, parts := l.parts + [r.box], expected := r.seqNo + 1);
        Turn(c, grown,
             if r.kind == Data then Finish(|grown.payload|)
             else if |grown.parts| >= S.MAX_FRAMES then Finish(-1) else Again)
  }

  /** What is decided before decryption: nothing yet, or the turn. */
  function Screen(datagrams: bool, maxLen: nat, c: Core, l: Local, r: Reading): Option<Turn> {
    match r
    case ReadFailed => Some(Drop(c, l))
    case Unparsed => Some(Skip(datagrams, c, l))
    case Parsed(kind, seqNo, length, _, _) =>
      if datagrams && seqNo >= LAST_SEQ then Some(Drop(c, l))
      else if Rejected(datagrams, c, seqNo) then Some(Turn(c, l, Again))
      else
        var capacity := Capacity(l, maxLen, kind);
        if capacity.None? || length < NONCE_LEN + TAG_LEN || length - NONCE_LEN - TAG_LEN > capacity.value
        then Some(Skip(datagrams, c, l))
        else None
  }

  /** One turn of the loop. */
  function OnReading(datagrams: bool, maxLen: nat, c: Core, l: Local, r: Reading, net: Net): Turn {
    var screened := Screen(datagrams, maxLen, c, l, r);
    if screened.Some? then screened.value
    else if Open(r.box, c.keys.rx, r.seqNo, c.sessionId, r.kind, r.length).None? then Skip(datagrams, c, l)
    else if !datagrams && c.rxSeq >= LAST_SEQ then Drop(c, l)
    else if !datagrams && r.seqNo != c.rxSeq then Turn(c, l, Finish(-1))
    else Act(Note(datagrams, c, r.seqNo), l, r, net)
  }

  datatype Received = Received(core: Core, local: Local, code: int, attempts: nat)

  /** The k-th answer of the transport; one that has run dry fails. */
  function At(incoming: seq<Reading>, k: nat): Reading {
    if k < |incoming| then incoming[k] else ReadFailed
  }

  function Loop(datagrams: bool, maxLen: nat, c: Core, l: Local, incoming: seq<Reading>, attempts: nat, net: Net): Received
    requires attempts <= MAX_ATTEMPTS
    decreases MAX_ATTEMPTS - attempts
  {
    if attempts == MAX_ATTEMPTS then
      if |l.parts| > 0 then Received(c.(established := false), l, -1, attempts) else Received(c, l, 0, attempts)
    else
      var t := OnReading(datagrams, maxLen, c, l, At(incoming, attempts), net);
      if t.verdict.Finish? then Received(t.core, t.local, t.verdict.code, attempts + 1)
      else Loop(datagrams, maxLen, t.core, t.local, incoming, attempts + 1, net)
  }

  function Recv(datagrams: bool, maxLen: nat, c: Core, incoming: seq<Reading>, net: Net): Received {
    if !c.established then Received(c, BLANK, -1, 0)
    else Loop(datagrams, maxLen, c, BLANK, incoming, 0, net)
  }

  // ---------------------------------------------------------------- what a result means

  function Plain(parts: seq<Box>): seq<byte> {
    if |parts| == 0 then [] else Plain(parts[..|parts| - 1]) + parts[|parts| - 1].plaintext
  }

  /** Fragments of this session under consecutive sequences, the next of which is `expected`. */
  ghost predicate Chain(parts: seq<Box>, sessionId: seq<byte>, expected: int) {
    forall i :: 0 <= i < |parts| ==>
      parts[i].kind == DataFrag && parts[i].seqNo == expected - (|parts| - i) && parts[i].sessionId == sessionId
  }

  /** Every part that carries any bytes is sealed under this key. */
  ghost predicate SameKey(parts: seq<Box>, key: Key) {
    forall i :: 0 <= i < |parts| ==> parts[i].plaintext == [] || parts[i].key == key
  }

  ghost predicate Assembling(maxLen: nat, c: Core, l: Local) {
    && l.payload == Plain(l.parts) && |l.payload| <= maxLen
    && |l.parts| < S.MAX_FRAMES
    && Chain(l.parts, c.sessionId, l.expected)
    && (l.payload != [] ==> SameKey(l.parts, c.keys.rx))
  }

  /** A complete message: one to four frames in consecutive sequence, all fragments but the
      last, those with any bytes in them sealed under one key of this session. */
  ghost predicate Complete(sessionId: seq<byte>, key: Key, parts: seq<Box>) {
    && 1 <= |parts| <= S.MAX_FRAMES
    && parts[|parts| - 1].kind == Data && parts[|parts| - 1].sessionId == sessionId
    && Chain(parts[..|parts| - 1], sessionId, parts[|parts| - 1].seqNo)
    && SameKey(parts, key)
  }

  lemma PlainSnoc(parts: seq<Box>, box: Box)
    ensures Plain(parts + [box]) == Plain(parts) + box.plaintext
  {
    assert (parts + [box])[..|parts|] == parts;
  }

  lemma {:induction false} EmptyPlain(parts: seq<Box>, i: nat)
    requires i < |parts| && Plain(parts) == []
    ensures parts[i].plaintext == []
  {
    var last := |parts| - 1;
    assert |Plain(parts)| == |Plain(parts[..last])| + |parts[last].plaintext|;
    if i < last {
      EmptyPlain(parts[..last], i);
    }
  }

  lemma EmptyPartsShareKeys(parts: seq<Box>, key: Key)
    requires Plain(parts) == []
    ensures SameKey(parts, key)
  {
    forall i | 0 <= i < |parts| ensures parts[i].plaintext == [] { EmptyPlain(parts, i); }
  }

  lemma ChainSnoc(parts: seq<Box>, box: Box, sessionId: seq<byte>)
    requires Chain(parts, sessionId, box.seqNo) && box.kind == DataFrag && box.sessionId == sessionId
    ensures Chain(parts + [box], sessionId, box.seqNo + 1)
  {}

  lemma SameKeySnoc(parts: seq<Box>, box: Box)
    requires SameKey(parts, box.key)
    ensures SameKey(parts + [box], box.key)
  {}

  ghost predicate Finished(maxLen: nat, c: Core, t: Turn) {
    && t.verdict == Finish(|t.local.payload|) && |t.local.payload| <= maxLen
    && t.local.payload == Plain(t.local.parts)
    && Complete(c.sessionId, c.keys.rx, t.local.parts)
  }

  lemma ActOnData(maxLen: nat, c: Core, l: Local, r: Reading, net: Net)
    requires Assembling(maxLen, c, l) && r.Parsed? && (r.kind == Data || r.kind == DataFrag)
    requires |l.payload| + |r.box.plaintext| <= maxLen
    requires r.box.key == c.keys.rx && r.box.seqNo == r.seqNo && r.box.sessionId == c.sessionId && r.box.kind == r.kind
    ensures var t := Act(c, l, r, net);
            && t.core == c
            && ((t.verdict == Again && Assembling(maxLen, c, t.local)) || t.verdict == Finish(-1) || Finished(maxLen, c, t))
  {
    if |l.parts| == 0 || r.seqNo == l.expected {
      PlainSnoc(l.parts, r.box);
      if l.payload == [] {
        EmptyPartsShareKeys(l.parts, c.keys.rx);
      }
      SameKeySnoc(l.parts, r.box);
      assert (l.parts + [r.box])[..|l.parts|] == l.parts;
      assert Chain(l.parts, c.sessionId, r.box.seqNo);
      if r.kind == DataFrag {
        ChainSnoc(l.parts, r.box, c.sessionId);
      }
    }
  }

  lemma AfterControlMeaning(maxLen: nat, c: Core, d: Core, l: Local, more: bool)
    requires Assembling(maxLen, c, l) && l.payload == [] && d.sessionId == c.sessionId
    ensures var t := AfterControl(d, l, more);
            && t.core == d && t.local.parts == l.parts && Assembling(maxLen, d, t.local)
            && (t.verdict.Finish? ==> t.verdict.code <= 0)
  {}

  /** A control frame changes no part of the message; it can appear only while there is none. */
  lemma ActOnControl(maxLen: nat, c: Core, l: Local, r: Reading, net: Net)
    requires Assembling(maxLen, c, l) && l.payload == []
    requires r.Parsed? && r.kind != Data && r.kind != DataFrag
    ensures var t := Act(c, l, r, net);
            && t.core.sessionId == c.sessionId && t.local.parts == l.parts
            && (if t.verdict == Again then Assembling(maxLen, t.core, t.local) else t.verdict.code <= 0)
  {
    match r.kind
    case Pong => AfterControlMeaning(maxLen, c, c, l, r.more);
    case Ping => AfterControlMeaning(maxLen, c, EmitFrame(c, Pong, [], net).0, l, r.more);
    case Rekey => AfterControlMeaning(maxLen, c, Rotate(c, false, r.box.plaintext), l, r.more);
    case _ =>
  }

  /** One turn keeps the assembly, or finishes with a verdict that is accounted for. */
  lemma TurnMeaning(datagrams: bool, maxLen: nat, c: Core, l: Local, r: Reading, net: Net)
    requires Assembling(maxLen, c, l)
    ensures var t := OnReading(datagrams, maxLen, c, l, r, net);
            && t.core.sessionId == c.sessionId
            && (t.verdict == Again ==> Assembling(maxLen, t.core, t.local))
            && (t.verdict.Finish? ==> t.verdict.code <= 0 || Finished(maxLen, t.core, t))
  {
    if Screen(datagrams, maxLen, c, l, r).None?
       && Open(r.box, c.keys.rx, r.seqNo, c.sessionId, r.kind, r.length).Some?
       && (datagrams || (c.rxSeq < LAST_SEQ && r.seqNo == c.rxSeq)) {
      var d := Note(datagrams, c, r.seqNo);
      if r.kind == Data || r.kind == DataFrag {
        ActOnData(maxLen, d, l, r, net);
      } else {
        ActOnControl(maxLen, d, l, r, net);
      }
    }
  }

  lemma ActParts(c: Core, l: Local, r: Reading, net: Net)
    requires r.Parsed?
    ensures var t := Act(c, l, r, net);
            t.core.sessionId == c.sessionId && (t.local.parts == l.parts || t.local.parts == l.parts + [r.box])
  {
    match r.kind
    case Ping =>
    case Rekey =>
    case _ =>
  }

  /** A turn adds at most the frame it read to the parts, and only if that opened under the receive
      key in force. */
  lemma TurnParts(datagrams: bool, maxLen: nat, c: Core, l: Local, r: Reading, net: Net)
    ensures var t := OnReading(datagrams, maxLen, c, l, r, net);
            && t.core.sessionId == c.sessionId
            && (t.local.parts == l.parts || (Opens(r, c) && t.local.parts == l.parts + [r.box]))
  {
    if r.Parsed? && (datagrams || c.rxSeq < LAST_SEQ) {
      ActParts(Note(datagrams, c, r.seqNo), l, r, net);
    }
  }

  predicate Opens(r: Reading, c: Core) {
    r.Parsed? && Open(r.box, c.keys.rx, r.seqNo, c.sessionId, r.kind, r.length).Some?
  }

  /** The context and the local variables after the call's first `k` turns. */
  function Turns(datagrams: bool, maxLen: nat, c: Core, incoming: seq<Reading>, k: nat, net: Net): (Core, Local) {
    if k == 0 then (c, BLANK)
    else
      var (d, l) := Turns(datagrams, maxLen, c, incoming, k - 1, net);
      var t := OnReading(datagrams, maxLen, d, l, At(incoming, k - 1), net);
      (t.core, t.local)
  }

  /** The parts are frames the transport delivered in the first `turns` answers of the call, in
      that order, each opened under the receive key of its moment. */
  ghost predicate Traced(datagrams: bool, maxLen: nat, c: Core, incoming: seq<Reading>, net: Net,
                         parts: seq<Box>, at: seq<nat>, turns: nat) {
    && |at| == |parts|
    && (forall i :: 0 <= i < |at| ==>
          && at[i] < turns && At(incoming, at[i]).Parsed? && At(incoming, at[i]).box == parts[i]
          && Opens(At(incoming, at[i]), Turns(datagrams, maxLen, c, incoming, at[i], net).0))
    && (forall i, j :: 0 <= i < j < |at| ==> at[i] < at[j])
  }

  lemma TracedSnoc(datagrams: bool, maxLen: nat, c: Core, incoming: seq<Reading>, net: Net, parts: seq<Box>, at: seq<nat>, k: nat)
    requires Traced(datagrams, maxLen, c, incoming, net, parts, at, k)
    ensures Traced(datagrams, maxLen, c, incoming, net, parts, at, k + 1)
    ensures At(incoming, k).Parsed? && Opens(At(incoming, k), Turns(datagrams, maxLen, c, incoming, k, net).0) ==>
              Traced(datagrams, maxLen, c, incoming, net, parts + [At(incoming, k).box], at + [k], k + 1)
  {}

  /** Where the parts of the whole call came in. */
  lemma {:induction false} LoopTrace(datagrams: bool, maxLen: nat, c: Core, incoming: seq<Reading>, k: nat, net: Net, at: seq<nat>)
      returns (at': seq<nat>)
    requires k <= MAX_ATTEMPTS
    requires Traced(datagrams, maxLen, c, incoming, net, Turns(datagrams, maxLen, c, incoming, k, net).1.parts, at, k)
    ensures var (d, l) := Turns(datagrams, maxLen, c, incoming, k, net);
            var x := Loop(datagrams, maxLen, d, l, incoming, k, net);
            Traced(datagrams, maxLen, c, incoming, net, x.local.parts, at', x.attempts)
    decreases MAX_ATTEMPTS - k
  {
    at' := at;
    if k < MAX_ATTEMPTS {
      var (d, l) := Turns(datagrams, maxLen, c, incoming, k, net);
      var t := OnReading(datagrams, maxLen, d, l, At(incoming, k), net);
      TurnParts(datagrams, maxLen, d, l, At(incoming, k), net);
      TracedSnoc(datagrams, maxLen, c, incoming, net, l.parts, at, k);
      if t.local.parts != l.parts { at' := at + [k]; }
      if t.verdict == Again {
        at' := LoopTrace(datagrams, maxLen, c, incoming, k + 1, net, at');
      }
    }
  }

  lemma {:induction false} LoopMeaning(datagrams: bool, maxLen: nat, c: Core, l: Local, incoming: seq<Reading>, attempts: nat, net: Net)
    requires attempts <= MAX_ATTEMPTS && Assembling(maxLen, c, l)
    ensures var x := Loop(datagrams, maxLen, c, l, incoming, attempts, net);
            && x.attempts <= MAX_ATTEMPTS && x.code <= maxLen
            && (x.code > 0 ==> Delivers(c.sessionId, x))
    decreases MAX_ATTEMPTS - attempts
  {
    if attempts < MAX_ATTEMPTS {
      TurnMeaning(datagrams, maxLen, c, l, At(incoming, attempts), net);
      var t := OnReading(datagrams, maxLen, c, l, At(incoming, attempts), net);
      if t.verdict == Again {
        LoopMeaning(datagrams, maxLen, t.core, t.local, incoming, attempts + 1, net);
      }
    }
  }

  /** The result counts the plaintext bytes of one complete message. */
  ghost predicate Delivers(sessionId: seq<byte>, x: Received) {
    && x.code == |x.local.payload| && x.local.payload == Plain(x.local.parts)
    && Complete(sessionId, x.core.keys.rx, x.local.parts)
  }

  /** Whatever the transport does, a call reads it at most ten times, and a positive result is the
      length of the concatenated plaintexts of one complete message, whose frames are among what
      the transport delivered in this call, in order, each authenticated when it was read. */
  lemma RecvMeaning(datagrams: bool, maxLen: nat, c: Core, incoming: seq<Reading>, net: Net) returns (at: seq<nat>)
    ensures var x := Recv(datagrams, maxLen, c, incoming, net);
            && x.attempts <= 10 && x.code <= maxLen
            && (x.code > 0 ==> Delivers(c.sessionId, x))
            && Traced(datagrams, maxLen, c, incoming, net, x.local.parts, at, x.attempts)
  {
    at := [];
    if c.established {
      LoopMeaning(datagrams, maxLen, c, BLANK, incoming, 0, net);
      at := LoopTrace(datagrams, maxLen, c, incoming, 0, net, []);
    }
  }

  // ---------------------------------------------------------------- what a call keeps

  lemma ActKeepsTxOk(c: Core, l: Local, r: Reading, net: Net)
    requires TxOk(c) && c.established && r.Parsed?
    ensures var t := Act(c, l, r, net); TxOk(t.core) && (t.verdict == Again ==> t.core.established)
  {
    if r.kind == Ping {
      EmitKeepsTxOk(c, Pong, [], net);
    } else if r.kind == Rekey {
      RotateKeepsTxOk(c, false, r.box.plaintext);
    }
  }

  lemma TurnKeepsTxOk(datagrams: bool, maxLen: nat, c: Core, l: Local, r: Reading, net: Net)
    requires TxOk(c) && c.established
    ensures var t := OnReading(datagrams, maxLen, c, l, r, net);
            TxOk(t.core) && (t.verdict == Again ==> t.core.established)
  {
    if Screen(datagrams, maxLen, c, l, r).None? && r.Parsed? && (datagrams || c.rxSeq < LAST_SEQ) {
      ActKeepsTxOk(Note(datagrams, c, r.seqNo), l, r, net);
    }
  }

  lemma {:induction false} LoopKeepsTxOk(datagrams: bool, maxLen: nat, c: Core, l: Local, incoming: seq<Reading>, attempts: nat, net: Net)
    requires attempts <= MAX_ATTEMPTS && TxOk(c) && c.established
    ensures TxOk(Loop(datagrams, maxLen, c, l, incoming, attempts, net).core)
    decreases MAX_ATTEMPTS - attempts
  {
    if attempts < MAX_ATTEMPTS {
      TurnKeepsTxOk(datagrams, maxLen, c, l, At(incoming, attempts), net);
      var t := OnReading(datagrams, maxLen, c, l, At(incoming, attempts), net);
      if t.verdict == Again {
        LoopKeepsTxOk(datagrams, maxLen, t.core, t.local, incoming, attempts + 1, net);
      }
    }
  }

  /** On datagrams the context's window goes on standing for the set of accepted sequences: a
      turn that gets as far as the dispatch has accepted a new one, less than 64 behind. */
  lemma NoteMeaning(c: Core, accepted: set<nat>, seqNo: uint32)
    requires Represents(Window(c.rxSeq, c.bitmap), accepted) && !Rejected(true, c, seqNo)
    ensures seqNo !in accepted && c.rxSeq < seqNo + 64
    ensures var d := Note(true, c, seqNo); Represents(Window(d.rxSeq, d.bitmap), accepted + {seqNo})
  {
    var w := Window(c.rxSeq, c.bitmap);
    UnsignedAndSignedAgree(w, seqNo);
    FreshMeaning(w, accepted, seqNo);
    RecordMeaning(w, accepted, seqNo);
  }
}
