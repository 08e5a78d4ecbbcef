/** In-band rekeying between two sessions over two FIFO streams. */
module RekeySync {
  import opened Crc16
  import opened SymbolicKeys

  const LAST_SEQ: nat := 0xFFFF_FFFF
  const SALT_LEN: nat := 32

  datatype End = End(keys: KeyPair, txSeq: nat, rxSeq: nat)

  /** The reliable-transport receive path for one frame: open it, refuse the reserved sequence,
      insist on the expected one, and on a REKEY rotate as the responder. None tears down. */
  function Receive(e: End, box: Sealed, sessionId: seq<byte>): Option<End> {
    var plain := Open(box, e.keys.rx, box.seqNo, sessionId, box.kind, box.length);
    if plain.None? || box.seqNo >= LAST_SEQ || box.seqNo != e.rxSeq then None
    else if box.kind != Rekey then Some(e.(rxSeq := e.rxSeq + 1))
    else if |plain.value| != SALT_LEN then None
    else Some(End(DeriveRekeyKeys(false, e.keys, sessionId, plain.value), 0, 0))
  }

  /** Sealing and writing one frame; the sequence is advanced. */
  function Written(e: End, kind: Kind, plaintext: seq<byte>, sessionId: seq<byte>): Sealed {
    Seal(e.keys.tx, e.txSeq, sessionId, kind, plaintext)
  }

  /** `rekey()` after its frame is written: rotate as the initiator. */
  function Initiated(e: End, salt: seq<byte>, sessionId: seq<byte>): End {
    End(DeriveRekeyKeys(true, e.keys, sessionId, salt), 0, 0)
  }

  /** The receiver after everything in flight toward it has arrived. */
  function Drain(e: End, queue: seq<Sealed>, sessionId: seq<byte>): Option<End>
    decreases |queue|
  {
    if queue == [] then Some(e)
    else
      var next := Receive(e, queue[0], sessionId);
      if next.None? then None else Drain(next.value, queue[1..], sessionId)
  }

  predicate HasRekey(queue: seq<Sealed>) {
    exists i :: 0 <= i < |queue| && queue[i].kind == Rekey
  }

  /** Two ends and the frames in flight between them, in both directions. */
  datatype Link = Link(a: End, b: End, ab: seq<Sealed>, ba: seq<Sealed>)

  function Mirror(l: Link): Link { Link(l.b, l.a, l.ba, l.ab) }

  datatype Action =
    | SendFrame(kind: Kind, plaintext: seq<byte>)
    | StartRekey(salt: seq<byte>)
    | Deliver

  /** Who acts: for `Deliver`, the end whose frame arrives. */
  datatype Move = ByA(action: Action) | ByB(action: Action)

  /** One action of end a. None: the receiving session is torn down. */
  function Act(l: Link, action: Action, sessionId: seq<byte>): Option<Link> {
    match action
    case SendFrame(kind, plaintext) =>
      if l.a.txSeq >= LAST_SEQ || kind == Rekey then Some(l)
      else Some(l.(a := l.a.(txSeq := l.a.txSeq + 1), ab := l.ab + [Written(l.a, kind, plaintext, sessionId)]))
    case StartRekey(salt) =>
      if l.a.txSeq >= LAST_SEQ || |salt| != SALT_LEN then Some(l)
      else Some(l.(a := Initiated(l.a, salt, sessionId), ab := l.ab + [Written(l.a, Rekey, salt, sessionId)]))
    case Deliver =>
      if l.ab == [] then Some(l)
      else
        var next := Receive(l.b, l.ab[0], sessionId);
        if next.None? then None else Some(l.(b := next.value, ab := l.ab[1..]))
  }

  function Next(l: Link, move: Move, sessionId: seq<byte>): Option<Link> {
    match move
    case ByA(action) => Act(l, action, sessionId)
    case ByB(action) =>
      var next := Act(Mirror(l), action, sessionId);
      if next.None? then None else Some(Mirror(next.value))
  }

  /** The discipline: nothing is sent toward a REKEY that is still coming, and nothing from the
      peer is in flight when a rekey starts. */
  predicate Allowed(l: Link, action: Action) {
    match action
    case SendFrame(_, _) => !HasRekey(l.ba)
    case StartRekey(_) => l.ba == []
    case Deliver => true
  }

  predicate AllowedMove(l: Link, move: Move) {
    match move
    case ByA(action) => Allowed(l, action)
    case ByB(action) => Allowed(Mirror(l), action)
  }

  /** Each end, once everything in flight toward it has arrived, holds the other's keys
      crossed and the other's sequence counters. */
  predicate Synced(l: Link, sessionId: seq<byte>) {
    var a, b := Drain(l.a, l.ba, sessionId), Drain(l.b, l.ab, sessionId);
    && a.Some? && b.Some?
    && Crossed(a.value.keys, b.value.keys)
    && a.value.txSeq == b.value.rxSeq && a.value.rxSeq == b.value.txSeq
    && (HasRekey(l.ab) ==> l.ba == [])
    && (HasRekey(l.ba) ==> l.ab == [])
  }

  lemma {:induction false} DrainSnoc(e: End, queue: seq<Sealed>, box: Sealed, sessionId: seq<byte>)
    requires Drain(e, queue, sessionId).Some?
    ensures Drain(e, queue + [box], sessionId) == Receive(Drain(e, queue, sessionId).value, box, sessionId)
    decreases |queue|
  {
    if queue == [] {
      assert ([] + [box])[1..] == [];
    } else {
      assert (queue + [box])[0] == queue[0] && (queue + [box])[1..] == queue[1..] + [box];
      DrainSnoc(Receive(e, queue[0], sessionId).value, queue[1..], box, sessionId);
    }
  }

  lemma HasRekeyTail(queue: seq<Sealed>)
    requires queue != []
    ensures HasRekey(queue) <==> queue[0].kind == Rekey || HasRekey(queue[1..])
  {
    if HasRekey(queue) && queue[0].kind != Rekey {
      var i :| 0 <= i < |queue| && queue[i].kind == Rekey;
      assert queue[1..][i - 1].kind == Rekey;
    }
    if HasRekey(queue[1..]) {
      var i :| 0 <= i < |queue[1..]| && queue[1..][i].kind == Rekey;
      assert queue[i + 1].kind == Rekey;
    }
  }

  /** Frames other than REKEY only advance the receive counter. */
  lemma {:induction false} DrainPlain(e: End, queue: seq<Sealed>, txSeq: nat, sessionId: seq<byte>)
    requires !HasRekey(queue) && Drain(e, queue, sessionId).Some?
    ensures Drain(e, queue, sessionId).value.keys == e.keys
    ensures Drain(e, queue, sessionId).value.txSeq == e.txSeq
    ensures Drain(e.(txSeq := txSeq), queue, sessionId) == Some(Drain(e, queue, sessionId).value.(txSeq := txSeq))
    decreases |queue|
  {
    if queue != [] {
      HasRekeyTail(queue);
      DrainPlain(Receive(e, queue[0], sessionId).value, queue[1..], txSeq, sessionId);
    }
  }

  lemma HasRekeySnoc(queue: seq<Sealed>, box: Sealed)
    ensures HasRekey(queue + [box]) <==> HasRekey(queue) || box.kind == Rekey
  {
    if HasRekey(queue) {
      var i :| 0 <= i < |queue| && queue[i].kind == Rekey;
      assert (queue + [box])[i].kind == Rekey;
    }
    if box.kind == Rekey {
      assert (queue + [box])[|queue|].kind == Rekey;
    }
  }

  lemma SendKeepsSynced(l: Link, kind: Kind, plaintext: seq<byte>, sessionId: seq<byte>)
    requires Synced(l, sessionId) && !HasRekey(l.ba) && kind != Rekey && l.a.txSeq < LAST_SEQ
    ensures Act(l, SendFrame(kind, plaintext), sessionId).Some?
    ensures Synced(Act(l, SendFrame(kind, plaintext), sessionId).value, sessionId)
  {
    var box := Written(l.a, kind, plaintext, sessionId);
    DrainSnoc(l.b, l.ab, box, sessionId);
    DrainPlain(l.a, l.ba, l.a.txSeq + 1, sessionId);
    HasRekeySnoc(l.ab, box);
  }

  lemma RekeyKeepsSynced(l: Link, salt: seq<byte>, sessionId: seq<byte>)
    requires Synced(l, sessionId) && l.ba == [] && |salt| == SALT_LEN && l.a.txSeq < LAST_SEQ
    ensures Act(l, StartRekey(salt), sessionId).Some?
    ensures Synced(Act(l, StartRekey(salt), sessionId).value, sessionId)
  {
    var box := Written(l.a, Rekey, salt, sessionId);
    DrainSnoc(l.b, l.ab, box, sessionId);
    HasRekeySnoc(l.ab, box);
    RekeyKeepsCrossed(l.a.keys, Drain(l.b, l.ab, sessionId).value.keys, sessionId, salt);
  }

  lemma DeliverKeepsSynced(l: Link, sessionId: seq<byte>)
    requires Synced(l, sessionId)
    ensures Act(l, Deliver, sessionId).Some?
    ensures Synced(Act(l, Deliver, sessionId).value, sessionId)
  {
    if l.ab != [] {
      HasRekeyTail(l.ab);
    }
  }

  lemma ActKeepsSynced(l: Link, action: Action, sessionId: seq<byte>)
    requires Synced(l, sessionId) && Allowed(l, action)
    ensures Act(l, action, sessionId).Some?
    ensures Synced(Act(l, action, sessionId).value, sessionId)
  {
    match action
    case SendFrame(kind, plaintext) =>
      if l.a.txSeq < LAST_SEQ && kind != Rekey {
        SendKeepsSynced(l, kind, plaintext, sessionId);
      }
    case StartRekey(salt) =>
      if l.a.txSeq < LAST_SEQ && |salt| == SALT_LEN {
        RekeyKeepsSynced(l, salt, sessionId);
      }
    case Deliver => DeliverKeepsSynced(l, sessionId);
  }

  lemma MirrorKeepsSynced(l: Link, sessionId: seq<byte>)
    ensures Synced(Mirror(l), sessionId) <==> Synced(l, sessionId)
  {}

  // ---------------------------------------------------------------- whole runs

  function RunLink(l: Link, moves: seq<Move>, sessionId: seq<byte>): Option<Link>
    decreases |moves|
  {
    if moves == [] then Some(l)
    else
      var next := Next(l, moves[0], sessionId);
      if next.None? then None else RunLink(next.value, moves[1..], sessionId)
  }

  predicate Disciplined(l: Link, moves: seq<Move>, sessionId: seq<byte>)
    decreases |moves|
  {
    moves == [] ||
    (AllowedMove(l, moves[0]) &&
     var next := Next(l, moves[0], sessionId);
     next.Some? ==> Disciplined(next.value, moves[1..], sessionId))
  }

  /** However many rekeys either side starts, and whatever old-epoch and new-epoch frames are
      queued around them, no frame is refused and the two ends stay matched. */
  lemma {:induction false} RekeySynchronisation(l: Link, moves: seq<Move>, sessionId: seq<byte>)
    requires Synced(l, sessionId) && Disciplined(l, moves, sessionId)
    ensures RunLink(l, moves, sessionId).Some?
    ensures var end := RunLink(l, moves, sessionId).value;
            && Synced(end, sessionId)
            && (end.ab == [] && end.ba == [] ==>
                Crossed(end.a.keys, end.b.keys) && end.a.txSeq == end.b.rxSeq && end.a.rxSeq == end.b.txSeq)
    decreases |moves|
  {
    if moves != [] {
      match moves[0] {
        case ByA(action) =>
          ActKeepsSynced(l, action, sessionId);
        case ByB(action) =>
          MirrorKeepsSynced(l, sessionId);
          ActKeepsSynced(Mirror(l), action, sessionId);
          MirrorKeepsSynced(Act(Mirror(l), action, sessionId).value, sessionId);
      }
      RekeySynchronisation(Next(l, moves[0], sessionId).value, moves[1..], sessionId);
    }
  }

  lemma FreshLinkIsSynced(a: KeyPair, b: KeyPair, sessionId: seq<byte>)
    requires Crossed(a, b)
    ensures Synced(Link(End(a, 0, 0), End(b, 0, 0), [], []), sessionId)
  {}

  // ---------------------------------------------------------------- the discipline is needed

  lemma {:induction false} DrainGrows(e: End, queue: seq<Sealed>, sessionId: seq<byte>)
    requires Drain(e, queue, sessionId).Some?
    ensures var end := Drain(e, queue, sessionId).value;
            if HasRekey(queue) then Size(end.keys.tx) > Size(e.keys.tx) else end.keys == e.keys
    decreases |queue|
  {
    if queue != [] {
      HasRekeyTail(queue);
      var next := Receive(e, queue[0], sessionId).value;
      if queue[0].kind == Rekey {
        RekeyGrows(false, e.keys, sessionId, queue[0].plaintext);
      }
      DrainGrows(next, queue[1..], sessionId);
    }
  }

  /** A frame sent while a REKEY is still on its way to the sender is always refused. */
  lemma FrameAgainstRekeyIsRefused(l: Link, kind: Kind, plaintext: seq<byte>, sessionId: seq<byte>)
    requires Synced(l, sessionId) && HasRekey(l.ba) && kind != Rekey && l.a.txSeq < LAST_SEQ
    ensures var sent := Act(l, SendFrame(kind, plaintext), sessionId).value;
            Act(sent, Deliver, sessionId).None?
  {
    DrainGrows(l.a, l.ba, sessionId);
  }

  /** A rekey started while frames of the peer are in flight always makes the initiator refuse
      the first of them; this includes the case that both sides rekey at once. */
  lemma RekeyAgainstFramesIsRefused(l: Link, salt: seq<byte>, sessionId: seq<byte>)
    requires Synced(l, sessionId) && l.ba != [] && |salt| == SALT_LEN && l.a.txSeq < LAST_SEQ
    ensures var started := Act(l, StartRekey(salt), sessionId).value;
            Act(Mirror(started), Deliver, sessionId).None?
  {
    RekeyGrows(true, l.a.keys, sessionId, salt);
  }
}
