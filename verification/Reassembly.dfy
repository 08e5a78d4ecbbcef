/** What `recv` returns, over any sequence of incoming frames, and that it undoes `send`. */
module Reassembly {
  import opened Crc16
  import opened SymbolicKeys
  import opened ReplayWindow
  import opened SessionReceive

  // ---------------------------------------------------------------- safety

  /** A frame that went into a message: where it came in, and what it opened to. */
  datatype Part = Part(at: nat, key: Key, seqNo: nat, kind: Kind, plaintext: seq<byte>)

  function Joined(parts: seq<Part>): seq<byte> {
    if |parts| == 0 then [] else Joined(parts[..|parts| - 1]) + parts[|parts| - 1].plaintext
  }

  /** The part is one of the incoming frames, sealed under the part's key. */
  predicate Genuine(p: Part, events: seq<Event>, sessionId: seq<byte>) {
    && p.at < |events| && events[p.at].Frame?
    && events[p.at].kind == p.kind && events[p.at].seqNo == p.seqNo
    && Open(events[p.at].box, p.key, p.seqNo, sessionId, p.kind, events[p.at].length) == Some(p.plaintext)
  }

  /** Frames of one epoch with consecutive sequences, in order of arrival. */
  ghost predicate Consecutive(parts: seq<Part>, key: Key, events: seq<Event>, sessionId: seq<byte>) {
    && (forall j :: 0 <= j < |parts| ==> Genuine(parts[j], events, sessionId) && parts[j].key == key)
    && (forall j :: 0 < j < |parts| ==> parts[j].seqNo == parts[j - 1].seqNo + 1 && parts[j - 1].at < parts[j].at)
    && (forall j :: 0 <= j < |parts| - 1 ==> parts[j].kind == DataFrag)
  }

  /** A whole message: one to four frames of one epoch with consecutive sequences, all
      DATA_FRAG but the final DATA. */
  ghost predicate IsMessage(parts: seq<Part>, key: Key, events: seq<Event>, sessionId: seq<byte>, payload: seq<byte>) {
    && 1 <= |parts| <= MAX_FRAMES && Consecutive(parts, key, events, sessionId)
    && parts[|parts| - 1].kind == Data && Joined(parts) == payload
  }

  /** The parts account for the payload assembled so far. */
  ghost predicate Accounts(parts: seq<Part>, rx: Rx, local: Assembly, events: seq<Event>, i: nat, sessionId: seq<byte>) {
    && Consecutive(parts, rx.keys.rx, events, sessionId)
    && Joined(parts) == local.payload
    && |parts| <= local.frameCount < MAX_FRAMES
    && (|parts| > 0 ==>
        var last := parts[|parts| - 1];
        last.kind == DataFrag && local.expected == last.seqNo + 1 && last.at < i)
  }

  /** No task of this process completes a `rekey()` while a message is partly assembled. */
  predicate NoRekeyInside(reliable: bool, sessionId: seq<byte>, rx: Rx, local: Assembly, events: seq<Event>)
    decreases |events|
  {
    |events| == 0 ||
    (!(events[0].LocalRekey? && |local.payload| > 0) &&
     var t := Handle(reliable, sessionId, rx, local, events[0]);
     t.outcome == Continue ==> NoRekeyInside(reliable, sessionId, t.rx, t.local, events[1..]))
  }

  lemma JoinedSnoc(parts: seq<Part>, p: Part)
    ensures Joined(parts + [p]) == Joined(parts) + p.plaintext
  {
    assert (parts + [p])[..|parts|] == parts;
  }

  /** A turn that handles no data returns nothing, and either empties the payload or leaves
      the assembly and the keys alone. */
  lemma OtherTurn(reliable: bool, sessionId: seq<byte>, rx: Rx, local: Assembly, e: Event)
    requires e.Frame? ==> e.kind != Data && e.kind != DataFrag
    requires e.LocalRekey? ==> |local.payload| == 0
    ensures var t := Handle(reliable, sessionId, rx, local, e);
            && !t.outcome.Return?
            && t.local.frameCount <= local.frameCount
            && (t.outcome == Continue ==> t.local.payload == [] || (t.local == local && t.rx.keys == rx.keys))
  {}

  /** What a turn with a data frame does. */
  datatype DataEffect = Ignored | Reset | Extended(plaintext: seq<byte>) | Failing

  function Effect(reliable: bool, sessionId: seq<byte>, rx: Rx, local: Assembly, e: Event): DataEffect
    requires e.Frame?
  {
    match Admit(reliable, sessionId, rx, e).1
    case Dropped => Ignored
    case Refused(_) => Failing
    case Admitted(plaintext) =>
      if (local.frameCount > 0 && e.seqNo != local.expected) || (e.kind == DataFrag && local.frameCount + 1 >= MAX_FRAMES)
      then if reliable then Failing else Reset
      else Extended(plaintext)
  }

  lemma DataTurn(reliable: bool, sessionId: seq<byte>, rx: Rx, local: Assembly, e: Event)
    requires e.Frame? && (e.kind == Data || e.kind == DataFrag) && local.frameCount < MAX_FRAMES
    ensures var t := Handle(reliable, sessionId, rx, local, e);
            && t.rx.keys == rx.keys
            && match Effect(reliable, sessionId, rx, local, e)
               case Ignored => t.outcome == Continue && t.local == local
               case Failing => t.outcome.Raise?
               case Reset => t.outcome == Continue && t.local.payload == [] && t.local.frameCount == 0
               case Extended(plaintext) =>
                 && Open(e.box, rx.keys.rx, e.seqNo, sessionId, e.kind, e.length) == Some(plaintext)
                 && (local.frameCount > 0 ==> e.seqNo == local.expected)
                 && t.local.payload == local.payload + plaintext
                 && t.local.frameCount == local.frameCount + 1 && t.local.expected == e.seqNo + 1
                 && t.outcome == (if e.kind == Data then Return(t.local.payload) else Continue)
                 && (e.kind == DataFrag ==> t.local.frameCount < MAX_FRAMES)
  {}

  lemma ConsecutiveSnoc(parts: seq<Part>, key: Key, events: seq<Event>, sessionId: seq<byte>, p: Part)
    requires Consecutive(parts, key, events, sessionId) && Genuine(p, events, sessionId) && p.key == key
    requires |parts| > 0 ==>
               var last := parts[|parts| - 1]; last.kind == DataFrag && p.seqNo == last.seqNo + 1 && last.at < p.at
    ensures Consecutive(parts + [p], key, events, sessionId)
  {
    var more := parts + [p];
    forall j | 0 <= j < |more|
      ensures Genuine(more[j], events, sessionId) && more[j].key == key
      ensures 0 < j ==> more[j].seqNo == more[j - 1].seqNo + 1 && more[j - 1].at < more[j].at
      ensures j < |more| - 1 ==> more[j].kind == DataFrag
    {
      if j < |parts| {
        assert more[j] == parts[j] && (0 < j ==> more[j - 1] == parts[j - 1]);
      }
    }
  }

  lemma AddPart(parts: seq<Part>, rx: Rx, local: Assembly, all: seq<Event>, i: nat, sessionId: seq<byte>, plaintext: seq<byte>)
      returns (more: seq<Part>)
    requires i < |all| && Accounts(parts, rx, local, all, i, sessionId)
    requires all[i].Frame? && (local.frameCount > 0 ==> all[i].seqNo == local.expected)
    requires Open(all[i].box, rx.keys.rx, all[i].seqNo, sessionId, all[i].kind, all[i].length) == Some(plaintext)
    ensures |more| == |parts| + 1 && Consecutive(more, rx.keys.rx, all, sessionId)
    ensures Joined(more) == local.payload + plaintext
    ensures var p := more[|more| - 1]; p.at == i && p.kind == all[i].kind && p.seqNo == all[i].seqNo
  {
    var p := Part(i, rx.keys.rx, all[i].seqNo, all[i].kind, plaintext);
    JoinedSnoc(parts, p);
    ConsecutiveSnoc(parts, rx.keys.rx, all, sessionId, p);
    more := parts + [p];
  }

  /** One turn keeps the account; a message that comes out is accounted for. */
  lemma TurnKeepsAccount(reliable: bool, sessionId: seq<byte>, rx: Rx, local: Assembly, all: seq<Event>, i: nat, parts: seq<Part>)
      returns (more: seq<Part>)
    requires i < |all| && Accounts(parts, rx, local, all, i, sessionId)
    requires all[i].LocalRekey? ==> |local.payload| == 0
    ensures var t := Handle(reliable, sessionId, rx, local, all[i]);
            && (t.outcome == Continue ==> Accounts(more, t.rx, t.local, all, i + 1, sessionId))
            && (t.outcome.Return? ==> IsMessage(more, rx.keys.rx, all, sessionId, t.outcome.payload))
  {
    var e := all[i];
    var t := Handle(reliable, sessionId, rx, local, e);
    more := if t.local.payload == [] then [] else parts;
    if e.Frame? && (e.kind == Data || e.kind == DataFrag) {
      DataTurn(reliable, sessionId, rx, local, e);
      var effect := Effect(reliable, sessionId, rx, local, e);
      if effect.Extended? {
        more := AddPart(parts, rx, local, all, i, sessionId, effect.plaintext);
      }
    } else {
      OtherTurn(reliable, sessionId, rx, local, e);
    }
  }

  lemma SafeFrom(reliable: bool, sessionId: seq<byte>, rx: Rx, local: Assembly, all: seq<Event>, i: nat, parts: seq<Part>)
      returns (final: seq<Part>, key: Key)
    requires i <= |all| && Accounts(parts, rx, local, all, i, sessionId)
    requires NoRekeyInside(reliable, sessionId, rx, local, all[i..])
    ensures var r := Loop(reliable, sessionId, rx, local, all[i..]);
            r.Got? ==> IsMessage(final, key, all, sessionId, r.payload)
    decreases |all| - i
  {
    final, key := [], rx.keys.rx;
    if i < |all| {
      var events := all[i..];
      assert events[0] == all[i] && events[1..] == all[i + 1..];
      var more := TurnKeepsAccount(reliable, sessionId, rx, local, all, i, parts);
      var t := Handle(reliable, sessionId, rx, local, all[i]);
      if t.outcome == Continue {
        final, key := SafeFrom(reliable, sessionId, t.rx, t.local, all, i + 1, more);
      } else {
        final := more;
      }
    }
  }

  /** A stream that rekeyed locally inside a message can only fail: no payload comes out. */
  lemma {:induction false} RekeyInsideStreamFails(sessionId: seq<byte>, rx: Rx, local: Assembly, events: seq<Event>)
    requires rx.window.rxSeq == 0 && local.frameCount > 0 && local.expected > 0 && |local.payload| > 0
    ensures !Loop(true, sessionId, rx, local, events).Got?
    decreases |events|
  {
    if |events| > 0 {
      var t := Handle(true, sessionId, rx, local, events[0]);
      if t.outcome == Continue {
        RekeyInsideStreamFails(sessionId, t.rx, t.local, events[1..]);
      }
    }
  }

  lemma {:induction false} StreamNeedsNoCare(sessionId: seq<byte>, rx: Rx, local: Assembly, events: seq<Event>)
    requires |local.payload| > 0 ==> local.frameCount > 0 && local.expected > 0
    requires Loop(true, sessionId, rx, local, events).Got?
    ensures NoRekeyInside(true, sessionId, rx, local, events)
    decreases |events|
  {
    if |events| > 0 {
      var t := Handle(true, sessionId, rx, local, events[0]);
      if events[0].LocalRekey? && |local.payload| > 0 {
        RekeyInsideStreamFails(sessionId, t.rx, t.local, events[1..]);
      } else if t.outcome == Continue {
        StreamNeedsNoCare(sessionId, t.rx, t.local, events[1..]);
      }
    }
  }

  /** Every payload that `recv` returns is such a message; on datagrams, provided this process
      does not rekey inside one. */
  lemma ReassemblySafety(reliable: bool, sessionId: seq<byte>, rx: Rx, start: real, events: seq<Event>)
      returns (parts: seq<Part>, key: Key)
    requires reliable || NoRekeyInside(reliable, sessionId, rx, Blank(start), events)
    requires Loop(reliable, sessionId, rx, Blank(start), events).Got?
    ensures IsMessage(parts, key, events, sessionId, Loop(reliable, sessionId, rx, Blank(start), events).payload)
  {
    if reliable {
      StreamNeedsNoCare(sessionId, rx, Blank(start), events);
    }
    assert events[0..] == events;
    parts, key := SafeFrom(reliable, sessionId, rx, Blank(start), events, 0, []);
  }

  /** The proviso is exact: on datagrams, whatever is assembled when the local rekey completes,
      there is a frame of the new epoch that completes it to a payload from two epochs. */
  lemma RekeyInsideDatagramsSplices(sessionId: seq<byte>, rx: Rx, local: Assembly, salt: seq<byte>, tail: seq<byte>, now: real)
    requires 0 < local.frameCount < MAX_FRAMES && |local.payload| > 0 && 0 < local.expected < LAST_SEQ
    ensures var newKey := DeriveRekeyKeys(true, rx.keys, sessionId, salt).rx;
            var box := Seal(newKey, local.expected, sessionId, Data, tail);
            var events := [LocalRekey(salt), Frame(Data, local.expected, box.length, box, now, PongSent)];
            newKey != rx.keys.rx
            && Loop(false, sessionId, rx, local, events).Got?
            && Loop(false, sessionId, rx, local, events).payload == local.payload + tail
  {
    RekeyGrows(true, rx.keys, sessionId, salt);
    var rotated := Rotated(true, sessionId, rx, salt);
    var box := Seal(rotated.keys.rx, local.expected, sessionId, Data, tail);
    var frame := Frame(Data, local.expected, box.length, box, now, PongSent);
    var events := [LocalRekey(salt), frame];
    assert events[1..] == [frame];
    assert rotated.window.Fresh(local.expected);
    var t := Handle(false, sessionId, rotated, local, frame);
    assert t.outcome == Return(local.payload + tail);
  }
}
