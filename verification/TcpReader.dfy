/** The exact-read loop of the ESP32 TCP transport over an arbitrarily chunked byte stream. */
module TcpReader {
  import opened Crc16
  import opened Frame
  import K = SymbolicKeys

  const STALL_MS: nat := 2000

  /** What `select` and `recv` do in one turn of a loop. */
  datatype Event =
    | SelectInterrupted
    | SelectFailed
    | SelectTimeout
    | RecvInterrupted
    | RecvFailed
    | PeerClosed
    | Readable(count: nat)

  /** One turn: the milliseconds since the last progress that the clock shows, and the event. */
  datatype Turn = Turn(elapsed: uint32, event: Event)

  /** How many bytes `recv` hands over when `want` are asked for and `waiting` are there. */
  function ChunkSize(count: nat, want: nat, waiting: nat): nat {
    if count < want then (if count < waiting then count else waiting)
    else (if want < waiting then want else waiting)
  }

  /** The turn ends the call without a frame: a stall, a failed call, or the peer's end. */
  predicate Ends(bounded: bool, waits: bool, turn: Turn) {
    || (bounded && turn.elapsed >= STALL_MS)
    || turn.event in {SelectFailed, RecvFailed, PeerClosed}
    || (turn.event == SelectTimeout && (bounded || !waits))
  }

  /** The header announces more than a frame, or the buffer, may hold. */
  predicate Oversized(stream: seq<byte>, maxLen: nat)
    requires |stream| >= HEADER_SIZE
  {
    LengthField(stream) > MAX_PAYLOAD || HEADER_SIZE + LengthField(stream) > maxLen
  }

  /** The ending turn is a stall: before the first byte the call then returns 0. */
  predicate Stalls(bounded: bool, turn: Turn) {
    bounded && (turn.elapsed >= STALL_MS || turn.event == SelectTimeout)
  }

  // ---------------------------------------------------------------- what a call does

  /** How many bytes a turn that does not end the call brings in. */
  function Intake(turn: Turn, want: nat, waiting: nat): nat {
    if turn.event.Readable? then ChunkSize(turn.event.count, want, waiting) else 0
  }

  datatype Filled = Filled(received: nat, rest: seq<Turn>, ended: bool, stalled: bool)

  /** Either loop: turns are taken until `goal` bytes have come, one of them ends the call, or the
      script runs out. `size` is the length of the whole stream. */
  function Fill(bounded: bool, waits: bool, turns: seq<Turn>, size: nat, received: nat, goal: nat): Filled
    requires received <= goal && received <= size
    decreases |turns|
  {
    if received == goal || |turns| == 0 then Filled(received, turns, false, false)
    else if Ends(bounded, waits, turns[0]) then Filled(received, turns[1..], true, Stalls(bounded, turns[0]))
    else Fill(bounded, waits, turns[1..], size, received + Intake(turns[0], goal - received, size - received), goal)
  }

  datatype CallEnd = CallEnd(result: int, waiting: bool, consumed: nat)

  lemma {:induction false} FillBounds(bounded: bool, waits: bool, turns: seq<Turn>, size: nat, received: nat, goal: nat)
    requires received <= goal && received <= size
    ensures var f := Fill(bounded, waits, turns, size, received, goal);
            && received <= f.received <= goal && f.received <= size && |f.rest| <= |turns|
            && (f.ended ==> f.received < goal) && (!f.ended && f.received < goal ==> f.rest == [])
            && (f.stalled ==> f.ended && bounded)
    decreases |turns|
  {
    if received < goal && |turns| > 0 && !Ends(bounded, waits, turns[0]) {
      FillBounds(bounded, waits, turns[1..], size, received + Intake(turns[0], goal - received, size - received), goal);
    }
  }

  /** `usmp_tcp_recv` on a stream. `waiting` says that the script of turns ran out inside a loop. */
  function Call(bounded: bool, maxLen: nat, stream: seq<byte>, turns: seq<Turn>): CallEnd {
    if maxLen < HEADER_SIZE then CallEnd(-1, false, 0)
    else
      FillBounds(bounded, true, turns, |stream|, 0, HEADER_SIZE);
      var h := Fill(bounded, true, turns, |stream|, 0, HEADER_SIZE);
      if h.ended then CallEnd(if h.received == 0 && h.stalled then 0 else -1, false, h.received)
      else if h.received < HEADER_SIZE then CallEnd(0, true, h.received)
      else if Oversized(stream, maxLen) then CallEnd(-1, false, HEADER_SIZE)
      else
        var goal := HEADER_SIZE + LengthField(stream);
        FillBounds(bounded, false, h.rest, |stream|, HEADER_SIZE, goal);
        var p := Fill(bounded, false, h.rest, |stream|, HEADER_SIZE, goal);
        if p.ended then CallEnd(-1, false, p.received)
        else if p.received < goal then CallEnd(0, true, p.received)
        else CallEnd(goal, false, goal)
  }

  /** A positive result is one whole frame; 0 means that no byte has been consumed. */
  lemma CallMeaning(bounded: bool, maxLen: nat, stream: seq<byte>, turns: seq<Turn>)
    ensures var c := Call(bounded, maxLen, stream, turns);
            && c.result >= -1 && c.consumed <= |stream| && c.consumed <= maxLen
            && (c.result > 0 ==> |stream| >= HEADER_SIZE && !Oversized(stream, maxLen)
                                 && c.result == c.consumed == HEADER_SIZE + LengthField(stream) && !c.waiting)
            && (c.result == 0 && !c.waiting ==> c.consumed == 0 && bounded)
  {
    if maxLen >= HEADER_SIZE {
      FillBounds(bounded, true, turns, |stream|, 0, HEADER_SIZE);
      var h := Fill(bounded, true, turns, |stream|, 0, HEADER_SIZE);
      if !h.ended && h.received == HEADER_SIZE && !Oversized(stream, maxLen) {
        FillBounds(bounded, false, h.rest, |stream|, HEADER_SIZE, HEADER_SIZE + LengthField(stream));
      }
    }
  }

  // ---------------------------------------------------------------- the routine

  datatype Status = Going | Done(stalled: bool)

  class TcpSocket {
    /** The bytes the peer has written and the device has not yet read. */
    var incoming: seq<byte>
    const bounded: bool

    constructor (bytes: seq<byte>, sessionActive: bool)
      ensures incoming == bytes && bounded == sessionActive
    {
      incoming := bytes;
      bounded := sessionActive;
    }

    /** One turn of either loop; `waits` says whether a `select` timeout without a deadline is
        retried. */
    method TakeTurn(turn: Turn, buf: array<byte>, received: nat, goal: nat, waits: bool) returns (status: Status, taken: nat)
      requires received < goal <= buf.Length
      modifies this, buf
      ensures taken == (if Ends(bounded, waits, turn) then 0 else Intake(turn, goal - received, |old(incoming)|))
      ensures status == (if Ends(bounded, waits, turn) then Done(Stalls(bounded, turn)) else Going)
      ensures received + taken <= goal && taken <= |old(incoming)|
      ensures incoming == old(incoming)[taken..]
      ensures buf[received..received + taken] == old(incoming)[..taken]
      ensures buf[..received] == old(buf[..received]) && buf[received + taken..] == old(buf[received + taken..])
    {
      taken := 0;
      status := Going;
      if bounded && turn.elapsed >= STALL_MS {
        status := Done(true);
        return;
      }
      match turn.event {
        case SelectInterrupted =>
        case SelectFailed => status := Done(false);
        case SelectTimeout =>
          if bounded {
            status := Done(true);
          } else if !waits {
            status := Done(false);
          }
        case RecvInterrupted =>
        case RecvFailed => status := Done(false);
        case PeerClosed => status := Done(false);
        case Readable(count) =>
          taken := ChunkSize(count, goal - received, |incoming|);
          CopyIn(buf, received, taken);
      }
    }

    method CopyIn(buf: array<byte>, received: nat, taken: nat)
      requires received + taken <= buf.Length && taken <= |incoming|
      modifies this, buf
      ensures incoming == old(incoming)[taken..]
      ensures buf[received..received + taken] == old(incoming)[..taken]
      ensures buf[..received] == old(buf[..received]) && buf[received + taken..] == old(buf[received + taken..])
    {
      for i := 0 to taken
        invariant incoming == old(incoming)
        invariant buf[..received] == old(buf[..received])
        invariant forall j :: 0 <= j < i ==> buf[received + j] == incoming[j]
        invariant forall j :: received + i <= j < buf.Length ==> buf[j] == old(buf[j])
      {
        buf[received + i] := incoming[i];
      }
      incoming := incoming[taken..];
    }

    /** Either loop of `usmp_tcp_recv`. */
    method ReadUpTo(buf: array<byte>, ghost stream: seq<byte>, ghost original: seq<byte>, from: nat, goal: nat, waits: bool, turns: seq<Turn>)
        returns (received: nat, rest: seq<Turn>, status: Status)
      requires from <= goal <= buf.Length && |original| == buf.Length
      requires from <= |stream| && incoming == stream[from..]
      requires buf[..from] == stream[..from] && buf[from..] == original[from..]
      modifies this, buf
      ensures Fill(bounded, waits, turns, |stream|, from, goal) == Filled(received, rest, status.Done?, status == Done(true))
      ensures received <= goal && received <= |stream| && incoming == stream[received..]
      ensures buf[..received] == stream[..received] && buf[received..] == original[received..]
    {
      received, rest, status := from, turns, Going;
      while received < goal && |rest| > 0
        invariant from <= received <= goal && received <= |stream| && status == Going
        invariant Fill(bounded, waits, turns, |stream|, from, goal) == Fill(bounded, waits, rest, |stream|, received, goal)
        invariant incoming == stream[received..]
        invariant buf[..received] == stream[..received] && buf[received..] == original[received..]
        decreases |rest|
      {
        ghost var before := buf[..];
        var taken;
        status, taken := TakeTurn(rest[0], buf, received, goal, waits);
        rest := rest[1..];
        Advance(stream, before, buf[..], original, received, taken);
        if status.Done? { return; }
        received := received + taken;
      }
    }

    /** `usmp_tcp_recv`: result and consumption are those of the specification, and what has been
        consumed is at the front of the buffer. */
    method Recv(buf: array<byte>, maxLen: nat, turns: seq<Turn>) returns (r: int, waiting: bool, ghost consumed: nat)
      requires maxLen <= buf.Length
      modifies this, buf
      ensures CallEnd(r, waiting, consumed) == Call(bounded, maxLen, old(incoming), turns)
      ensures consumed <= |old(incoming)| && consumed <= buf.Length && incoming == old(incoming)[consumed..]
      ensures buf[..consumed] == old(incoming)[..consumed] && buf[consumed..] == old(buf[consumed..])
    {
      r, waiting, consumed := -1, false, 0;
      if maxLen < HEADER_SIZE {
        return;
      }
      ghost var stream, original := incoming, buf[..];
      var received, rest, status := ReadUpTo(buf, stream, original, 0, HEADER_SIZE, true, turns);
      consumed := received;
      if status.Done? {
        r := if received == 0 && status.stalled then 0 else -1;
        return;
      }
      if received < HEADER_SIZE {
        r, waiting := 0, true;
        return;
      }
      var payloadLen := ReadLength(buf, stream);
      if payloadLen > MAX_PAYLOAD || HEADER_SIZE + payloadLen > maxLen {
        return;
      }
      received, rest, status := ReadUpTo(buf, stream, original, HEADER_SIZE, HEADER_SIZE + payloadLen, false, rest);
      consumed := received;
      if status.Done? {
        return;
      }
      if received < HEADER_SIZE + payloadLen {
        r, waiting := 0, true;
        return;
      }
      r := received;
    }

    method ReadLength(buf: array<byte>, ghost stream: seq<byte>) returns (length: nat)
      requires buf.Length >= HEADER_SIZE && |stream| >= HEADER_SIZE && buf[..HEADER_SIZE] == stream[..HEADER_SIZE]
      ensures length == LengthField(stream)
    {
      assert buf[8] == buf[..HEADER_SIZE][8] && buf[9] == buf[..HEADER_SIZE][9];
      length := buf[8] as int + 256 * (buf[9] as int);
      LengthBytes(stream);
    }
  }

  lemma LengthBytes(stream: seq<byte>)
    requires |stream| >= HEADER_SIZE
    ensures LengthField(stream) == stream[8] as int + 256 * (stream[9] as int)
  {
    var s := stream[8..10];
    assert s[1..] == [stream[9]];
    assert Get(s[1..]) == stream[9] as int + 256 * Get(s[1..][1..]);
  }

  /** A turn extends the part of the buffer that mirrors the stream. */
  lemma Advance(stream: seq<byte>, before: seq<byte>, after: seq<byte>, original: seq<byte>, received: nat, taken: nat)
    requires |before| == |after| == |original| && received + taken <= |before| && received + taken <= |stream|
    requires before[..received] == stream[..received] && before[received..] == original[received..]
    requires after[..received] == before[..received]
    requires after[received..received + taken] == stream[received..][..taken]
    requires after[received + taken..] == before[received + taken..]
    ensures after[..received + taken] == stream[..received + taken]
    ensures after[received + taken..] == original[received + taken..]
    ensures stream[received..][taken..] == stream[received + taken..]
  {
    assert after[..received + taken] == after[..received] + after[received..received + taken];
    assert original[received + taken..] == original[received..][taken..];
    assert before[received + taken..] == before[received..][taken..];
  }

  // ---------------------------------------------------------------- which scripts bring a frame

  /** The turns left over once their chunks have covered `n` bytes, each chunk cut off there. */
  function After(turns: seq<Turn>, n: nat): K.Option<seq<Turn>> {
    if n == 0 then K.Some(turns)
    else if |turns| == 0 then K.None
    else
      var count := if turns[0].event.Readable? then turns[0].event.count else 0;
      After(turns[1..], if count < n then n - count else 0)
  }

  /** The chunks bring a header, and then the payload. */
  predicate Supplies(turns: seq<Turn>, length: nat) {
    After(turns, HEADER_SIZE).Some? && After(After(turns, HEADER_SIZE).value, length).Some?
  }

  /** Bytes or an interruption, within two seconds of the last progress where there is a limit. */
  predicate Harmless(bounded: bool, turn: Turn) {
    && (bounded ==> turn.elapsed < 2000)
    && (turn.event.Readable? || turn.event.SelectInterrupted? || turn.event.RecvInterrupted?)
  }

  predicate Quiet(bounded: bool, turns: seq<Turn>) {
    forall i :: 0 <= i < |turns| ==> Harmless(bounded, turns[i])
  }

  lemma {:induction false} QuietFill(bounded: bool, waits: bool, turns: seq<Turn>, size: nat, received: nat, goal: nat)
    requires received <= goal <= size && Quiet(bounded, turns)
    ensures var f := Fill(bounded, waits, turns, size, received, goal);
            && !f.ended && Quiet(bounded, f.rest)
            && (if f.received == goal then After(turns, goal - received) == K.Some(f.rest) else After(turns, goal - received) == K.None)
    decreases |turns|
  {
    if received < goal && |turns| > 0 {
      assert Harmless(bounded, turns[0]);
      QuietFill(bounded, waits, turns[1..], size, received + Intake(turns[0], goal - received, size - received), goal);
    }
  }

  /** With the frame on the stream, room for it, and no turn that ends the call, the call returns
      it exactly when the chunks supply it; otherwise it is still waiting. */
  lemma CallReturnsFrame(bounded: bool, maxLen: nat, stream: seq<byte>, turns: seq<Turn>)
    requires |stream| >= HEADER_SIZE && |stream| >= HEADER_SIZE + LengthField(stream)
    requires maxLen >= HEADER_SIZE && !Oversized(stream, maxLen) && Quiet(bounded, turns)
    ensures var c := Call(bounded, maxLen, stream, turns);
            if Supplies(turns, LengthField(stream))
            then c == CallEnd(HEADER_SIZE + LengthField(stream), false, HEADER_SIZE + LengthField(stream))
            else c.waiting && c.consumed < HEADER_SIZE + LengthField(stream)
  {
    FillBounds(bounded, true, turns, |stream|, 0, HEADER_SIZE);
    QuietFill(bounded, true, turns, |stream|, 0, HEADER_SIZE);
    var h := Fill(bounded, true, turns, |stream|, 0, HEADER_SIZE);
    if h.received == HEADER_SIZE {
      FillBounds(bounded, false, h.rest, |stream|, HEADER_SIZE, HEADER_SIZE + LengthField(stream));
      QuietFill(bounded, false, h.rest, |stream|, HEADER_SIZE, HEADER_SIZE + LengthField(stream));
    }
  }

  /** Two seconds, or a whole `select`, without progress. */
  predicate Late(bounded: bool, turn: Turn) { bounded && (turn.elapsed >= 2000 || turn.event == SelectTimeout) }

  /** Turns that end nothing, and then others. */
  lemma {:induction false} FillConcat(bounded: bool, waits: bool, a: seq<Turn>, b: seq<Turn>, size: nat, received: nat, goal: nat)
    requires received <= goal <= size && Quiet(bounded, a)
    ensures var f := Fill(bounded, waits, a, size, received, goal);
            && f.received <= goal
            && Fill(bounded, waits, a + b, size, received, goal) ==
               if f.received == goal then Filled(goal, f.rest + b, false, false) else Fill(bounded, waits, b, size, f.received, goal)
    decreases |a|
  {
    if |a| == 0 || received == goal {
      assert |a| == 0 ==> a + b == b;
    } else {
      assert Harmless(bounded, a[0]);
      assert (a + b)[0] == a[0] && (a + b)[1..] == a[1..] + b;
      FillConcat(bounded, waits, a[1..], b, size, received + Intake(a[0], goal - received, size - received), goal);
    }
  }

  lemma FillBreaksOff(bounded: bool, waits: bool, quiet: seq<Turn>, bad: Turn, more: seq<Turn>, size: nat, received: nat, goal: nat)
    requires received <= goal <= size && Quiet(bounded, quiet)
    requires Late(bounded, bad) || bad.event in {SelectFailed, RecvFailed, PeerClosed}
    ensures var f := Fill(bounded, waits, quiet, size, received, goal);
            Fill(bounded, waits, quiet + ([bad] + more), size, received, goal) ==
            if f.received == goal then Filled(goal, f.rest + ([bad] + more), false, false) else Filled(f.received, more, true, Late(bounded, bad))
  {
    FillConcat(bounded, waits, quiet, [bad] + more, size, received, goal);
    assert ([bad] + more)[0] == bad && ([bad] + more)[1..] == more;
  }

  /** When something does go wrong before the frame is complete, the call fails; except that lateness
      before the first byte is no failure and consumes nothing. */
  lemma CallBreaksOff(bounded: bool, maxLen: nat, stream: seq<byte>, quiet: seq<Turn>, bad: Turn, more: seq<Turn>)
    requires |stream| >= HEADER_SIZE && |stream| >= HEADER_SIZE + LengthField(stream)
    requires maxLen >= HEADER_SIZE && !Oversized(stream, maxLen) && Quiet(bounded, quiet) && !Supplies(quiet, LengthField(stream))
    requires Late(bounded, bad) || bad.event in {SelectFailed, RecvFailed, PeerClosed}
    ensures var c := Call(bounded, maxLen, stream, quiet + ([bad] + more));
            !c.waiting && c.result == if Late(bounded, bad) && c.consumed == 0 then 0 else -1
  {
    FillBounds(bounded, true, quiet, |stream|, 0, HEADER_SIZE);
    QuietFill(bounded, true, quiet, |stream|, 0, HEADER_SIZE);
    FillBreaksOff(bounded, true, quiet, bad, more, |stream|, 0, HEADER_SIZE);
    var h := Fill(bounded, true, quiet, |stream|, 0, HEADER_SIZE);
    if h.received == HEADER_SIZE {
      var goal := HEADER_SIZE + LengthField(stream);
      QuietFill(bounded, false, h.rest, |stream|, HEADER_SIZE, goal);
      FillBounds(bounded, false, h.rest, |stream|, HEADER_SIZE, goal);
      FillBreaksOff(bounded, false, h.rest, bad, more, |stream|, HEADER_SIZE, goal);
      assert Fill(bounded, false, h.rest, |stream|, HEADER_SIZE, goal).received < goal;
    }
  }

  /** A header that announces too much fails the call at once, with only the header consumed. */
  lemma OversizedFails(bounded: bool, maxLen: nat, stream: seq<byte>, turns: seq<Turn>)
    requires HEADER_SIZE <= |stream| && HEADER_SIZE <= maxLen && Oversized(stream, maxLen) && Quiet(bounded, turns) && After(turns, HEADER_SIZE).Some?
    ensures Call(bounded, maxLen, stream, turns) == CallEnd(-1, false, HEADER_SIZE)
  {
    QuietFill(bounded, true, turns, |stream|, 0, HEADER_SIZE);
  }

  // ---------------------------------------------------------------- many calls

  /** What successive calls return, one script each: an empty read is followed by the next call,
      an error or an unfinished read is the end. */
  function Calls(bounded: bool, maxLen: nat, stream: seq<byte>, scripts: seq<seq<Turn>>): seq<seq<byte>>
    decreases |scripts|
  {
    if |scripts| == 0 then []
    else
      CallMeaning(bounded, maxLen, stream, scripts[0]);
      var c := Call(bounded, maxLen, stream, scripts[0]);
      if c.result > 0 then [stream[..c.result]] + Calls(bounded, maxLen, stream[c.result..], scripts[1..])
      else if c.result == 0 && !c.waiting then Calls(bounded, maxLen, stream, scripts[1..])
      else []
  }

  function Wires(packets: seq<Packet>): seq<seq<byte>>
    requires AllValid(packets)
  {
    if |packets| == 0 then [] else [Wire(packets[0])] + Wires(packets[1..])
  }

  /** On a stream that starts with a frame a positive result takes exactly that frame. */
  lemma FirstFrame(p: Packet, rest: seq<byte>)
    requires Valid(p)
    ensures var stream := Wire(p) + rest;
            && |stream| >= HEADER_SIZE && LengthField(stream) == |p.payload| && HEADER_SIZE + |p.payload| == |Wire(p)|
            && stream[..|Wire(p)|] == Wire(p) && stream[|Wire(p)|..] == rest
  {
    WireFields(p, rest);
    SplitAt(Wire(p), rest);
  }

  lemma CallsTakeFirst(bounded: bool, maxLen: nat, packets: seq<Packet>, tail: seq<byte>, scripts: seq<seq<Turn>>)
    requires AllValid(packets) && |packets| > 0 && |scripts| > 0
    requires Call(bounded, maxLen, Concat(packets) + tail, scripts[0]).result > 0
    ensures Calls(bounded, maxLen, Concat(packets) + tail, scripts) ==
            [Wire(packets[0])] + Calls(bounded, maxLen, Concat(packets[1..]) + tail, scripts[1..])
  {
    CallMeaning(bounded, maxLen, Concat(packets) + tail, scripts[0]);
    ConcatStep(packets, tail);
    FirstFrame(packets[0], Concat(packets[1..]) + tail);
  }

  /** The blocks are the frames, as far as both go. */
  predicate Agree(blocks: seq<seq<byte>>, packets: seq<Packet>)
    requires AllValid(packets)
  {
    |blocks| == 0 || |packets| == 0 || (blocks[0] == Wire(packets[0]) && Agree(blocks[1..], packets[1..]))
  }

  lemma AgreeCons(p: Packet, packets: seq<Packet>, blocks: seq<seq<byte>>)
    requires |packets| > 0 && AllValid(packets) && packets[0] == p && Agree(blocks, packets[1..])
    ensures Agree([Wire(p)] + blocks, packets)
  {
    assert ([Wire(p)] + blocks)[1..] == blocks;
  }

  /** Whatever the chunking, the stalls and the failures, what the calls return of a stream that
      starts with the frames `packets` are those frames, one each, in order. */
  lemma {:induction false} CallsReturnFramesOnly(bounded: bool, maxLen: nat, packets: seq<Packet>, tail: seq<byte>, scripts: seq<seq<Turn>>)
    requires AllValid(packets)
    ensures Agree(Calls(bounded, maxLen, Concat(packets) + tail, scripts), packets)
    decreases |scripts|
  {
    if |scripts| > 0 && |packets| > 0 {
      var c := Call(bounded, maxLen, Concat(packets) + tail, scripts[0]);
      if c.result > 0 {
        CallsTakeFirst(bounded, maxLen, packets, tail, scripts);
        CallsReturnFramesOnly(bounded, maxLen, packets[1..], tail, scripts[1..]);
        AgreeCons(packets[0], packets, Calls(bounded, maxLen, Concat(packets[1..]) + tail, scripts[1..]));
      } else if c.result == 0 && !c.waiting {
        CallsReturnFramesOnly(bounded, maxLen, packets, tail, scripts[1..]);
      }
    }
  }

  lemma {:induction false} AgreeMeaning(blocks: seq<seq<byte>>, packets: seq<Packet>, i: nat)
    requires AllValid(packets) && Agree(blocks, packets) && i < |blocks| && i < |packets|
    ensures blocks[i] == Wire(packets[i])
  {
    if i > 0 {
      AgreeMeaning(blocks[1..], packets[1..], i - 1);
    }
  }

  /** And they are all returned when each call's chunks supply its frame and nothing ends a call:
      reading a concatenation of frames, delivered in any chunking, gives exactly those frames. */
  lemma {:induction false} CallsReturnFrames(bounded: bool, maxLen: nat, packets: seq<Packet>, tail: seq<byte>, scripts: seq<seq<Turn>>)
    requires AllValid(packets) && |scripts| == |packets| && maxLen >= HEADER_SIZE + MAX_PAYLOAD
    requires forall i :: 0 <= i < |packets| ==> Quiet(bounded, scripts[i]) && Supplies(scripts[i], |packets[i].payload|)
    ensures Calls(bounded, maxLen, Concat(packets) + tail, scripts) == Wires(packets)
    decreases |packets|
  {
    if |packets| > 0 {
      var stream, rest := Concat(packets) + tail, Concat(packets[1..]) + tail;
      ConcatStep(packets, tail);
      FirstFrame(packets[0], rest);
      CallReturnsFrame(bounded, maxLen, stream, scripts[0]);
      CallsReturnFrames(bounded, maxLen, packets[1..], tail, scripts[1..]);
    }
  }
}
