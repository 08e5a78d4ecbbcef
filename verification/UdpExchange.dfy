/** Two `UDPStream`s as each other's peer: acknowledgements are taken for the frames they answer
    and for no others, handshake frames pass the duplicate filter once each, and on session frames
    the stream does what the ARQ machine assumes. */
module UdpExchange {
  import opened Crc16
  import opened Frame
  import opened UdpArq
  import opened UdpStream

  lemma AckFields(ptype: byte, seqNo: uint32, tag: seq<byte>)
    ensures var d := [UTACK_MARK, UTACK_MARK, ptype] + Le(seqNo, 4) + tag;
            IsUtack(d) && d[2] == ptype && Get32(d, 3) == seqNo && d[UTACK_HEADER_LEN..] == tag
            && d[..UTACK_HEADER_LEN] == [UTACK_MARK, UTACK_MARK, ptype] + Le(seqNo, 4)
  {
    var d := [UTACK_MARK, UTACK_MARK, ptype] + Le(seqNo, 4) + tag;
    assert Pow256(4) == 0x1_0000_0000;
    GetOfLe(seqNo, 4);
    assert d[3..7] == Le(seqNo, 4);
  }

  function AckHeader(ptype: byte, seqNo: uint32): seq<byte> { [UTACK_MARK, UTACK_MARK, ptype] + Le(seqNo, 4) }

  lemma AnswerCounts(a: Stream, ptype: byte, seqNo: uint32, tag: seq<byte>)
    requires |tag| == 0 || |tag| == UTACK_MAC_LEN
    ensures var r := AckHeader(ptype, seqNo) + tag;
            && IsUtack(r) && r[UTACK_HEADER_LEN..] == tag
            && (a.Acknowledges(r) <==>
                && a.pending == Pending(ptype, seqNo)
                && (ptype >= 5 ==> a.txKey.Some? && |tag| > 0 && a.mac(a.txKey.value, AckHeader(ptype, seqNo)) == tag))
  {
    AckFields(ptype, seqNo, tag);
    var r := AckHeader(ptype, seqNo) + tag;
    assert |tag| > 0 ==> r[UTACK_HEADER_LEN..UTACK_HEADER_LEN + UTACK_MAC_LEN] == tag;
  }

  /** `d` is written, the peer takes `e` (the same frame or another), and its answer comes back:
      it counts exactly if it is for that type and sequence and, from the session frames on, if the
      peer's receive key is the writer's transmit key. */
  method Exchange(a: Stream, b: Stream, d: seq<byte>, e: seq<byte>) returns (answered: bool)
    requires a != b && a.Valid() && b.Valid() && a.mac == b.mac && !a.closed && !a.ackReceived && |d| >= 8 && |e| >= 8
    requires forall k, h :: |a.mac(k, h)| == UTACK_MAC_LEN
    requires a.txKey.Some? && b.rxKey.Some? && a.txKey != b.rxKey ==> forall h :: a.mac(a.txKey.value, h) != a.mac(b.rxKey.value, h)
    modifies a, b
    ensures a.Valid() && b.Valid()
    ensures a.ackReceived <==>
            && answered && e[3] == d[3] && Get32(e, 4) == Get32(d, 4)
            && (e[3] >= 5 ==> a.txKey.Some? && b.rxKey == a.txKey)
  {
    var ok := a.Write(d);
    var reply := b.FeedPacket(e);
    answered := reply.Some?;
    if answered {
      ghost var header := AckHeader(e[3], Get32(e, 4));
      ghost var tag := if e[3] >= 5 && b.rxKey.Some? then b.mac(b.rxKey.value, header) else [];
      assert reply.value == header + tag;
      AnswerCounts(a, e[3], Get32(e, 4), tag);
      var none := a.FeedPacket(reply.value);
    }
  }

  // ---------------------------------------------------------------- the handshake

  /** The handshake frames that come to a server, and to a client. */
  predicate Inbound(isServer: bool, t: byte) { if isServer then t == 1 || t == 3 else t == HELLO_RETRY || t == 2 || t == 4 }

  /** The order of the five messages; before any of them it is -1. */
  function Rank(t: int): int { if t == -1 then -1 else if t == HELLO_RETRY then 0 else t }

  predicate AllFrames(ds: seq<seq<byte>>) { forall i :: 0 <= i < |ds| ==> OneFrame(ds[i]) }

  /** The datagrams that are further on in the handshake than every one before them. */
  function Advances(rank: int, ds: seq<seq<byte>>): seq<seq<byte>>
    requires AllFrames(ds)
    decreases |ds|
  {
    if |ds| == 0 then []
    else if rank < Rank(ds[0][3]) then [ds[0]] + Advances(Rank(ds[0][3]), ds[1..])
    else Advances(rank, ds[1..])
  }

  lemma {:induction false} AdvancesSnoc(rank: int, ds: seq<seq<byte>>, d: seq<byte>, last: int)
    requires OneFrame(d) && AllFrames(ds)
    requires last == Furthest(rank, ds)
    ensures Advances(rank, ds + [d]) == if last < Rank(d[3]) then Advances(rank, ds) + [d] else Advances(rank, ds)
    decreases |ds|
  {
    if |ds| == 0 {
      assert (ds + [d])[1..] == [] && [d] + [] == [d];
    } else {
      assert (ds + [d])[0] == ds[0] && (ds + [d])[1..] == ds[1..] + [d];
      AdvancesSnoc(if rank < Rank(ds[0][3]) then Rank(ds[0][3]) else rank, ds[1..], d, last);
    }
  }

  function Furthest(rank: int, ds: seq<seq<byte>>): int
    requires AllFrames(ds)
    decreases |ds|
  {
    if |ds| == 0 then rank else Furthest(if rank < Rank(ds[0][3]) then Rank(ds[0][3]) else rank, ds[1..])
  }

  lemma {:induction false} FurthestSnoc(rank: int, ds: seq<seq<byte>>, d: seq<byte>)
    requires OneFrame(d) && AllFrames(ds)
    ensures Furthest(rank, ds + [d]) == if Furthest(rank, ds) < Rank(d[3]) then Rank(d[3]) else Furthest(rank, ds)
    decreases |ds|
  {
    if |ds| == 0 {
      assert (ds + [d])[1..] == [];
    } else {
      assert (ds + [d])[0] == ds[0] && (ds + [d])[1..] == ds[1..] + [d];
      FurthestSnoc(if rank < Rank(ds[0][3]) then Rank(ds[0][3]) else rank, ds[1..], d);
    }
  }

  lemma {:induction false} FlattenGrows(ds: seq<seq<byte>>, k: nat)
    requires k <= |ds|
    ensures |Flatten(ds[..k])| <= |Flatten(ds)|
    decreases |ds| - k
  {
    if k < |ds| {
      assert ds[..k + 1] == ds[..k] + [ds[k]];
      FlattenSnoc(ds[..k], ds[k]);
      FlattenGrows(ds, k + 1);
    } else {
      assert ds[..k] == ds;
    }
  }

  /** The last handshake frame marked is one that comes to this end. */
  predicate InRole(b: Stream)
    reads b
  {
    !b.closed && (b.lastRxType == -1 || (0 <= b.lastRxType < 256 && Inbound(b.isServer, b.lastRxType)))
  }

  method TakeHandshakeFrame(b: Stream, d: seq<byte>) returns (answered: bool)
    requires b.Valid() && InRole(b) && OneFrame(d) && Inbound(b.isServer, d[3]) && HasRoom(|b.readBuffer|, |d|)
    modifies b
    ensures b.Valid() && InRole(b) && answered
    ensures var further := Rank(old(b.lastRxType)) < Rank(d[3]);
            && b.queue == (if further then old(b.queue) + [d] else old(b.queue))
            && Rank(b.lastRxType) == (if further then Rank(d[3]) else Rank(old(b.lastRxType)))
    ensures |b.readBuffer| <= |old(b.readBuffer)| + |d|
  {
    NotAnAck(d);
    FlattenSnoc(b.queue, d);
    var reply := b.FeedPacket(d);
    answered := reply.Some?;
  }

  lemma ArrivalStep(start: int, ds: seq<seq<byte>>, i: nat)
    requires i < |ds| && AllFrames(ds)
    ensures AllFrames(ds[..i]) && AllFrames(ds[..i + 1])
    ensures var last, further := Furthest(start, ds[..i]), Furthest(start, ds[..i]) < Rank(ds[i][3]);
            && Advances(start, ds[..i + 1]) == (if further then Advances(start, ds[..i]) + [ds[i]] else Advances(start, ds[..i]))
            && Furthest(start, ds[..i + 1]) == (if further then Rank(ds[i][3]) else last)
    ensures |Flatten(ds[..i])| + |ds[i]| == |Flatten(ds[..i + 1])| <= |Flatten(ds)|
  {
    var before := ds[..i];
    assert ds[..i + 1] == before + [ds[i]];
    AdvancesSnoc(start, before, ds[i], Furthest(start, before));
    FurthestSnoc(start, before, ds[i]);
    FlattenSnoc(before, ds[i]);
    FlattenGrows(ds, i + 1);
  }

  /** What the stream has handed on, how far the handshake is, and how full the buffer, when `i` of
      the datagrams have come. */
  ghost predicate HandedOn(queue: seq<seq<byte>>, rank: int, size: nat, before: seq<seq<byte>>, start: int, room: nat,
                           ds: seq<seq<byte>>, i: nat)
    requires i <= |ds|
  {
    && AllFrames(ds[..i]) && queue == before + Advances(start, ds[..i]) && rank == Furthest(start, ds[..i])
    && size <= room + |Flatten(ds[..i])|
  }

  lemma HandedNext(queue: seq<seq<byte>>, rank: int, size: nat, size': nat, before: seq<seq<byte>>, start: int, room: nat,
                   ds: seq<seq<byte>>, i: nat)
    requires i < |ds| && AllFrames(ds) && HandedOn(queue, rank, size, before, start, room, ds, i) && size' <= size + |ds[i]|
    ensures var further := rank < Rank(ds[i][3]);
            HandedOn(if further then queue + [ds[i]] else queue, if further then Rank(ds[i][3]) else rank, size', before, start, room, ds, i + 1)
  {
    ArrivalStep(start, ds, i);
  }

  lemma RoomLeft(queue: seq<seq<byte>>, rank: int, size: nat, before: seq<seq<byte>>, start: int, room: nat, ds: seq<seq<byte>>, i: nat)
    requires i < |ds| && AllFrames(ds) && HandedOn(queue, rank, size, before, start, room, ds, i)
    requires room + |Flatten(ds)| <= MAX_READ_BUFFER
    ensures HasRoom(size, |ds[i]|)
  {
    ArrivalStep(start, ds, i);
  }

  /** The frames of a handshake, retransmitted and duplicated as often as may be: the stream hands
      on each message once, when it first comes, and never one that is behind another; and every
      datagram is acknowledged. */
  method HandshakeArrivals(b: Stream, ds: seq<seq<byte>>) returns (answers: nat)
    requires b.Valid() && InRole(b)
    requires AllFrames(ds) && forall i :: 0 <= i < |ds| ==> Inbound(b.isServer, ds[i][3])
    requires |b.readBuffer| + |Flatten(ds)| <= MAX_READ_BUFFER
    modifies b
    ensures b.Valid() && answers == |ds|
    ensures b.queue == old(b.queue) + Advances(Rank(old(b.lastRxType)), ds)
  {
    answers := 0;
    ghost var before, start, room := b.queue, Rank(b.lastRxType), |b.readBuffer|;
    assert ds[..0] == [] && b.queue == before + [];
    for i := 0 to |ds|
      invariant answers == i && b.Valid() && InRole(b)
      invariant HandedOn(b.queue, Rank(b.lastRxType), |b.readBuffer|, before, start, room, ds, i)
    {
      ghost var queue, rank, size := b.queue, Rank(b.lastRxType), |b.readBuffer|;
      RoomLeft(queue, rank, size, before, start, room, ds, i);
      var answered := TakeHandshakeFrame(b, ds[i]);
      HandedNext(queue, rank, size, |b.readBuffer|, before, start, room, ds, i);
      if answered {
        answers := answers + 1;
      }
    }
    assert ds[..|ds|] == ds;
  }

  /** A frame does not look like an acknowledgement. */
  lemma NotAnAck(d: seq<byte>)
    requires OneFrame(d)
    ensures !IsUtack(d)
  {
    GetTwo(d[0..2]);
  }

  // ---------------------------------------------------------------- the session

  function Wires(packets: seq<Packet>): seq<seq<byte>>
    requires AllValid(packets)
  {
    if |packets| == 0 then [] else [Wire(packets[0])] + Wires(packets[1..])
  }

  lemma {:induction false} WiresSnoc(packets: seq<Packet>, p: Packet)
    requires AllValid(packets) && Valid(p)
    ensures AllValid(packets + [p]) && Wires(packets + [p]) == Wires(packets) + [Wire(p)]
    decreases |packets|
  {
    if |packets| == 0 {
      assert packets + [p] == [p] && [p][1..] == [];
    } else {
      assert (packets + [p])[1..] == packets[1..] + [p];
      WiresSnoc(packets[1..], p);
    }
  }

  lemma {:induction false} WiresSize(packets: seq<Packet>)
    requires AllValid(packets)
    ensures |Flatten(Wires(packets))| == TotalSize(packets)
    decreases |packets|
  {
    if |packets| > 0 {
      WiresSize(packets[1..]);
      assert Wires(packets)[1..] == Wires(packets[1..]);
    }
  }

  /** The stream holds, and has authenticated, what the receiver of the machine has. */
  ghost predicate Mirrors(b: Stream, s: System)
    reads b
  {
    b.Valid() && !b.closed && s.read <= |s.history| && AllValid(s.history)
    && b.queue == Wires(Buffered(s)) && b.lastRxSeq == s.lastRxSeq
  }

  lemma FrameFields(p: Packet)
    requires Valid(p)
    ensures var d := Wire(p); OneFrame(d) && !IsUtack(d) && d[3] == p.ptype && Get32(d, 4) == p.seqNo && |d| == FrameSize(p)
  {
    WireFields(p, []);
    assert Wire(p) + [] == Wire(p);
    NotAnAck(Wire(p));
  }

  lemma SizeMirrored(b: Stream, s: System)
    requires Mirrors(b, s)
    ensures |b.readBuffer| == TotalSize(Buffered(s))
  {
    WiresSize(Buffered(s));
  }

  lemma FilterIsArqs(b: Stream, p: Packet, d: seq<byte>, size: nat)
    requires b.Valid() && !b.closed && size == |b.readBuffer| && p.ptype >= 5 && p.ptype != HELLO_RETRY && b.lastRxSeq >= -1
    requires OneFrame(d) && !IsUtack(d) && d[3] == p.ptype && Get32(d, 4) == p.seqNo && |d| == FrameSize(p)
    ensures b.Repeated(d) <==> TooOld(b.lastRxSeq, p.seqNo)
    ensures b.Accepts(d) <==> !TooOld(b.lastRxSeq, p.seqNo) && HasRoom(size, FrameSize(p))
  {}

  /** What the machine buffers, as datagrams. */
  lemma OneMoreBuffered(s: System, p: Packet)
    requires s.read <= |s.history| && AllValid(s.history) && Valid(p)
    ensures var t := s.(history := s.history + [p]);
            AllValid(t.history) && Wires(Buffered(t)) == Wires(Buffered(s)) + [Wire(p)]
  {
    WiresSnoc(Buffered(s), p);
    assert (s.history + [p])[s.read..] == Buffered(s) + [p];
  }

  lemma BufferedIsHistory(s: System, t: System)
    requires s.read == t.read && s.history == t.history
    ensures Buffered(s) == Buffered(t)
  {}

  /** A session frame that arrives does to the stream what the machine's step does, and it is
      acknowledged exactly when the machine acknowledges it. */
  method FeedIsArqFeed(b: Stream, p: Packet, ghost s: System) returns (answered: bool)
    requires Mirrors(b, s) && SessionFrame(p)
    modifies b
    ensures Mirrors(b, Feed(s, p))
    ensures Feed(s, p).acks == s.acks + if answered then {Ack(p.ptype, p.seqNo)} else {}
  {
    ghost var size := TotalSize(Buffered(s));
    FrameFields(p);
    SizeMirrored(b, s);
    FilterIsArqs(b, p, Wire(p), size);
    OneMoreBuffered(s, p);
    BufferedIsHistory(Feed(s, p), s.(history := Feed(s, p).history));
    var reply := b.FeedPacket(Wire(p));
    answered := reply.Some?;
  }

  /** Reading the next frame and, if the session's window takes it, confirming it: the machine's
      step for the session's reading. */
  method ReadIsArqTake(b: Stream, ghost s: System, isNew: bool) returns (r: ReadResult)
    requires Mirrors(b, s) && s.read < |s.history| && isNew == s.window.Fresh(s.history[s.read].seqNo)
    modifies b
    ensures r == UdpStream.ReadResult.Frame(Ok(s.history[s.read]))
    ensures Mirrors(b, Take(s))
  {
    r := ReadAndConfirm(b, s, isNew);
    AfterTake(b, s, isNew);
  }

  method ReadAndConfirm(b: Stream, ghost s: System, isNew: bool) returns (r: ReadResult)
    requires Mirrors(b, s) && s.read < |s.history|
    modifies b
    ensures r == UdpStream.ReadResult.Frame(Ok(s.history[s.read]))
    ensures b.Valid() && !b.closed && b.queue == Wires(Buffered(s.(read := s.read + 1))) && b.lastRxSeq == HighAfter(s, isNew)
  {
    r := ReadHead(b, s);
    if isNew {
      b.ConfirmAuthenticated(r.result.value.seqNo);
    }
  }

  /** The highest authenticated sequence after the next frame. */
  function HighAfter(s: System, isNew: bool): int
    requires s.read < |s.history|
  {
    var seqNo := s.history[s.read].seqNo;
    if isNew && seqNo > s.lastRxSeq then seqNo else s.lastRxSeq
  }

  lemma AfterTake(b: Stream, s: System, isNew: bool)
    requires s.read < |s.history| && AllValid(s.history) && isNew == s.window.Fresh(s.history[s.read].seqNo)
    requires b.Valid() && !b.closed && b.queue == Wires(Buffered(s.(read := s.read + 1))) && b.lastRxSeq == HighAfter(s, isNew)
    ensures Mirrors(b, Take(s))
  {
    TakeFields(s);
  }

  method ReadHead(b: Stream, ghost s: System) returns (r: ReadResult)
    requires Mirrors(b, s) && s.read < |s.history|
    modifies b`readBuffer, b`queue
    ensures b.Valid() && r == UdpStream.ReadResult.Frame(Ok(s.history[s.read]))
    ensures b.queue == Wires(Buffered(s.(read := s.read + 1)))
  {
    HeadBuffered(s);
    r := b.ReadFrame(true);
  }

  lemma TakeFields(s: System)
    requires s.read < |s.history|
    ensures var t, p := Take(s), s.history[s.read];
            && t.read == s.read + 1 && t.history == s.history && Buffered(t) == Buffered(s.(read := s.read + 1))
            && t.lastRxSeq == if s.window.Fresh(p.seqNo) && p.seqNo > s.lastRxSeq then p.seqNo else s.lastRxSeq
  {
    BufferedIsHistory(Take(s), s.(read := s.read + 1));
  }

  lemma HeadBuffered(s: System)
    requires s.read < |s.history| && AllValid(s.history)
    ensures var p := s.history[s.read];
            && |Wires(Buffered(s))| > 0 && Decode(Wires(Buffered(s))[0], true) == Ok(p)
            && Wires(Buffered(s))[1..] == Wires(Buffered(s.(read := s.read + 1)))
  {
    var p := s.history[s.read];
    assert Buffered(s) == [p] + s.history[s.read + 1..];
    DecodeOfEncode(p, [], true);
    assert Wire(p) + [] == Wire(p);
  }
}
