/** `UDPStream`: the datagram filter, the byte buffer behind it, and reading frames out of it. */
module UdpStream {
  import opened Crc16
  import opened Frame
  import opened UdpArq
  import K = SymbolicKeys
  import R = Rto

  const UTACK_MARK: byte := 0xAC
  const UTACK_HEADER_LEN: nat := 7
  const UTACK_MAC_LEN: nat := 8

  /** Type and sequence of a frame that waits for its acknowledgement. */
  datatype Pending = NoPending | Pending(ptype: byte, seqNo: uint32)

  /** What one `read_frame` call does. */
  datatype ReadResult = MustWait | EndOfStream | Frame(result: Result<Packet>)

  function Flatten(datagrams: seq<seq<byte>>): seq<byte> {
    if |datagrams| == 0 then [] else datagrams[0] + Flatten(datagrams[1..])
  }

  lemma {:induction false} FlattenSnoc(datagrams: seq<seq<byte>>, d: seq<byte>)
    ensures Flatten(datagrams + [d]) == Flatten(datagrams) + d
  {
    if |datagrams| == 0 {
      assert datagrams + [d] == [d];
    } else {
      FlattenSnoc(datagrams[1..], d);
      assert (datagrams + [d])[1..] == datagrams[1..] + [d];
    }
  }

  /** A datagram that holds exactly one frame of admissible size. */
  predicate OneFrame(d: seq<byte>) {
    |d| >= HEADER_SIZE && Get16(d, 0) == MAGIC && LengthField(d) <= MAX_PAYLOAD && |d| == HEADER_SIZE + LengthField(d)
  }

  predicate IsUtack(d: seq<byte>) {
    |d| >= UTACK_HEADER_LEN && d[0] == UTACK_MARK && d[1] == UTACK_MARK
  }

  predicate SessionType(t: byte) { t >= 5 && t != HELLO_RETRY }

  /** The wait of the k-th attempt. */
  function Wait(rto: real, k: nat): real {
    Bounded(Times(rto, R.Pow2(k) as real))
  }

  function Times(x: real, y: real): real { x * y }

  function Bounded(wait: real): real { if wait < 0.05 then 0.05 else if wait > 5.0 then 5.0 else wait }

  /** The timer is between a tenth of a second and five seconds, at first and after any
      measurement, so the waits start at its value and double up to five seconds. */
  lemma WaitsDouble(f: R.Filter, sample: real, k: nat)
    ensures var rto := R.ObserveSeconds(f, sample).rto;
            && 0.1 <= rto <= 5.0 && Wait(rto, 0) == rto
            && Wait(rto, k + 1) == if 2.0 * Wait(rto, k) > 5.0 then 5.0 else 2.0 * Wait(rto, k)
    ensures Wait(R.SECONDS_START.rto, 0) == 0.5
    ensures var rto := R.SECONDS_START.rto;
            Wait(rto, k + 1) == if 2.0 * Wait(rto, k) > 5.0 then 5.0 else 2.0 * Wait(rto, k)
  {
    WaitDoubles(R.ObserveSeconds(f, sample).rto, k);
    WaitDoubles(R.SECONDS_START.rto, k);
  }

  lemma WaitDoubles(rto: real, k: nat)
    requires 0.1 <= rto <= 5.0
    ensures Wait(rto, 0) == rto
    ensures Wait(rto, k + 1) == if 2.0 * Wait(rto, k) > 5.0 then 5.0 else 2.0 * Wait(rto, k)
  {
    PowersDouble(k);
    TimesDoubles(rto, R.Pow2(k) as real);
  }

  lemma {:induction false} PowersDouble(k: nat)
    ensures R.Pow2(0) as real == 1.0 <= R.Pow2(k) as real && R.Pow2(k + 1) as real == 2.0 * R.Pow2(k) as real
  {
    if k > 0 { PowersDouble(k - 1); }
  }

  lemma TimesDoubles(rto: real, p: real)
    requires rto >= 0.1 && p >= 1.0
    ensures Times(rto, 1.0) == rto && Times(rto, p) >= 0.1 && Times(rto, 2.0 * p) == 2.0 * Times(rto, p)
  {
    assert rto * (p - 1.0) >= 0.0;
  }

  /** The event is set before the timeout. */
  predicate InTime(ack: K.Option<real>, timeout: real) { ack.Some? && ack.value <= timeout }

  class Stream {
    const isServer: bool
    /** The truncated HMAC over an acknowledgement header. */
    const mac: (K.Key, seq<byte>) -> seq<byte>
    var readBuffer: seq<byte>
    var lastRxSeq: int
    var lastRxType: int
    var pending: Pending
    var ackReceived: bool
    var closed: bool
    var outgoing: K.Option<seq<byte>>
    var timer: R.Filter
    var txKey: K.Option<K.Key>
    var rxKey: K.Option<K.Key>

    /** The datagrams in the buffer, undivided. */
    ghost var queue: seq<seq<byte>>

    ghost predicate Valid()
      reads this
    {
      && readBuffer == Flatten(queue) && |readBuffer| <= MAX_READ_BUFFER
      && (forall i :: 0 <= i < |queue| ==> OneFrame(queue[i]))
      && -1 <= lastRxSeq
    }

    constructor (isServer: bool, mac: (K.Key, seq<byte>) -> seq<byte>)
      ensures Valid() && queue == [] && lastRxSeq == -1 && !closed && !ackReceived
    {
      this.isServer, this.mac := isServer, mac;
      readBuffer, lastRxSeq, lastRxType, pending := [], -1, -1, NoPending;
      ackReceived, closed, txKey, rxKey := false, false, K.None, K.None;
      outgoing, timer := K.None, R.SECONDS_START;
      queue := [];
    }

    function BuildUtack(ptype: byte, seqNo: uint32): seq<byte>
      reads this
    {
      var header := [UTACK_MARK, UTACK_MARK, ptype] + Le(seqNo, 4);
      if ptype >= 5 && rxKey.Some? then header + mac(rxKey.value, header) else header
    }

    /** An acknowledgement counts when it names the pending frame and, for session frames,
        carries the right MAC. */
    predicate Acknowledges(d: seq<byte>)
      reads this
    {
      && IsUtack(d) && pending == Pending(d[2], Get32(d, 3))
      && (d[2] >= 5 ==>
          txKey.Some? && |d| >= UTACK_HEADER_LEN + UTACK_MAC_LEN
          && mac(txKey.value, d[..UTACK_HEADER_LEN]) == d[UTACK_HEADER_LEN..UTACK_HEADER_LEN + UTACK_MAC_LEN])
    }

    /** A frame that was seen before: acknowledged again, not buffered. */
    predicate Repeated(d: seq<byte>)
      requires |d| >= HEADER_SIZE
      reads this
    {
      var t := d[3];
      if SessionType(t) then TooOld(lastRxSeq, Get32(d, 4))
      else
        || t as int == lastRxType
        || (t == HELLO_RETRY && lastRxType != -1)
        || (t == 2 && lastRxType == 4)
        || (isServer && lastRxType != -1 && t as int <= lastRxType)
    }

    /** A handshake frame of a type not seen before; it is marked as seen before the room in the
        buffer is tested. */
    predicate Marks(d: seq<byte>)
      reads this
    {
      !closed && !IsUtack(d) && OneFrame(d) && !SessionType(d[3]) && !Repeated(d)
    }

    /** The datagrams that enter the buffer. */
    predicate Accepts(d: seq<byte>)
      reads this
    {
      !closed && !IsUtack(d) && OneFrame(d) && !Repeated(d) && HasRoom(|readBuffer|, |d|)
    }

    /** `feed_packet`; `reply` is the acknowledgement it sends, if any. */
    method FeedPacket(d: seq<byte>) returns (reply: K.Option<seq<byte>>)
      requires Valid()
      modifies this
      ensures Valid()
      ensures queue == if old(Accepts(d)) then old(queue) + [d] else old(queue)
      ensures reply == if !old(closed) && !IsUtack(d) && OneFrame(d) && (old(Repeated(d)) || old(Accepts(d)))
                       then K.Some(old(BuildUtack(d[3], Get32(d, 4)))) else K.None
      ensures ackReceived == (old(ackReceived) || (!old(closed) && old(Acknowledges(d))))
      ensures lastRxSeq == old(lastRxSeq) && pending == old(pending) && closed == old(closed)
      ensures txKey == old(txKey) && rxKey == old(rxKey)
      ensures lastRxType == if old(Marks(d)) then d[3] as int else old(lastRxType)
    {
      reply := K.None;
      if closed {
        return;
      }
      if |d| >= UTACK_HEADER_LEN && d[0] == UTACK_MARK && d[1] == UTACK_MARK {
        TakeUtack(d);
        return;
      }
      if |d| < HEADER_SIZE {
        return;
      }
      if Get16(d, 0) != MAGIC {
        return;
      }
      var length := LengthField(d);
      if length > MAX_PAYLOAD || |d| != HEADER_SIZE + length {
        return;
      }
      var t, seqNo := d[3], Get32(d, 4);
      if t < 5 || t == HELLO_RETRY {
        if t as int == lastRxType || (t == HELLO_RETRY && lastRxType != -1) || (t == 2 && lastRxType == 4)
           || (isServer && lastRxType != -1 && t as int <= lastRxType) {
          reply := K.Some(BuildUtack(t, seqNo));
          return;
        }
        lastRxType := t as int;
      } else if lastRxSeq != -1 && seqNo <= lastRxSeq - 64 {
        reply := K.Some(BuildUtack(t, seqNo));
        return;
      }
      if |readBuffer| + |d| > MAX_READ_BUFFER {
        return;
      }
      reply := K.Some(BuildUtack(t, seqNo));
      FlattenSnoc(queue, d);
      readBuffer := readBuffer + d;
      queue := queue + [d];
    }

    method TakeUtack(d: seq<byte>)
      requires IsUtack(d)
      modifies this`ackReceived
      ensures ackReceived == (old(ackReceived) || Acknowledges(d))
    {
      var ackType, ackSeq := d[2], Get32(d, 3);
      if ackType >= 5 {
        if txKey.None? || |d| < UTACK_HEADER_LEN + UTACK_MAC_LEN
           || mac(txKey.value, d[..UTACK_HEADER_LEN]) != d[UTACK_HEADER_LEN..UTACK_HEADER_LEN + UTACK_MAC_LEN] {
          return;
        }
      }
      if pending == Pending(ackType, ackSeq) {
        ackReceived := true;
      }
    }

    /** A new handshake frame and its retransmission: the sender always gets its acknowledgement
        in the end, but the frame is delivered exactly if the buffer had room for it when it first
        came. */
    method HandshakeFrameTwice(d: seq<byte>) returns (first: K.Option<seq<byte>>, second: K.Option<seq<byte>>)
      requires Valid() && Marks(d)
      modifies this
      ensures second.Some? && (first.Some? <==> HasRoom(|old(readBuffer)|, |d|))
      ensures queue == if HasRoom(|old(readBuffer)|, |d|) then old(queue) + [d] else old(queue)
    {
      first := FeedPacket(d);
      second := FeedPacket(d);
    }

    /** `write`: the frame waits for `drain`; its type and sequence name the acknowledgement. */
    method Write(data: seq<byte>) returns (ok: bool)
      requires Valid()
      modifies this`outgoing, this`pending
      ensures Valid() && (ok <==> !closed)
      ensures ok ==> outgoing == K.Some(data) && pending == if |data| >= 8 then Pending(data[3], Get32(data, 4)) else NoPending
      ensures !ok ==> outgoing == old(outgoing) && pending == old(pending)
    {
      if closed { return false; }
      outgoing := K.Some(data);
      pending := if |data| >= 8 then Pending(data[3], Get32(data, 4)) else NoPending;
      return true;
    }

    /** `drain`: `acks[k]` is when, after the k-th transmission, the acknowledgement event is set,
        if ever; it counts if that is within the attempt's timeout. The same bytes go out once per
        attempt, each after the last one's timeout; the timeouts double from the timer's value
        within 50 ms and 5 s; it fails exactly when five attempts stay unanswered; only a first
        attempt is measured. */
    method Drain(acks: seq<K.Option<real>>) returns (ok: bool, sent: seq<seq<byte>>, timeouts: seq<real>)
      requires Valid() && |acks| == R.ATTEMPTS
      modifies this`outgoing, this`ackReceived, this`timer
      ensures Valid() && outgoing == K.None
      ensures old(outgoing).None? ==> ok && sent == [] && timer == old(timer)
      ensures old(outgoing).Some? ==> |sent| >= 1 && forall i :: 0 <= i < |sent| ==> sent[i] == old(outgoing).value
      ensures old(outgoing).Some? && pending.NoPending? ==> ok && |sent| == 1 && timer == old(timer)
      ensures old(outgoing).Some? && pending.Pending? ==>
                && |sent| == |timeouts| <= R.ATTEMPTS
                && (forall i :: 0 <= i < |sent| - 1 ==> !InTime(acks[i], Wait(old(timer).rto, i)))
                && (ok <==> InTime(acks[|sent| - 1], Wait(old(timer).rto, |sent| - 1))) && (!ok ==> |sent| == R.ATTEMPTS)
                && (forall i :: 0 <= i < |timeouts| ==> timeouts[i] == Wait(old(timer).rto, i))
                && timer == if InTime(acks[0], Wait(old(timer).rto, 0)) then R.ObserveSeconds(old(timer), acks[0].value) else old(timer)
    {
      ok, sent, timeouts := true, [], [];
      if outgoing.None? { return; }
      var data := outgoing.value;
      outgoing := K.None;
      if pending.NoPending? {
        sent := [data];
        return;
      }
      ackReceived := false;
      var base := timer.rto;
      for attempt := 0 to R.ATTEMPTS
        invariant |sent| == |timeouts| == attempt && timer == old(timer)
        invariant forall i :: 0 <= i < attempt ==> sent[i] == data && !InTime(acks[i], Wait(base, i)) && timeouts[i] == Wait(base, i)
      {
        var timeout := Wait(base, attempt);
        timeouts := timeouts + [timeout];
        sent := sent + [data];
        if acks[attempt].Some? && acks[attempt].value <= timeout {
          if attempt == 0 {
            timer := R.ObserveSeconds(timer, acks[attempt].value);
          }
          return;
        }
      }
      ok := false;
    }

    method ConfirmAuthenticated(seqNo: uint32)
      requires Valid()
      modifies this`lastRxSeq
      ensures Valid() && lastRxSeq == if seqNo > old(lastRxSeq) then seqNo else old(lastRxSeq)
    {
      if seqNo > lastRxSeq {
        lastRxSeq := seqNo;
      }
    }

    /** `readexactly`, when the bytes are there. */
    method ReadExactly(n: nat) returns (bytes: seq<byte>)
      requires n <= |readBuffer|
      modifies this`readBuffer
      ensures bytes == old(readBuffer)[..n] && readBuffer == old(readBuffer)[n..]
    {
      bytes := readBuffer[..n];
      readBuffer := readBuffer[n..];
    }

    /** `read_frame` on this stream. Whatever the outcome, one call takes exactly one datagram
        off the queue, or none when there is none; so every call starts at a boundary. */
    method ReadFrame(verifyCrc: bool) returns (r: ReadResult)
      requires Valid()
      modifies this`readBuffer, this`queue
      ensures Valid()
      ensures old(queue) == [] ==> queue == [] && r == if closed then EndOfStream else MustWait
      ensures old(queue) != [] ==> queue == old(queue)[1..] && r == Frame(Decode(old(queue)[0], verifyCrc))
    {
      if |queue| > 0 {
        BufferHead();
      }
      if |readBuffer| < HEADER_SIZE {
        return if closed then EndOfStream else MustWait;
      }
      ghost var d := queue[0];
      ghost var rest := Flatten(queue[1..]);
      var header := ReadExactly(HEADER_SIZE);
      assert header == d[..HEADER_SIZE] && header[0..2] == d[0..2] && header[8..10] == d[8..10];
      if Get16(header, 0) != MAGIC {
        return Frame(Fail(BadMagic));
      }
      var length := LengthField(header);
      if length > MAX_PAYLOAD {
        return Frame(Fail(TooLarge));
      }
      var payload := [];
      if length > 0 {
        assert readBuffer == d[HEADER_SIZE..] + rest;
        payload := ReadExactly(length);
      }
      assert payload == d[HEADER_SIZE..] && readBuffer == rest;
      assert header + payload == d;
      queue := queue[1..];
      return Frame(Decode(header + payload, verifyCrc));
    }

    lemma BufferHead()
      requires Valid() && |queue| > 0
      ensures readBuffer == queue[0] + Flatten(queue[1..]) && |readBuffer| >= HEADER_SIZE + LengthField(queue[0])
      ensures readBuffer[..HEADER_SIZE] == queue[0][..HEADER_SIZE]
      ensures readBuffer[HEADER_SIZE..] == queue[0][HEADER_SIZE..] + Flatten(queue[1..])
    {}
  }
}
