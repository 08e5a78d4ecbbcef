/** The wire frame: magic(2) version(1) type(1) seq(4) length(2) crc(2) payload, little-endian. */
module Frame {
  import opened Crc16

  const MAGIC: nat := 0xABCD
  const VERSION: byte := 2
  const HEADER_SIZE: nat := 12
  const MAX_PAYLOAD: nat := 480

  const DATA: byte := 0x05
  const PING: byte := 0x06
  const PONG: byte := 0x07
  const BYE: byte := 0x08
  const DATA_FRAG: byte := 0x09
  const HELLO_RETRY: byte := 0x0A
  const REKEY: byte := 0x0B
  const ERROR: byte := 0xFF

  type uint16 = n: int | 0 <= n < 0x1_0000
  type uint32 = n: int | 0 <= n < 0x1_0000_0000

  /** The members of the `PacketType` enumeration. */
  predicate KnownType(t: byte) { 1 <= t <= REKEY || t == ERROR }

  datatype Packet = Packet(version: byte, ptype: byte, seqNo: uint32, payload: seq<byte>)

  datatype FrameError = TooShort | BadMagic | BadVersion | TooLarge | Truncated | BadCrc | UnknownType

  datatype Result<+T> = Ok(value: T) | Fail(error: FrameError)

  // ---------------------------------------------------------------- little-endian fields

  function Pow256(k: nat): nat { if k == 0 then 1 else 256 * Pow256(k - 1) }

  /** The low `k` bytes of `n`, lowest first. */
  function Le(n: nat, k: nat): (s: seq<byte>)
    ensures |s| == k
  {
    if k == 0 then [] else [n % 256] + Le(n / 256, k - 1)
  }

  function Get(s: seq<byte>): (n: nat)
    ensures n < Pow256(|s|)
  {
    if |s| == 0 then 0 else s[0] as int + 256 * Get(s[1..])
  }

  lemma {:induction false} GetOfLe(n: nat, k: nat)
    requires n < Pow256(k)
    ensures Get(Le(n, k)) == n
  {
    if k > 0 {
      assert Le(n, k)[1..] == Le(n / 256, k - 1);
      GetOfLe(n / 256, k - 1);
    }
  }

  lemma {:induction false} LeOfGet(s: seq<byte>)
    ensures Le(Get(s), |s|) == s
  {
    if |s| > 0 {
      LeOfGet(s[1..]);
      assert Get(s) / 256 == Get(s[1..]) && Get(s) % 256 == s[0];
    }
  }

  function Get16(s: seq<byte>, at: nat): uint16
    requires at + 2 <= |s|
  {
    assert Pow256(2) == 0x1_0000;
    Get(s[at..at + 2])
  }

  function Get32(s: seq<byte>, at: nat): uint32
    requires at + 4 <= |s|
  {
    assert Pow256(4) == 0x1_0000_0000;
    Get(s[at..at + 4])
  }

  // ---------------------------------------------------------------- printer

  /** The ten header bytes that the CRC covers and that the AEAD authenticates. */
  function Header(version: byte, ptype: byte, seqNo: uint32, length: uint16): (h: seq<byte>)
    ensures |h| == 10
  {
    Le(MAGIC, 2) + [version, ptype] + Le(seqNo, 4) + Le(length, 2)
  }

  function Wire(p: Packet): (w: seq<byte>)
    requires |p.payload| <= MAX_PAYLOAD
    ensures |w| == HEADER_SIZE + |p.payload|
  {
    var header := Header(p.version, p.ptype, p.seqNo, |p.payload|);
    header + Le(CrcNumber(header + p.payload), 2) + p.payload
  }

  /** `encode_frame`. */
  function Encode(p: Packet): Result<seq<byte>> {
    if |p.payload| > MAX_PAYLOAD then Fail(TooLarge) else Ok(Wire(p))
  }

  // ---------------------------------------------------------------- parser

  function LengthField(data: seq<byte>): uint16
    requires |data| >= HEADER_SIZE
  {
    Get16(data, 8)
  }

  /** The bytes of an accepted string that its CRC covers. */
  function Covered(data: seq<byte>): seq<byte>
    requires |data| >= HEADER_SIZE && |data| >= HEADER_SIZE + LengthField(data)
  {
    data[..10] + data[HEADER_SIZE..HEADER_SIZE + LengthField(data)]
  }

  /** `decode_frame`. */
  function Decode(data: seq<byte>, verifyCrc: bool): Result<Packet> {
    if |data| < HEADER_SIZE then Fail(TooShort)
    else if Get16(data, 0) != MAGIC then Fail(BadMagic)
    else if data[2] != VERSION then Fail(BadVersion)
    else if LengthField(data) > MAX_PAYLOAD then Fail(TooLarge)
    else if |data| < HEADER_SIZE + LengthField(data) then Fail(Truncated)
    else if verifyCrc && !CrcRight(data) then Fail(BadCrc)
    else if !KnownType(data[3]) then Fail(UnknownType)
    else Ok(Packet(data[2], data[3], Get32(data, 4), data[HEADER_SIZE..HEADER_SIZE + LengthField(data)]))
  }

  /** The CRC field against the fields and the payload that were read. */
  predicate CrcRight(data: seq<byte>)
    requires |data| >= HEADER_SIZE && |data| >= HEADER_SIZE + LengthField(data)
  {
    Get16(data, 10) == CrcNumber(
      Header(data[2], data[3], Get32(data, 4), LengthField(data)) + data[HEADER_SIZE..HEADER_SIZE + LengthField(data)])
  }

  /** Nothing is wrong with the string but, perhaps, its type byte. */
  predicate Passes(data: seq<byte>) {
    Decode(data, true).Ok? || Decode(data, true) == Fail(UnknownType)
  }

  predicate Valid(p: Packet) {
    p.version == VERSION && KnownType(p.ptype) && |p.payload| <= MAX_PAYLOAD
  }

  lemma HeaderParts(version: byte, ptype: byte, seqNo: uint32, length: uint16)
    ensures var h := Header(version, ptype, seqNo, length);
            h[0..2] == Le(MAGIC, 2) && h[2] == version && h[3] == ptype && h[4..8] == Le(seqNo, 4) && h[8..10] == Le(length, 2)
  {}

  lemma SliceOfPrefix(w: seq<byte>, n: nat, from: nat, to: nat)
    requires from <= to <= n <= |w|
    ensures w[from..to] == w[..n][from..to]
  {}

  lemma SliceOfConcat(a: seq<byte>, b: seq<byte>, c: seq<byte>, d: seq<byte>)
    ensures (a + b + c + d)[..|a|] == a
    ensures (a + b + c + d)[|a|..|a| + |b|] == b
    ensures (a + b + c + d)[|a| + |b|..|a| + |b| + |c|] == c
  {
    var w := a + b + c + d;
    assert w[..|a|] == a;
    assert w[|a|..] == b + c + d;
    assert w[|a|..|a| + |b|] == w[|a|..][..|b|];
    assert w[|a| + |b|..|a| + |b| + |c|] == w[|a|..][|b|..][..|c|];
  }

  lemma WireParts(p: Packet, rest: seq<byte>)
    requires |p.payload| <= MAX_PAYLOAD
    ensures var w := Wire(p) + rest; var h := Header(p.version, p.ptype, p.seqNo, |p.payload|);
            && w[..10] == h && w[10..12] == Le(CrcNumber(h + p.payload), 2)
            && w[HEADER_SIZE..HEADER_SIZE + |p.payload|] == p.payload
  {
    var h := Header(p.version, p.ptype, p.seqNo, |p.payload|);
    SliceOfConcat(h, Le(CrcNumber(h + p.payload), 2), p.payload, rest);
  }

  lemma WireFields(p: Packet, rest: seq<byte>)
    requires |p.payload| <= MAX_PAYLOAD
    ensures var w := Wire(p) + rest;
            && Get16(w, 0) == MAGIC && w[2] == p.version && w[3] == p.ptype
            && Get32(w, 4) == p.seqNo && LengthField(w) == |p.payload|
            && w[HEADER_SIZE..HEADER_SIZE + |p.payload|] == p.payload
            && Get16(w, 10) == CrcNumber(Header(p.version, p.ptype, p.seqNo, |p.payload|) + p.payload)
  {
    WireParts(p, rest);
    HeaderParts(p.version, p.ptype, p.seqNo, |p.payload|);
    var w := Wire(p) + rest;
    SliceOfPrefix(w, 10, 0, 2);
    SliceOfPrefix(w, 10, 4, 8);
    SliceOfPrefix(w, 10, 8, 10);
    assert w[2] == w[..10][2] && w[3] == w[..10][3];
    assert Pow256(2) == 0x1_0000 && Pow256(4) == 0x1_0000_0000;
    GetOfLe(MAGIC, 2);
    GetOfLe(p.seqNo, 4);
    GetOfLe(|p.payload|, 2);
    GetOfLe(CrcNumber(Header(p.version, p.ptype, p.seqNo, |p.payload|) + p.payload), 2);
  }

  /** Decoding an encoded frame gives it back, whatever bytes follow it. */
  lemma DecodeOfEncode(p: Packet, rest: seq<byte>, verifyCrc: bool)
    requires |p.payload| <= MAX_PAYLOAD
    ensures Decode(Wire(p) + rest, verifyCrc) ==
            if p.version != VERSION then Fail(BadVersion)
            else if !KnownType(p.ptype) then Fail(UnknownType)
            else Ok(p)
  {
    WireFields(p, rest);
    CarriedCrc(Wire(p) + rest, p);
    FieldsDecode(p, Wire(p) + rest, verifyCrc);
  }

  /** The string holds the packet's fields, and its payload behind them. */
  predicate Carries(w: seq<byte>, p: Packet) {
    && |p.payload| <= MAX_PAYLOAD && |w| >= HEADER_SIZE + |p.payload|
    && w[2] == p.version && w[3] == p.ptype && Get32(w, 4) == p.seqNo && LengthField(w) == |p.payload|
    && w[HEADER_SIZE..HEADER_SIZE + |p.payload|] == p.payload
  }

  lemma CarriedCrc(w: seq<byte>, p: Packet)
    requires Carries(w, p) && Get16(w, 10) == CrcNumber(Header(p.version, p.ptype, p.seqNo, |p.payload|) + p.payload)
    ensures CrcRight(w)
  {
    var n := LengthField(w);
    assert w[HEADER_SIZE..HEADER_SIZE + n] == p.payload;
    assert Header(w[2], w[3], Get32(w, 4), n) == Header(p.version, p.ptype, p.seqNo, |p.payload|);
  }

  lemma FieldsDecode(p: Packet, w: seq<byte>, verifyCrc: bool)
    requires Carries(w, p) && Get16(w, 0) == MAGIC && CrcRight(w)
    ensures Decode(w, verifyCrc) ==
            if p.version != VERSION then Fail(BadVersion) else if !KnownType(p.ptype) then Fail(UnknownType) else Ok(p)
  {
    if p.version == VERSION && KnownType(p.ptype) {
      var payload := w[HEADER_SIZE..HEADER_SIZE + LengthField(w)];
      assert payload == p.payload;
      assert Packet(w[2], w[3], Get32(w, 4), payload) == p;
      assert Decode(w, verifyCrc) == Ok(Packet(w[2], w[3], Get32(w, 4), payload));
    } else if p.version == VERSION {
      assert Decode(w, verifyCrc) == Fail(UnknownType);
    } else {
      assert Decode(w, verifyCrc) == Fail(BadVersion);
    }
  }

  lemma HeaderOfData(data: seq<byte>)
    requires |data| >= HEADER_SIZE && Get16(data, 0) == MAGIC
    ensures data[..10] == Header(data[2], data[3], Get32(data, 4), LengthField(data))
  {
    LeOfGet(data[0..2]);
    LeOfGet(data[4..8]);
    LeOfGet(data[8..10]);
    assert data[..10] == data[0..2] + [data[2], data[3]] + data[4..8] + data[8..10];
  }

  lemma WireOfDecoded(data: seq<byte>, verifyCrc: bool)
    requires Decode(data, verifyCrc).Ok?
    ensures Wire(Decode(data, verifyCrc).value) ==
            data[..10] + Le(CrcNumber(Covered(data)), 2) + data[HEADER_SIZE..HEADER_SIZE + LengthField(data)]
  {
    var p := Decode(data, verifyCrc).value;
    var header := Header(p.version, p.ptype, p.seqNo, |p.payload|);
    HeaderOfData(data);
    assert header == data[..10];
    assert header + p.payload == Covered(data);
  }

  /** A string of the declared size is its covered bytes with the CRC field between them. */
  lemma CrcFieldDecides(data: seq<byte>, crc: uint16)
    requires |data| >= HEADER_SIZE && |data| >= HEADER_SIZE + LengthField(data)
    ensures data[..10] + Le(crc, 2) + data[HEADER_SIZE..HEADER_SIZE + LengthField(data)] == data
            <==> |data| == HEADER_SIZE + LengthField(data) && Get16(data, 10) == crc
  {
    var size := HEADER_SIZE + LengthField(data);
    var whole := data[..10] + Le(crc, 2) + data[HEADER_SIZE..size];
    assert Pow256(2) == 0x1_0000;
    GetOfLe(crc, 2);
    LeOfGet(data[10..12]);
    assert whole[10..12] == Le(crc, 2);
    if |data| == size {
      assert data == data[..10] + data[10..12] + data[HEADER_SIZE..size];
    }
  }

  /** Encoding what was decoded gives the bytes back exactly when the string has the declared
      size and its CRC field is right; a verified CRC leaves only the size. */
  lemma EncodeOfDecode(data: seq<byte>, verifyCrc: bool)
    requires Decode(data, verifyCrc).Ok?
    ensures Valid(Decode(data, verifyCrc).value)
    ensures Encode(Decode(data, verifyCrc).value) == Ok(data) <==>
            |data| == HEADER_SIZE + LengthField(data) && Get16(data, 10) == CrcNumber(Covered(data))
    ensures verifyCrc ==> Get16(data, 10) == CrcNumber(Covered(data))
  {
    WireOfDecoded(data, verifyCrc);
    CrcFieldDecides(data, CrcNumber(Covered(data)));
    HeaderOfData(data);
  }

  lemma CrcOfPassing(data: seq<byte>)
    requires Passes(data)
    ensures Get16(data, 10) == CrcNumber(Covered(data))
  {
    HeaderOfData(data);
  }

  lemma SameCoveredBytes(sent: seq<byte>, received: seq<byte>)
    requires Passes(sent) && |received| >= HEADER_SIZE + LengthField(sent)
    requires LengthField(received) == LengthField(sent) && Get16(received, 10) == Get16(sent, 10)
    requires Covered(received) == Covered(sent)
    ensures Decode(received, true) == Decode(sent, true)
  {
    var size := HEADER_SIZE + LengthField(sent);
    SplitAt(sent[..10], sent[HEADER_SIZE..size]);
    SplitAt(received[..10], received[HEADER_SIZE..size]);
    assert sent[..10] == received[..10] && sent[HEADER_SIZE..size] == received[HEADER_SIZE..size];
    SameHeaderFields(sent, received);
  }

  lemma SameHeaderFields(a: seq<byte>, b: seq<byte>)
    requires |a| >= HEADER_SIZE && |b| >= HEADER_SIZE && a[..10] == b[..10]
    ensures Get16(a, 0) == Get16(b, 0) && a[2] == b[2] && a[3] == b[3] && Get32(a, 4) == Get32(b, 4)
  {
    SliceOfPrefix(a, 10, 0, 2);
    SliceOfPrefix(b, 10, 0, 2);
    SliceOfPrefix(a, 10, 4, 8);
    SliceOfPrefix(b, 10, 4, 8);
    assert a[2] == a[..10][2] && a[3] == a[..10][3];
    assert b[2] == b[..10][2] && b[3] == b[..10][3];
  }

  /** A frame whose covered bytes are hit by one burst of at most sixteen bits, its declared
      length and CRC field intact, is never accepted by the parser. */
  lemma BurstRejected(sent: seq<byte>, received: seq<byte>, start: nat)
    requires Passes(sent) && |received| >= HEADER_SIZE + LengthField(sent)
    requires LengthField(received) == LengthField(sent) && Get16(received, 10) == Get16(sent, 10)
    requires start + 16 <= 8 * (10 + LengthField(sent))
    requires DifferInBurst(BitsOf(Covered(sent)), BitsOf(Covered(received)), start)
    ensures Passes(received) <==> Covered(received) == Covered(sent)
  {
    BurstDetected(Covered(sent), Covered(received), start);
    CrcNumberMeaning(Covered(sent), Covered(received));
    CrcOfPassing(sent);
    if Passes(received) {
      CrcOfPassing(received);
    } else if Covered(received) == Covered(sent) {
      SameCoveredBytes(sent, received);
    }
  }

  // ---------------------------------------------------------------- streams

  /** What `read_frame` does to a byte stream: it takes the header, then the declared payload,
      and decodes the two; a bad magic or length stops it after the header. */
  datatype ReadOutcome = Incomplete | Read(result: Result<Packet>, rest: seq<byte>)

  function ReadFrame(stream: seq<byte>, verifyCrc: bool): ReadOutcome {
    if |stream| < HEADER_SIZE then Incomplete
    else if Get16(stream, 0) != MAGIC then Read(Fail(BadMagic), stream[HEADER_SIZE..])
    else if LengthField(stream) > MAX_PAYLOAD then Read(Fail(TooLarge), stream[HEADER_SIZE..])
    else if |stream| < HEADER_SIZE + LengthField(stream) then Incomplete
    else
      var size := HEADER_SIZE + LengthField(stream);
      Read(Decode(stream[..size], verifyCrc), stream[size..])
  }

  predicate AllValid(packets: seq<Packet>) {
    forall i :: 0 <= i < |packets| ==> Valid(packets[i])
  }

  function Concat(packets: seq<Packet>): seq<byte>
    requires AllValid(packets)
  {
    if |packets| == 0 then [] else Wire(packets[0]) + Concat(packets[1..])
  }

  /** The frames read from a stream until it runs dry or one is rejected, and what is left. */
  function ReadAll(stream: seq<byte>): (seq<Packet>, seq<byte>)
    decreases |stream|
  {
    var r := ReadFrame(stream, true);
    if r.Incomplete? || r.result.Fail? then ([], stream)
    else
      var (more, rest) := ReadAll(r.rest);
      ([r.result.value] + more, rest)
  }

  lemma SplitAt<T>(a: seq<T>, b: seq<T>)
    ensures (a + b)[..|a|] == a && (a + b)[|a|..] == b && a + [] == a
  {}

  lemma ReadOneWire(p: Packet, rest: seq<byte>)
    requires Valid(p)
    ensures ReadFrame(Wire(p) + rest, true) == Read(Ok(p), rest)
  {
    WireFields(p, rest);
    SplitAt(Wire(p), rest);
    DecodeOfEncode(p, [], true);
  }

  lemma ReadAllStep(p: Packet, rest: seq<byte>)
    requires Valid(p)
    ensures ReadAll(Wire(p) + rest) == ([p] + ReadAll(rest).0, ReadAll(rest).1)
  {
    ReadOneWire(p, rest);
  }

  lemma ConcatStep(packets: seq<Packet>, tail: seq<byte>)
    requires |packets| > 0 && AllValid(packets)
    ensures Concat(packets) + tail == Wire(packets[0]) + (Concat(packets[1..]) + tail)
  {}

  lemma PrependSeq<T>(s: seq<T>, t: seq<T>)
    requires |s| > 0
    ensures s + t == [s[0]] + (s[1..] + t)
  {}

  /** The stream is self-delimiting: reading a concatenation of frames returns those frames,
      then whatever the remaining bytes hold. */
  lemma {:induction false} StreamRoundTrip(packets: seq<Packet>, tail: seq<byte>, more: seq<Packet>, left: seq<byte>)
    requires AllValid(packets)
    requires ReadAll(tail) == (more, left)
    ensures ReadAll(Concat(packets) + tail) == (packets + more, left)
  {
    if |packets| == 0 {
      assert Concat(packets) + tail == tail;
      assert packets + more == more;
    } else {
      ConcatStep(packets, tail);
      PrependSeq(packets, more);
      StreamRoundTrip(packets[1..], tail, more, left);
      ReadAllStep(packets[0], Concat(packets[1..]) + tail);
    }
  }

  // ---------------------------------------------------------------- the C buffers

  lemma LeTwo(n: nat)
    ensures Le(n, 2) == [n % 256, n / 256 % 256]
  {}

  lemma LeFour(n: nat)
    ensures Le(n, 4) == [n % 256, n / 256 % 256, n / 0x1_0000 % 256, n / 0x100_0000 % 256]
  {
    LeTwo(n / 0x1_0000);
    assert n / 256 / 256 == n / 0x1_0000;
    assert Le(n, 4) == [n % 256] + ([n / 256 % 256] + Le(n / 256 / 256, 2));
  }

  /** `usmp_serialize_header`. */
  method SerializeHeader(version: byte, ptype: byte, seqNo: uint32, length: uint16, out: array<byte>)
    requires out.Length >= 10
    modifies out
    ensures out[..10] == Header(version, ptype, seqNo, length)
    ensures out[10..] == old(out[10..])
  {
    out[0] := MAGIC % 256;
    out[1] := MAGIC / 256 % 256;
    out[2] := version;
    out[3] := ptype;
    out[4] := seqNo % 256;
    out[5] := seqNo / 256 % 256;
    out[6] := seqNo / 0x1_0000 % 256;
    out[7] := seqNo / 0x100_0000 % 256;
    out[8] := length % 256;
    out[9] := length / 256 % 256;
    LeTwo(MAGIC);
    LeTwo(length);
    LeFour(seqNo);
    assert out[..10] == [out[0], out[1]] + [version, ptype] + [out[4], out[5], out[6], out[7]] + [out[8], out[9]];
  }

  lemma AssembleWire(p: Packet, s: seq<byte>, number: uint16)
    requires |p.payload| <= MAX_PAYLOAD && |s| >= HEADER_SIZE + |p.payload|
    requires s[..10] == Header(p.version, p.ptype, p.seqNo, |p.payload|)
    requires number == CrcNumber(s[..10] + p.payload)
    requires s[10..HEADER_SIZE + |p.payload|] == Le(number, 2) + p.payload
    ensures s[..HEADER_SIZE + |p.payload|] == Wire(p)
  {
    assert s[..HEADER_SIZE + |p.payload|] == s[..10] + s[10..HEADER_SIZE + |p.payload|];
  }

  /** `usmp_build_packet`: the buffer starts with the frame and is otherwise untouched. */
  method BuildPacket(p: Packet, out: array<byte>) returns (total: nat)
    requires |p.payload| <= MAX_PAYLOAD && out.Length >= HEADER_SIZE + |p.payload|
    modifies out
    ensures total == |Wire(p)| && out[..total] == Wire(p)
    ensures out[total..] == old(out[total..])
  {
    total := HEADER_SIZE + |p.payload|;
    SerializeHeader(p.version, p.ptype, p.seqNo, |p.payload|, out);
    var number := ComputeCrc(out[..10], p.payload);
    PutTrailer(out, number, p.payload);
    AssembleWire(p, out[..], number);
    assert out[total..] == out[10..][total - 10..];
  }

  /** `compute_crc`: the register runs over the header, then over the payload. */
  method ComputeCrc(header: seq<byte>, payload: seq<byte>) returns (number: uint16)
    ensures number == CrcNumber(header + payload)
  {
    var crc := Update(INIT, header);
    crc := Update(crc, payload);
    CrcFromConcat(INIT, header, payload);
    NumberFits(crc);
    number := Number(crc, 16);
  }

  /** The CRC field and the payload copy at the end of `usmp_build_packet`. */
  method PutTrailer(out: array<byte>, number: uint16, payload: seq<byte>)
    requires out.Length >= HEADER_SIZE + |payload|
    modifies out
    ensures out[..10] == old(out[..10])
    ensures out[10..HEADER_SIZE + |payload|] == Le(number, 2) + payload
    ensures out[HEADER_SIZE + |payload|..] == old(out[HEADER_SIZE + |payload|..])
  {
    out[10] := number % 256;
    out[11] := number / 256 % 256;
    LeTwo(number);
    for i := 0 to |payload|
      invariant out[10] == number % 256 && out[11] == number / 256 % 256
      invariant forall j :: 0 <= j < 10 || 12 + i <= j < out.Length ==> out[j] == old(out[j])
      invariant forall j :: 0 <= j < i ==> out[12 + j] == payload[j]
    {
      out[12 + i] := payload[i];
    }
  }

  lemma GetTwo(s: seq<byte>)
    requires |s| == 2
    ensures Get(s) == s[0] as int + 256 * (s[1] as int)
  {
    assert Get(s[1..]) == s[1] as int + 256 * Get(s[1..][1..]);
  }

  lemma GetFour(s: seq<byte>)
    requires |s| == 4
    ensures Get(s) == s[0] as int + 256 * (s[1] as int) + 0x1_0000 * (s[2] as int) + 0x100_0000 * (s[3] as int)
  {
    GetTwo(s[2..]);
    assert s[1..][1..] == s[2..];
    assert Get(s[1..]) == s[1] as int + 256 * Get(s[2..]);
  }

  /** `usmp_packet_t`. */
  class PacketBuffer {
    var magic: uint16
    var version: byte
    var ptype: byte
    var seqNo: uint32
    var length: uint16
    var crc: uint16
    const payload: array<byte>

    constructor ()
      ensures fresh(payload) && payload.Length == MAX_PAYLOAD
    {
      magic, version, ptype, seqNo, length, crc := 0, 0, 0, 0, 0, 0;
      payload := new byte[MAX_PAYLOAD](_ => 0);
    }

    /** The header fields, one by one, as the C parser assembles them. */
    method ReadHeader(data: array<byte>)
      requires data.Length >= HEADER_SIZE
      modifies this
      ensures magic == Get16(data[..], 0) && version == data[2] && ptype == data[3] && seqNo == Get32(data[..], 4)
      ensures length == LengthField(data[..]) && crc == Get16(data[..], 10)
    {
      GetTwo(data[..][0..2]);
      GetFour(data[..][4..8]);
      GetTwo(data[..][8..10]);
      GetTwo(data[..][10..12]);
      magic := data[0] as int + 256 * (data[1] as int);
      version, ptype := data[2], data[3];
      seqNo := data[4] as int + 256 * (data[5] as int) + 0x1_0000 * (data[6] as int) + 0x100_0000 * (data[7] as int);
      length := data[8] as int + 256 * (data[9] as int);
      crc := data[10] as int + 256 * (data[11] as int);
    }

    /** `usmp_parse_packet`: it succeeds exactly on the strings that the Python decoder takes or
        refuses only for their type byte, and then holds the fields and payload of the string. */
    method Parse(data: array<byte>, len: int) returns (code: int)
      requires len <= data.Length && payload.Length == MAX_PAYLOAD && data != payload
      modifies this, payload
      ensures code == 0 || code == -1
      ensures code == 0 <==> len >= 0 && Passes(data[..len])
      ensures code == 0 ==> length <= MAX_PAYLOAD && HEADER_SIZE + length <= len
      ensures code == 0 ==> Header(version, ptype, seqNo, length) == data[..10] && payload[..length] == data[HEADER_SIZE..HEADER_SIZE + length]
      ensures code == 0 && Decode(data[..len], true).Ok? ==> Decode(data[..len], true) == Ok(Packet(version, ptype, seqNo, payload[..length]))
    {
      if len < 0 || len < HEADER_SIZE { return -1; }
      ghost var text := data[..len];
      ReadHeader(data);
      FieldsOfPrefix(data[..], len);
      if magic != MAGIC { return -1; }
      if version != VERSION { return -1; }
      if length > MAX_PAYLOAD { return -1; }
      if len < HEADER_SIZE + length { return -1; }
      CopyPayload(data);
      assert payload[..length] == text[HEADER_SIZE..HEADER_SIZE + length];
      var intact := CrcMatches();
      PassesMeaning(text);
      assert data[..10] == text[..10];
      return if intact then 0 else -1;
    }

    method CrcMatches() returns (intact: bool)
      requires length <= MAX_PAYLOAD == payload.Length
      ensures intact == (crc == CrcNumber(Header(version, ptype, seqNo, length) + payload[..length]))
    {
      var header := new byte[10](_ => 0);
      SerializeHeader(version, ptype, seqNo, length, header);
      assert header[..] == header[..10];
      var expected := ComputeCrc(header[..], payload[..length]);
      intact := crc == expected;
    }

    method CopyPayload(data: array<byte>)
      requires length <= MAX_PAYLOAD == payload.Length && HEADER_SIZE + length <= data.Length && data != payload
      modifies payload
      ensures payload[..length] == data[HEADER_SIZE..HEADER_SIZE + length]
    {
      for i := 0 to length
        invariant forall j :: 0 <= j < i ==> payload[j] == data[HEADER_SIZE + j]
      {
        payload[i] := data[HEADER_SIZE + i];
      }
    }
  }

  /** The checks that both parsers make, in terms of the header fields. */
  lemma PassesMeaning(text: seq<byte>)
    requires |text| >= HEADER_SIZE && Get16(text, 0) == MAGIC && text[2] == VERSION
    requires LengthField(text) <= MAX_PAYLOAD && HEADER_SIZE + LengthField(text) <= |text|
    ensures text[..10] == Header(text[2], text[3], Get32(text, 4), LengthField(text))
    ensures var covered := Header(text[2], text[3], Get32(text, 4), LengthField(text)) + text[HEADER_SIZE..HEADER_SIZE + LengthField(text)];
            Passes(text) <==> Get16(text, 10) == CrcNumber(covered)
  {
    HeaderOfData(text);
  }

  lemma FieldsOfPrefix(data: seq<byte>, len: nat)
    requires HEADER_SIZE <= len <= |data|
    ensures var text := data[..len];
            && Get16(text, 0) == Get16(data, 0) && text[2] == data[2] && text[3] == data[3]
            && Get32(text, 4) == Get32(data, 4) && LengthField(text) == LengthField(data) && Get16(text, 10) == Get16(data, 10)
  {
    SliceOfPrefix(data, len, 0, 2);
    SliceOfPrefix(data, len, 4, 8);
    SliceOfPrefix(data, len, 8, 10);
    SliceOfPrefix(data, len, 10, 12);
  }
}
