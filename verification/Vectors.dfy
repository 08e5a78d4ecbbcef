/** The bytes themselves: what the vectors shared by both implementations fix, and where every
    byte of a frame and of a nonce lies. */
module Vectors {
  import opened Crc16
  import opened Frame
  import S = SessionSend

  // ---------------------------------------------------------------- the test vector

  lemma EightShifts(w: bv16)
    ensures ShiftTimes(w, 8) == Shift(Shift(Shift(Shift(Shift(Shift(Shift(Shift(w))))))))
  {
    ShiftTimesAdd(w, 4, 4);
    FourShifts(w);
    FourShifts(ShiftTimes(w, 4));
  }

  lemma FourShifts(w: bv16)
    ensures ShiftTimes(w, 4) == Shift(Shift(Shift(Shift(w))))
  {
    assert ShiftTimes(w, 1) == Shift(ShiftTimes(w, 0));
    assert ShiftTimes(w, 2) == Shift(ShiftTimes(w, 1)) && ShiftTimes(w, 3) == Shift(ShiftTimes(w, 2));
  }

  lemma FeedByte(crc: bv16, b: byte, word: bv16, mixed: bv16, next: bv16)
    requires Widen(b) == word && Xor(crc, word) == mixed
    requires Shift(Shift(Shift(Shift(Shift(Shift(Shift(Shift(mixed)))))))) == next
    ensures ByteStep(crc, Widen(b)) == next
  {
    EightShifts(mixed);
  }

  // The letters of the vector as words.

  lemma LetterH()
    ensures Widen(0x68) == 0x68
  {
    assert WidenBits(0, 1) == 0 && WidenBits(1, 2) == 1 && WidenBits(3, 3) == 3 && WidenBits(6, 4) == 6;
    assert WidenBits(13, 5) == 13 && WidenBits(26, 6) == 26 && WidenBits(52, 7) == 52 && WidenBits(104, 8) == 104;
  }

  lemma LetterE()
    ensures Widen(0x65) == 0x65
  {
    assert WidenBits(0, 1) == 0 && WidenBits(1, 2) == 1 && WidenBits(3, 3) == 3 && WidenBits(6, 4) == 6;
    assert WidenBits(12, 5) == 12 && WidenBits(25, 6) == 25 && WidenBits(50, 7) == 50 && WidenBits(101, 8) == 101;
  }

  lemma LetterL()
    ensures Widen(0x6C) == 0x6C
  {
    assert WidenBits(0, 1) == 0 && WidenBits(1, 2) == 1 && WidenBits(3, 3) == 3 && WidenBits(6, 4) == 6;
    assert WidenBits(13, 5) == 13 && WidenBits(27, 6) == 27 && WidenBits(54, 7) == 54 && WidenBits(108, 8) == 108;
  }

  lemma LetterO()
    ensures Widen(0x6F) == 0x6F
  {
    assert WidenBits(0, 1) == 0 && WidenBits(1, 2) == 1 && WidenBits(3, 3) == 3 && WidenBits(6, 4) == 6;
    assert WidenBits(13, 5) == 13 && WidenBits(27, 6) == 27 && WidenBits(55, 7) == 55 && WidenBits(111, 8) == 111;
  }

  /** The CRC of "hello" in the vectors that both implementations are held to. */
  lemma VectorHello()
    ensures Crc([0x68, 0x65, 0x6C, 0x6C, 0x6F]) == 0x34F6 && Crc([]) == 0xFFFF
  {
    LetterH();
    LetterE();
    LetterL();
    LetterO();
    FeedByte(0xFFFF, 0x68, 0x68, 0xFF97, 0xAEBE);
    FeedByte(0xAEBE, 0x65, 0x65, 0xAEDB, 0x5BEE);
    FeedByte(0x5BEE, 0x6C, 0x6C, 0x5B82, 0x61DB);
    FeedByte(0x61DB, 0x6C, 0x6C, 0x61B7, 0x7621);
    FeedByte(0x7621, 0x6F, 0x6F, 0x764E, 0x34F6);
    var data: seq<byte> := [0x68, 0x65, 0x6C, 0x6C, 0x6F];
    assert data[1..] == [0x65, 0x6C, 0x6C, 0x6F] && data[1..][1..] == [0x6C, 0x6C, 0x6F];
    assert CrcFrom(0x34F6, []) == 0x34F6;
    assert CrcFrom(0x7621, [0x6F]) == CrcFrom(0x34F6, [0x6F][1..]);
    assert CrcFrom(0x61DB, [0x6C, 0x6F]) == CrcFrom(0x7621, [0x6C, 0x6F][1..]);
    assert CrcFrom(0x5BEE, [0x6C, 0x6C, 0x6F]) == CrcFrom(0x61DB, [0x6C, 0x6C, 0x6F][1..]);
    assert CrcFrom(0xAEBE, [0x65, 0x6C, 0x6C, 0x6F]) == CrcFrom(0x5BEE, [0x65, 0x6C, 0x6C, 0x6F][1..]);
  }

  /** Where every byte of a frame lies, and the order within its numbers. */
  lemma WireLayout(p: Packet)
    requires |p.payload| <= MAX_PAYLOAD
    ensures var w := Wire(p); var n := |p.payload|; var crc := CrcNumber(w[..10] + p.payload);
            && |w| == 12 + n
            && w[..4] == [0xCD, 0xAB, p.version, p.ptype]
            && w[4..8] == [p.seqNo % 256, p.seqNo / 256 % 256, p.seqNo / 0x1_0000 % 256, p.seqNo / 0x100_0000 % 256]
            && w[8..12] == [n % 256, n / 256 % 256, crc % 256, crc / 256 % 256]
            && w[12..] == p.payload
  {
    var n := |p.payload|;
    var h := Header(p.version, p.ptype, p.seqNo, n);
    LeTwo(n);
    LeFour(p.seqNo);
    LeTwo(CrcNumber(h + p.payload));
    HeaderLayout(p.version, p.ptype, p.seqNo, n);
    WireParts(p, []);
    assert Wire(p) + [] == Wire(p);
    PartsLayout(Wire(p), n);
  }

  lemma PartsLayout(w: seq<byte>, n: nat)
    requires |w| == 12 + n
    ensures w[..4] == w[..10][..4] && w[4..8] == w[..10][4..8] && w[8..12] == w[..10][8..10] + w[10..12] && w[12..] == w[12..12 + n]
  {}

  lemma HeaderLayout(version: byte, ptype: byte, seqNo: uint32, length: uint16)
    ensures var h := Header(version, ptype, seqNo, length);
            h[..4] == [0xCD, 0xAB, version, ptype] && h[4..8] == Le(seqNo, 4) && h[8..10] == Le(length, 2)
  {
    LeTwo(MAGIC);
    HeaderParts(version, ptype, seqNo, length);
    assert Header(version, ptype, seqNo, length)[..4] == Le(MAGIC, 2) + [version, ptype];
  }

  /** Four bytes of sequence, then the first eight of the session id. */
  lemma NonceLayout(seqNo: uint32, sessionId: seq<byte>)
    requires |sessionId| >= 8
    ensures S.Nonce(seqNo, sessionId)
         == [seqNo % 256, seqNo / 256 % 256, seqNo / 0x1_0000 % 256, seqNo / 0x100_0000 % 256] + sessionId[..8]
  {
    LeFour(seqNo);
  }
}
