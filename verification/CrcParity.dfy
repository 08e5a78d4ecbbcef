/** What is particular to this polynomial: its shift keeps the parity of the register, so no odd
    number of flipped bits goes unnoticed, wherever they are. */
module CrcParity {
  import opened Crc16
  import opened Frame

  /** Whether the number of ones among the low `n` bits of a word is odd. */
  predicate IsOdd(w: bv16, n: nat) {
    n > 0 && (Low(w) == 1) != IsOdd(Half(w), n - 1)
  }

  predicate OddWord(w: bv16) { IsOdd(w, 16) }

  lemma LowOfXor(x: bv16, y: bv16)
    ensures (Low(Xor(x, y)) == 1) == ((Low(x) == 1) != (Low(y) == 1))
  {}

  lemma {:induction false} OddOfXor(z: bv16, x: bv16, y: bv16, n: nat)
    requires z == Xor(x, y)
    ensures IsOdd(z, n) == (IsOdd(x, n) != IsOdd(y, n))
    decreases n, 1
  {
    if n > 0 {
      HalvesOfXor(Half(z), x, y, n - 1);
      LowOfXor(x, y);
      OddCons(z, x, y, n);
    }
  }

  lemma {:induction false} HalvesOfXor(h: bv16, x: bv16, y: bv16, n: nat)
    requires h == Half(Xor(x, y))
    ensures IsOdd(h, n) == (IsOdd(Half(x), n) != IsOdd(Half(y), n))
    decreases n + 1, 0
  {
    HalfIsLinear(x, y);
    OddOfXor(h, Half(x), Half(y), n);
  }

  lemma OddCons(z: bv16, x: bv16, y: bv16, n: nat)
    requires n > 0 && (Low(z) == 1) == ((Low(x) == 1) != (Low(y) == 1))
    requires IsOdd(Half(z), n - 1) == (IsOdd(Half(x), n - 1) != IsOdd(Half(y), n - 1))
    ensures IsOdd(z, n) == (IsOdd(x, n) != IsOdd(y, n))
  {}

  lemma {:induction false} OddOfMore(w: bv16, n: nat)
    requires Fits(w, n)
    ensures IsOdd(w, n + 1) == IsOdd(w, n)
  {
    if n == 0 {
      ZeroIsEven(1);
    } else {
      OddOfMore(Half(w), n - 1);
    }
  }

  lemma OddOfHalf(w: bv16)
    ensures OddWord(Half(w)) == (OddWord(w) != (Low(w) == 1))
  {
    SixteenBitsFit(w);
    assert Drop(w, 16) == Drop(Half(w), 15);
    OddOfMore(Half(w), 15);
  }

  /** The polynomial has three taps. */
  lemma PolyIsOdd()
    ensures OddWord(POLY)
  {
    assert IsOdd(0x1, 1) && IsOdd(0x2, 2) && !IsOdd(0x5, 3) && !IsOdd(0xA, 4);
    assert !IsOdd(0x14, 5) && !IsOdd(0x28, 6) && !IsOdd(0x50, 7) && !IsOdd(0xA0, 8);
    assert !IsOdd(0x140, 9) && !IsOdd(0x280, 10) && !IsOdd(0x500, 11) && !IsOdd(0xA00, 12);
    assert !IsOdd(0x1400, 13) && !IsOdd(0x2800, 14) && !IsOdd(0x5000, 15) && IsOdd(0xA001, 16);
  }

  lemma {:induction false} ZeroIsEven(n: nat)
    ensures !IsOdd(0, n)
  {
    if n > 0 {
      assert Low(0) == 0 && Half(0) == 0;
      ZeroIsEven(n - 1);
    }
  }

  /** An odd number of taps: the bit shifted out is made up for. */
  lemma ShiftKeepsParity(w: bv16)
    ensures OddWord(Shift(w)) == OddWord(w)
  {
    ShiftByTap(w);
    OddOfXor(Shift(w), Half(w), Tap(Low(w)), 16);
    OddOfHalf(w);
    PolyIsOdd();
    ZeroIsEven(16);
  }

  lemma OddBit(bit: bv16)
    requires bit == 0 || bit == 1
    ensures OddWord(bit) == (bit == 1)
  {
    ZeroIsEven(16);
    ZeroIsEven(15);
    assert Low(1) == 1 && Half(1) == 0;
  }

  function Ones(bits: seq<bv16>): nat {
    if |bits| == 0 then 0 else (if bits[0] == 1 then 1 else 0) + Ones(bits[1..])
  }

  /** The register's parity counts the ones of the message. */
  lemma {:induction false} ParityOfFeed(crc: bv16, bits: seq<bv16>)
    requires AreBits(bits)
    ensures OddWord(FeedBits(crc, bits)) == (OddWord(crc) != (Ones(bits) % 2 == 1))
    decreases |bits|
  {
    if |bits| > 0 {
      ShiftKeepsParity(Xor(crc, bits[0]));
      OddOfXor(Xor(crc, bits[0]), crc, bits[0], 16);
      OddBit(bits[0]);
      ParityOfFeed(BitStep(crc, bits[0]), bits[1..]);
    }
  }

  /** In how many places two bit strings differ. */
  function Flips(xs: seq<bv16>, ys: seq<bv16>): nat
    requires |xs| == |ys|
  {
    if |xs| == 0 then 0 else (if xs[0] != ys[0] then 1 else 0) + Flips(xs[1..], ys[1..])
  }

  lemma {:induction false} OnesOfDifferences(xs: seq<bv16>, ys: seq<bv16>)
    requires |xs| == |ys| && AreBits(xs) && AreBits(ys)
    ensures Ones(Differences(xs, ys)) == Flips(xs, ys) && AreBits(Differences(xs, ys))
    decreases |xs|
  {
    if |xs| > 0 {
      XorVanishes(xs[0], ys[0]);
      XorOfBits(xs[0], ys[0]);
      OnesOfDifferences(xs[1..], ys[1..]);
      var d, rest := Differences(xs, ys), Differences(xs[1..], ys[1..]);
      assert d == [Xor(xs[0], ys[0])] + rest;
    }
  }

  /** Two messages of one length that differ in an odd number of bits never have the same CRC. */
  lemma OddErrorsDetected(a: seq<byte>, b: seq<byte>)
    requires |a| == |b| && Flips(BitsOf(a), BitsOf(b)) % 2 == 1
    ensures Crc(a) != Crc(b)
  {
    var xs, ys := BitsOf(a), BitsOf(b);
    CrcIsBitSerial(INIT, a);
    CrcIsBitSerial(INIT, b);
    MessageBitsAreBits(a);
    MessageBitsAreBits(b);
    OnesOfDifferences(xs, ys);
    FeedIsLinear(INIT, INIT, xs, ys);
    XorVanishes(INIT, INIT);
    ParityOfFeed(0, Differences(xs, ys));
    XorVanishes(Crc(a), Crc(b));
    ZeroIsEven(16);
  }

  /** So a frame with an odd number of flipped bits in what its CRC covers is never accepted. */
  lemma OddErrorsRejected(sent: seq<byte>, received: seq<byte>)
    requires Passes(sent) && |received| >= HEADER_SIZE + LengthField(sent)
    requires LengthField(received) == LengthField(sent) && Get16(received, 10) == Get16(sent, 10)
    requires Flips(BitsOf(Covered(sent)), BitsOf(Covered(received))) % 2 == 1
    ensures !Passes(received)
  {
    OddErrorsDetected(Covered(sent), Covered(received));
    CrcNumberMeaning(Covered(sent), Covered(received));
    CrcOfPassing(sent);
    if Passes(received) {
      CrcOfPassing(received);
    }
  }
}
