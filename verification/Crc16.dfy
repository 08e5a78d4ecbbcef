/** CRC-16 with polynomial 0xA001 and start value 0xFFFF, and the errors it detects. */
module Crc16 {

  type byte = x: int | 0 <= x < 256

  const POLY: bv16 := 0xA001
  const INIT: bv16 := 0xFFFF

  // ---------------------------------------------------------------- the register

  // The word operations have names so that only the few lemmas that need bit-blasting look
  // inside a word.

  function Xor(x: bv16, y: bv16): bv16 { x ^ y }
  function Half(w: bv16): bv16 { w >> 1 }
  function Low(w: bv16): bv16 { w & 1 }
  function Push(rest: bv16, bit: bv16): bv16 { (rest << 1) | bit }

  /** One turn of the inner loop. */
  function Shift(crc: bv16): bv16 {
    if Low(crc) == 1 then Xor(Half(crc), POLY) else Half(crc)
  }

  function ShiftTimes(crc: bv16, n: nat): bv16 {
    if n == 0 then crc else Shift(ShiftTimes(crc, n - 1))
  }

  /** The register after one byte: mix it into the low half, then shift eight times. */
  function ByteStep(crc: bv16, b: bv16): bv16 {
    ShiftTimes(Xor(crc, b), 8)
  }

  /** The word whose low `n` bits are those of `b`. */
  function WidenBits(b: nat, n: nat): bv16 {
    if n == 0 then 0 else Push(WidenBits(b / 2, n - 1), if b % 2 == 1 then 1 else 0)
  }

  function PowerOfTwo(n: nat): nat { if n == 0 then 1 else 2 * PowerOfTwo(n - 1) }

  function Widen(b: byte): bv16 { WidenBits(b, 8) }

  function CrcFrom(crc: bv16, data: seq<byte>): bv16
    decreases |data|
  {
    if data == [] then crc else CrcFrom(ByteStep(crc, Widen(data[0])), data[1..])
  }

  function Crc(data: seq<byte>): bv16 { CrcFrom(INIT, data) }

  /** The loop of `usmp_crc16_step` and, started at 0xFFFF, of `crc16`. */
  method Update(start: bv16, data: seq<byte>) returns (crc: bv16)
    ensures crc == CrcFrom(start, data)
  {
    crc := start;
    for i := 0 to |data|
      invariant CrcFrom(crc, data[i..]) == CrcFrom(start, data)
    {
      assert data[i..][0] == data[i] && data[i..][1..] == data[i + 1..];
      ghost var before := crc;
      crc := Xor(crc, Widen(data[i]));
      for j := 0 to 8
        invariant crc == ShiftTimes(Xor(before, Widen(data[i])), j)
      {
        crc := if crc & 1 == 1 then (crc >> 1) ^ POLY else crc >> 1;
      }
    }
  }

  /** Feeding two byte strings one after the other is feeding their concatenation. */
  lemma {:induction false} CrcFromConcat(crc: bv16, a: seq<byte>, b: seq<byte>)
    ensures CrcFrom(crc, a + b) == CrcFrom(CrcFrom(crc, a), b)
    decreases |a|
  {
    if a == [] {
      assert a + b == b;
    } else {
      assert (a + b)[0] == a[0] && (a + b)[1..] == a[1..] + b;
      CrcFromConcat(ByteStep(crc, Widen(a[0])), a[1..], b);
    }
  }

  // ---------------------------------------------------------------- algebra of the register

  lemma XorZero(x: bv16)
    ensures x ^ 0 == x
  {}

  lemma XorAssociates(a: bv16, b: bv16, c: bv16)
    ensures Xor(Xor(a, b), c) == Xor(a, Xor(b, c))
  {}

  lemma XorCommutes(a: bv16, b: bv16)
    ensures Xor(a, b) == Xor(b, a)
  {}

  lemma XorShuffle(a: bv16, b: bv16, x: bv16, y: bv16)
    ensures Xor(Xor(a, x), Xor(b, y)) == Xor(Xor(a, b), Xor(x, y))
  {
    XorAssociates(a, x, Xor(b, y));
    XorAssociates(x, b, y);
    XorCommutes(x, b);
    XorAssociates(b, x, y);
    XorAssociates(a, b, Xor(x, y));
  }

  lemma HalfIsLinear(x: bv16, y: bv16)
    ensures Half(Xor(x, y)) == Xor(Half(x), Half(y))
  {}

  lemma LowIsLinear(x: bv16, y: bv16)
    ensures Low(Xor(x, y)) == Xor(Low(x), Low(y))
  {}

  lemma LowIsBit(x: bv16)
    ensures Low(x) == 0 || Low(x) == 1
  {}

  function Tap(bit: bv16): bv16 { if bit == 1 then POLY else 0 }

  lemma TapIsLinear(x: bv16, y: bv16)
    requires (x == 0 || x == 1) && (y == 0 || y == 1)
    ensures Tap(Xor(x, y)) == Xor(Tap(x), Tap(y))
  {}

  lemma ShiftByTap(x: bv16)
    ensures Shift(x) == Xor(Half(x), Tap(Low(x)))
  {
    XorZero(Half(x));
  }

  lemma ShiftIsLinear(x: bv16, y: bv16)
    ensures Shift(Xor(x, y)) == Xor(Shift(x), Shift(y))
  {
    ShiftByTap(x);
    ShiftByTap(y);
    ShiftByTap(Xor(x, y));
    HalfIsLinear(x, y);
    LowIsLinear(x, y);
    LowIsBit(x);
    LowIsBit(y);
    TapIsLinear(Low(x), Low(y));
    XorShuffle(Half(x), Half(y), Tap(Low(x)), Tap(Low(y)));
  }

  /** A set top bit can only come from the polynomial, so the shifted-out bit can be read back. */
  lemma ShiftIsInjective(x: bv16, y: bv16)
    requires Shift(x) == Shift(y)
    ensures x == y
  {}

  function Unshift(y: bv16): bv16 {
    if y & 0x8000 == 0x8000 then ((y ^ POLY) << 1) | 1 else y << 1
  }

  lemma UnshiftOdd(y: bv16)
    requires y & 0x8000 == 0x8000
    ensures (((y ^ POLY) << 1) | 1) & 1 == 1 && ((((y ^ POLY) << 1) | 1) >> 1) ^ POLY == y
  {}

  lemma UnshiftEven(y: bv16)
    requires y & 0x8000 != 0x8000
    ensures (y << 1) & 1 == 0 && (y << 1) >> 1 == y
  {}

  /** With injectivity: one shift is a bijection of the register. */
  lemma ShiftIsOnto(y: bv16)
    ensures Shift(Unshift(y)) == y
  {
    if y & 0x8000 == 0x8000 { UnshiftOdd(y); } else { UnshiftEven(y); }
  }

  lemma {:induction false} ShiftTimesAdd(x: bv16, m: nat, n: nat)
    ensures ShiftTimes(x, m + n) == ShiftTimes(ShiftTimes(x, m), n)
  {
    if n > 0 {
      ShiftTimesAdd(x, m, n - 1);
    }
  }

  /** The register as a line of bits: one message bit enters at the low end, then it shifts. */
  function BitStep(crc: bv16, bit: bv16): bv16 {
    Shift(Xor(crc, bit))
  }

  function FeedBits(crc: bv16, bits: seq<bv16>): bv16
    decreases |bits|
  {
    if bits == [] then crc else FeedBits(BitStep(crc, bits[0]), bits[1..])
  }

  predicate AreBits(bits: seq<bv16>) {
    forall i :: 0 <= i < |bits| ==> bits[i] == 0 || bits[i] == 1
  }

  function Drop(w: bv16, n: nat): bv16 {
    if n == 0 then w else Drop(Half(w), n - 1)
  }

  predicate Fits(w: bv16, n: nat) { Drop(w, n) == 0 }

  /** The low `n` bits of a word, lowest first. */
  function Bits(w: bv16, n: nat): (bits: seq<bv16>)
    ensures |bits| == n
  {
    if n == 0 then [] else [Low(w)] + Bits(Half(w), n - 1)
  }

  /** The message as bits, the low bit of each byte first. */
  function BitsOf(data: seq<byte>): (bits: seq<bv16>)
    ensures |bits| == 8 * |data|
  {
    if data == [] then [] else Bits(Widen(data[0]), 8) + BitsOf(data[1..])
  }

  lemma {:induction false} DropAdd(w: bv16, m: nat, n: nat)
    ensures Drop(w, m + n) == Drop(Drop(w, m), n)
  {
    if m > 0 {
      DropAdd(Half(w), m - 1, n);
    }
  }

  lemma DropFive(w: bv16)
    ensures Drop(w, 5) == w >> 5
  {
    var h1 := Half(w); var h2 := Half(h1); var h3 := Half(h2); var h4 := Half(h3);
    assert Drop(w, 5) == Drop(h1, 4) == Drop(h2, 3) == Drop(h3, 2) == Drop(h4, 1) == Half(h4);
  }

  lemma DropFifteen(w: bv16)
    ensures Drop(w, 15) == w >> 15
  {
    DropAdd(w, 5, 10);
    DropAdd(Drop(w, 5), 5, 5);
    DropFive(w);
    DropFive(Drop(w, 5));
    DropFive(Drop(Drop(w, 5), 5));
  }

  lemma {:induction false} DropZero(n: nat)
    ensures Drop(0, n) == 0
  {
    if n > 0 {
      assert Half(0) == 0;
      DropZero(n - 1);
    }
  }

  lemma FifteenBits(w: bv16)
    ensures (w >> 15 == 0 <==> w & 0x8000 == 0) && (w >> 15) >> 1 == 0
  {}

  lemma SixteenBitsFit(w: bv16)
    ensures Fits(w, 16)
  {
    DropAdd(w, 15, 1);
    DropFifteen(w);
    FifteenBits(w);
    assert Drop(w >> 15, 1) == Half(w >> 15);
  }

  lemma FitsFewer(w: bv16, n: nat)
    requires n <= 15 && Fits(w, n)
    ensures w & 0x8000 == 0
  {
    DropAdd(w, n, 15 - n);
    DropZero(15 - n);
    DropFifteen(w);
    FifteenBits(w);
  }

  lemma PushBits(rest: bv16, bit: bv16)
    requires rest & 0x8000 == 0 && (bit == 0 || bit == 1)
    ensures ((rest << 1) | bit) & 1 == bit && ((rest << 1) | bit) >> 1 == rest
  {}

  lemma PackStep(rest: bv16, bit: bv16)
    requires rest & 0x8000 == 0 && (bit == 0 || bit == 1)
    ensures Low(Push(rest, bit)) == bit && Half(Push(rest, bit)) == rest
  {
    PushBits(rest, bit);
  }

  /** `WidenBits` really places the bits of `b`. */
  lemma {:induction false} WidenPlacesBits(b: nat, n: nat)
    requires n <= 8
    ensures Fits(WidenBits(b, n), n)
    ensures n > 0 ==> Low(WidenBits(b, n)) == (if b % 2 == 1 then 1 else 0)
    ensures n > 0 ==> Half(WidenBits(b, n)) == WidenBits(b / 2, n - 1)
  {
    if n > 0 {
      WidenPlacesBits(b / 2, n - 1);
      FitsFewer(WidenBits(b / 2, n - 1), n - 1);
      PackStep(WidenBits(b / 2, n - 1), if b % 2 == 1 then 1 else 0);
    }
  }

  function Even(w: bv16): bv16 { (w >> 1) << 1 }

  lemma SplitWord(w: bv16)
    ensures w == Xor(Low(w), Even(w)) && Low(Even(w)) == 0 && Half(Even(w)) == Half(w)
  {}

  lemma FeedLowBit(crc: bv16, w: bv16)
    ensures Shift(Xor(crc, w)) == Xor(BitStep(crc, Low(w)), Half(w))
  {
    SplitWord(w);
    XorAssociates(crc, Low(w), Even(w));
    ShiftIsLinear(Xor(crc, Low(w)), Even(w));
  }

  /** Mixing in a whole word and then shifting is feeding its bits one at a time. */
  lemma {:induction false} FeedWord(crc: bv16, w: bv16, n: nat)
    requires Fits(w, n)
    ensures ShiftTimes(Xor(crc, w), n) == FeedBits(crc, Bits(w, n))
    decreases n
  {
    if n == 0 {
      assert Xor(crc, 0) == crc;
    } else {
      FeedLowBit(crc, w);
      ShiftTimesAdd(Xor(crc, w), 1, n - 1);
      assert ShiftTimes(Xor(crc, w), 1) == Shift(ShiftTimes(Xor(crc, w), 0));
      FeedWord(BitStep(crc, Low(w)), Half(w), n - 1);
      assert Bits(w, n)[0] == Low(w) && Bits(w, n)[1..] == Bits(Half(w), n - 1);
    }
  }

  lemma {:induction false} FeedConcat(crc: bv16, xs: seq<bv16>, ys: seq<bv16>)
    ensures FeedBits(crc, xs + ys) == FeedBits(FeedBits(crc, xs), ys)
    decreases |xs|
  {
    if xs == [] {
      assert xs + ys == ys;
    } else {
      assert (xs + ys)[0] == xs[0] && (xs + ys)[1..] == xs[1..] + ys;
      FeedConcat(BitStep(crc, xs[0]), xs[1..], ys);
    }
  }

  /** The byte loop computes the serial bit register. */
  lemma {:induction false} CrcIsBitSerial(crc: bv16, data: seq<byte>)
    ensures CrcFrom(crc, data) == FeedBits(crc, BitsOf(data))
    decreases |data|
  {
    if data != [] {
      var w := Widen(data[0]);
      WidenPlacesBits(data[0], 8);
      FeedWord(crc, w, 8);
      FeedConcat(crc, Bits(w, 8), BitsOf(data[1..]));
      CrcIsBitSerial(ByteStep(crc, w), data[1..]);
    }
  }

  // ---------------------------------------------------------------- differences of two messages

  function Differences(xs: seq<bv16>, ys: seq<bv16>): (d: seq<bv16>)
    requires |xs| == |ys|
    ensures |d| == |xs|
    ensures forall i :: 0 <= i < |d| ==> d[i] == Xor(xs[i], ys[i])
  {
    if xs == [] then [] else [Xor(xs[0], ys[0])] + Differences(xs[1..], ys[1..])
  }

  lemma BitStepIsLinear(a: bv16, b: bv16, x: bv16, y: bv16)
    ensures Xor(BitStep(a, x), BitStep(b, y)) == BitStep(Xor(a, b), Xor(x, y))
  {
    ShiftIsLinear(Xor(a, x), Xor(b, y));
    XorShuffle(a, b, x, y);
  }

  /** The register is linear in the message: two runs differ by a run on the difference. */
  lemma {:induction false} FeedIsLinear(a: bv16, b: bv16, xs: seq<bv16>, ys: seq<bv16>)
    requires |xs| == |ys|
    ensures Xor(FeedBits(a, xs), FeedBits(b, ys)) == FeedBits(Xor(a, b), Differences(xs, ys))
    decreases |xs|
  {
    if xs != [] {
      BitStepIsLinear(a, b, xs[0], ys[0]);
      FeedIsLinear(BitStep(a, xs[0]), BitStep(b, ys[0]), xs[1..], ys[1..]);
      assert Differences(xs, ys)[0] == Xor(xs[0], ys[0]);
      assert Differences(xs, ys)[1..] == Differences(xs[1..], ys[1..]);
    }
  }

  predicate AllZero(bits: seq<bv16>) {
    forall i :: 0 <= i < |bits| ==> bits[i] == 0
  }

  /** Zero bits neither create nor destroy a difference. */
  lemma {:induction false} FeedZeros(crc: bv16, zeros: seq<bv16>)
    requires AllZero(zeros)
    ensures FeedBits(crc, zeros) == 0 <==> crc == 0
    decreases |zeros|
  {
    if zeros != [] {
      assert Xor(crc, 0) == crc && Shift(0) == 0;
      if Shift(crc) == 0 {
        ShiftIsInjective(crc, 0);
      }
      FeedZeros(Shift(crc), zeros[1..]);
    }
  }

  function Pack(bits: seq<bv16>): bv16 {
    if bits == [] then 0 else Push(Pack(bits[1..]), bits[0])
  }

  lemma {:induction false} PackBits(bits: seq<bv16>)
    requires |bits| <= 16 && AreBits(bits)
    ensures Bits(Pack(bits), |bits|) == bits && Fits(Pack(bits), |bits|)
  {
    if bits != [] {
      var rest := Pack(bits[1..]);
      PackBits(bits[1..]);
      FitsFewer(rest, |bits| - 1);
      PackStep(rest, bits[0]);
    }
  }

  lemma {:induction false} ShiftTimesInjective(x: bv16, y: bv16, n: nat)
    requires ShiftTimes(x, n) == ShiftTimes(y, n)
    ensures x == y
  {
    if n > 0 {
      ShiftIsInjective(ShiftTimes(x, n - 1), ShiftTimes(y, n - 1));
      ShiftTimesInjective(x, y, n - 1);
    }
  }

  lemma {:induction false} ZerosShift(n: nat)
    ensures ShiftTimes(0, n) == 0
  {
    if n > 0 {
      ZerosShift(n - 1);
      assert Shift(0) == 0;
    }
  }

  lemma {:induction false} BitsOfZero(n: nat)
    ensures AllZero(Bits(0, n))
  {
    if n > 0 {
      assert Low(0) == 0 && Half(0) == 0;
      BitsOfZero(n - 1);
    }
  }

  /** Sixteen bits fed into an empty register never vanish. */
  lemma SixteenBitsShow(bits: seq<bv16>)
    requires |bits| == 16 && AreBits(bits)
    requires FeedBits(0, bits) == 0
    ensures AllZero(bits)
  {
    var w := Pack(bits);
    PackBits(bits);
    FeedWord(0, w, 16);
    assert Xor(0, w) == w;
    ZerosShift(16);
    ShiftTimesInjective(w, 0, 16);
    BitsOfZero(16);
  }

  /** Two bit strings that agree outside sixteen consecutive places. */
  predicate DifferInBurst(xs: seq<bv16>, ys: seq<bv16>, start: nat)
    requires |xs| == |ys|
  {
    forall i :: 0 <= i < |xs| && !(start <= i < start + 16) ==> xs[i] == ys[i]
  }

  lemma XorVanishesBits(x: bv16, y: bv16)
    ensures x ^ y == 0 <==> x == y
  {}

  lemma XorVanishes(x: bv16, y: bv16)
    ensures Xor(x, y) == 0 <==> x == y
  {
    XorVanishesBits(x, y);
  }

  lemma XorOfBits(x: bv16, y: bv16)
    requires (x == 0 || x == 1) && (y == 0 || y == 1)
    ensures Xor(x, y) == 0 || Xor(x, y) == 1
  {}

  /** A difference confined to sixteen places that leaves no trace in the register is none. */
  lemma BurstShows(d: seq<bv16>, start: nat)
    requires AreBits(d) && start + 16 <= |d|
    requires AllZero(d[..start]) && AllZero(d[start + 16..])
    requires FeedBits(0, d) == 0
    ensures AllZero(d[start..start + 16])
  {
    var before, burst, after := d[..start], d[start..start + 16], d[start + 16..];
    assert d == before + (burst + after);
    FeedConcat(0, before, burst + after);
    FeedConcat(0, burst, after);
    FeedZeros(0, before);
    FeedZeros(FeedBits(0, burst), after);
    SixteenBitsShow(burst);
  }

  lemma BurstInBits(xs: seq<bv16>, ys: seq<bv16>, start: nat)
    requires |xs| == |ys| && start + 16 <= |xs| && AreBits(xs) && AreBits(ys)
    requires DifferInBurst(xs, ys, start)
    requires FeedBits(INIT, xs) == FeedBits(INIT, ys)
    ensures xs == ys
  {
    var d := Differences(xs, ys);
    forall i | 0 <= i < |d| ensures (d[i] == 0 <==> xs[i] == ys[i]) && (d[i] == 0 || d[i] == 1) {
      XorVanishes(xs[i], ys[i]);
      XorOfBits(xs[i], ys[i]);
    }
    FeedIsLinear(INIT, INIT, xs, ys);
    XorVanishes(INIT, INIT);
    XorVanishes(FeedBits(INIT, xs), FeedBits(INIT, ys));
    BurstShows(d, start);
    forall i | 0 <= i < |d| ensures xs[i] == ys[i] {
      if start <= i < start + 16 {
        assert d[start..start + 16][i - start] == d[i];
      }
    }
  }

  lemma {:induction false} BitsAreBits(w: bv16, n: nat)
    ensures AreBits(Bits(w, n))
  {
    if n > 0 {
      LowIsBit(w);
      BitsAreBits(Half(w), n - 1);
    }
  }

  lemma {:induction false} MessageBitsAreBits(data: seq<byte>)
    ensures AreBits(BitsOf(data))
  {
    if data != [] {
      BitsAreBits(Widen(data[0]), 8);
      MessageBitsAreBits(data[1..]);
    }
  }

  /** A byte can be read back from its bits. */
  lemma {:induction false} BitsDetermineByte(a: nat, b: nat, n: nat)
    requires n <= 8 && a < PowerOfTwo(n) && b < PowerOfTwo(n)
    requires Bits(WidenBits(a, n), n) == Bits(WidenBits(b, n), n)
    ensures a == b
    decreases n
  {
    if n > 0 {
      var va, vb := WidenBits(a, n), WidenBits(b, n);
      WidenPlacesBits(a, n);
      WidenPlacesBits(b, n);
      assert Bits(va, n)[0] == Low(va) && Bits(vb, n)[0] == Low(vb);
      assert Bits(va, n)[1..] == Bits(Half(va), n - 1) && Bits(vb, n)[1..] == Bits(Half(vb), n - 1);
      BitsDetermineByte(a / 2, b / 2, n - 1);
    }
  }

  lemma {:induction false} BitsDetermineMessage(a: seq<byte>, b: seq<byte>)
    requires |a| == |b| && BitsOf(a) == BitsOf(b)
    ensures a == b
  {
    if a != [] {
      var va, vb := Widen(a[0]), Widen(b[0]);
      assert BitsOf(a)[..8] == Bits(va, 8) && BitsOf(b)[..8] == Bits(vb, 8);
      assert BitsOf(a)[8..] == BitsOf(a[1..]) && BitsOf(b)[8..] == BitsOf(b[1..]);
      BitsDetermineByte(a[0], b[0], 8);
      BitsDetermineMessage(a[1..], b[1..]);
    }
  }

  /** Two messages of one length that differ, but only inside sixteen consecutive bits, never
      have the same CRC, however long they are. */
  lemma BurstDetected(a: seq<byte>, b: seq<byte>, start: nat)
    requires |a| == |b| && start + 16 <= 8 * |a|
    requires DifferInBurst(BitsOf(a), BitsOf(b), start)
    ensures Crc(a) == Crc(b) <==> a == b
  {
    if Crc(a) == Crc(b) {
      CrcIsBitSerial(INIT, a);
      CrcIsBitSerial(INIT, b);
      MessageBitsAreBits(a);
      MessageBitsAreBits(b);
      BurstInBits(BitsOf(a), BitsOf(b), start);
      BitsDetermineMessage(a, b);
    }
  }

  // ---------------------------------------------------------------- the CRC as a number

  /** The low `n` bits of a word as a number. */
  function Number(w: bv16, n: nat): (v: nat)
    ensures v < PowerOfTwo(n)
  {
    if n == 0 then 0 else (if Low(w) == 1 then 1 else 0) + 2 * Number(Half(w), n - 1)
  }

  lemma SameWord(v: bv16, w: bv16)
    requires Low(v) == Low(w) && Half(v) == Half(w)
    ensures v == w
  {}

  lemma {:induction false} NumberIsInjective(v: bv16, w: bv16, n: nat)
    requires Fits(v, n) && Fits(w, n) && Number(v, n) == Number(w, n)
    ensures v == w
    decreases n
  {
    if n > 0 {
      LowIsBit(v);
      LowIsBit(w);
      NumberIsInjective(Half(v), Half(w), n - 1);
      SameWord(v, w);
    }
  }

  lemma NumberFits(w: bv16)
    ensures Number(w, 16) < 0x1_0000
  {
    assert PowerOfTwo(8) == 256;
    assert PowerOfTwo(16) == 0x1_0000;
  }

  function CrcNumber(data: seq<byte>): (v: nat)
    ensures v < 0x1_0000
  {
    NumberFits(Crc(data));
    Number(Crc(data), 16)
  }

  lemma CrcNumberMeaning(a: seq<byte>, b: seq<byte>)
    ensures CrcNumber(a) == CrcNumber(b) <==> Crc(a) == Crc(b)
  {
    if CrcNumber(a) == CrcNumber(b) {
      SixteenBitsFit(Crc(a));
      SixteenBitsFit(Crc(b));
      NumberIsInjective(Crc(a), Crc(b), 16);
    }
  }
}
