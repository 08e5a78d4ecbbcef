/** The 64-entry sliding replay window kept by both session implementations, as a
    refinement of the set of every sequence accepted in the current key epoch. */
module ReplayWindow {

  const SEQ_LIMIT: nat := 0x1_0000_0000
  const TOP: bv64 := 0x8000_0000_0000_0000

  // The word operations, and the facts about them that need bit-blasting, stand alone so that
  // no other proof has to look inside a word.

  function Double(word: bv64): bv64 { word << 1 }
  function And(x: bv64, y: bv64): bv64 { x & y }
  function Or(x: bv64, y: bv64): bv64 { x | y }

  lemma OrOfDisjoint(x: bv64, y: bv64, m: bv64)
    requires And(x, m) == 0 && And(y, m) == 0
    ensures And(Or(x, y), m) == 0
  {}

  lemma DisjointLeft(x: bv64, y: bv64, m: bv64)
    requires And(Or(x, y), m) == 0
    ensures And(x, m) == 0
  {}

  lemma DisjointRight(x: bv64, y: bv64, m: bv64)
    requires And(Or(x, y), m) == 0
    ensures And(y, m) == 0
  {}

  lemma DoubleKeepsOverlap(x: bv64, m: bv64)
    requires And(m, TOP) == 0
    ensures And(Double(x), Double(m)) != 0 <==> And(x, m) != 0
  {}

  lemma DoubleIsEven(x: bv64)
    ensures And(Double(x), 1) == 0 && And(1, Double(x)) == 0
  {}

  predicate PowerOfTwoOrZero(m: bv64) { m & (m - 1) == 0 }

  lemma DoublePowerOfTwo(m: bv64)
    requires PowerOfTwoOrZero(m)
    ensures PowerOfTwoOrZero(Double(m))
    ensures Double(m) != 0 ==> And(m, TOP) == 0 && m != 0
  {}

  /** `1 << k` on a 64-bit word, one place at a time. */
  function Mask(k: nat): bv64 {
    if k == 0 then 1 else Double(Mask(k - 1))
  }

  /** `word << s` on a 64-bit word, one place at a time; bits shifted past bit 63 are lost. */
  function ShiftLeft(word: bv64, s: nat): bv64 {
    if s == 0 then word else Double(ShiftLeft(word, s - 1))
  }

  predicate Bit(word: bv64, k: nat) {
    And(word, Mask(k)) != 0
  }

  lemma {:induction false} MaskIsPowerOfTwo(k: nat)
    ensures PowerOfTwoOrZero(Mask(k))
  {
    if k > 0 {
      MaskIsPowerOfTwo(k - 1);
      DoublePowerOfTwo(Mask(k - 1));
    }
  }

  lemma TopMask()
    ensures Mask(63) == TOP
  {
    assert Mask(8) == 0x100;
    assert Mask(16) == 0x1_0000;
    assert Mask(24) == 0x100_0000;
    assert Mask(32) == 0x1_0000_0000;
    assert Mask(40) == 0x100_0000_0000;
    assert Mask(48) == 0x1_0000_0000_0000;
    assert Mask(56) == 0x100_0000_0000_0000;
  }

  lemma {:induction false} MaskNonzero(k: nat)
    requires k < 64
    ensures Mask(k) != 0
    ensures k < 63 ==> And(Mask(k), TOP) == 0
    decreases 63 - k
  {
    if k == 63 {
      TopMask();
    } else {
      MaskNonzero(k + 1);
      MaskIsPowerOfTwo(k);
      DoublePowerOfTwo(Mask(k));
    }
  }

  lemma AndSelf(m: bv64)
    ensures And(m, m) == m
  {}

  /** Distinct bits have disjoint masks. */
  lemma {:induction false} BitOfMask(j: nat, k: nat)
    requires j < 64 && k < 64
    ensures Bit(Mask(j), k) <==> j == k
  {
    if j == k {
      MaskNonzero(j);
      AndSelf(Mask(j));
    } else if j == 0 {
      DoubleIsEven(Mask(k - 1));
    } else if k == 0 {
      DoubleIsEven(Mask(j - 1));
    } else {
      BitOfMask(j - 1, k - 1);
      MaskNonzero(k - 1);
      DoubleKeepsOverlap(Mask(j - 1), Mask(k - 1));
    }
  }

  lemma BitOfOr(x: bv64, y: bv64, k: nat)
    ensures Bit(Or(x, y), k) <==> Bit(x, k) || Bit(y, k)
  {
    if !Bit(x, k) && !Bit(y, k) {
      OrOfDisjoint(x, y, Mask(k));
    }
    if !Bit(Or(x, y), k) {
      DisjointLeft(x, y, Mask(k));
      DisjointRight(x, y, Mask(k));
    }
  }

  lemma {:induction false} BitOfShift(word: bv64, s: nat, k: nat)
    requires k < 64
    ensures Bit(ShiftLeft(word, s), k) <==> s <= k && Bit(word, k - s)
  {
    if s > 0 {
      if k == 0 {
        DoubleIsEven(ShiftLeft(word, s - 1));
      } else {
        BitOfShift(word, s - 1, k - 1);
        MaskNonzero(k - 1);
        DoubleKeepsOverlap(ShiftLeft(word, s - 1), Mask(k - 1));
      }
    }
  }

  // ---------------------------------------------------------------- the window

  datatype Window = Window(rxSeq: nat, bitmap: bv64) {

    /** The test made before decryption, on unbounded signed integers
        (sdk/python/src/usmp/_session.py:124-129). */
    predicate Fresh(seqNo: nat) {
      && !(seqNo <= rxSeq - 64)
      && !(seqNo <= rxSeq && Bit(bitmap, rxSeq - seqNo))
    }

    /** The same test on 32-bit unsigned integers, where `rx_seq - 64` would wrap
        (core/src/usmp_session.c:265-275). */
    predicate FreshUnsigned(seqNo: nat) {
      && !(rxSeq >= 64 && seqNo <= (rxSeq + SEQ_LIMIT - 64) % SEQ_LIMIT)
      && !(seqNo <= rxSeq && Bit(bitmap, (rxSeq + SEQ_LIMIT - seqNo) % SEQ_LIMIT))
    }

    /** The update made after authentication (_session.py:166-177, usmp_session.c:350-361). */
    function Record(seqNo: nat): Window {
      if seqNo > rxSeq then
        var shift := seqNo - rxSeq;
        Window(seqNo, if shift < 64 then Or(ShiftLeft(bitmap, shift), 1) else 1)
      else
        Window(rxSeq, Or(bitmap, Mask(rxSeq - seqNo)))
    }
  }

  const EMPTY := Window(0, 0)

  /** `w` stands for the set `accepted`: nothing above `rxSeq` was accepted, and bit k says
      whether `rxSeq - k` was. */
  ghost predicate Represents(w: Window, accepted: set<nat>) {
    && (forall s :: s in accepted ==> s <= w.rxSeq)
    && (forall k: nat :: k < 64 ==> (Bit(w.bitmap, k) <==> k <= w.rxSeq && w.rxSeq - k in accepted))
  }

  lemma AndZero(m: bv64)
    ensures And(0, m) == 0
  {}

  lemma EmptyWindow()
    ensures Represents(EMPTY, {})
  {
    forall k: nat | k < 64 ensures !Bit(0, k) {
      AndZero(Mask(k));
    }
  }

  /** The window accepts exactly the sequences that are new and less than 64 behind. */
  lemma FreshMeaning(w: Window, accepted: set<nat>, seqNo: nat)
    requires Represents(w, accepted)
    ensures w.Fresh(seqNo) <==> seqNo !in accepted && w.rxSeq < seqNo + 64
  {
    if seqNo <= w.rxSeq && w.rxSeq - seqNo < 64 {
      assert Bit(w.bitmap, w.rxSeq - seqNo) <==> w.rxSeq - (w.rxSeq - seqNo) in accepted;
    }
  }

  /** The wrapping and the signed form of the test decide alike on every 32-bit input. */
  lemma UnsignedAndSignedAgree(w: Window, seqNo: nat)
    requires w.rxSeq < SEQ_LIMIT && seqNo < SEQ_LIMIT
    ensures w.FreshUnsigned(seqNo) <==> w.Fresh(seqNo)
  {
    if seqNo <= w.rxSeq {
      assert (w.rxSeq + SEQ_LIMIT - seqNo) % SEQ_LIMIT == w.rxSeq - seqNo;
    }
    if w.rxSeq >= 64 {
      assert (w.rxSeq + SEQ_LIMIT - 64) % SEQ_LIMIT == w.rxSeq - 64;
    }
  }

  lemma RecordForward(w: Window, accepted: set<nat>, seqNo: nat)
    requires Represents(w, accepted) && w.rxSeq < seqNo
    ensures Represents(w.Record(seqNo), accepted + {seqNo})
  {
    var after := w.Record(seqNo);
    var shift := seqNo - w.rxSeq;
    forall k: nat | k < 64
      ensures Bit(after.bitmap, k) <==> k <= seqNo && seqNo - k in accepted + {seqNo}
    {
      BitOfMask(0, k);
      if shift < 64 {
        BitOfShift(w.bitmap, shift, k);
        BitOfOr(ShiftLeft(w.bitmap, shift), 1, k);
        if shift <= k {
          assert Bit(w.bitmap, k - shift) <==> k - shift <= w.rxSeq && w.rxSeq - (k - shift) in accepted;
        }
      }
    }
  }

  lemma RecordBehind(w: Window, accepted: set<nat>, seqNo: nat)
    requires Represents(w, accepted) && seqNo <= w.rxSeq < seqNo + 64
    ensures Represents(w.Record(seqNo), accepted + {seqNo})
  {
    var after := w.Record(seqNo);
    var offset := w.rxSeq - seqNo;
    forall k: nat | k < 64
      ensures Bit(after.bitmap, k) <==> k <= w.rxSeq && w.rxSeq - k in accepted + {seqNo}
    {
      BitOfMask(offset, k);
      BitOfOr(w.bitmap, Mask(offset), k);
    }
  }

  /** Recording a fresh sequence keeps the window and the set in step. */
  lemma RecordMeaning(w: Window, accepted: set<nat>, seqNo: nat)
    requires Represents(w, accepted) && w.Fresh(seqNo)
    ensures Represents(w.Record(seqNo), accepted + {seqNo})
    ensures seqNo !in accepted
  {
    FreshMeaning(w, accepted, seqNo);
    if w.rxSeq < seqNo {
      RecordForward(w, accepted, seqNo);
    } else {
      RecordBehind(w, accepted, seqNo);
    }
  }

  // ---------------------------------------------------------------- whole runs

  /** One incoming frame: its sequence, and whether decryption succeeds. */
  datatype Arrival = Arrival(seqNo: nat, authentic: bool)

  /** The sequences accepted, in order, when the window filters `arrivals`. */
  function Accepted(w: Window, arrivals: seq<Arrival>): seq<nat>
    decreases |arrivals|
  {
    if arrivals == [] then []
    else
      var a := arrivals[0];
      if w.Fresh(a.seqNo) && a.authentic then [a.seqNo] + Accepted(w.Record(a.seqNo), arrivals[1..])
      else Accepted(w, arrivals[1..])
  }

  /** The filter as its documentation describes it: remember every accepted sequence and the
      highest of them, take what is new and less than 64 behind. */
  function AcceptedBySet(seen: set<nat>, high: nat, arrivals: seq<Arrival>): seq<nat>
    decreases |arrivals|
  {
    if arrivals == [] then []
    else
      var a := arrivals[0];
      if a.authentic && a.seqNo !in seen && high < a.seqNo + 64 then
        [a.seqNo] + AcceptedBySet(seen + {a.seqNo}, if high < a.seqNo then a.seqNo else high, arrivals[1..])
      else AcceptedBySet(seen, high, arrivals[1..])
  }

  lemma {:induction false} WindowSimulatesSet(w: Window, seen: set<nat>, arrivals: seq<Arrival>)
    requires Represents(w, seen)
    ensures Accepted(w, arrivals) == AcceptedBySet(seen, w.rxSeq, arrivals)
    decreases |arrivals|
  {
    if arrivals != [] {
      var a := arrivals[0];
      FreshMeaning(w, seen, a.seqNo);
      if w.Fresh(a.seqNo) && a.authentic {
        RecordMeaning(w, seen, a.seqNo);
        WindowSimulatesSet(w.Record(a.seqNo), seen + {a.seqNo}, arrivals[1..]);
      } else {
        WindowSimulatesSet(w, seen, arrivals[1..]);
      }
    }
  }

  ghost predicate Distinct(s: seq<nat>) {
    forall i, j :: 0 <= i < j < |s| ==> s[i] != s[j]
  }

  lemma {:induction false} AcceptedAreNew(w: Window, seen: set<nat>, arrivals: seq<Arrival>)
    requires Represents(w, seen)
    ensures Distinct(Accepted(w, arrivals))
    ensures forall i :: 0 <= i < |Accepted(w, arrivals)| ==> Accepted(w, arrivals)[i] !in seen
    decreases |arrivals|
  {
    if arrivals != [] {
      var a := arrivals[0];
      if w.Fresh(a.seqNo) && a.authentic {
        RecordMeaning(w, seen, a.seqNo);
        AcceptedAreNew(w.Record(a.seqNo), seen + {a.seqNo}, arrivals[1..]);
      } else {
        AcceptedAreNew(w, seen, arrivals[1..]);
      }
    }
  }

  /** From the start of an epoch no sequence is ever accepted twice, and the bitmap filter is
      the set filter. */
  lemma NoReplay(arrivals: seq<Arrival>)
    ensures Distinct(Accepted(EMPTY, arrivals))
    ensures Accepted(EMPTY, arrivals) == AcceptedBySet({}, 0, arrivals)
  {
    EmptyWindow();
    AcceptedAreNew(EMPTY, {}, arrivals);
    WindowSimulatesSet(EMPTY, {}, arrivals);
  }
}
