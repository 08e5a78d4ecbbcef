/** What `usmp_recv` lets through, over any number of calls: on datagrams exactly the authentic,
    well-placed frames that are new and less than 64 behind, on a stream exactly those in turn. */
module CoreFilter {
  import opened Crc16
  import opened Frame
  import opened SymbolicKeys
  import opened ReplayWindow
  import opened CoreTransmit
  import opened CoreReceive
  import W = CoreRoundTrip

  // ---------------------------------------------------------------- successive calls, answer by answer

  /** The context and the local variables of the call under way, how many answers it has read, and
      what the calls before it returned. */
  datatype Walk = Walk(core: Core, local: Local, used: nat, codes: seq<int>)

  function Ended(core: Core, codes: seq<int>, code: int): Walk { Walk(core, BLANK, 0, codes + [code]) }

  /** One answer of the transport; without a session none is read. */
  function Advance(datagrams: bool, maxLen: nat, net: Net, w: Walk, r: Reading): Walk {
    if !w.core.established then w
    else
      var t := OnReading(datagrams, maxLen, w.core, w.local, r, net);
      if t.verdict.Finish? then Ended(t.core, w.codes, t.verdict.code)
      else if w.used + 1 < MAX_ATTEMPTS then Walk(t.core, t.local, w.used + 1, w.codes)
      else if |t.local.parts| > 0 then Ended(t.core.(established := false), w.codes, -1)
      else Ended(t.core, w.codes, 0)
  }

  function Calls(datagrams: bool, maxLen: nat, net: Net, w: Walk, rs: seq<Reading>): Walk
    decreases |rs|
  {
    if |rs| == 0 then w else Calls(datagrams, maxLen, net, Advance(datagrams, maxLen, net, w, rs[0]), rs[1..])
  }

  lemma AgainIsEstablished(datagrams: bool, maxLen: nat, c: Core, l: Local, r: Reading, net: Net)
    requires c.established && OnReading(datagrams, maxLen, c, l, r, net).verdict == Again
    ensures OnReading(datagrams, maxLen, c, l, r, net).core.established
  {}

  /** They are calls of `usmp_recv`: the answers that one call reads take the walk from its start to
      the start of the next. */
  lemma {:induction false} CallsAreRecvs(datagrams: bool, maxLen: nat, net: Net, c: Core, l: Local, incoming: seq<Reading>, k: nat, codes: seq<int>)
    requires c.established && k < MAX_ATTEMPTS
    requires Loop(datagrams, maxLen, c, l, incoming, k, net).attempts <= |incoming|
    ensures var x := Loop(datagrams, maxLen, c, l, incoming, k, net);
            k < x.attempts && Calls(datagrams, maxLen, net, Walk(c, l, k, codes), incoming[k..x.attempts]) == Ended(x.core, codes, x.code)
    decreases MAX_ATTEMPTS - k
  {
    var x := Loop(datagrams, maxLen, c, l, incoming, k, net);
    var r := At(incoming, k);
    var t := OnReading(datagrams, maxLen, c, l, r, net);
    LoopReads(datagrams, maxLen, c, l, incoming, k, net);
    CallsCons(datagrams, maxLen, net, Walk(c, l, k, codes), incoming, k, x.attempts);
    if t.verdict == Again {
      AgainIsEstablished(datagrams, maxLen, c, l, r, net);
      if k + 1 < MAX_ATTEMPTS {
        CallsAreRecvs(datagrams, maxLen, net, t.core, t.local, incoming, k + 1, codes);
      }
    }
  }

  lemma CallsCons(datagrams: bool, maxLen: nat, net: Net, w: Walk, incoming: seq<Reading>, k: nat, end: nat)
    requires k < end <= |incoming|
    ensures Calls(datagrams, maxLen, net, w, incoming[k..end])
         == Calls(datagrams, maxLen, net, Advance(datagrams, maxLen, net, w, incoming[k]), incoming[k + 1..end])
  {
    var rs := incoming[k..end];
    assert rs[0] == incoming[k] && rs[1..] == incoming[k + 1..end];
  }

  lemma {:induction false} LoopReads(datagrams: bool, maxLen: nat, c: Core, l: Local, incoming: seq<Reading>, k: nat, net: Net)
    requires k <= MAX_ATTEMPTS
    ensures Loop(datagrams, maxLen, c, l, incoming, k, net).attempts >= if k < MAX_ATTEMPTS then k + 1 else k
    decreases MAX_ATTEMPTS - k
  {
    if k < MAX_ATTEMPTS {
      var t := OnReading(datagrams, maxLen, c, l, At(incoming, k), net);
      if t.verdict == Again {
        LoopReads(datagrams, maxLen, t.core, t.local, incoming, k + 1, net);
      }
    }
  }

  // ---------------------------------------------------------------- datagrams

  /** A data frame that fits the rest of the buffer, or a control frame between messages that fits
      the scratch buffer. */
  predicate WellPlaced(l: Local, maxLen: nat, r: Reading)
    requires r.Parsed?
  {
    match r.kind
    case Data => |l.payload| + r.length - NONCE_LEN - TAG_LEN <= maxLen && |l.payload| <= maxLen
    case DataFrag => |l.payload| + r.length - NONCE_LEN - TAG_LEN <= maxLen && |l.payload| <= maxLen
    case Other(_) => false
    case _ => |l.payload| == 0 && r.length - NONCE_LEN - TAG_LEN <= 32
  }

  predicate Sound(c: Core, l: Local, maxLen: nat, r: Reading) {
    r.Parsed? && Opens(r, c) && WellPlaced(l, maxLen, r)
  }

  predicate Passes(c: Core, l: Local, maxLen: nat, seen: set<nat>, r: Reading) {
    Sound(c, l, maxLen, r) && r.seqNo < LAST_SEQ && r.seqNo !in seen && c.rxSeq < r.seqNo + 64
  }

  ghost predicate StandsFor(c: Core, seen: set<nat>) { Represents(Window(c.rxSeq, c.bitmap), seen) }

  lemma RejectedMeaning(c: Core, seen: set<nat>, seqNo: uint32)
    requires StandsFor(c, seen)
    ensures Rejected(true, c, seqNo) <==> seqNo in seen || seqNo + 64 <= c.rxSeq
  {
    UnsignedAndSignedAgree(Window(c.rxSeq, c.bitmap), seqNo);
    FreshMeaning(Window(c.rxSeq, c.bitmap), seen, seqNo);
  }

  /** What an accepted frame leaves of the window. */
  lemma AcceptedMeaning(c: Core, seen: set<nat>, seqNo: uint32)
    requires StandsFor(c, seen) && seqNo !in seen && c.rxSeq < seqNo + 64
    ensures var d := Note(true, c, seqNo);
            StandsFor(d, seen + {seqNo}) && d.rxSeq == (if c.rxSeq < seqNo then seqNo else c.rxSeq)
            && (d.rxSeq != c.rxSeq || d.bitmap != c.bitmap)
  {
    RejectedMeaning(c, seen, seqNo);
    NoteMeaning(c, seen, seqNo);
    var d := Note(true, c, seqNo);
    if seqNo <= c.rxSeq {
      var k := c.rxSeq - seqNo;
      assert Bit(c.bitmap, k) <==> c.rxSeq - k in seen;
      assert Bit(d.bitmap, k) <==> d.rxSeq - k in seen + {seqNo};
    }
  }

  /** The dispatch moves the window only with the keys. */
  lemma ActKeepsWindow(c: Core, l: Local, r: Reading, net: Net)
    requires r.Parsed?
    ensures var t := Act(c, l, r, net);
            || (t.core.keys == c.keys && t.core.rxSeq == c.rxSeq && t.core.bitmap == c.bitmap)
            || (Size(t.core.keys.rx) > Size(c.keys.rx) && t.core.rxSeq == 0 && t.core.bitmap == 0)
  {
    if r.kind == Rekey {
      RekeyGrows(false, c.keys, c.sessionId, r.box.plaintext);
    }
  }

  lemma ScreenMeaning(maxLen: nat, c: Core, l: Local, r: Reading, seen: set<nat>)
    requires StandsFor(c, seen) && r.Parsed? && r.seqNo < LAST_SEQ
    ensures var s := Screen(true, maxLen, c, l, r);
            && (s.None? <==> r.seqNo !in seen && c.rxSeq < r.seqNo + 64 && r.length >= NONCE_LEN + TAG_LEN && WellPlaced(l, maxLen, r))
            && (s.Some? ==> s.value == Turn(c, l, Again))
  {
    RejectedMeaning(c, seen, r.seqNo);
  }

  /** One answer on datagrams. What does not pass changes nothing, and the call reads on; what
      passes is recorded; the reserved sequence number and a failing transport end the session. */
  lemma AnswerOnDatagrams(maxLen: nat, net: Net, c: Core, l: Local, r: Reading, seen: set<nat>)
    requires StandsFor(c, seen) && c.established
    ensures var t := OnReading(true, maxLen, c, l, r, net);
            && (r.Unparsed? || (r.Parsed? && r.seqNo < LAST_SEQ && !Passes(c, l, maxLen, seen, r)) ==> t == Turn(c, l, Again))
            && (Passes(c, l, maxLen, seen, r) ==> t != Turn(c, l, Again))
            && (Passes(c, l, maxLen, seen, r) && t.core.keys == c.keys ==>
                  StandsFor(t.core, seen + {r.seqNo}) && t.core.rxSeq == if c.rxSeq < r.seqNo then r.seqNo else c.rxSeq)
            && (r.ReadFailed? || (r.Parsed? && r.seqNo >= LAST_SEQ) ==> t == Turn(c.(established := false), l, Finish(-1)))
            && (t.core.keys == c.keys || (Size(t.core.keys.rx) > Size(c.keys.rx) && StandsFor(t.core, {})))
  {
    EmptyWindow();
    if r.Parsed? && r.seqNo < LAST_SEQ {
      ScreenMeaning(maxLen, c, l, r, seen);
      if Passes(c, l, maxLen, seen, r) {
        AcceptedMeaning(c, seen, r.seqNo);
        ActKeepsWindow(Note(true, c, r.seqNo), l, r, net);
      }
    }
  }

  /** The frames as the filter sees them: sealed by the peer, and where they may be. */
  function Heard(maxLen: nat, net: Net, w: Walk, rs: seq<Reading>): seq<Arrival>
    decreases |rs|
  {
    if |rs| == 0 || !w.core.established then []
    else
      (if rs[0].Parsed? then [Arrival(rs[0].seqNo, Sound(w.core, w.local, maxLen, rs[0]) && rs[0].seqNo < LAST_SEQ)] else [])
      + Heard(maxLen, net, Advance(true, maxLen, net, w, rs[0]), rs[1..])
  }

  /** The sequences of the frames that changed anything: context, local variables or the call. */
  function Taken(maxLen: nat, net: Net, w: Walk, rs: seq<Reading>): seq<nat>
    decreases |rs|
  {
    if |rs| == 0 || !w.core.established then []
    else
      var r := rs[0];
      (if r.Parsed? && r.seqNo < LAST_SEQ && OnReading(true, maxLen, w.core, w.local, r, net) != Turn(w.core, w.local, Again)
       then [r.seqNo] else [])
      + Taken(maxLen, net, Advance(true, maxLen, net, w, r), rs[1..])
  }

  function SeenAfter(w: Walk, v: Walk, maxLen: nat, seen: set<nat>, r: Reading): set<nat> {
    if v.core.keys != w.core.keys then {}
    else if Passes(w.core, w.local, maxLen, seen, r) then seen + {r.seqNo} else seen
  }

  lemma AdvanceMeaning(maxLen: nat, net: Net, w: Walk, r: Reading, seen: set<nat>)
    requires StandsFor(w.core, seen)
    ensures w.core.established ==>
              var v := Advance(true, maxLen, net, w, r); StandsFor(v.core, SeenAfter(w, v, maxLen, seen, r))
    ensures var v := Advance(true, maxLen, net, w, r); var high := w.core.rxSeq;
            w.core.established && v.core.keys == w.core.keys ==>
              v.core.rxSeq == if Passes(w.core, w.local, maxLen, seen, r) && high < r.seqNo then r.seqNo else high
    ensures var v := Advance(true, maxLen, net, w, r);
            v.core.keys == w.core.keys || Size(v.core.keys.rx) > Size(w.core.keys.rx)
  {
    if w.core.established {
      AnswerOnDatagrams(maxLen, net, w.core, w.local, r, seen);
    }
  }

  lemma {:induction false} StopsWithSession(datagrams: bool, maxLen: nat, net: Net, w: Walk, rs: seq<Reading>)
    requires !w.core.established
    ensures Calls(datagrams, maxLen, net, w, rs) == w
    decreases |rs|
  {
    if |rs| > 0 {
      StopsWithSession(datagrams, maxLen, net, w, rs[1..]);
    }
  }

  lemma {:induction false} KeysGrow(maxLen: nat, net: Net, w: Walk, rs: seq<Reading>, seen: set<nat>)
    requires StandsFor(w.core, seen)
    ensures var v := Calls(true, maxLen, net, w, rs);
            v.core.keys == w.core.keys || Size(v.core.keys.rx) > Size(w.core.keys.rx)
    decreases |rs|
  {
    if !w.core.established {
      StopsWithSession(true, maxLen, net, w, rs);
    } else if |rs| > 0 {
      var v := Advance(true, maxLen, net, w, rs[0]);
      AdvanceMeaning(maxLen, net, w, rs[0], seen);
      KeysGrow(maxLen, net, v, rs[1..], SeenAfter(w, v, maxLen, seen, rs[0]));
    }
  }

  lemma FilterStep(seen: set<nat>, high: nat, a: Arrival, more: seq<Arrival>)
    ensures AcceptedBySet(seen, high, [a] + more) ==
            if a.authentic && a.seqNo !in seen && high < a.seqNo + 64
            then [a.seqNo] + AcceptedBySet(seen + {a.seqNo}, if high < a.seqNo then a.seqNo else high, more)
            else AcceptedBySet(seen, high, more)
  {
    assert ([a] + more)[1..] == more;
  }

  /** Between two changes of keys, and over any number of `usmp_recv` calls on datagrams, the frames
      that have any effect are those that a filter would take that remembers every sequence it has
      taken: authentic ones where they may be, none of them twice or again, and none lost that is
      new and less than 64 behind. */
  lemma {:induction false} TakenBySet(maxLen: nat, net: Net, w: Walk, rs: seq<Reading>, seen: set<nat>)
    requires StandsFor(w.core, seen) && Calls(true, maxLen, net, w, rs).core.keys == w.core.keys
    ensures Taken(maxLen, net, w, rs) == AcceptedBySet(seen, w.core.rxSeq, Heard(maxLen, net, w, rs))
    decreases |rs|
  {
    if |rs| > 0 && w.core.established {
      var r := rs[0];
      var v := Advance(true, maxLen, net, w, r);
      var seen' := SeenAfter(w, v, maxLen, seen, r);
      AdvanceMeaning(maxLen, net, w, r, seen);
      AnswerOnDatagrams(maxLen, net, w.core, w.local, r, seen);
      KeysGrow(maxLen, net, v, rs[1..], seen');
      TakenBySet(maxLen, net, v, rs[1..], seen');
      var more := Heard(maxLen, net, v, rs[1..]);
      if r.Parsed? {
        FilterStep(seen, w.core.rxSeq, Arrival(r.seqNo, Sound(w.core, w.local, maxLen, r) && r.seqNo < LAST_SEQ), more);
      } else {
        assert [] + more == more && [] + Taken(maxLen, net, v, rs[1..]) == Taken(maxLen, net, v, rs[1..]);
      }
    }
  }

  lemma TakenOnce(maxLen: nat, net: Net, w: Walk, rs: seq<Reading>, seen: set<nat>)
    requires StandsFor(w.core, seen) && Calls(true, maxLen, net, w, rs).core.keys == w.core.keys
    ensures var taken := Taken(maxLen, net, w, rs);
            Distinct(taken) && forall i :: 0 <= i < |taken| ==> taken[i] !in seen
  {
    TakenBySet(maxLen, net, w, rs, seen);
    WindowSimulatesSet(Window(w.core.rxSeq, w.core.bitmap), seen, Heard(maxLen, net, w, rs));
    AcceptedAreNew(Window(w.core.rxSeq, w.core.bitmap), seen, Heard(maxLen, net, w, rs));
  }

  // ---------------------------------------------------------------- streams

  predicate NoErrors(codes: seq<int>, from: nat) {
    forall i :: from <= i < |codes| ==> codes[i] != -1
  }

  /** One answer on a stream: what is not the next authentic frame, where it may be, fails the call
      and moves neither keys nor sequence. */
  lemma AnswerOnStream(maxLen: nat, net: Net, c: Core, l: Local, r: Reading)
    requires c.established
    ensures var t := OnReading(false, maxLen, c, l, r, net);
            && (!(Sound(c, l, maxLen, r) && r.seqNo == c.rxSeq < LAST_SEQ) ==>
                  t.verdict == Finish(-1) && t.core == c.(established := t.core.established))
            && (t.core.keys == c.keys || Size(t.core.keys.rx) > Size(c.keys.rx))
            && (Sound(c, l, maxLen, r) && r.seqNo == c.rxSeq < LAST_SEQ && t.core.keys == c.keys ==> t.core.rxSeq == c.rxSeq + 1)
            && (t.verdict.Finish? && t.verdict.code != -1 ==> t.core.established)
  {
    if Sound(c, l, maxLen, r) && r.seqNo == c.rxSeq < LAST_SEQ {
      ActKeepsWindow(Note(false, c, r.seqNo), l, r, net);
    }
  }

  /** The answers were authentic frames, numbered from `n` on without a gap. */
  predicate InTurn(key: Key, sessionId: seq<byte>, n: nat, rs: seq<Reading>) {
    forall i :: 0 <= i < |rs| ==>
      && rs[i].Parsed? && Open(rs[i].box, key, rs[i].seqNo, sessionId, rs[i].kind, rs[i].length).Some?
      && rs[i].seqNo == n + i < LAST_SEQ
  }

  lemma AdvanceOnStream(maxLen: nat, net: Net, w: Walk, r: Reading)
    requires w.core.established && w.used < MAX_ATTEMPTS
    ensures var v := Advance(false, maxLen, net, w, r);
            && w.codes <= v.codes && v.used < MAX_ATTEMPTS && v.core.sessionId == w.core.sessionId
            && (v.core.keys == w.core.keys || Size(v.core.keys.rx) > Size(w.core.keys.rx))
            && (NoErrors(v.codes, |w.codes|) ==>
                  v.core.established && Sound(w.core, w.local, maxLen, r) && r.seqNo == w.core.rxSeq < LAST_SEQ
                  && (v.core.keys == w.core.keys ==> v.core.rxSeq == w.core.rxSeq + 1))
  {
    AnswerOnStream(maxLen, net, w.core, w.local, r);
    SameSession(false, maxLen, net, w.core, w.local, r);
    var v, n := Advance(false, maxLen, net, w, r), |w.codes|;
    assert NoErrors(v.codes, n) && |v.codes| > n ==> v.codes[n] != -1;
    var t := OnReading(false, maxLen, w.core, w.local, r, net);
    if t.verdict == Again { AgainIsEstablished(false, maxLen, w.core, w.local, r, net); }
  }

  lemma SameSession(datagrams: bool, maxLen: nat, net: Net, c: Core, l: Local, r: Reading)
    ensures OnReading(datagrams, maxLen, c, l, r, net).core.sessionId == c.sessionId
  {
    TurnParts(datagrams, maxLen, c, l, r, net);
  }

  lemma {:induction false} CodesGrow(maxLen: nat, net: Net, w: Walk, rs: seq<Reading>)
    requires w.used < MAX_ATTEMPTS
    ensures var v := Calls(false, maxLen, net, w, rs);
            w.codes <= v.codes && (v.core.keys == w.core.keys || Size(v.core.keys.rx) > Size(w.core.keys.rx))
    decreases |rs|
  {
    if !w.core.established {
      StopsWithSession(false, maxLen, net, w, rs);
    } else if |rs| > 0 {
      AdvanceOnStream(maxLen, net, w, rs[0]);
      CodesGrow(maxLen, net, Advance(false, maxLen, net, w, rs[0]), rs[1..]);
    }
  }

  lemma PrefixCode(a: seq<int>, b: seq<int>, from: nat)
    requires a <= b && NoErrors(b, from)
    ensures NoErrors(a, from)
  {}

  /** Over a stream nothing is passed over: between two changes of keys, if no call fails, every
      answer read was an authentic frame, numbered from the expected one without a gap. */
  lemma {:induction false} StreamTakesInTurn(maxLen: nat, net: Net, w: Walk, rs: seq<Reading>)
    requires w.core.established && w.used < MAX_ATTEMPTS
    requires var v := Calls(false, maxLen, net, w, rs); v.core.keys == w.core.keys && NoErrors(v.codes, |w.codes|)
    ensures InTurn(w.core.keys.rx, w.core.sessionId, w.core.rxSeq, rs)
    decreases |rs|
  {
    if |rs| > 0 {
      var v := Advance(false, maxLen, net, w, rs[0]);
      AdvanceOnStream(maxLen, net, w, rs[0]);
      CodesGrow(maxLen, net, v, rs[1..]);
      PrefixCode(v.codes, Calls(false, maxLen, net, w, rs).codes, |w.codes|);
      StreamTakesInTurn(maxLen, net, v, rs[1..]);
      InTurnCons(w.core.keys.rx, w.core.sessionId, w.core.rxSeq, rs);
    }
  }

  lemma InTurnCons(key: Key, sessionId: seq<byte>, n: nat, rs: seq<Reading>)
    requires |rs| > 0 && InTurn(key, sessionId, n, rs[..1]) && InTurn(key, sessionId, n + 1, rs[1..])
    ensures InTurn(key, sessionId, n, rs)
  {
    assert rs[..1][0] == rs[0];
    forall i | 0 < i < |rs|
      ensures rs[i].Parsed? && Open(rs[i].box, key, rs[i].seqNo, sessionId, rs[i].kind, rs[i].length).Some? && rs[i].seqNo == n + i < LAST_SEQ
    {
      assert rs[i] == rs[1..][i - 1];
    }
  }

  // ---------------------------------------------------------------- how a call ends early

  /** A BYE in its turn ends the session, and so does a PING whose PONG cannot be sent; the ninth
      control frame of a call, a fragment that does not continue the message, and a fourth fragment
      fail the call. */
  lemma EarlyEnds(datagrams: bool, maxLen: nat, c: Core, l: Local, net: Net, seqNo: uint32, kind: Kind, plaintext: seq<byte>, more: bool)
    requires W.Expects(datagrams, c, c.keys.rx, seqNo) && seqNo < LAST_SEQ
    requires var r := W.Delivery(Seal(c.keys.rx, seqNo, c.sessionId, kind, plaintext), more); WellPlaced(l, maxLen, r)
    ensures var t := OnReading(datagrams, maxLen, c, l, W.Delivery(Seal(c.keys.rx, seqNo, c.sessionId, kind, plaintext), more), net);
            && (kind == Bye ==> t.verdict == Finish(-1) && !t.core.established)
            && (kind == Ping && (!net(|c.log|).ok || c.txSeq >= LAST_SEQ) ==> t.verdict == Finish(-1) && !t.core.established)
            && ((kind == Ping || kind == Pong || kind == Rekey) && l.ctrlCount >= 8 ==> t.verdict == Finish(-1))
            && (kind == Rekey && |plaintext| != 32 ==> t.verdict == Finish(-1) && t.core.keys == c.keys)
            && ((kind == Data || kind == DataFrag) && |l.parts| > 0 && seqNo != l.expected ==> t.verdict == Finish(-1))
            && (kind == DataFrag && |l.parts| >= 3 ==> t.verdict == Finish(-1))
  {
    W.AcceptsNext(datagrams, c, c.keys.rx, seqNo);
  }
}
