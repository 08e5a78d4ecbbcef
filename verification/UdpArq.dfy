/** The stop-and-wait ARQ of the UDP transport, together with the replay window above it, over
    a network that loses, duplicates, delays and reorders datagrams. */
module UdpArq {
  import opened Crc16
  import opened Frame
  import opened ReplayWindow

  const MAX_READ_BUFFER: nat := 4096
  const LAST_SEQ: nat := 0xFFFF_FFFF

  /** A session frame that does not end the epoch. */
  predicate SessionFrame(p: Packet) {
    Valid(p) && p.ptype >= 5 && p.ptype != HELLO_RETRY && p.ptype != REKEY && p.seqNo < LAST_SEQ
  }

  /** The duplicate test of `feed_packet` on session frames. */
  predicate TooOld(lastRxSeq: int, seqNo: nat) {
    lastRxSeq != -1 && seqNo <= lastRxSeq - 64
  }

  predicate HasRoom(buffered: nat, size: nat) {
    buffered + size <= MAX_READ_BUFFER
  }

  function FrameSize(p: Packet): nat { HEADER_SIZE + |p.payload| }

  function TotalSize(packets: seq<Packet>): nat {
    if |packets| == 0 then 0 else FrameSize(packets[0]) + TotalSize(packets[1..])
  }

  datatype Ack = Ack(ptype: byte, seqNo: nat)

  /** `sent` is every frame given to `drain`, of which the last may still be waited for.
      `history` is every frame ever put into the peer's read buffer; its session has taken the
      first `read` of them. The two sets are every datagram ever sent: any of them may arrive,
      at any time, any number of times, or never. */
  datatype System = System(
    sent: seq<Packet>,
    waiting: bool,
    abandoned: bool,
    frames: set<Packet>,
    acks: set<Ack>,
    history: seq<Packet>,
    read: nat,
    lastRxSeq: int,
    window: Window,
    accepted: seq<Packet>)

  const START := System([], false, false, {}, {}, [], 0, -1, EMPTY, [])

  datatype Action =
    | Write(ptype: byte, payload: seq<byte>)
    | AckArrives(ack: Ack)
    | DrainFails
    | FrameArrives(p: Packet)
    | SessionReads

  function Buffered(s: System): seq<Packet> {
    if s.read <= |s.history| then s.history[s.read..] else []
  }

  /** `feed_packet`: acknowledge and drop what is far behind, drop silently what does not fit,
      otherwise acknowledge and buffer. */
  function Feed(s: System, p: Packet): System {
    if TooOld(s.lastRxSeq, p.seqNo) then s.(acks := s.acks + {Ack(p.ptype, p.seqNo)})
    else if !HasRoom(TotalSize(Buffered(s)), FrameSize(p)) then s
    else s.(acks := s.acks + {Ack(p.ptype, p.seqNo)}, history := s.history + [p])
  }

  /** `recv` on the next buffered frame: the replay window, then `confirm_authenticated`. */
  function Take(s: System): System {
    if s.read >= |s.history| then s
    else
      var p := s.history[s.read];
      if !s.window.Fresh(p.seqNo) then s.(read := s.read + 1)
      else s.(
        read := s.read + 1,
        window := s.window.Record(p.seqNo),
        lastRxSeq := if p.seqNo > s.lastRxSeq then p.seqNo else s.lastRxSeq,
        accepted := s.accepted + [p])
  }

  function Step(s: System, a: Action): System {
    match a
    case Write(ptype, payload) =>
      var n := |s.sent|;
      if n >= LAST_SEQ || s.waiting then s
      else
        var p := Packet(VERSION, ptype, n, payload);
        if SessionFrame(p) then s.(sent := s.sent + [p], waiting := true, frames := s.frames + {p}) else s
    case AckArrives(ack) =>
      if ack in s.acks && s.waiting && |s.sent| > 0
         && ack.seqNo == s.sent[|s.sent| - 1].seqNo && ack.ptype == s.sent[|s.sent| - 1].ptype
      then s.(waiting := false) else s
    case DrainFails =>
      if s.waiting && |s.sent| > 0
      then s.(waiting := false, abandoned := s.abandoned || s.sent[|s.sent| - 1] !in s.history) else s
    case FrameArrives(p) => if p in s.frames then Feed(s, p) else s
    case SessionReads => Take(s)
  }

  function Run(s: System, actions: seq<Action>): System
    decreases |actions|
  {
    if |actions| == 0 then s else Run(Step(s, actions[0]), actions[1..])
  }

  // ---------------------------------------------------------------- the invariant

  /** One more than the highest sequence in a history; 0 for an empty one. */
  function High(history: seq<Packet>): nat {
    if |history| == 0 then 0
    else
      var before := High(history[..|history| - 1]);
      var last := history[|history| - 1].seqNo;
      if last >= before then last + 1 else before
  }

  function UpTo(m: nat): (numbers: set<nat>)
    ensures forall n: nat :: n in numbers <==> n < m
  {
    if m == 0 then {} else UpTo(m - 1) + {m - 1}
  }

  /** Frames enter the buffer for the first time in the order in which they were sent. */
  ghost predicate FirstsInOrder(history: seq<Packet>, sent: seq<Packet>) {
    forall i :: 0 <= i < |history| ==>
      && history[i].seqNo < |sent| && history[i] == sent[history[i].seqNo]
      && history[i].seqNo <= High(history[..i])
  }

  ghost predicate Sender(s: System) {
    && |s.sent| <= LAST_SEQ
    && (forall i :: 0 <= i < |s.sent| ==> s.sent[i].seqNo == i)
    && (s.waiting ==> |s.sent| > 0)
    && (forall p :: p in s.frames ==> p.seqNo < |s.sent| && p == s.sent[p.seqNo])
  }

  /** `owed` says that the last frame's `drain` may have been given up before the frame came. */
  ghost predicate Transit(s: System, owed: bool) {
    && FirstsInOrder(s.history, s.sent)
    && (forall a :: a in s.acks ==> a.seqNo < High(s.history))
    && (if s.waiting || owed then |s.sent| - 1 else |s.sent|) <= High(s.history) <= |s.sent|
  }

  ghost predicate Receiver(s: System) {
    && s.read <= |s.history|
    && var m := High(s.history[..s.read]);
       && m <= High(s.history)
       && m <= |s.sent| && s.accepted == s.sent[..m]
       && Represents(s.window, UpTo(m)) && s.window.rxSeq == (if m == 0 then 0 else m - 1)
       && s.lastRxSeq == m - 1
  }

  ghost predicate Inv(s: System, owed: bool) {
    Sender(s) && Transit(s, owed) && Receiver(s)
  }

  lemma HighSnoc(history: seq<Packet>, p: Packet)
    ensures High(history + [p]) == if p.seqNo >= High(history) then p.seqNo + 1 else High(history)
  {
    assert (history + [p])[..|history|] == history;
  }

  lemma PrefixSnoc(history: seq<Packet>, p: Packet, n: nat)
    requires n <= |history|
    ensures (history + [p])[..n] == history[..n]
  {}

  lemma FirstsSnoc(history: seq<Packet>, sent: seq<Packet>, p: Packet)
    requires FirstsInOrder(history, sent)
    requires p.seqNo < |sent| && p == sent[p.seqNo] && p.seqNo <= High(history)
    ensures FirstsInOrder(history + [p], sent)
  {
    forall i | 0 <= i < |history + [p]|
      ensures var h := history + [p];
              h[i].seqNo < |sent| && h[i] == sent[h[i].seqNo] && h[i].seqNo <= High(h[..i])
    {
      PrefixSnoc(history, p, i);
    }
  }

  lemma FirstsMoreSent(history: seq<Packet>, sent: seq<Packet>, p: Packet)
    requires FirstsInOrder(history, sent)
    ensures FirstsInOrder(history, sent + [p])
  {}

  lemma WriteKeepsInv(s: System, ptype: byte, payload: seq<byte>)
    requires Inv(s, false)
    ensures Inv(Step(s, Write(ptype, payload)), false)
  {
    var after := Step(s, Write(ptype, payload));
    if after != s {
      FirstsMoreSent(s.history, s.sent, after.sent[|s.sent|]);
      assert after.sent[..|s.accepted|] == s.sent[..|s.accepted|];
    }
  }

  lemma BufferKeepsTransit(s: System, p: Packet, owed: bool)
    requires Sender(s) && Transit(s, owed) && p in s.frames
    ensures Transit(s.(acks := s.acks + {Ack(p.ptype, p.seqNo)}, history := s.history + [p]), owed)
    ensures High(s.history) <= High(s.history + [p])
  {
    HighSnoc(s.history, p);
    FirstsSnoc(s.history, s.sent, p);
  }

  lemma BufferKeepsInv(s: System, p: Packet, owed: bool)
    requires Inv(s, owed) && p in s.frames
    ensures Inv(s.(acks := s.acks + {Ack(p.ptype, p.seqNo)}, history := s.history + [p]), owed)
  {
    BufferKeepsTransit(s, p, owed);
    PrefixSnoc(s.history, p, s.read);
  }

  lemma FeedKeepsInv(s: System, p: Packet, owed: bool)
    requires Inv(s, owed) && p in s.frames
    ensures Inv(Feed(s, p), owed)
  {
    if !TooOld(s.lastRxSeq, p.seqNo) {
      BufferKeepsInv(s, p, owed);
    }
  }

  lemma {:induction false} HighGrows(history: seq<Packet>, n: nat)
    requires n <= |history|
    ensures High(history[..n]) <= High(history)
    decreases |history|
  {
    if n < |history| {
      var front := history[..|history| - 1];
      HighGrows(front, n);
      assert front[..n] == history[..n];
    } else {
      assert history[..n] == history;
    }
  }

  lemma PrefixAppend<T>(t: seq<T>, m: nat)
    requires m < |t|
    ensures t[..m] + [t[m]] == t[..m + 1]
  {}

  /** The window takes the next frame and refuses every repetition. */
  lemma WindowTakesNext(w: Window, m: nat, seqNo: nat)
    requires Represents(w, UpTo(m)) && w.rxSeq == (if m == 0 then 0 else m - 1) && seqNo <= m
    ensures w.Fresh(seqNo) <==> seqNo == m
    ensures seqNo == m ==> Represents(w.Record(seqNo), UpTo(m + 1)) && w.Record(seqNo).rxSeq == m
  {
    FreshMeaning(w, UpTo(m), seqNo);
    if seqNo == m {
      RecordMeaning(w, UpTo(m), m);
      assert UpTo(m + 1) == UpTo(m) + {m};
    }
  }

  /** Reading one frame raises the high mark of what was read exactly when it is the next. */
  lemma ReadMark(s: System, owed: bool)
    requires Sender(s) && Transit(s, owed) && s.read < |s.history|
    ensures var p := s.history[s.read]; var m := High(s.history[..s.read]);
            && p.seqNo <= m && p.seqNo < |s.sent| && p == s.sent[p.seqNo]
            && High(s.history[..s.read + 1]) == (if p.seqNo == m then m + 1 else m)
            && High(s.history[..s.read + 1]) <= High(s.history)
  {
    PrefixAppend(s.history, s.read);
    HighSnoc(s.history[..s.read], s.history[s.read]);
    HighGrows(s.history, s.read + 1);
  }

  lemma TakeKeepsReceiver(s: System, owed: bool)
    requires Inv(s, owed) && s.read < |s.history|
    ensures Receiver(Take(s))
  {
    var p := s.history[s.read];
    var m := High(s.history[..s.read]);
    ReadMark(s, owed);
    WindowTakesNext(s.window, m, p.seqNo);
    if p.seqNo == m {
      PrefixAppend(s.sent, m);
    }
  }

  lemma TakeKeepsRest(s: System, owed: bool)
    requires Sender(s) && Transit(s, owed)
    ensures Sender(Take(s)) && Transit(Take(s), owed)
  {}

  lemma TakeKeepsInv(s: System, owed: bool)
    requires Inv(s, owed)
    ensures Inv(Take(s), owed)
  {
    TakeKeepsRest(s, owed);
    if s.read < |s.history| {
      TakeKeepsReceiver(s, owed);
    }
  }

  lemma {:induction false} HighCovers(history: seq<Packet>, i: nat)
    requires i < |history|
    ensures history[i].seqNo < High(history)
    decreases |history|
  {
    if i < |history| - 1 {
      HighCovers(history[..|history| - 1], i);
    }
  }

  /** A frame that is in the buffer's history counts as delivered even if its `drain` fails. */
  lemma DrainFailsKeepsInv(s: System)
    requires Inv(s, false)
    ensures Inv(Step(s, DrainFails), s.waiting && s.sent[|s.sent| - 1] !in s.history)
  {
    if s.waiting && s.sent[|s.sent| - 1] in s.history {
      var i :| 0 <= i < |s.history| && s.history[i] == s.sent[|s.sent| - 1];
      HighCovers(s.history, i);
    }
  }

  /** Everything but giving up: with a frame owed, as long as no new frame is written. */
  lemma StepKeepsInv(s: System, a: Action, owed: bool)
    requires Inv(s, owed) && !a.DrainFails? && (owed ==> !a.Write?)
    ensures Inv(Step(s, a), owed)
  {
    match a
    case DrainFails =>
    case Write(ptype, payload) => WriteKeepsInv(s, ptype, payload);
    case AckArrives(ack) =>
    case FrameArrives(p) =>
      if p in s.frames {
        FeedKeepsInv(s, p, owed);
      }
    case SessionReads => TakeKeepsInv(s, owed);
  }

  lemma {:induction false} FailureSticks(s: System, actions: seq<Action>)
    requires s.abandoned
    ensures Run(s, actions).abandoned
    decreases |actions|
  {
    if |actions| > 0 {
      FailureSticks(Step(s, actions[0]), actions[1..]);
    }
  }

  lemma SafeStep(s: System, a: Action)
    requires Inv(s, false) && !s.abandoned && !Step(s, a).abandoned
    ensures Inv(Step(s, a), false)
  {
    if a.DrainFails? { DrainFailsKeepsInv(s); } else { StepKeepsInv(s, a, false); }
  }

  lemma {:induction false} RunKeepsInv(s: System, actions: seq<Action>)
    requires !s.abandoned ==> Inv(s, false)
    ensures !Run(s, actions).abandoned ==> Inv(Run(s, actions), false)
    decreases |actions|
  {
    if |actions| > 0 {
      var next := Step(s, actions[0]);
      if s.abandoned || next.abandoned {
        FailureSticks(if s.abandoned then s else next, if s.abandoned then actions else actions[1..]);
      } else {
        SafeStep(s, actions[0]);
        RunKeepsInv(next, actions[1..]);
      }
    }
  }

  lemma StartInv()
    ensures Inv(START, false)
  {
    EmptyWindow();
    assert UpTo(0) == {};
  }

  // ---------------------------------------------------------------- delivery

  /** Everything below the high mark is somewhere in the history. */
  lemma {:induction false} AllBelowHigh(history: seq<Packet>, sent: seq<Packet>, n: nat) returns (at: nat)
    requires FirstsInOrder(history, sent) && n < High(history) && High(history) <= |sent|
    ensures at < |history| && history[at] == sent[n]
    decreases |history|
  {
    var last := |history| - 1;
    var front := history[..last];
    if history[last].seqNo == n {
      at := last;
    } else {
      assert forall i :: 0 <= i < last ==> front[..i] == history[..i];
      assert history[last].seqNo <= High(front);
      at := AllBelowHigh(front, sent, n);
    }
  }

  /** While no `drain` has been given up before its frame came, the frames the peer session accepts
      are a duplicate-free prefix of the frames sent, in order; when no `drain` is pending every
      frame sent has been in the peer's read buffer, and once the peer has read it out it has
      accepted all of them. A `drain` that fails only for want of its acknowledgement does no harm. */
  lemma ExactlyOnceInOrder(actions: seq<Action>)
    requires !Run(START, actions).abandoned
    ensures var end := Run(START, actions);
            && |end.accepted| <= |end.sent| && end.accepted == end.sent[..|end.accepted|]
            && (forall i :: 0 <= i < |end.sent| ==> end.sent[i].seqNo == i)
            && (!end.waiting ==> forall p :: p in end.sent ==> p in end.history)
            && (!end.waiting && end.read == |end.history| ==> end.accepted == end.sent)
  {
    StartInv();
    RunKeepsInv(START, actions);
    var end := Run(START, actions);
    if !end.waiting {
      forall p | p in end.sent ensures p in end.history {
        var i :| 0 <= i < |end.sent| && end.sent[i] == p;
        var at := AllBelowHigh(end.history, end.sent, i);
      }
      if end.read == |end.history| {
        assert end.history[..end.read] == end.history;
      }
    }
  }

  // ---------------------------------------------------------------- a frame given up

  lemma {:induction false} RunConcat(s: System, a: seq<Action>, b: seq<Action>)
    ensures Run(s, a + b) == Run(Run(s, a), b)
    decreases |a|
  {
    if |a| == 0 {
      assert a + b == b;
    } else {
      assert (a + b)[0] == a[0] && (a + b)[1..] == a[1..] + b;
      RunConcat(Step(s, a[0]), a[1..], b);
    }
  }

  predicate NoWrites(actions: seq<Action>) {
    forall i :: 0 <= i < |actions| ==> !actions[i].Write?
  }

  /** After a frame has been given up, and until the next one is written. */
  ghost predicate Owing(s: System) { Inv(s, true) && !s.waiting && |s.sent| > 0 }

  lemma OwingStep(s: System, a: Action)
    requires Owing(s) && !a.Write?
    ensures Owing(Step(s, a)) && Step(s, a).sent == s.sent
  {
    if !a.DrainFails? { StepKeepsInv(s, a, true); }
  }

  /** The last frame written has not come. */
  predicate Missing(s: System) { |s.sent| > 0 && s.sent[|s.sent| - 1] !in s.history }

  lemma {:induction false} IdleKeepsOwing(s: System, idle: seq<Action>)
    requires Owing(s) && NoWrites(idle)
    ensures Owing(Run(s, idle)) && Run(s, idle).sent == s.sent
    decreases |idle|
  {
    if |idle| > 0 {
      OwingStep(s, idle[0]);
      IdleKeepsOwing(Step(s, idle[0]), idle[1..]);
    }
  }

  /** The session can read its buffer out. */
  lemma {:induction false} ReadOut(s: System) returns (more: seq<Action>)
    requires Owing(s)
    ensures var end := Run(s, more);
            Owing(end) && end.sent == s.sent && end.history == s.history && end.frames == s.frames && end.read == |end.history|
    decreases |s.history| - s.read
  {
    if s.read == |s.history| {
      more := [];
    } else {
      var next := Step(s, SessionReads);
      OwingStep(s, SessionReads);
      var rest := ReadOut(next);
      more := [SessionReads] + rest;
      assert more[1..] == rest;
    }
  }

  /** The next frame written, delivered at once and read. */
  lemma NextFrameIsTaken(s: System, ptype: byte)
    requires Owing(s) && s.read == |s.history| && Missing(s)
    requires |s.sent| < LAST_SEQ && SessionFrame(Packet(VERSION, ptype, |s.sent|, []))
    ensures var p := Packet(VERSION, ptype, |s.sent|, []);
            var end := Run(s, [Write(ptype, []), FrameArrives(p), SessionReads]);
            end.accepted == s.sent[..|s.sent| - 1] + [p] && end.sent == s.sent + [p]
  {
    var n := |s.sent|;
    var p := Packet(VERSION, ptype, n, []);
    MissingIsNext(s);
    var s1 := Step(s, Write(ptype, []));
    assert s1.sent == s.sent + [p] && p in s1.frames && Buffered(s1) == [];
    var s2 := Step(s1, FrameArrives(p));
    assert s2.history == s.history + [p] && s2.window == s.window;
    assert Step(s2, SessionReads).accepted == s.accepted + [p];
    RunThree(s, Write(ptype, []), FrameArrives(p), SessionReads);
  }

  lemma MissingIsNext(s: System)
    requires Owing(s) && s.read == |s.history| && Missing(s)
    ensures s.accepted == s.sent[..|s.sent| - 1] && s.lastRxSeq == |s.sent| - 2 && s.window.Fresh(|s.sent|)
  {
    var n := |s.sent|;
    if High(s.history) == n {
      var at := AllBelowHigh(s.history, s.sent, n - 1);
    }
    assert s.history[..s.read] == s.history;
    FreshMeaning(s.window, UpTo(n - 1), n);
  }

  lemma RunThree(s: System, a: Action, b: Action, c: Action)
    ensures Run(s, [a, b, c]) == Step(Step(Step(s, a), b), c)
  {
    var s1 := Step(s, a);
    var s2 := Step(s1, b);
    assert [a, b, c][1..] == [b, c] && [b, c][1..] == [c] && [c][1..] == [];
    assert Run(s1, [b, c]) == Run(s2, [c]) == Run(Step(s2, c), []);
  }

  /** The proviso is exact. In whatever state a `drain` is given up before its frame has entered
      the peer's buffer, and whatever happens then short of another frame, as long as the frame
      still has not come there is a continuation in which the peer accepts everything before it
      and a later frame, but not it. */
  lemma GivenUpFrameIsSkipped(actions: seq<Action>, idle: seq<Action>, ptype: byte) returns (more: seq<Action>)
    requires !Run(START, actions).abandoned && Run(START, actions).waiting && NoWrites(idle)
    requires var s := Run(Step(Run(START, actions), DrainFails), idle);
             && Missing(s) && |s.sent| < LAST_SEQ && SessionFrame(Packet(VERSION, ptype, |s.sent|, []))
    ensures var s := Run(Step(Run(START, actions), DrainFails), idle);
            var end := Run(s, more); var p := Packet(VERSION, ptype, |s.sent|, []);
            end.accepted == s.sent[..|s.sent| - 1] + [p] && end.sent == s.sent + [p]
  {
    StartInv();
    RunKeepsInv(START, actions);
    var s0 := Run(START, actions);
    GivingUpOwes(s0);
    IdleKeepsOwing(Step(s0, DrainFails), idle);
    more := Skip(Run(Step(s0, DrainFails), idle), ptype);
  }

  lemma StillMissing(s: System, t: System)
    requires Missing(s) && t.sent == s.sent && t.history == s.history
    ensures Missing(t)
  {}

  lemma Skip(s: System, ptype: byte) returns (more: seq<Action>)
    requires Owing(s) && Missing(s) && |s.sent| < LAST_SEQ && SessionFrame(Packet(VERSION, ptype, |s.sent|, []))
    ensures var end := Run(s, more); var p := Packet(VERSION, ptype, |s.sent|, []);
            end.accepted == s.sent[..|s.sent| - 1] + [p] && end.sent == s.sent + [p]
  {
    var reading := ReadOut(s);
    StillMissing(s, Run(s, reading));
    NextFrameIsTaken(Run(s, reading), ptype);
    var rest := [Write(ptype, []), FrameArrives(Packet(VERSION, ptype, |s.sent|, [])), SessionReads];
    more := reading + rest;
    RunConcat(s, reading, rest);
  }

  lemma GivingUpOwes(s: System)
    requires Inv(s, false) && s.waiting
    ensures Owing(Step(s, DrainFails)) && Step(s, DrainFails).sent == s.sent
  {
    DrainFailsKeepsInv(s);
  }
}
