/** What `recv` lets through, over any number of calls: on datagrams exactly the authentic frames
    that are new and less than 64 behind, on a stream exactly the authentic frames in turn. */
module RecvFilter {
  import opened Crc16
  import opened SymbolicKeys
  import opened ReplayWindow
  import opened SessionReceive
  import opened RecvCalls

  /** The frame was sealed by the peer, in this session, for this key and header. */
  predicate Authentic(key: Key, sessionId: seq<byte>, e: Event) {
    e.Frame? && Open(e.box, key, e.seqNo, sessionId, e.kind, e.length).Some?
  }

  /** The frames among the events as the replay filter sees them; the reserved last sequence
      number counts as not authentic. */
  function Heard(key: Key, sessionId: seq<byte>, events: seq<Event>): seq<Arrival>
    decreases |events|
  {
    if |events| == 0 then []
    else
      (if events[0].Frame? then [Arrival(events[0].seqNo, Authentic(key, sessionId, events[0]) && events[0].seqNo < LAST_SEQ)] else [])
      + Heard(key, sessionId, events[1..])
  }

  lemma HeardStep(key: Key, sessionId: seq<byte>, seen: set<nat>, high: nat, events: seq<Event>)
    requires |events| > 0
    ensures var e, more := events[0], Heard(key, sessionId, events[1..]);
            AcceptedBySet(seen, high, Heard(key, sessionId, events)) ==
            if Authentic(key, sessionId, e) && e.seqNo < LAST_SEQ && e.seqNo !in seen && high < e.seqNo + 64
            then [e.seqNo] + AcceptedBySet(seen + {e.seqNo}, if high < e.seqNo then e.seqNo else high, more)
            else AcceptedBySet(seen, high, more)
  {
    var e, more := events[0], Heard(key, sessionId, events[1..]);
    if e.Frame? {
      var all := Heard(key, sessionId, events);
      assert all[0] == Arrival(e.seqNo, Authentic(key, sessionId, e) && e.seqNo < LAST_SEQ) && all[1..] == more;
    } else {
      assert [] + more == more;
    }
  }

  /** The filter as a set of sequence numbers, the highest of them, and one event. */
  predicate Passes(key: Key, sessionId: seq<byte>, seen: set<nat>, high: nat, e: Event) {
    Authentic(key, sessionId, e) && e.seqNo !in seen && high < e.seqNo + 64
  }

  /** One event on datagrams. A frame that does not pass changes nothing whatever, nor does a
      malformed one; a frame that passes is taken, or ends the call if its number is the reserved
      one. The receive keys stay, or become larger terms, with an empty window. */
  lemma EventOnDatagrams(sessionId: seq<byte>, starts: nat -> real, p: Progress, e: Event, seen: set<nat>)
    requires Represents(p.rx.window, seen)
    ensures var q := Advance(false, sessionId, starts, p, e); var high := p.rx.window.rxSeq;
            && (e.Malformed? || (e.Frame? && !Passes(p.rx.keys.rx, sessionId, seen, high, e)) ==> q == p)
            && (e.Frame? && Passes(p.rx.keys.rx, sessionId, seen, high, e) && e.seqNo < LAST_SEQ ==>
                  q.rx.taken == p.rx.taken + [e.seqNo]
                  && (q.rx.keys == p.rx.keys ==>
                        Represents(q.rx.window, seen + {e.seqNo}) && q.rx.window.rxSeq == if high < e.seqNo then e.seqNo else high))
            && (e.Lost? || (e.Frame? && Passes(p.rx.keys.rx, sessionId, seen, high, e) && e.seqNo >= LAST_SEQ) ==>
                  q.rx == p.rx && |q.results| == |p.results| + 1 && q.results[|p.results|].Error?)
            && (e.LocalRekey? ==> q.rx.taken == p.rx.taken)
            && (q.rx.keys == p.rx.keys || (Size(q.rx.keys.rx) > Size(p.rx.keys.rx) && q.rx.window == EMPTY))
  {
    if e.Frame? {
      FreshMeaning(p.rx.window, seen, e.seqNo);
      if p.rx.window.Fresh(e.seqNo) {
        RecordMeaning(p.rx.window, seen, e.seqNo);
      }
    }
  }

  /** The frame is recorded. */
  predicate Takes(p: Progress, sessionId: seq<byte>, seen: set<nat>, e: Event) {
    e.Frame? && e.seqNo < LAST_SEQ && Passes(p.rx.keys.rx, sessionId, seen, p.rx.window.rxSeq, e)
  }

  /** The set that the window stands for after one event. */
  function SeenAfter(p: Progress, q: Progress, sessionId: seq<byte>, seen: set<nat>, e: Event): set<nat> {
    if q.rx.keys != p.rx.keys then {} else if Takes(p, sessionId, seen, e) then seen + {e.seqNo} else seen
  }

  lemma AdvanceMeaning(sessionId: seq<byte>, starts: nat -> real, p: Progress, e: Event, seen: set<nat>)
    requires Represents(p.rx.window, seen)
    ensures var q := Advance(false, sessionId, starts, p, e); var high := p.rx.window.rxSeq;
            && Represents(q.rx.window, SeenAfter(p, q, sessionId, seen, e))
            && (q.rx.keys == p.rx.keys || Size(q.rx.keys.rx) > Size(p.rx.keys.rx))
            && q.rx.taken == p.rx.taken + (if Takes(p, sessionId, seen, e) then [e.seqNo] else [])
            && (q.rx.keys == p.rx.keys ==> q.rx.window.rxSeq == if Takes(p, sessionId, seen, e) && high < e.seqNo then e.seqNo else high)
  {
    EventOnDatagrams(sessionId, starts, p, e, seen);
    EmptyWindow();
    assert p.rx.taken + [] == p.rx.taken;
  }

  lemma {:induction false} KeysGrow(sessionId: seq<byte>, starts: nat -> real, p: Progress, events: seq<Event>, seen: set<nat>)
    requires Represents(p.rx.window, seen)
    ensures var q := Calls(false, sessionId, starts, p, events);
            q.rx.keys == p.rx.keys || Size(q.rx.keys.rx) > Size(p.rx.keys.rx)
    decreases |events|
  {
    if |events| > 0 {
      var q := Advance(false, sessionId, starts, p, events[0]);
      AdvanceMeaning(sessionId, starts, p, events[0], seen);
      KeysGrow(sessionId, starts, q, events[1..], SeenAfter(p, q, sessionId, seen, events[0]));
    }
  }

  lemma Assoc(a: seq<nat>, b: seq<nat>, c: seq<nat>)
    ensures (a + b) + c == a + (b + c) && [] + c == c && a + [] == a
  {}

  /** Between two changes of keys, and over any number of `recv` calls, whether they return or
      raise, the frames taken off datagrams are those that a filter would take that remembers every
      sequence it has taken: none of them twice or again, and none that is new and less than 64
      behind is lost. */
  lemma {:induction false} TakenBySet(sessionId: seq<byte>, starts: nat -> real, p: Progress, events: seq<Event>, seen: set<nat>)
    requires Represents(p.rx.window, seen)
    requires Calls(false, sessionId, starts, p, events).rx.keys == p.rx.keys
    ensures Calls(false, sessionId, starts, p, events).rx.taken
         == p.rx.taken + AcceptedBySet(seen, p.rx.window.rxSeq, Heard(p.rx.keys.rx, sessionId, events))
    decreases |events|
  {
    if |events| == 0 {
      Assoc(p.rx.taken, [], []);
    } else {
      var e := events[0];
      var q := Advance(false, sessionId, starts, p, e);
      var seen' := SeenAfter(p, q, sessionId, seen, e);
      AdvanceMeaning(sessionId, starts, p, e, seen);
      KeysGrow(sessionId, starts, q, events[1..], seen');
      TakenBySet(sessionId, starts, q, events[1..], seen');
      HeardStep(p.rx.keys.rx, sessionId, seen, p.rx.window.rxSeq, events);
      Assoc(p.rx.taken, if Takes(p, sessionId, seen, e) then [e.seqNo] else [],
            AcceptedBySet(seen', q.rx.window.rxSeq, Heard(p.rx.keys.rx, sessionId, events[1..])));
    }
  }

  lemma TakenOnce(sessionId: seq<byte>, starts: nat -> real, p: Progress, events: seq<Event>, seen: set<nat>)
    requires Represents(p.rx.window, seen)
    requires Calls(false, sessionId, starts, p, events).rx.keys == p.rx.keys
    ensures var n, taken := |p.rx.taken|, Calls(false, sessionId, starts, p, events).rx.taken;
            && n <= |taken| && taken[..n] == p.rx.taken && Distinct(taken[n..])
            && forall i :: n <= i < |taken| ==> taken[i] !in seen
  {
    TakenBySet(sessionId, starts, p, events, seen);
    var arrivals := Heard(p.rx.keys.rx, sessionId, events);
    WindowSimulatesSet(p.rx.window, seen, arrivals);
    AcceptedAreNew(p.rx.window, seen, arrivals);
    var taken := Calls(false, sessionId, starts, p, events).rx.taken;
    assert taken[|p.rx.taken|..] == Accepted(p.rx.window, arrivals);
  }

  // ---------------------------------------------------------------- what is not let through has no effect

  /** The events with everything left out that the filter stops: the malformed, the forged, the
      repeated and the old. A change of keys starts the filter anew. */
  function Kept(sessionId: seq<byte>, starts: nat -> real, p: Progress, seen: set<nat>, high: nat, events: seq<Event>): seq<Event>
    decreases |events|
  {
    if |events| == 0 then []
    else
      var e, rest := events[0], events[1..];
      if e.Malformed? || (e.Frame? && !Passes(p.rx.keys.rx, sessionId, seen, high, e)) then Kept(sessionId, starts, p, seen, high, rest)
      else
        var q := Advance(false, sessionId, starts, p, e);
        [e] + if q.rx.keys != p.rx.keys then Kept(sessionId, starts, q, {}, 0, rest)
              else if e.Frame? && e.seqNo < LAST_SEQ
              then Kept(sessionId, starts, q, seen + {e.seqNo}, if high < e.seqNo then e.seqNo else high, rest)
              else Kept(sessionId, starts, q, seen, high, rest)
  }

  /** Over a whole life with any number of rekeys, the calls of `recv` on datagrams return and
      raise, and leave, what they would if nothing malformed, forged, repeated or old had come. */
  lemma {:induction false} FilteredHasNoEffect(sessionId: seq<byte>, starts: nat -> real, p: Progress, events: seq<Event>, seen: set<nat>)
    requires Represents(p.rx.window, seen)
    ensures Calls(false, sessionId, starts, p, events)
         == Calls(false, sessionId, starts, p, Kept(sessionId, starts, p, seen, p.rx.window.rxSeq, events))
    decreases |events|
  {
    if |events| > 0 {
      var e := events[0];
      var q := Advance(false, sessionId, starts, p, e);
      EventOnDatagrams(sessionId, starts, p, e, seen);
      EmptyWindow();
      FilteredHasNoEffect(sessionId, starts, q, events[1..], SeenAfter(p, q, sessionId, seen, e));
      var kept := Kept(sessionId, starts, p, seen, p.rx.window.rxSeq, events);
      if !(e.Malformed? || (e.Frame? && !Passes(p.rx.keys.rx, sessionId, seen, p.rx.window.rxSeq, e))) {
        assert kept[0] == e && kept[1..] == Kept(sessionId, starts, q, SeenAfter(p, q, sessionId, seen, e), q.rx.window.rxSeq, events[1..]);
      }
    }
  }

  // ---------------------------------------------------------------- streams

  predicate NoErrors(results: seq<Result>, from: nat) {
    forall i :: from <= i < |results| ==> results[i].Payload?
  }

  /** Authentic frames, numbered from `n` on without a gap. */
  predicate InTurn(key: Key, sessionId: seq<byte>, n: nat, events: seq<Event>) {
    forall i :: 0 <= i < |events| ==> Authentic(key, sessionId, events[i]) && events[i].seqNo == n + i < LAST_SEQ
  }

  lemma EventOnStream(sessionId: seq<byte>, starts: nat -> real, p: Progress, e: Event)
    ensures var q := Advance(true, sessionId, starts, p, e); var n := p.rx.window.rxSeq;
            && p.results <= q.results
            && (NoErrors(q.results, |p.results|) && !e.LocalRekey? ==>
                  Authentic(p.rx.keys.rx, sessionId, e) && e.seqNo == n < LAST_SEQ && q.rx.taken == p.rx.taken + [n]
                  && (q.rx.keys == p.rx.keys ==> q.rx.window.rxSeq == n + 1))
            && (q.rx.keys == p.rx.keys || Size(q.rx.keys.rx) > Size(p.rx.keys.rx))
            && (e.LocalRekey? ==> q.rx.keys != p.rx.keys)
  {
    var q, m := Advance(true, sessionId, starts, p, e), |p.results|;
    assert NoErrors(q.results, m) && |q.results| > m ==> q.results[m].Payload?;
    if e.LocalRekey? {
      RekeyGrows(true, p.rx.keys, sessionId, e.salt);
    }
  }

  lemma {:induction false} ResultsGrow(sessionId: seq<byte>, starts: nat -> real, p: Progress, events: seq<Event>)
    ensures var q := Calls(true, sessionId, starts, p, events);
            p.results <= q.results && (q.rx.keys == p.rx.keys || Size(q.rx.keys.rx) > Size(p.rx.keys.rx))
    decreases |events|
  {
    if |events| > 0 {
      EventOnStream(sessionId, starts, p, events[0]);
      ResultsGrow(sessionId, starts, Advance(true, sessionId, starts, p, events[0]), events[1..]);
    }
  }

  /** Over a stream nothing is passed over: between two changes of keys, if no call raises, every
      event was an authentic frame, and their numbers went up by one from the expected one. So a
      frame that is lost, repeated, moved, altered or forged makes a call raise. */
  lemma {:induction false} StreamTakesInTurn(sessionId: seq<byte>, starts: nat -> real, p: Progress, events: seq<Event>)
    requires var q := Calls(true, sessionId, starts, p, events);
             q.rx.keys == p.rx.keys && NoErrors(q.results, |p.results|)
    ensures InTurn(p.rx.keys.rx, sessionId, p.rx.window.rxSeq, events)
    ensures |Calls(true, sessionId, starts, p, events).rx.taken| == |p.rx.taken| + |events|
    decreases |events|
  {
    if |events| > 0 {
      var q := Advance(true, sessionId, starts, p, events[0]);
      EventOnStream(sessionId, starts, p, events[0]);
      ResultsGrow(sessionId, starts, q, events[1..]);
      var end := Calls(true, sessionId, starts, q, events[1..]);
      assert forall i :: |p.results| <= i < |q.results| ==> q.results[i] == end.results[i];
      StreamTakesInTurn(sessionId, starts, q, events[1..]);
      InTurnCons(p.rx.keys.rx, sessionId, p.rx.window.rxSeq, events);
    }
  }

  lemma InTurnCons(key: Key, sessionId: seq<byte>, n: nat, events: seq<Event>)
    requires |events| > 0 && Authentic(key, sessionId, events[0]) && events[0].seqNo == n < LAST_SEQ
    requires InTurn(key, sessionId, n + 1, events[1..])
    ensures InTurn(key, sessionId, n, events)
  {
    forall i | 0 < i < |events| ensures Authentic(key, sessionId, events[i]) && events[i].seqNo == n + i < LAST_SEQ {
      assert events[i] == events[1..][i - 1];
    }
  }
}
