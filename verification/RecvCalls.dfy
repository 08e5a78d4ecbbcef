/** Any number of successive `recv` calls on one session, each begun where the last one stopped,
    whether that returned a payload or raised. */
module RecvCalls {
  import opened Crc16
  import opened SymbolicKeys
  import opened SessionReceive

  datatype Result = Payload(data: seq<byte>) | Error(error: RecvError)

  /** What the calls so far came to, and the state in the middle of the next. */
  datatype Progress = Progress(results: seq<Result>, rx: Rx, local: Assembly)

  /** One event in the course of the calls; the n-th call starts at `starts(n)`. */
  function Advance(reliable: bool, sessionId: seq<byte>, starts: nat -> real, p: Progress, e: Event): Progress {
    var t := Handle(reliable, sessionId, p.rx, p.local, e);
    match t.outcome
    case Continue => Progress(p.results, t.rx, t.local)
    case Return(payload) => Progress(p.results + [Payload(payload)], t.rx, Blank(starts(|p.results| + 1)))
    case Raise(error) => Progress(p.results + [Error(error)], t.rx, Blank(starts(|p.results| + 1)))
  }

  function Calls(reliable: bool, sessionId: seq<byte>, starts: nat -> real, p: Progress, events: seq<Event>): Progress
    decreases |events|
  {
    if |events| == 0 then p
    else Calls(reliable, sessionId, starts, Advance(reliable, sessionId, starts, p, events[0]), events[1..])
  }

  /** They are calls of `recv`: one that returns or raises is followed by the next, started anew. */
  lemma {:induction false} CallsAreRecvs(reliable: bool, sessionId: seq<byte>, starts: nat -> real, p: Progress, events: seq<Event>)
    ensures match Loop(reliable, sessionId, p.rx, p.local, events)
            case Waiting(rx) =>
              var q := Calls(reliable, sessionId, starts, p, events); q.results == p.results && q.rx == rx
            case Got(rx, payload, rest) =>
              Calls(reliable, sessionId, starts, p, events) ==
              Calls(reliable, sessionId, starts, Progress(p.results + [Payload(payload)], rx, Blank(starts(|p.results| + 1))), rest)
            case Failed(rx, error, rest) =>
              Calls(reliable, sessionId, starts, p, events) ==
              Calls(reliable, sessionId, starts, Progress(p.results + [Error(error)], rx, Blank(starts(|p.results| + 1))), rest)
    decreases |events|
  {
    if |events| > 0 {
      var t := Handle(reliable, sessionId, p.rx, p.local, events[0]);
      if t.outcome == Continue {
        CallsAreRecvs(reliable, sessionId, starts, Progress(p.results, t.rx, t.local), events[1..]);
      }
    }
  }

  lemma {:induction false} CallsSnoc(reliable: bool, sessionId: seq<byte>, starts: nat -> real, p: Progress, events: seq<Event>, e: Event)
    ensures Calls(reliable, sessionId, starts, p, events + [e])
         == Advance(reliable, sessionId, starts, Calls(reliable, sessionId, starts, p, events), e)
    decreases |events|
  {
    if |events| == 0 {
      assert events + [e] == [e] && [e][1..] == [];
    } else {
      assert (events + [e])[0] == events[0] && (events + [e])[1..] == events[1..] + [e];
      CallsSnoc(reliable, sessionId, starts, Advance(reliable, sessionId, starts, p, events[0]), events[1..], e);
    }
  }

  /** Results that are all payloads. */
  function Payloads(messages: seq<seq<byte>>): (results: seq<Result>)
    ensures |results| == |messages|
  {
    seq(|messages|, i requires 0 <= i < |messages| => Payload(messages[i]))
  }
}
