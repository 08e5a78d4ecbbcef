/** The retransmission timer of the C datagram transport: integer Jacobson/Karn arithmetic on
    32-bit words, against the exact filter of section 2.3 of RFC 6298 that the Python transport
    computes. Times are in milliseconds. */
module Rto {
  import opened Frame

  const WORD: int := 0x1_0000_0000

  /** The casts between the two 32-bit types, and C's division, which truncates toward zero. */
  function ToInt32(n: int): (i: int)
    ensures -0x8000_0000 <= i < 0x8000_0000
    ensures -0x8000_0000 <= n < 0x8000_0000 ==> i == n
  {
    if -0x8000_0000 <= n < 0x8000_0000 then n else Wrapped(n + 0x8000_0000) - 0x8000_0000
  }

  function ToUint32(n: int): (u: uint32)
    ensures 0 <= n < WORD ==> u == n
  {
    if 0 <= n < WORD then n else Wrapped(n)
  }

  function Wrapped(n: int): uint32 { n % WORD }

  function Eighth(n: int): int { if n < 0 then -(-n / 8) else n / 8 }

  function Quarter(n: int): int { if n < 0 then -(-n / 4) else n / 4 }

  datatype Estimate = Estimate(srtt: uint32, rttvar: uint32, rto: uint32)

  const START := Estimate(200, 100, 500)

  function Clamp(n: uint32, low: uint32, high: uint32): uint32
    requires low <= high
  {
    if n < low then low else if n > high then high else n
  }

  function Deviation(delta: int): int { ToInt32(if delta < 0 then -delta else delta) }

  function Delta(srtt: uint32, sample: uint32): int { ToInt32(ToInt32(sample) - ToInt32(srtt)) }

  function MoveSrtt(srtt: uint32, delta: int): uint32 { ToUint32(ToInt32(srtt) + Eighth(delta)) }

  function MoveRttvar(rttvar: uint32, delta: int): uint32 {
    ToUint32(ToInt32(rttvar) + Quarter(ToInt32(Deviation(delta) - ToInt32(rttvar))))
  }

  function MachineSrtt(srtt: uint32, sample: uint32): uint32 { MoveSrtt(srtt, Delta(srtt, sample)) }

  function MachineRttvar(rttvar: uint32, srtt: uint32, sample: uint32): uint32 { MoveRttvar(rttvar, Delta(srtt, sample)) }

  /** The update on an acknowledgement of a first attempt, in machine arithmetic. */
  function Update(e: Estimate, measured: uint32): Estimate {
    var sample := AtLeastOne(measured);
    if e.srtt == 0 then WithRto(sample, sample / 2)
    else WithRto(MachineSrtt(e.srtt, sample), MachineRttvar(e.rttvar, e.srtt, sample))
  }

  function AtLeastOne(sample: uint32): uint32 { if sample == 0 then 1 else sample }

  function WithRto(srtt: uint32, rttvar: uint32): Estimate {
    Estimate(srtt, rttvar, Clamp(ToUint32(srtt + 4 * rttvar), 100, 5000))
  }

  function Updates(e: Estimate, samples: seq<uint32>): Estimate
    decreases |samples|
  {
    if |samples| == 0 then e else Updates(Update(e, samples[0]), samples[1..])
  }

  // ---------------------------------------------------------------- the exact filter

  datatype Filter = Filter(srtt: real, rttvar: real, rto: real)

  const EXACT_START := Filter(200.0, 100.0, 500.0)

  function Abs(x: real): real { if x < 0.0 then -x else x }

  function ClampReal(x: real): real { if x < 100.0 then 100.0 else if x > 5000.0 then 5000.0 else x }

  function Smoothed(srtt: real, sample: real): real { srtt + 0.125 * (sample - srtt) }

  function Varied(rttvar: real, srtt: real, sample: real): real { rttvar + 0.25 * (Abs(sample - srtt) - rttvar) }

  function Observe(f: Filter, sample: real): Filter {
    var srtt, rttvar := Smoothed(f.srtt, sample), Varied(f.rttvar, f.srtt, sample);
    Filter(srtt, rttvar, ClampReal(srtt + 4.0 * rttvar))
  }

  function Observations(f: Filter, samples: seq<uint32>): Filter
    decreases |samples|
  {
    if |samples| == 0 then f else Observations(Observe(f, AtLeastOne(samples[0]) as real), samples[1..])
  }

  // ---------------------------------------------------------------- accuracy

  /** The largest sample for which five times it still fits the word. */
  const MAX_SAMPLE: nat := 858_993_459

  /** The machine's state against the exact one: inside the hull [low, high] of start value and
      samples, and as close as the rounding allows. */
  ghost predicate Close(e: Estimate, f: Filter, low: nat, high: nat) {
    && low <= e.srtt <= high && e.rttvar <= high && e.srtt + 4 * e.rttvar < WORD
    && Abs(e.srtt as real - f.srtt) <= 7.0
    && Abs(e.rttvar as real - f.rttvar) <= 10.0
    && Abs(e.rto as real - f.rto) <= 47.0
    && 100 <= e.rto <= 5000
  }

  /** Either division moves toward zero, by less than one. */
  lemma EighthBounds(n: int)
    ensures n >= 0 ==> 0 <= Eighth(n) <= n && 8 * Eighth(n) <= n <= 8 * Eighth(n) + 7
    ensures n <= 0 ==> n <= Eighth(n) <= 0 && 8 * Eighth(n) - 7 <= n <= 8 * Eighth(n)
  {}

  lemma QuarterBounds(n: int)
    ensures n >= 0 ==> 0 <= Quarter(n) <= n && 4 * Quarter(n) <= n <= 4 * Quarter(n) + 3
    ensures n <= 0 ==> n <= Quarter(n) <= 0 && 4 * Quarter(n) - 3 <= n <= 4 * Quarter(n)
  {}

  function Gap(s: int, x: int): int { if x < s then s - x else x - s }

  /** On bounded samples no cast changes a value: the update is the plain integer one, and it
      stays within the hull. */
  lemma SrttDoesNotWrap(s: uint32, x: uint32, low: nat, high: nat)
    requires low <= s <= high <= MAX_SAMPLE && low <= x <= high
    ensures MachineSrtt(s, x) == s + Eighth(x - s) && low <= MachineSrtt(s, x) <= high
  {
    EighthBounds(x - s);
  }

  lemma RttvarDoesNotWrap(v: uint32, s: uint32, x: uint32, high: nat)
    requires s <= high <= MAX_SAMPLE && x <= high && v <= high
    ensures MachineRttvar(v, s, x) == v + Quarter(Gap(s, x) - v) && MachineRttvar(v, s, x) <= high
  {
    QuarterBounds(Gap(s, x) - v);
  }

  lemma SrttStep(s: int, x: int, exact: real)
    requires Abs(s as real - exact) <= 7.0
    ensures Abs((s + Eighth(x - s)) as real - (exact + 0.125 * (x as real - exact))) <= 7.0
  {
    EighthBounds(x - s);
    var q := Eighth(x - s);
    assert -7 <= 8 * q - (x - s) <= 7;
    assert -7.0 <= 8.0 * q as real - (x as real - s as real) <= 7.0;
  }

  lemma RttvarStep(v: int, s: int, x: int, exactV: real, exactS: real)
    requires Abs(v as real - exactV) <= 10.0 && Abs(s as real - exactS) <= 7.0
    ensures Abs((v + Quarter(Gap(s, x) - v)) as real - (exactV + 0.25 * (Abs(x as real - exactS) - exactV))) <= 10.0
  {
    var deviation := Gap(s, x);
    QuarterBounds(deviation - v);
    var q := Quarter(deviation - v);
    assert -3 <= 4 * q - (deviation - v) <= 3;
    assert -3.0 <= 4.0 * q as real - (deviation as real - v as real) <= 3.0;
    assert Abs(deviation as real - Abs(x as real - exactS)) <= 7.0;
  }

  lemma SrttClose(s: uint32, x: uint32, exact: real, low: nat, high: nat)
    requires low <= s <= high <= MAX_SAMPLE && low <= x <= high && Abs(s as real - exact) <= 7.0
    ensures low <= MachineSrtt(s, x) <= high
    ensures Abs(MachineSrtt(s, x) as real - Smoothed(exact, x as real)) <= 7.0
  {
    SrttDoesNotWrap(s, x, low, high);
    SrttStep(s, x, exact);
  }

  lemma RttvarClose(v: uint32, s: uint32, x: uint32, exactV: real, exactS: real, high: nat)
    requires s <= high <= MAX_SAMPLE && x <= high && v <= high
    requires Abs(v as real - exactV) <= 10.0 && Abs(s as real - exactS) <= 7.0
    ensures MachineRttvar(v, s, x) <= high
    ensures Abs(MachineRttvar(v, s, x) as real - Varied(exactV, exactS, x as real)) <= 10.0
  {
    RttvarDoesNotWrap(v, s, x, high);
    RttvarStep(v, s, x, exactV, exactS);
  }

  lemma RtoStep(srtt: uint32, rttvar: uint32, exactS: real, exactV: real)
    requires Abs(srtt as real - exactS) <= 7.0 && Abs(rttvar as real - exactV) <= 10.0 && srtt + 4 * rttvar < WORD
    ensures Abs(WithRto(srtt, rttvar).rto as real - ClampReal(exactS + 4.0 * exactV)) <= 47.0
  {
    var sum := srtt + 4 * rttvar;
    assert ToUint32(sum) == sum;
    assert sum as real == srtt as real + 4.0 * rttvar as real;
    ClampIsClose(sum, exactS + 4.0 * exactV);
  }

  lemma ClampIsClose(n: uint32, exact: real)
    requires Abs(n as real - exact) <= 47.0
    ensures Abs(Clamp(n, 100, 5000) as real - ClampReal(exact)) <= 47.0
  {}

  lemma UpdateKeepsClose(e: Estimate, f: Filter, sample: uint32, low: nat, high: nat)
    requires 1 <= low <= high <= MAX_SAMPLE && Close(e, f, low, high) && low <= AtLeastOne(sample) <= high
    ensures Close(Update(e, sample), Observe(f, AtLeastOne(sample) as real), low, high)
  {
    var x := AtLeastOne(sample);
    SrttClose(e.srtt, x, f.srtt, low, high);
    RttvarClose(e.rttvar, e.srtt, x, f.rttvar, f.srtt, high);
    Assemble(MachineSrtt(e.srtt, x), MachineRttvar(e.rttvar, e.srtt, x), Observe(f, x as real), low, high);
  }

  lemma Assemble(srtt: uint32, rttvar: uint32, f: Filter, low: nat, high: nat)
    requires 1 <= low <= srtt <= high <= MAX_SAMPLE && rttvar <= high
    requires Abs(srtt as real - f.srtt) <= 7.0 && Abs(rttvar as real - f.rttvar) <= 10.0
    requires f.rto == ClampReal(f.srtt + 4.0 * f.rttvar)
    ensures Close(WithRto(srtt, rttvar), f, low, high)
  {
    RtoStep(srtt, rttvar, f.srtt, f.rttvar);
  }

  lemma {:induction false} UpdatesKeepClose(e: Estimate, f: Filter, samples: seq<uint32>, low: nat, high: nat)
    requires 1 <= low <= high <= MAX_SAMPLE && Close(e, f, low, high)
    requires forall i :: 0 <= i < |samples| ==> low <= AtLeastOne(samples[i]) <= high
    ensures Close(Updates(e, samples), Observations(f, samples), low, high)
    decreases |samples|
  {
    if |samples| > 0 {
      UpdateKeepsClose(e, f, samples[0], low, high);
      UpdatesKeepClose(Update(e, samples[0]), Observe(f, AtLeastOne(samples[0]) as real), samples[1..], low, high);
    }
  }

  /** For any number of samples: with [low, high] a hull of the start value and the samples,
      SRTT stays in it and so at least 1, nothing wraps, and SRTT, RTTVAR and the clamped RTO
      are within 7, 10 and 47 milliseconds of the exact filter's. */
  lemma Accuracy(samples: seq<uint32>, low: nat, high: nat)
    requires 1 <= low <= 200 <= high <= MAX_SAMPLE
    requires forall i :: 0 <= i < |samples| ==> low <= AtLeastOne(samples[i]) <= high
    ensures Close(Updates(START, samples), Observations(EXACT_START, samples), low, high)
  {
    StartIsClose(low, high);
    UpdatesKeepClose(START, EXACT_START, samples, low, high);
  }

  lemma StartIsClose(low: nat, high: nat)
    requires 1 <= low <= 200 <= high
    ensures Close(START, EXACT_START, low, high)
  {}

  // ---------------------------------------------------------------- the Python transport

  /** The update of `drain`, in seconds. */
  function ObserveSeconds(f: Filter, sample: real): Filter {
    var err := sample - f.srtt;
    var rttvar := f.rttvar + 0.25 * (Abs(err) - f.rttvar);
    var srtt := f.srtt + 0.125 * err;
    var rto := srtt + 4.0 * rttvar;
    Filter(srtt, rttvar, if rto < 0.1 then 0.1 else if rto > 5.0 then 5.0 else rto)
  }

  function Millis(f: Filter): Filter { Filter(1000.0 * f.srtt, 1000.0 * f.rttvar, 1000.0 * f.rto) }

  /** The Python transport computes the exact filter. */
  lemma SecondsAreExact(f: Filter, sample: real)
    ensures Observe(Millis(f), 1000.0 * sample) == Millis(ObserveSeconds(f, sample))
  {
    assert Abs(1000.0 * sample - 1000.0 * f.srtt) == 1000.0 * Abs(sample - f.srtt);
  }

  function ObserveAllSeconds(f: Filter, samples: seq<uint32>): Filter
    decreases |samples|
  {
    if |samples| == 0 then f else ObserveAllSeconds(ObserveSeconds(f, AtLeastOne(samples[0]) as real / 1000.0), samples[1..])
  }

  lemma {:induction false} SecondsAllExact(f: Filter, samples: seq<uint32>)
    ensures Observations(Millis(f), samples) == Millis(ObserveAllSeconds(f, samples))
    decreases |samples|
  {
    if |samples| > 0 {
      var sample := AtLeastOne(samples[0]) as real;
      assert 1000.0 * (sample / 1000.0) == sample;
      SecondsAreExact(f, sample / 1000.0);
      SecondsAllExact(ObserveSeconds(f, sample / 1000.0), samples[1..]);
    }
  }

  const SECONDS_START := Filter(0.2, 0.1, 0.5)

  /** The millisecond timer and the second timer differ by at most 47 ms. */
  ghost predicate TimersClose(e: Estimate, seconds: Filter) {
    Abs(e.rto as real - 1000.0 * seconds.rto) <= 47.0
  }

  lemma CloseInSeconds(e: Estimate, seconds: Filter, low: nat, high: nat)
    requires Close(e, Millis(seconds), low, high)
    ensures TimersClose(e, seconds)
  {}

  /** On the same round trips the timers of the two implementations stay close. */
  lemma TimersAgree(samples: seq<uint32>, high: nat)
    requires 200 <= high <= MAX_SAMPLE && forall i :: 0 <= i < |samples| ==> samples[i] <= high
    ensures TimersClose(Updates(START, samples), ObserveAllSeconds(SECONDS_START, samples))
  {
    Accuracy(samples, 1, high);
    assert Millis(SECONDS_START) == EXACT_START;
    SecondsAllExact(SECONDS_START, samples);
    CloseInSeconds(Updates(START, samples), ObserveAllSeconds(SECONDS_START, samples), 1, high);
  }

  // ---------------------------------------------------------------- sending

  function Pow2(k: nat): nat { if k == 0 then 1 else 2 * Pow2(k - 1) }

  function BaseRto(rto: uint32): uint32 { if rto > 0 then rto else 500 }

  /** The wait before giving up on an attempt, in machine arithmetic. */
  function Timeout(rto: uint32, attempt: nat): uint32 {
    var doubled := ToUint32(BaseRto(rto) * Pow2(attempt));
    if doubled > 5000 then 5000 else if doubled < 50 then 50 else doubled
  }

  /** With a timer in its range the waits never wrap, start at the timer's value and double up
      to five seconds. */
  lemma BackoffDoubles(rto: uint32, attempt: nat)
    requires 100 <= rto <= 5000 && attempt < 4
    ensures Timeout(rto, 0) == rto
    ensures Timeout(rto, attempt + 1) == if 2 * Timeout(rto, attempt) > 5000 then 5000 else 2 * Timeout(rto, attempt)
  {
    assert Pow2(0) == 1 && Pow2(1) == 2 && Pow2(2) == 4 && Pow2(3) == 8 && Pow2(4) == 16;
    assert attempt == 0 || attempt == 1 || attempt == 2 || attempt == 3;
  }

  /** One turn of the wait for an acknowledgement: the milliseconds since the transmission when the
      loop tests them, what `recv` brings, and the milliseconds when the clock is read after it. */
  datatype Poll = Poll(elapsed: uint32, event: PollEvent, read: uint32)

  datatype PollEvent = Nothing | Acknowledgement | OtherDatagram | SocketError

  /** How one attempt ends: no acknowledgement in time, one after so many milliseconds, or a
      socket error that is not transient. */
  datatype Answer = Silence | Acked(after: uint32) | Broken

  /** The wait itself; it is left at the first turn whose time is up. */
  function Attempt(polls: seq<Poll>, timeout: uint32): Answer {
    if |polls| == 0 || polls[0].elapsed >= timeout then Silence
    else
      match polls[0].event
      case Acknowledgement => Acked(polls[0].read)
      case SocketError => Broken
      case _ => Attempt(polls[1..], timeout)
  }

  /** No turn takes longer than `slack`: `recv` blocks for ten milliseconds, the rest is the
      device's own delay. */
  predicate Prompt(polls: seq<Poll>, slack: nat) {
    forall i :: 0 <= i < |polls| ==> polls[i].read <= polls[i].elapsed + slack
  }

  lemma {:induction false} AckedInTime(polls: seq<Poll>, timeout: uint32, slack: nat)
    requires Prompt(polls, slack) && Attempt(polls, timeout).Acked?
    ensures Attempt(polls, timeout).after < timeout + slack
  {
    if polls[0].event != Acknowledgement {
      AckedInTime(polls[1..], timeout, slack);
    }
  }

  /** The wait goes on through turn `i`: its time is not up, and neither an acknowledgement nor an
      error comes. */
  predicate GoesOn(poll: Poll, timeout: uint32) {
    poll.elapsed < timeout && poll.event != Acknowledgement && poll.event != SocketError
  }

  /** The attempt is acknowledged, or breaks, exactly at the first turn that does not go on, if the
      time is not up then; otherwise it stays unanswered. */
  lemma {:induction false} AttemptMeaning(polls: seq<Poll>, timeout: uint32, i: nat)
    requires i <= |polls| && forall j :: 0 <= j < i ==> GoesOn(polls[j], timeout)
    requires i == |polls| || !GoesOn(polls[i], timeout)
    ensures i < |polls| && polls[i].elapsed < timeout && polls[i].event == Acknowledgement ==> Attempt(polls, timeout) == Acked(polls[i].read)
    ensures i < |polls| && polls[i].elapsed < timeout && polls[i].event == SocketError ==> Attempt(polls, timeout) == Broken
    ensures i == |polls| || polls[i].elapsed >= timeout ==> Attempt(polls, timeout) == Silence
  {
    if i > 0 {
      assert forall j :: 0 <= j < i - 1 ==> polls[1..][j] == polls[j + 1];
      AttemptMeaning(polls[1..], timeout, i - 1);
    }
  }

  const ATTEMPTS: nat := 5

  /** The wait of each of the five attempts, should it come to it. */
  type Script = s: seq<seq<Poll>> | |s| == ATTEMPTS witness [[], [], [], [], []]

  function AnswerTo(rto: uint32, script: Script, attempt: nat): Answer
    requires attempt < ATTEMPTS
  {
    Attempt(script[attempt], Timeout(rto, attempt))
  }

  /** The estimate after one frame: only an acknowledged first attempt is measured. */
  function AfterSend(e: Estimate, script: Script): Estimate {
    var first := AnswerTo(e.rto, script, 0);
    if first.Acked? then Update(e, first.after) else e
  }

  // ---------------------------------------------------------------- whole runs

  function RunSends(e: Estimate, scripts: seq<Script>): Estimate
    decreases |scripts|
  {
    if |scripts| == 0 then e else RunSends(AfterSend(e, scripts[0]), scripts[1..])
  }

  /** The round trips that a run measures. */
  function Measured(e: Estimate, scripts: seq<Script>): seq<uint32>
    decreases |scripts|
  {
    if |scripts| == 0 then []
    else
      var first := AnswerTo(e.rto, scripts[0], 0);
      (if first.Acked? then [first.after] else []) + Measured(AfterSend(e, scripts[0]), scripts[1..])
  }

  lemma UpdatesCons(e: Estimate, x: uint32, rest: seq<uint32>)
    ensures Updates(e, [x] + rest) == Updates(Update(e, x), rest)
  {
    assert ([x] + rest)[1..] == rest;
  }

  lemma {:induction false} RunIsUpdates(e: Estimate, scripts: seq<Script>)
    ensures RunSends(e, scripts) == Updates(e, Measured(e, scripts))
    decreases |scripts|
  {
    if |scripts| > 0 {
      var next := AfterSend(e, scripts[0]);
      var rest := Measured(next, scripts[1..]);
      RunIsUpdates(next, scripts[1..]);
      var first := AnswerTo(e.rto, scripts[0], 0);
      if first.Acked? {
        UpdatesCons(e, first.after, rest);
      } else {
        assert [] + rest == rest;
      }
    }
  }

  predicate AllPrompt(scripts: seq<Script>, slack: nat) {
    forall i :: 0 <= i < |scripts| ==> Prompt(scripts[i][0], slack)
  }

  /** A measured round trip is within the first attempt's own timeout, and so within five seconds. */
  lemma {:induction false} MeasuredInTime(e: Estimate, scripts: seq<Script>, slack: nat, i: nat)
    requires AllPrompt(scripts, slack) && i < |Measured(e, scripts)|
    ensures Measured(e, scripts)[i] < 5000 + slack
    decreases |scripts|
  {
    var first := AnswerTo(e.rto, scripts[0], 0);
    var next := AfterSend(e, scripts[0]);
    assert Prompt(scripts[0][0], slack);
    if first.Acked? {
      AckedInTime(scripts[0][0], Timeout(e.rto, 0), slack);
      if i > 0 {
        MeasuredInTime(next, scripts[1..], slack, i - 1);
      }
    } else {
      MeasuredInTime(next, scripts[1..], slack, i);
    }
  }

  /** Over any run of the transport, whatever the network does: nothing wraps, SRTT stays at least
      1 and within five seconds and the slack, and SRTT, RTTVAR and the clamped RTO are within 7, 10
      and 47 milliseconds of the exact filter on the same round trips. */
  lemma RunAccuracy(scripts: seq<Script>, slack: nat)
    requires AllPrompt(scripts, slack) && slack <= MAX_SAMPLE - 5000
    ensures Close(RunSends(START, scripts), Observations(EXACT_START, Measured(START, scripts)), 1, 5000 + slack)
  {
    var samples := Measured(START, scripts);
    forall i | 0 <= i < |samples| ensures 1 <= AtLeastOne(samples[i]) <= 5000 + slack {
      MeasuredInTime(START, scripts, slack, i);
    }
    Accuracy(samples, 1, 5000 + slack);
    RunIsUpdates(START, scripts);
  }

  /** The timer that the Python transport would have on those round trips is within 47 ms. */
  lemma RunTimersAgree(scripts: seq<Script>, slack: nat)
    requires AllPrompt(scripts, slack) && slack <= MAX_SAMPLE - 5000
    ensures TimersClose(RunSends(START, scripts), ObserveAllSeconds(SECONDS_START, Measured(START, scripts)))
  {
    var samples := Measured(START, scripts);
    forall i | 0 <= i < |samples| ensures samples[i] <= 5000 + slack {
      MeasuredInTime(START, scripts, slack, i);
    }
    TimersAgree(samples, 5000 + slack);
    RunIsUpdates(START, scripts);
  }

  // ---------------------------------------------------------------- the sender

  class Sender {
    var srtt: uint32
    var rttvar: uint32
    var rto: uint32

    constructor ()
      ensures State() == START
    {
      srtt, rttvar, rto := 200, 100, 500;
    }

    function State(): Estimate
      reads this
    {
      Estimate(srtt, rttvar, rto)
    }

    /** `posix_udp_send` for a frame that expects an acknowledgement. The frame goes out at most
        five times, each time only after silence; it succeeds exactly when an attempt is
        acknowledged before any breaks; and only an acknowledged first attempt is measured. */
    method Send(script: Script) returns (ok: bool, sent: nat)
      modifies this
      ensures 1 <= sent <= ATTEMPTS && forall i :: 0 <= i < sent - 1 ==> AnswerTo(old(rto), script, i).Silence?
      ensures ok <==> AnswerTo(old(rto), script, sent - 1).Acked?
      ensures AnswerTo(old(rto), script, sent - 1).Silence? ==> sent == ATTEMPTS
      ensures State() == AfterSend(old(State()), script)
    {
      var base := if rto > 0 then rto else 500;
      sent := 0;
      while sent < ATTEMPTS
        invariant sent <= ATTEMPTS && State() == old(State()) && base == BaseRto(rto)
        invariant forall i :: 0 <= i < sent ==> AnswerTo(rto, script, i).Silence?
      {
        var timeout := ToUint32(base * Pow2(sent));
        if timeout > 5000 { timeout := 5000; }
        if timeout < 50 { timeout := 50; }
        var attempt := sent;
        var answer := AwaitAck(script[attempt], timeout);
        assert answer == AnswerTo(rto, script, attempt);
        sent := sent + 1;
        match answer {
          case Silence =>
          case Broken =>
            return false, sent;
          case Acked(after) =>
            if attempt == 0 {
              MeasureRoundTrip(after);
            }
            return true, sent;
        }
      }
      return false, sent;
    }

    /** The inner loop of `posix_udp_send`. */
    method AwaitAck(polls: seq<Poll>, timeout: uint32) returns (answer: Answer)
      ensures answer == Attempt(polls, timeout)
    {
      var i := 0;
      assert polls[0..] == polls;
      while i < |polls| && polls[i].elapsed < timeout
        invariant i <= |polls| && Attempt(polls, timeout) == Attempt(polls[i..], timeout)
      {
        if polls[i].event == SocketError { return Broken; }
        if polls[i].event == Acknowledgement { return Acked(polls[i].read); }
        assert polls[i..][1..] == polls[i + 1..];
        i := i + 1;
      }
      return Silence;
    }

    method MeasureRoundTrip(after: uint32)
      modifies this
      ensures State() == Update(old(State()), after)
    {
      var sample := AtLeastOne(after);
      if srtt == 0 {
        srtt, rttvar := sample, sample / 2;
      } else {
        Smooth(sample);
      }
      SetTimer();
    }

    method Smooth(sample: uint32)
      modifies this
      ensures srtt == MachineSrtt(old(srtt), sample) && rttvar == MachineRttvar(old(rttvar), old(srtt), sample)
    {
      var delta := Difference(sample);
      rttvar := Vary(delta);
      srtt := Follow(delta);
    }

    method Difference(sample: uint32) returns (delta: int)
      ensures delta == Delta(srtt, sample)
    {
      delta := ToInt32(ToInt32(sample) - ToInt32(srtt));
    }

    method Follow(delta: int) returns (moved: uint32)
      ensures moved == MoveSrtt(srtt, delta)
    {
      moved := ToUint32(ToInt32(srtt) + Eighth(delta));
    }

    method Vary(delta: int) returns (varied: uint32)
      ensures varied == MoveRttvar(rttvar, delta)
    {
      var deviation := ToInt32(if delta < 0 then -delta else delta);
      varied := ToUint32(ToInt32(rttvar) + Quarter(ToInt32(deviation - ToInt32(rttvar))));
    }

    method SetTimer()
      modifies this`rto
      ensures State() == WithRto(old(srtt), old(rttvar))
    {
      var newRto := ToUint32(srtt + 4 * rttvar);
      if newRto < 100 { newRto := 100; }
      if newRto > 5000 { newRto := 5000; }
      rto := newRto;
    }
  }
}
