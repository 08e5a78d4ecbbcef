/** `USMPSession.recv`: replay window, decryption, control frames, rekeying and reassembly, over
    a reliable stream or over datagrams. */
module SessionReceive {
  import opened Crc16
  import opened SymbolicKeys
  import opened ReplayWindow

  const LAST_SEQ: nat := 0xFFFF_FFFF
  const MAX_FRAMES: nat := 4
  const MAX_CONTROL: nat := 8
  const SALT_LEN: nat := 32

  /** How the PONG that answers a PING fares: sent, refused because the transmit sequence is
      spent, or lost with the transport. */
  datatype Pong = PongSent | PongExhausted | PongFailed

  /** What happens next: a frame is read, the transport reports a bad frame or its end, or
      another task of this process completes a `rekey()`. */
  datatype Event =
    | Frame(kind: Kind, seqNo: nat, length: nat, box: Sealed, now: real, pong: Pong)
    | Malformed
    | Lost
    | LocalRekey(salt: seq<byte>)

  datatype RecvError = BadFrame | RxOverflow | SeqMismatch | PeerClosed | Flooded | Violation | SendFailed | TransportLost

  /** The receive fields of `SessionInfo`, how many PONGs were sent, and the sequence numbers of
      the frames accepted, in order. */
  datatype Rx = Rx(keys: KeyPair, window: Window, pongs: nat, taken: seq<nat>)

  /** The local variables of one `recv` call. */
  datatype Assembly = Assembly(payload: seq<byte>, frameCount: nat, ctrlCount: nat, windowStart: real, expected: nat)

  datatype Outcome = Continue | Return(payload: seq<byte>) | Raise(error: RecvError)

  datatype Turn = Turn(rx: Rx, local: Assembly, outcome: Outcome)

  function Blank(start: real): Assembly { Assembly([], 0, 0, start, 0) }

  /** A protocol violation: on datagrams the partial message is dropped, on a stream it raises. */
  function Violate(reliable: bool, rx: Rx, local: Assembly): Turn {
    if reliable then Turn(rx, local, Raise(Violation))
    else Turn(rx, local.(payload := [], frameCount := 0, expected := 0), Continue)
  }

  function OnControl(reliable: bool, rx: Rx, local: Assembly, kind: Kind, now: real, pong: Pong): Turn {
    if |local.payload| > 0 then Violate(reliable, rx, local)
    else if kind == Ping && pong == PongFailed then Turn(rx, local, Raise(SendFailed))
    else if kind == Ping && pong == PongExhausted then Violate(reliable, rx, local)
    else
      var answered := if kind == Ping then rx.(pongs := rx.pongs + 1) else rx;
      var expired := now - local.windowStart > 1.0;
      var counted := local.(
        windowStart := if expired then now else local.windowStart,
        ctrlCount := if expired then 1 else local.ctrlCount + 1);
      Turn(answered, counted, if counted.ctrlCount > MAX_CONTROL then Raise(Flooded) else Continue)
  }

  function Rotated(isInitiator: bool, sessionId: seq<byte>, rx: Rx, salt: seq<byte>): Rx {
    rx.(keys := DeriveRekeyKeys(isInitiator, rx.keys, sessionId, salt), window := EMPTY)
  }

  function OnRekey(reliable: bool, sessionId: seq<byte>, rx: Rx, local: Assembly, salt: seq<byte>): Turn {
    if |local.payload| > 0 || |salt| != SALT_LEN then Violate(reliable, rx, local)
    else Turn(Rotated(false, sessionId, rx, salt), local, Continue)
  }

  function OnData(reliable: bool, rx: Rx, local: Assembly, last: bool, seqNo: nat, plaintext: seq<byte>): Turn {
    if local.frameCount > 0 && seqNo != local.expected then Violate(reliable, rx, local)
    else
      var grown := local.(payload := local.payload + plaintext, frameCount := local.frameCount + 1, expected := seqNo + 1);
      if last then Turn(rx, grown, Return(grown.payload))
      else if grown.frameCount >= MAX_FRAMES then Violate(reliable, rx, grown)
      else Turn(rx, grown, Continue)
  }

  /** The bookkeeping of an authenticated sequence number. */
  function Noted(reliable: bool, rx: Rx, seqNo: nat): Rx {
    rx.(window := if reliable then Window(rx.window.rxSeq + 1, rx.window.bitmap) else rx.window.Record(seqNo),
        taken := rx.taken + [seqNo])
  }

  /** What the checks before the frame-type dispatch make of a frame. */
  datatype Admission = Dropped | Refused(error: RecvError) | Admitted(plaintext: seq<byte>)

  function Admit(reliable: bool, sessionId: seq<byte>, rx: Rx, e: Event): (Rx, Admission)
    requires e.Frame?
  {
    var bad := if reliable then Refused(BadFrame) else Dropped;
    if !reliable && !rx.window.Fresh(e.seqNo) then (rx, Dropped)
    else
      var plain := Open(e.box, rx.keys.rx, e.seqNo, sessionId, e.kind, e.length);
      if plain.None? then (rx, bad)
      else if e.seqNo >= LAST_SEQ then (rx, Refused(RxOverflow))
      else if reliable && e.seqNo != rx.window.rxSeq then (rx, Refused(SeqMismatch))
      else (Noted(reliable, rx, e.seqNo), Admitted(plain.value))
  }

  /** The frame-type dispatch for an authenticated frame. */
  function Dispatch(reliable: bool, sessionId: seq<byte>, rx: Rx, local: Assembly, e: Event, plaintext: seq<byte>): Turn
    requires e.Frame?
  {
    match e.kind
    case Bye => Turn(rx, local, Raise(PeerClosed))
    case Ping => OnControl(reliable, rx, local, e.kind, e.now, e.pong)
    case Pong => OnControl(reliable, rx, local, e.kind, e.now, e.pong)
    case Rekey => OnRekey(reliable, sessionId, rx, local, plaintext)
    case Data => OnData(reliable, rx, local, true, e.seqNo, plaintext)
    case DataFrag => OnData(reliable, rx, local, false, e.seqNo, plaintext)
    case Other(_) => Violate(reliable, rx, local)
  }

  /** One turn of the loop. */
  function Handle(reliable: bool, sessionId: seq<byte>, rx: Rx, local: Assembly, e: Event): Turn {
    match e
    case LocalRekey(salt) =>
      Turn(Rotated(true, sessionId, rx, salt), local, Continue)
    case Lost => Turn(rx, local, Raise(TransportLost))
    case Malformed => Turn(rx, local, if reliable then Raise(BadFrame) else Continue)
    case Frame(_, _, _, _, _, _) =>
      var (noted, admission) := Admit(reliable, sessionId, rx, e);
      match admission
      case Dropped => Turn(noted, local, Continue)
      case Refused(error) => Turn(noted, local, Raise(error))
      case Admitted(plaintext) => Dispatch(reliable, sessionId, noted, local, e, plaintext)
  }

  /** The result of a `recv` call; `Waiting` when the events run out first. */
  datatype Received = Waiting(rx: Rx) | Got(rx: Rx, payload: seq<byte>, rest: seq<Event>) | Failed(rx: Rx, error: RecvError, rest: seq<Event>)

  function Loop(reliable: bool, sessionId: seq<byte>, rx: Rx, local: Assembly, events: seq<Event>): Received
    decreases |events|
  {
    if |events| == 0 then Waiting(rx)
    else
      var t := Handle(reliable, sessionId, rx, local, events[0]);
      match t.outcome
      case Continue => Loop(reliable, sessionId, t.rx, t.local, events[1..])
      case Return(payload) => Got(t.rx, payload, events[1..])
      case Raise(error) => Failed(t.rx, error, events[1..])
  }

  // ---------------------------------------------------------------- the session object

  class Session {
    const reliable: bool
    const sessionId: seq<byte>
    var keys: KeyPair
    var rxSeq: nat
    var bitmap: bv64
    var pongs: nat
    ghost var taken: seq<nat>

    constructor (reliable: bool, sessionId: seq<byte>, keys: KeyPair)
      ensures this.reliable == reliable && this.sessionId == sessionId
      ensures State() == Rx(keys, EMPTY, 0, [])
    {
      this.reliable := reliable;
      this.sessionId := sessionId;
      this.keys := keys;
      rxSeq, bitmap, pongs, taken := 0, 0, 0, [];
    }

    ghost function State(): Rx
      reads this
    {
      Rx(keys, Window(rxSeq, bitmap), pongs, taken)
    }

    /** The loop body up to the frame-type dispatch: window test, decryption, overflow guard,
        sequence bookkeeping. */
    method AdmitFrame(e: Event) returns (admission: Admission)
      requires e.Frame?
      modifies this
      ensures (State(), admission) == Admit(reliable, sessionId, old(State()), e)
    {
      if !reliable {
        if e.seqNo <= rxSeq - 64 {
          return Dropped;
        }
        if e.seqNo <= rxSeq && Bit(bitmap, rxSeq - e.seqNo) {
          return Dropped;
        }
      }
      var plain := Open(e.box, keys.rx, e.seqNo, sessionId, e.kind, e.length);
      if plain.None? {
        return if reliable then Refused(BadFrame) else Dropped;
      }
      if e.seqNo >= LAST_SEQ {
        return Refused(RxOverflow);
      }
      if !reliable {
        if e.seqNo > rxSeq {
          var shift := e.seqNo - rxSeq;
          bitmap := if shift < 64 then Or(ShiftLeft(bitmap, shift), 1) else 1;
          rxSeq := e.seqNo;
        } else {
          bitmap := Or(bitmap, Mask(rxSeq - e.seqNo));
        }
      } else {
        if e.seqNo != rxSeq {
          return Refused(SeqMismatch);
        }
        rxSeq := rxSeq + 1;
      }
      taken := taken + [e.seqNo];
      return Admitted(plain.value);
    }

    /** The loop body from the frame-type dispatch on, with the local variables it updates. */
    method DispatchFrame(e: Event, plaintext: seq<byte>, local: Assembly) returns (after: Assembly, outcome: Outcome)
      requires e.Frame?
      modifies this
      ensures Turn(State(), after, outcome) == Dispatch(reliable, sessionId, old(State()), local, e, plaintext)
    {
      var payload, frameCount, expected := local.payload, local.frameCount, local.expected;
      var ctrlCount, windowStart := local.ctrlCount, local.windowStart;
      var violated := false;
      outcome := Continue;
      if e.kind == Bye {
        outcome := Raise(PeerClosed);
      } else if e.kind == Ping || e.kind == Pong {
        if |payload| > 0 {
          violated := true;
        } else if e.kind == Ping && e.pong == PongFailed {
          outcome := Raise(SendFailed);
        } else if e.kind == Ping && e.pong == PongExhausted {
          violated := true;
        } else {
          if e.kind == Ping {
            pongs := pongs + 1;
          }
          if e.now - windowStart > 1.0 {
            windowStart := e.now;
            ctrlCount := 0;
          }
          ctrlCount := ctrlCount + 1;
          if ctrlCount > MAX_CONTROL {
            outcome := Raise(Flooded);
          }
        }
      } else if e.kind == Rekey {
        if |payload| > 0 || |plaintext| != SALT_LEN {
          violated := true;
        } else {
          keys := DeriveRekeyKeys(false, keys, sessionId, plaintext);
          rxSeq, bitmap := 0, 0;
        }
      } else if e.kind != Data && e.kind != DataFrag {
        violated := true;
      } else if frameCount > 0 && e.seqNo != expected {
        violated := true;
      } else {
        expected := e.seqNo + 1;
        payload := payload + plaintext;
        frameCount := frameCount + 1;
        if e.kind == Data {
          outcome := Return(payload);
        } else {
          violated := frameCount >= MAX_FRAMES;
        }
      }
      if violated {
        if reliable {
          outcome := Raise(Violation);
        } else {
          payload := [];
          frameCount, expected := 0, 0;
        }
      }
      after := Assembly(payload, frameCount, ctrlCount, windowStart, expected);
    }

    /** `_recv_internal`. */
    method Recv(start: real, events: seq<Event>) returns (result: Outcome, used: nat)
      modifies this
      ensures used <= |events|
      ensures match Loop(reliable, sessionId, old(State()), Blank(start), events)
              case Waiting(rx) => result == Continue && State() == rx && used == |events|
              case Got(rx, payload, rest) => result == Return(payload) && State() == rx && rest == events[used..]
              case Failed(rx, error, rest) => result == Raise(error) && State() == rx && rest == events[used..]
    {
      var local := Blank(start);
      used := 0;
      result := Continue;
      assert events[0..] == events;
      while used < |events|
        invariant used <= |events| && result == Continue
        invariant Loop(reliable, sessionId, old(State()), Blank(start), events)
               == Loop(reliable, sessionId, State(), local, events[used..])
      {
        var e := events[used];
        assert events[used..][0] == e && events[used..][1..] == events[used + 1..];
        used := used + 1;
        match e {
          case LocalRekey(salt) =>
            keys := DeriveRekeyKeys(true, keys, sessionId, salt);
            rxSeq, bitmap := 0, 0;
          case Lost =>
            return Raise(TransportLost), used;
          case Malformed =>
            if reliable {
              return Raise(BadFrame), used;
            }
          case Frame(_, _, _, _, _, _) =>
            var admission := AdmitFrame(e);
            match admission {
              case Dropped =>
              case Refused(error) =>
                return Raise(error), used;
              case Admitted(plaintext) =>
                local, result := DispatchFrame(e, plaintext, local);
                if result != Continue {
                  return;
                }
            }
        }
      }
    }
  }
}
