/** The C session context as an object over buffers, and what any run of its public calls keeps. */
module CoreSession {
  import opened Crc16
  import opened Frame
  import opened SymbolicKeys
  import opened ReplayWindow
  import T = CoreTransmit
  import opened CoreReceive
  import S = SessionSend

  // ---------------------------------------------------------------- runs of calls

  datatype Call =
    | CallSend(data: seq<byte>)
    | CallPing
    | CallTick(now: uint32)
    | CallBye
    | CallRekey(salt: seq<byte>)
    | CallRecv(maxLen: nat, incoming: seq<Reading>)
    | CallConnect(usable: bool, h: T.Handshaken, now: uint32)
    | CallReconnect(redialled: bool, h: T.Handshaken, now: uint32)
    | CallClose

  /** One public call; the transport has a reconnect hook. */
  function Apply(datagrams: bool, c: T.Core, call: Call, net: T.Net): T.Core {
    match call
    case CallSend(data) => T.Send(c, data, net).0
    case CallPing => T.SendPing(c, net).0
    case CallTick(now) => T.Tick(c, now, net).0
    case CallBye => T.SendBye(c, net).0
    case CallRekey(salt) => T.DoRekey(c, salt, net).0
    case CallRecv(maxLen, incoming) => Recv(datagrams, maxLen, c, incoming, net).core
    case CallConnect(usable, h, now) => T.Connect(c, usable, h, now).0
    case CallReconnect(redialled, h, now) => T.Reconnect(c, true, redialled, h, now).0
    case CallClose => T.Close(c, net)
  }

  function Run(datagrams: bool, c: T.Core, calls: seq<Call>, net: T.Net): T.Core
    decreases |calls|
  {
    if |calls| == 0 then c else Run(datagrams, Apply(datagrams, c, calls[0], net), calls[1..], net)
  }

  function Unconnected(keepalive: uint32): T.Core { T.Core(T.ZERO_KEYS, [], false, 0, 0, 0, 0, keepalive, 0, []) }

  lemma SendKeepsTxOk(c: T.Core, data: seq<byte>, net: T.Net)
    requires T.TxOk(c)
    ensures T.TxOk(T.Send(c, data, net).0)
  {
    if c.established && S.Fragments(data) <= T.LAST_SEQ - c.txSeq && |data| <= S.MAX_DATA_LEN * S.MAX_FRAMES {
      T.SendLoopKeepsTxOk(c, data, 0, net);
    }
  }

  lemma ControlKeepsTxOk(c: T.Core, now: uint32, net: T.Net)
    requires T.TxOk(c)
    ensures T.TxOk(T.SendPing(c, net).0) && T.TxOk(T.Tick(c, now, net).0)
    ensures T.TxOk(T.SendBye(c, net).0) && T.TxOk(T.Close(c, net))
  {
    if c.established {
      T.EmitKeepsTxOk(c, Ping, [], net);
      T.EmitKeepsTxOk(c, Bye, [], net);
    }
  }

  lemma RecvKeepsTxOk(datagrams: bool, maxLen: nat, c: T.Core, incoming: seq<Reading>, net: T.Net)
    requires T.TxOk(c)
    ensures T.TxOk(Recv(datagrams, maxLen, c, incoming, net).core)
  {
    if c.established {
      LoopKeepsTxOk(datagrams, maxLen, c, BLANK, incoming, 0, net);
    }
  }

  lemma HandshakeKeepsTxOk(c: T.Core, usable: bool, redialled: bool, h: T.Handshaken, now: uint32)
    requires T.TxOk(c)
    ensures T.TxOk(T.Connect(c, usable, h, now).0) && T.TxOk(T.Reconnect(c, true, redialled, h, now).0)
  {
    ConnectKeepsTxOk(c, usable, h, now);
    ReconnectKeepsTxOk(c, redialled, h, now);
  }

  lemma ConnectKeepsTxOk(c: T.Core, usable: bool, h: T.Handshaken, now: uint32)
    requires T.TxOk(c)
    ensures T.TxOk(T.Connect(c, usable, h, now).0)
  {
    T.InstallKeepsTxOk(T.Core(T.ZERO_KEYS, [], false, 0, 0, 0, 0, c.keepalive, c.session + 1, c.log), h, now);
  }

  lemma ReconnectKeepsTxOk(c: T.Core, redialled: bool, h: T.Handshaken, now: uint32)
    requires T.TxOk(c)
    ensures T.TxOk(T.Reconnect(c, true, redialled, h, now).0)
  {
    T.InstallKeepsTxOk(c.(keys := T.ZERO_KEYS, established := false, session := c.session + 1), h, now);
  }

  lemma ApplyKeepsTxOk(datagrams: bool, c: T.Core, call: Call, net: T.Net)
    requires T.TxOk(c)
    ensures T.TxOk(Apply(datagrams, c, call, net))
  {
    match call {
      case CallSend(data) => SendKeepsTxOk(c, data, net);
      case CallRekey(salt) => RekeyKeepsTxOk(c, salt, net);
      case CallRecv(maxLen, incoming) => RecvKeepsTxOk(datagrams, maxLen, c, incoming, net);
      case CallConnect(usable, h, now) => HandshakeKeepsTxOk(c, usable, true, h, now);
      case CallReconnect(redialled, h, now) => HandshakeKeepsTxOk(c, true, redialled, h, now);
      case CallTick(now) => ControlKeepsTxOk(c, now, net);
      case _ => ControlKeepsTxOk(c, 0, net);
    }
  }

  lemma RekeyKeepsTxOk(c: T.Core, salt: seq<byte>, net: T.Net)
    requires T.TxOk(c)
    ensures T.TxOk(T.DoRekey(c, salt, net).0)
  {
    if c.established {
      T.EmitKeepsTxOk(c, Rekey, salt, net);
      var (d, ok) := T.EmitFrame(c, Rekey, salt, net);
      if ok {
        T.RotateKeepsTxOk(d, true, salt);
      }
    }
  }

  lemma {:induction false} RunKeepsTxOk(datagrams: bool, c: T.Core, calls: seq<Call>, net: T.Net)
    requires T.TxOk(c)
    ensures T.TxOk(Run(datagrams, c, calls, net))
    decreases |calls|
  {
    if |calls| > 0 {
      ApplyKeepsTxOk(datagrams, c, calls[0], net);
      RunKeepsTxOk(datagrams, Apply(datagrams, c, calls[0], net), calls[1..], net);
    }
  }

  /** Over any run of calls, whatever the transport answers: the sequences handed to it strictly
      increase under one key and never reach 0xFFFFFFFF, no key and sequence of a session are
      used twice, and after a failed transmission nothing more is sent before a new handshake. */
  lemma TransmitDiscipline(datagrams: bool, keepalive: uint32, calls: seq<Call>, net: T.Net, i: nat, j: nat)
    requires i < j < |Run(datagrams, Unconnected(keepalive), calls, net).log|
    ensures var log := Run(datagrams, Unconnected(keepalive), calls, net).log;
            && log[j].box.seqNo < T.LAST_SEQ
            && (log[i].session == log[j].session && log[i].box.key == log[j].box.key ==> log[i].box.seqNo < log[j].box.seqNo)
            && (log[i].session == log[j].session ==> log[i].ok)
            && log[i].session <= log[j].session
  {
    RunKeepsTxOk(datagrams, Unconnected(keepalive), calls, net);
    var log := Run(datagrams, Unconnected(keepalive), calls, net).log;
    assert T.Precedes(log[i], log[j].session, log[j].box.key, log[j].box.seqNo);
  }

  /** The discipline needs the reconnect hook. Without one `usmp_reconnect` reports failure but
      leaves an established session usable under all-zero keys, and rekeys then bring the same
      key and sequence back. */
  lemma HooklessReconnectRepeats(c: T.Core, salt: seq<byte>, net: T.Net)
    requires c.established && c.txSeq < T.LAST_SEQ && forall n :: net(n).ok
    ensures var c1 := T.DoRekey(T.Reconnect(c, false, true, T.Refused, 0).0, salt, net).0;
            var c2 := T.SendPing(T.Reconnect(c1, false, true, T.Refused, 0).0, net).0;
            var c3 := T.DoRekey(c2, salt, net).0;
            var c4 := T.SendPing(T.Reconnect(c3, false, true, T.Refused, 0).0, net).0;
            var n := |c.log|;
            && |c4.log| == n + 4
            && c4.log[n + 1].box.key == c4.log[n + 3].box.key == Zeroed
            && c4.log[n + 1].box.seqNo == c4.log[n + 3].box.seqNo
  {}

  // ---------------------------------------------------------------- the context object

  class Context {
    const datagrams: bool
    const net: T.Net
    var keys: KeyPair
    var sessionId: seq<byte>
    var established: bool
    var txSeq: uint32
    var rxSeq: uint32
    var bitmap: bv64
    var lastTx: uint32
    var keepalive: uint32
    var session: nat
    var log: seq<T.Entry>

    function State(): T.Core
      reads this
    {
      T.Core(keys, sessionId, established, txSeq, rxSeq, bitmap, lastTx, keepalive, session, log)
    }

    /** `emit_frame`. */
    method EmitFrame(kind: Kind, plaintext: seq<byte>) returns (ok: bool)
      modifies this
      ensures (State(), ok) == T.EmitFrame(old(State()), kind, plaintext, net)
    {
      if txSeq >= T.LAST_SEQ {
        established := false;
        return false;
      }
      var box := Seal(keys.tx, txSeq, sessionId, kind, plaintext);
      txSeq := txSeq + 1;
      var t := net(|log|);
      lastTx := t.now;
      log := log + [T.Entry(session, box, t.ok)];
      if !t.ok {
        established := false;
        return false;
      }
      return true;
    }

    /** `usmp_send`. */
    method Send(data: seq<byte>) returns (status: T.Status)
      modifies this
      ensures (State(), status) == T.Send(old(State()), data, net)
    {
      if !established { return T.NotConnected; }
      var fragments := if |data| == 0 then 1 else (|data| + S.MAX_DATA_LEN - 1) / S.MAX_DATA_LEN;
      if fragments > T.LAST_SEQ - txSeq {
        established := false;
        return T.SeqExhausted;
      }
      if |data| > S.MAX_DATA_LEN * S.MAX_FRAMES { return T.BufferOverflow; }
      var offset: nat := 0;
      while offset < |data| || |data| == 0
        invariant offset <= |data|
        invariant T.SendLoop(old(State()), data, 0, net) ==
                  if offset < |data| || |data| == 0 then T.SendLoop(State(), data, offset, net) else (State(), T.Done)
        decreases |data| - offset
      {
        var n := if |data| - offset > S.MAX_DATA_LEN then S.MAX_DATA_LEN else |data| - offset;
        var more := offset + n < |data|;
        var ok := EmitFrame(if more then DataFrag else Data, data[offset..offset + n]);
        assert data[offset..offset + n] == S.Chunk(data, offset);
        if !ok { return T.TransportFailed; }
        offset := offset + n;
        if |data| == 0 { break; }
      }
      return T.Done;
    }

    /** `usmp_ping`. */
    method SendPing() returns (status: T.Status)
      modifies this
      ensures (State(), status) == T.SendPing(old(State()), net)
    {
      if !established { return T.NotConnected; }
      var ok := EmitFrame(Ping, []);
      if !ok {
        established := false;
        return T.TransportFailed;
      }
      return T.Done;
    }

    /** `usmp_keepalive_tick`. */
    method Tick(now: uint32) returns (status: T.Status)
      modifies this
      ensures (State(), status) == T.Tick(old(State()), now, net)
    {
      if !established { return T.NotConnected; }
      if keepalive == 0 { return T.Done; }
      if (now + 0x1_0000_0000 - lastTx) % 0x1_0000_0000 >= keepalive {
        status := SendPing();
        return;
      }
      return T.Done;
    }

    /** `usmp_rekey`. */
    method RotateKeys(salt: seq<byte>) returns (status: T.Status)
      modifies this
      ensures (State(), status) == T.DoRekey(old(State()), salt, net)
    {
      if !established { return T.NotConnected; }
      var ok := EmitFrame(Rekey, salt);
      if !ok { return T.TransportFailed; }
      keys := DeriveRekeyKeys(true, keys, sessionId, salt);
      txSeq, rxSeq, bitmap := 0, 0, 0;
      return T.Done;
    }

    /** `usmp_close`, with the BYE it sends if it can. */
    method Close()
      modifies this
      ensures State() == T.Close(old(State()), net)
    {
      if established {
        var _ := EmitFrame(Bye, []);
      }
      established := false;
      keys := T.ZERO_KEYS;
    }

    /** `usmp_connect`, given whether the transport has `send` and `recv`, and how the handshake
        ends. */
    method Connect(usable: bool, h: T.Handshaken, now: uint32) returns (status: T.Status)
      modifies this
      ensures (State(), status) == T.Connect(old(State()), usable, h, now)
    {
      if !usable { return T.InvalidArg; }
      keys, sessionId, established := T.ZERO_KEYS, [], false;
      txSeq, rxSeq, bitmap, lastTx := 0, 0, 0, 0;
      session := session + 1;
      status := Install(h, now);
    }

    /** `usmp_reconnect`, given how its handshake ends. */
    method Reconnect(hasHook: bool, redialled: bool, h: T.Handshaken, now: uint32) returns (status: T.Status)
      modifies this
      ensures (State(), status) == T.Reconnect(old(State()), hasHook, redialled, h, now)
    {
      keys := T.ZERO_KEYS;
      if !hasHook { return T.TransportFailed; }
      established := false;
      session := session + 1;
      if !redialled { return T.TransportFailed; }
      status := Install(h, now);
    }

    method Install(h: T.Handshaken, now: uint32) returns (status: T.Status)
      modifies this
      ensures (State(), status) == T.Install(old(State()), h, now)
    {
      match h {
        case Refused =>
          return T.TransportFailed;
        case Agreement(k, id) =>
          keys, sessionId, established := k, id, true;
          txSeq, rxSeq, bitmap, lastTx := 0, 0, 0, now;
          return T.Done;
      }
    }

    // -------------------------------------------------------------- usmp_recv

    /** Everything `usmp_recv` decides before it decrypts. */
    method ScreenFrame(r: Reading, maxLen: uint16, bytes: nat, ghost l: Local) returns (verdict: Option<Verdict>)
      requires bytes == |l.payload|
      modifies this
      ensures verdict.Some? ==> Screen(datagrams, maxLen, old(State()), l, r) == Some(Turn(State(), l, verdict.value))
      ensures verdict.None? ==> Screen(datagrams, maxLen, old(State()), l, r) == None && State() == old(State())
    {
      var skip := Some(if datagrams then Again else Finish(-1));
      if r.ReadFailed? {
        established := false;
        return Some(Finish(-1));
      }
      if r.Unparsed? { return skip; }
      if datagrams {
        if r.seqNo >= T.LAST_SEQ {
          established := false;
          return Some(Finish(-1));
        }
        UnsignedAndSignedAgree(Window(rxSeq, bitmap), r.seqNo);
        if rxSeq >= 64 && r.seqNo <= rxSeq - 64 { return Some(Again); }
        if r.seqNo <= rxSeq && Bit(bitmap, rxSeq - r.seqNo) { return Some(Again); }
      }
      var capacity: nat;
      if r.kind == Ping || r.kind == Pong || r.kind == Bye || r.kind == Rekey {
        if bytes > 0 { return skip; }
        capacity := SCRATCH;
      } else if r.kind == Data || r.kind == DataFrag {
        if maxLen < bytes { return skip; }
        capacity := maxLen - bytes;
      } else {
        return skip;
      }
      if r.length < NONCE_LEN + TAG_LEN { return skip; }
      if r.length - NONCE_LEN - TAG_LEN > capacity { return skip; }
      return None;
    }

    /** `usmp_crypto_decrypt` into a buffer: it writes only the plaintext's place, with the
        plaintext or, when authentication fails, with zeros. */
    method Decrypt(r: Reading, dest: array<byte>, at: nat) returns (ok: bool)
      requires r.Parsed? && r.length >= NONCE_LEN + TAG_LEN && at + r.length - NONCE_LEN - TAG_LEN <= dest.Length
      modifies dest
      ensures ok <==> Open(r.box, keys.rx, r.seqNo, sessionId, r.kind, r.length).Some?
      ensures dest[..at] == old(dest[..at])
      ensures dest[at + r.length - NONCE_LEN - TAG_LEN..] == old(dest[at + r.length - NONCE_LEN - TAG_LEN..])
      ensures ok ==> dest[at..at + r.length - NONCE_LEN - TAG_LEN] == r.box.plaintext
    {
      var n := r.length - NONCE_LEN - TAG_LEN;
      ok := Open(r.box, keys.rx, r.seqNo, sessionId, r.kind, r.length).Some?;
      for i := 0 to n
        invariant forall j :: 0 <= j < at || at + n <= j < dest.Length ==> dest[j] == old(dest[j])
        invariant ok ==> forall j :: 0 <= j < i ==> dest[at + j] == r.box.plaintext[j]
      {
        dest[at + i] := if ok then r.box.plaintext[i] else 0;
      }
    }

    /** The sequence bookkeeping of an authenticated frame. */
    method NoteSequence(seqNo: uint32) returns (verdict: Option<Verdict>)
      requires datagrams ==> !Rejected(true, State(), seqNo)
      modifies this
      ensures !datagrams && old(rxSeq) >= T.LAST_SEQ ==> verdict == Some(Finish(-1)) && State() == old(State()).(established := false)
      ensures !datagrams && old(rxSeq) < T.LAST_SEQ && seqNo != old(rxSeq) ==> verdict == Some(Finish(-1)) && State() == old(State())
      ensures datagrams || (old(rxSeq) < T.LAST_SEQ && seqNo == old(rxSeq)) ==> verdict == None && State() == Note(datagrams, old(State()), seqNo)
    {
      if datagrams {
        if seqNo > rxSeq {
          var shift := seqNo - rxSeq;
          bitmap := if shift < 64 then Or(ShiftLeft(bitmap, shift), 1) else 1;
          rxSeq := seqNo;
        } else {
          bitmap := Or(bitmap, Mask(rxSeq - seqNo));
        }
      } else {
        if rxSeq >= T.LAST_SEQ {
          established := false;
          return Some(Finish(-1));
        }
        if seqNo != rxSeq { return Some(Finish(-1)); }
        rxSeq := rxSeq + 1;
      }
      return None;
    }

    /** The dispatch on a control frame; the salt of a REKEY is in the scratch buffer. */
    method ActOnControlFrame(r: Reading, scratch: seq<byte>, outLen: nat, ctrlCount: nat, ghost l: Local)
      returns (verdict: Verdict, ctrlCount': nat)
      requires r.Parsed? && r.kind != Data && r.kind != DataFrag && !r.kind.Other?
      requires ctrlCount == l.ctrlCount && |scratch| == SCRATCH
      requires outLen == |r.box.plaintext| <= SCRATCH && scratch[..outLen] == r.box.plaintext
      modifies this
      ensures Turn(State(), l.(ctrlCount := ctrlCount'), verdict) == Act(old(State()), l, r, net)
    {
      ctrlCount' := ctrlCount;
      if r.kind == Bye {
        established := false;
        return Finish(-1), ctrlCount;
      }
      if r.kind == Ping {
        var ok := EmitFrame(Pong, []);
        if !ok {
          established := false;
          return Finish(-1), ctrlCount;
        }
      } else if r.kind == Rekey {
        if outLen != SALT_LEN { return Finish(-1), ctrlCount; }
        assert scratch[..outLen] == scratch;
        keys := DeriveRekeyKeys(false, keys, sessionId, scratch);
        txSeq, rxSeq, bitmap := 0, 0, 0;
      }
      ctrlCount' := ctrlCount + 1;
      if ctrlCount' > MAX_CONTROL { return Finish(-1), ctrlCount'; }
      return if r.more then Again else Finish(0), ctrlCount';
    }

    /** One turn of the loop for a control frame: decryption into scratch, then the dispatch. */
    method TakeControl(r: Reading, ctrlCount: nat, maxLen: uint16, ghost l: Local) returns (verdict: Verdict, ctrlCount': nat)
      requires Screen(datagrams, maxLen, State(), l, r) == None && l.payload == []
      requires r.Parsed? && r.kind != Data && r.kind != DataFrag && ctrlCount == l.ctrlCount
      modifies this
      ensures Turn(State(), l.(ctrlCount := ctrlCount'), verdict) == OnReading(datagrams, maxLen, old(State()), l, r, net)
    {
      ctrlCount' := ctrlCount;
      var scratch := new byte[SCRATCH](_ => 0);
      var opened' := Decrypt(r, scratch, 0);
      if !opened' { return if datagrams then Again else Finish(-1), ctrlCount; }
      var noted := NoteSequence(r.seqNo);
      if noted.Some? { return noted.value, ctrlCount; }
      verdict, ctrlCount' := ActOnControlFrame(r, scratch[..], r.length - NONCE_LEN - TAG_LEN, ctrlCount, l);
    }

    /** One turn of the loop for a data frame: decryption into the caller's buffer behind what
        is already there, then reassembly. */
    method TakeData(r: Reading, out: array<byte>, maxLen: uint16, bytes: nat, frameCount: nat, expected: nat, ghost l: Local)
      returns (verdict: Verdict, bytes': nat, frameCount': nat, expected': nat, ghost l': Local)
      requires Screen(datagrams, maxLen, State(), l, r) == None && maxLen <= out.Length
      requires r.Parsed? && (r.kind == Data || r.kind == DataFrag)
      requires bytes <= maxLen && out[..bytes] == l.payload && frameCount == |l.parts| && expected == l.expected
      modifies this, out
      ensures Turn(State(), l', verdict) == OnReading(datagrams, maxLen, old(State()), l, r, net)
      ensures out[maxLen..] == old(out[maxLen..])
      ensures bytes' <= maxLen && out[..bytes'] == l'.payload && frameCount' == |l'.parts| && expected' == l'.expected
    {
      bytes', frameCount', expected', l' := bytes, frameCount, expected, l;
      var outLen := r.length - NONCE_LEN - TAG_LEN;
      var opened' := Decrypt(r, out, bytes);
      assert out[maxLen..] == out[bytes + outLen..][maxLen - bytes - outLen..];
      if !opened' {
        verdict := if datagrams then Again else Finish(-1);
        return;
      }
      var noted := NoteSequence(r.seqNo);
      if noted.Some? {
        verdict := noted.value;
        return;
      }
      verdict, bytes', frameCount', expected', l' := Reassemble(r, out, bytes, outLen, frameCount, expected, l);
    }

    /** The end of the loop body for a data frame whose plaintext is in place. */
    method Reassemble(r: Reading, out: array<byte>, bytes: nat, outLen: nat, frameCount: nat, expected: nat, ghost l: Local)
      returns (verdict: Verdict, bytes': nat, frameCount': nat, expected': nat, ghost l': Local)
      requires r.Parsed? && (r.kind == Data || r.kind == DataFrag)
      requires bytes + outLen <= out.Length && out[..bytes] == l.payload && out[bytes..bytes + outLen] == r.box.plaintext
      requires frameCount == |l.parts| && expected == l.expected
      ensures Turn(State(), l', verdict) == Act(State(), l, r, net)
      ensures bytes' <= bytes + outLen && out[..bytes'] == l'.payload && frameCount' == |l'.parts| && expected' == l'.expected
    {
      bytes', frameCount', expected', l' := bytes, frameCount, expected, l;
      if frameCount > 0 && r.seqNo != expected {
        verdict := Finish(-1);
        return;
      }
      expected' := if frameCount > 0 then expected + 1 else r.seqNo + 1;
      bytes', frameCount' := bytes + outLen, frameCount + 1;
      assert out[..bytes'] == out[..bytes] + out[bytes..bytes'];
      l' := l.(payload := l.payload + r.box.plaintext, parts := l.parts + [r.box], expected := r.seqNo + 1);
      verdict := if r.kind == Data then Finish(bytes') else if frameCount' >= S.MAX_FRAMES then Finish(-1) else Again;
    }

    /** One turn of the loop. */
    method TakeReading(r: Reading, out: array<byte>, maxLen: uint16, bytes: nat, frameCount: nat, expected: nat, ctrlCount: nat, ghost l: Local)
      returns (verdict: Verdict, bytes': nat, frameCount': nat, expected': nat, ctrlCount': nat, ghost l': Local)
      requires maxLen <= out.Length && Holds(out[..], maxLen, bytes, frameCount, expected, ctrlCount, l)
      modifies this, out
      ensures Turn(State(), l', verdict) == OnReading(datagrams, maxLen, old(State()), l, r, net)
      ensures out[maxLen..] == old(out[maxLen..])
      ensures Holds(out[..], maxLen, bytes', frameCount', expected', ctrlCount', l')
    {
      bytes', frameCount', expected', ctrlCount', l' := bytes, frameCount, expected, ctrlCount, l;
      var screened := ScreenFrame(r, maxLen, bytes, l);
      if screened.Some? {
        verdict := screened.value;
      } else if r.kind == Data || r.kind == DataFrag {
        verdict, bytes', frameCount', expected', l' := TakeData(r, out, maxLen, bytes, frameCount, expected, l);
      } else {
        verdict, ctrlCount' := TakeControl(r, ctrlCount, maxLen, l);
        l' := l.(ctrlCount := ctrlCount');
      }
    }

    /** The same turn, with what the rest of the call makes of it. */
    method TakeNext(incoming: seq<Reading>, attempts: nat, ghost x: Received, out: array<byte>, maxLen: uint16,
                    bytes: nat, frameCount: nat, expected: nat, ctrlCount: nat, ghost l: Local)
      returns (verdict: Verdict, bytes': nat, frameCount': nat, expected': nat, ctrlCount': nat, ghost l': Local)
      requires attempts < MAX_ATTEMPTS && x == Loop(datagrams, maxLen, State(), l, incoming, attempts, net)
      requires maxLen <= out.Length && Holds(out[..], maxLen, bytes, frameCount, expected, ctrlCount, l)
      modifies this, out
      ensures if verdict.Finish? then x == Received(State(), l', verdict.code, attempts + 1)
              else x == Loop(datagrams, maxLen, State(), l', incoming, attempts + 1, net)
      ensures out[maxLen..] == old(out[maxLen..])
      ensures Holds(out[..], maxLen, bytes', frameCount', expected', ctrlCount', l')
    {
      verdict, bytes', frameCount', expected', ctrlCount', l' :=
        TakeReading(At(incoming, attempts), out, maxLen, bytes, frameCount, expected, ctrlCount, l);
    }

    /** `usmp_recv`: whatever the transport answers it is read at most ten times, nothing outside
        `out[0..maxLen)` is written, and a positive result counts the bytes, at the start of the
        buffer, of one complete message among the frames that were read. */
    method Recv(out: array<byte>, maxLen: uint16, incoming: seq<Reading>) returns (code: int, attempts: nat)
      requires maxLen <= out.Length
      modifies this, out
      ensures var x := CoreReceive.Recv(datagrams, maxLen, old(State()), incoming, net);
              && State() == x.core && code == x.code && attempts == x.attempts <= 10
              && code <= maxLen && out[maxLen..] == old(out[maxLen..])
              && (code > 0 ==> out[..code] == x.local.payload && Delivers(old(sessionId), x))
              && exists at :: Traced(datagrams, maxLen, old(State()), incoming, net, x.local.parts, at, attempts)
    {
      ghost var at := RecvMeaning(datagrams, maxLen, State(), incoming, net);
      if !established { return -1, 0; }
      ghost var x := CoreReceive.Recv(datagrams, maxLen, State(), incoming, net);
      code, attempts := ReceiveLoop(out, maxLen, incoming, x);
    }

    method ReceiveLoop(out: array<byte>, maxLen: uint16, incoming: seq<Reading>, ghost x: Received) returns (code: int, attempts: nat)
      requires maxLen <= out.Length
      requires x == Loop(datagrams, maxLen, State(), BLANK, incoming, 0, net)
      requires x.code > 0 ==> x.code == |x.local.payload|
      modifies this, out
      ensures State() == x.core && code == x.code && attempts == x.attempts
      ensures out[maxLen..] == old(out[maxLen..])
      ensures code > 0 ==> code <= out.Length && out[..code] == x.local.payload
    {
      attempts := 0;
      var bytes: nat, frameCount: nat, expected: nat, ctrlCount: nat := 0, 0, 0, 0;
      ghost var l := BLANK;
      while attempts < MAX_ATTEMPTS
        invariant attempts <= MAX_ATTEMPTS
        invariant x == Loop(datagrams, maxLen, State(), l, incoming, attempts, net)
        invariant Holds(out[..], maxLen, bytes, frameCount, expected, ctrlCount, l)
        invariant out[maxLen..] == old(out[maxLen..])
      {
        var verdict;
        verdict, bytes, frameCount, expected, ctrlCount, l :=
          TakeNext(incoming, attempts, x, out, maxLen, bytes, frameCount, expected, ctrlCount, l);
        attempts := attempts + 1;
        if verdict.Finish? { return verdict.code, attempts; }
      }
      if frameCount > 0 {
        established := false;
        return -1, attempts;
      }
      return 0, attempts;
    }
  }

  /** The local variables of the C loop, and the caller's buffer, hold what `l` says. */
  ghost predicate Holds(out: seq<byte>, maxLen: nat, bytes: nat, frameCount: nat, expected: nat, ctrlCount: nat, l: Local) {
    && bytes <= maxLen <= |out| && out[..bytes] == l.payload
    && frameCount == |l.parts| && expected == l.expected && ctrlCount == l.ctrlCount
  }
}
