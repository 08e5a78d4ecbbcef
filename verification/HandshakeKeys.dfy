/** Under whose pre-shared key a server lets a device in, over every run of the handshake's world. */
module HandshakeKeys {
  import opened Crc16
  import opened SymbolicKeys
  import opened Frame
  import opened Handshake

  predicate PastHello(s: Server) { s.phase.AwaitAck? || s.phase.Accepted? }

  /** The key of a run past HELLO: the only one there is, the device's own, the default for a
      device without one, or what the function gives for this device. */
  predicate UsesKeyOf(s: Server) {
    match s.source
    case OnePsk(psk) => s.psk == psk
    case PerDevice(table) =>
      if s.deviceId in table then s.psk == table[s.deviceId] else [] in table && s.psk == table[[]]
    case Callback(find) => find(s.deviceId) == Some(s.psk)
  }

  /** The exchange is not with a peer value that makes the secret zero, and no key is short. */
  predicate ServerSound(s: Server, lowOrder: set<seq<Cell>>) {
    PastHello(s) ==> UsesKeyOf(s) && |s.psk| >= MIN_PSK_LEN && s.pubC !in lowOrder
  }

  predicate ClientSound(c: Client, lowOrder: set<seq<Cell>>) {
    (!c.phase.ClientFailed? ==> |c.psk| >= MIN_PSK_LEN) && (c.Acked() ==> |c.psk| >= MIN_PSK_LEN && c.pubS !in lowOrder)
  }

  ghost predicate Sound(w: World, lowOrder: set<seq<Cell>>) {
    && (forall j :: 0 <= j < |w.servers| ==> ServerSound(w.servers[j], lowOrder))
    && (forall i :: 0 <= i < |w.clients| ==> ClientSound(w.clients[i], lowOrder))
  }

  lemma ServerStaysSound(s: Server, f: HandshakeFrame, lowOrder: set<seq<Cell>>)
    requires ServerSound(s, lowOrder)
    ensures ServerSound(ServerReceive(s, f, lowOrder).0, lowOrder) && ServerReceive(s, f, lowOrder).0.source == s.source
  {}

  lemma ClientStaysSound(c: Client, f: HandshakeFrame, lowOrder: set<seq<Cell>>)
    requires ClientSound(c, lowOrder)
    ensures ClientSound(ClientReceive(c, f, lowOrder).0, lowOrder)
  {}

  lemma StepKeepsSound(w: World, a: Action, lowOrder: set<seq<Cell>>)
    requires Sound(w, lowOrder)
    ensures Sound(Step(w, a, lowOrder), lowOrder)
  {
    match a {
      case NewClient(psk, deviceId) =>
      case NewServer(source) =>
      case ToClient(at, f) => if at < |w.clients| { ClientStaysSound(w.clients[at], f, lowOrder); }
      case ToServer(at, f) => if at < |w.servers| { ServerStaysSound(w.servers[at], f, lowOrder); }
    }
  }

  lemma {:induction false} RunKeepsSound(w: World, actions: seq<Action>, lowOrder: set<seq<Cell>>)
    requires Sound(w, lowOrder)
    ensures Sound(Run(w, actions, lowOrder), lowOrder)
    decreases |actions|
  {
    if |actions| > 0 {
      StepKeepsSound(w, actions[0], lowOrder);
      RunKeepsSound(Step(w, actions[0], lowOrder), actions[1..], lowOrder);
    }
  }

  /** In every run, whatever the attacker does: a server past HELLO uses the key that belongs to
      the device it was told of, no key is shorter than the minimum, and neither party goes on with
      a peer value that makes the secret zero. */
  lemma KeysBelong(actions: seq<Action>, compromised: set<Psk>, lowOrder: set<seq<Cell>>)
    ensures var w := Run(Start(compromised), actions, lowOrder);
            && (forall j :: 0 <= j < |w.servers| && PastHello(w.servers[j]) ==>
                  UsesKeyOf(w.servers[j]) && |w.servers[j].psk| >= MIN_PSK_LEN && w.servers[j].pubC !in lowOrder)
            && (forall i :: 0 <= i < |w.clients| && w.clients[i].Acked() ==>
                  |w.clients[i].psk| >= MIN_PSK_LEN && w.clients[i].pubS !in lowOrder)
  {
    RunKeepsSound(Start(compromised), actions, lowOrder);
  }

  /** A HELLO of the right size that can arrive. */
  ghost predicate HelloFor(w: World, f: HandshakeFrame, deviceId: seq<Cell>) {
    && Deliverable(w, f) && f.ptype == HELLO
    && (|f.payload| == DEVICE_ID_LEN + PUB_KEY_LEN || |f.payload| == DEVICE_ID_LEN + PUB_KEY_LEN + COOKIE_LEN)
    && f.payload[..DEVICE_ID_LEN] == deviceId
  }

  predicate HasKey(source: PskSource, deviceId: seq<Cell>) {
    match source
    case OnePsk(_) => true
    case PerDevice(table) => deviceId in table || [] in table
    case Callback(find) => find(deviceId).Some?
  }

  /** A device for which there is no key, its own or a default, is refused as not registered and
      gets no answer; one for which there is is not refused for that. */
  lemma UnregisteredIsRefused(w: World, j: nat, f: HandshakeFrame, deviceId: seq<Cell>, lowOrder: set<seq<Cell>>)
    requires j < |w.servers| && w.servers[j].phase.AwaitHello? && HelloFor(w, f, deviceId)
    ensures var v := Step(w, ToServer(j, f), lowOrder);
            && (v.servers[j].phase == ServerFailed(NotRegistered) <==> !HasKey(w.servers[j].source, deviceId))
            && (v.servers[j].phase == ServerFailed(NotRegistered) ==> v.wire == w.wire)
  {}

  /** Where every device has its own key, the default lets nobody in under a device's name: a server
      that accepts a registered device, its key not being out, was answered by exactly one client
      run, and that one holds the device's key. */
  lemma DefaultKeyIsNotEnough(actions: seq<Action>, compromised: set<Psk>, lowOrder: set<seq<Cell>>, j: nat, table: map<seq<Cell>, Psk>)
    requires var w := Run(Start(compromised), actions, lowOrder);
             && j < |w.servers| && w.servers[j].phase.Accepted? && w.servers[j].source == PerDevice(table)
             && w.servers[j].deviceId in table && table[w.servers[j].deviceId] !in w.compromised
    ensures var w := Run(Start(compromised), actions, lowOrder); var s := w.servers[j];
            && (exists i :: 0 <= i < |w.clients| && ClientMatches(w.clients[i], s) && w.clients[i].psk == table[s.deviceId])
            && (forall i :: 0 <= i < |w.clients| && w.clients[i].psk != table[s.deviceId] ==> !ClientMatches(w.clients[i], s))
  {
    KeysBelong(actions, compromised, lowOrder);
    ServerAgreement(actions, compromised, lowOrder, j);
  }

  /** Every message has its place: a run that is waiting goes on only at the frame type it waits
      for, of that type's size (for a client that may once be a request to say HELLO again); at
      anything else it fails, answers nothing, and never goes on. */
  lemma OnlyExpectedFrames(c: Client, s: Server, f: HandshakeFrame, g: HandshakeFrame, lowOrder: set<seq<Cell>>)
    ensures var (d, out) := ClientReceive(c, f, lowOrder);
            && (c.phase.AwaitChallenge? && !d.phase.ClientFailed? ==>
                  (f.ptype == 0x02 && |f.payload| == 64) || (f.ptype == 0x0A && !c.phase.retried && |f.payload| == 16))
            && (c.phase.AwaitSessionOk? && !d.phase.ClientFailed? ==> f.ptype == 0x04 && |f.payload| == 48)
            && (d.phase.ClientFailed? ==> out == [] && ClientReceive(d, g, lowOrder) == (d, []))
            && (d.phase.Established? ==> c.phase.AwaitSessionOk? || c.phase.Established?)
    ensures var (t, out) := ServerReceive(s, f, lowOrder);
            && (s.phase.AwaitHello? && !t.phase.ServerFailed? ==> f.ptype == 0x01 && (|f.payload| == 38 || |f.payload| == 54))
            && (s.phase.AwaitAck? && !t.phase.ServerFailed? ==> f.ptype == 0x03 && |f.payload| == 32)
            && (t.phase.ServerFailed? ==> (out == [] || t.phase.error == KeyExchange) && ServerReceive(t, g, lowOrder) == (t, []))
            && (t.phase.Accepted? ==> s.phase.AwaitAck? || s.phase.Accepted?)
  {}
}
