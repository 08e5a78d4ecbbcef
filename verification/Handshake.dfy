/** The four-message handshake, its network in the hands of an attacker who can read, drop,
    replay, reorder and invent frames, but can make an HMAC only with a compromised key. */
module Handshake {
  import opened Crc16
  import opened SymbolicKeys
  import opened Frame

  const HELLO: byte := 0x01
  const CHALLENGE: byte := 0x02
  const HELLO_ACK: byte := 0x03
  const SESSION_OK: byte := 0x04

  const DEVICE_ID_LEN: nat := 6
  const PUB_KEY_LEN: nat := 32
  const HANDSHAKE_NONCE_LEN: nat := 32
  const HMAC_LEN: nat := 32
  const SESSION_ID_LEN: nat := 16
  const COOKIE_LEN: nat := 16
  const MIN_PSK_LEN: nat := 16

  type Psk = seq<byte>

  function Lift(bytes: seq<byte>): (cells: seq<Cell>)
    ensures |cells| == |bytes|
    ensures forall i :: 0 <= i < |cells| ==> cells[i] == Byte(bytes[i])
  {
    seq(|bytes|, i requires 0 <= i < |bytes| => Byte(bytes[i]))
  }

  function Pub(owner: nat): seq<Cell> { seq(PUB_KEY_LEN, i requires 0 <= i => PubByte(owner, i)) }
  function Nonce(run: nat): seq<Cell> { seq(HANDSHAKE_NONCE_LEN, i requires 0 <= i => NonceByte(run, i)) }
  function SessionId(run: nat): seq<Cell> { seq(SESSION_ID_LEN, i requires 0 <= i => IdByte(run, i)) }
  function Hmac(psk: Psk, data: seq<Cell>): seq<Cell> { seq(HMAC_LEN, i requires 0 <= i => MacByte(psk, data, i)) }

  function Exchange(own: nat, peer: seq<Cell>): Shared {
    if |peer| > 0 && peer[0].PubByte? && peer == Pub(peer[0].owner) then
      var other := peer[0].owner;
      if own <= other then Between(own, other) else Between(other, own)
    else
      WithForeign(own, peer)
  }

  /** `derive_session_keys`: HKDF over the shared secret, salted with the nonce and bound to
      both public keys, split into the two directions; the pair is seen from the client. */
  function ClientKeys(secret: Shared, nonce: seq<Cell>, pubC: seq<Cell>, pubS: seq<Cell>): KeyPair {
    KeyPair(Agreed(secret, nonce, pubC, pubS, true), Agreed(secret, nonce, pubC, pubS, false))
  }

  function ServerKeys(secret: Shared, nonce: seq<Cell>, pubC: seq<Cell>, pubS: seq<Cell>): KeyPair {
    KeyPair(Agreed(secret, nonce, pubC, pubS, false), Agreed(secret, nonce, pubC, pubS, true))
  }

  /** What either HMAC covers: magic, version, type, nonce, an id, and both public keys. */
  function Transcript(ptype: byte, nonce: seq<Cell>, id: seq<Cell>, pubC: seq<Cell>, pubS: seq<Cell>): seq<Cell> {
    [Byte(MAGIC % 256), Byte(MAGIC / 256), Byte(VERSION), Byte(ptype)] + nonce + id + pubC + pubS
  }

  /** The transcript determines its parts, whatever the width of the id; in particular a
      client's HMAC is never a server's. */
  lemma TranscriptInjective(t: byte, n: seq<Cell>, id: seq<Cell>, pc: seq<Cell>, ps: seq<Cell>,
                            t': byte, n': seq<Cell>, id': seq<Cell>, pc': seq<Cell>, ps': seq<Cell>)
    requires |n| == |n'| && |pc| == |pc'| && |ps| == |ps'|
    requires Transcript(t, n, id, pc, ps) == Transcript(t', n', id', pc', ps')
    ensures t == t' && n == n' && id == id' && pc == pc' && ps == ps'
  {
    var a := Transcript(t, n, id, pc, ps);
    var b := Transcript(t', n', id', pc', ps');
    assert |id| == |id'|;
    var k := 4 + |n|;
    assert a[3] == Byte(t) && b[3] == Byte(t');
    assert a[4..k] == n && b[4..k] == n';
    assert a[k..k + |id|] == id && b[k..k + |id|] == id';
    var m := k + |id|;
    assert a[m..m + |pc|] == pc && b[m..m + |pc|] == pc';
    assert a[m + |pc|..] == ps && b[m + |pc|..] == ps';
  }

  lemma TypeByte(t: byte, n: seq<Cell>, id: seq<Cell>, pc: seq<Cell>, ps: seq<Cell>)
    ensures Transcript(t, n, id, pc, ps)[3] == Byte(t)
  {}

  lemma PubInjective(a: nat, b: nat)
    ensures Pub(a) == Pub(b) <==> a == b
  {
    assert Pub(a)[0] == PubByte(a, 0) && Pub(b)[0] == PubByte(b, 0);
  }

  lemma NonceInjective(a: nat, b: nat)
    ensures Nonce(a) == Nonce(b) <==> a == b
  {
    assert Nonce(a)[0] == NonceByte(a, 0) && Nonce(b)[0] == NonceByte(b, 0);
  }

  lemma ExchangeCommutes(a: nat, b: nat)
    ensures Exchange(a, Pub(b)) == Exchange(b, Pub(a))
  {
    assert Pub(a)[0] == PubByte(a, 0) && Pub(b)[0] == PubByte(b, 0);
  }

  // ---------------------------------------------------------------- the two roles

  datatype HandshakeFrame = HandshakeFrame(ptype: byte, payload: seq<Cell>)

  datatype HandshakeError =
    InvalidArgument | ConnectionClosed | UnexpectedType | BadLength | KeyExchange | NotRegistered | NotAuthentic

  datatype ClientPhase = AwaitChallenge(retried: bool) | AwaitSessionOk | Established | ClientFailed(error: HandshakeError)

  /** A client run. Nonce, server key and keys are filled in when HELLO_ACK is sent. */
  datatype Client = Client(psk: Psk, deviceId: seq<Cell>, run: nat, phase: ClientPhase,
                           nonce: seq<Cell>, pubS: seq<Cell>, sessionId: seq<Cell>, keys: KeyPair) {
    predicate Acked() { nonce != [] }
    function Fail(e: HandshakeError): (Client, seq<HandshakeFrame>) { (this.(phase := ClientFailed(e)), []) }
  }

  /** One key, a table of keys, or a function; a function that yields no key yields none here. */
  datatype PskSource = OnePsk(psk: Psk) | PerDevice(table: map<seq<Cell>, Psk>) | Callback(find: seq<Cell> -> Option<Psk>)

  /** A table is consulted for the device, then for the empty name. */
  function Lookup(source: PskSource, deviceId: seq<Cell>): Option<Psk> {
    match source
    case OnePsk(psk) => Some(psk)
    case PerDevice(table) =>
      if deviceId in table then Some(table[deviceId]) else if [] in table then Some(table[[]]) else None
    case Callback(find) => find(deviceId)
  }

  datatype ServerPhase = AwaitHello | AwaitAck | Accepted | ServerFailed(error: HandshakeError)

  /** A server run. The client's part is filled in when CHALLENGE is sent. */
  datatype Server = Server(source: PskSource, run: nat, phase: ServerPhase,
                           psk: Psk, deviceId: seq<Cell>, pubC: seq<Cell>, keys: KeyPair) {
    function Fail(e: HandshakeError): (Server, seq<HandshakeFrame>) { (this.(phase := ServerFailed(e)), []) }
  }

  const NO_KEYS := KeyPair(Zeroed, Zeroed)

  function StartClient(psk: Psk, deviceId: seq<Cell>, run: nat): (Client, seq<HandshakeFrame>) {
    var c := Client(psk, deviceId, run, AwaitChallenge(false), [], [], [], NO_KEYS);
    if |psk| < MIN_PSK_LEN || |deviceId| + PUB_KEY_LEN > MAX_PAYLOAD then c.Fail(InvalidArgument)
    else (c, [HandshakeFrame(HELLO, deviceId + Pub(run))])
  }

  /** What a client run does with one frame. `lowOrder` holds the peer values with which the
      key exchange yields zero. */
  function ClientReceive(c: Client, f: HandshakeFrame, lowOrder: set<seq<Cell>>): (Client, seq<HandshakeFrame>) {
    match c.phase
    case AwaitChallenge(retried) =>
      if f.ptype == HELLO_RETRY && !retried then
        if |f.payload| != COOKIE_LEN then c.Fail(BadLength)
        else if |c.deviceId| + PUB_KEY_LEN + COOKIE_LEN > MAX_PAYLOAD then c.Fail(InvalidArgument)
        else (c.(phase := AwaitChallenge(true)), [HandshakeFrame(HELLO, c.deviceId + Pub(c.run) + f.payload)])
      else if f.ptype != CHALLENGE then c.Fail(UnexpectedType)
      else if |f.payload| != HANDSHAKE_NONCE_LEN + PUB_KEY_LEN then c.Fail(BadLength)
      else
        var nonce := f.payload[..HANDSHAKE_NONCE_LEN];
        var pubS := f.payload[HANDSHAKE_NONCE_LEN..];
        if pubS in lowOrder then c.Fail(KeyExchange)
        else (c.(phase := AwaitSessionOk, nonce := nonce, pubS := pubS,
                 keys := ClientKeys(Exchange(c.run, pubS), nonce, Pub(c.run), pubS)),
              [HandshakeFrame(HELLO_ACK, Hmac(c.psk, Transcript(HELLO_ACK, nonce, c.deviceId, Pub(c.run), pubS)))])
    case AwaitSessionOk =>
      if f.ptype != SESSION_OK then c.Fail(UnexpectedType)
      else if |f.payload| != SESSION_ID_LEN + HMAC_LEN then c.Fail(BadLength)
      else
        var d := c.(sessionId := f.payload[..SESSION_ID_LEN]);
        if f.payload[SESSION_ID_LEN..] != Hmac(c.psk, Transcript(SESSION_OK, c.nonce, d.sessionId, Pub(c.run), c.pubS))
        then d.Fail(NotAuthentic)
        else if |c.deviceId| != DEVICE_ID_LEN then d.Fail(InvalidArgument)
        else (d.(phase := Established), [])
    case _ => (c, [])
  }

  /** What a server run does with one frame. */
  function ServerReceive(s: Server, f: HandshakeFrame, lowOrder: set<seq<Cell>>): (Server, seq<HandshakeFrame>) {
    match s.phase
    case AwaitHello =>
      if f.ptype != HELLO then s.Fail(UnexpectedType)
      else if |f.payload| != DEVICE_ID_LEN + PUB_KEY_LEN && |f.payload| != DEVICE_ID_LEN + PUB_KEY_LEN + COOKIE_LEN
      then s.Fail(BadLength)
      else
        var deviceId := f.payload[..DEVICE_ID_LEN];
        var pubC := f.payload[DEVICE_ID_LEN..DEVICE_ID_LEN + PUB_KEY_LEN];
        var psk := Lookup(s.source, deviceId);
        if psk.None? then s.Fail(NotRegistered)
        else if |psk.value| < MIN_PSK_LEN then s.Fail(InvalidArgument)
        else
          var challenge := HandshakeFrame(CHALLENGE, Nonce(s.run) + Pub(s.run));
          if pubC in lowOrder then (s.(phase := ServerFailed(KeyExchange)), [challenge])
          else (s.(phase := AwaitAck, psk := psk.value, deviceId := deviceId, pubC := pubC,
                   keys := ServerKeys(Exchange(s.run, pubC), Nonce(s.run), pubC, Pub(s.run))),
                [challenge])
    case AwaitAck =>
      if f.ptype != HELLO_ACK then s.Fail(UnexpectedType)
      else if |f.payload| != HMAC_LEN then s.Fail(BadLength)
      else if f.payload != Hmac(s.psk, Transcript(HELLO_ACK, Nonce(s.run), s.deviceId, s.pubC, Pub(s.run)))
      then s.Fail(NotAuthentic)
      else (s.(phase := Accepted),
            [HandshakeFrame(SESSION_OK,
                            SessionId(s.run) + Hmac(s.psk, Transcript(SESSION_OK, Nonce(s.run), SessionId(s.run), s.pubC, Pub(s.run))))])
    case _ => (s, [])
  }

  // ---------------------------------------------------------------- the world

  /** Every run so far, every frame an honest party has put on the wire, and the pre-shared
      keys the attacker holds. Run numbers stand for fresh randomness. */
  datatype World = World(clients: seq<Client>, servers: seq<Server>, wire: seq<HandshakeFrame>,
                         compromised: set<Psk>, next: nat)

  function Start(compromised: set<Psk>): World { World([], [], [], compromised, 0) }

  ghost predicate Seen(w: World, psk: Psk, data: seq<Cell>) {
    exists i, j :: 0 <= i < |w.wire| && 0 <= j < |w.wire[i].payload| && IsMacOf(w.wire[i].payload[j], psk, data)
  }

  predicate IsMacOf(cell: Cell, psk: Psk, data: seq<Cell>) {
    cell.MacByte? && cell.psk == psk && cell.data == data
  }

  /** The attacker can deliver any cells but HMACs it can neither copy nor compute. */
  ghost predicate Deliverable(w: World, f: HandshakeFrame) {
    forall i :: 0 <= i < |f.payload| && f.payload[i].MacByte? ==>
      f.payload[i].psk in w.compromised || Seen(w, f.payload[i].psk, f.payload[i].data)
  }

  datatype Action =
    | NewClient(psk: Psk, deviceId: seq<byte>)
    | NewServer(source: PskSource)
    | ToClient(at: nat, frame: HandshakeFrame)
    | ToServer(at: nat, frame: HandshakeFrame)

  /** One event; an event that is not possible changes nothing. */
  ghost function Step(w: World, a: Action, lowOrder: set<seq<Cell>>): World {
    match a
    case NewClient(psk, deviceId) =>
      var (c, out) := StartClient(psk, Lift(deviceId), w.next);
      w.(clients := w.clients + [c], wire := w.wire + out, next := w.next + 1)
    case NewServer(source) =>
      w.(servers := w.servers + [Server(source, w.next, AwaitHello, [], [], [], NO_KEYS)], next := w.next + 1)
    case ToClient(at, f) =>
      if at >= |w.clients| || !Deliverable(w, f) then w
      else
        var (c, out) := ClientReceive(w.clients[at], f, lowOrder);
        w.(clients := w.clients[at := c], wire := w.wire + out)
    case ToServer(at, f) =>
      if at >= |w.servers| || !Deliverable(w, f) then w
      else
        var (s, out) := ServerReceive(w.servers[at], f, lowOrder);
        w.(servers := w.servers[at := s], wire := w.wire + out)
  }

  ghost function Run(w: World, actions: seq<Action>, lowOrder: set<seq<Cell>>): World
    decreases |actions|
  {
    if |actions| == 0 then w else Run(Step(w, actions[0], lowOrder), actions[1..], lowOrder)
  }

  // ---------------------------------------------------------------- what every run keeps

  function AckData(c: Client): seq<Cell> { Transcript(HELLO_ACK, c.nonce, c.deviceId, Pub(c.run), c.pubS) }

  function OkData(s: Server): seq<Cell> { Transcript(SESSION_OK, Nonce(s.run), SessionId(s.run), s.pubC, Pub(s.run)) }

  predicate Vouches(c: Client, psk: Psk, data: seq<Cell>) { c.Acked() && c.psk == psk && AckData(c) == data }

  predicate Confirms(s: Server, psk: Psk, data: seq<Cell>) { s.phase == Accepted && s.psk == psk && OkData(s) == data }

  /** Some honest run made this HMAC, or its key is out. */
  ghost predicate Honest(w: World, psk: Psk, data: seq<Cell>) {
    || psk in w.compromised
    || (exists i :: 0 <= i < |w.clients| && Vouches(w.clients[i], psk, data))
    || (exists j :: 0 <= j < |w.servers| && Confirms(w.servers[j], psk, data))
  }

  /** Well-formedness of one run, and what it accepted. */
  ghost predicate ClientOk(w: World, c: Client) {
    && c.run < w.next
    && (forall i :: 0 <= i < |c.deviceId| ==> c.deviceId[i].Byte?)
    && (c.Acked() ==> |c.nonce| == HANDSHAKE_NONCE_LEN && |c.pubS| == PUB_KEY_LEN
                      && c.keys == ClientKeys(Exchange(c.run, c.pubS), c.nonce, Pub(c.run), c.pubS))
    && (c.phase.AwaitChallenge? ==> !c.Acked())
    && (c.phase.AwaitSessionOk? || c.phase.Established? ==> c.Acked())
    && (c.phase.Established? ==>
          |c.deviceId| == DEVICE_ID_LEN && |c.sessionId| == SESSION_ID_LEN
          && Honest(w, c.psk, Transcript(SESSION_OK, c.nonce, c.sessionId, Pub(c.run), c.pubS)))
  }

  ghost predicate ServerOk(w: World, s: Server) {
    && s.run < w.next
    && (s.phase.AwaitAck? || s.phase.Accepted? ==>
          |s.pubC| == PUB_KEY_LEN && |s.deviceId| == DEVICE_ID_LEN
          && s.keys == ServerKeys(Exchange(s.run, s.pubC), Nonce(s.run), s.pubC, Pub(s.run)))
    && (s.phase.Accepted? ==>
          Honest(w, s.psk, Transcript(HELLO_ACK, Nonce(s.run), s.deviceId, s.pubC, Pub(s.run))))
  }

  ghost predicate WireOk(w: World, f: HandshakeFrame) {
    forall j :: 0 <= j < |f.payload| && f.payload[j].MacByte? ==> Honest(w, f.payload[j].psk, f.payload[j].data)
  }

  ghost predicate RunsDistinct(w: World) {
    && (forall i, j :: 0 <= i < j < |w.clients| ==> w.clients[i].run != w.clients[j].run)
    && (forall i, j :: 0 <= i < j < |w.servers| ==> w.servers[i].run != w.servers[j].run)
  }

  ghost predicate Inv(w: World) {
    && RunsDistinct(w)
    && (forall i :: 0 <= i < |w.clients| ==> ClientOk(w, w.clients[i]))
    && (forall j :: 0 <= j < |w.servers| ==> ServerOk(w, w.servers[j]))
    && (forall k :: 0 <= k < |w.wire| ==> WireOk(w, w.wire[k]))
  }

  /** Later worlds keep what earlier ones vouched for. */
  ghost predicate Extends(w: World, v: World) {
    && w.compromised == v.compromised && w.next <= v.next
    && |w.clients| <= |v.clients| && |w.servers| <= |v.servers|
    && (forall i, psk, data :: 0 <= i < |w.clients| && Vouches(w.clients[i], psk, data) ==> Vouches(v.clients[i], psk, data))
    && (forall j, psk, data :: 0 <= j < |w.servers| && Confirms(w.servers[j], psk, data) ==> Confirms(v.servers[j], psk, data))
  }

  lemma HonestKept(w: World, v: World, psk: Psk, data: seq<Cell>)
    requires Extends(w, v) && Honest(w, psk, data)
    ensures Honest(v, psk, data)
  {
    if i :| 0 <= i < |w.clients| && Vouches(w.clients[i], psk, data) {
      assert Vouches(v.clients[i], psk, data);
    } else if j :| 0 <= j < |w.servers| && Confirms(w.servers[j], psk, data) {
      assert Confirms(v.servers[j], psk, data);
    }
  }

  lemma ClientOkKept(w: World, v: World, c: Client)
    requires Extends(w, v) && ClientOk(w, c)
    ensures ClientOk(v, c)
  {
    if c.phase.Established? {
      HonestKept(w, v, c.psk, Transcript(SESSION_OK, c.nonce, c.sessionId, Pub(c.run), c.pubS));
    }
  }

  lemma ServerOkKept(w: World, v: World, s: Server)
    requires Extends(w, v) && ServerOk(w, s)
    ensures ServerOk(v, s)
  {
    if s.phase.Accepted? {
      HonestKept(w, v, s.psk, Transcript(HELLO_ACK, Nonce(s.run), s.deviceId, s.pubC, Pub(s.run)));
    }
  }

  lemma WireOkKept(w: World, v: World, f: HandshakeFrame)
    requires Extends(w, v) && WireOk(w, f)
    ensures WireOk(v, f)
  {
    forall j | 0 <= j < |f.payload| && f.payload[j].MacByte?
      ensures Honest(v, f.payload[j].psk, f.payload[j].data)
    {
      HonestKept(w, v, f.payload[j].psk, f.payload[j].data);
    }
  }

  /** Every HMAC in a frame the attacker can deliver is an honest run's, or its key is out. */
  lemma DeliveredIsHonest(w: World, f: HandshakeFrame)
    requires Inv(w) && Deliverable(w, f)
    ensures WireOk(w, f)
  {
    forall i | 0 <= i < |f.payload| && f.payload[i].MacByte?
      ensures Honest(w, f.payload[i].psk, f.payload[i].data)
    {
      var psk, data := f.payload[i].psk, f.payload[i].data;
      if psk !in w.compromised {
        var k, j :| 0 <= k < |w.wire| && 0 <= j < |w.wire[k].payload| && IsMacOf(w.wire[k].payload[j], psk, data);
        assert WireOk(w, w.wire[k]);
      }
    }
  }

  /** A frame that ends in a given HMAC can be delivered only if that HMAC is honest. */
  lemma HmacIsHonest(w: World, f: HandshakeFrame, from: nat, psk: Psk, data: seq<Cell>)
    requires WireOk(w, f) && from <= |f.payload|
    requires f.payload[from..] == Hmac(psk, data)
    ensures Honest(w, psk, data)
  {
    assert f.payload[from] == Hmac(psk, data)[0];
  }

  // ---------------------------------------------------------------- one step

  lemma ClientReceiveKeeps(c: Client, f: HandshakeFrame, lowOrder: set<seq<Cell>>, psk: Psk, data: seq<Cell>)
    requires c.phase.AwaitChallenge? ==> !c.Acked()
    requires Vouches(c, psk, data)
    ensures Vouches(ClientReceive(c, f, lowOrder).0, psk, data)
  {}

  lemma ToClientExtends(w: World, at: nat, f: HandshakeFrame, lowOrder: set<seq<Cell>>)
    requires Inv(w) && at < |w.clients|
    ensures Extends(w, Step(w, ToClient(at, f), lowOrder))
  {
    var v := Step(w, ToClient(at, f), lowOrder);
    forall i, psk, data | 0 <= i < |w.clients| && Vouches(w.clients[i], psk, data)
      ensures Vouches(v.clients[i], psk, data)
    {
      assert ClientOk(w, w.clients[i]);
      ClientReceiveKeeps(w.clients[i], f, lowOrder, psk, data);
    }
  }

  lemma ServerReceiveKeeps(s: Server, f: HandshakeFrame, lowOrder: set<seq<Cell>>, psk: Psk, data: seq<Cell>)
    requires Confirms(s, psk, data)
    ensures Confirms(ServerReceive(s, f, lowOrder).0, psk, data)
  {}

  lemma ToServerExtends(w: World, at: nat, f: HandshakeFrame, lowOrder: set<seq<Cell>>)
    requires at < |w.servers|
    ensures Extends(w, Step(w, ToServer(at, f), lowOrder))
  {
    var v := Step(w, ToServer(at, f), lowOrder);
    forall j, psk, data | 0 <= j < |w.servers| && Confirms(w.servers[j], psk, data)
      ensures Confirms(v.servers[j], psk, data)
    {
      ServerReceiveKeeps(w.servers[j], f, lowOrder, psk, data);
    }
  }

  /** The client that moved is still well formed, and every HMAC it sends is its own or one it
      was handed (in a cookie). */
  lemma MovedClient(w: World, v: World, at: nat, f: HandshakeFrame, lowOrder: set<seq<Cell>>)
    requires Inv(w) && at < |w.clients| && Deliverable(w, f)
    requires v == Step(w, ToClient(at, f), lowOrder) && Extends(w, v)
    ensures ClientOk(v, v.clients[at])
  {
    var c := w.clients[at];
    assert ClientOk(w, c);
    ClientOkKept(w, v, c);
    if v.clients[at].phase.Established? && !c.phase.Established? {
      DeliveredIsHonest(w, f);
      WireOkKept(w, v, f);
      HmacIsHonest(v, f, SESSION_ID_LEN, c.psk,
                   Transcript(SESSION_OK, c.nonce, f.payload[..SESSION_ID_LEN], Pub(c.run), c.pubS));
    }
  }

  lemma ClientSends(w: World, v: World, at: nat, f: HandshakeFrame, lowOrder: set<seq<Cell>>)
    requires Inv(w) && at < |w.clients| && Deliverable(w, f)
    requires v == Step(w, ToClient(at, f), lowOrder) && Extends(w, v)
    ensures forall k :: |w.wire| <= k < |v.wire| ==> WireOk(v, v.wire[k])
  {
    var c := w.clients[at];
    assert ClientOk(w, c);
    DeliveredIsHonest(w, f);
    WireOkKept(w, v, f);
    if |v.wire| > |w.wire| {
      var out := v.wire[|w.wire|];
      if f.ptype == HELLO_RETRY {
        assert out.payload == c.deviceId + Pub(c.run) + f.payload;
        var n := |c.deviceId| + PUB_KEY_LEN;
        forall j | 0 <= j < |out.payload| && out.payload[j].MacByte?
          ensures Honest(v, out.payload[j].psk, out.payload[j].data)
        {
          assert j >= n;
          assert out.payload[j] == f.payload[j - n];
        }
      } else {
        assert Vouches(v.clients[at], c.psk, AckData(v.clients[at]));
      }
    }
  }

  lemma MovedServer(w: World, v: World, at: nat, f: HandshakeFrame, lowOrder: set<seq<Cell>>)
    requires Inv(w) && at < |w.servers| && Deliverable(w, f)
    requires v == Step(w, ToServer(at, f), lowOrder) && Extends(w, v)
    ensures ServerOk(v, v.servers[at])
    ensures forall k :: |w.wire| <= k < |v.wire| ==> WireOk(v, v.wire[k])
  {
    var s := w.servers[at];
    assert ServerOk(w, s);
    ServerOkKept(w, v, s);
    if v.servers[at].phase.Accepted? && !s.phase.Accepted? {
      DeliveredIsHonest(w, f);
      WireOkKept(w, v, f);
      HmacIsHonest(v, f, 0, s.psk, Transcript(HELLO_ACK, Nonce(s.run), s.deviceId, s.pubC, Pub(s.run)));
      assert Confirms(v.servers[at], s.psk, OkData(s));
    }
  }

  lemma OthersKept(w: World, v: World)
    requires Inv(w) && Extends(w, v)
    ensures forall i :: 0 <= i < |w.clients| ==> ClientOk(v, w.clients[i])
    ensures forall j :: 0 <= j < |w.servers| ==> ServerOk(v, w.servers[j])
    ensures forall k :: 0 <= k < |w.wire| ==> WireOk(v, w.wire[k])
  {
    forall i | 0 <= i < |w.clients| ensures ClientOk(v, w.clients[i]) { ClientOkKept(w, v, w.clients[i]); }
    forall j | 0 <= j < |w.servers| ensures ServerOk(v, w.servers[j]) { ServerOkKept(w, v, w.servers[j]); }
    forall k | 0 <= k < |w.wire| ensures WireOk(v, w.wire[k]) { WireOkKept(w, v, w.wire[k]); }
  }

  lemma NewClientKeepsInv(w: World, psk: Psk, deviceId: seq<byte>, lowOrder: set<seq<Cell>>)
    requires Inv(w)
    ensures Inv(Step(w, NewClient(psk, deviceId), lowOrder))
  {
    var v := Step(w, NewClient(psk, deviceId), lowOrder);
    assert Extends(w, v);
    OthersKept(w, v);
    assert ClientOk(v, v.clients[|w.clients|]);
    assert forall k :: |w.wire| <= k < |v.wire| ==> v.wire[k].payload == Lift(deviceId) + Pub(w.next);
  }

  lemma NewServerKeepsInv(w: World, source: PskSource, lowOrder: set<seq<Cell>>)
    requires Inv(w)
    ensures Inv(Step(w, NewServer(source), lowOrder))
  {
    var v := Step(w, NewServer(source), lowOrder);
    assert Extends(w, v);
    OthersKept(w, v);
  }

  lemma ToClientKeepsInv(w: World, at: nat, f: HandshakeFrame, lowOrder: set<seq<Cell>>)
    requires Inv(w) && at < |w.clients| && Deliverable(w, f)
    ensures Inv(Step(w, ToClient(at, f), lowOrder))
  {
    var v := Step(w, ToClient(at, f), lowOrder);
    ToClientExtends(w, at, f, lowOrder);
    OthersKept(w, v);
    MovedClient(w, v, at, f, lowOrder);
    ClientSends(w, v, at, f, lowOrder);
    assert v.clients[at].run == w.clients[at].run;
    assert forall k :: 0 <= k < |w.wire| ==> v.wire[k] == w.wire[k];
  }

  lemma ToServerKeepsInv(w: World, at: nat, f: HandshakeFrame, lowOrder: set<seq<Cell>>)
    requires Inv(w) && at < |w.servers| && Deliverable(w, f)
    ensures Inv(Step(w, ToServer(at, f), lowOrder))
  {
    var v := Step(w, ToServer(at, f), lowOrder);
    ToServerExtends(w, at, f, lowOrder);
    OthersKept(w, v);
    MovedServer(w, v, at, f, lowOrder);
    assert v.servers[at].run == w.servers[at].run;
    assert forall k :: 0 <= k < |w.wire| ==> v.wire[k] == w.wire[k];
  }

  lemma StepKeepsInv(w: World, a: Action, lowOrder: set<seq<Cell>>)
    requires Inv(w)
    ensures Inv(Step(w, a, lowOrder))
  {
    match a {
      case NewClient(psk, deviceId) => NewClientKeepsInv(w, psk, deviceId, lowOrder);
      case NewServer(source) => NewServerKeepsInv(w, source, lowOrder);
      case ToClient(at, f) => if at < |w.clients| && Deliverable(w, f) { ToClientKeepsInv(w, at, f, lowOrder); }
      case ToServer(at, f) => if at < |w.servers| && Deliverable(w, f) { ToServerKeepsInv(w, at, f, lowOrder); }
    }
  }

  lemma {:induction false} RunKeepsInv(w: World, actions: seq<Action>, lowOrder: set<seq<Cell>>)
    requires Inv(w)
    ensures Inv(Run(w, actions, lowOrder))
    decreases |actions|
  {
    if |actions| > 0 {
      StepKeepsInv(w, actions[0], lowOrder);
      RunKeepsInv(Step(w, actions[0], lowOrder), actions[1..], lowOrder);
    }
  }

  // ---------------------------------------------------------------- agreement

  /** The client sent the HELLO_ACK that this server run is entitled to. */
  predicate ClientMatches(c: Client, s: Server) {
    && c.Acked() && c.psk == s.psk && c.deviceId == s.deviceId
    && c.nonce == Nonce(s.run) && Pub(c.run) == s.pubC && c.pubS == Pub(s.run)
  }

  lemma AckNeedsClient(w: World, s: Server)
    requires Inv(w) && ServerOk(w, s) && s.phase.Accepted? && s.psk !in w.compromised
    ensures exists i :: 0 <= i < |w.clients| && ClientMatches(w.clients[i], s)
  {
    var data := Transcript(HELLO_ACK, Nonce(s.run), s.deviceId, s.pubC, Pub(s.run));
    forall j | 0 <= j < |w.servers|
      ensures !Confirms(w.servers[j], s.psk, data)
    {
      TypeByte(HELLO_ACK, Nonce(s.run), s.deviceId, s.pubC, Pub(s.run));
      TypeByte(SESSION_OK, Nonce(w.servers[j].run), SessionId(w.servers[j].run), w.servers[j].pubC, Pub(w.servers[j].run));
    }
    var i :| 0 <= i < |w.clients| && Vouches(w.clients[i], s.psk, data);
    var c := w.clients[i];
    assert ClientOk(w, c);
    TranscriptInjective(HELLO_ACK, c.nonce, c.deviceId, Pub(c.run), c.pubS, HELLO_ACK, Nonce(s.run), s.deviceId, s.pubC, Pub(s.run));
    assert ClientMatches(c, s);
  }

  /** Whenever a server accepts HELLO_ACK under a key the attacker lacks, exactly one client
      run sent it, with the same nonce, device and public keys, and the two hold crossed keys. */
  lemma ServerAgreement(actions: seq<Action>, compromised: set<Psk>, lowOrder: set<seq<Cell>>, j: nat)
    requires var w := Run(Start(compromised), actions, lowOrder);
             j < |w.servers| && w.servers[j].phase.Accepted? && w.servers[j].psk !in w.compromised
    ensures var w := Run(Start(compromised), actions, lowOrder);
            exists i :: 0 <= i < |w.clients| && ClientMatches(w.clients[i], w.servers[j])
                        && Crossed(w.clients[i].keys, w.servers[j].keys)
                        && (forall k :: 0 <= k < |w.clients| && ClientMatches(w.clients[k], w.servers[j]) ==> k == i)
  {
    var w := Run(Start(compromised), actions, lowOrder);
    RunKeepsInv(Start(compromised), actions, lowOrder);
    AckNeedsClient(w, w.servers[j]);
    var i :| 0 <= i < |w.clients| && ClientMatches(w.clients[i], w.servers[j]);
    MatchedKeysCross(w, w.clients[i], w.servers[j]);
    forall k | 0 <= k < |w.clients| && ClientMatches(w.clients[k], w.servers[j])
      ensures k == i
    {
      PubInjective(w.clients[i].run, w.clients[k].run);
    }
  }

  lemma MatchedKeysCross(w: World, c: Client, s: Server)
    requires ClientOk(w, c) && ServerOk(w, s) && ClientMatches(c, s) && (s.phase.AwaitAck? || s.phase.Accepted?)
    ensures Crossed(c.keys, s.keys)
  {
    ExchangeCommutes(c.run, s.run);
  }

  predicate SessionMatches(c: Client, s: Server) {
    s.phase.Accepted? && ClientMatches(c, s) && c.sessionId == SessionId(s.run)
  }

  lemma OkNeedsServer(w: World, c: Client)
    requires Inv(w) && ClientOk(w, c) && c.phase.Established? && c.psk !in w.compromised
    ensures exists j :: 0 <= j < |w.servers| && w.servers[j].phase.Accepted? && w.servers[j].psk == c.psk
                        && Nonce(w.servers[j].run) == c.nonce && SessionId(w.servers[j].run) == c.sessionId
                        && w.servers[j].pubC == Pub(c.run) && Pub(w.servers[j].run) == c.pubS
  {
    var data := Transcript(SESSION_OK, c.nonce, c.sessionId, Pub(c.run), c.pubS);
    forall i | 0 <= i < |w.clients|
      ensures !Vouches(w.clients[i], c.psk, data)
    {
      TypeByte(SESSION_OK, c.nonce, c.sessionId, Pub(c.run), c.pubS);
      TypeByte(HELLO_ACK, w.clients[i].nonce, w.clients[i].deviceId, Pub(w.clients[i].run), w.clients[i].pubS);
    }
    var j :| 0 <= j < |w.servers| && Confirms(w.servers[j], c.psk, data);
    var s := w.servers[j];
    assert ServerOk(w, s);
    TranscriptInjective(SESSION_OK, c.nonce, c.sessionId, Pub(c.run), c.pubS, SESSION_OK, Nonce(s.run), SessionId(s.run), s.pubC, Pub(s.run));
  }

  /** The HELLO_ACK a server run accepted is the one sent by the run whose key it names. */
  lemma OwnAckWasAccepted(w: World, i: nat, s: Server)
    requires Inv(w) && i < |w.clients| && ServerOk(w, s)
    requires s.phase.Accepted? && s.psk !in w.compromised && s.pubC == Pub(w.clients[i].run)
    ensures ClientMatches(w.clients[i], s)
  {
    AckNeedsClient(w, s);
    var k :| 0 <= k < |w.clients| && ClientMatches(w.clients[k], s);
    PubInjective(w.clients[k].run, w.clients[i].run);
    assert k == i;
  }

  /** Whenever a client accepts SESSION_OK under a key the attacker lacks, exactly one server
      run issued it: same nonce, public keys and session id. The server also agrees on the
      device, which SESSION_OK does not carry, because the run it accepted was this one; and
      the two hold crossed keys. */
  lemma ClientAgreement(actions: seq<Action>, compromised: set<Psk>, lowOrder: set<seq<Cell>>, i: nat)
    requires var w := Run(Start(compromised), actions, lowOrder);
             i < |w.clients| && w.clients[i].phase.Established? && w.clients[i].psk !in w.compromised
    ensures var w := Run(Start(compromised), actions, lowOrder);
            exists j :: 0 <= j < |w.servers| && SessionMatches(w.clients[i], w.servers[j])
                        && Crossed(w.clients[i].keys, w.servers[j].keys)
                        && (forall k :: 0 <= k < |w.servers| && SessionMatches(w.clients[i], w.servers[k]) ==> k == j)
  {
    var w := Run(Start(compromised), actions, lowOrder);
    RunKeepsInv(Start(compromised), actions, lowOrder);
    var c := w.clients[i];
    assert ClientOk(w, c);
    OkNeedsServer(w, c);
    var j :| 0 <= j < |w.servers| && w.servers[j].phase.Accepted? && w.servers[j].psk == c.psk
             && Nonce(w.servers[j].run) == c.nonce && SessionId(w.servers[j].run) == c.sessionId
             && w.servers[j].pubC == Pub(c.run) && Pub(w.servers[j].run) == c.pubS;
    var s := w.servers[j];
    OwnAckWasAccepted(w, i, s);
    MatchedKeysCross(w, c, s);
    forall m | 0 <= m < |w.servers| && SessionMatches(c, w.servers[m])
      ensures m == j
    {
      NonceInjective(w.servers[m].run, s.run);
    }
  }

  /** A client and a server run of any world, compromised keys or not, hold crossed keys exactly
      when they saw the same nonce and the same two public keys. */
  lemma CrossedMeansSameExchange(actions: seq<Action>, compromised: set<Psk>, lowOrder: set<seq<Cell>>, i: nat, j: nat)
    requires var w := Run(Start(compromised), actions, lowOrder);
             i < |w.clients| && w.clients[i].Acked() && j < |w.servers|
             && (w.servers[j].phase.AwaitAck? || w.servers[j].phase.Accepted?)
    ensures var w := Run(Start(compromised), actions, lowOrder); var c, s := w.clients[i], w.servers[j];
            Crossed(c.keys, s.keys) <==> c.nonce == Nonce(s.run) && Pub(c.run) == s.pubC && c.pubS == Pub(s.run)
  {
    RunKeepsInv(Start(compromised), actions, lowOrder);
    var w := Run(Start(compromised), actions, lowOrder);
    var c, s := w.clients[i], w.servers[j];
    assert ClientOk(w, c) && ServerOk(w, s);
    ExchangeCommutes(c.run, s.run);
  }

  /** The proviso is needed: with a pre-shared key in hand the attacker completes a session on
      its own. */
  lemma CompromisedKeyForges(psk: Psk)
    requires |psk| >= MIN_PSK_LEN
    ensures exists actions ::
      var w := Run(Start({psk}), actions, {});
      w.clients == [] && |w.servers| == 1 && w.servers[0].phase.Accepted?
  {
    var id, pubC := Lift([0, 0, 0, 0, 0, 0]), Lift(seq(PUB_KEY_LEN, _ => 0));
    var hello := HandshakeFrame(HELLO, id + pubC);
    var ack := HandshakeFrame(HELLO_ACK, Hmac(psk, Transcript(HELLO_ACK, Nonce(0), id, pubC, Pub(0))));
    var a, b, c := NewServer(OnePsk(psk)), ToServer(0, hello), ToServer(0, ack);
    assert hello.payload[..DEVICE_ID_LEN] == id && hello.payload[DEVICE_ID_LEN..DEVICE_ID_LEN + PUB_KEY_LEN] == pubC;
    var w1 := Step(Start({psk}), a, {});
    var w2 := Step(w1, b, {});
    var w3 := Step(w2, c, {});
    assert w2.servers[0].phase == AwaitAck && w2.servers[0].psk == psk;
    assert w3.servers[0].phase == Accepted;
    RunOfThree(Start({psk}), a, b, c, {});
  }

  lemma RunOfThree(w: World, a: Action, b: Action, c: Action, lowOrder: set<seq<Cell>>)
    ensures Run(w, [a, b, c], lowOrder) == Step(Step(Step(w, a, lowOrder), b, lowOrder), c, lowOrder)
  {
    var w1 := Step(w, a, lowOrder);
    var w2 := Step(w1, b, lowOrder);
    assert [a, b, c][1..] == [b, c] && [b, c][1..] == [c];
    assert Run(w2, [c], lowOrder) == Run(Step(w2, c, lowOrder), [], lowOrder);
    assert Run(w1, [b, c], lowOrder) == Run(w2, [c], lowOrder);
  }
}
