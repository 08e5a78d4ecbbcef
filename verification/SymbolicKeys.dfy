/** Keys and sealed frames as symbolic terms: a derived key remembers what it was derived
    from, and a sealed payload opens exactly under its own key, nonce and associated data. */
module SymbolicKeys {
  import opened Crc16

  /** One byte of a message, with its origin: a plain byte, byte `index` of a run's ephemeral
      public key, of its nonce or of its session id, or of an HMAC. Different origins never
      collide: this is the symbolic reading of random values and of HMAC outputs. */
  datatype Cell =
    | Byte(value: byte)
    | PubByte(owner: nat, index: nat)
    | NonceByte(run: nat, index: nat)
    | IdByte(run: nat, index: nat)
    | MacByte(psk: seq<byte>, data: seq<Cell>, index: nat)

  /** What X25519 yields: the same secret at both ends of two ephemeral keys, in whichever
      order; with any other peer value, something only the holder of `own` can compute. */
  datatype Shared = Between(low: nat, high: nat) | WithForeign(own: nat, peer: seq<Cell>)

  /** `Agreed` keys come out of a handshake; `Derived` ones out of `derive_rekey_keys`, which
      hashes the initiator's two keys, the salt and the session id and splits the output. */
  datatype Key =
    | Zeroed
    | Agreed(secret: Shared, nonce: seq<Cell>, pubC: seq<Cell>, pubS: seq<Cell>, toServer: bool)
    | Derived(initiatorTx: Key, initiatorRx: Key, sessionId: seq<byte>, salt: seq<byte>, firstHalf: bool)

  function Size(k: Key): nat {
    match k
    case Zeroed => 0
    case Agreed(_, _, _, _, _) => 0
    case Derived(a, b, _, _, _) => 1 + Size(a) + Size(b)
  }

  datatype KeyPair = KeyPair(tx: Key, rx: Key)

  /** `derive_rekey_keys`: the responder swaps both its inputs and its outputs. */
  function DeriveRekeyKeys(isInitiator: bool, keys: KeyPair, sessionId: seq<byte>, salt: seq<byte>): KeyPair {
    var a := if isInitiator then keys.tx else keys.rx;
    var b := if isInitiator then keys.rx else keys.tx;
    var first := Derived(a, b, sessionId, salt, true);
    var second := Derived(a, b, sessionId, salt, false);
    if isInitiator then KeyPair(first, second) else KeyPair(second, first)
  }

  predicate Crossed(x: KeyPair, y: KeyPair) {
    x.tx == y.rx && x.rx == y.tx
  }

  /** Two ends that hold crossed keys hold crossed keys after one of them rekeys and the other
      follows; and the new keys occur in no term of the old size. */
  lemma RekeyKeepsCrossed(x: KeyPair, y: KeyPair, sessionId: seq<byte>, salt: seq<byte>)
    requires Crossed(x, y)
    ensures Crossed(DeriveRekeyKeys(true, x, sessionId, salt), DeriveRekeyKeys(false, y, sessionId, salt))
    ensures Size(DeriveRekeyKeys(true, x, sessionId, salt).tx) > Size(x.tx) + Size(x.rx)
  {}

  /** Exactly then: the two ends agree after a rekey only if they held crossed keys before it and
      used the same salt and session. */
  lemma RekeyAgreesExactly(x: KeyPair, y: KeyPair, sessionX: seq<byte>, saltX: seq<byte>, sessionY: seq<byte>, saltY: seq<byte>)
    ensures Crossed(DeriveRekeyKeys(true, x, sessionX, saltX), DeriveRekeyKeys(false, y, sessionY, saltY))
            <==> Crossed(x, y) && sessionX == sessionY && saltX == saltY
  {}

  lemma RekeyGrows(isInitiator: bool, keys: KeyPair, sessionId: seq<byte>, salt: seq<byte>)
    ensures var after := DeriveRekeyKeys(isInitiator, keys, sessionId, salt);
            Size(after.tx) == Size(after.rx) == 1 + Size(keys.tx) + Size(keys.rx)
    ensures DeriveRekeyKeys(isInitiator, keys, sessionId, salt).tx != DeriveRekeyKeys(isInitiator, keys, sessionId, salt).rx
  {}

  // ---------------------------------------------------------------- sealed frames

  datatype Kind = Data | DataFrag | Ping | Pong | Bye | Rekey | Other(code: byte)

  /** An AEAD output with everything it binds: key, sequence number and session (the nonce),
      and the header fields (the associated data). */
  datatype Sealed = Sealed(key: Key, seqNo: nat, sessionId: seq<byte>, kind: Kind, length: nat, plaintext: seq<byte>)

  const NONCE_LEN: nat := 12
  const TAG_LEN: nat := 16

  /** A sealed payload as it travels: nonce, ciphertext, tag. */
  type Box = b: Sealed | b.length == NONCE_LEN + |b.plaintext| + TAG_LEN
    witness Sealed(Zeroed, 0, [], Data, NONCE_LEN + TAG_LEN, [])

  /** `encrypt`, for the header that will carry it. */
  function Seal(key: Key, seqNo: nat, sessionId: seq<byte>, kind: Kind, plaintext: seq<byte>): Box {
    Sealed(key, seqNo, sessionId, kind, NONCE_LEN + |plaintext| + TAG_LEN, plaintext)
  }

  datatype Option<+T> = None | Some(value: T)

  /** `decrypt`: it succeeds exactly when key, nonce and associated data all match. */
  function Open(box: Sealed, key: Key, seqNo: nat, sessionId: seq<byte>, kind: Kind, length: nat): Option<seq<byte>> {
    if length >= NONCE_LEN + TAG_LEN
       && box.key == key && box.seqNo == seqNo && box.sessionId == sessionId && box.kind == kind && box.length == length
    then Some(box.plaintext)
    else None
  }
}
