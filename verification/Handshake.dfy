// vless/encryption/client.go and service.go: what the two ends of a handshake
// send, and what they hold when it is over.
module Handshake {
  import opened Bytes
  import opened CommonConn
  import opened Crypto
  import opened Header
  import opened Nonce
  import opened Record
  import opened Relay
  import opened XorConn

  const TICKET_LENGTH := 16
  const ENCRYPTED_LENGTH_SIZE := 2 + TAG_LENGTH
  const ENCRYPTED_TICKET_LENGTH := TICKET_LENGTH + TAG_LENGTH
  const PFS_PUBLIC_KEY_LENGTH := 1184 + 32             // ML-KEM-768 encapsulation key, X25519 key
  const PFS_REPLY_LENGTH := 1088 + 32                  // ML-KEM-768 ciphertext, X25519 key
  const ENCRYPTED_PFS_PUBLIC_KEY_LENGTH := PFS_REPLY_LENGTH + TAG_LENGTH

  // One end of an established connection: the keys, what it still has to send
  // and how, what it still has to read first and how.
  datatype End = End(env: Env, sender: Sender, out: Link, peer: Peer, inward: Link)

  // The suite, the key exchange, the client's IV and the XOR mode: masked in
  // every mode but "native", random in the mode that masks all headers.
  datatype Config = Config(setting: Setting, random: bool)

  // Ciphers on values.

  function CipherFor(s: Suite, context: bytes, key: bytes, aes: bool): Cipher {
    NewCipher(Env(s, key, aes), context)
  }

  function Advanced(c: Cipher): Cipher {
    c.(nonce := Next(c.nonce))
  }

  // Seal and Open with the cipher's own next nonce and no additional data.
  function SealNext(s: Suite, c: Cipher, x: bytes): bytes {
    s.seal(c.key, Next(c.nonce), [], x)
  }

  function OpenNext(s: Suite, c: Cipher, x: bytes): Option<bytes> {
    s.open(c.key, Next(c.nonce), [], x)
  }

  // io.ReadFull of n bytes.
  datatype Split = Short | Split(head: bytes, tail: bytes)

  function ReadN(d: bytes, n: nat): (r: Split)
    ensures r.Split? ==> |r.head| == n
  {
    if |d| < n then Short else Split.Split(d[..n], d[n..])
  }

  lemma ReadsHead(a: bytes, b: bytes)
    ensures ReadN(a + b, |a|) == Split.Split(a, b)
  {
    assert (a + b)[..|a|] == a && (a + b)[|a|..] == b;
  }

  function MaskedFrom(cfg: Config, united: bytes, iv: bytes, skip: nat): Link {
    if cfg.random then Masked(cfg.setting.suite.keystream(united, iv), Half(skip, [], 0)) else Bare
  }

  // 0-RTT.

  // The client's hello is not sent by the handshake but becomes the pending
  // prefix of the first record.
  function ZeroRttHello(cfg: Config, aes: bool, relays: bytes, nfsKey: bytes, ticket: bytes): bytes {
    var s, iv := cfg.setting.suite, cfg.setting.iv;
    var nfs := CipherFor(s, iv, nfsKey, aes);
    iv + (relays + (SealNext(s, nfs, BE16(ENCRYPTED_TICKET_LENGTH)) + EncryptedTicket(cfg, aes, nfsKey, ticket)))
  }

  function EncryptedTicket(cfg: Config, aes: bool, nfsKey: bytes, ticket: bytes): bytes {
    var s := cfg.setting.suite;
    SealNext(s, Advanced(CipherFor(s, cfg.setting.iv, nfsKey, aes)), ticket)
  }

  function ZeroRttClient(cfg: Config, aes: bool, relays: bytes, nfsKey: bytes, ticket: bytes, pfsKey: bytes, serverRandom: bytes): End {
    var env := Env(cfg.setting.suite, pfsKey + nfsKey, aes);
    var hello := ZeroRttHello(cfg, aes, relays, nfsKey, ticket);
    End(env, Sender(hello, NewCipher(env, EncryptedTicket(cfg, aes, nfsKey, ticket))),
        MaskedFrom(cfg, env.united, cfg.setting.iv, |hello|),
        Peer(None, None),
        // the keystream is the one readPrologue installs once it has the server random
        MaskedFrom(cfg, env.united, serverRandom, IV_LENGTH))
  }

  function ZeroRttServer(cfg: Config, aes: bool, nfsKey: bytes, encryptedTicket: bytes, pfsKey: bytes, serverRandom: bytes): End {
    var env := Env(cfg.setting.suite, pfsKey + nfsKey, aes);
    End(env, Sender(serverRandom, NewCipher(env, serverRandom)),
        MaskedFrom(cfg, env.united, serverRandom, IV_LENGTH),
        Peer(Some(NewCipher(env, encryptedTicket)), None),
        MaskedFrom(cfg, env.united, cfg.setting.iv, 0))
  }

  // 1-RTT.

  // The keys each side draws for one handshake.
  datatype ClientKeys = ClientKeys(mlkem: bytes, x25519: bytes)
  // leftover is what the memory behind the server's buffer for the client's
  // keys happens to hold.
  datatype ServerRandoms = ServerRandoms(mlkem: bytes, x25519: bytes, ticket: bytes, leftover: bytes)

  function PfsPublicKey(x: Exchange, keys: ClientKeys): bytes {
    x.publicOf(MLKEM, keys.mlkem) + x.publicOf(X25519, keys.x25519)
  }

  // Whether both exchanges accept their part of the client's public keys.
  predicate Offers(x: Exchange, pfsPublicKey: bytes)
    requires |pfsPublicKey| >= PFS_PUBLIC_KEY_LENGTH
  {
    x.admits(MLKEM, pfsPublicKey[..1184]) && x.admits(X25519, pfsPublicKey[1184..PFS_PUBLIC_KEY_LENGTH])
  }

  // The client's keys as the server takes them from the buffer in which it has
  // opened their block: behind a plaintext that is too short come the tag and
  // then what lies behind the buffer.
  function TakenKeys(plain: bytes, encrypted: bytes, leftover: bytes): (r: bytes)
    ensures |r| == PFS_PUBLIC_KEY_LENGTH
  {
    var buffer := if |plain| <= |encrypted| then plain + encrypted[|plain|..] else plain;
    (buffer + (leftover + Repeat(0, PFS_PUBLIC_KEY_LENGTH)))[..PFS_PUBLIC_KEY_LENGTH]
  }

  // The server exchanges with the keys the client has sealed exactly if their
  // block has at least 1232 bytes; below that the tag stands in for the end of
  // the X25519 key, and below 1216 bytes memory the client never sent.
  lemma SealedKeysAreTaken(plain: bytes, encrypted: bytes)
    requires |encrypted| == |plain| + TAG_LENGTH
    ensures forall leftover :: TakenKeys(plain, encrypted, leftover) <= plain
                               <==> |encrypted| >= PFS_PUBLIC_KEY_LENGTH + TAG_LENGTH
    ensures (forall l, m :: TakenKeys(plain, encrypted, l) == TakenKeys(plain, encrypted, m))
            <==> |encrypted| >= PFS_PUBLIC_KEY_LENGTH
    ensures PFS_PUBLIC_KEY_LENGTH <= |encrypted| < PFS_PUBLIC_KEY_LENGTH + TAG_LENGTH ==>
              forall leftover ::
                TakenKeys(plain, encrypted, leftover) == plain + encrypted[|plain|..PFS_PUBLIC_KEY_LENGTH]
  {
    var buffer := plain + encrypted[|plain|..];
    if |encrypted| < PFS_PUBLIC_KEY_LENGTH {
      var l: bytes, m: bytes := [0], [1];
      assert TakenKeys(plain, encrypted, l)[|encrypted|] == 0;
      assert TakenKeys(plain, encrypted, m)[|encrypted|] == 1;
    }
  }

  lemma WholeKeysAreTaken(plain: bytes, encrypted: bytes, leftover: bytes)
    requires |encrypted| == |plain| + TAG_LENGTH && |plain| == PFS_PUBLIC_KEY_LENGTH
    ensures TakenKeys(plain, encrypted, leftover) == plain
  {
    SealedKeysAreTaken(plain, encrypted);
  }

  // The server's answer to the client's public keys, and the shared key.
  function PfsReply(x: Exchange, pfsPublicKey: bytes, r: ServerRandoms): bytes
    requires |pfsPublicKey| >= PFS_PUBLIC_KEY_LENGTH
  {
    x.offer(MLKEM, pfsPublicKey[..1184], r.mlkem).0 + x.offer(X25519, pfsPublicKey[1184..PFS_PUBLIC_KEY_LENGTH], r.x25519).0
  }

  function ServerPfsKey(x: Exchange, pfsPublicKey: bytes, r: ServerRandoms): bytes
    requires |pfsPublicKey| >= PFS_PUBLIC_KEY_LENGTH
  {
    x.offer(MLKEM, pfsPublicKey[..1184], r.mlkem).1 + x.offer(X25519, pfsPublicKey[1184..PFS_PUBLIC_KEY_LENGTH], r.x25519).1
  }

  // None when a key exchange fails.
  function ClientPfsKey(x: Exchange, keys: ClientKeys, reply: bytes): Option<bytes>
    requires |reply| >= PFS_REPLY_LENGTH
  {
    var a := x.accept(MLKEM, keys.mlkem, reply[..1088]);
    var b := x.accept(X25519, keys.x25519, reply[1088..PFS_REPLY_LENGTH]);
    if a.Some? && b.Some? then Some(a.value + b.value) else None
  }

  lemma PfsKeysAgree(x: Exchange, keys: ClientKeys, r: ServerRandoms)
    requires Agrees(x)
    ensures var p := PfsPublicKey(x, keys);
            && |p| == PFS_PUBLIC_KEY_LENGTH && Offers(x, p)
            && |PfsReply(x, p, r)| == PFS_REPLY_LENGTH
            && ClientPfsKey(x, keys, PfsReply(x, p, r)) == Some(ServerPfsKey(x, p, r))
  {
    var p := PfsPublicKey(x, keys);
    assert p[..1184] == x.publicOf(MLKEM, keys.mlkem) && p[1184..PFS_PUBLIC_KEY_LENGTH] == x.publicOf(X25519, keys.x25519);
    var a, b := x.offer(MLKEM, p[..1184], r.mlkem).0, x.offer(X25519, p[1184..PFS_PUBLIC_KEY_LENGTH], r.x25519).0;
    assert (a + b)[..1088] == a && (a + b)[1088..PFS_REPLY_LENGTH] == b;
  }

  // The client's hello: the relays, its public keys, and padding whose content
  // is whatever the buffer holds.
  function OneRttHello(cfg: Config, aes: bool, relays: bytes, nfsKey: bytes, pfsPublicKey: bytes, padding: bytes): bytes {
    var s, iv := cfg.setting.suite, cfg.setting.iv;
    var c0 := CipherFor(s, iv, nfsKey, aes);
    var c1 := Advanced(c0);
    var c2 := Advanced(c1);
    var c3 := Advanced(c2);
    iv + (relays
          + (SealNext(s, c0, BE16(|pfsPublicKey| + TAG_LENGTH))
             + (SealNext(s, c1, pfsPublicKey)
                + (SealNext(s, c2, BE16(|padding| + TAG_LENGTH)) + SealNext(s, c3, padding)))))
  }

  // What the server sends back.
  function ServerHello(s: Suite, nfs: Cipher, aead: Cipher, reply: bytes, ticket: bytes, padding: bytes): bytes {
    s.seal(nfs.key, MAX_NONCE, [], reply)
    + (SealNext(s, aead, ticket)
       + (SealNext(s, Advanced(aead), BE16(|padding| + TAG_LENGTH)) + SealNext(s, Advanced(Advanced(aead)), padding)))
  }

  // The server's ciphers for the client's public keys.
  function OneRttServer(cfg: Config, aes: bool, nfsKey: bytes, pfsPublicKey: bytes, r: ServerRandoms): End
    requires |pfsPublicKey| >= PFS_PUBLIC_KEY_LENGTH
  {
    var x := cfg.setting.exchange;
    var env := Env(cfg.setting.suite, ServerPfsKey(x, pfsPublicKey, r) + nfsKey, aes);
    var aead := NewCipher(env, PfsReply(x, pfsPublicKey, r));
    End(env, Sender([], Advanced(Advanced(Advanced(aead)))),
        MaskedFrom(cfg, env.united, r.ticket, 0),
        Peer(Some(NewCipher(env, pfsPublicKey[..PFS_PUBLIC_KEY_LENGTH])), None),
        MaskedFrom(cfg, env.united, cfg.setting.iv, 0))
  }

  function OneRttServerHello(cfg: Config, aes: bool, nfsKey: bytes, pfsPublicKey: bytes, r: ServerRandoms, padding: bytes): bytes
    requires |pfsPublicKey| >= PFS_PUBLIC_KEY_LENGTH
  {
    var x := cfg.setting.exchange;
    var env := Env(cfg.setting.suite, ServerPfsKey(x, pfsPublicKey, r) + nfsKey, aes);
    var reply := PfsReply(x, pfsPublicKey, r);
    ServerHello(env.suite, CipherFor(env.suite, cfg.setting.iv, nfsKey, aes), NewCipher(env, reply), reply, r.ticket, padding)
  }

  // What the client makes of the server's bytes d.
  datatype ClientResult = ClientFails | ClientDone(end: End, ticket: bytes, pfsKey: bytes, rest: bytes)

  function OneRttClient(cfg: Config, aes: bool, nfsKey: bytes, keys: ClientKeys, d: bytes): ClientResult {
    match ReplyOf(cfg, aes, nfsKey, keys, d)
    case None => ClientFails
    case Some((reply, pfsKey, d1)) =>
      var env := Env(cfg.setting.suite, pfsKey + nfsKey, aes);
      OneRttClientTicket(cfg, env, keys, NewCipher(env, reply), pfsKey, d1)
  }

  // The server's keys, the key that they make with the client's, and what
  // follows them.
  function ReplyOf(cfg: Config, aes: bool, nfsKey: bytes, keys: ClientKeys, d: bytes): Option<(bytes, bytes, bytes)> {
    var s, x, iv := cfg.setting.suite, cfg.setting.exchange, cfg.setting.iv;
    var nfs := CipherFor(s, iv, nfsKey, aes);
    match ReadN(d, ENCRYPTED_PFS_PUBLIC_KEY_LENGTH)
    case Short => None
    case Split(encrypted, d1) =>
      match s.open(nfs.key, MAX_NONCE, [], encrypted)
      case None => None
      case Some(reply) =>
        if |reply| < PFS_REPLY_LENGTH then None
        else
          var pfsKey := ClientPfsKey(x, keys, reply);
          if pfsKey.None? then None else Some((reply[..PFS_REPLY_LENGTH], pfsKey.value, d1))
  }

  // The ticket and the key that the client caches with it, whatever becomes of
  // the rest of the answer.
  function TicketFrom(cfg: Config, aes: bool, nfsKey: bytes, keys: ClientKeys, d: bytes): Option<(bytes, bytes)> {
    match ReplyOf(cfg, aes, nfsKey, keys, d)
    case None => None
    case Some((reply, pfsKey, d1)) =>
      var ticket := TicketOf(cfg.setting.suite, NewCipher(Env(cfg.setting.suite, pfsKey + nfsKey, aes), reply), d1);
      if ticket.None? then None else Some((ticket.value, pfsKey))
  }

  // The part after the keys: the ticket and the length of the padding.
  function OneRttClientTicket(cfg: Config, env: Env, keys: ClientKeys, peer: Cipher, pfsKey: bytes, d: bytes): ClientResult {
    match ReadN(d, ENCRYPTED_TICKET_LENGTH)
    case Short => ClientFails
    case Split(encryptedTicket, d1) =>
      match OpenNext(env.suite, peer, encryptedTicket)
      case None => ClientFails
      case Some(ticket) =>
        match ReadN(d1, ENCRYPTED_LENGTH_SIZE)
        case Short => ClientFails
        case Split(encryptedLength, d2) =>
          match OpenNext(env.suite, Advanced(peer), encryptedLength)
          case None => ClientFails
          case Some(length) =>
            if |length| < 2 then ClientFails
            else
              var n := FromBE16(length);
              ClientDone(
                End(env, Sender([], NewCipher(env, PfsPublicKey(cfg.setting.exchange, keys))),
                    MaskedFrom(cfg, env.united, cfg.setting.iv, 0),
                    Peer(Some(Advanced(Advanced(peer))), Some(n)),
                    MaskedFrom(cfg, env.united, ticket, n)),
                ticket, pfsKey, d2)
  }

  // The server's reading of a client hello.

  datatype ServerResult =
    | ServerFails
    | ServerZeroRtt(end: End, ticket: bytes, nfsKey: bytes, rest: bytes)
    | ServerOneRtt(end: End, hello: bytes, pfsKey: bytes, rest: bytes)

  // The cipher under which the length opens, AES being tried first.
  datatype Choice = NoCipher | Choice(aes: bool, plain: bytes)

  function ChooseCipher(s: Suite, iv: bytes, nfsKey: bytes, encrypted: bytes): Choice {
    var first := OpenNext(s, CipherFor(s, iv, nfsKey, true), encrypted);
    if first.Some? then Choice.Choice(true, first.value)
    else
      var second := OpenNext(s, CipherFor(s, iv, nfsKey, false), encrypted);
      if second.Some? then Choice.Choice(false, second.value) else NoCipher
  }

  // sessions maps a ticket to the pfsKey stored for it.
  function Serve(cfg: Config, sks: seq<SecretKey>, allow0Rtt: bool, sessions: map<bytes, bytes>,
                 serverRandom: bytes, r: ServerRandoms, padding: bytes, d: bytes): ServerResult
    requires sks != []
  {
    match ReadN(d, IV_LENGTH + RelaysLength(Kinds(PublicKeys(cfg.setting.exchange, sks))))
    case Short => ServerFails
    case Split(ivAndRelays, d1) =>
      var setting := cfg.setting.(iv := ivAndRelays[..IV_LENGTH]);
      match Unwrap(setting, sks, ivAndRelays[IV_LENGTH..], None)
      case Unwrapped(nfsKey, _) =>
        ServeKeyed(cfg.(setting := setting), nfsKey, allow0Rtt, sessions, serverRandom, r, padding, d1)
      case _ => ServerFails
  }

  // Where the server gets to behind the relays, if it does: the IV it has read,
  // the key, and the bytes that follow.
  function Reached(cfg: Config, sks: seq<SecretKey>, d: bytes): Option<(Config, bytes, bytes)>
    requires sks != []
  {
    match ReadN(d, IV_LENGTH + RelaysLength(Kinds(PublicKeys(cfg.setting.exchange, sks))))
    case Short => None
    case Split(ivAndRelays, d1) =>
      var setting := cfg.setting.(iv := ivAndRelays[..IV_LENGTH]);
      match Unwrap(setting, sks, ivAndRelays[IV_LENGTH..], None)
      case Unwrapped(nfsKey, _) => Some((cfg.(setting := setting), nfsKey, d1))
      case _ => None
  }

  function ServeKeyed(cfg: Config, nfsKey: bytes, allow0Rtt: bool, sessions: map<bytes, bytes>,
                      serverRandom: bytes, r: ServerRandoms, padding: bytes, d: bytes): ServerResult
  {
    var s, iv := cfg.setting.suite, cfg.setting.iv;
    match ReadN(d, ENCRYPTED_LENGTH_SIZE)
    case Short => ServerFails
    case Split(encryptedLength, d1) =>
      match ChooseCipher(s, iv, nfsKey, encryptedLength)
      case NoCipher => ServerFails
      case Choice(aes, plain) =>
        if |plain| < 2 then ServerFails
        else
          var length, nfs := FromBE16(plain), Advanced(CipherFor(s, iv, nfsKey, aes));
          if length == ENCRYPTED_TICKET_LENGTH then
            if allow0Rtt then ServeTicket(cfg, aes, nfsKey, nfs, sessions, serverRandom, d1) else ServerFails
          else if length < ENCRYPTED_PFS_PUBLIC_KEY_LENGTH then ServerFails
          else ServeKeys(cfg, aes, nfsKey, nfs, length, r, padding, d1)
  }

  function ServeTicket(cfg: Config, aes: bool, nfsKey: bytes, nfs: Cipher, sessions: map<bytes, bytes>,
                       serverRandom: bytes, d: bytes): ServerResult
  {
    match ReadN(d, ENCRYPTED_TICKET_LENGTH)
    case Short => ServerFails
    case Split(encryptedTicket, d1) =>
      match OpenNext(cfg.setting.suite, nfs, encryptedTicket)
      case None => ServerFails
      case Some(ticket) =>
        if ticket !in sessions then ServerFails
        else ServerZeroRtt(ZeroRttServer(cfg, aes, nfsKey, encryptedTicket, sessions[ticket], serverRandom), ticket, nfsKey, d1)
  }

  function ServeKeys(cfg: Config, aes: bool, nfsKey: bytes, nfs: Cipher, length: nat, r: ServerRandoms, padding: bytes, d: bytes): ServerResult {
    match ReadN(d, length)
    case Short => ServerFails
    case Split(encrypted, d1) =>
      match OpenNext(cfg.setting.suite, nfs, encrypted)
      case None => ServerFails
      case Some(plain) =>
        var pfsPublicKey := TakenKeys(plain, encrypted, r.leftover);
        if !Offers(cfg.setting.exchange, pfsPublicKey) then ServerFails
        else ServePadding(cfg, aes, nfsKey, Advanced(nfs), pfsPublicKey, r, padding, d1)
  }

  // The ticket in a 0-RTT hello, if it opens.
  function TicketOf(s: Suite, nfs: Cipher, d: bytes): Option<bytes> {
    match ReadN(d, ENCRYPTED_TICKET_LENGTH)
    case Short => None
    case Split(encryptedTicket, _) => OpenNext(s, nfs, encryptedTicket)
  }

  // The keys with which the server gets as far as exchanging, if it does: a
  // ticket is filed then, whatever becomes of the handshake.
  function OfferedKeys(cfg: Config, nfs: Cipher, length: nat, leftover: bytes, d: bytes): (r: Option<bytes>)
    ensures r.Some? ==> |r.value| == PFS_PUBLIC_KEY_LENGTH
  {
    match ReadN(d, length)
    case Short => None
    case Split(encrypted, _) =>
      match OpenNext(cfg.setting.suite, nfs, encrypted)
      case None => None
      case Some(plain) =>
        var pfsPublicKey := TakenKeys(plain, encrypted, leftover);
        if Offers(cfg.setting.exchange, pfsPublicKey) then Some(pfsPublicKey) else None
  }

  // The server sends its hello before it reads the client's padding.
  function ServePadding(cfg: Config, aes: bool, nfsKey: bytes, nfs: Cipher, pfsPublicKey: bytes, r: ServerRandoms, padding: bytes,
                        d: bytes): ServerResult
    requires |pfsPublicKey| >= PFS_PUBLIC_KEY_LENGTH
  {
    match PaddingOf(cfg.setting.suite, nfs, d)
    case Short => ServerFails
    case Split(_, rest) =>
      ServerOneRtt(OneRttServer(cfg, aes, nfsKey, pfsPublicKey, r), OneRttServerHello(cfg, aes, nfsKey, pfsPublicKey, r, padding),
                   ServerPfsKey(cfg.setting.exchange, pfsPublicKey, r), rest)
  }

  // A sealed length and as many bytes, which must open.
  function PaddingOf(s: Suite, c: Cipher, d: bytes): Split {
    match ReadN(d, ENCRYPTED_LENGTH_SIZE)
    case Short => Short
    case Split(encryptedLength, d1) =>
      match OpenNext(s, c, encryptedLength)
      case None => Short
      case Some(plain) =>
        if |plain| < 2 then Short
        else
          match ReadN(d1, FromBE16(plain))
          case Short => Short
          case Split(encryptedPadding, d2) =>
            if OpenNext(s, Advanced(c), encryptedPadding) == None then Short else Split.Split(encryptedPadding, d2)
  }
}
