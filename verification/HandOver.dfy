// A completed handshake leaves the two ends in step, in both directions.
module HandOver {
  import opened Bytes
  import opened CommonConn
  import opened Crypto
  import opened Handshake
  import opened Header
  import opened Nonce
  import opened Record
  import opened Relay
  import opened XorConn

  ghost predicate Lawful(cfg: Config) {
    Sound(cfg.setting.suite) && Separates(cfg.setting.suite) && Agrees(cfg.setting.exchange)
  }

  lemma SealedOpens(s: Suite, c: Cipher, x: bytes)
    requires Sound(s)
    ensures |SealNext(s, c, x)| == |x| + TAG_LENGTH && OpenNext(s, c, SealNext(s, c, x)) == Some(x)
  {
  }

  // The server settles on the client's cipher.
  lemma ChoosesClientCipher(s: Suite, iv: bytes, nfsKey: bytes, aes: bool, x: bytes)
    requires Sound(s) && Separates(s)
    ensures ChooseCipher(s, iv, nfsKey, SealNext(s, CipherFor(s, iv, nfsKey, aes), x)) == Choice.Choice(aes, x)
  {
    var c, other := CipherFor(s, iv, nfsKey, aes), CipherFor(s, iv, nfsKey, !aes);
    SealedOpens(s, c, x);
    assert other.key == CipherKey(c.key.subkey, !c.key.aes) && other.nonce == c.nonce;
    assert s.open(other.key, Next(c.nonce), [], s.seal(c.key, Next(c.nonce), [], x)) == None;
  }

  lemma ServeBehindRelays(cfg: Config, sks: seq<SecretKey>, relays: bytes, nfsKey: bytes, left: bytes, allow0Rtt: bool,
                          sessions: map<bytes, bytes>, serverRandom: bytes, r: ServerRandoms, padding: bytes, rest: bytes)
    requires sks != [] && |cfg.setting.iv| == IV_LENGTH
    requires |relays| == RelaysLength(Kinds(PublicKeys(cfg.setting.exchange, sks)))
    requires Unwrap(cfg.setting, sks, relays, None) == Unwrapped.Unwrapped(nfsKey, left)
    ensures Serve(cfg, sks, allow0Rtt, sessions, serverRandom, r, padding, cfg.setting.iv + (relays + rest))
         == ServeKeyed(cfg, nfsKey, allow0Rtt, sessions, serverRandom, r, padding, rest)
  {
    hide ServeKeyed, Unwrap, RelaysLength, PublicKeys, Kinds;
    var iv := cfg.setting.iv;
    Assoc(iv, relays, rest);
    ReadsHead(iv + relays, rest);
    assert (iv + relays)[..IV_LENGTH] == iv && (iv + relays)[IV_LENGTH..] == relays;
    assert cfg.setting.(iv := iv) == cfg.setting && cfg.(setting := cfg.setting) == cfg;
  }

  lemma ServeReachesKey(cfg: Config, sks: seq<SecretKey>, randoms: seq<bytes>, allow0Rtt: bool, sessions: map<bytes, bytes>,
                        serverRandom: bytes, r: ServerRandoms, padding: bytes, rest: bytes)
    requires Lawful(cfg) && sks != [] && |randoms| == |sks| && |cfg.setting.iv| == IV_LENGTH
    ensures Admitted(cfg.setting.exchange, PublicKeys(cfg.setting.exchange, sks))
    ensures var pks := PublicKeys(cfg.setting.exchange, sks);
            Serve(cfg, sks, allow0Rtt, sessions, serverRandom, r, padding,
                  cfg.setting.iv + (Wrap(cfg.setting, pks, randoms, None) + rest))
            == ServeKeyed(cfg, FinalKey(cfg.setting, pks, randoms), allow0Rtt, sessions, serverRandom, r, padding, rest)
  {
    hide Serve, ServeKeyed, Unwrap, Wrap, FinalKey, Admitted, Agrees, Sound, Separates, RelaysLength, PublicKeys, Kinds;
    UnwrapsWhatWasWrapped(cfg.setting, sks, randoms, None, []);
    var pks := PublicKeys(cfg.setting.exchange, sks);
    var relays := Wrap(cfg.setting, pks, randoms, None);
    assert relays + [] == relays;
    ServeBehindRelays(cfg, sks, relays, FinalKey(cfg.setting, pks, randoms), [], allow0Rtt, sessions, serverRandom, r, padding, rest);
  }

  // 0-RTT.

  lemma ZeroRttIsServed(cfg: Config, aes: bool, sks: seq<SecretKey>, randoms: seq<bytes>, sessions: map<bytes, bytes>,
                        ticket: bytes, serverRandom: bytes, r: ServerRandoms, padding: bytes, rest: bytes)
    requires Lawful(cfg) && sks != [] && |randoms| == |sks| && |cfg.setting.iv| == IV_LENGTH
    requires |ticket| == TICKET_LENGTH && ticket in sessions
    ensures Admitted(cfg.setting.exchange, PublicKeys(cfg.setting.exchange, sks))
    ensures var pks := PublicKeys(cfg.setting.exchange, sks);
            var relays, nfsKey := Wrap(cfg.setting, pks, randoms, None), FinalKey(cfg.setting, pks, randoms);
            Serve(cfg, sks, true, sessions, serverRandom, r, padding, ZeroRttHello(cfg, aes, relays, nfsKey, ticket) + rest)
            == ServerZeroRtt(ZeroRttServer(cfg, aes, nfsKey, EncryptedTicket(cfg, aes, nfsKey, ticket), sessions[ticket], serverRandom),
                             ticket, nfsKey, rest)
  {
    OwnKeysAreAdmitted(cfg.setting.exchange, sks);
    var s, iv := cfg.setting.suite, cfg.setting.iv;
    var pks := PublicKeys(cfg.setting.exchange, sks);
    var relays, nfsKey := Wrap(cfg.setting, pks, randoms, None), FinalKey(cfg.setting, pks, randoms);
    var nfs := CipherFor(s, iv, nfsKey, aes);
    var length, sealed := SealNext(s, nfs, BE16(ENCRYPTED_TICKET_LENGTH)), EncryptedTicket(cfg, aes, nfsKey, ticket);
    hide Serve, Wrap, FinalKey, CipherFor, Sound, Separates, SealNext, OpenNext, ZeroRttServer, EncryptedTicket;
    var later := length + (sealed + rest);
    Regroup(iv, relays, length + sealed, rest);
    Assoc(length, sealed, rest);
    ServeReachesKey(cfg, sks, randoms, true, sessions, serverRandom, r, padding, later);
    TicketIsServed(cfg, aes, nfsKey, sessions, ticket, serverRandom, r, padding, rest);
  }

  lemma TicketIsServed(cfg: Config, aes: bool, nfsKey: bytes, sessions: map<bytes, bytes>,
                       ticket: bytes, serverRandom: bytes, r: ServerRandoms, padding: bytes, rest: bytes)
    requires Lawful(cfg) && |ticket| == TICKET_LENGTH && ticket in sessions
    ensures var s := cfg.setting.suite;
            var length := SealNext(s, CipherFor(s, cfg.setting.iv, nfsKey, aes), BE16(ENCRYPTED_TICKET_LENGTH));
            var sealed := EncryptedTicket(cfg, aes, nfsKey, ticket);
            ServeKeyed(cfg, nfsKey, true, sessions, serverRandom, r, padding, length + (sealed + rest))
            == ServerZeroRtt(ZeroRttServer(cfg, aes, nfsKey, sealed, sessions[ticket], serverRandom), ticket, nfsKey, rest)
  {
    var s := cfg.setting.suite;
    var nfs := CipherFor(s, cfg.setting.iv, nfsKey, aes);
    var length, sealed := SealNext(s, nfs, BE16(ENCRYPTED_TICKET_LENGTH)), EncryptedTicket(cfg, aes, nfsKey, ticket);
    SealedOpens(s, nfs, BE16(ENCRYPTED_TICKET_LENGTH));
    ChoosesClientCipher(s, cfg.setting.iv, nfsKey, aes, BE16(ENCRYPTED_TICKET_LENGTH));
    SealedOpens(s, Advanced(nfs), ticket);
    BE16RoundTrip(ENCRYPTED_TICKET_LENGTH);
    ReadsHead(length, sealed + rest);
    ReadsHead(sealed, rest);
  }

  // Links agree: what one end carries the other recovers.
  lemma CarriedIsRecovered(l: Link, w: bytes, a: bytes, b: bytes)
    requires l.Valid()
    requires l.Masked? ==> |a| <= l.half.skip
    ensures Carry(l, a + b) == a + Carry(AfterCarry(l, a), b)
    ensures l.Masked? ==> AfterCarry(l, a) == l.(half := l.half.(skip := l.half.skip - |a|))
  {
    CarryAppend(l, a, b);
    if l.Masked? {
      SkipPasses(l.ks, l.half, a);
    }
  }

  // Everything the client writes reaches the server, behind the hello.
  lemma ZeroRttUpload(cfg: Config, aes: bool, relays: bytes, nfsKey: bytes, ticket: bytes, pfsKey: bytes, serverRandom: bytes, xs: seq<bytes>)
    requires Lawful(cfg) && Flatten(xs) != []
    ensures var client := ZeroRttClient(cfg, aes, relays, nfsKey, ticket, pfsKey, serverRandom);
            var server := ZeroRttServer(cfg, aes, nfsKey, EncryptedTicket(cfg, aes, nfsKey, ticket), pfsKey, serverRandom);
            var hello := ZeroRttHello(cfg, aes, relays, nfsKey, ticket);
            var sent := Carry(client.out, WireAll(client.env, client.sender, xs));
            && hello <= sent
            && Pending(server.env, [], server.peer, Recover(server.inward, sent[|hello|..])) == Flatten(xs)
  {
    var client := ZeroRttClient(cfg, aes, relays, nfsKey, ticket, pfsKey, serverRandom);
    var server := ZeroRttServer(cfg, aes, nfsKey, EncryptedTicket(cfg, aes, nfsKey, ticket), pfsKey, serverRandom);
    var hello := ZeroRttHello(cfg, aes, relays, nfsKey, ticket);
    hide ZeroRttHello, EncryptedTicket, Sound, Separates, Agrees, WireAll, Receive;
    var w := WireAll(client.env, client.sender, xs);
    RepeatDiffers();
    PrefixedWritesAreReceived(client.env, client.sender, xs);
    var records := WireAll(client.env, client.sender.(pending := []), xs);
    assert w == hello + records && w[|hello|..] == records;
    CarriedIsRecovered(client.out, w, hello, records);
    assert AfterCarry(client.out, hello) == server.inward;
    CarryRecover(server.inward, records);
    assert (hello + Carry(server.inward, records))[|hello|..] == Carry(server.inward, records);
    PendingFromRecords(server.env, [], client.sender.cipher, records);
  }

  // Everything the server writes reaches the client, behind the server random.
  lemma ZeroRttDownload(cfg: Config, aes: bool, relays: bytes, nfsKey: bytes, ticket: bytes, pfsKey: bytes, serverRandom: bytes, xs: seq<bytes>)
    requires Lawful(cfg) && |serverRandom| == IV_LENGTH
    ensures var client := ZeroRttClient(cfg, aes, relays, nfsKey, ticket, pfsKey, serverRandom);
            var server := ZeroRttServer(cfg, aes, nfsKey, EncryptedTicket(cfg, aes, nfsKey, ticket), pfsKey, serverRandom);
            var sent := Carry(server.out, WireAll(server.env, server.sender, xs));
            Pending(client.env, [], client.peer, Recover(client.inward, sent)) == Flatten(xs)
  {
    var client := ZeroRttClient(cfg, aes, relays, nfsKey, ticket, pfsKey, serverRandom);
    var server := ZeroRttServer(cfg, aes, nfsKey, EncryptedTicket(cfg, aes, nfsKey, ticket), pfsKey, serverRandom);
    hide ZeroRttHello, EncryptedTicket, Sound, Separates, Agrees, Receive, Wire;
    var w := WireAll(server.env, server.sender, xs);
    CarryRecover(server.out, w);
    if Flatten(xs) == [] {
      NothingToWrite(server.env, server.sender, xs);
    } else {
      RepeatDiffers();
      PrefixedWritesAreReceived(server.env, server.sender, xs);
      var records := WireAll(server.env, server.sender.(pending := []), xs);
      assert w == serverRandom + records && w[..IV_LENGTH] == serverRandom && w[IV_LENGTH..] == records;
      PendingFromRecords(server.env, [], server.sender.cipher, records);
    }
  }

  lemma RepeatDiffers()
    ensures ZERO_NONCE != MAX_NONCE
  {
    assert ZERO_NONCE[0] != MAX_NONCE[0];
  }

  lemma {:induction false} NothingToWrite(env: Env, s: Sender, xs: seq<bytes>)
    requires Flatten(xs) == []
    ensures WireAll(env, s, xs) == []
    decreases |xs|
  {
    if xs != [] {
      assert xs[0] == [];
      NothingToWrite(env, s, xs[1..]);
    }
  }

  // 1-RTT.

  lemma OneRttIsServed(cfg: Config, aes: bool, sks: seq<SecretKey>, randoms: seq<bytes>, allow0Rtt: bool, sessions: map<bytes, bytes>,
                       keys: ClientKeys, clientPadding: bytes, serverRandom: bytes, r: ServerRandoms, padding: bytes, rest: bytes)
    requires Lawful(cfg) && sks != [] && |randoms| == |sks| && |cfg.setting.iv| == IV_LENGTH
    requires |clientPadding| + TAG_LENGTH < 0x10000
    ensures Admitted(cfg.setting.exchange, PublicKeys(cfg.setting.exchange, sks))
    ensures var pks := PublicKeys(cfg.setting.exchange, sks);
            var relays, nfsKey := Wrap(cfg.setting, pks, randoms, None), FinalKey(cfg.setting, pks, randoms);
            var p := PfsPublicKey(cfg.setting.exchange, keys);
            && |p| >= PFS_PUBLIC_KEY_LENGTH
            && Serve(cfg, sks, allow0Rtt, sessions, serverRandom, r, padding,
                     OneRttHello(cfg, aes, relays, nfsKey, p, clientPadding) + rest)
               == ServerOneRtt(OneRttServer(cfg, aes, nfsKey, p, r), OneRttServerHello(cfg, aes, nfsKey, p, r, padding),
                               ServerPfsKey(cfg.setting.exchange, p, r), rest)
  {
    PfsKeysAgree(cfg.setting.exchange, keys, r);
    OwnKeysAreAdmitted(cfg.setting.exchange, sks);
    var pks, p := PublicKeys(cfg.setting.exchange, sks), PfsPublicKey(cfg.setting.exchange, keys);
    var relays, nfsKey := Wrap(cfg.setting, pks, randoms, None), FinalKey(cfg.setting, pks, randoms);
    BlockOpens(cfg, aes, nfsKey, p);
    WholeKeysAreTaken(p, SealedKeys(cfg, aes, nfsKey, p), r.leftover);
    hide Serve, Wrap, FinalKey, Sound, Separates, Agrees, ServeKeyed, PfsPublicKey, CipherFor, SealNext, RelaysLength;
    hide TakenKeys, Offers, SealedKeys, KeyedHello, OneRttHello;
    OneRttHelloSplits(cfg, aes, relays, nfsKey, p, clientPadding, rest);
    ServeReachesKey(cfg, sks, randoms, allow0Rtt, sessions, serverRandom, r, padding, KeyedHello(cfg, aes, nfsKey, p, clientPadding, rest));
    KeysAreServed(cfg, aes, nfsKey, allow0Rtt, sessions, p, clientPadding, serverRandom, r, padding, rest);
  }

  // The client's hello behind the relays, followed by rest.
  function KeyedHello(cfg: Config, aes: bool, nfsKey: bytes, p: bytes, padding: bytes, rest: bytes): bytes {
    var s := cfg.setting.suite;
    var c0 := CipherFor(s, cfg.setting.iv, nfsKey, aes);
    SealNext(s, c0, BE16(|p| + TAG_LENGTH))
    + (SealNext(s, Advanced(c0), p)
       + (SealNext(s, Advanced(Advanced(c0)), BE16(|padding| + TAG_LENGTH))
          + (SealNext(s, Advanced(Advanced(Advanced(c0))), padding) + rest)))
  }

  lemma OneRttHelloSplits(cfg: Config, aes: bool, relays: bytes, nfsKey: bytes, p: bytes, padding: bytes, rest: bytes)
    ensures OneRttHello(cfg, aes, relays, nfsKey, p, padding) + rest
         == cfg.setting.iv + (relays + KeyedHello(cfg, aes, nfsKey, p, padding, rest))
  {
    hide CipherFor, SealNext;
    var s := cfg.setting.suite;
    var c0 := CipherFor(s, cfg.setting.iv, nfsKey, aes);
    var a, b := SealNext(s, c0, BE16(|p| + TAG_LENGTH)), SealNext(s, Advanced(c0), p);
    var c, d := SealNext(s, Advanced(Advanced(c0)), BE16(|padding| + TAG_LENGTH)), SealNext(s, Advanced(Advanced(Advanced(c0))), padding);
    Regroup(b, c, d, rest);
    Regroup(relays, a, b + (c + d), rest);
    Regroup(cfg.setting.iv, relays, a + (b + (c + d)), rest);
    assert (a + (b + (c + d))) + rest == a + ((b + (c + d)) + rest);
  }

  // A block p of keys of any length that passes the server's test, which asks
  // for 1136 sealed bytes: what it takes for the client's keys decides.
  lemma KeysAreServed(cfg: Config, aes: bool, nfsKey: bytes, allow0Rtt: bool, sessions: map<bytes, bytes>, p: bytes,
                      clientPadding: bytes, serverRandom: bytes, r: ServerRandoms, padding: bytes, rest: bytes)
    requires Lawful(cfg) && ENCRYPTED_PFS_PUBLIC_KEY_LENGTH <= |p| + TAG_LENGTH < 0x10000
    requires |clientPadding| + TAG_LENGTH < 0x10000
    ensures
      var taken := TakenKeys(p, SealedKeys(cfg, aes, nfsKey, p), r.leftover);
      ServeKeyed(cfg, nfsKey, allow0Rtt, sessions, serverRandom, r, padding, KeyedHello(cfg, aes, nfsKey, p, clientPadding, rest))
      == if Offers(cfg.setting.exchange, taken)
         then ServerOneRtt(OneRttServer(cfg, aes, nfsKey, taken, r), OneRttServerHello(cfg, aes, nfsKey, taken, r, padding),
                           ServerPfsKey(cfg.setting.exchange, taken, r), rest)
         else ServerFails
  {
    hide OneRttServer, OneRttServerHello, ServerPfsKey, PaddingOf, CipherFor, SealNext, OpenNext, Sound, Separates, BE16, FromBE16;
    hide TakenKeys, Offers;
    var s := cfg.setting.suite;
    var c0 := CipherFor(s, cfg.setting.iv, nfsKey, aes);
    var c1, c2, c3 := Advanced(c0), Advanced(Advanced(c0)), Advanced(Advanced(Advanced(c0)));
    var a, b := SealNext(s, c0, BE16(|p| + TAG_LENGTH)), SealNext(s, c1, p);
    var c, d := SealNext(s, c2, BE16(|clientPadding| + TAG_LENGTH)), SealNext(s, c3, clientPadding);
    SealedOpens(s, c0, BE16(|p| + TAG_LENGTH));
    SealedOpens(s, c1, p);
    ChoosesClientCipher(s, cfg.setting.iv, nfsKey, aes, BE16(|p| + TAG_LENGTH));
    BE16RoundTrip(|p| + TAG_LENGTH);
    ReadsHead(a, b + (c + (d + rest)));
    ReadsHead(b, c + (d + rest));
    PaddingIsSkipped(s, c2, clientPadding, rest);
  }

  // The block of the client's keys as it is sealed.
  function SealedKeys(cfg: Config, aes: bool, nfsKey: bytes, p: bytes): bytes {
    SealNext(cfg.setting.suite, Advanced(CipherFor(cfg.setting.suite, cfg.setting.iv, nfsKey, aes)), p)
  }

  // A block of 1216 sealed bytes with 1200 of keys: the hello is served, and
  // the last 16 bytes of the X25519 key exchanged with are the tag.
  lemma ShortKeysAreServed(nfsKey: bytes, iv: bytes, clientPadding: bytes, serverRandom: bytes, r: ServerRandoms, padding: bytes, rest: bytes)
    requires |clientPadding| + TAG_LENGTH < 0x10000
    ensures var cfg := Config(Setting(TagSuite(), EchoExchange(), iv, false), false);
            var p := Repeat(0, 1200);
            var taken := p + Tag(true);
            && |SealedKeys(cfg, true, nfsKey, p)| == 1216
            && TakenKeys(p, SealedKeys(cfg, true, nfsKey, p), r.leftover) == taken
            && ServeKeyed(cfg, nfsKey, false, map[], serverRandom, r, padding, KeyedHello(cfg, true, nfsKey, p, clientPadding, rest))
               == ServerOneRtt(OneRttServer(cfg, true, nfsKey, taken, r), OneRttServerHello(cfg, true, nfsKey, taken, r, padding),
                               ServerPfsKey(EchoExchange(), taken, r), rest)
  {
    var cfg := Config(Setting(TagSuite(), EchoExchange(), iv, false), false);
    var p := Repeat(0, 1200);
    TagSuiteLaws();
    EchoExchangeAgrees();
    hide ServeKeyed, KeyedHello, OneRttServer, OneRttServerHello, ServerPfsKey, CipherFor, TakenKeys;
    KeysAreServed(cfg, true, nfsKey, false, map[], p, clientPadding, serverRandom, r, padding, rest);
    var encrypted := SealedKeys(cfg, true, nfsKey, p);
    CipherIsAes(TagSuite(), iv, nfsKey);
    assert encrypted == p + Tag(true);
    SealedKeysAreTaken(p, encrypted);
    assert encrypted[|p|..PFS_PUBLIC_KEY_LENGTH] == Tag(true);
  }

  lemma CipherIsAes(s: Suite, iv: bytes, nfsKey: bytes)
    ensures Advanced(CipherFor(s, iv, nfsKey, true)).key.aes
  {
  }

  lemma BlockOpens(cfg: Config, aes: bool, nfsKey: bytes, p: bytes)
    requires Lawful(cfg)
    ensures |SealedKeys(cfg, aes, nfsKey, p)| == |p| + TAG_LENGTH
  {
  }

  lemma PaddingIsSkipped(s: Suite, c: Cipher, padding: bytes, rest: bytes)
    requires Sound(s) && |padding| + TAG_LENGTH < 0x10000
    ensures var sealed := SealNext(s, Advanced(c), padding);
            PaddingOf(s, c, SealNext(s, c, BE16(|padding| + TAG_LENGTH)) + (sealed + rest)) == Split.Split(sealed, rest)
  {
    hide SealNext, OpenNext, BE16, FromBE16;
    var length, sealed := SealNext(s, c, BE16(|padding| + TAG_LENGTH)), SealNext(s, Advanced(c), padding);
    SealedOpens(s, c, BE16(|padding| + TAG_LENGTH));
    SealedOpens(s, Advanced(c), padding);
    BE16RoundTrip(|padding| + TAG_LENGTH);
    ReadsHead(length, sealed + rest);
    ReadsHead(sealed, rest);
  }

  // The client's end after a 1-RTT handshake with padding of n bytes to come.
  function OneRttClientEnd(cfg: Config, aes: bool, nfsKey: bytes, keys: ClientKeys, r: ServerRandoms, n: nat): End
    requires |PfsPublicKey(cfg.setting.exchange, keys)| >= PFS_PUBLIC_KEY_LENGTH
  {
    var x, p := cfg.setting.exchange, PfsPublicKey(cfg.setting.exchange, keys);
    var env := Env(cfg.setting.suite, ServerPfsKey(x, p, r) + nfsKey, aes);
    End(env, Sender([], NewCipher(env, p)),
        MaskedFrom(cfg, env.united, cfg.setting.iv, 0),
        Peer(Some(Advanced(Advanced(NewCipher(env, PfsReply(x, p, r))))), Some(n)),
        MaskedFrom(cfg, env.united, r.ticket, n))
  }

  // What the server's hello leaves to be read after the handshake.
  function SealedPadding(cfg: Config, aes: bool, nfsKey: bytes, p: bytes, r: ServerRandoms, padding: bytes): bytes
    requires |p| >= PFS_PUBLIC_KEY_LENGTH
  {
    var x := cfg.setting.exchange;
    var env := Env(cfg.setting.suite, ServerPfsKey(x, p, r) + nfsKey, aes);
    SealNext(env.suite, Advanced(Advanced(NewCipher(env, PfsReply(x, p, r)))), padding)
  }

  lemma OneRttIsCompleted(cfg: Config, aes: bool, nfsKey: bytes, keys: ClientKeys, r: ServerRandoms, padding: bytes, later: bytes)
    requires Lawful(cfg) && |r.ticket| == TICKET_LENGTH && |padding| + TAG_LENGTH < 0x10000
    ensures var x, p := cfg.setting.exchange, PfsPublicKey(cfg.setting.exchange, keys);
            && |p| >= PFS_PUBLIC_KEY_LENGTH
            && OneRttClient(cfg, aes, nfsKey, keys, OneRttServerHello(cfg, aes, nfsKey, p, r, padding) + later)
               == ClientDone(OneRttClientEnd(cfg, aes, nfsKey, keys, r, |padding| + TAG_LENGTH), r.ticket, ServerPfsKey(x, p, r),
                             SealedPadding(cfg, aes, nfsKey, p, r, padding) + later)
  {
    var s, x, p := cfg.setting.suite, cfg.setting.exchange, PfsPublicKey(cfg.setting.exchange, keys);
    PfsKeysAgree(x, keys, r);
    var env, reply := Env(s, ServerPfsKey(x, p, r) + nfsKey, aes), PfsReply(x, p, r);
    hide PfsPublicKey, ServerPfsKey, PfsReply, ClientPfsKey, Agrees, Separates, MaskedFrom, OneRttClientTicket, BE16;
    var nfs, c0 := CipherFor(s, cfg.setting.iv, nfsKey, aes), NewCipher(env, reply);
    var a, b := s.seal(nfs.key, MAX_NONCE, [], reply), SealNext(s, c0, r.ticket);
    var c, d := SealNext(s, Advanced(c0), BE16(|padding| + TAG_LENGTH)), SealNext(s, Advanced(Advanced(c0)), padding);
    assert |a| == ENCRYPTED_PFS_PUBLIC_KEY_LENGTH && s.open(nfs.key, MAX_NONCE, [], a) == Some(reply);
    assert reply[..PFS_REPLY_LENGTH] == reply;
    hide Sound, SealNext, CipherFor, NewCipher;
    Regroup(a, b, c + d, later);
    assert (c + d) + later == c + (d + later);
    ReadsHead(a, b + (c + (d + later)));
    TicketIsRead(cfg, env, keys, c0, ServerPfsKey(x, p, r), r.ticket, |padding| + TAG_LENGTH, d + later);
  }

  lemma TicketIsRead(cfg: Config, env: Env, keys: ClientKeys, peer: Cipher, pfsKey: bytes, ticket: bytes, n: nat, later: bytes)
    requires Sound(env.suite) && |ticket| == TICKET_LENGTH && n < 0x10000
    ensures OneRttClientTicket(cfg, env, keys, peer, pfsKey,
                               SealNext(env.suite, peer, ticket) + (SealNext(env.suite, Advanced(peer), BE16(n)) + later))
         == ClientDone(End(env, Sender([], NewCipher(env, PfsPublicKey(cfg.setting.exchange, keys))),
                           MaskedFrom(cfg, env.united, cfg.setting.iv, 0),
                           Peer(Some(Advanced(Advanced(peer))), Some(n)),
                           MaskedFrom(cfg, env.united, ticket, n)),
                       ticket, pfsKey, later)
  {
    hide SealNext, OpenNext, NewCipher, MaskedFrom, PfsPublicKey, BE16, FromBE16;
    SealedOpens(env.suite, peer, ticket);
    SealedOpens(env.suite, Advanced(peer), BE16(n));
    BE16RoundTrip(n);
    ReadsHead(SealNext(env.suite, peer, ticket), SealNext(env.suite, Advanced(peer), BE16(n)) + later);
    ReadsHead(SealNext(env.suite, Advanced(peer), BE16(n)), later);
  }

  lemma OneRttUpload(cfg: Config, aes: bool, nfsKey: bytes, keys: ClientKeys, r: ServerRandoms, n: nat, xs: seq<bytes>)
    requires Lawful(cfg)
    ensures var p := PfsPublicKey(cfg.setting.exchange, keys);
            && |p| >= PFS_PUBLIC_KEY_LENGTH
            && var client, server := OneRttClientEnd(cfg, aes, nfsKey, keys, r, n), OneRttServer(cfg, aes, nfsKey, p, r);
               var sent := Carry(client.out, WireAll(client.env, client.sender, xs));
               Pending(server.env, [], server.peer, Recover(server.inward, sent)) == Flatten(xs)
  {
    var p := PfsPublicKey(cfg.setting.exchange, keys);
    PfsKeysAgree(cfg.setting.exchange, keys, r);
    var client, server := OneRttClientEnd(cfg, aes, nfsKey, keys, r, n), OneRttServer(cfg, aes, nfsKey, p, r);
    hide PfsPublicKey, ServerPfsKey, PfsReply, Agrees, Separates, Sound, Receive, WireAll;
    assert p[..PFS_PUBLIC_KEY_LENGTH] == p;
    var w := WireAll(client.env, client.sender, xs);
    CarryRecover(client.out, w);
    WritesAreReceived(client.env, client.sender.cipher, xs);
    PendingFromRecords(server.env, [], client.sender.cipher, w);
  }

  // The padding is skipped by the client's automaton and opened by its cipher,
  // which then stands where the server's stands.
  lemma OneRttDownload(cfg: Config, aes: bool, nfsKey: bytes, keys: ClientKeys, r: ServerRandoms, padding: bytes, xs: seq<bytes>)
    requires Lawful(cfg)
    ensures var p := PfsPublicKey(cfg.setting.exchange, keys);
            && |p| >= PFS_PUBLIC_KEY_LENGTH
            && var client, server := OneRttClientEnd(cfg, aes, nfsKey, keys, r, |padding| + TAG_LENGTH), OneRttServer(cfg, aes, nfsKey, p, r);
               var sent := SealedPadding(cfg, aes, nfsKey, p, r, padding) + Carry(server.out, WireAll(server.env, server.sender, xs));
               Pending(client.env, [], client.peer, Recover(client.inward, sent)) == Flatten(xs)
  {
    var p := PfsPublicKey(cfg.setting.exchange, keys);
    PfsKeysAgree(cfg.setting.exchange, keys, r);
    var client, server := OneRttClientEnd(cfg, aes, nfsKey, keys, r, |padding| + TAG_LENGTH), OneRttServer(cfg, aes, nfsKey, p, r);
    var sealed := SealedPadding(cfg, aes, nfsKey, p, r, padding);
    SealedOpens(client.env.suite, client.peer.cipher.value, padding);
    hide PfsPublicKey, ServerPfsKey, PfsReply, Agrees, Separates, Sound, Receive, WireAll, Recover, Carry;
    var w := WireAll(server.env, server.sender, xs);
    SkippedPrefix(client.inward, server.out, sealed, w);
    assert (sealed + w)[..|sealed|] == sealed && (sealed + w)[|sealed|..] == w;
    WritesAreReceived(server.env, server.sender.cipher, xs);
    PendingFromRecords(server.env, [], server.sender.cipher, w);
  }

  // Bytes that the inward automaton skips are read as they are, and then what
  // the other end carries from its start.
  lemma SkippedPrefix(inward: Link, out: Link, sealed: bytes, w: bytes)
    requires inward.Valid() && out.Valid()
    requires if inward.Bare? then out.Bare? else inward.half.skip == |sealed| && out == inward.(half := inward.half.(skip := 0))
    ensures Recover(inward, sealed + Carry(out, w)) == sealed + w
  {
    CarriedIsRecovered(inward, [], sealed, w);
    CarryRecover(inward, sealed + w);
  }

  // The client's four hello nonces and the server's one, all under one key,
  // are five different values.
  lemma HelloNoncesDiffer()
    ensures var n1 := Next(ZERO_NONCE);
            var n2 := Next(n1);
            var n3 := Next(n2);
            var n4 := Next(n3);
            |{n1, n2, n3, n4, MAX_NONCE}| == 5
  {
    var n1 := Next(ZERO_NONCE);
    var n2 := Next(n1);
    var n3 := Next(n2);
    var n4 := Next(n3);
    RepeatValue(NONCE_LENGTH);
    assert Pow256(1) == 256;
    assert Pow256(NONCE_LENGTH) >= 256;
    NextAddsOne(ZERO_NONCE);
    NextAddsOne(n1);
    NextAddsOne(n2);
    NextAddsOne(n3);
    assert Value(n1) == 1 && Value(n2) == 2 && Value(n3) == 3 && Value(n4) == 4;
    assert |{n1, n2}| == 2 && |{n1, n2, n3}| == 3 && |{n1, n2, n3, n4}| == 4;
  }
}
