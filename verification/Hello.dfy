// vless/encryption/client.go and service.go: what a handshake asks of the bytes
// it reads, at fixed offsets.
module Hello {
  import opened Bytes
  import opened CommonConn
  import opened Crypto
  import opened H = Handshake
  import opened Nonce
  import opened Record
  import opened Relay

  // The plaintext of x as the n-th block sealed under a key.
  function Block(s: Suite, context: bytes, key: bytes, aes: bool, n: byte, x: bytes): Option<bytes> {
    s.open(CipherKey(s.derive(context, key), aes), [0, 0, 0, 0, 0, 0, 0, 0, 0, 0, 0, n], [], x)
  }

  lemma BlocksAreCounted(s: Suite, context: bytes, key: bytes, aes: bool, x: bytes)
    ensures var c := CipherFor(s, context, key, aes);
            && c.key == CipherKey(s.derive(context, key), aes)
            && OpenNext(s, c, x) == Block(s, context, key, aes, 1, x)
            && OpenNext(s, Advanced(c), x) == Block(s, context, key, aes, 2, x)
            && OpenNext(s, Advanced(Advanced(c)), x) == Block(s, context, key, aes, 3, x)
            && OpenNext(s, Advanced(Advanced(Advanced(c))), x) == Block(s, context, key, aes, 4, x)
  {
    var n0: bytes := [0, 0, 0, 0, 0, 0, 0, 0, 0, 0, 0, 0];
    var n1: bytes := [0, 0, 0, 0, 0, 0, 0, 0, 0, 0, 0, 1];
    var n2: bytes := [0, 0, 0, 0, 0, 0, 0, 0, 0, 0, 0, 2];
    var n3: bytes := [0, 0, 0, 0, 0, 0, 0, 0, 0, 0, 0, 3];
    assert ZERO_NONCE == n0;
    assert Next(n0) == n1;
    assert Next(n1) == n2;
    assert Next(n2) == n3;
    var n4: bytes := [0, 0, 0, 0, 0, 0, 0, 0, 0, 0, 0, 4];
    assert Next(n3) == n4;
  }

  // The cipher and the length that the first 18 bytes behind the relays
  // announce: under ChaCha20 only if they do not open under AES.
  predicate Announces(s: Suite, iv: bytes, nfsKey: bytes, aes: bool, length: nat, d: bytes) {
    && |d| >= 18
    && (!aes ==> Block(s, iv, nfsKey, true, 1, d[..18]) == None)
    && var plain := Block(s, iv, nfsKey, aes, 1, d[..18]);
       plain.Some? && |plain.value| >= 2 && length == FromBE16(plain.value)
  }

  // A hello that resumes: an announcement of 32 bytes, and in them a ticket.
  predicate BringsTicket(cfg: Config, nfsKey: bytes, aes: bool, ticket: bytes, d: bytes) {
    var s, iv := cfg.setting.suite, cfg.setting.iv;
    Announces(s, iv, nfsKey, aes, 32, d) && |d| >= 50 && Block(s, iv, nfsKey, aes, 2, d[18..50]) == Some(ticket)
  }

  // A hello with keys of its own: an announcement of at least 1136 bytes, and
  // in them keys that the exchanges accept.
  predicate BringsKeys(cfg: Config, nfsKey: bytes, aes: bool, length: nat, leftover: bytes, p: bytes, d: bytes) {
    var s, iv := cfg.setting.suite, cfg.setting.iv;
    && Announces(s, iv, nfsKey, aes, length, d) && 1136 <= length <= |d| - 18
    && var plain := Block(s, iv, nfsKey, aes, 2, d[18..18 + length]);
       plain.Some? && p == TakenKeys(plain.value, d[18..18 + length], leftover)
       && cfg.setting.exchange.admits(MLKEM, p[..1184]) && cfg.setting.exchange.admits(X25519, p[1184..])
  }

  // Behind the keys: the padding's length, and the padding, which opens.
  predicate BringsPadding(cfg: Config, nfsKey: bytes, aes: bool, size: nat, d: bytes) {
    var s, iv := cfg.setting.suite, cfg.setting.iv;
    && |d| >= 18 + size
    && var plain := Block(s, iv, nfsKey, aes, 3, d[..18]);
       plain.Some? && |plain.value| >= 2 && size == FromBE16(plain.value)
       && Block(s, iv, nfsKey, aes, 4, d[18..18 + size]).Some?
  }

  // A whole hello with keys.
  predicate BringsAll(cfg: Config, nfsKey: bytes, aes: bool, length: nat, size: nat, leftover: bytes, p: bytes, d: bytes) {
    BringsKeys(cfg, nfsKey, aes, length, leftover, p, d) && BringsPadding(cfg, nfsKey, aes, size, d[18 + length..])
  }

  // What a hello asks for: nothing that can be served, a session to be resumed,
  // or a new one with the client's keys. leftover is what lies behind the
  // server's buffer for them.
  datatype Request = Nothing | Resume(aes: bool, ticket: bytes) | Start(aes: bool, keys: bytes)

  function Requested(cfg: Config, nfsKey: bytes, allow0Rtt: bool, leftover: bytes, d: bytes): (q: Request)
    ensures q.Start? ==> |q.keys| == PFS_PUBLIC_KEY_LENGTH
  {
    var s, iv := cfg.setting.suite, cfg.setting.iv;
    match ReadN(d, ENCRYPTED_LENGTH_SIZE)
    case Short => Nothing
    case Split(encryptedLength, d1) =>
      match ChooseCipher(s, iv, nfsKey, encryptedLength)
      case NoCipher => Nothing
      case Choice(aes, plain) =>
        if |plain| < 2 then Nothing
        else
          var length, nfs := FromBE16(plain), Advanced(CipherFor(s, iv, nfsKey, aes));
          if length == ENCRYPTED_TICKET_LENGTH then
            var ticket := TicketOf(s, nfs, d1);
            if allow0Rtt && ticket.Some? then Resume(aes, ticket.value) else Nothing
          else if length < ENCRYPTED_PFS_PUBLIC_KEY_LENGTH then Nothing
          else
            var keys := OfferedKeys(cfg, nfs, length, leftover, d1);
            if keys.Some? then Start(aes, keys.value) else Nothing
  }

  // It asks to resume exactly when that is allowed and it brings a ticket, and
  // for a new session exactly when it brings keys.
  lemma RequestedExactly(cfg: Config, nfsKey: bytes, allow0Rtt: bool, leftover: bytes, d: bytes)
    ensures var q := Requested(cfg, nfsKey, allow0Rtt, leftover, d);
            && (forall aes, ticket :: q == Resume(aes, ticket) <==> allow0Rtt && BringsTicket(cfg, nfsKey, aes, ticket, d))
            && (forall aes, p :: q == Start(aes, p) <==> exists length :: BringsKeys(cfg, nfsKey, aes, length, leftover, p, d))
  {
    hide CipherFor, ChooseCipher, OpenNext, Block, OfferedKeys, Advanced, TakenKeys;
    var s, iv := cfg.setting.suite, cfg.setting.iv;
    if |d| >= 18 {
      AnnouncementIsChosen(cfg, nfsKey, d);
      var chosen := ChooseCipher(s, iv, nfsKey, d[..18]);
      if chosen.Choice? && |chosen.plain| >= 2 {
        var length: nat := FromBE16(chosen.plain);
        forall aes, length' | Announces(s, iv, nfsKey, aes, length', d) ensures aes == chosen.aes && length' == length {
          OneAnnouncement(s, iv, nfsKey, aes, length', chosen.aes, length, d);
        }
        if |d| >= 50 {
          BlocksAreCounted(s, iv, nfsKey, chosen.aes, d[18..50]);
          assert d[18..][..32] == d[18..50];
        }
        if length >= 1136 {
          KeysAreOffered(cfg, chosen.aes, nfsKey, length, leftover, d);
        }
      }
    }
  }

  lemma KeysAreOffered(cfg: Config, aes: bool, nfsKey: bytes, length: nat, leftover: bytes, d: bytes)
    requires Announces(cfg.setting.suite, cfg.setting.iv, nfsKey, aes, length, d) && length >= 1136
    ensures var nfs := Advanced(CipherFor(cfg.setting.suite, cfg.setting.iv, nfsKey, aes));
            forall p :: OfferedKeys(cfg, nfs, length, leftover, d[18..]) == Some(p)
                        <==> BringsKeys(cfg, nfsKey, aes, length, leftover, p, d)
  {
    hide CipherFor, OpenNext, Block, Advanced, TakenKeys;
    if |d| >= 18 + length {
      BlocksAreCounted(cfg.setting.suite, cfg.setting.iv, nfsKey, aes, d[18..18 + length]);
      assert d[18..][..length] == d[18..18 + length];
      forall p: bytes | |p| == PFS_PUBLIC_KEY_LENGTH ensures p[1184..] == p[1184..PFS_PUBLIC_KEY_LENGTH] {
      }
    }
  }

  // A hello announces one thing at most.
  lemma OneAnnouncement(s: Suite, iv: bytes, nfsKey: bytes, aes: bool, length: nat, aes': bool, length': nat, d: bytes)
    requires Announces(s, iv, nfsKey, aes, length, d) && Announces(s, iv, nfsKey, aes', length', d)
    ensures aes == aes' && length == length'
  {
  }

  lemma AnnouncementIsChosen(cfg: Config, nfsKey: bytes, d: bytes)
    requires |d| >= 18
    ensures var r := ChooseCipher(cfg.setting.suite, cfg.setting.iv, nfsKey, d[..18]);
            && (r.Choice? && |r.plain| >= 2 ==>
                  Announces(cfg.setting.suite, cfg.setting.iv, nfsKey, r.aes, FromBE16(r.plain), d))
            && (r.NoCipher? || |r.plain| < 2 ==>
                  forall aes, length :: !Announces(cfg.setting.suite, cfg.setting.iv, nfsKey, aes, length, d))
  {
    BlocksAreCounted(cfg.setting.suite, cfg.setting.iv, nfsKey, true, d[..18]);
    BlocksAreCounted(cfg.setting.suite, cfg.setting.iv, nfsKey, false, d[..18]);
  }

  // The server resumes exactly when that is allowed and the hello brings a
  // ticket it knows.
  lemma ResumedExactly(cfg: Config, nfsKey: bytes, allow0Rtt: bool, sessions: map<bytes, bytes>,
                       serverRandom: bytes, r: ServerRandoms, padding: bytes, d: bytes)
    ensures var s := ServeKeyed(cfg, nfsKey, allow0Rtt, sessions, serverRandom, r, padding, d);
            && (s.ServerZeroRtt? <==>
                  allow0Rtt && exists aes, ticket :: BringsTicket(cfg, nfsKey, aes, ticket, d) && ticket in sessions)
            && (s.ServerZeroRtt? ==>
                  BringsTicket(cfg, nfsKey, s.end.env.aes, s.ticket, d) && s.ticket in sessions && s.nfsKey == nfsKey
                  && s.rest == d[50..]
                  && s.end == ZeroRttServer(cfg, s.end.env.aes, nfsKey, d[18..50], sessions[s.ticket], serverRandom))
  {
    hide CipherFor, ChooseCipher, OpenNext, Block, H.ServeKeys, H.ServeTicket, Advanced, NewCipher, MaskedFrom;
    var suite, iv := cfg.setting.suite, cfg.setting.iv;
    if |d| >= 18 {
      AnnouncementIsChosen(cfg, nfsKey, d);
      var chosen := ChooseCipher(suite, iv, nfsKey, d[..18]);
      if chosen.Choice? && |chosen.plain| >= 2 {
        TicketIsTaken(cfg, chosen.aes, nfsKey, sessions, serverRandom, d);
        assert Announces(suite, iv, nfsKey, chosen.aes, FromBE16(chosen.plain), d);
        KeysDoNotResume(cfg, chosen.aes, nfsKey, FromBE16(chosen.plain), r, padding, d[18..]);
        var s := ServeKeyed(cfg, nfsKey, allow0Rtt, sessions, serverRandom, r, padding, d);
        if s.ServerZeroRtt? {
          assert BringsTicket(cfg, nfsKey, chosen.aes, s.ticket, d);
        }
        if allow0Rtt && exists aes, ticket :: BringsTicket(cfg, nfsKey, aes, ticket, d) && ticket in sessions {
          var aes, ticket :| BringsTicket(cfg, nfsKey, aes, ticket, d) && ticket in sessions;
          OneAnnouncement(suite, iv, nfsKey, aes, 32, chosen.aes, FromBE16(chosen.plain), d);
          assert s.ServerZeroRtt?;
        }
      }
    }
  }

  // The server makes a new session exactly when the hello brings keys and
  // padding.
  lemma StartedExactly(cfg: Config, nfsKey: bytes, allow0Rtt: bool, sessions: map<bytes, bytes>,
                       serverRandom: bytes, r: ServerRandoms, padding: bytes, d: bytes)
    ensures var s := ServeKeyed(cfg, nfsKey, allow0Rtt, sessions, serverRandom, r, padding, d);
            && (s.ServerOneRtt? <==> exists aes, length, size, p :: BringsAll(cfg, nfsKey, aes, length, size, r.leftover, p, d))
            && forall aes, length, size, p :: BringsAll(cfg, nfsKey, aes, length, size, r.leftover, p, d) ==>
                 && |p| == PFS_PUBLIC_KEY_LENGTH
                 && s == ServerOneRtt(OneRttServer(cfg, aes, nfsKey, p, r), OneRttServerHello(cfg, aes, nfsKey, p, r, padding),
                                      ServerPfsKey(cfg.setting.exchange, p, r), d[18 + length..][18 + size..])
  {
    hide CipherFor, ChooseCipher, OpenNext, Block, H.ServeKeys, H.ServeTicket, ServePadding, ServeKeyed, Advanced, TakenKeys, Offers;
    var suite, iv := cfg.setting.suite, cfg.setting.iv;
    var s := ServeKeyed(cfg, nfsKey, allow0Rtt, sessions, serverRandom, r, padding, d);
    forall aes, length, size, p | BringsAll(cfg, nfsKey, aes, length, size, r.leftover, p, d)
      ensures |p| == PFS_PUBLIC_KEY_LENGTH
      ensures s == ServerOneRtt(OneRttServer(cfg, aes, nfsKey, p, r), OneRttServerHello(cfg, aes, nfsKey, p, r, padding),
                                ServerPfsKey(cfg.setting.exchange, p, r), d[18 + length..][18 + size..])
    {
      BroughtIsServed(cfg, nfsKey, allow0Rtt, sessions, serverRandom, r, padding, aes, length, size, p, d);
    }
    if s.ServerOneRtt? {
      var aes, length, size, p := ServedWasBrought(cfg, nfsKey, allow0Rtt, sessions, serverRandom, r, padding, d);
    }
  }

  lemma BroughtIsServed(cfg: Config, nfsKey: bytes, allow0Rtt: bool, sessions: map<bytes, bytes>, serverRandom: bytes,
                        r: ServerRandoms, padding: bytes, aes: bool, length: nat, size: nat, p: bytes, d: bytes)
    requires BringsAll(cfg, nfsKey, aes, length, size, r.leftover, p, d)
    ensures |p| == PFS_PUBLIC_KEY_LENGTH
    ensures ServeKeyed(cfg, nfsKey, allow0Rtt, sessions, serverRandom, r, padding, d)
         == ServerOneRtt(OneRttServer(cfg, aes, nfsKey, p, r), OneRttServerHello(cfg, aes, nfsKey, p, r, padding),
                         ServerPfsKey(cfg.setting.exchange, p, r), d[18 + length..][18 + size..])
  {
    hide CipherFor, ChooseCipher, OpenNext, Block, H.ServeKeys, H.ServeTicket, PaddingOf, Advanced, BringsPadding, TakenKeys;
    hide OneRttServer, OneRttServerHello, ServerPfsKey;
    AnnouncementIsChosen(cfg, nfsKey, d);
    var chosen := ChooseCipher(cfg.setting.suite, cfg.setting.iv, nfsKey, d[..18]);
    OneAnnouncement(cfg.setting.suite, cfg.setting.iv, nfsKey, aes, length, chosen.aes, FromBE16(chosen.plain), d);
    assert p[1184..] == p[1184..PFS_PUBLIC_KEY_LENGTH];
    KeysAreTaken(cfg, aes, nfsKey, length, r, padding, d);
    PaddingIsRead(cfg, aes, nfsKey, d[18 + length..]);
  }

  lemma ServedWasBrought(cfg: Config, nfsKey: bytes, allow0Rtt: bool, sessions: map<bytes, bytes>, serverRandom: bytes,
                         r: ServerRandoms, padding: bytes, d: bytes)
    returns (aes: bool, length: nat, size: nat, p: bytes)
    requires ServeKeyed(cfg, nfsKey, allow0Rtt, sessions, serverRandom, r, padding, d).ServerOneRtt?
    ensures BringsAll(cfg, nfsKey, aes, length, size, r.leftover, p, d)
  {
    hide CipherFor, ChooseCipher, OpenNext, Block, H.ServeKeys, H.ServeTicket, PaddingOf, Advanced, BringsPadding, TakenKeys;
    hide OneRttServer, OneRttServerHello, ServerPfsKey;
    AnnouncementIsChosen(cfg, nfsKey, d);
    var chosen := ChooseCipher(cfg.setting.suite, cfg.setting.iv, nfsKey, d[..18]);
    aes, length := chosen.aes, FromBE16(chosen.plain);
    if length == 32 {
      TicketIsTaken(cfg, aes, nfsKey, sessions, serverRandom, d);
    }
    if |d| < 18 + length {
      OthersAreNotTaken(cfg, aes, nfsKey, length, r, padding, d);
    }
    var plain := Block(cfg.setting.suite, cfg.setting.iv, nfsKey, aes, 2, d[18..18 + length]);
    if plain.None? || !Offers(cfg.setting.exchange, TakenKeys(plain.value, d[18..18 + length], r.leftover)) {
      OthersAreNotTaken(cfg, aes, nfsKey, length, r, padding, d);
    }
    p := TakenKeys(plain.value, d[18..18 + length], r.leftover);
    KeysAreTaken(cfg, aes, nfsKey, length, r, padding, d);
    PaddingIsRead(cfg, aes, nfsKey, d[18 + length..]);
    size :| BringsPadding(cfg, nfsKey, aes, size, d[18 + length..]);
    assert p[1184..] == p[1184..PFS_PUBLIC_KEY_LENGTH];
  }

  // What the server makes of what follows an announcement of keys.
  lemma KeysAreTaken(cfg: Config, aes: bool, nfsKey: bytes, length: nat, r: ServerRandoms, padding: bytes, d: bytes)
    requires |d| >= 18 + length
    requires var plain := Block(cfg.setting.suite, cfg.setting.iv, nfsKey, aes, 2, d[18..18 + length]);
             plain.Some? && Offers(cfg.setting.exchange, TakenKeys(plain.value, d[18..18 + length], r.leftover))
    ensures var nfs := Advanced(CipherFor(cfg.setting.suite, cfg.setting.iv, nfsKey, aes));
            var s := H.ServeKeys(cfg, aes, nfsKey, nfs, length, r, padding, d[18..]);
            var p := TakenKeys(Block(cfg.setting.suite, cfg.setting.iv, nfsKey, aes, 2, d[18..18 + length]).value,
                               d[18..18 + length], r.leftover);
            s == ServePadding(cfg, aes, nfsKey, Advanced(nfs), p, r, padding, d[18 + length..])
  {
    hide CipherFor, OpenNext, Block, Advanced, ServePadding, TakenKeys, Offers;
    BlocksAreCounted(cfg.setting.suite, cfg.setting.iv, nfsKey, aes, d[18..18 + length]);
    assert d[18..][..length] == d[18..18 + length] && d[18..][length..] == d[18 + length..];
  }

  lemma OthersAreNotTaken(cfg: Config, aes: bool, nfsKey: bytes, length: nat, r: ServerRandoms, padding: bytes, d: bytes)
    requires |d| >= 18
    requires |d| >= 18 + length ==>
               var plain := Block(cfg.setting.suite, cfg.setting.iv, nfsKey, aes, 2, d[18..18 + length]);
               plain.Some? ==> !Offers(cfg.setting.exchange, TakenKeys(plain.value, d[18..18 + length], r.leftover))
    ensures var nfs := Advanced(CipherFor(cfg.setting.suite, cfg.setting.iv, nfsKey, aes));
            H.ServeKeys(cfg, aes, nfsKey, nfs, length, r, padding, d[18..]) == ServerFails
  {
    hide CipherFor, OpenNext, Block, Advanced, ServePadding, TakenKeys, Offers;
    if |d| >= 18 + length {
      BlocksAreCounted(cfg.setting.suite, cfg.setting.iv, nfsKey, aes, d[18..18 + length]);
      assert d[18..][..length] == d[18..18 + length];
    }
  }

  // The padding is read to its end exactly when it is there and opens.
  lemma PaddingIsRead(cfg: Config, aes: bool, nfsKey: bytes, d: bytes)
    ensures var c := Advanced(Advanced(CipherFor(cfg.setting.suite, cfg.setting.iv, nfsKey, aes)));
            var s := PaddingOf(cfg.setting.suite, c, d);
            && (s.Split? <==> exists size :: BringsPadding(cfg, nfsKey, aes, size, d))
            && forall size :: BringsPadding(cfg, nfsKey, aes, size, d) ==> s.Split? && s.tail == d[18 + size..]
  {
    hide CipherFor, OpenNext, Block, Advanced;
    var suite, iv := cfg.setting.suite, cfg.setting.iv;
    if |d| >= 18 {
      BlocksAreCounted(suite, iv, nfsKey, aes, d[..18]);
      var plain := Block(suite, iv, nfsKey, aes, 3, d[..18]);
      if plain.Some? && |plain.value| >= 2 && |d| >= 18 + FromBE16(plain.value) {
        var size: nat := FromBE16(plain.value);
        BlocksAreCounted(suite, iv, nfsKey, aes, d[18..18 + size]);
        assert d[18..][..size] == d[18..18 + size] && d[18..][size..] == d[18 + size..];
        assert BringsPadding(cfg, nfsKey, aes, size, d) <==> Block(suite, iv, nfsKey, aes, 4, d[18..18 + size]).Some?;
      }
    }
  }

  lemma KeysDoNotResume(cfg: Config, aes: bool, nfsKey: bytes, length: nat, r: ServerRandoms, padding: bytes, d: bytes)
    ensures !H.ServeKeys(cfg, aes, nfsKey, Advanced(CipherFor(cfg.setting.suite, cfg.setting.iv, nfsKey, aes)), length, r, padding, d)
               .ServerZeroRtt?
  {
  }

  // Serve is the reading of the relays and then that of what follows them.
  lemma ServedBehindRelays(cfg: Config, sks: seq<SecretKey>, allow0Rtt: bool, sessions: map<bytes, bytes>,
                           serverRandom: bytes, r: ServerRandoms, padding: bytes, d: bytes)
    requires sks != []
    ensures var reached := Reached(cfg, sks, d);
            Serve(cfg, sks, allow0Rtt, sessions, serverRandom, r, padding, d)
            == if reached.None? then ServerFails
               else ServeKeyed(reached.value.0, reached.value.1, allow0Rtt, sessions, serverRandom, r, padding, reached.value.2)
  {
  }

  // What a hello that announces 32 bytes is taken for.
  lemma TicketIsTaken(cfg: Config, aes: bool, nfsKey: bytes, sessions: map<bytes, bytes>, serverRandom: bytes, d: bytes)
    requires |d| >= 18
    ensures var nfs := Advanced(CipherFor(cfg.setting.suite, cfg.setting.iv, nfsKey, aes));
            var s := H.ServeTicket(cfg, aes, nfsKey, nfs, sessions, serverRandom, d[18..]);
            var ticket := if |d| >= 50 then Block(cfg.setting.suite, cfg.setting.iv, nfsKey, aes, 2, d[18..50]) else None;
            s == if ticket.Some? && ticket.value in sessions
                 then ServerZeroRtt(ZeroRttServer(cfg, aes, nfsKey, d[18..50], sessions[ticket.value], serverRandom),
                                    ticket.value, nfsKey, d[50..])
                 else ServerFails
  {
    hide CipherFor, OpenNext, Block, Advanced, ZeroRttServer;
    if |d| >= 50 {
      BlocksAreCounted(cfg.setting.suite, cfg.setting.iv, nfsKey, aes, d[18..50]);
      assert d[18..][..32] == d[18..50] && d[18..][32..] == d[50..];
    }
  }

  // The server's answer as the client takes it: keys under the largest nonce,
  // of which it takes the first 1120 bytes, a ticket and the padding's length
  // under the cipher they make.
  predicate Answers(cfg: Config, aes: bool, nfsKey: bytes, keys: ClientKeys, a: bytes, b: bytes, reply: bytes, ticket: bytes, length: bytes,
                    d: bytes)
  {
    var s, x, iv := cfg.setting.suite, cfg.setting.exchange, cfg.setting.iv;
    && |d| >= 1186 && |reply| >= 1120 && |length| >= 2
    && s.open(CipherKey(s.derive(iv, nfsKey), aes), [255, 255, 255, 255, 255, 255, 255, 255, 255, 255, 255, 255], [], d[..1136]) == Some(reply)
    && x.accept(MLKEM, keys.mlkem, reply[..1088]) == Some(a)
    && x.accept(X25519, keys.x25519, reply[1088..1120]) == Some(b)
    && Block(s, reply[..1120], (a + b) + nfsKey, aes, 1, d[1136..1168]) == Some(ticket)
    && Block(s, reply[..1120], (a + b) + nfsKey, aes, 2, d[1168..1186]) == Some(length)
  }

  // The client's handshake is completed exactly by such an answer.
  lemma CompletedExactly(cfg: Config, aes: bool, nfsKey: bytes, keys: ClientKeys, d: bytes)
    ensures var r := OneRttClient(cfg, aes, nfsKey, keys, d);
            && (r.ClientDone? <==>
                  exists a, b, reply, ticket, length :: Answers(cfg, aes, nfsKey, keys, a, b, reply, ticket, length, d))
            && forall a, b, reply, ticket, length :: Answers(cfg, aes, nfsKey, keys, a, b, reply, ticket, length, d) ==>
                 r.ClientDone? && r.ticket == ticket && r.pfsKey == a + b && r.rest == d[1186..]
                 && r.end.peer.padding == Some(FromBE16(length))
  {
    hide OneRttClient, Answers;
    forall a, b, reply, ticket, length | Answers(cfg, aes, nfsKey, keys, a, b, reply, ticket, length, d)
      ensures |d| >= 1186 && |length| >= 2
      ensures var r := OneRttClient(cfg, aes, nfsKey, keys, d);
              r.ClientDone? && r.ticket == ticket && r.pfsKey == a + b && r.rest == d[1186..]
              && r.end.peer.padding == Some(FromBE16(length))
    {
      AnswerCompletes(cfg, aes, nfsKey, keys, a, b, reply, ticket, length, d);
    }
    if OneRttClient(cfg, aes, nfsKey, keys, d).ClientDone? {
      var a, b, reply, ticket, length := CompletedByAnswer(cfg, aes, nfsKey, keys, d);
    }
  }

  lemma AnswerCompletes(cfg: Config, aes: bool, nfsKey: bytes, keys: ClientKeys, a: bytes, b: bytes, reply: bytes, ticket: bytes,
                        length: bytes, d: bytes)
    requires Answers(cfg, aes, nfsKey, keys, a, b, reply, ticket, length, d)
    ensures |d| >= 1186 && |length| >= 2
    ensures var r := OneRttClient(cfg, aes, nfsKey, keys, d);
            r.ClientDone? && r.ticket == ticket && r.pfsKey == a + b && r.rest == d[1186..]
            && r.end.peer.padding == Some(FromBE16(length))
  {
    hide Block, NewCipher, MaskedFrom, PfsPublicKey, OneRttClientTicket;
    BlocksAreCounted(cfg.setting.suite, cfg.setting.iv, nfsKey, aes, []);
    assert MAX_NONCE == [255, 255, 255, 255, 255, 255, 255, 255, 255, 255, 255, 255];
    AnswerIsTaken(cfg, aes, nfsKey, keys, reply, a + b, d);
  }

  lemma CompletedByAnswer(cfg: Config, aes: bool, nfsKey: bytes, keys: ClientKeys, d: bytes)
    returns (a: bytes, b: bytes, reply: bytes, ticket: bytes, length: bytes)
    requires OneRttClient(cfg, aes, nfsKey, keys, d).ClientDone?
    ensures Answers(cfg, aes, nfsKey, keys, a, b, reply, ticket, length, d)
  {
    hide Block, NewCipher, MaskedFrom, PfsPublicKey, OneRttClientTicket;
    BlocksAreCounted(cfg.setting.suite, cfg.setting.iv, nfsKey, aes, []);
    assert MAX_NONCE == [255, 255, 255, 255, 255, 255, 255, 255, 255, 255, 255, 255];
    var s, x, iv := cfg.setting.suite, cfg.setting.exchange, cfg.setting.iv;
    reply := s.open(CipherFor(s, iv, nfsKey, aes).key, MAX_NONCE, [], d[..1136]).value;
    a := x.accept(MLKEM, keys.mlkem, reply[..1088]).value;
    b := x.accept(X25519, keys.x25519, reply[1088..1120]).value;
    AnswerIsTaken(cfg, aes, nfsKey, keys, reply, a + b, d);
    ticket := Block(s, reply[..1120], (a + b) + nfsKey, aes, 1, d[1136..1168]).value;
    length := Block(s, reply[..1120], (a + b) + nfsKey, aes, 2, d[1168..1186]).value;
  }

  lemma AnswerIsTaken(cfg: Config, aes: bool, nfsKey: bytes, keys: ClientKeys, reply: bytes, key: bytes, d: bytes)
    requires |d| >= 1136 && |reply| >= 1120
    ensures var s := cfg.setting.suite;
            var env := Env(s, key + nfsKey, aes);
            var r := OneRttClientTicket(cfg, env, keys, NewCipher(env, reply[..1120]), key, d[1136..]);
            var ticket := if |d| >= 1186 then Block(s, reply[..1120], key + nfsKey, aes, 1, d[1136..1168]) else None;
            var length := if |d| >= 1186 then Block(s, reply[..1120], key + nfsKey, aes, 2, d[1168..1186]) else None;
            if ticket.Some? && length.Some? && |length.value| >= 2
            then r.ClientDone? && r.ticket == ticket.value && r.pfsKey == key && r.rest == d[1186..]
                 && r.end.peer.padding == Some(FromBE16(length.value))
            else r.ClientFails?
  {
    hide Block, MaskedFrom, PfsPublicKey, OpenNext, Advanced, NewCipher;
    var s := cfg.setting.suite;
    if |d| >= 1186 {
      SameCipher(Env(s, key + nfsKey, aes), reply[..1120]);
      BlocksAreCounted(s, reply[..1120], key + nfsKey, aes, d[1136..1168]);
      BlocksAreCounted(s, reply[..1120], key + nfsKey, aes, d[1168..1186]);
      assert d[1136..][..32] == d[1136..1168] && d[1136..][32..] == d[1168..];
      assert d[1168..][..18] == d[1168..1186] && d[1168..][18..] == d[1186..];
    }
  }

  lemma SameCipher(env: Env, context: bytes)
    ensures NewCipher(env, context) == CipherFor(env.suite, context, env.united, env.aes)
  {
  }
}
