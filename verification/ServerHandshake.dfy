// Service.Handshake of vless/encryption/service.go, on its connection and its
// ticket store.
module ServerHandshake {
  import opened Bytes
  import opened CommonConn
  import opened Crypto
  import opened H = Handshake
  import opened Header
  import opened Hello
  import opened Nonce
  import opened Record
  import opened Relay
  import opened XorConn
  import Net
  import Padding
  import Tickets

  // What a connection object holds as one end, ks being the keystream with
  // which its peer masks headers.
  ghost function EndOf(c: CommonConn, ks: Keystream): End
    requires c.Valid()
    reads c, c.aead.nonce, c.xor, if c.xor == null then {} else {c.xor.ctr}, c.PeerFrame(),
          if c.peerAEAD == null then {} else {c.peerAEAD.nonce}
  {
    End(c.env, c.Outgoing(), c.OutLink(), c.PeerState(), c.InLink(ks))
  }

  // The XOR layer is there exactly in the mode that masks all headers.
  method NewLink(cfg: Config, conn: Net.Conn, united: bytes, iv: bytes, peerIV: Option<bytes>, outSkip: nat, inSkip: nat)
    returns (x: XorConn?)
    ensures x == null <==> !cfg.random
    ensures x != null ==>
              && fresh(x) && fresh(x.ctr) && x.Valid() && x.conn == conn
              && x.ctr.stream == cfg.setting.suite.keystream(united, iv) && x.Outbound() == Half(outSkip, [], 0)
              && (if peerIV.None? then x.peerCTR == null
                  else x.peerCTR != null && fresh(x.peerCTR) && x.peerCTR.stream == cfg.setting.suite.keystream(united, peerIV.value))
              && x.Inbound() == Half(inSkip, [], 0)
  {
    x := null;
    if cfg.random {
      var ctr := new CTR(cfg.setting.suite.keystream(united, iv));
      var peerCTR: CTR? := null;
      if peerIV.Some? {
        peerCTR := new CTR(cfg.setting.suite.keystream(united, peerIV.value));
      }
      x := new XorConn(conn, ctr, peerCTR, outSkip, inSkip);
    }
  }

  class Server {
    const cfg: Config
    const nfsSKeys: seq<SecretKey>
    const paddingLens: seq<Padding.Segment>
    const paddingGaps: seq<Padding.Segment>
    const tickets: Tickets.Service

    constructor (cfg: Config, nfsSKeys: seq<SecretKey>, paddingLens: seq<Padding.Segment>, paddingGaps: seq<Padding.Segment>,
                 tickets: Tickets.Service)
      ensures this.cfg == cfg && this.nfsSKeys == nfsSKeys && this.tickets == tickets
      ensures this.paddingLens == paddingLens && this.paddingGaps == paddingGaps
    {
      this.cfg, this.nfsSKeys, this.tickets := cfg, nfsSKeys, tickets;
      this.paddingLens, this.paddingGaps := paddingLens, paddingGaps;
    }

    // The length under the client's cipher: AES is tried first, then ChaCha20.
    method ChooseAEAD(cfg: Config, nfsKey: bytes, encrypted: bytes) returns (aead: AEAD?, aes: bool, plain: bytes)
      requires Sound(cfg.setting.suite)
      ensures
        var r := ChooseCipher(cfg.setting.suite, cfg.setting.iv, nfsKey, encrypted);
        if r.NoCipher? then aead == null
        else
          && aead != null && fresh(aead) && fresh(aead.nonce) && aead.Valid() && aead.suite == cfg.setting.suite
          && aes == r.aes && plain == r.plain
          && aead.State() == Advanced(CipherFor(cfg.setting.suite, cfg.setting.iv, nfsKey, aes))
    {
      aes := true;
      var first := new AEAD(Env(cfg.setting.suite, nfsKey, aes), cfg.setting.iv);
      var opened1 := first.Open(encrypted, []);
      if opened1.Some? {
        return first, aes, opened1.value;
      }
      aes := false;
      var second := new AEAD(Env(cfg.setting.suite, nfsKey, aes), cfg.setting.iv);
      var opened2 := second.Open(encrypted, []);
      if opened2.Some? {
        return second, aes, opened2.value;
      }
      return null, aes, [];
    }

    // What an unknown ticket is answered with. Its first five bytes are never a
    // valid header, but those are not the ones the client judges: see
    // TicketNoise.
    method Noise() returns (noise: bytes)
      ensures 1279 <= |noise| < 2279 && !Accepted(noise[..HEADER_LENGTH])
    {
      var size := Padding.RandBetween(1279, 2279);
      assert !Accepted([0, 0, 0, 0, 0]);
      var header: bytes :| |header| == HEADER_LENGTH && !Accepted(header);
      var rest := Net.RandomBytes(size - HEADER_LENGTH);
      noise := header + rest;
      assert noise[..HEADER_LENGTH] == header;
    }

    // The 0-RTT branch. Besides what can go wrong with the client's bytes, a
    // session serves each nfsKey once. Nothing is sent but the noise, and that
    // exactly if the ticket opens and is unknown.
    method ServeTicket(cfg: Config, aes: bool, nfsKey: bytes, aead: AEAD, conn: Net.Conn)
      returns (c: CommonConn?, ghost serverRandom: bytes, ghost noise: bytes)
      requires Sound(cfg.setting.suite) && aead.Valid() && aead.suite == cfg.setting.suite
      modifies conn, aead.nonce, tickets.sessions.Values
      ensures |serverRandom| == IV_LENGTH && tickets.State() == old(tickets.State())
      ensures conn.sent == old(conn.sent) + noise
      ensures
        var ticket := TicketOf(cfg.setting.suite, old(aead.State()), old(conn.incoming));
        if ticket.Some? && ticket.value !in tickets.sessions
        then 1279 <= |noise| < 2279 && !Accepted(noise[..HEADER_LENGTH])
        else noise == []
      ensures
        var r := H.ServeTicket(cfg, aes, nfsKey, old(aead.State()), PfsKeys(tickets.sessions), serverRandom, old(conn.incoming));
        && (c != null ==>
              && r.ServerZeroRtt? && Stands(c, r.end, conn, cfg.setting.iv) && fresh(c.Parts()) && c.client == null
              && conn.incoming == r.rest && conn.sent == old(conn.sent)
              && r.ticket in tickets.sessions && r.nfsKey == nfsKey
              && nfsKey !in old(tickets.sessions[r.ticket].nfsKeys) && nfsKey in tickets.sessions[r.ticket].nfsKeys)
        && (c == null ==>
              || r.ServerFails?
              || (r.ServerZeroRtt? && r.nfsKey == nfsKey && r.ticket in tickets.sessions && nfsKey in old(tickets.sessions[r.ticket].nfsKeys)))
    {
      hide Sound, Stands, ZeroRttServer;
      c, noise := null, [];
      assert conn.sent + [] == conn.sent;
      var random := Net.RandomBytes(IV_LENGTH);
      serverRandom := random;
      var encryptedTicket, ok := Net.ReadFull(conn, ENCRYPTED_TICKET_LENGTH);
      if !ok {
        return;
      }
      var ticket := aead.Open(encryptedTicket[..], []);
      if ticket.None? {
        return;
      }
      var resumed := tickets.Resume(ticket.value, nfsKey);
      if resumed.Expired? {
        var answer := Noise();
        noise := answer;
        conn.Write(answer);
        return;
      }
      if resumed.Replayed? {
        return;
      }
      c := EstablishResumed(cfg, aes, nfsKey, encryptedTicket[..], resumed.pfsKey, random, conn);
    }

    method EstablishResumed(cfg: Config, aes: bool, nfsKey: bytes, encryptedTicket: bytes, pfsKey: bytes, random: bytes, conn: Net.Conn)
      returns (c: CommonConn)
      ensures fresh(c.Parts()) && c.client == null
      ensures Stands(c, ZeroRttServer(cfg, aes, nfsKey, encryptedTicket, pfsKey, random), conn, cfg.setting.iv)
    {
      hide CommonConn.Parts;
      var env := Env(cfg.setting.suite, pfsKey + nfsKey, aes);
      var out := new AEAD(env, random);
      var peer := new AEAD(env, encryptedTicket);
      var link := NewLink(cfg, conn, env.united, random, Some(cfg.setting.iv), IV_LENGTH, 0);
      c := new CommonConn(env, conn, link, random, out, peer, None, null);
      forall o | o in c.Parts() ensures fresh(o) {
        c.IsPart(o);
      }
    }

    // What the padding drawn makes of a hello: its lengths, its size, and
    // whether the handshake panics over it.
    ghost predicate Drawn(lens: seq<int>, padding: bytes, panicked: bool) {
      && Padding.AllDrawable(Padding.EffectiveLens(paddingLens), lens)
      && panicked == !Padding.Sendable(SERVER_HEAD, lens)
      && (!panicked ==> |padding| == Padding.Sum(lens) - ENCRYPTED_LENGTH_SIZE - TAG_LENGTH)
    }

    // The server's answer to a client's public keys: its own, the ticket and
    // its padding, under the ciphers Handshake.ServerHello names. Out comes the
    // cipher for its records.
    method Answer(env: Env, nfs: AEAD, reply: bytes, ticket: bytes, conn: Net.Conn)
      returns (out: AEAD, ghost padding: bytes, panicked: bool, ghost drawn: seq<int>)
      requires Sound(env.suite) && Padding.Parsable(paddingLens) && |reply| == PFS_REPLY_LENGTH && |ticket| == TICKET_LENGTH
      requires nfs.Valid() && nfs.suite == env.suite
      modifies conn`sent
      ensures Drawn(drawn, padding, panicked)
      ensures !panicked ==>
                && fresh(out) && fresh(out.nonce) && out.Valid() && out.suite == env.suite
                && out.State() == Advanced(Advanced(Advanced(NewCipher(env, reply))))
                && conn.sent == old(conn.sent) + ServerHello(env.suite, nfs.State(), NewCipher(env, reply), reply, ticket, padding)
    {
      hide Sound, BE16, Padding.Parsable, Padding.AllDrawable, Padding.Sum;
      out := new AEAD(env, reply);
      padding := [];
      var length, lens, gaps := Padding.CreatePadding(paddingLens, paddingGaps);
      Padding.DrawnFits(paddingLens, lens, SERVER_HEAD);
      drawn := lens;
      panicked := !Padding.Sendable(SERVER_HEAD, lens);
      if panicked {
        return;
      }
      var content := Net.RandomBytes(length - ENCRYPTED_LENGTH_SIZE - TAG_LENGTH);
      padding := content;
      var sealedReply := env.suite.seal(nfs.key, MAX_NONCE, [], reply);
      SealAddsTag(env.suite, nfs.key, MAX_NONCE, reply);
      var sealedTicket := out.Seal(ticket, []);
      var sealedLength := out.Seal(BE16(length - ENCRYPTED_LENGTH_SIZE), []);
      var sealedPadding := out.Seal(content, []);
      var hello := sealedReply + (sealedTicket + (sealedLength + sealedPadding));
      var fragments := Padding.SendFragments(conn, hello, SERVER_HEAD, lens);
    }

    // The client's padding: its length and then itself.
    method SkipPadding(aead: AEAD, conn: Net.Conn) returns (ok: bool)
      requires Sound(aead.suite) && aead.Valid()
      modifies conn`incoming, aead.nonce
      ensures
        var r := PaddingOf(aead.suite, old(aead.State()), old(conn.incoming));
        ok == r.Split? && (ok ==> conn.incoming == r.tail)
    {
      var encryptedLength;
      encryptedLength, ok := Net.ReadFull(conn, ENCRYPTED_LENGTH_SIZE);
      if !ok {
        return;
      }
      var plain := aead.Open(encryptedLength[..], []);
      if plain.None? || |plain.value| < 2 {
        return false;
      }
      var encryptedPadding;
      encryptedPadding, ok := Net.ReadFull(conn, FromBE16(plain.value));
      if !ok {
        return;
      }
      var padding := aead.Open(encryptedPadding[..], []);
      ok := padding.Some?;
    }

    // The 1-RTT branch: both sides' keys are exchanged and a ticket is issued.
    // The client's keys are taken from the buffer in which their block was
    // opened, or from behind it: only a block shorter than a reply is refused.
    method ServeKeys(cfg: Config, aes: bool, nfsKey: bytes, aead: AEAD, length: nat, conn: Net.Conn, now: int)
      returns (c: CommonConn?, panicked: bool, ghost r: ServerRandoms, ghost padding: bytes, ghost drawn: seq<int>)
      requires Sound(cfg.setting.suite) && Agrees(cfg.setting.exchange) && Padding.Parsable(paddingLens)
      requires aead.Valid() && aead.suite == cfg.setting.suite
      requires aead.State() == Advanced(CipherFor(cfg.setting.suite, cfg.setting.iv, nfsKey, aes))
      modifies conn, aead.nonce, tickets
      ensures
        var k := OfferedKeys(cfg, old(aead.State()), length, r.leftover, old(conn.incoming));
        if k.Some?
        then Issued(old(tickets.State()), tickets.State(), tickets.secondsFrom, tickets.secondsTo, now, r.ticket,
                    ServerPfsKey(cfg.setting.exchange, k.value, r))
        else tickets.State() == old(tickets.State()) && !panicked
      ensures
        var k := OfferedKeys(cfg, old(aead.State()), length, r.leftover, old(conn.incoming));
        panicked || conn.sent == old(conn.sent) + if k.Some? then OneRttServerHello(cfg, aes, nfsKey, k.value, r, padding) else []
      ensures panicked ==> c == null && Drawn(drawn, padding, true)
      ensures
        var s := H.ServeKeys(cfg, aes, nfsKey, old(aead.State()), length, r, padding, old(conn.incoming));
        !panicked ==>
          if c == null then s.ServerFails?
          else
            && s.ServerOneRtt? && Stands(c, s.end, conn, cfg.setting.iv) && fresh(c.Parts()) && c.client == null && Drawn(drawn, padding, false)
            && conn.incoming == s.rest && conn.sent == old(conn.sent) + s.hello
            && Issued(old(tickets.State()), tickets.State(), tickets.secondsFrom, tickets.secondsTo, now, r.ticket, s.pfsKey)
    {
      hide Sound, Agrees, H.ServePadding, CipherFor, TakenKeys, Offers, ServerPfsKey, Stands, Issued, Drawn, OneRttServerHello, CommonConn.Parts;
      c, panicked, padding, drawn := null, false, [], [];
      var pool := Net.RandomBytes(PFS_PUBLIC_KEY_LENGTH);
      r := ServerRandoms([], [], [], pool);
      var block, ok := Net.ReadFull(conn, length);
      if !ok {
        return;
      }
      ghost var encrypted := block[..];
      var keys := aead.Open(block[..], []);
      if keys.None? {
        return;
      }
      Net.Store(block, 0, keys.value);
      assert block[..] == keys.value + encrypted[|keys.value|..];
      var pfsPublicKey := (block[..] + (pool + Nonce.Repeat(0, PFS_PUBLIC_KEY_LENGTH)))[..PFS_PUBLIC_KEY_LENGTH];
      TakenFromBuffer(keys.value, encrypted, pool);
      if Offers(cfg.setting.exchange, pfsPublicKey) {
        c, panicked, r, padding, drawn := Exchange(cfg, aes, nfsKey, aead, pfsPublicKey, conn, now, pool);
      }
    }

    method Exchange(cfg: Config, aes: bool, nfsKey: bytes, aead: AEAD, pfsPublicKey: bytes, conn: Net.Conn, now: int,
                    ghost leftover: bytes)
      returns (c: CommonConn?, panicked: bool, ghost r: ServerRandoms, ghost padding: bytes, ghost drawn: seq<int>)
      requires Sound(cfg.setting.suite) && Agrees(cfg.setting.exchange) && Padding.Parsable(paddingLens)
      requires |pfsPublicKey| == PFS_PUBLIC_KEY_LENGTH && Offers(cfg.setting.exchange, pfsPublicKey)
      requires aead.Valid() && aead.suite == cfg.setting.suite
      requires aead.State() == Advanced(Advanced(CipherFor(cfg.setting.suite, cfg.setting.iv, nfsKey, aes)))
      modifies conn, aead.nonce, tickets
      ensures r.leftover == leftover
      ensures Issued(old(tickets.State()), tickets.State(), tickets.secondsFrom, tickets.secondsTo, now, r.ticket,
                     ServerPfsKey(cfg.setting.exchange, pfsPublicKey, r))
      ensures panicked || conn.sent == old(conn.sent) + OneRttServerHello(cfg, aes, nfsKey, pfsPublicKey, r, padding)
      ensures panicked ==> c == null && Drawn(drawn, padding, true)
      ensures
        var s := ServePadding(cfg, aes, nfsKey, old(aead.State()), pfsPublicKey, r, padding, old(conn.incoming));
        !panicked ==>
          if c == null then s.ServerFails?
          else
            && s.ServerOneRtt? && Stands(c, s.end, conn, cfg.setting.iv) && fresh(c.Parts()) && c.client == null && Drawn(drawn, padding, false)
            && conn.incoming == s.rest && conn.sent == old(conn.sent) + s.hello
            && Issued(old(tickets.State()), tickets.State(), tickets.secondsFrom, tickets.secondsTo, now, r.ticket, s.pfsKey)
    {
      hide PaddingOf, Issued, Stands, CommonConn.Parts, MaskedFrom, Padding.Parsable, Drawn, Sound, Agrees, Offers;
      c := null;
      var reply, pfsKey;
      reply, pfsKey, r := OfferKeys(cfg.setting.exchange, pfsPublicKey, leftover);
      var env := Env(cfg.setting.suite, pfsKey + nfsKey, aes);
      var ticket := Issue(now, pfsKey);
      r := r.(ticket := ticket);
      var out;
      out, padding, panicked, drawn := Answer(env, aead, reply, ticket, conn);
      if panicked {
        return;
      }
      var ok := SkipPadding(aead, conn);
      if ok {
        assert pfsPublicKey[..PFS_PUBLIC_KEY_LENGTH] == pfsPublicKey;
        c := Establish(cfg, env, ticket, out, pfsPublicKey, conn);
      }
    }

    method OfferKeys(x: Exchange, pfsPublicKey: bytes, ghost leftover: bytes) returns (reply: bytes, pfsKey: bytes, ghost r: ServerRandoms)
      requires Agrees(x) && |pfsPublicKey| == PFS_PUBLIC_KEY_LENGTH && Offers(x, pfsPublicKey)
      ensures |reply| == PFS_REPLY_LENGTH && r.leftover == leftover
      ensures forall ticket :: reply == PfsReply(x, pfsPublicKey, r.(ticket := ticket))
                               && pfsKey == ServerPfsKey(x, pfsPublicKey, r.(ticket := ticket))
    {
      var mlkemRandom := Net.RandomBytes(32);
      var x25519Random := Net.RandomBytes(32);
      var a := x.offer(MLKEM, pfsPublicKey[..1184], mlkemRandom);
      var b := x.offer(X25519, pfsPublicKey[1184..PFS_PUBLIC_KEY_LENGTH], x25519Random);
      reply, pfsKey, r := a.0 + b.0, a.1 + b.1, ServerRandoms(mlkemRandom, x25519Random, [], leftover);
    }

    method Issue(now: int, pfsKey: bytes) returns (ticket: bytes)
      modifies tickets
      ensures |ticket| == TICKET_LENGTH
      ensures Issued(old(tickets.State()), tickets.State(), tickets.secondsFrom, tickets.secondsTo, now, ticket, pfsKey)
    {
      var random := Net.RandomBytes(TICKET_LENGTH);
      var seconds;
      ticket, seconds := tickets.IssueTicket(now, random, pfsKey);
      BE16RoundTrip(seconds);
      assert ticket[..2] == BE16(seconds);
    }

    method Establish(cfg: Config, env: Env, ticket: bytes, out: AEAD, context: bytes, conn: Net.Conn) returns (c: CommonConn)
      requires env.suite == cfg.setting.suite && out.Valid() && out.suite == env.suite
      ensures c.client == null && forall o :: o in c.Parts() ==> fresh(o) || o == out || o == out.nonce
      ensures Stands(c, End(env, Sender([], out.State()), MaskedFrom(cfg, env.united, ticket, 0),
                            Peer(Some(NewCipher(env, context)), None), MaskedFrom(cfg, env.united, cfg.setting.iv, 0)),
                     conn, cfg.setting.iv)
    {
      hide CommonConn.Parts;
      var peer := new AEAD(env, context);
      var link := NewLink(cfg, conn, env.united, ticket, Some(cfg.setting.iv), 0, 0);
      c := new CommonConn(env, conn, link, [], out, peer, None, null);
      forall o | o in c.Parts() ensures fresh(o) || o == out || o == out.nonce {
        c.IsPart(o);
      }
    }

    // After the relays: the length tells a ticket from keys.
    method HandshakeKeyed(cfg: Config, nfsKey: bytes, conn: Net.Conn, now: int)
      returns (c: CommonConn?, panicked: bool, ghost serverRandom: bytes, ghost r: ServerRandoms, ghost padding: bytes,
               ghost drawn: seq<int>)
      requires Sound(cfg.setting.suite) && Agrees(cfg.setting.exchange) && Padding.Parsable(paddingLens)
      modifies conn, tickets, tickets.sessions.Values
      ensures |serverRandom| == IV_LENGTH
      ensures
        var q := Requested(cfg, nfsKey, tickets.secondsFrom > 0 || tickets.secondsTo > 0, r.leftover, old(conn.incoming));
        && Filed(cfg, q, old(tickets.State()), tickets.State(), tickets.secondsFrom, tickets.secondsTo, now, r)
        && Said(cfg, nfsKey, q, tickets.sessions.Keys, r, padding, panicked, old(conn.sent), conn.sent)
      ensures panicked ==> c == null && Drawn(drawn, padding, true)
      ensures
        var s := ServeKeyed(cfg, nfsKey, tickets.secondsFrom > 0 || tickets.secondsTo > 0, PfsKeys(old(tickets.sessions)), serverRandom, r,
                            padding, old(conn.incoming));
        !panicked ==>
          if c == null then s.ServerFails? || old(Replays(tickets.sessions, s))
          else
            && Completes(c, s, conn, cfg.setting.iv, old(conn.sent)) && fresh(c.Parts()) && c.client == null
            && (s.ServerZeroRtt? ==> tickets.State() == old(tickets.State()) && !old(Replays(tickets.sessions, s)))
            && (s.ServerOneRtt? ==>
                  && Drawn(drawn, padding, false)
                  && Issued(old(tickets.State()), tickets.State(), tickets.secondsFrom, tickets.secondsTo, now, r.ticket, s.pfsKey))
    {
      hide CommonConn.Parts, H.ServeKeys, H.ServeTicket, ChooseCipher, CipherFor, Stands, Issued, Sound, Agrees, Drawn;
      hide OneRttServerHello, ServerPfsKey, OfferedKeys, TicketOf;
      c, panicked, r, padding, drawn := null, false, ServerRandoms([], [], [], []), [], [];
      serverRandom := Nonce.Repeat(0, IV_LENGTH);
      var encryptedLength, ok := Net.ReadFull(conn, ENCRYPTED_LENGTH_SIZE);
      if !ok {
        return;
      }
      var aead, aes, plain := ChooseAEAD(cfg, nfsKey, encryptedLength[..]);
      if aead == null || |plain| < 2 {
        return;
      }
      var length := FromBE16(plain);
      if length == ENCRYPTED_TICKET_LENGTH {
        if Allows0Rtt() {
          ghost var noise;
          c, serverRandom, noise := ServeTicket(cfg, aes, nfsKey, aead, conn);
        }
      } else if length >= ENCRYPTED_PFS_PUBLIC_KEY_LENGTH {
        c, panicked, r, padding, drawn := ServeKeys(cfg, aes, nfsKey, aead, length, conn, now);
      }
    }

    predicate Allows0Rtt() {
      tickets.secondsFrom > 0 || tickets.secondsTo > 0
    }

    // Unless the padding drawn makes the handshake panic, a connection comes
    // out exactly when the client's bytes are served and do not replay a
    // session; it is then the end that Serve describes. In any case at most one
    // ticket is issued.
    method Handshake(conn: Net.Conn, now: int)
      returns (c: CommonConn?, panicked: bool, ghost serverRandom: bytes, ghost r: ServerRandoms, ghost padding: bytes,
               ghost drawn: seq<int>)
      requires Sound(cfg.setting.suite) && Agrees(cfg.setting.exchange) && Padding.Parsable(paddingLens) && nfsSKeys != []
      modifies conn, tickets, tickets.sessions.Values
      ensures |serverRandom| == IV_LENGTH
      ensures MayIssue(old(tickets.State()), tickets.State(), tickets.secondsFrom, tickets.secondsTo, now)
      ensures
        var reached := Reached(cfg, nfsSKeys, old(conn.incoming));
        var q := if reached.None? then Nothing
                 else Requested(reached.value.0, reached.value.1, tickets.secondsFrom > 0 || tickets.secondsTo > 0, r.leftover,
                                reached.value.2);
        && (reached.None? ==> !panicked && tickets.State() == old(tickets.State()) && conn.sent == old(conn.sent))
        && (reached.Some? ==>
              && Filed(reached.value.0, q, old(tickets.State()), tickets.State(), tickets.secondsFrom, tickets.secondsTo, now, r)
              && Said(reached.value.0, reached.value.1, q, tickets.sessions.Keys, r, padding, panicked, old(conn.sent), conn.sent))
      ensures panicked ==> c == null && Drawn(drawn, padding, true)
      ensures
        var s := Serve(cfg, nfsSKeys, tickets.secondsFrom > 0 || tickets.secondsTo > 0, PfsKeys(old(tickets.sessions)), serverRandom, r,
                       padding, old(conn.incoming));
        !panicked ==>
          if c == null then s.ServerFails? || old(Replays(tickets.sessions, s))
          else
            && |old(conn.incoming)| >= IV_LENGTH
            && Completes(c, s, conn, old(conn.incoming)[..IV_LENGTH], old(conn.sent)) && fresh(c.Parts()) && c.client == null
            && (s.ServerZeroRtt? ==> tickets.State() == old(tickets.State()) && !old(Replays(tickets.sessions, s)))
            && (s.ServerOneRtt? ==>
                  && Drawn(drawn, padding, false)
                  && Issued(old(tickets.State()), tickets.State(), tickets.secondsFrom, tickets.secondsTo, now, r.ticket, s.pfsKey))
    {
      hide CommonConn.Parts, ServeKeyed, Completes, Issued, Unwrap, Sound, Agrees, Drawn, RelaysLength, Kinds, PublicKeys, PfsKeys;
      hide Requested, Said, Noised, OneRttServerHello, ServerPfsKey;
      c, panicked, r, padding, drawn := null, false, ServerRandoms([], [], [], []), [], [];
      serverRandom := Nonce.Repeat(0, IV_LENGTH);
      ghost var all := conn.incoming;
      var length := RelaysLength(Kinds(PublicKeys(cfg.setting.exchange, nfsSKeys)));
      var ivAndRelays, ok := Net.ReadFull(conn, IV_LENGTH + length);
      if !ok {
        return;
      }
      var iv, relays := ivAndRelays[..IV_LENGTH], new byte[length];
      Net.Store(relays, 0, ivAndRelays[IV_LENGTH..]);
      assert relays[..] == relays[0..length] == ivAndRelays[..][IV_LENGTH..];
      assert iv == ivAndRelays[..][..IV_LENGTH] == all[..IV_LENGTH + length][..IV_LENGTH] == all[..IV_LENGTH];
      var setting := cfg.setting.(iv := iv);
      var u := UnwrapRelays(setting, nfsSKeys, relays);
      if u.Unwrapped? {
        c, panicked, serverRandom, r, padding, drawn := HandshakeKeyed(cfg.(setting := setting), u.nfsKey, conn, now);
      }
    }
  }

  // What precedes the padding in the server's hello.
  const SERVER_HEAD := ENCRYPTED_PFS_PUBLIC_KEY_LENGTH + ENCRYPTED_TICKET_LENGTH

  // The buffer in which a block of keys was opened, and what lies behind it.
  lemma TakenFromBuffer(plain: bytes, encrypted: bytes, pool: bytes)
    requires |plain| <= |encrypted|
    ensures
      var buffer := plain + encrypted[|plain|..];
      (buffer + (pool + Nonce.Repeat(0, PFS_PUBLIC_KEY_LENGTH)))[..PFS_PUBLIC_KEY_LENGTH] == TakenKeys(plain, encrypted, pool)
  {
  }

  // The client's ticket is known, but its nfsKey has been served before.
  ghost predicate Replays(sessions: map<bytes, Tickets.ServiceSession>, s: ServerResult)
    reads sessions.Values
  {
    s.ServerZeroRtt? && s.ticket in sessions && s.nfsKey in sessions[s.ticket].nfsKeys
  }

  // A connection object is what the server's reading of the hello makes it.
  ghost predicate Completes(c: CommonConn, s: ServerResult, conn: Net.Conn, iv: bytes, sent: bytes)
    reads c, c.aead.nonce, c.xor, if c.xor == null then {} else {c.xor.ctr}, c.PeerFrame(),
          if c.peerAEAD == null then {} else {c.peerAEAD.nonce}, c.input, conn
  {
    match s
    case ServerFails => false
    case ServerZeroRtt(end, _, _, rest) => Stands(c, end, conn, iv) && conn.incoming == rest && conn.sent == sent
    case ServerOneRtt(end, hello, _, rest) => Stands(c, end, conn, iv) && conn.incoming == rest && conn.sent == sent + hello
  }

  // The ticket is worth no more than the larger configured life, and filed with
  // its key unless it is worth nothing.
  ghost predicate Issued(before: Tickets.Store<bytes, Tickets.ServiceSession>, after: Tickets.Store<bytes, Tickets.ServiceSession>,
                         from: nat, to: nat, now: int, ticket: bytes, pfsKey: bytes)
  {
    |ticket| == TICKET_LENGTH && FromBE16(ticket) <= Max(from, to) &&
    if FromBE16(ticket) == 0 && after == before then true
    else
      && ticket in after.sessions && after.sessions[ticket].pfsKey == pfsKey
      && after == Tickets.Issue(before, Tickets.ExpiryMinute(now, from, to), ticket, after.sessions[ticket])
  }

  // A ticket is filed exactly for a request for a new session.
  ghost predicate Filed(cfg: Config, q: Request, before: Tickets.Store<bytes, Tickets.ServiceSession>,
                        after: Tickets.Store<bytes, Tickets.ServiceSession>, from: nat, to: nat, now: int, r: ServerRandoms)
    requires q.Start? ==> |q.keys| == PFS_PUBLIC_KEY_LENGTH
  {
    if q.Start? then Issued(before, after, from, to, now, r.ticket, ServerPfsKey(cfg.setting.exchange, q.keys, r)) else after == before
  }

  // What goes out in reply to a request, whether or not it is served: noise for
  // an unknown ticket, the server's hello for keys unless its padding makes the
  // handshake panic, and otherwise nothing.
  ghost predicate Said(cfg: Config, nfsKey: bytes, q: Request, known: set<bytes>, r: ServerRandoms, padding: bytes, panicked: bool,
                       before: bytes, after: bytes)
    requires q.Start? ==> |q.keys| == PFS_PUBLIC_KEY_LENGTH
  {
    match q
    case Nothing => !panicked && after == before
    case Resume(_, ticket) => !panicked && if ticket in known then after == before else Noised(before, after)
    case Start(aes, keys) => panicked || after == before + OneRttServerHello(cfg, aes, nfsKey, keys, r, padding)
  }

  ghost predicate Noised(before: bytes, after: bytes) {
    before <= after && 1279 <= |after| - |before| < 2279 && !Accepted(after[|before|..|before| + HEADER_LENGTH])
  }

  // The store is as it was, or holds one ticket more.
  ghost predicate MayIssue(before: Tickets.Store<bytes, Tickets.ServiceSession>, after: Tickets.Store<bytes, Tickets.ServiceSession>,
                           from: nat, to: nat, now: int)
  {
    after == before || exists ticket, pfsKey :: Issued(before, after, from, to, now, ticket, pfsKey)
  }

  lemma SealAddsTag(s: Suite, k: CipherKey, nonce: bytes, x: bytes)
    requires Sound(s)
    ensures |s.seal(k, nonce, [], x)| == |x| + TAG_LENGTH
  {
  }

  function PfsKeys(sessions: map<bytes, Tickets.ServiceSession>): map<bytes, bytes> {
    map t | t in sessions :: sessions[t].pfsKey
  }

  // A connection object is a given end and can be read from.
  ghost predicate Stands(c: CommonConn, end: End, conn: Net.Conn, peerIV: bytes)
    reads c, c.aead.nonce, c.xor, if c.xor == null then {} else {c.xor.ctr}, c.PeerFrame(),
          if c.peerAEAD == null then {} else {c.peerAEAD.nonce}, c.input
  {
    && c.Valid() && c.Reading() && c.Cache() == [] && c.raw == conn
    && (c.xor != null && c.xor.peerCTR != null ==> c.xor.peerCTR.stream == end.env.suite.keystream(end.env.united, peerIV))
    && EndOf(c, end.env.suite.keystream(end.env.united, peerIV)) == end
  }
}
