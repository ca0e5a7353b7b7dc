// Client.Handshake of vless/encryption/client.go, on its connection and its
// cached ticket.
module ClientHandshake {
  import opened Bytes
  import opened CommonConn
  import opened Crypto
  import opened H = Handshake
  import opened Header
  import opened Nonce
  import opened Record
  import opened Relay
  import opened XorConn
  import ClientState
  import Net
  import Padding
  import S = ServerHandshake

  class Dialer {
    const cfg: Config
    const nfsPKeys: seq<PublicKey>
    const paddingLens: seq<Padding.Segment>
    const paddingGaps: seq<Padding.Segment>
    const cache: ClientState.Client

    constructor (cfg: Config, nfsPKeys: seq<PublicKey>, paddingLens: seq<Padding.Segment>, paddingGaps: seq<Padding.Segment>,
                 cache: ClientState.Client)
      ensures this.cfg == cfg && this.nfsPKeys == nfsPKeys && this.cache == cache
      ensures this.paddingLens == paddingLens && this.paddingGaps == paddingGaps
    {
      this.cfg, this.nfsPKeys, this.cache := cfg, nfsPKeys, cache;
      this.paddingLens, this.paddingGaps := paddingLens, paddingGaps;
    }

    method DrawRandoms() returns (randoms: seq<bytes>)
      ensures |randoms| == |nfsPKeys|
    {
      randoms := [];
      while |randoms| < |nfsPKeys|
        invariant |randoms| <= |nfsPKeys|
      {
        var random := Net.RandomBytes(32);
        randoms := randoms + [random];
      }
    }

    // The 0-RTT branch: nothing is sent; the hello waits for the first record.
    method Resume(cfg: Config, aes: bool, relays: bytes, nfsKey: bytes, nfs: AEAD, conn: Net.Conn) returns (c: CommonConn)
      requires Sound(cfg.setting.suite) && nfs.Valid() && nfs.suite == cfg.setting.suite
      requires nfs.State() == CipherFor(cfg.setting.suite, cfg.setting.iv, nfsKey, aes)
      modifies nfs.nonce
      ensures fresh(c.Parts()) && c.client == cache
      ensures forall serverRandom: bytes ::
                S.Stands(c, ZeroRttClient(cfg, aes, relays, nfsKey, cache.ticket, cache.pfsKey, serverRandom), conn, serverRandom)
    {
      hide Sound, CommonConn.Parts;
      var env := Env(cfg.setting.suite, cache.pfsKey + nfsKey, aes);
      var length := nfs.Seal(BE16(ENCRYPTED_TICKET_LENGTH), []);
      var ticket := nfs.Seal(cache.ticket, []);
      var preWrite := cfg.setting.iv + (relays + (length + ticket));
      var out := new AEAD(env, ticket);
      var link := S.NewLink(cfg, conn, env.united, cfg.setting.iv, None, |preWrite|, IV_LENGTH);
      c := new CommonConn(env, conn, link, preWrite, out, null, None, cache);
      forall o | o in c.Parts() ensures fresh(o) {
        c.IsPart(o);
      }
    }

    // What precedes the padding in the client's hello.
    function Head(): nat
      requires nfsPKeys != []
    {
      IV_LENGTH + RelaysLength(Kinds(nfsPKeys)) + KEYS_LENGTH
    }

    // What createPadding can have drawn.
    ghost predicate Drawn(lens: seq<int>) {
      Padding.AllDrawable(Padding.EffectiveLens(paddingLens), lens)
    }

    // The 1-RTT hello, in fragments, unless they do not fit its buffer.
    method SendHello(cfg: Config, aes: bool, relays: bytes, nfsKey: bytes, nfs: AEAD, pfsPublicKey: bytes, conn: Net.Conn,
                     length: int, lens: seq<int>)
      returns (panicked: bool, ghost padding: bytes)
      requires Sound(cfg.setting.suite) && nfs.Valid() && nfs.suite == cfg.setting.suite
      requires nfs.State() == CipherFor(cfg.setting.suite, cfg.setting.iv, nfsKey, aes)
      requires Padding.Parsable(paddingLens) && |pfsPublicKey| == PFS_PUBLIC_KEY_LENGTH
      requires Drawn(lens) && length == Padding.Int64(Padding.Sum(lens))
      modifies nfs.nonce, conn`sent
      ensures panicked == !Padding.Sendable(|cfg.setting.iv| + |relays| + KEYS_LENGTH, lens)
      ensures !panicked ==>
                && |padding| == Padding.Sum(lens) - ENCRYPTED_LENGTH_SIZE - TAG_LENGTH
                && conn.sent == old(conn.sent) + OneRttHello(cfg, aes, relays, nfsKey, pfsPublicKey, padding)
    {
      hide Sound, BE16, SealNext, Padding.Parsable, Padding.AllDrawable, Padding.Sum;
      var head := |cfg.setting.iv| + |relays| + KEYS_LENGTH;
      Padding.DrawnFits(paddingLens, lens, head);
      padding := [];
      panicked := !Padding.Sendable(head, lens);
      if panicked {
        return;
      }
      var content := Net.RandomBytes(length - ENCRYPTED_LENGTH_SIZE - TAG_LENGTH);
      padding := content;
      var exchange := SealExchange(nfs, pfsPublicKey, length - ENCRYPTED_LENGTH_SIZE, content);
      var hello := cfg.setting.iv + (relays + exchange);
      var fragments := Padding.SendFragments(conn, hello, head, lens);
    }

    // The client's keys and its padding, each behind its sealed length.
    method SealExchange(nfs: AEAD, pfsPublicKey: bytes, size: int, content: bytes) returns (exchange: bytes)
      requires Sound(nfs.suite) && nfs.Valid() && size == |content| + TAG_LENGTH
      modifies nfs.nonce
      ensures |exchange| == ENCRYPTED_LENGTH_SIZE + |pfsPublicKey| + TAG_LENGTH + ENCRYPTED_LENGTH_SIZE + size
      ensures
        var s, c0 := nfs.suite, old(nfs.State());
        var c1 := Advanced(c0);
        var c2 := Advanced(c1);
        exchange == SealNext(s, c0, BE16(|pfsPublicKey| + TAG_LENGTH))
                    + (SealNext(s, c1, pfsPublicKey)
                       + (SealNext(s, c2, BE16(|content| + TAG_LENGTH)) + SealNext(s, Advanced(c2), content)))
    {
      hide Sound, BE16;
      var keysLength := nfs.Seal(BE16(|pfsPublicKey| + TAG_LENGTH), []);
      var keys := nfs.Seal(pfsPublicKey, []);
      var paddingLength := nfs.Seal(BE16(size), []);
      var sealedPadding := nfs.Seal(content, []);
      exchange := keysLength + (keys + (paddingLength + sealedPadding));
    }

    // The server's keys, sealed under the largest nonce.
    method ReadReply(cfg: Config, aes: bool, nfsKey: bytes, nfs: AEAD, keys: ClientKeys, conn: Net.Conn)
      returns (reply: bytes, pfsKey: Option<bytes>)
      requires Sound(cfg.setting.suite) && nfs.suite == cfg.setting.suite
      requires nfs.key == CipherFor(cfg.setting.suite, cfg.setting.iv, nfsKey, aes).key
      modifies conn`incoming
      ensures ReplyOf(cfg, aes, nfsKey, keys, old(conn.incoming))
           == if pfsKey.None? then None else Some((reply, pfsKey.value, conn.incoming))
    {
      hide OneRttClientTicket;
      reply, pfsKey := [], None;
      var encrypted, ok := Net.ReadFull(conn, ENCRYPTED_PFS_PUBLIC_KEY_LENGTH);
      if !ok {
        return;
      }
      var plain := cfg.setting.suite.open(nfs.key, MAX_NONCE, [], encrypted[..]);
      if plain.None? {
        return;
      }
      reply := plain.value;
      assert reply[..PFS_REPLY_LENGTH] == reply;
      var x := cfg.setting.exchange;
      var a := x.accept(MLKEM, keys.mlkem, reply[..1088]);
      var b := x.accept(X25519, keys.x25519, reply[1088..PFS_REPLY_LENGTH]);
      if a.Some? && b.Some? {
        pfsKey := Some(a.value + b.value);
      }
    }

    // The ticket, which is cached, and the length of the padding to come.
    method Finish(cfg: Config, env: Env, keys: ClientKeys, pfsPublicKey: bytes, reply: bytes, pfsKey: bytes, conn: Net.Conn, now: int)
      returns (c: CommonConn?)
      requires Sound(env.suite) && cfg.setting.suite == env.suite && pfsPublicKey == PfsPublicKey(cfg.setting.exchange, keys)
      modifies conn`incoming, cache
      ensures
        var r := OneRttClientTicket(cfg, env, keys, NewCipher(env, reply), pfsKey, old(conn.incoming));
        if c == null then r.ClientFails?
        else r.ClientDone? && S.Stands(c, r.end, conn, r.ticket) && fresh(c.Parts()) && c.client == null && conn.incoming == r.rest
             && |r.ticket| == TICKET_LENGTH && Kept(old(Cached()), Cached(), cache.seconds, r.ticket, pfsKey, now)
      ensures
        var ticket := TicketOf(env.suite, NewCipher(env, reply), old(conn.incoming));
        if ticket.None? then unchanged(cache)
        else |ticket.value| == TICKET_LENGTH && Kept(old(Cached()), Cached(), cache.seconds, ticket.value, pfsKey, now)
    {
      hide Sound, S.Stands, MaskedFrom, FromBE16, CommonConn.Parts;
      c := null;
      var peer := new AEAD(env, reply);
      var encryptedTicket, ok := Net.ReadFull(conn, ENCRYPTED_TICKET_LENGTH);
      if !ok {
        return;
      }
      var ticket := peer.Open(encryptedTicket[..], []);
      if ticket.None? {
        return;
      }
      cache.Keep(now, ticket.value, pfsKey);
      assert Kept(old(Cached()), Cached(), cache.seconds, ticket.value, pfsKey, now);
      var encryptedLength;
      encryptedLength, ok := Net.ReadFull(conn, ENCRYPTED_LENGTH_SIZE);
      if !ok {
        return;
      }
      var length := peer.Open(encryptedLength[..], []);
      if length.None? || |length.value| < 2 {
        return;
      }
      c := Establish(cfg, env, pfsPublicKey, ticket.value, peer, FromBE16(length.value), conn);
    }

    method Establish(cfg: Config, env: Env, pfsPublicKey: bytes, ticket: bytes, peer: AEAD, n: nat, conn: Net.Conn)
      returns (c: CommonConn)
      requires env.suite == cfg.setting.suite && peer.Valid() && peer.suite == env.suite
      ensures c.client == null && forall o :: o in c.Parts() ==> fresh(o) || o == peer || o == peer.nonce
      ensures S.Stands(c, End(env, Sender([], NewCipher(env, pfsPublicKey)), MaskedFrom(cfg, env.united, cfg.setting.iv, 0),
                              Peer(Some(peer.State()), Some(n)), MaskedFrom(cfg, env.united, ticket, n)),
                       conn, ticket)
    {
      hide CommonConn.Parts;
      var out := new AEAD(env, pfsPublicKey);
      var link := S.NewLink(cfg, conn, env.united, cfg.setting.iv, Some(ticket), 0, n);
      c := new CommonConn(env, conn, link, [], out, peer, Some(n), null);
      forall o | o in c.Parts() ensures fresh(o) || o == peer || o == peer.nonce {
        c.IsPart(o);
      }
    }

    // The cached ticket: expireAt, ticket and pfsKey.
    ghost function Cached(): (int, bytes, bytes)
      reads cache
    {
      (cache.expireAt, cache.ticket, cache.pfsKey)
    }

    // Unless the padding drawn makes the handshake panic, or a relay's key is
    // refused: a client with a live ticket resumes without sending anything;
    // any other sends the 1-RTT hello and makes of the answer what
    // OneRttClient says.
    method Handshake(conn: Net.Conn, aes: bool, now: int, later: int)
      returns (c: CommonConn?, panicked: bool, ghost iv: bytes, ghost randoms: seq<bytes>, ghost keys: ClientKeys, ghost padding: bytes,
               ghost drawn: seq<int>)
      requires Sound(cfg.setting.suite) && Agrees(cfg.setting.exchange) && Padding.Parsable(paddingLens) && nfsPKeys != []
      modifies conn, cache
      ensures |iv| == IV_LENGTH && |randoms| == |nfsPKeys| && Drawn(drawn)
      ensures panicked <==>
                || !Padding.Allocated(Head(), drawn)
                || (Admitted(cfg.setting.exchange, nfsPKeys) && !old(cache.seconds > 0 && now < cache.expireAt)
                    && !Padding.Sendable(Head(), drawn))
      ensures panicked || !Admitted(cfg.setting.exchange, nfsPKeys) ==> c == null && unchanged(cache)
      ensures !Admitted(cfg.setting.exchange, nfsPKeys) ==> unchanged(conn)
      ensures !panicked && Admitted(cfg.setting.exchange, nfsPKeys) ==>
        var used := cfg.(setting := cfg.setting.(iv := iv));
        var relays, nfsKey := Wrap(used.setting, nfsPKeys, randoms, None), FinalKey(used.setting, nfsPKeys, randoms);
        if old(cache.seconds > 0 && now < cache.expireAt)
        then
          && c != null && fresh(c.Parts()) && c.client == cache && unchanged(conn) && unchanged(cache)
          && forall serverRandom: bytes ::
               S.Stands(c, ZeroRttClient(used, aes, relays, nfsKey, cache.ticket, cache.pfsKey, serverRandom), conn, serverRandom)
        else
          var r := OneRttClient(used, aes, nfsKey, keys, old(conn.incoming));
          && |padding| == Padding.Sum(drawn) - ENCRYPTED_LENGTH_SIZE - TAG_LENGTH
          && conn.sent == old(conn.sent) + OneRttHello(used, aes, relays, nfsKey, PfsPublicKey(cfg.setting.exchange, keys), padding)
          && MayKeep(old(Cached()), Cached(), cache.seconds, TicketFrom(used, aes, nfsKey, keys, old(conn.incoming)), later)
          && (if c == null then r.ClientFails?
              else r.ClientDone? && S.Stands(c, r.end, conn, r.ticket) && fresh(c.Parts()) && c.client == null && conn.incoming == r.rest
                   && |r.ticket| == TICKET_LENGTH && Kept(old(Cached()), Cached(), cache.seconds, r.ticket, r.pfsKey, later))
    {
      hide Wrap, FinalKey, OneRttHello, OneRttClientTicket, OneRttClient, ZeroRttClient, S.Stands, Sound, Agrees, Kinds, RelaysLength;
      hide Kept, MayKeep, Drawn, Admitted, Padding.Parsable, Padding.Sum;
      c, panicked, keys, padding := null, false, ClientKeys([], []), [];
      var length, lens := DrawPadding();
      drawn := lens;
      var ivBytes := Net.RandomBytes(IV_LENGTH);
      iv := ivBytes;
      var used := cfg.(setting := cfg.setting.(iv := ivBytes));
      var draws := DrawRandoms();
      randoms := draws;
      if length < 0 || Head() + length >= Padding.INT_RANGE {
        panicked := true;
        return;
      }
      var relays := new byte[RelaysLength(Kinds(nfsPKeys))];
      var nfsKey := WrapRelays(used.setting, nfsPKeys, draws, relays);
      if nfsKey.None? {
        return;
      }
      var nfs := new AEAD(Env(used.setting.suite, nfsKey.value, aes), ivBytes);
      if cache.CanResume(now) {
        c := Resume(used, aes, relays[..], nfsKey.value, nfs, conn);
      } else {
        c, panicked, keys, padding := Exchange(used, aes, relays[..], nfsKey.value, nfs, conn, later, length, lens);
      }
    }

    method DrawPadding() returns (length: int, lens: seq<int>)
      ensures Drawn(lens) && length == Padding.Int64(Padding.Sum(lens))
    {
      var gaps;
      length, lens, gaps := Padding.CreatePadding(paddingLens, paddingGaps);
    }

    method Exchange(cfg: Config, aes: bool, relays: bytes, nfsKey: bytes, nfs: AEAD, conn: Net.Conn, now: int, length: int, lens: seq<int>)
      returns (c: CommonConn?, panicked: bool, ghost keys: ClientKeys, ghost padding: bytes)
      requires Sound(cfg.setting.suite) && Agrees(cfg.setting.exchange) && Padding.Parsable(paddingLens)
      requires nfs.Valid() && nfs.suite == cfg.setting.suite
      requires nfs.State() == CipherFor(cfg.setting.suite, cfg.setting.iv, nfsKey, aes)
      requires Drawn(lens) && length == Padding.Int64(Padding.Sum(lens))
      modifies conn, cache, nfs.nonce
      ensures panicked == !Padding.Sendable(|cfg.setting.iv| + |relays| + KEYS_LENGTH, lens)
      ensures panicked ==> c == null && unchanged(cache)
      ensures !panicked ==> MayKeep(old(Cached()), Cached(), cache.seconds, TicketFrom(cfg, aes, nfsKey, keys, old(conn.incoming)), now)
      ensures !panicked ==>
                && |padding| == Padding.Sum(lens) - ENCRYPTED_LENGTH_SIZE - TAG_LENGTH
                && conn.sent == old(conn.sent) + OneRttHello(cfg, aes, relays, nfsKey, PfsPublicKey(cfg.setting.exchange, keys), padding)
      ensures
        var r := OneRttClient(cfg, aes, nfsKey, keys, old(conn.incoming));
        !panicked ==>
          if c == null then r.ClientFails?
          else r.ClientDone? && S.Stands(c, r.end, conn, r.ticket) && fresh(c.Parts()) && c.client == null && conn.incoming == r.rest
               && |r.ticket| == TICKET_LENGTH && Kept(old(Cached()), Cached(), cache.seconds, r.ticket, r.pfsKey, now)
    {
      hide OneRttHello, OneRttClient, ReplyOf, TicketFrom, TicketOf, S.Stands, Sound, Kept, Drawn, Padding.Parsable, Padding.Sum;
      c := null;
      var x := cfg.setting.exchange;
      var mlkem := Net.RandomBytes(64);
      var x25519 := Net.RandomBytes(32);
      keys := ClientKeys(mlkem, x25519);
      var pfsPublicKey := x.publicOf(MLKEM, mlkem) + x.publicOf(X25519, x25519);
      panicked, padding := SendHello(cfg, aes, relays, nfsKey, nfs, pfsPublicKey, conn, length, lens);
      if panicked {
        return;
      }
      ReplyDecides(cfg, aes, nfsKey, keys, conn.incoming);
      var reply, pfsKey := ReadReply(cfg, aes, nfsKey, nfs, ClientKeys(mlkem, x25519), conn);
      if pfsKey.Some? {
        var env := Env(cfg.setting.suite, pfsKey.value + nfsKey, aes);
        SameKey(cfg, env, keys, NewCipher(env, reply), pfsKey.value, conn.incoming);
        c := Finish(cfg, env, ClientKeys(mlkem, x25519), pfsPublicKey, reply, pfsKey.value, conn, now);
      }
    }
  }

  // The client's sealed keys behind their sealed length.
  const KEYS_LENGTH := ENCRYPTED_LENGTH_SIZE + PFS_PUBLIC_KEY_LENGTH + TAG_LENGTH

  lemma ReplyDecides(cfg: Config, aes: bool, nfsKey: bytes, keys: ClientKeys, d: bytes)
    ensures
      var r := ReplyOf(cfg, aes, nfsKey, keys, d);
      if r.None? then OneRttClient(cfg, aes, nfsKey, keys, d) == ClientFails && TicketFrom(cfg, aes, nfsKey, keys, d) == None
      else
        var env := Env(cfg.setting.suite, r.value.1 + nfsKey, aes);
        var ticket := TicketOf(env.suite, NewCipher(env, r.value.0), r.value.2);
        && OneRttClient(cfg, aes, nfsKey, keys, d)
           == OneRttClientTicket(cfg, env, keys, NewCipher(env, r.value.0), r.value.1, r.value.2)
        && TicketFrom(cfg, aes, nfsKey, keys, d) == if ticket.None? then None else Some((ticket.value, r.value.1))
  {
  }

  lemma SameKey(cfg: Config, env: Env, keys: ClientKeys, peer: Cipher, pfsKey: bytes, d: bytes)
    ensures OneRttClientTicket(cfg, env, keys, peer, pfsKey, d).ClientDone?
            ==> OneRttClientTicket(cfg, env, keys, peer, pfsKey, d).pfsKey == pfsKey
  {
  }

  // What Client.Keep leaves: the new ticket, when tickets are wanted and it is
  // worth at least a second.
  ghost predicate Kept(before: (int, bytes, bytes), after: (int, bytes, bytes), seconds: nat, ticket: bytes, pfsKey: bytes, now: int) {
    |ticket| >= 2 &&
    after == if seconds > 0 && FromBE16(ticket) > 0
             then (now + FromBE16(ticket) * ClientState.SECOND, ticket, pfsKey) else before
  }

  // The cache is as Keep leaves it if a ticket has come, and else as it was.
  ghost predicate MayKeep(before: (int, bytes, bytes), after: (int, bytes, bytes), seconds: nat, ticket: Option<(bytes, bytes)>, now: int) {
    if ticket.None? then after == before else Kept(before, after, seconds, ticket.value.0, ticket.value.1, now)
  }
}
