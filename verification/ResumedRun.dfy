// A resumed connection from end to end: both handshakes, what the client writes
// and what the server reads of it.
module ResumedRun {
  import opened Bytes
  import opened CommonConn
  import opened ConnRuns
  import opened Crypto
  import opened Handshake
  import opened HandOver
  import opened Header
  import opened Record
  import opened Relay
  import opened XorConn
  import C = ClientHandshake
  import S = ServerHandshake
  import Net
  import Padding
  import Tickets

  function WithIv(cfg: Config, iv: bytes): Config {
    cfg.(setting := cfg.setting.(iv := iv))
  }

  // The server takes the IV from the hello.
  lemma ServeTakesIv(cfg: Config, iv: bytes, sks: seq<SecretKey>, allow0Rtt: bool, sessions: map<bytes, bytes>,
                     serverRandom: bytes, r: ServerRandoms, padding: bytes, d: bytes)
    requires sks != []
    ensures Serve(WithIv(cfg, iv), sks, allow0Rtt, sessions, serverRandom, r, padding, d)
         == Serve(cfg, sks, allow0Rtt, sessions, serverRandom, r, padding, d)
  {
    hide ServeKeyed, Unwrap, RelaysLength, PublicKeys, Kinds;
    assert forall x: bytes :: WithIv(cfg, iv).setting.(iv := x) == cfg.setting.(iv := x);
    assert forall x: bytes :: WithIv(cfg, iv).(setting := cfg.setting.(iv := x)) == cfg.(setting := cfg.setting.(iv := x));
  }

  // The client's end when it resumes with a ticket and its key.
  ghost function ClientEnd(cfg: Config, aes: bool, pks: seq<PublicKey>, randoms: seq<bytes>, ticket: bytes, pfsKey: bytes,
                           serverRandom: bytes): End
    requires Agrees(cfg.setting.exchange) && Admitted(cfg.setting.exchange, pks) && pks != [] && |randoms| == |pks|
  {
    var relays, nfsKey := Wrap(cfg.setting, pks, randoms, None), FinalKey(cfg.setting, pks, randoms);
    ZeroRttClient(cfg, aes, relays, nfsKey, ticket, pfsKey, serverRandom)
  }

  ghost function FirstSent(client: End, ws: seq<bytes>): bytes
    requires client.out.Valid()
  {
    Carry(client.out, WireAll(client.env, client.sender, ws))
  }

  // What a client that resumes sends with its first records is served, and
  // the records are left for the server's end to read.
  lemma FirstRecordsAreServed(cfg: Config, aes: bool, sks: seq<SecretKey>, randoms: seq<bytes>, sessions: map<bytes, bytes>,
                              ticket: bytes, clientRandom: bytes, serverRandom: bytes, r: ServerRandoms, padding: bytes, ws: seq<bytes>)
    requires Lawful(cfg) && sks != [] && |randoms| == |sks| && |cfg.setting.iv| == IV_LENGTH
    requires |ticket| == TICKET_LENGTH && ticket in sessions && Flatten(ws) != []
    ensures Admitted(cfg.setting.exchange, PublicKeys(cfg.setting.exchange, sks))
    ensures
      var pks := PublicKeys(cfg.setting.exchange, sks);
      var client := ClientEnd(cfg, aes, pks, randoms, ticket, sessions[ticket], clientRandom);
      client.out.Valid() &&
      var sent := FirstSent(client, ws);
      var served := Serve(cfg, sks, true, sessions, serverRandom, r, padding, sent);
      && cfg.setting.iv <= sent
      && served.ServerZeroRtt? && served.ticket == ticket
      && served.end.env.suite == cfg.setting.suite && served.end.peer.cipher.Some? && served.end.inward.Valid()
      && Pending(served.end.env, [], served.end.peer, Recover(served.end.inward, served.rest)) == Flatten(ws)
  {
    hide Sound, Separates, Agrees, Serve, Wrap, FinalKey, Admitted, PublicKeys, Carry, Recover, WireAll, Pending, Flatten, EncryptedTicket;
    hide ZeroRttHello;
    var pks := PublicKeys(cfg.setting.exchange, sks);
    ZeroRttIsServed(cfg, aes, sks, randoms, sessions, ticket, serverRandom, r, padding, []);
    var relays, nfsKey := Wrap(cfg.setting, pks, randoms, None), FinalKey(cfg.setting, pks, randoms);
    var client := ZeroRttClient(cfg, aes, relays, nfsKey, ticket, sessions[ticket], clientRandom);
    var sent := Carry(client.out, WireAll(client.env, client.sender, ws));
    var hello := ZeroRttHello(cfg, aes, relays, nfsKey, ticket);
    SameUpload(cfg, aes, relays, nfsKey, ticket, sessions[ticket], clientRandom, serverRandom);
    ZeroRttUpload(cfg, aes, relays, nfsKey, ticket, sessions[ticket], serverRandom, ws);
    ZeroRttIsServed(cfg, aes, sks, randoms, sessions, ticket, serverRandom, r, padding, sent[|hello|..]);
    assert hello + sent[|hello|..] == sent;
    HelloStarts(cfg, aes, relays, nfsKey, ticket);
  }

  // The server random matters only to what the client reads.
  lemma SameUpload(cfg: Config, aes: bool, relays: bytes, nfsKey: bytes, ticket: bytes, pfsKey: bytes, a: bytes, b: bytes)
    ensures
      var x, y := ZeroRttClient(cfg, aes, relays, nfsKey, ticket, pfsKey, a), ZeroRttClient(cfg, aes, relays, nfsKey, ticket, pfsKey, b);
      x.env == y.env && x.sender == y.sender && x.out == y.out
  {
  }

  lemma HelloStarts(cfg: Config, aes: bool, relays: bytes, nfsKey: bytes, ticket: bytes)
    ensures cfg.setting.iv <= ZeroRttHello(cfg, aes, relays, nfsKey, ticket)
  {
  }

  // A padding list that keeps the promised range lets every handshake send.
  ghost predicate Calm(lens: seq<Padding.Segment>, head: nat) {
    && Padding.Parsable(lens) && Padding.SumTop(Padding.EffectiveLens(lens)) <= Padding.MAX_TOTAL_PADDING
    && head + Padding.MAX_TOTAL_PADDING < Padding.INT_RANGE
  }

  lemma CalmSends(lens: seq<Padding.Segment>, head: nat, drawn: seq<int>)
    requires Calm(lens, head) && Padding.AllDrawable(Padding.EffectiveLens(lens), drawn)
    ensures Padding.Sendable(head, drawn) && Padding.Allocated(head, drawn) && Padding.Sum(drawn) <= Padding.MAX_TOTAL_PADDING
  {
    Padding.SumTopBounds(Padding.EffectiveLens(lens), drawn);
    Padding.PromisedRangeIsSendable(lens, drawn, head);
    Padding.DrawnFits(lens, drawn, head);
  }

  lemma StandsOn(c: CommonConn, end: End, conn: Net.Conn, iv: bytes)
    requires S.Stands(c, end, conn, iv)
    ensures c.raw == conn && c.env == end.env && c.Valid() && c.Reading()
  {
  }

  // The client resumes and writes.
  method DialAndWrite(dialer: C.Dialer, aes: bool, sks: seq<SecretKey>, ws: seq<bytes>, now: int, later: int)
    returns (sent: bytes, ghost iv: bytes, ghost randoms: seq<bytes>)
    requires Lawful(dialer.cfg) && sks != [] && dialer.nfsPKeys == PublicKeys(dialer.cfg.setting.exchange, sks)
    requires Calm(dialer.paddingLens, dialer.Head()) && dialer.cache.seconds > 0 && now < dialer.cache.expireAt
    modifies dialer.cache
    ensures unchanged(dialer.cache) && |iv| == IV_LENGTH && |randoms| == |sks|
    ensures Admitted(dialer.cfg.setting.exchange, dialer.nfsPKeys)
    ensures
      var client := ClientEnd(WithIv(dialer.cfg, iv), aes, dialer.nfsPKeys, randoms, dialer.cache.ticket, dialer.cache.pfsKey, iv);
      client.out.Valid() && sent == FirstSent(client, ws)
  {
    hide Sound, Separates, Agrees, Wrap, FinalKey, Admitted, Carry, WireAll, ZeroRttHello, EncryptedTicket;
    hide S.Stands, CommonConn.Parts, Padding.SumTop;
    OwnKeysAreAdmitted(dialer.cfg.setting.exchange, sks);
    var near := new Net.Conn([]);
    var c, panicked;
    ghost var keys, padding, drawn;
    c, panicked, iv, randoms, keys, padding, drawn := dialer.Handshake(near, aes, now, later);
    CalmSends(dialer.paddingLens, dialer.Head(), drawn);
    assert var used := dialer.cfg.(setting := dialer.cfg.setting.(iv := iv));
           var relays, nfsKey := Wrap(used.setting, dialer.nfsPKeys, randoms, None), FinalKey(used.setting, dialer.nfsPKeys, randoms);
           S.Stands(c, ZeroRttClient(used, aes, relays, nfsKey, dialer.cache.ticket, dialer.cache.pfsKey, iv), near, iv);
    ghost var client := ClientEnd(WithIv(dialer.cfg, iv), aes, dialer.nfsPKeys, randoms, dialer.cache.ticket, dialer.cache.pfsKey, iv);
    assert S.Stands(c, client, near, iv);
    PartsOf(c);
    StandsOn(c, client, near, iv);
    sent := SendAll(c, client, iv, ws);
  }

  // The server's side of it.
  method ServeAndRead(server: S.Server, coming: bytes, sizes: seq<nat>, arrival: int, ghost text: bytes, ghost ticket: bytes)
    returns (got: bytes, err: Error)
    requires Lawful(server.cfg) && server.nfsSKeys != [] && Calm(server.paddingLens, S.SERVER_HEAD)
    requires ticket in server.tickets.sessions && server.tickets.sessions[ticket].nfsKeys == {}
    requires |coming| >= IV_LENGTH
    requires forall serverRandom: bytes, r, padding ::
      var served := Serve(server.cfg, server.nfsSKeys, server.Allows0Rtt(), S.PfsKeys(server.tickets.sessions), serverRandom, r, padding, coming);
      && served.ServerZeroRtt? && served.ticket == ticket
      && Sound(served.end.env.suite) && served.end.peer.cipher.Some? && served.end.inward.Valid()
      && Pending(served.end.env, [], served.end.peer, Recover(served.end.inward, served.rest)) == text
    modifies server.tickets, server.tickets.sessions.Values
    ensures got <= text && if err == NoError then |got| >= Roomy(sizes) else got == text
  {
    hide Sound, Separates, Agrees, Serve, Recover, Pending, S.Stands, CommonConn.Parts, Padding.SumTop, S.PfsKeys;
    var far := new Net.Conn(coming);
    var d, panicked;
    ghost var serverRandom, r, padding, drawn;
    d, panicked, serverRandom, r, padding, drawn := server.Handshake(far, arrival);
    ghost var served := Serve(server.cfg, server.nfsSKeys, server.Allows0Rtt(), old(S.PfsKeys(server.tickets.sessions)), serverRandom, r,
                              padding, coming);
    if panicked {
      CalmSends(server.paddingLens, S.SERVER_HEAD, drawn);
    }
    PartsOf(d);
    StandsOn(d, served.end, far, coming[..IV_LENGTH]);
    ReadsAs(d, served.end, coming[..IV_LENGTH]);
    got, err := ReadAll(d, sizes, arrival);
  }

  // From end to end: a client with a live ticket dials, without an answer
  // writes ws, and a server that knows the ticket and has served no hello with
  // it reads with any sizes the beginning of what was written, a byte at least
  // for every Read with room, and so with enough of them all of it.
  method ResumedIsRead(dialer: C.Dialer, server: S.Server, aes: bool, ws: seq<bytes>, sizes: seq<nat>, now: int, later: int, arrival: int)
    returns (got: bytes)
    requires Lawful(server.cfg) && server.nfsSKeys != [] && (server.tickets.secondsFrom > 0 || server.tickets.secondsTo > 0)
    requires dialer.cfg == server.cfg && dialer.nfsPKeys == PublicKeys(server.cfg.setting.exchange, server.nfsSKeys)
    requires Calm(dialer.paddingLens, dialer.Head()) && Calm(server.paddingLens, S.SERVER_HEAD)
    requires dialer.cache.seconds > 0 && now < dialer.cache.expireAt && |dialer.cache.ticket| == TICKET_LENGTH
    requires dialer.cache.ticket in server.tickets.sessions
    requires server.tickets.sessions[dialer.cache.ticket].pfsKey == dialer.cache.pfsKey
    requires server.tickets.sessions[dialer.cache.ticket].nfsKeys == {}
    requires Flatten(ws) != []
    modifies dialer.cache, server.tickets, server.tickets.sessions.Values
    ensures got <= Flatten(ws) && |got| >= Min(Roomy(sizes), |Flatten(ws)|)
  {
    hide Sound, Separates, Agrees, Serve, Recover, Pending, Flatten, Admitted, ClientEnd, FirstSent, Calm;
    var sks := server.nfsSKeys;
    ghost var ticket, sessions := dialer.cache.ticket, S.PfsKeys(server.tickets.sessions);
    var sent;
    ghost var iv, randoms;
    sent, iv, randoms := DialAndWrite(dialer, aes, sks, ws, now, later);
    forall serverRandom: bytes, r, padding ensures
        var served := Serve(server.cfg, sks, true, sessions, serverRandom, r, padding, sent);
        && served.ServerZeroRtt? && served.ticket == ticket
        && Sound(served.end.env.suite) && served.end.peer.cipher.Some? && served.end.inward.Valid()
        && Pending(served.end.env, [], served.end.peer, Recover(served.end.inward, served.rest)) == Flatten(ws) {
      FirstRecordsAreServed(WithIv(server.cfg, iv), aes, sks, randoms, sessions, ticket, iv, serverRandom, r, padding, ws);
      ServeTakesIv(server.cfg, iv, sks, true, sessions, serverRandom, r, padding, sent);
    }
    FirstRecordsAreServed(WithIv(server.cfg, iv), aes, sks, randoms, sessions, ticket, iv, iv, ServerRandoms([], [], [], []), [], ws);
    var err;
    got, err := ServeAndRead(server, sent, sizes, arrival, Flatten(ws), ticket);
  }

  // A client without a live ticket, be it that its time is over, that an
  // invalid header voided it or that there never was one: what it sends is a
  // 1-RTT hello, which the server serves as such, whatever follows.
  method ExpiredDialsAnew(dialer: C.Dialer, aes: bool, sks: seq<SecretKey>, answer: bytes, now: int, later: int)
    returns (hello: bytes)
    requires Lawful(dialer.cfg) && sks != [] && dialer.nfsPKeys == PublicKeys(dialer.cfg.setting.exchange, sks)
    requires Calm(dialer.paddingLens, dialer.Head())
    requires dialer.cache.seconds == 0 || now >= dialer.cache.expireAt
    modifies dialer.cache
    ensures forall allow0Rtt, sessions, serverRandom, r, padding, rest ::
              Serve(dialer.cfg, sks, allow0Rtt, sessions, serverRandom, r, padding, hello + rest).ServerOneRtt?
  {
    hide Sound, Separates, Agrees, Serve, Wrap, FinalKey, Admitted, OneRttHello, OneRttClient, S.Stands, CommonConn.Parts;
    hide Padding.SumTop, PfsPublicKey, OneRttServer, OneRttServerHello, ServerPfsKey;
    OwnKeysAreAdmitted(dialer.cfg.setting.exchange, sks);
    var near := new Net.Conn(answer);
    var c, panicked;
    ghost var iv, randoms, keys, padding, drawn;
    c, panicked, iv, randoms, keys, padding, drawn := dialer.Handshake(near, aes, now, later);
    CalmSends(dialer.paddingLens, dialer.Head(), drawn);
    hello := near.sent;
    ghost var used := WithIv(dialer.cfg, iv);
    ghost var relays, nfsKey := Wrap(used.setting, dialer.nfsPKeys, randoms, None), FinalKey(used.setting, dialer.nfsPKeys, randoms);
    assert hello == OneRttHello(used, aes, relays, nfsKey, PfsPublicKey(used.setting.exchange, keys), padding);
    forall allow0Rtt, sessions, serverRandom, r, serverPadding, rest ensures
        Serve(dialer.cfg, sks, allow0Rtt, sessions, serverRandom, r, serverPadding, hello + rest).ServerOneRtt? {
      OneRttIsServed(used, aes, sks, randoms, allow0Rtt, sessions, keys, padding, serverRandom, r, serverPadding, rest);
      ServeTakesIv(dialer.cfg, iv, sks, allow0Rtt, sessions, serverRandom, r, serverPadding, hello + rest);
    }
  }
}
