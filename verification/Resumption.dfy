// A 1-RTT handshake and, within the life of its ticket, a 0-RTT one with the
// same server.
module Resumption {
  import opened Bytes
  import opened CommonConn
  import opened Crypto
  import opened Handshake
  import opened HandOver
  import opened Header
  import opened Record
  import opened Relay
  import opened XorConn
  import C = ClientHandshake
  import S = ServerHandshake
  import ClientState
  import Tickets

  type Event = Tickets.Event<bytes, Tickets.ServiceSession>
  type World = Tickets.World<bytes, Tickets.ServiceSession>

  // What a ticket service went through since its start: the tickets it issued
  // and the cleanups it made, up to some ticket and from there on.
  datatype History = History(from: nat, to: nat, clock: int, earlier: seq<Event>, since: seq<Event>) {
    function Start(): World {
      Tickets.Start(Tickets.ZERO_TICKET, from, to, clock)
    }

    function Before(): World {
      Tickets.Run(Start(), earlier)
    }

    function After(now: int, ticket: bytes, session: Tickets.ServiceSession): World {
      Tickets.Happen(Before(), Tickets.Issued(now, ticket, session))
    }

    function Now(now: int, ticket: bytes, session: Tickets.ServiceSession): World {
      Tickets.Run(After(now, ticket, session), since)
    }

    ghost predicate Possible(now: int, ticket: bytes, session: Tickets.ServiceSession) {
      && Tickets.PossibleRun(Start(), earlier)
      && Tickets.Possible(Before(), Tickets.Issued(now, ticket, session))
      && Tickets.PossibleRun(After(now, ticket, session), since)
    }
  }

  // The client uses the ticket before its own deadline, and the messages that
  // brought it the ticket and bring it back were no more than a minute under
  // way.
  predicate Timely(ticket: bytes, issued: int, received: int, used: int, arrival: int)
    requires |ticket| >= 2
  {
    && used < received + FromBE16(ticket) * ClientState.SECOND
    && (received - issued) + (arrival - used) <= 60 * ClientState.SECOND
  }

  // A ticket filed as Server.Handshake says is known with its key when it comes
  // back in time.
  lemma StillKnown(h: History, store: Tickets.Store<bytes, Tickets.ServiceSession>, ticket: bytes, pfsKey: bytes,
                   issued: int, received: int, used: int, arrival: int)
    requires S.Issued(h.Before().store, store, h.from, h.to, issued, ticket, pfsKey) && FromBE16(ticket) > 0
    requires ticket in store.sessions && h.Possible(issued, ticket, store.sessions[ticket])
    requires Timely(ticket, issued, received, used, arrival)
    requires h.Now(issued, ticket, store.sessions[ticket]).clock <= arrival
    ensures
      var w := h.Now(issued, ticket, store.sessions[ticket]);
      && h.After(issued, ticket, store.sessions[ticket]).store == store
      && ticket in w.store.sessions && w.store.sessions[ticket].pfsKey == pfsKey
  {
    hide Tickets.Run, Tickets.PossibleRun;
    BE16RoundTrip(FromBE16(ticket));
    Tickets.RunKeepsBounds(h.Start(), h.earlier);
    Tickets.PromiseFromStart(Tickets.ZERO_TICKET, h.from, h.to, h.clock, h.earlier, issued, ticket, store.sessions[ticket],
                             FromBE16(ticket), received, used, arrival, h.since);
  }

  // The client's side: the answer it reads leaves the server's ticket and key
  // in its cache.
  lemma TicketIsCached(cfg: Config, aes: bool, nfsKey: bytes, keys: ClientKeys, r: ServerRandoms, padding: bytes, later: bytes,
                       empty: (int, bytes, bytes), cached: (int, bytes, bytes), seconds: nat, received: int)
    requires Lawful(cfg) && |r.ticket| == TICKET_LENGTH && |padding| + TAG_LENGTH < 0x10000
    requires seconds > 0 && FromBE16(r.ticket) > 0
    ensures
      var p := PfsPublicKey(cfg.setting.exchange, keys);
      && |p| >= PFS_PUBLIC_KEY_LENGTH
      && var c := OneRttClient(cfg, aes, nfsKey, keys, OneRttServerHello(cfg, aes, nfsKey, p, r, padding) + later);
         && c.ClientDone?
         && (C.Kept(empty, cached, seconds, c.ticket, c.pfsKey, received) ==>
               cached == (received + FromBE16(r.ticket) * ClientState.SECOND, r.ticket, ServerPfsKey(cfg.setting.exchange, p, r)))
  {
    hide OneRttClient, OneRttServerHello, PfsPublicKey, ServerPfsKey, Lawful;
    OneRttIsCompleted(cfg, aes, nfsKey, keys, r, padding, later);
  }

  // What goes each way over a connection resumed with a ticket and its key: the
  // server serves whatever the client has sent, and reads from it what the
  // client wrote, xs; the client reads what the server wrote, ys.
  ghost predicate Resumes(cfg: Config, aes: bool, sks: seq<SecretKey>, randoms: seq<bytes>, sessions: map<bytes, bytes>,
                          ticket: bytes, pfsKey: bytes, serverRandom: bytes, r: ServerRandoms, padding: bytes,
                          xs: seq<bytes>, ys: seq<bytes>)
    requires Lawful(cfg) && sks != [] && |randoms| == |sks|
  {
    var pks := PublicKeys(cfg.setting.exchange, sks);
    Admitted(cfg.setting.exchange, pks) &&
    var relays, nfsKey := Wrap(cfg.setting, pks, randoms, None), FinalKey(cfg.setting, pks, randoms);
    var client := ZeroRttClient(cfg, aes, relays, nfsKey, ticket, pfsKey, serverRandom);
    var sent := Carry(client.out, WireAll(client.env, client.sender, xs));
    var served := Serve(cfg, sks, true, sessions, serverRandom, r, padding, sent);
    served.ServerZeroRtt? && served.ticket == ticket &&
    var server := served.end;
    && server.env.united == client.env.united
    && Pending(server.env, [], server.peer, Recover(server.inward, served.rest)) == Flatten(xs)
    && Pending(client.env, [], client.peer,
               Recover(client.inward, Carry(server.out, WireAll(server.env, server.sender, ys)))) == Flatten(ys)
  }

  lemma KnownTicketResumes(cfg: Config, aes: bool, sks: seq<SecretKey>, randoms: seq<bytes>, sessions: map<bytes, bytes>,
                           ticket: bytes, serverRandom: bytes, r: ServerRandoms, padding: bytes,
                           xs: seq<bytes>, ys: seq<bytes>)
    requires Lawful(cfg) && sks != [] && |randoms| == |sks| && |cfg.setting.iv| == IV_LENGTH
    requires |ticket| == TICKET_LENGTH && ticket in sessions && |serverRandom| == IV_LENGTH && Flatten(xs) != []
    ensures Resumes(cfg, aes, sks, randoms, sessions, ticket, sessions[ticket], serverRandom, r, padding, xs, ys)
  {
    hide Sound, Separates, Agrees, Serve, Wrap, FinalKey, Admitted, PublicKeys, Carry, Recover, WireAll, Pending;
    hide ZeroRttHello, EncryptedTicket, Flatten;
    var pks := PublicKeys(cfg.setting.exchange, sks);
    ZeroRttIsServed(cfg, aes, sks, randoms, sessions, ticket, serverRandom, r, padding, []);
    var relays, nfsKey := Wrap(cfg.setting, pks, randoms, None), FinalKey(cfg.setting, pks, randoms);
    var client := ZeroRttClient(cfg, aes, relays, nfsKey, ticket, sessions[ticket], serverRandom);
    var sent := Carry(client.out, WireAll(client.env, client.sender, xs));
    var hello := ZeroRttHello(cfg, aes, relays, nfsKey, ticket);
    ZeroRttUpload(cfg, aes, relays, nfsKey, ticket, sessions[ticket], serverRandom, xs);
    ZeroRttDownload(cfg, aes, relays, nfsKey, ticket, sessions[ticket], serverRandom, ys);
    ZeroRttIsServed(cfg, aes, sks, randoms, sessions, ticket, serverRandom, r, padding, sent[|hello|..]);
    assert hello + sent[|hello|..] == sent;
  }

  // From one handshake to the next: the server files a ticket for the keys of a
  // 1-RTT handshake, whatever it has issued and cleaned up before and does
  // until the ticket comes back; the client reads the server's answer, caches
  // the ticket and uses it in time. Then the server serves the 0-RTT hello with
  // the keys of the first handshake, and all that either end writes is read by
  // the other.
  lemma ResumptionIsServed(
      cfg: Config, sks: seq<SecretKey>,
      first: bytes, aes: bool, nfsKey: bytes, keys: ClientKeys, r: ServerRandoms, padding: bytes, later: bytes,
      h: History, store: Tickets.Store<bytes, Tickets.ServiceSession>,
      empty: (int, bytes, bytes), cached: (int, bytes, bytes), seconds: nat,
      issued: int, received: int, used: int, arrival: int,
      aes2: bool, randoms: seq<bytes>, serverRandom: bytes, r2: ServerRandoms, padding2: bytes, xs: seq<bytes>, ys: seq<bytes>)
    requires Lawful(cfg) && sks != [] && |randoms| == |sks| && |cfg.setting.iv| == IV_LENGTH
    requires |r.ticket| == TICKET_LENGTH && FromBE16(r.ticket) > 0 && |padding| + TAG_LENGTH < 0x10000
    requires |PfsPublicKey(cfg.setting.exchange, keys)| >= PFS_PUBLIC_KEY_LENGTH
    // the server
    requires S.Issued(h.Before().store, store, h.from, h.to, issued, r.ticket,
                      ServerPfsKey(cfg.setting.exchange, PfsPublicKey(cfg.setting.exchange, keys), r))
    requires r.ticket in store.sessions && h.Possible(issued, r.ticket, store.sessions[r.ticket])
    requires h.Now(issued, r.ticket, store.sessions[r.ticket]).clock <= arrival
    // the client
    requires seconds > 0
    requires
      var cfg1 := cfg.(setting := cfg.setting.(iv := first));
      var c := OneRttClient(cfg1, aes, nfsKey, keys,
                            OneRttServerHello(cfg1, aes, nfsKey, PfsPublicKey(cfg.setting.exchange, keys), r, padding) + later);
      c.ClientDone? ==> C.Kept(empty, cached, seconds, c.ticket, c.pfsKey, received)
    requires used < cached.0 && (received - issued) + (arrival - used) <= 60 * ClientState.SECOND
    requires |serverRandom| == IV_LENGTH && Flatten(xs) != []
    ensures
      Resumes(cfg, aes2, sks, randoms, S.PfsKeys(h.Now(issued, r.ticket, store.sessions[r.ticket]).store.sessions),
              cached.1, cached.2, serverRandom, r2, padding2, xs, ys)
  {
    hide Resumes, OneRttClient, OneRttServerHello, PfsPublicKey, ServerPfsKey, S.Issued, C.Kept, Tickets.Run, Tickets.PossibleRun, Flatten;
    var cfg1 := cfg.(setting := cfg.setting.(iv := first));
    TicketIsCached(cfg1, aes, nfsKey, keys, r, padding, later, empty, cached, seconds, received);
    var pfsKey := ServerPfsKey(cfg.setting.exchange, PfsPublicKey(cfg.setting.exchange, keys), r);
    StillKnown(h, store, r.ticket, pfsKey, issued, received, used, arrival);
    var sessions := S.PfsKeys(h.Now(issued, r.ticket, store.sessions[r.ticket]).store.sessions);
    KnownTicketResumes(cfg, aes2, sks, randoms, sessions, r.ticket, serverRandom, r2, padding2, xs, ys);
  }
}
