// Whole runs over an encrypted connection: any Writes at one end, and Reads of
// any sizes at the other over the bytes sent.
module ConnRuns {
  import opened Bytes
  import opened CommonConn
  import opened Crypto
  import opened Handshake
  import opened Header
  import opened Record
  import opened Relay
  import opened XorConn
  import opened HandOver
  import S = ServerHandshake

  // Writes, one after the other.
  method WriteAll(c: CommonConn, ws: seq<bytes>)
    requires c.Valid() && Sound(c.env.suite)
    modifies c`preWrite, c`aead, c.aead.nonce, c.raw`sent, c.xor, if c.xor == null then {} else {c.xor.ctr}
    ensures c.Valid() && (c.aead == old(c.aead) || fresh(c.aead.nonce))
    ensures c.raw.sent == old(c.raw.sent) + Carry(old(c.OutLink()), WireAll(c.env, old(c.Outgoing()), ws))
    decreases |ws|
  {
    hide Sound, Carry, AfterCarry, Wire, AfterWrite;
    ghost var l, s := c.OutLink(), c.Outgoing();
    if ws == [] {
      CarryAppend(l, [], []);
      assert c.raw.sent + [] == c.raw.sent;
      return;
    }
    ghost var sent := c.raw.sent;
    c.Write(ws[0]);
    WriteAll(c, ws[1..]);
    ghost var first, others := Wire(c.env, s, ws[0]), WireAll(c.env, AfterWrite(c.env, s, ws[0]), ws[1..]);
    CarryAppend(l, first, others);
    Assoc(sent, Carry(l, first), Carry(AfterCarry(l, first), others));
  }

  // How many of the Reads have room for a byte.
  function Roomy(sizes: seq<nat>): nat {
    if sizes == [] then 0 else (if sizes[0] > 0 then 1 else 0) + Roomy(sizes[1..])
  }

  // Reads of the given sizes, up to the first that fails. The ticket a client
  // came with is void exactly if no header was accepted before an invalid one.
  method ReadAll(c: CommonConn, sizes: seq<nat>, now: int) returns (got: bytes, err: Error)
    requires c.Valid() && Sound(c.env.suite) && c.Reading()
    modifies c`client, c`peerAEAD, c`peerPadding, c`rawInput, c`input, c`inputPos, c`inputEnd
    modifies if c.peerAEAD == null then {} else {c.peerAEAD.nonce}, c.peerPadding, c.peerHeader, c.rawInput
    modifies c.raw`incoming, c.xor, c.PeerFrame(), c.client
    ensures c.Valid()
    ensures err == NoError ==> c.Reading() && old(c.Plaintext()) == got + c.Plaintext() && |got| >= Roomy(sizes)
    ensures err != NoError ==> old(c.Plaintext()) == got
    ensures c.client == old(c.client) || c.client == null
    ensures old(c.client) != null ==>
              old(c.client).Stays(err == InvalidHeader && c.client == old(c.client), c.env.united, now)
    decreases |sizes|
  {
    hide Sound, CommonConn.Valid, CommonConn.Reading, CommonConn.Plaintext;
    got, err := [], NoError;
    if sizes == [] {
      assert [] + c.Plaintext() == c.Plaintext();
      return;
    }
    var b := new byte[sizes[0]];
    var n;
    n, err := c.Read(b, 0, b.Length, now);
    if err != NoError {
      return;
    }
    got := b[0..n];
    ghost var rest := c.Plaintext();
    assert old(c.Plaintext()) == got + rest;
    var others;
    others, err := ReadAll(c, sizes[1..], now);
    if err == NoError {
      Assoc(got, others, c.Plaintext());
    }
    got := got + others;
  }

  // What one end sends for ws, but for the skip first bytes, is read by the
  // other as exactly these, when it arrives behind before. An end that still
  // lacks its cipher finds peerIV first.
  ghost predicate Arrives(from: End, to: End, peerIV: bytes, before: bytes, skip: nat, ws: seq<bytes>) {
    from.out.Valid() && to.inward.Valid() &&
    var sent := Carry(from.out, WireAll(from.env, from.sender, ws));
    skip <= |sent| &&
    var coming := before + sent[skip..];
    && (to.peer.cipher.None? && |coming| >= IV_LENGTH ==> coming[..IV_LENGTH] == peerIV)
    && Pending(to.env, [], to.peer, Recover(to.inward, coming)) == Flatten(ws)
  }

  lemma ReadsAs(d: CommonConn, to: End, peerIV: bytes)
    requires S.Stands(d, to, d.raw, peerIV)
    requires to.peer.cipher.None? && |d.raw.incoming| >= IV_LENGTH ==> d.raw.incoming[..IV_LENGTH] == peerIV
    ensures to.inward.Valid() && d.Plaintext() == Pending(to.env, [], to.peer, Recover(to.inward, d.raw.incoming))
  {
    hide Recover, Receive;
  }

  lemma PartsOf(c: CommonConn)
    ensures {c, c.aead.nonce, c.input, c.rawInput, c.peerHeader} <= c.Parts()
    ensures c.peerAEAD != null ==> c.peerAEAD.nonce in c.Parts()
    ensures c.peerPadding != null ==> c.peerPadding in c.Parts()
    ensures c.xor != null ==> c.xor in c.Parts() && c.xor.ctr in c.Parts()
    ensures c.xor != null && c.xor.peerCTR != null ==> c.xor.peerCTR in c.Parts()
  {
  }

  method SendAll(c: CommonConn, ghost from: End, ghost iv: bytes, ws: seq<bytes>) returns (sent: bytes)
    requires S.Stands(c, from, c.raw, iv) && Sound(from.env.suite)
    modifies c`preWrite, c`aead, c.aead.nonce, c.raw`sent, c.xor, if c.xor == null then {} else {c.xor.ctr}
    ensures from.out.Valid() && sent == Carry(from.out, WireAll(from.env, from.sender, ws))
  {
    hide Sound, Carry, WireAll;
    var earlier := |c.raw.sent|;
    WriteAll(c, ws);
    sent := c.raw.sent[earlier..];
  }

  method ReadComing(d: CommonConn, ghost to: End, ghost iv: bytes, coming: bytes, sizes: seq<nat>, now: int) returns (got: bytes, err: Error)
    requires S.Stands(d, to, d.raw, iv) && Sound(to.env.suite)
    requires to.peer.cipher.None? && |coming| >= IV_LENGTH ==> coming[..IV_LENGTH] == iv
    modifies d.Parts(), d.raw, d.client
    ensures to.inward.Valid()
    ensures
      var text := Pending(to.env, [], to.peer, Recover(to.inward, coming));
      got <= text && if err == NoError then |got| >= Roomy(sizes) else got == text
  {
    hide Sound, Recover, Pending;
    d.raw.incoming := coming;
    ReadsAs(d, to, iv);
    got, err := ReadAll(d, sizes, now);
  }

  // From object to object: c writes ws and d, at which that arrives, reads with
  // any sizes: the beginning of what was written, a byte at least for every
  // Read with room, and so with as many of them as there are bytes all of it.
  method WrittenIsRead(c: CommonConn, d: CommonConn, ghost from: End, ghost to: End, ghost ivC: bytes, ghost ivD: bytes,
                       before: bytes, skip: nat, ws: seq<bytes>, sizes: seq<nat>, now: int) returns (got: bytes)
    requires c.raw != d.raw && c.Parts() !! d.Parts()
    requires S.Stands(c, from, c.raw, ivC) && S.Stands(d, to, d.raw, ivD) && Sound(from.env.suite) && Sound(to.env.suite)
    requires Arrives(from, to, ivD, before, skip, ws)
    modifies c.Parts(), c.raw, d.Parts(), d.raw, d.client
    ensures got <= Flatten(ws) && |got| >= Min(Roomy(sizes), |Flatten(ws)|)
  {
    hide Sound, Carry, Recover, WireAll, Pending, Flatten, S.Stands, CommonConn.Parts;
    PartsOf(c);
    PartsOf(d);
    assert c.xor != null ==> c.xor !in d.Parts() && c.xor.ctr !in d.Parts();
    var sent := SendAll(c, from, ivC, ws);
    assert unchanged(d) && d.PeerFrame() == old(d.PeerFrame());
    var err;
    got, err := ReadComing(d, to, ivD, before + sent[skip..], sizes, now);
  }

  // The four ways over the two ends a handshake leaves.

  lemma ZeroRttUploadArrives(cfg: Config, aes: bool, relays: bytes, nfsKey: bytes, ticket: bytes, pfsKey: bytes, serverRandom: bytes,
                             ws: seq<bytes>)
    requires Lawful(cfg) && Flatten(ws) != []
    ensures Arrives(ZeroRttClient(cfg, aes, relays, nfsKey, ticket, pfsKey, serverRandom),
                    ZeroRttServer(cfg, aes, nfsKey, EncryptedTicket(cfg, aes, nfsKey, ticket), pfsKey, serverRandom),
                    cfg.setting.iv, [], |ZeroRttHello(cfg, aes, relays, nfsKey, ticket)|, ws)
  {
    hide Sound, Separates, Agrees, Carry, Recover, WireAll, Pending, Flatten, ZeroRttHello, EncryptedTicket;
    var client := ZeroRttClient(cfg, aes, relays, nfsKey, ticket, pfsKey, serverRandom);
    ZeroRttUpload(cfg, aes, relays, nfsKey, ticket, pfsKey, serverRandom, ws);
    var sent := Carry(client.out, WireAll(client.env, client.sender, ws));
    var hello := ZeroRttHello(cfg, aes, relays, nfsKey, ticket);
    assert [] + sent[|hello|..] == sent[|hello|..];
  }

  lemma ZeroRttDownloadArrives(cfg: Config, aes: bool, relays: bytes, nfsKey: bytes, ticket: bytes, pfsKey: bytes, serverRandom: bytes,
                               ws: seq<bytes>)
    requires Lawful(cfg) && |serverRandom| == IV_LENGTH
    ensures Arrives(ZeroRttServer(cfg, aes, nfsKey, EncryptedTicket(cfg, aes, nfsKey, ticket), pfsKey, serverRandom),
                    ZeroRttClient(cfg, aes, relays, nfsKey, ticket, pfsKey, serverRandom), serverRandom, [], 0, ws)
  {
    hide Sound, Separates, Agrees, Carry, Recover, WireAll, Pending, Flatten, ZeroRttHello, EncryptedTicket;
    var server := ZeroRttServer(cfg, aes, nfsKey, EncryptedTicket(cfg, aes, nfsKey, ticket), pfsKey, serverRandom);
    ZeroRttDownload(cfg, aes, relays, nfsKey, ticket, pfsKey, serverRandom, ws);
    var sent := Carry(server.out, WireAll(server.env, server.sender, ws));
    assert [] + sent[0..] == sent;
    RandomComesFirst(cfg, server, serverRandom, ws);
  }

  // A 0-RTT server's random is sent in the clear, ahead of the first record.
  lemma RandomComesFirst(cfg: Config, server: End, serverRandom: bytes, ws: seq<bytes>)
    requires Sound(server.env.suite) && |serverRandom| == IV_LENGTH && server.sender == Sender(serverRandom, NewCipher(server.env, serverRandom))
    requires server.out == MaskedFrom(cfg, server.env.united, serverRandom, IV_LENGTH)
    ensures
      var sent := Carry(server.out, WireAll(server.env, server.sender, ws));
      |sent| >= IV_LENGTH ==> sent[..IV_LENGTH] == serverRandom
  {
    hide Sound, Carry, WireAll, Flatten, Receive;
    if Flatten(ws) == [] {
      NothingToWrite(server.env, server.sender, ws);
      CarryAppend(server.out, [], []);
    } else {
      RepeatDiffers();
      PrefixedWritesAreReceived(server.env, server.sender, ws);
      var records := WireAll(server.env, server.sender.(pending := []), ws);
      CarriedIsRecovered(server.out, [], serverRandom, records);
    }
  }

  lemma OneRttUploadArrives(cfg: Config, aes: bool, nfsKey: bytes, keys: ClientKeys, r: ServerRandoms, n: nat, ws: seq<bytes>)
    requires Lawful(cfg)
    ensures
      var p := PfsPublicKey(cfg.setting.exchange, keys);
      && |p| >= PFS_PUBLIC_KEY_LENGTH
      && Arrives(OneRttClientEnd(cfg, aes, nfsKey, keys, r, n), OneRttServer(cfg, aes, nfsKey, p, r), cfg.setting.iv, [], 0, ws)
  {
    hide Sound, Separates, Agrees, Carry, Recover, WireAll, Pending, Flatten, PfsPublicKey, ServerPfsKey, PfsReply;
    OneRttUpload(cfg, aes, nfsKey, keys, r, n, ws);
    var client := OneRttClientEnd(cfg, aes, nfsKey, keys, r, n);
    var sent := Carry(client.out, WireAll(client.env, client.sender, ws));
    assert [] + sent[0..] == sent;
  }

  lemma OneRttDownloadArrives(cfg: Config, aes: bool, nfsKey: bytes, keys: ClientKeys, r: ServerRandoms, padding: bytes, ws: seq<bytes>)
    requires Lawful(cfg)
    ensures
      var p := PfsPublicKey(cfg.setting.exchange, keys);
      && |p| >= PFS_PUBLIC_KEY_LENGTH
      && Arrives(OneRttServer(cfg, aes, nfsKey, p, r), OneRttClientEnd(cfg, aes, nfsKey, keys, r, |padding| + TAG_LENGTH), r.ticket,
                 SealedPadding(cfg, aes, nfsKey, p, r, padding), 0, ws)
  {
    hide Sound, Separates, Agrees, Carry, Recover, WireAll, Pending, Flatten, PfsPublicKey, ServerPfsKey, PfsReply, SealedPadding;
    OneRttDownload(cfg, aes, nfsKey, keys, r, padding, ws);
    var server := OneRttServer(cfg, aes, nfsKey, PfsPublicKey(cfg.setting.exchange, keys), r);
    var sent := Carry(server.out, WireAll(server.env, server.sender, ws));
    assert sent[0..] == sent;
  }
}
