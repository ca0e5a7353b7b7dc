// What a 0-RTT client makes of the noise that answers an unknown ticket, and
// when it makes it forget the ticket.
module TicketNoise {
  import opened Bytes
  import opened CommonConn
  import opened Crypto
  import opened Handshake
  import opened Header
  import Nonce
  import opened Record
  import opened XorConn

  const NOISE_HEADER_END := IV_LENGTH + HEADER_LENGTH

  // The client takes the first 16 bytes for the server's random, so what it
  // judges as a record header are the next five, unmasked in the mode that
  // masks headers.
  function JudgedHeader(cfg: Config, nfsKey: bytes, pfsKey: bytes, noise: bytes): (r: bytes)
    requires |noise| >= NOISE_HEADER_END
    ensures |r| == HEADER_LENGTH
  {
    var header := noise[IV_LENGTH..NOISE_HEADER_END];
    if cfg.random
    then XorStream(cfg.setting.suite.keystream(pfsKey + nfsKey, noise[..IV_LENGTH]), 0, header)
    else header
  }

  // What a client's first Read reports on the noise, whatever its hello.
  function FirstReport(cfg: Config, aes: bool, relays: bytes, nfsKey: bytes, ticket: bytes, pfsKey: bytes, noise: bytes): Error
    requires |noise| >= IV_LENGTH
  {
    var client := ZeroRttClient(cfg, aes, relays, nfsKey, ticket, pfsKey, noise[..IV_LENGTH]);
    Report(client.env, client.peer, Recover(client.inward, noise))
  }

  lemma NoiseRecovers(cfg: Config, aes: bool, relays: bytes, nfsKey: bytes, ticket: bytes, pfsKey: bytes, noise: bytes)
    requires |noise| >= NOISE_HEADER_END
    ensures
      var client := ZeroRttClient(cfg, aes, relays, nfsKey, ticket, pfsKey, noise[..IV_LENGTH]);
      var d := Recover(client.inward, noise);
      && |d| == |noise| && d[..IV_LENGTH] == noise[..IV_LENGTH]
      && d[IV_LENGTH..NOISE_HEADER_END] == JudgedHeader(cfg, nfsKey, pfsKey, noise)
  {
    hide Decode, AfterHeader;
    if cfg.random {
      var ks := cfg.setting.suite.keystream(pfsKey + nfsKey, noise[..IV_LENGTH]);
      var body, head, rest := noise[..IV_LENGTH], noise[IV_LENGTH..NOISE_HEADER_END], noise[NOISE_HEADER_END..];
      var h := Half(IV_LENGTH, [], 0);
      assert noise == body + (head + rest);
      DecodeTurn(ks, h, body, head, rest);
      var plain := XorStream(ks, 0, head);
      var later := Decode(ks, AfterHeader(h.(skip := 0), plain), rest);
      assert (body + plain + later)[..IV_LENGTH] == body && (body + plain + later)[IV_LENGTH..NOISE_HEADER_END] == plain;
    }
  }

  // The first Read reports an invalid header, which voids the ticket, exactly
  // when the recovered bytes 16 to 20 are not a header.
  lemma NoiseIsRefused(cfg: Config, aes: bool, relays: bytes, nfsKey: bytes, ticket: bytes, pfsKey: bytes, noise: bytes)
    requires |noise| >= NOISE_HEADER_END
    ensures FirstReport(cfg, aes, relays, nfsKey, ticket, pfsKey, noise) == InvalidHeader
            <==> !Accepted(JudgedHeader(cfg, nfsKey, pfsKey, noise))
  {
    NoiseRecovers(cfg, aes, relays, nfsKey, ticket, pfsKey, noise);
    var client := ZeroRttClient(cfg, aes, relays, nfsKey, ticket, pfsKey, noise[..IV_LENGTH]);
    hide ZeroRttHello, EncryptedTicket, Parse, Accepted, JudgedHeader, Recover, XorStream;
    var d := Recover(client.inward, noise);
    var records := d[IV_LENGTH..];
    assert records[..HEADER_LENGTH] == d[IV_LENGTH..NOISE_HEADER_END];
    ParseSteps(client.env, NewCipher(client.env, d[..IV_LENGTH]), records);
  }

  // Noise that the server sends: its first five bytes are no header. But the
  // client is told to wait for a record of 17 bytes, and keeps its ticket.
  function TrustedNoise(rest: bytes): bytes {
    Nonce.Repeat(0, IV_LENGTH) + (EncodeHeader(MIN_PACKET_LENGTH) + rest)
  }

  lemma TicketSurvivesNoise(cfg: Config, aes: bool, relays: bytes, nfsKey: bytes, ticket: bytes, pfsKey: bytes, rest: bytes)
    requires !cfg.random && |rest| >= 1279 - NOISE_HEADER_END
    ensures
      var noise := TrustedNoise(rest);
      && |noise| >= 1279 && !Accepted(noise[..HEADER_LENGTH])
      && FirstReport(cfg, aes, relays, nfsKey, ticket, pfsKey, noise) != InvalidHeader
  {
    var noise := TrustedNoise(rest);
    assert noise[..HEADER_LENGTH][0] == 0;
    HeaderRoundTrip(MIN_PACKET_LENGTH);
    assert noise[IV_LENGTH..NOISE_HEADER_END] == EncodeHeader(MIN_PACKET_LENGTH);
    NoiseIsRefused(cfg, aes, relays, nfsKey, ticket, pfsKey, noise);
  }
}
