// vless/encryption/common.go: the connection that cuts plaintext into records.
module CommonConn {
  import opened Bytes
  import opened ClientState
  import opened Crypto
  import opened Header
  import opened Net
  import opened Nonce
  import opened Record
  import opened XorConn

  const IV_LENGTH := 16

  // An AEAD with its own counter.
  class AEAD {
    const suite: Suite
    const key: CipherKey
    const nonce: array<byte>

    ghost predicate Valid() {
      nonce.Length == NONCE_LENGTH
    }

    ghost function State(): (c: Cipher)
      reads nonce
    {
      Cipher(key, nonce[..])
    }

    constructor (env: Env, context: bytes)
      ensures Valid() && fresh(nonce) && suite == env.suite && State() == NewCipher(env, context)
      ensures key == CipherKey(env.suite.derive(context, env.united), env.aes)
      ensures nonce.Length == 12 && forall i :: 0 <= i < 12 ==> nonce[i] == 0
    {
      suite := env.suite;
      key := CipherKey(env.suite.derive(context, env.united), env.aes);
      var zeros := new byte[NONCE_LENGTH](_ => 0);
      nonce := zeros;
      new;
      assert nonce[..] == ZERO_NONCE;
    }

    method Seal(plaintext: bytes, additional: bytes) returns (c: bytes)
      requires Valid() && Sound(suite)
      modifies nonce
      ensures State() == old(State()).(nonce := Next(old(nonce[..])))
      ensures c == suite.seal(key, nonce[..], additional, plaintext) && |c| == |plaintext| + TAG_LENGTH
    {
      IncreaseNonce(nonce);
      c := suite.seal(key, nonce[..], additional, plaintext);
    }

    method Open(ciphertext: bytes, additional: bytes) returns (r: Option<bytes>)
      requires Valid() && Sound(suite)
      modifies nonce
      ensures State() == old(State()).(nonce := Next(old(nonce[..])))
      ensures r == suite.open(key, nonce[..], additional, ciphertext)
      ensures r.Some? ==> |r.value| + TAG_LENGTH == |ciphertext|
    {
      IncreaseNonce(nonce);
      r := suite.open(key, nonce[..], additional, ciphertext);
    }

    method AtMaximum() returns (r: bool)
      requires Valid()
      ensures r <==> nonce[..] == MAX_NONCE
    {
      r := nonce[..] == MAX_NONCE;
    }
  }

  // sing's buf.Buffer: bytes data[start..end] with room on both sides.
  class Buffer {
    const data: array<byte>
    var start: nat
    var end: nat

    ghost predicate Valid()
      reads this
    {
      start <= end <= data.Length
    }

    ghost function Contents(): bytes
      requires Valid()
      reads this, data
    {
      data[start..end]
    }
  }

  // What the reading side still expects before the first record.
  datatype Peer = Peer(cipher: Option<Cipher>, padding: Option<nat>)

  // readPrologue on values: the cipher for the records, and what is left of d.
  function Prologue(env: Env, p: Peer, d: bytes): Option<(Cipher, bytes)> {
    if p.cipher == None && |d| < IV_LENGTH then None
    else
      var c := if p.cipher == None then NewCipher(env, d[..IV_LENGTH]) else p.cipher.value;
      var d1 := if p.cipher == None then d[IV_LENGTH..] else d;
      match p.padding
      case None => Some((c, d1))
      case Some(n) =>
        if |d1| < n || env.suite.open(c.key, Next(c.nonce), [], d1[..n]) == None then None
        else Some((c.(nonce := Next(c.nonce)), d1[n..]))
  }

  // All plaintext still to be handed out: the cache, then the records.
  function Pending(env: Env, cache: bytes, p: Peer, d: bytes): bytes {
    match Prologue(env, p, d)
    case None => cache
    case Some((c, d1)) => cache + Receive(env, c, d1).plain
  }

  lemma PendingFromRecords(env: Env, cache: bytes, c: Cipher, d: bytes)
    requires Sound(env.suite)
    ensures Pending(env, cache, Peer(Some(c), None), d) == cache + Receive(env, c, d).plain
    ensures var p := Parse(env, c, d);
            if p.Opened? then
              p.plain != [] && Receive(env, c, d).plain == p.plain + Receive(env, Turn(env, c, d[..p.size]), d[p.size..]).plain
            else Receive(env, c, d).plain == []
  {
    hide Parse, Turn, Sound, Receive;
    ReceiveSteps(env, c, d);
  }

  datatype Error = NoError | EndOfStream | InvalidHeader | Forged

  // What a reader reports of a parse.
  function Reported(p: Parsed): Error {
    match p
    case Incomplete => EndOfStream
    case BadHeader => InvalidHeader
    case BadRecord => Forged
    case Opened(_, _) => NoError
  }

  // Why there is no prologue: the stream is too short or the padding does not
  // open.
  function PrologueError(p: Peer, d: bytes): Error {
    var random := if p.cipher == None then IV_LENGTH else 0;
    var padding := if p.padding.Some? then p.padding.value else 0;
    if |d| < random + padding then EndOfStream else Forged
  }

  // What a Read reports when nothing is cached.
  function Report(env: Env, p: Peer, d: bytes): Error {
    match Prologue(env, p, d)
    case None => PrologueError(p, d)
    case Some((c, d1)) => Reported(Parse(env, c, d1))
  }

  // It reports the end of the stream before the prologue or the next record is
  // whole, a forgery if the padding or the record is there and does not open,
  // and an invalid header as soon as the header is there.
  lemma ReportedExactly(env: Env, p: Peer, d: bytes)
    ensures var random, padding := if p.cipher == None then 16 else 0, if p.padding.Some? then p.padding.value else 0;
            && (|d| < random + padding ==> Report(env, p, d) == EndOfStream)
            && (|d| >= random + padding ==>
                  var c := if p.cipher == None then NewCipher(env, d[..16]) else p.cipher.value;
                  var opens := p.padding.Some? ==> env.suite.open(c.key, Next(c.nonce), [], d[random..random + padding]).Some?;
                  var later, next := d[random + padding..], if p.padding.Some? then c.(nonce := Next(c.nonce)) else c;
                  && (!opens ==> Report(env, p, d) == Forged)
                  && (opens ==>
                        && (Report(env, p, d) == InvalidHeader <==> Parse(env, next, later) == BadHeader)
                        && (Report(env, p, d) == EndOfStream <==> Parse(env, next, later) == Incomplete)
                        && (Report(env, p, d) == Forged <==> Parse(env, next, later) == BadRecord)))
  {
    hide Parse, NewCipher;
    var random := if p.cipher == None then 16 else 0;
    if p.padding.Some? && |d| >= random + p.padding.value {
      assert d[random..][..p.padding.value] == d[random..random + p.padding.value];
      assert d[random..][p.padding.value..] == d[random + p.padding.value..];
    }
  }

  class CommonConn {
    const env: Env
    const raw: Conn
    const xor: XorConn?
    const peerHeader: array<byte>
    var client: Client?
    var preWrite: bytes
    var aead: AEAD
    var peerAEAD: AEAD?
    var peerPadding: array?<byte>
    var rawInput: array<byte>
    var input: array<byte>
    var inputPos: nat
    var inputEnd: nat

    ghost predicate Valid()
      reads this, xor
    {
      && (xor != null ==> xor.conn == raw && xor.Valid())
      && aead.Valid() && aead.suite == env.suite
      && peerHeader.Length == HEADER_LENGTH
      && inputPos <= inputEnd <= input.Length
      && peerHeader != rawInput && peerHeader != input && peerHeader != aead.nonce
      && rawInput != aead.nonce && input != aead.nonce
      && (peerPadding != null ==> peerPadding != aead.nonce)
      && (peerAEAD == null ==> aead.nonce != peerHeader)
      && (peerAEAD != null ==>
            && peerAEAD.Valid() && peerAEAD.suite == env.suite
            && peerAEAD.nonce != aead.nonce && peerAEAD.nonce != peerHeader
            && peerAEAD.nonce != rawInput && peerAEAD.nonce != input)
    }

    // The objects of a connection, but for the transport.
    ghost function Parts(): set<object>
      reads this, xor
    {
      {this, aead, aead.nonce, peerHeader, rawInput, input,
       Or(peerAEAD), Or(if peerAEAD == null then null else peerAEAD.nonce), Or(peerPadding),
       Or(xor), Or(if xor == null then null else xor.ctr), Or(if xor == null then null else xor.peerCTR)}
    }

    ghost function Or(part: object?): object {
      if part == null then this else part
    }

    lemma IsPart(o: object)
      requires o in Parts()
      ensures
        || o in {this, aead, aead.nonce, peerHeader, rawInput, input}
        || (peerAEAD != null && o in {peerAEAD, peerAEAD.nonce}) || (peerPadding != null && o == peerPadding)
        || (xor != null && (o in {xor, xor.ctr} || (xor.peerCTR != null && o == xor.peerCTR)))
    {
    }

    // A connection as a handshake leaves it.
    constructor (env: Env, raw: Conn, xor: XorConn?, preWrite: bytes, aead: AEAD, peerAEAD: AEAD?, padding: Option<nat>, client: Client?)
      requires xor != null ==> xor.conn == raw && xor.Valid()
      requires aead.Valid() && aead.suite == env.suite
      requires peerAEAD != null ==> peerAEAD.Valid() && peerAEAD.suite == env.suite && peerAEAD.nonce != aead.nonce
      ensures Valid()
      ensures this.env == env && this.raw == raw && this.xor == xor && this.client == client
      ensures this.preWrite == preWrite && this.aead == aead && this.peerAEAD == peerAEAD
      ensures Cache() == [] && fresh(peerHeader) && fresh(rawInput) && fresh(input)
      ensures if padding == None then peerPadding == null else peerPadding != null && fresh(peerPadding) && peerPadding.Length == padding.value
    {
      this.env, this.raw, this.xor, this.client := env, raw, xor, client;
      this.preWrite, this.aead, this.peerAEAD := preWrite, aead, peerAEAD;
      peerHeader := new byte[HEADER_LENGTH];
      rawInput := new byte[0];
      input := new byte[0];
      inputPos, inputEnd := 0, 0;
      if padding == None {
        peerPadding := null;
      } else {
        peerPadding := new byte[padding.value];
      }
    }

    // The unread part of input.
    ghost function Cache(): bytes
      requires inputPos <= inputEnd <= input.Length
      reads this, input
    {
      input[inputPos..inputEnd]
    }

    // The writing side.

    ghost function Outgoing(): (s: Sender)
      reads this, aead.nonce
    {
      Sender(preWrite, aead.State())
    }

    // How the transport carries what is written.
    ghost function OutLink(): (l: Link)
      reads xor, if xor == null then {} else {xor.ctr}
      ensures xor != null && xor.Valid() ==> l.Valid()
    {
      if xor == null then Bare else Masked(xor.ctr.stream, xor.Outbound())
    }

    // c.conn.Write(b[lo:hi])
    method Transmit(b: array<byte>, lo: nat, hi: nat)
      requires Valid() && lo <= hi <= b.Length
      modifies raw`sent, xor, if xor == null then {} else {xor.ctr}, b
      ensures Valid()
      ensures raw.sent == old(raw.sent) + Carry(old(OutLink()), old(b[lo..hi]))
      ensures OutLink() == AfterCarry(old(OutLink()), old(b[lo..hi]))
      ensures xor != null ==> unchanged(xor`inSkip, xor`inHeader, xor`peerCTR)
    {
      if xor == null {
        raw.Write(b[lo..hi]);
      } else {
        xor.Write(b, lo, hi);
      }
    }

    // headerAndData: the pending prefix, a header and the sealed chunk, after
    // which the cipher is replaced if its counter had reached the maximum.
    method BuildRecord(chunk: bytes) returns (buffer: array<byte>)
      requires Valid() && Sound(env.suite) && 0 < |chunk| <= CHUNK_SIZE
      modifies `preWrite, `aead, aead.nonce
      ensures Valid() && fresh(buffer) && (aead == old(aead) || fresh(aead.nonce)) && buffer != aead.nonce
      ensures buffer[..] == old(preWrite) + SealRecord(env, old(aead.State()), chunk)
      ensures Outgoing() == Sender([], Turn(env, old(aead.State()), buffer[..]))
    {
      hide Sound, AEAD.Valid;
      ghost var prefix, c := preWrite, aead.State();
      var at := |preWrite|;
      buffer := new byte[at + HEADER_LENGTH + |chunk| + TAG_LENGTH];
      Store(buffer, 0, preWrite);
      preWrite := [];
      var header := EncodeHeader(|chunk| + TAG_LENGTH);
      Append(buffer, at, header, prefix);
      var nonceGotMax := aead.AtMaximum();
      var sealed := aead.Seal(chunk, header);
      Append(buffer, at + HEADER_LENGTH, sealed, prefix + header);
      assert buffer[..] == (prefix + header) + sealed;
      assert (prefix + header) + sealed == prefix + (header + sealed);
      if nonceGotMax {
        aead := new AEAD(env, buffer[..]);
      }
    }

    // One turn of Write's loop.
    method WriteRecord(chunk: bytes)
      requires Valid() && Sound(env.suite) && 0 < |chunk| <= CHUNK_SIZE
      modifies `preWrite, `aead, aead.nonce, raw`sent, xor, if xor == null then {} else {xor.ctr}
      ensures Valid() && (aead == old(aead) || fresh(aead.nonce))
      ensures var record := old(preWrite) + SealRecord(env, old(aead.State()), chunk);
              && raw.sent == old(raw.sent) + Carry(old(OutLink()), record)
              && Outgoing() == Sender([], Turn(env, old(aead.State()), record))
              && OutLink() == AfterCarry(old(OutLink()), record)
      ensures xor != null ==> unchanged(xor`inSkip, xor`inHeader, xor`peerCTR)
    {
      hide Carry, AfterCarry, SealRecord, Turn;
      var buffer := BuildRecord(chunk);
      assert buffer[0..buffer.Length] == buffer[..];
      Transmit(buffer, 0, buffer.Length);
    }

    method Write(b: bytes)
      requires Valid() && Sound(env.suite)
      modifies `preWrite, `aead, aead.nonce, raw`sent, xor, if xor == null then {} else {xor.ctr}
      ensures Valid() && (aead == old(aead) || fresh(aead.nonce))
      ensures raw.sent == old(raw.sent) + Carry(old(OutLink()), Wire(env, old(Outgoing()), b))
      ensures Outgoing() == AfterWrite(env, old(Outgoing()), b)
      ensures OutLink() == AfterCarry(old(OutLink()), Wire(env, old(Outgoing()), b))
      ensures xor != null ==> unchanged(xor`inSkip, xor`inHeader, xor`peerCTR)
    {
      hide Carry, AfterCarry, SealRecord, Turn, Sound;
      ghost var s0, l0, done := Outgoing(), OutLink(), [];
      CarryAppend(l0, [], []);
      assert b[0..] == b;
      var n := 0;
      while n < |b|
        invariant Valid() && n <= |b| && (aead == old(aead) || fresh(aead.nonce))
        invariant Wire(env, s0, b) == done + Wire(env, Outgoing(), b[n..])
        invariant AfterWrite(env, s0, b) == AfterWrite(env, Outgoing(), b[n..])
        invariant raw.sent == old(raw.sent) + Carry(l0, done) && OutLink() == AfterCarry(l0, done)
        invariant xor != null ==> unchanged(xor`inSkip, xor`inHeader, xor`peerCTR)
      {
        var rest := b[n..];
        var chunk := if |rest| > CHUNK_SIZE then rest[..CHUNK_SIZE] else rest;
        assert chunk == FirstChunk(rest) && b[n + |chunk|..] == OtherChunks(rest);
        n := n + |chunk|;
        ghost var record := preWrite + SealRecord(env, aead.State(), chunk);
        WriteRecord(chunk);
        CarryAppend(l0, done, record);
        done := done + record;
      }
      assert b[n..] == [] && done + [] == done;
    }

    // Seals data[start..end] in place, its header in front of it.
    method SealInPlace(buffer: Buffer)
      requires Valid() && Sound(env.suite) && buffer.Valid()
      requires HEADER_LENGTH <= buffer.start < buffer.end && buffer.end + TAG_LENGTH <= buffer.data.Length
      requires buffer.data != aead.nonce
      modifies `aead, aead.nonce, buffer, buffer.data
      ensures Valid() && buffer.Valid() && (aead == old(aead) || fresh(aead.nonce)) && buffer.data != aead.nonce
      ensures buffer.Contents() == SealRecord(env, old(aead.State()), old(buffer.Contents()))
      ensures aead.State() == Turn(env, old(aead.State()), buffer.Contents())
    {
      hide Sound, SealRecord;
      var nonceGotMax := aead.AtMaximum();
      SealBytes(buffer);
      if nonceGotMax {
        aead := new AEAD(env, buffer.data[buffer.start..buffer.end]);
      }
    }

    // The sealing itself, under the cipher as it is.
    method SealBytes(buffer: Buffer)
      requires aead.Valid() && aead.suite == env.suite && Sound(env.suite) && buffer.Valid()
      requires HEADER_LENGTH <= buffer.start < buffer.end && buffer.end + TAG_LENGTH <= buffer.data.Length
      requires buffer.data != aead.nonce
      modifies aead.nonce, buffer, buffer.data
      ensures aead.Valid() && buffer.Valid()
      ensures buffer.Contents() == SealRecord(env, old(aead.State()), old(buffer.Contents()))
      ensures aead.State() == old(aead.State()).(nonce := Next(old(aead.State()).nonce))
    {
      hide Sound;
      var data := buffer.data;
      ghost var before := data[..];
      var header := EncodeHeader(buffer.end - buffer.start + TAG_LENGTH);
      buffer.start := buffer.start - HEADER_LENGTH;
      var body := buffer.start + HEADER_LENGTH;
      Store(data, buffer.start, header);
      SameSlice(before, data[..], body, buffer.end);
      var sealed := aead.Seal(data[body..buffer.end], header);
      before := data[..];
      Store(data, body, sealed);
      SameSlice(before, data[..], buffer.start, body);
      buffer.end := buffer.end + TAG_LENGTH;
      Cut(data[..], buffer.start, body, buffer.end);
    }

    lemma SmallWrite(s: Sender, x: bytes)
      requires s.pending == [] && 0 < |x| <= CHUNK_SIZE
      ensures Wire(env, s, x) == SealRecord(env, s.cipher, x)
      ensures AfterWrite(env, s, x) == Sender([], Turn(env, s.cipher, SealRecord(env, s.cipher, x)))
    {
      hide SealRecord;
      assert FirstChunk(x) == x && OtherChunks(x) == [];
      var record := SealRecord(env, s.cipher, x);
      assert [] + record == record && record + [] == record;
    }

    // Same wire bytes and cipher state as Write, in place where there is room.
    method WriteBuffer(buffer: Buffer)
      requires Valid() && Sound(env.suite) && buffer.Valid() && buffer.data != aead.nonce
      modifies `preWrite, `aead, aead.nonce, raw`sent, xor, if xor == null then {} else {xor.ctr}, buffer, buffer.data
      ensures Valid() && (aead == old(aead) || fresh(aead.nonce))
      ensures raw.sent == old(raw.sent) + Carry(old(OutLink()), Wire(env, old(Outgoing()), old(buffer.Contents())))
      ensures Outgoing() == AfterWrite(env, old(Outgoing()), old(buffer.Contents()))
      ensures OutLink() == AfterCarry(old(OutLink()), Wire(env, old(Outgoing()), old(buffer.Contents())))
      ensures xor != null ==> unchanged(xor`inSkip, xor`inHeader, xor`peerCTR)
    {
      hide Carry, AfterCarry, SealRecord, Turn;
      ghost var s := Outgoing();
      var dataLen := buffer.end - buffer.start;
      if dataLen == 0 {
        CarryAppend(OutLink(), [], []);
        return;
      }
      if dataLen > CHUNK_SIZE || preWrite != [] || buffer.start < HEADER_LENGTH || buffer.data.Length - buffer.end < TAG_LENGTH {
        Write(buffer.data[buffer.start..buffer.end]);
        return;
      }
      SmallWrite(s, buffer.Contents());
      SealInPlace(buffer);
      Transmit(buffer.data, buffer.start, buffer.end);
    }

    // The reading side.

    ghost function PeerFrame(): set<CTR>
      reads xor
    {
      if xor == null || xor.peerCTR == null then {} else {xor.peerCTR}
    }

    // How what arrives is to be read, ks being the peer's keystream.
    ghost function InLink(ks: Keystream): (l: Link)
      reads xor, PeerFrame()
      ensures xor != null && xor.Valid() ==> l.Valid()
    {
      if xor == null then Bare else Masked(ks, xor.Inbound())
    }

    // Everything still to arrive.
    ghost function Arriving(ks: Keystream): (r: bytes)
      requires xor != null ==> xor.Valid()
      reads raw, xor, PeerFrame()
      ensures |r| == |raw.incoming|
    {
      Recover(InLink(ks), raw.incoming)
    }

    // io.ReadFull(c.conn, b[lo:hi])
    method ReadFull(b: array<byte>, lo: nat, hi: nat, ghost ks: Keystream) returns (ok: bool)
      requires Valid() && lo <= hi <= b.Length
      requires xor != null ==> if xor.peerCTR == null then hi - lo <= xor.inSkip else ks == xor.peerCTR.stream
      modifies raw`incoming, xor, PeerFrame(), b
      ensures Valid()
      ensures ok <==> hi - lo <= |old(raw.incoming)|
      ensures ok ==> b[lo..hi] == old(Arriving(ks))[..hi - lo] && Arriving(ks) == old(Arriving(ks))[hi - lo..]
      ensures forall k :: 0 <= k < lo || hi <= k < b.Length ==> b[k] == old(b[k])
      ensures xor != null ==> unchanged(xor`outSkip, xor`outHeader, xor`peerCTR)
    {
      hide Recover, Sound, AEAD.Valid, XorConn.Valid, CommonConn.Arriving;
      ghost var all := Arriving(ks);
      var p := lo;
      while p < hi
        invariant Valid() && lo <= p <= hi
        invariant xor != null ==> unchanged(xor`outSkip, xor`outHeader, xor`peerCTR)
        invariant xor != null && xor.peerCTR == null ==> hi - p <= xor.inSkip
        invariant p - lo + |raw.incoming| == |old(raw.incoming)|
        invariant all == b[lo..p] + Arriving(ks)
        invariant forall k :: 0 <= k < lo || p <= k < b.Length ==> b[k] == old(b[k])
      {
        ghost var before, from, later := b[..], p, Arriving(ks);
        var n := ReadSome(b, p, hi, ks);
        if n == 0 {
          return false;
        }
        p := p + n;
        SameSlice(before, b[..], lo, from);
        Cut(b[..], lo, from, p);
      }
      return true;
    }

    // c.conn.Read(b[lo:hi])
    method ReadSome(b: array<byte>, lo: nat, hi: nat, ghost ks: Keystream) returns (n: nat)
      requires Valid() && lo <= hi <= b.Length
      requires xor != null ==> if xor.peerCTR == null then hi - lo <= xor.inSkip else ks == xor.peerCTR.stream
      modifies raw`incoming, xor, PeerFrame(), b
      ensures Valid()
      ensures n <= hi - lo && (n == 0 ==> lo == hi || old(raw.incoming) == [])
      ensures n + |raw.incoming| == |old(raw.incoming)|
      ensures old(Arriving(ks)) == b[lo..lo + n] + Arriving(ks)
      ensures forall k :: 0 <= k < lo || lo + n <= k < b.Length ==> b[k] == old(b[k])
      ensures xor != null ==> unchanged(xor`outSkip, xor`outHeader, xor`peerCTR)
      ensures xor != null && xor.peerCTR == null ==> xor.inSkip == old(xor.inSkip) - n
    {
      hide AEAD.Valid, Encode, Decode;
      if xor == null {
        n := raw.Read(b, lo, hi);
        assert old(raw.incoming) == old(raw.incoming)[..n] + old(raw.incoming)[n..];
      } else {
        ghost var h := xor.Inbound();
        n := xor.Read(b, lo, hi, ks);
        if xor.peerCTR == null {
          SkipPasses(ks, h, b[lo..lo + n]);
        }
      }
    }

    ghost function PeerState(): Peer
      reads this, if peerAEAD == null then {} else {peerAEAD.nonce}
    {
      Peer(if peerAEAD == null then None else Some(peerAEAD.State()),
           if peerPadding == null then None else Some(peerPadding.Length))
    }

    // The keystream of the peer's headers. While peerCTR is nil it depends on
    // the server random, the first bytes to arrive.
    ghost function PeerKeystream(): Keystream
      reads raw, xor, PeerFrame()
    {
      if xor != null && xor.peerCTR != null then xor.peerCTR.stream
      else if |raw.incoming| >= IV_LENGTH then env.suite.keystream(env.united, raw.incoming[..IV_LENGTH])
      else _ => 0
    }

    // The reading side is between two records or before the first one.
    ghost predicate Reading()
      requires Valid()
      reads this, xor
    {
      && (xor != null ==> (peerAEAD == null <==> xor.peerCTR == null) && (xor.peerCTR == null ==> xor.inSkip == IV_LENGTH))
      && (peerAEAD == null || peerPadding != null ==> inputPos == inputEnd)
      && (peerPadding != null && peerAEAD != null ==> peerPadding != peerAEAD.nonce)
    }

    lemma ServerRandomIsClear()
      requires xor != null && xor.Valid() && xor.inSkip == IV_LENGTH && |raw.incoming| >= IV_LENGTH
      ensures forall ks :: Arriving(ks)[..IV_LENGTH] == raw.incoming[..IV_LENGTH]
    {
      forall ks ensures Arriving(ks)[..IV_LENGTH] == raw.incoming[..IV_LENGTH] {
        var h, w := xor.Inbound(), raw.incoming;
        assert w == w[..IV_LENGTH] + w[IV_LENGTH..];
        DecodeAppend(ks, h, w[..IV_LENGTH], w[IV_LENGTH..]);
        SkipPasses(ks, h, w[..IV_LENGTH]);
      }
    }

    // The server random of a 0-RTT connection.
    method ReadServerRandom() returns (ok: bool)
      requires Valid() && Reading() && peerAEAD == null
      modifies `peerAEAD, raw`incoming, xor
      ensures Valid()
      ensures ok <==> |old(raw.incoming)| >= IV_LENGTH
      ensures ok ==> Reading() && peerAEAD != null && fresh(peerAEAD) && fresh(peerAEAD.nonce) && (xor != null ==> fresh(xor.peerCTR))
      ensures !ok ==> peerAEAD == null && (xor != null ==> xor.peerCTR == null)
      ensures ok ==> peerAEAD.State() == NewCipher(env, old(Arriving(PeerKeystream()))[..IV_LENGTH])
      ensures ok ==> Arriving(PeerKeystream()) == old(Arriving(PeerKeystream()))[IV_LENGTH..]
      ensures xor != null ==> unchanged(xor`outSkip, xor`outHeader)
    {
      ghost var ks := PeerKeystream();
      var serverRandom := new byte[IV_LENGTH];
      if xor != null && |raw.incoming| >= IV_LENGTH {
        ServerRandomIsClear();
      }
      ok := ReadFull(serverRandom, 0, IV_LENGTH, ks);
      if ok {
        assert serverRandom[0..IV_LENGTH] == serverRandom[..];
        peerAEAD := new AEAD(env, serverRandom[..]);
        if xor != null {
          xor.peerCTR := new CTR(env.suite.keystream(env.united, serverRandom[..]));
        }
      }
    }

    // The padding of a 1-RTT connection.
    method ReadPadding() returns (err: Error)
      requires Valid() && Sound(env.suite) && Reading() && peerAEAD != null && peerPadding != null
      modifies `peerPadding, peerAEAD.nonce, raw`incoming, xor, PeerFrame(), peerPadding
      ensures Valid() && Reading() && peerAEAD == old(peerAEAD)
      ensures var d, n, c := old(Arriving(PeerKeystream())), old(peerPadding.Length), old(peerAEAD.State());
              && err == (if |d| < n then EndOfStream
                         else if env.suite.open(c.key, Next(c.nonce), [], d[..n]) == None then Forged else NoError)
              && (err == NoError ==>
                    && peerPadding == null && Arriving(PeerKeystream()) == d[n..]
                    && peerAEAD.State() == c.(nonce := Next(c.nonce)))
      ensures xor != null ==> unchanged(xor`outSkip, xor`outHeader, xor`peerCTR)
    {
      hide Sound, Recover, AEAD.Valid, XorConn.Valid;
      ghost var ks := PeerKeystream();
      var ok := ReadFull(peerPadding, 0, peerPadding.Length, ks);
      if !ok {
        return EndOfStream;
      }
      assert peerPadding[0..peerPadding.Length] == peerPadding[..];
      var r := peerAEAD.Open(peerPadding[..], []);
      if r == None {
        return Forged;
      }
      Store(peerPadding, 0, r.value);
      peerPadding := null;
      err := NoError;
    }

    method ReadPrologue() returns (err: Error)
      requires Valid() && Sound(env.suite) && Reading()
      modifies `peerAEAD, `peerPadding, if peerAEAD == null then {} else {peerAEAD.nonce}, raw`incoming, xor, PeerFrame(), peerPadding
      ensures Valid()
      ensures peerAEAD == old(peerAEAD) || (peerAEAD != null && fresh(peerAEAD) && fresh(peerAEAD.nonce))
      ensures xor != null ==> xor.peerCTR == old(xor.peerCTR) || fresh(xor.peerCTR)
      ensures err == NoError <==> Prologue(env, old(PeerState()), old(Arriving(PeerKeystream()))).Some?
      ensures err != NoError ==> err == PrologueError(old(PeerState()), old(Arriving(PeerKeystream())))
      ensures err == NoError ==> Reading() && peerAEAD != null && peerPadding == null
      ensures err == NoError ==>
                Prologue(env, old(PeerState()), old(Arriving(PeerKeystream())))
                == Some((peerAEAD.State(), Arriving(PeerKeystream())))
      ensures xor != null ==> unchanged(xor`outSkip, xor`outHeader)
    {
      hide Sound, Recover, XorConn.Valid;
      if peerAEAD == null {
        var ok := ReadServerRandom();
        if !ok {
          return EndOfStream;
        }
      }
      if peerPadding != null {
        err := ReadPadding();
        return;
      }
      return NoError;
    }

    // Opens a record body; the next cipher's context is taken beforehand,
    // since opening overwrites the body.
    method OpenBody(body: bytes) returns (r: Option<bytes>)
      requires Valid() && Sound(env.suite) && Reading() && peerAEAD != null
      modifies `peerAEAD, peerAEAD.nonce
      ensures Valid() && Reading() && peerAEAD != null
      ensures peerAEAD == old(peerAEAD) || (fresh(peerAEAD) && fresh(peerAEAD.nonce))
      ensures var c := old(peerAEAD.State());
              && r == env.suite.open(c.key, Next(c.nonce), peerHeader[..], body)
              && peerAEAD.State() == Turn(env, c, peerHeader[..] + body)
      ensures r.Some? ==> |r.value| + TAG_LENGTH == |body|
    {
      hide Sound;
      var newAEAD: AEAD? := null;
      var nonceGotMax := peerAEAD.AtMaximum();
      if nonceGotMax {
        newAEAD := new AEAD(env, peerHeader[..] + body);
      }
      r := peerAEAD.Open(body, peerHeader[..]);
      if newAEAD != null {
        peerAEAD := newAEAD;
      }
    }

    // Writes the plaintext where readChunk opens it: in b where it fits, else
    // in rawInput, with the remainder left as the cache.
    method Deliver(plain: bytes, b: array<byte>, lo: nat, hi: nat) returns (n: nat)
      requires Valid() && Reading() && peerAEAD != null && peerPadding == null
      requires lo < hi <= b.Length && inputPos == inputEnd && (hi - lo < |plain| ==> |plain| <= rawInput.Length)
      requires b != rawInput
      modifies `input, `inputPos, `inputEnd, rawInput, b
      ensures Valid() && Reading()
      ensures forall k :: 0 <= k < lo || hi <= k < b.Length ==> b[k] == old(b[k])
      ensures n == Min(|plain|, hi - lo) && b[lo..lo + n] == plain[..n] && Cache() == plain[n..]
    {
      if |plain| <= hi - lo {
        n := |plain|;
        Store(b, lo, plain);
      } else {
        n := hi - lo;
        Store(rawInput, 0, plain);
        assert rawInput[0..|plain|] == plain;
        Store(b, lo, rawInput[..n]);
        input, inputPos, inputEnd := rawInput, n, |plain|;
        assert Cache() == plain[n..];
      }
    }

    method ReadHeader(now: int) returns (l: nat, err: Error)
      requires Valid() && Reading() && peerAEAD != null && peerPadding == null
      modifies `client, peerHeader, raw`incoming, xor, PeerFrame(), client
      ensures Valid() && Reading()
      ensures var d := old(Arriving(PeerKeystream()));
              && err == (if |d| < HEADER_LENGTH then EndOfStream else if Accepted(d[..HEADER_LENGTH]) then NoError else InvalidHeader)
              && (err == NoError ==>
                    && peerHeader[..] == d[..HEADER_LENGTH] && l == LengthOf(d[..HEADER_LENGTH])
                    && Arriving(PeerKeystream()) == d[HEADER_LENGTH..] && client == null)
      ensures old(client) != null ==> old(client).Stays(err == InvalidHeader, env.united, now)
      ensures client == old(client) || (client == null && err != InvalidHeader)
      ensures xor != null ==> unchanged(xor`outSkip, xor`outHeader, xor`peerCTR)
    {
      hide Recover, AEAD.Valid, XorConn.Valid;
      var ok := ReadFull(peerHeader, 0, HEADER_LENGTH, PeerKeystream());
      if !ok {
        return 0, EndOfStream;
      }
      assert peerHeader[0..HEADER_LENGTH] == peerHeader[..];
      if !Accepted(peerHeader[..]) {
        if client != null {
          client.Expire(env.united, now);
        }
        return 0, InvalidHeader;
      }
      client := null;
      return LengthOf(peerHeader[..]), NoError;
    }

    // Reads the l bytes of a record body: into b where they fit, else into
    // rawInput, which no unread cache refers to.
    method ReadBody(b: array<byte>, lo: nat, hi: nat, l: nat) returns (src: array<byte>, from: nat, ok: bool)
      requires Valid() && Reading() && peerAEAD != null && peerPadding == null
      requires lo < hi <= b.Length && inputPos == inputEnd
      requires b != rawInput && b != peerHeader && b != peerAEAD.nonce && b != aead.nonce
      modifies `rawInput, rawInput, raw`incoming, xor, PeerFrame(), b
      ensures Valid() && Reading() && (rawInput == old(rawInput) || fresh(rawInput))
      ensures forall k :: 0 <= k < lo || hi <= k < b.Length ==> b[k] == old(b[k])
      ensures if l <= hi - lo then src == b && from == lo else src == rawInput && from == 0 && l <= rawInput.Length
      ensures var d := old(Arriving(PeerKeystream()));
              && (ok <==> l <= |d|)
              && (ok ==> src[from..from + l] == d[..l] && Arriving(PeerKeystream()) == d[l..])
      ensures xor != null ==> unchanged(xor`outSkip, xor`outHeader, xor`peerCTR)
    {
      hide Recover, AEAD.Valid, XorConn.Valid;
      src, from := b, lo;
      if hi - lo < l {
        if rawInput.Length < l {
          rawInput := new byte[l];
        }
        src, from := rawInput, 0;
      }
      ok := ReadFull(src, from, from + l, PeerKeystream());
    }

    // The next record, its body read into b or rawInput.
    method ReadRecord(b: array<byte>, lo: nat, hi: nat, now: int) returns (plain: bytes, err: Error)
      requires Valid() && Sound(env.suite) && Reading() && peerAEAD != null && peerPadding == null
      requires lo < hi <= b.Length && inputPos == inputEnd
      requires b != rawInput && b != peerHeader && b != peerAEAD.nonce && b != aead.nonce
      modifies `client, `peerAEAD, `rawInput, peerAEAD.nonce, peerHeader, rawInput, raw`incoming, xor, PeerFrame(), client, b
      ensures Valid() && (rawInput == old(rawInput) || fresh(rawInput))
      ensures forall k :: 0 <= k < lo || hi <= k < b.Length ==> b[k] == old(b[k])
      ensures var p := Parse(env, old(peerAEAD.State()), old(Arriving(PeerKeystream())));
              && err == Reported(p)
              && (p.Opened? ==>
                    && plain == p.plain && Reading() && client == null && peerAEAD != null
                    && (peerAEAD == old(peerAEAD) || (fresh(peerAEAD) && fresh(peerAEAD.nonce)))
                    && peerAEAD.State() == Turn(env, old(peerAEAD.State()), old(Arriving(PeerKeystream()))[..p.size])
                    && Arriving(PeerKeystream()) == old(Arriving(PeerKeystream()))[p.size..]
                    && (hi - lo < |p.plain| ==> |p.plain| <= rawInput.Length))
      ensures old(client) != null ==> old(client).Stays(err == InvalidHeader, env.united, now)
      ensures client == old(client) || (client == null && err != InvalidHeader)
      ensures xor != null ==> unchanged(xor`outSkip, xor`outHeader, xor`peerCTR)
    {
      hide Sound, Recover, Turn, Parse, Accepted, LengthOf, Client.Stays, Arriving, AEAD.State;
      ghost var d := Arriving(PeerKeystream());
      ParseSteps(env, peerAEAD.State(), d);
      var l;
      plain := [];
      l, err := ReadHeader(now);
      if err == NoError {
        plain, err := ReadBehindHeader(b, lo, hi, l, d);
      }
    }

    // The record behind the header just read, as Parse sees it.
    method ReadBehindHeader(b: array<byte>, lo: nat, hi: nat, l: nat, ghost d: bytes) returns (plain: bytes, err: Error)
      requires Valid() && Sound(env.suite) && Reading() && peerAEAD != null && peerPadding == null
      requires lo < hi <= b.Length && inputPos == inputEnd
      requires b != rawInput && b != peerHeader && b != peerAEAD.nonce && b != aead.nonce
      requires |d| >= HEADER_LENGTH && peerHeader[..] == d[..HEADER_LENGTH] && Arriving(PeerKeystream()) == d[HEADER_LENGTH..]
      requires Accepted(d[..HEADER_LENGTH]) && l == LengthOf(d[..HEADER_LENGTH])
      modifies `peerAEAD, `rawInput, peerAEAD.nonce, rawInput, raw`incoming, xor, PeerFrame(), b
      ensures Valid() && (rawInput == old(rawInput) || fresh(rawInput))
      ensures forall k :: 0 <= k < lo || hi <= k < b.Length ==> b[k] == old(b[k])
      ensures var p := Parse(env, old(peerAEAD.State()), d);
              && err == Reported(p) && err != InvalidHeader
              && (p.Opened? ==>
                    && plain == p.plain && Reading() && peerAEAD != null
                    && (peerAEAD == old(peerAEAD) || (fresh(peerAEAD) && fresh(peerAEAD.nonce)))
                    && peerAEAD.State() == Turn(env, old(peerAEAD.State()), d[..p.size])
                    && Arriving(PeerKeystream()) == d[p.size..]
                    && (hi - lo < |p.plain| ==> |p.plain| <= rawInput.Length))
      ensures xor != null ==> unchanged(xor`outSkip, xor`outHeader, xor`peerCTR)
    {
      hide Sound, Recover, Turn, Parse, Accepted, LengthOf, Valid, Reading, Arriving, PeerKeystream;
      ParseSteps(env, peerAEAD.State(), d);
      plain, err := ReadRecordBody(b, lo, hi, l, d);
    }

    // The record behind the header just read, whose body has l bytes.
    method ReadRecordBody(b: array<byte>, lo: nat, hi: nat, l: nat, ghost d: bytes) returns (plain: bytes, err: Error)
      requires Valid() && Sound(env.suite) && Reading() && peerAEAD != null && peerPadding == null
      requires lo < hi <= b.Length && inputPos == inputEnd
      requires b != rawInput && b != peerHeader && b != peerAEAD.nonce && b != aead.nonce
      requires |d| >= HEADER_LENGTH && peerHeader[..] == d[..HEADER_LENGTH] && Arriving(PeerKeystream()) == d[HEADER_LENGTH..]
      modifies `peerAEAD, `rawInput, peerAEAD.nonce, rawInput, raw`incoming, xor, PeerFrame(), b
      ensures Valid() && (rawInput == old(rawInput) || fresh(rawInput))
      ensures forall k :: 0 <= k < lo || hi <= k < b.Length ==> b[k] == old(b[k])
      ensures var c, size := old(peerAEAD.State()), HEADER_LENGTH + l;
              if |d| < size then err == EndOfStream
              else
                var opening := env.suite.open(c.key, Next(c.nonce), d[..HEADER_LENGTH], d[HEADER_LENGTH..size]);
                if opening.None? then err == Forged
                else
                  && err == NoError && plain == opening.value && Reading() && peerAEAD != null
                  && (peerAEAD == old(peerAEAD) || (fresh(peerAEAD) && fresh(peerAEAD.nonce)))
                  && peerAEAD.State() == Turn(env, c, d[..size]) && Arriving(PeerKeystream()) == d[size..]
                  && (hi - lo < |plain| ==> |plain| <= rawInput.Length)
      ensures xor != null ==> unchanged(xor`outSkip, xor`outHeader, xor`peerCTR)
    {
      hide Sound, Recover, Turn, AEAD.Valid, XorConn.Valid;
      var src, from, ok := ReadBody(b, lo, hi, l);
      if !ok {
        return [], EndOfStream;
      }
      CutTail(d, HEADER_LENGTH, HEADER_LENGTH + l);
      Cut(d, 0, HEADER_LENGTH, HEADER_LENGTH + l);
      assert peerHeader[..] == d[..HEADER_LENGTH];
      var r := OpenBody(src[from..from + l]);
      if r == None {
        return [], Forged;
      }
      return r.value, NoError;
    }

    // Reads one record, hands out what fits into b[lo..hi] and caches the rest.
    method ReadChunk(b: array<byte>, lo: nat, hi: nat, now: int) returns (n: nat, err: Error)
      requires Valid() && Sound(env.suite) && Reading() && peerAEAD != null && peerPadding == null
      requires lo < hi <= b.Length && inputPos == inputEnd
      requires b != rawInput && b != peerHeader && b != peerAEAD.nonce && b != aead.nonce
      modifies `client, `peerAEAD, `rawInput, `input, `inputPos, `inputEnd, peerAEAD.nonce, peerHeader, rawInput
      modifies raw`incoming, xor, PeerFrame(), client, b
      ensures Valid()
      ensures forall k :: 0 <= k < lo || hi <= k < b.Length ==> b[k] == old(b[k])
      ensures var p := Parse(env, old(peerAEAD.State()), old(Arriving(PeerKeystream())));
              && err == Reported(p) && (err != NoError ==> n == 0)
              && (p.Opened? ==>
                    && Reading() && client == null && peerAEAD != null && peerPadding == null && SameObjects()
                    && n == Min(|p.plain|, hi - lo) && b[lo..lo + n] == p.plain[..n] && Cache() == p.plain[n..]
                    && peerAEAD.State() == Turn(env, old(peerAEAD.State()), old(Arriving(PeerKeystream()))[..p.size])
                    && Arriving(PeerKeystream()) == old(Arriving(PeerKeystream()))[p.size..])
      ensures old(client) != null ==> old(client).Stays(err == InvalidHeader, env.united, now)
      ensures client == old(client) || (client == null && err != InvalidHeader)
      ensures xor != null ==> unchanged(xor`outSkip, xor`outHeader, xor`peerCTR)
    {
      hide Sound, Recover, Turn, Parse;
      var plain, e := ReadRecord(b, lo, hi, now);
      if e != NoError {
        return 0, e;
      }
      n := Deliver(plain, b, lo, hi);
      err := NoError;
    }

    // A Read goes on with the objects the connection had, or with new ones.
    twostate predicate SameObjects()
      reads this, xor
    {
      && (rawInput == old(rawInput) || fresh(rawInput))
      && (peerAEAD == old(peerAEAD) || (peerAEAD != null && fresh(peerAEAD) && fresh(peerAEAD.nonce)))
      && (peerPadding == old(peerPadding) || peerPadding == null)
      && (client == old(client) || client == null)
      && (xor != null ==> xor.peerCTR == old(xor.peerCTR) || fresh(xor.peerCTR))
    }

    // All plaintext still to be handed out.
    ghost function Plaintext(): bytes
      requires Valid()
      reads this, input, raw, xor, PeerFrame(), if peerAEAD == null then {} else {peerAEAD.nonce}
    {
      Pending(env, Cache(), PeerState(), Arriving(PeerKeystream()))
    }

    // Between records the cache comes first.
    lemma CacheFirst()
      requires Valid() && Sound(env.suite) && peerAEAD != null && peerPadding == null
      ensures Plaintext() == Cache() + Receive(env, peerAEAD.State(), Arriving(PeerKeystream())).plain
    {
      hide Sound, Recover, Receive, Arriving, PeerKeystream;
      PendingFromRecords(env, Cache(), peerAEAD.State(), Arriving(PeerKeystream()));
    }

    // c.input.Read(b[lo:hi])
    method ReadCached(b: array<byte>, lo: nat, hi: nat) returns (n: nat)
      requires Valid() && Sound(env.suite) && Reading() && inputPos < inputEnd
      requires lo < hi <= b.Length && b != input && b != aead.nonce
      requires peerAEAD != null && peerPadding == null && b != peerAEAD.nonce
      modifies `inputPos, b
      ensures Valid() && Reading() && 0 < n <= hi - lo
      ensures forall k :: 0 <= k < lo || hi <= k < b.Length ==> b[k] == old(b[k])
      ensures old(Plaintext()) == b[lo..lo + n] + Plaintext()
    {
      hide Sound, Receive, Recover, Plaintext;
      ghost var cached, later := Cache(), Receive(env, peerAEAD.State(), Arriving(PeerKeystream())).plain;
      CacheFirst();
      n := TakeCached(b, lo, hi);
      CacheFirst();
      assert (b[lo..lo + n] + Cache()) + later == b[lo..lo + n] + (Cache() + later);
    }

    lemma CacheSplits(at: nat)
      requires inputPos <= at <= inputEnd <= input.Length
      ensures Cache() == input[inputPos..at] + input[at..inputEnd]
    {
    }

    method TakeCached(b: array<byte>, lo: nat, hi: nat) returns (n: nat)
      requires inputPos < inputEnd <= input.Length && lo < hi <= b.Length && b != input
      modifies `inputPos, b
      ensures 0 < n <= hi - lo && inputPos == old(inputPos) + n <= inputEnd
      ensures forall k :: 0 <= k < lo || hi <= k < b.Length ==> b[k] == old(b[k])
      ensures old(Cache()) == b[lo..lo + n] + Cache()
    {
      n := Min(hi - lo, inputEnd - inputPos);
      var part := input[inputPos..inputPos + n];
      CacheSplits(inputPos + n);
      Store(b, lo, part);
      inputPos := inputPos + n;
    }

    // The part of Read that asks the transport for the next record.
    method ReadNext(b: array<byte>, lo: nat, hi: nat, now: int) returns (n: nat, err: Error)
      requires Valid() && Sound(env.suite) && Reading() && peerAEAD != null && peerPadding == null
      requires lo < hi <= b.Length && inputPos == inputEnd
      requires b != rawInput && b != peerHeader && b != peerAEAD.nonce && b != aead.nonce
      modifies `client, `peerAEAD, `rawInput, `input, `inputPos, `inputEnd, peerAEAD.nonce, peerHeader, rawInput
      modifies raw`incoming, xor, PeerFrame(), client, b
      ensures Valid()
      ensures forall k :: 0 <= k < lo || hi <= k < b.Length ==> b[k] == old(b[k])
      ensures err == NoError <==> old(Plaintext()) != []
      ensures err == NoError ==>
                Reading() && SameObjects() && 0 < n <= hi - lo && old(Plaintext()) == b[lo..lo + n] + Plaintext()
      ensures err == Reported(Parse(env, old(peerAEAD.State()), old(Arriving(PeerKeystream())))) && (err != NoError ==> n == 0)
      ensures old(client) != null ==> old(client).Stays(err == InvalidHeader, env.united, now)
      ensures client == old(client) || (client == null && err != InvalidHeader)
      ensures err == NoError ==> client == null
      ensures xor != null ==> unchanged(xor`outSkip, xor`outHeader)
    {
      hide Sound, Recover, Turn, Parse, Receive, Client.Stays, SameObjects, Plaintext, AEAD.Valid, XorConn.Valid;
      ghost var c, d := peerAEAD.State(), Arriving(PeerKeystream());
      CacheFirst();
      PendingFromRecords(env, [], c, d);
      assert Cache() == [] && [] + Receive(env, c, d).plain == Receive(env, c, d).plain;
      n, err := ReadChunk(b, lo, hi, now);
      if err == NoError {
        ghost var plain := Parse(env, c, d).plain;
        CacheFirst();
        Assoc(plain[..n], plain[n..], Receive(env, peerAEAD.State(), Arriving(PeerKeystream())).plain);
        assert plain == plain[..n] + plain[n..];
      }
    }

    // The prologue leaves the remaining plaintext as it was.
    method Begin() returns (err: Error)
      requires Valid() && Sound(env.suite) && Reading()
      modifies `peerAEAD, `peerPadding, if peerAEAD == null then {} else {peerAEAD.nonce}, raw`incoming, xor, PeerFrame(), peerPadding
      ensures Valid()
      ensures peerAEAD == old(peerAEAD) || (peerAEAD != null && fresh(peerAEAD) && fresh(peerAEAD.nonce))
      ensures xor != null ==> xor.peerCTR == old(xor.peerCTR) || fresh(xor.peerCTR)
      ensures if err == NoError
              then Reading() && peerAEAD != null && peerPadding == null && Cache() == old(Cache()) && Plaintext() == old(Plaintext())
              else err == PrologueError(old(PeerState()), old(Arriving(PeerKeystream()))) && old(Plaintext()) == []
      ensures
        var r := Prologue(env, old(PeerState()), old(Arriving(PeerKeystream())));
        if err == NoError then r == Some((peerAEAD.State(), Arriving(PeerKeystream()))) else r == None
      ensures xor != null ==> unchanged(xor`outSkip, xor`outHeader)
    {
      hide Sound, Recover, Receive;
      ghost var p, d := PeerState(), Arriving(PeerKeystream());
      err := ReadPrologue();
      if err == NoError {
        assert Cache() == old(Cache());
        PendingFromRecords(env, Cache(), peerAEAD.State(), Arriving(PeerKeystream()));
      }
    }

    // Read once the prologue is behind: what is cached or the next record.
    method ReadBehind(b: array<byte>, lo: nat, hi: nat, now: int) returns (n: nat, err: Error)
      requires Valid() && Sound(env.suite) && Reading() && peerAEAD != null && peerPadding == null
      requires lo < hi <= b.Length
      requires b != rawInput && b != input && b != peerHeader && b != peerAEAD.nonce && b != aead.nonce
      modifies `client, `peerAEAD, `rawInput, `input, `inputPos, `inputEnd, peerAEAD.nonce, peerHeader, rawInput
      modifies raw`incoming, xor, PeerFrame(), client, b
      ensures Valid()
      ensures forall k :: 0 <= k < lo || hi <= k < b.Length ==> b[k] == old(b[k])
      ensures err == NoError <==> old(Plaintext()) != []
      ensures err == NoError ==>
                Reading() && SameObjects() && 0 < n <= hi - lo && old(Plaintext()) == b[lo..lo + n] + Plaintext()
      ensures old(Cache()) == [] ==> err == Reported(Parse(env, old(peerAEAD.State()), old(Arriving(PeerKeystream()))))
      ensures err != NoError ==> n == 0
      ensures old(client) != null ==> old(client).Stays(err == InvalidHeader, env.united, now)
      ensures client == old(client) || (client == null && err != InvalidHeader)
      ensures err == NoError && old(Cache()) == [] ==> client == null
      ensures xor != null ==> unchanged(xor`outSkip, xor`outHeader)
    {
      hide Sound, Recover, Turn, Parse, Receive, Prologue, Plaintext, Reported;
      if inputPos < inputEnd {
        err := NoError;
        n := ReadCached(b, lo, hi);
      } else {
        n, err := ReadNext(b, lo, hi, now);
      }
    }

    // Hands out a non-empty prefix of the remaining plaintext exactly when
    // there is some; nothing is lost, repeated or overwritten.
    method Read(b: array<byte>, lo: nat, hi: nat, now: int) returns (n: nat, err: Error)
      requires Valid() && Sound(env.suite) && Reading()
      requires lo <= hi <= b.Length
      requires b != rawInput && b != input && b != peerHeader && b != aead.nonce && b != peerPadding
      requires peerAEAD != null ==> b != peerAEAD.nonce
      modifies `client, `peerAEAD, `peerPadding, `rawInput, `input, `inputPos, `inputEnd
      modifies if peerAEAD == null then {} else {peerAEAD.nonce}, peerPadding, peerHeader, rawInput
      modifies raw`incoming, xor, PeerFrame(), client, b
      ensures Valid()
      ensures forall k :: 0 <= k < lo || hi <= k < b.Length ==> b[k] == old(b[k])
      ensures lo == hi ==> n == 0 && err == NoError && Reading() && SameObjects() && Plaintext() == old(Plaintext())
      ensures lo < hi ==> (err == NoError <==> old(Plaintext()) != [])
      ensures lo < hi && err == NoError ==>
                && Reading() && SameObjects() && 0 < n <= hi - lo
                && old(Plaintext()) == b[lo..lo + n] + Plaintext()
      ensures lo < hi && old(Cache()) == [] ==> err == Report(env, old(PeerState()), old(Arriving(PeerKeystream())))
      ensures old(client) != null ==> old(client).Stays(err == InvalidHeader, env.united, now)
      ensures client == old(client) || (client == null && err != InvalidHeader)
      ensures lo < hi && err == NoError && old(Cache()) == [] ==> client == null
      ensures err != NoError ==> n == 0
      ensures xor != null ==> unchanged(xor`outSkip, xor`outHeader)
    {
      hide Sound, Recover, Turn, Parse, Receive, Prologue, Plaintext, Reported, Valid, Arriving, PeerKeystream;
      if lo == hi {
        return 0, NoError;
      }
      err := Begin();
      if err != NoError {
        return 0, err;
      }
      n, err := ReadBehind(b, lo, hi, now);
    }

    // Read into the free space of a buffer.
    method ReadBuffer(buffer: Buffer, now: int) returns (short: bool, err: Error)
      requires Valid() && Sound(env.suite) && Reading() && buffer.Valid()
      requires buffer.data != rawInput && buffer.data != input && buffer.data != peerHeader && buffer.data != aead.nonce
      requires buffer.data != peerPadding && (peerAEAD != null ==> buffer.data != peerAEAD.nonce)
      modifies `client, `peerAEAD, `peerPadding, `rawInput, `input, `inputPos, `inputEnd
      modifies if peerAEAD == null then {} else {peerAEAD.nonce}, peerPadding, peerHeader, rawInput
      modifies raw`incoming, xor, PeerFrame(), client, buffer, buffer.data
      ensures Valid() && buffer.Valid()
      ensures short <==> old(buffer.end) == buffer.data.Length
      ensures buffer.start == old(buffer.start) && buffer.data[buffer.start..old(buffer.end)] == old(buffer.Contents())
      ensures short || err != NoError ==> buffer.end == old(buffer.end)
      ensures !short ==> (err == NoError <==> old(Plaintext()) != [])
      ensures !short && err == NoError ==>
                && Reading() && SameObjects() && old(buffer.end) < buffer.end
                && old(Plaintext()) == buffer.data[old(buffer.end)..buffer.end] + Plaintext()
      ensures !short && old(Cache()) == [] ==> err == Report(env, old(PeerState()), old(Arriving(PeerKeystream())))
      ensures old(client) != null ==> old(client).Stays(!short && err == InvalidHeader, env.united, now)
      ensures short ==> Plaintext() == old(Plaintext())
      ensures client == old(client) || (client == null && !short && err != InvalidHeader)
      ensures xor != null ==> unchanged(xor`outSkip, xor`outHeader)
    {
      hide Sound, Recover, Turn, Parse, Receive, Prologue, Pending, Report, Valid, SameObjects;
      if buffer.end == buffer.data.Length {
        return true, EndOfStream;
      }
      ghost var before := buffer.data[..];
      var n;
      n, err := Read(buffer.data, buffer.end, buffer.data.Length, now);
      SameSlice(before, buffer.data[..], buffer.start, buffer.end);
      if err == NoError {
        buffer.end := buffer.end + n;
      }
      short := false;
    }
  }
}
