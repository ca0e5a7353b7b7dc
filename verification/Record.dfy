// The record layer of vless/encryption/common.go on values: what CommonConn
// sends for given plaintext, and what it makes of given bytes.
module Record {
  import opened Bytes
  import opened Crypto
  import opened Header
  import opened Nonce

  const CHUNK_SIZE := 8192 // XrayBufferSize

  // What both ends share for the life of a connection.
  datatype Env = Env(suite: Suite, united: bytes, aes: bool)

  datatype Cipher = Cipher(key: CipherKey, nonce: bytes)

  // The sending side; pending is preWrite, [] standing for nil.
  datatype Sender = Sender(pending: bytes, cipher: Cipher)

  function NewCipher(env: Env, context: bytes): (c: Cipher)
    ensures c.nonce == ZERO_NONCE
  {
    Cipher(CipherKey(env.suite.derive(context, env.united), env.aes), ZERO_NONCE)
  }

  // The cipher after one record, whose bytes become the context of the next
  // cipher once the counter was at its maximum.
  function Turn(env: Env, c: Cipher, record: bytes): Cipher {
    if c.nonce == MAX_NONCE then NewCipher(env, record) else c.(nonce := Next(c.nonce))
  }

  function SealRecord(env: Env, c: Cipher, chunk: bytes): bytes {
    var header := EncodeHeader(|chunk| + TAG_LENGTH);
    header + env.suite.seal(c.key, Next(c.nonce), header, chunk)
  }

  function FirstChunk(x: bytes): bytes {
    x[..Min(|x|, CHUNK_SIZE)]
  }

  function OtherChunks(x: bytes): bytes {
    x[Min(|x|, CHUNK_SIZE)..]
  }

  // The bytes of one Write of x.
  function Wire(env: Env, s: Sender, x: bytes): bytes
    decreases |x|
  {
    if x == [] then []
    else
      var record := s.pending + SealRecord(env, s.cipher, FirstChunk(x));
      record + Wire(env, Sender([], Turn(env, s.cipher, record)), OtherChunks(x))
  }

  function AfterWrite(env: Env, s: Sender, x: bytes): Sender
    decreases |x|
  {
    if x == [] then s
    else
      var record := s.pending + SealRecord(env, s.cipher, FirstChunk(x));
      AfterWrite(env, Sender([], Turn(env, s.cipher, record)), OtherChunks(x))
  }

  // One Write per element of xs.
  function WireAll(env: Env, s: Sender, xs: seq<bytes>): bytes
    decreases |xs|
  {
    if xs == [] then [] else Wire(env, s, xs[0]) + WireAll(env, AfterWrite(env, s, xs[0]), xs[1..])
  }

  function AfterWriteAll(env: Env, s: Sender, xs: seq<bytes>): Sender
    decreases |xs|
  {
    if xs == [] then s else AfterWriteAll(env, AfterWrite(env, s, xs[0]), xs[1..])
  }

  // What one attempt to read a record from w meets.
  datatype Parsed = Incomplete | BadHeader | BadRecord | Opened(plain: bytes, size: nat)

  function Parse(env: Env, c: Cipher, w: bytes): (r: Parsed)
    ensures r.Opened? ==> HEADER_LENGTH < r.size <= |w|
  {
    if |w| < HEADER_LENGTH then Incomplete
    else
      var header := w[..HEADER_LENGTH];
      if !Accepted(header) then BadHeader
      else
        var size := HEADER_LENGTH + LengthOf(header);
        if |w| < size then Incomplete
        else
          match env.suite.open(c.key, Next(c.nonce), header, w[HEADER_LENGTH..size])
          case None => BadRecord
          case Some(p) => Opened(p, size)
  }

  // Everything a reader can get out of w, and where it then stands.
  datatype Received = Received(plain: bytes, cipher: Cipher, rest: bytes)

  function Receive(env: Env, c: Cipher, w: bytes): Received
    decreases |w|
  {
    var p := Parse(env, c, w);
    if p.Opened? then
      var r := Receive(env, Turn(env, c, w[..p.size]), w[p.size..]);
      r.(plain := p.plain + r.plain)
    else Received([], c, w)
  }

  // A Write is cut into records of 8192 bytes.
  lemma {:induction false} WriteIsCut(env: Env, s: Sender, x: bytes)
    requires |x| > 8192
    ensures Wire(env, s, x) == Wire(env, s, x[..8192]) + Wire(env, AfterWrite(env, s, x[..8192]), x[8192..])
    ensures AfterWrite(env, s, x) == AfterWrite(env, AfterWrite(env, s, x[..8192]), x[8192..])
  {
    var y := x[..8192];
    assert FirstChunk(y) == y == FirstChunk(x) && OtherChunks(y) == [];
    var record := s.pending + SealRecord(env, s.cipher, y);
    assert record + [] == record;
    NothingIsWritten(env, Sender([], Turn(env, s.cipher, record)));
  }

  lemma NothingIsWritten(env: Env, s: Sender)
    ensures Wire(env, s, []) == [] && AfterWrite(env, s, []) == s
  {
  }

  // One record on the wire, behind the prefix that is still pending: its header
  // is authenticated with it, and the counter moves by one, or, from its
  // maximum, to zero under a key derived from all these bytes.
  lemma RecordOnTheWire(env: Env, s: Sender, x: bytes)
    requires 0 < |x| <= 8192
    ensures var header := [23, 3, 3, (|x| + 16) / 256, (|x| + 16) % 256];
            && Wire(env, s, x) == s.pending + (header + env.suite.seal(s.cipher.key, Next(s.cipher.nonce), header, x))
            && AfterWrite(env, s, x)
               == Sender([], if s.cipher.nonce == Repeat(255, 12)
                             then Cipher(CipherKey(env.suite.derive(Wire(env, s, x), env.united), env.aes), Repeat(0, 12))
                             else s.cipher.(nonce := Next(s.cipher.nonce)))
  {
    assert FirstChunk(x) == x && OtherChunks(x) == [];
    assert EncodeHeader(|x| + TAG_LENGTH) == [23, 3, 3, (|x| + 16) / 256, (|x| + 16) % 256];
    var record := s.pending + SealRecord(env, s.cipher, x);
    assert record + [] == record;
    NothingIsWritten(env, Sender([], Turn(env, s.cipher, record)));
  }

  // A record is taken exactly if it is there, of 17 to 16640 bytes behind a
  // header that opens with 23, 3, 3, and opens together with that header.
  lemma TakenExactly(env: Env, c: Cipher, w: bytes)
    ensures var r := Parse(env, c, w);
            && (r == Incomplete <==>
                  |w| < 5 || (w[..3] == [23, 3, 3] && 17 <= FromBE16(w[3..5]) <= 16640 && |w| < 5 + FromBE16(w[3..5])))
            && (r == BadHeader <==> |w| >= 5 && !(w[..3] == [23, 3, 3] && 17 <= FromBE16(w[3..5]) <= 16640))
            && (r.Opened? ==>
                  && r.size == 5 + FromBE16(w[3..5])
                  && env.suite.open(c.key, Next(c.nonce), w[..5], w[5..r.size]) == Some(r.plain))
            && (r == BadRecord ==>
                  && |w| >= 5 && |w| >= 5 + FromBE16(w[3..5])
                  && env.suite.open(c.key, Next(c.nonce), w[..5], w[5..5 + FromBE16(w[3..5])]) == None)
  {
    if |w| >= 5 {
      assert w[..5][..3] == w[..3] && w[3..5] == [w[3], w[4]];
    }
  }

  // A pending prefix is sent once, before the first record. It stays out of
  // every later key because the counter is not at its maximum then.
  lemma PrefixIsTransparent(env: Env, s: Sender, x: bytes)
    requires s.cipher.nonce != MAX_NONCE && x != []
    ensures Wire(env, s, x) == s.pending + Wire(env, s.(pending := []), x)
    ensures AfterWrite(env, s, x) == AfterWrite(env, s.(pending := []), x)
  {
    var record := SealRecord(env, s.cipher, FirstChunk(x));
    assert [] + record == record;
  }

  lemma RecordOpens(env: Env, c: Cipher, chunk: bytes, tail: bytes)
    requires Sound(env.suite) && 0 < |chunk| <= CHUNK_SIZE
    ensures Parse(env, c, SealRecord(env, c, chunk) + tail) == Opened(chunk, |SealRecord(env, c, chunk)|)
  {
    var header := EncodeHeader(|chunk| + TAG_LENGTH);
    var body := env.suite.seal(c.key, Next(c.nonce), header, chunk);
    var w := header + body + tail;
    HeaderRoundTrip(|chunk| + TAG_LENGTH);
    assert w[..HEADER_LENGTH] == header;
    assert w[HEADER_LENGTH..HEADER_LENGTH + |body|] == body;
    assert SealRecord(env, c, chunk) + tail == w;
  }

  lemma RecordIsReceived(env: Env, c: Cipher, chunk: bytes, later: bytes)
    requires Sound(env.suite) && 0 < |chunk| <= CHUNK_SIZE
    ensures var record := SealRecord(env, c, chunk);
            var r := Receive(env, Turn(env, c, record), later);
            Receive(env, c, record + later) == r.(plain := chunk + r.plain)
  {
    var record := SealRecord(env, c, chunk);
    RecordOpens(env, c, chunk, later);
    assert (record + later)[..|record|] == record && (record + later)[|record|..] == later;
  }

  // The peer of a writer reads exactly what one Write was given and then
  // stands where the writer stands, across any number of key changes.
  lemma {:induction false} WriteIsReceived(env: Env, c: Cipher, x: bytes, tail: bytes)
    requires Sound(env.suite)
    ensures var c' := AfterWrite(env, Sender([], c), x).cipher;
            var r := Receive(env, c', tail);
            Receive(env, c, Wire(env, Sender([], c), x) + tail) == r.(plain := x + r.plain)
    ensures AfterWrite(env, Sender([], c), x).pending == []
    decreases |x|
  {
    hide Receive, SealRecord, Turn;
    if x == [] {
      assert Wire(env, Sender([], c), x) + tail == tail;
      var r := Receive(env, c, tail);
      assert x + r.plain == r.plain;
    } else {
      var chunk, x1 := FirstChunk(x), OtherChunks(x);
      var record := SealRecord(env, c, chunk);
      assert [] + record == record;
      var c1 := Turn(env, c, record);
      var later := Wire(env, Sender([], c1), x1) + tail;
      assert Wire(env, Sender([], c), x) + tail == record + later;
      RecordIsReceived(env, c, chunk, later);
      WriteIsReceived(env, c1, x1, tail);
      var r := Receive(env, AfterWrite(env, Sender([], c1), x1).cipher, tail);
      assert x == chunk + x1;
      assert chunk + (x1 + r.plain) == x + r.plain;
    }
  }

  // Lockstep over any sequence of writes.
  lemma {:induction false} WritesAreReceived(env: Env, c: Cipher, xs: seq<bytes>)
    requires Sound(env.suite)
    ensures Receive(env, c, WireAll(env, Sender([], c), xs))
         == Received(Flatten(xs), AfterWriteAll(env, Sender([], c), xs).cipher, [])
    decreases |xs|
  {
    if xs != [] {
      var s1 := AfterWrite(env, Sender([], c), xs[0]);
      WriteIsReceived(env, c, xs[0], WireAll(env, s1, xs[1..]));
      assert s1 == Sender([], s1.cipher);
      WritesAreReceived(env, s1.cipher, xs[1..]);
    }
  }

  // The same for a writer that still owes its prefix: after the prefix the
  // peer, whose cipher is the writer's, receives everything.
  lemma {:induction false} PrefixedWritesAreReceived(env: Env, s: Sender, xs: seq<bytes>)
    requires Sound(env.suite) && s.cipher.nonce != MAX_NONCE && Flatten(xs) != []
    ensures WireAll(env, s, xs) == s.pending + WireAll(env, s.(pending := []), xs)
    ensures AfterWriteAll(env, s, xs) == AfterWriteAll(env, s.(pending := []), xs)
    ensures Receive(env, s.cipher, WireAll(env, s, xs)[|s.pending|..])
         == Received(Flatten(xs), AfterWriteAll(env, s, xs).cipher, [])
    decreases |xs|
  {
    hide Receive;
    if xs[0] == [] {
      PrefixedWritesAreReceived(env, s, xs[1..]);
    } else {
      PrefixIsTransparent(env, s, xs[0]);
      hide Wire, AfterWrite;
      Regroup(s.pending, Wire(env, s.(pending := []), xs[0]), WireAll(env, AfterWrite(env, s, xs[0]), xs[1..]), []);
    }
    hide Wire, AfterWrite;
    WritesAreReceived(env, s.cipher, xs);
    var w := WireAll(env, s.(pending := []), xs);
    assert (s.pending + w)[|s.pending|..] == w;
  }

  lemma ReceiveSteps(env: Env, c: Cipher, w: bytes)
    requires Sound(env.suite)
    ensures var p := Parse(env, c, w);
            if p.Opened? then
              p.plain != [] && Receive(env, c, w).plain == p.plain + Receive(env, Turn(env, c, w[..p.size]), w[p.size..]).plain
            else Receive(env, c, w).plain == []
  {
    hide Turn, Parse, Sound;
    if Parse(env, c, w).Opened? {
      RecordIsNotEmpty(env, c, w);
    }
  }

  lemma RecordIsNotEmpty(env: Env, c: Cipher, w: bytes)
    requires Sound(env.suite) && Parse(env, c, w).Opened?
    ensures Parse(env, c, w).plain != []
  {
  }

  // Parse, one decision after the other.
  lemma ParseSteps(env: Env, c: Cipher, w: bytes)
    ensures
      var r := Parse(env, c, w);
      if |w| < HEADER_LENGTH then r == Incomplete
      else if !Accepted(w[..HEADER_LENGTH]) then r == BadHeader
      else
        var size := HEADER_LENGTH + LengthOf(w[..HEADER_LENGTH]);
        if |w| < size then r == Incomplete
        else
          var opening := env.suite.open(c.key, Next(c.nonce), w[..HEADER_LENGTH], w[HEADER_LENGTH..size]);
          r == if opening.None? then BadRecord else Opened(opening.value, size)
  {
  }

  lemma ParseOfPrefix(env: Env, c: Cipher, w: bytes, more: bytes)
    requires Parse(env, c, w).Opened?
    ensures Parse(env, c, w + more) == Parse(env, c, w)
  {
    var size := Parse(env, c, w).size;
    assert (w + more)[..HEADER_LENGTH] == w[..HEADER_LENGTH];
    assert (w + more)[HEADER_LENGTH..size] == w[HEADER_LENGTH..size];
  }

  // An earlier cut of the stream yields an earlier cut of the plaintext.
  lemma {:induction false} ReceiveMonotone(env: Env, c: Cipher, w: bytes, more: bytes)
    ensures Receive(env, c, w).plain <= Receive(env, c, w + more).plain
    decreases |w|
  {
    hide Parse, Turn;
    var p := Parse(env, c, w);
    if p.Opened? {
      ParseOfPrefix(env, c, w, more);
      assert (w + more)[..p.size] == w[..p.size];
      assert (w + more)[p.size..] == w[p.size..] + more;
      ReceiveMonotone(env, Turn(env, c, w[..p.size]), w[p.size..], more);
    }
  }
}
