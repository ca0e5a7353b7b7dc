// CreateWriter and CreateReader of protocol.go: which layers are stacked for a
// security type and option bits, and the round trip through both stacks.
module ChunkStacks {
  import opened Bytes
  import opened Crypto
  import opened ChunkFormat
  import opened ByteStream
  import opened ChunkWriters
  import opened ChunkReaders

  const SECURITY_LEGACY: byte := 1
  const SECURITY_AES_128_GCM: byte := 3
  const SECURITY_CHACHA20_POLY1305: byte := 4
  const SECURITY_NONE: byte := 5

  const CHUNK_STREAM := 1
  const CHUNK_MASKING := 4
  const GLOBAL_PADDING := 8
  const AUTHENTICATED_LENGTH := 16

  predicate Has(option: byte, bit: nat)
    requires bit > 0
  {
    option as int / bit % 2 == 1
  }

  // The foreign functions: SHAKE128 as words, KDF(key, "auth_len")[:16], the
  // ChaCha20 key from 16 bytes, FNV-1a, and CFB under a key and an iv.
  datatype Foreign = Foreign(
    suite: Suite, shake: bytes -> (nat -> word), authLen: bytes -> bytes, chachaKey: bytes -> bytes,
    fnv: bytes -> bytes, cfb: (bytes, bytes) -> Feedback)

  ghost predicate Lawful(f: Foreign) {
    Sound(f.suite) && forall p: bytes :: |f.fnv(p)| == CHECKSUM_SIZE
  }

  datatype Params = Params(requestKey: bytes, requestNonce: bytes, key: bytes, nonce: bytes)

  const NONCE_SIZE := 12

  // copy into a nonce of the cipher's size
  function Fitted(nonce: bytes): (r: bytes)
    ensures |r| == NONCE_SIZE
  {
    (nonce + seq(NONCE_SIZE, _ => 0))[..NONCE_SIZE]
  }

  function KeysOf(f: Foreign, p: Params, aes: bool): Keys {
    Keys(f.suite, f.shake(p.nonce),
         if aes then CipherKey(f.authLen(p.requestKey), true) else CipherKey(f.chachaKey(f.authLen(p.requestKey)), false),
         Fitted(p.requestNonce),
         if aes then CipherKey(p.key, true) else CipherKey(f.chachaKey(p.key), false),
         Fitted(p.nonce),
         f.fnv)
  }

  lemma KeysAreUsable(f: Foreign, p: Params, aes: bool)
    requires Lawful(f)
    ensures Usable(KeysOf(f, p, aes))
  {
  }

  // What a body writer writes with.
  datatype BodyWriter = Plain(f: Framer) | Checked(c: StreamChecksumWriter) | Authenticated(w: AEADWriter) {
    ghost function Objects(): set<object> {
      match this
      case Plain(f) => f.Objects()
      case Checked(c) => {c.upstream, c.upstream.hash, c.upstream.upstream}
      case Authenticated(w) => {w} + w.upstream.Objects()
    }

    ghost predicate Valid()
      reads Objects()
    {
      match this
      case Plain(f) => f.Valid() && f.Layout().body.Bare? && Usable(f.Keys())
      case Checked(c) => c.Valid()
      case Authenticated(w) => w.Valid() && Usable(w.keys)
    }

    function Keys(): Keys {
      match this
      case Plain(f) => f.Keys()
      case Checked(c) => c.upstream.keys
      case Authenticated(w) => w.keys
    }

    function Layout(): Layout {
      match this
      case Plain(f) => f.Layout()
      case Checked(c) => c.upstream.layout
      case Authenticated(w) => w.upstream.Layout()
    }

    ghost function At(): Place
      reads Objects()
    {
      match this
      case Plain(f) => f.At()
      case Checked(c) => c.upstream.At()
      case Authenticated(w) => w.At()
    }

    function Upstream(): Sink {
      match this
      case Plain(f) => f.Upstream()
      case Checked(c) => c.upstream.upstream
      case Authenticated(w) => w.upstream.Upstream()
    }

    ghost function Given(): bytes
      reads Objects()
    {
      Upstream().given
    }

    // One piece, which a writer without overhead must find non-empty.
    method Write(p: bytes) returns (ghost fill: bytes)
      requires Valid() && Usable(Keys()) && p != []
      modifies Objects()
      ensures Valid() && Usable(Keys())
      ensures |fill| == PaddingLength(Keys(), Layout(), old(At()))
      ensures Given() == old(Given()) + Chunk(Keys(), Layout(), old(At()), p, fill)
      ensures At() == AfterChunk(Layout(), old(At()))
    {
      hide Frame, PaddingLength, AfterFrame;
      match this {
        case Plain(f) => fill := f.Write(p);
        case Checked(c) => fill := c.Write(p);
        case Authenticated(w) => fill := w.WriteBuffer(p);
      }
    }
  }

  // The pieces one Write is cut into.
  function Pieces(split: bool, p: bytes): (r: seq<bytes>)
    ensures Flatten(r) == p
  {
    if split then Split(p, WRITE_CHUNK_SIZE)
    else if p == [] then [] else [p]
  }

  // Every piece of a Write that is cut has 15000 bytes, but for the last one.
  lemma WriteIsCut(p: bytes)
    ensures Pieces(true, p) == if p == [] then [] else if |p| <= 15000 then [p] else [p[..15000]] + Pieces(true, p[15000..])
  {
    assert p[..|p|] == p;
    assert Split(p[|p|..], WRITE_CHUNK_SIZE) == [];
  }

  // A stack of writers over a body writer; split says whether a
  // bufio.ChunkWriter of WRITE_CHUNK_SIZE is on top.
  datatype Writer = Writer(body: BodyWriter, split: bool) {
    // Every byte goes out, cut into pieces, each in a chunk of its own.
    method Write(p: bytes) returns (ghost fills: seq<bytes>)
      requires body.Valid() && Usable(body.Keys())
      modifies body.Objects()
      ensures body.Valid() && Usable(body.Keys())
      ensures |fills| == |Pieces(split, p)| && Filled(body.Keys(), body.Layout(), old(body.At()), fills)
      ensures body.Given() == old(body.Given()) + Chunks(body.Keys(), body.Layout(), old(body.At()), Pieces(split, p), fills)
      ensures body.At() == AfterChunks(body.Layout(), old(body.At()), |fills|)
    {
      hide Chunk, AfterChunk, PaddingLength, Chunks, AfterChunks, Filled, Pieces;
      ghost var k, l, at, given := body.Keys(), body.Layout(), body.At(), body.Given();
      NoChunks(k, l, at);
      NoPieces(split);
      assert given + [] == given;
      ghost var done: seq<bytes> := [];
      fills := [];
      var rest := p;
      while rest != []
        invariant body.Valid() && Usable(k)
        invariant |fills| == |done| && Filled(k, l, at, fills)
        invariant done + Pieces(split, rest) == Pieces(split, p)
        invariant body.Given() == given + Chunks(k, l, at, done, fills)
        invariant body.At() == AfterChunks(l, at, |fills|)
        decreases |rest|
      {
        var n := if split then Min(|rest|, WRITE_CHUNK_SIZE) else |rest|;
        NextPiece(split, rest, done);
        ghost var fill := body.Write(rest[..n]);
        ChunksAppend(k, l, at, done, fills, rest[..n], fill);
        Assoc(given, Chunks(k, l, at, done, fills), Chunk(k, l, AfterChunks(l, at, |done|), rest[..n], fill));
        done, fills := done + [rest[..n]], fills + [fill];
        rest := rest[n..];
      }
      assert done + [] == done;
    }
  }

  lemma NoPieces(split: bool)
    ensures Pieces(split, []) == []
  {
  }

  lemma NextPiece(split: bool, p: bytes, done: seq<bytes>)
    requires p != []
    ensures
      var n := if split then Min(|p|, WRITE_CHUNK_SIZE) else |p|;
      done + Pieces(split, p) == (done + [p[..n]]) + Pieces(split, p[n..])
  {
    var n := if split then Min(|p|, WRITE_CHUNK_SIZE) else |p|;
    assert Pieces(split, p) == [p[..n]] + Pieces(split, p[n..]) by {
      if !split {
        assert p[..n] == p && p[n..] == [];
      }
    }
  }

  // What a body reader reads with.
  datatype BodyReader = Plain(d: Deframer) | Checked(c: StreamChecksumReader) | Authenticated(r: AEADReader) {
    ghost function Objects(): set<object> {
      match this
      case Plain(d) => d.Objects()
      case Checked(c) => {c.upstream, c.upstream.hash, c.upstream.upstream}
      case Authenticated(r) => {r} + r.upstream.Objects()
    }

    ghost predicate Valid()
      reads Objects()
    {
      match this
      case Plain(d) => d.Valid() && d.Layout().body.Bare? && Usable(d.Keys())
      case Checked(c) => c.Valid()
      case Authenticated(r) => r.Valid()
    }

    function Keys(): Keys {
      match this
      case Plain(d) => d.Keys()
      case Checked(c) => c.upstream.keys
      case Authenticated(r) => r.keys
    }

    function Layout(): Layout {
      match this
      case Plain(d) => d.Layout()
      case Checked(c) => c.upstream.layout
      case Authenticated(r) => r.upstream.Layout()
    }

    ghost function At(): Place
      reads Objects()
    {
      match this
      case Plain(d) => d.At()
      case Checked(c) => c.upstream.At()
      case Authenticated(r) => r.At()
    }

    ghost function Coming(): bytes
      reads Objects()
    {
      match this
      case Plain(d) => d.Coming()
      case Checked(c) => c.upstream.upstream.Coming()
      case Authenticated(r) => r.upstream.Coming()
    }

    method Read(p: array<byte>, size: nat) returns (outcome: Outcome)
      requires Valid() && Usable(Keys()) && p !in Objects() && size <= p.Length
      modifies Objects(), p
      ensures Valid() && Usable(Keys())
      ensures Shows(ReadChunk(Keys(), Layout(), old(At()), old(Coming()), RoomOf(p, size)), outcome, p[..size], Coming())
      ensures outcome.Took? ==> At() == AfterChunk(Layout(), old(At()))
    {
      hide ReadFrame, AfterFrame;
      match this {
        case Plain(d) => outcome := d.Read(p, size);
        case Checked(c) => outcome := c.Read(p, size);
        case Authenticated(r) => outcome := r.Read(p, size);
      }
    }
  }

  // What both ends agree on, from the security type and the option bits.
  function LayoutOf(security: byte, option: byte): Layout {
    Layout(if security != SECURITY_LEGACY && Has(option, AUTHENTICATED_LENGTH) then Lengths.Sealed
           else Lengths.Clear(Has(option, CHUNK_MASKING)),
           Has(option, GLOBAL_PADDING),
           if security == SECURITY_NONE then Bare else if security == SECURITY_LEGACY then Checksum else AEAD)
  }

  predicate Splits(security: byte) {
    security != SECURITY_NONE
  }

  predicate Known(security: byte) {
    security == SECURITY_NONE || security == SECURITY_LEGACY
    || security == SECURITY_AES_128_GCM || security == SECURITY_CHACHA20_POLY1305
  }

  predicate UsesAes(security: byte) {
    security != SECURITY_CHACHA20_POLY1305
  }

  // The two ciphers are both AES or both ChaCha20; only the legacy type and no
  // security do without chunks when the option is off.
  predicate InChunks(security: byte, option: byte) {
    Has(option, CHUNK_STREAM) || security == SECURITY_AES_128_GCM || security == SECURITY_CHACHA20_POLY1305
  }

  // The same once more, type by type and bit by bit, without the functions the
  // stacks are made with. A bit is set in the upper half of every double of it.

  // Security 5 is none, 1 legacy, 3 AES-128-GCM, 4 ChaCha20-Poly1305.
  ghost predicate KeyedFor(k: Keys, f: Foreign, p: Params, security: byte) {
    && (security == 3 ==> k.bodyKey == CipherKey(p.key, true))
    && (security == 4 ==> k.bodyKey == CipherKey(f.chachaKey(p.key), false))
    && (security in {3, 5} ==> k.lengthKey == CipherKey(f.authLen(p.requestKey), true))
    && (security == 4 ==> k.lengthKey == CipherKey(f.chachaKey(f.authLen(p.requestKey)), false))
    && |k.bodyNonce| == |k.lengthNonce| == 12
    && (forall i :: 0 <= i < 12 ==> k.bodyNonce[i] == if i < |p.nonce| then p.nonce[i] else 0)
    && (forall i :: 0 <= i < 12 ==> k.lengthNonce[i] == if i < |p.requestNonce| then p.requestNonce[i] else 0)
    && k.words == f.shake(p.nonce) && k.checksum == f.fnv && k.suite == f.suite
  }

  ghost predicate LaidOutFor(l: Layout, security: byte, option: byte) {
    && (l.lengths.Sealed? <==> security in {3, 4, 5} && option % 32 >= 16)
    && (l.lengths.Clear? ==> (l.lengths.masked <==> option % 8 >= 4))
    && (l.padded <==> option % 16 >= 8)
    && (security == 5 ==> l.body == Bare) && (security == 1 ==> l.body == Checksum)
    && (security in {3, 4} ==> l.body == Body.AEAD)
  }

  lemma KeysForType(f: Foreign, p: Params, security: byte)
    requires Known(security)
    ensures KeyedFor(KeysOf(f, p, UsesAes(security)), f, p, security)
  {
  }

  lemma MaskingBit(option: byte)
    ensures Has(option, CHUNK_MASKING) <==> option % 8 >= 4
  {
  }

  lemma PaddingBit(option: byte)
    ensures Has(option, GLOBAL_PADDING) <==> option % 16 >= 8
  {
  }

  lemma LengthBit(option: byte)
    ensures Has(option, AUTHENTICATED_LENGTH) <==> option % 32 >= 16
  {
  }

  lemma LayoutForType(security: byte, option: byte)
    requires Known(security)
    ensures LaidOutFor(LayoutOf(security, option), security, option)
  {
    hide Has;
    MaskingBit(option);
    PaddingBit(option);
    LengthBit(option);
  }

  datatype CreatedWriter = DirectWriter(sink: Sink) | ChunkWriter(w: Writer) | WriterPanic

  datatype CreatedReader = DirectReader(source: Source) | ChunkReader(r: BodyReader) | ReaderPanic

  // The chunk writer for the option bits. Padding and masking share one hash
  // stream when both are on, and start their own at the same place otherwise.
  method NewFramer(sink: Sink, k: Keys, option: byte, sealedLength: bool, body: Body) returns (framer: Framer)
    requires sink.Valid() && Usable(k)
    ensures fresh(framer.Objects() - {sink}) && framer.Valid() && framer.Keys() == k
    ensures framer.Layout() == Layout(if sealedLength then Lengths.Sealed else Lengths.Clear(Has(option, CHUNK_MASKING)),
                                      Has(option, GLOBAL_PADDING), body)
    ensures framer.At() == BEGINNING && framer.Upstream() == sink
  {
    var globalPadding := Has(option, GLOBAL_PADDING);
    var hash := new Shake(k.words);
    if sealedLength {
      var a := new AEADChunkWriter(sink, k, hash, globalPadding, Layout(Lengths.Sealed, globalPadding, body));
      framer := Framer.Sealed(a);
    } else {
      var chunkMasking := Has(option, CHUNK_MASKING);
      var s := new StreamChunkWriter(sink, hash, chunkMasking, globalPadding, k,
                                     Layout(Lengths.Clear(chunkMasking), globalPadding, body));
      framer := Framer.Clear(s);
    }
  }

  method NewDeframer(source: Source, k: Keys, option: byte, sealedLength: bool, body: Body) returns (d: Deframer)
    requires Usable(k)
    ensures fresh(d.Objects() - {source}) && d.Valid() && d.Keys() == k
    ensures d.Layout() == Layout(if sealedLength then Lengths.Sealed else Lengths.Clear(Has(option, CHUNK_MASKING)),
                                 Has(option, GLOBAL_PADDING), body)
    ensures d.At() == BEGINNING && d.Coming() == source.Coming()
  {
    var globalPadding := Has(option, GLOBAL_PADDING);
    var hash := new Shake(k.words);
    if sealedLength {
      var a := new AEADChunkReader(source, k, hash, globalPadding, Layout(Lengths.Sealed, globalPadding, body));
      d := Deframer.Sealed(a);
    } else {
      var chunkMasking := Has(option, CHUNK_MASKING);
      var s := new StreamChunkReader(source, k, hash, chunkMasking, globalPadding,
                                     Layout(Lengths.Clear(chunkMasking), globalPadding, body));
      d := Deframer.Clear(s);
    }
  }

  // streamWriter, when given, is an encrypting writer already in use on the
  // same connection. Without chunks the legacy type does not continue it.
  method CreateWriter(upstream: Sink, streamWriter: Option<Sink>, f: Foreign, p: Params, security: byte, option: byte)
    returns (created: CreatedWriter)
    requires Lawful(f) && upstream.Valid() && (streamWriter.Some? ==> streamWriter.value.Valid())
    ensures created.WriterPanic? <==> security !in {1, 3, 4, 5}
    ensures created.DirectWriter? <==> security in {1, 5} && option % 2 == 0
    ensures created.ChunkWriter? ==>
              var w := created.w;
              && KeyedFor(w.body.Keys(), f, p, security) && LaidOutFor(w.body.Layout(), security, option)
              && (w.split <==> security != 5)
    ensures Known(security) ==> (created.ChunkWriter? <==> InChunks(security, option))
    ensures created.ChunkWriter? ==>
              var w := created.w;
              && w.body.Valid() && w.body.Keys() == KeysOf(f, p, UsesAes(security)) && Usable(w.body.Keys())
              && w.body.Layout() == LayoutOf(security, option) && w.split == Splits(security)
              && w.body.At() == BEGINNING && fresh(w.body.Objects() - {w.body.Upstream()})
    ensures created.ChunkWriter? ==>
              var sink := created.w.body.Upstream();
              if security != SECURITY_LEGACY then sink == upstream
              else if streamWriter.Some? then sink == streamWriter.value
              else fresh(sink) && sink.cipher == Some(f.cfb(p.key, p.nonce)) && sink.given == []
    ensures created.DirectWriter? ==>
              if security == SECURITY_NONE then created.sink == upstream
              else created.sink.cipher == Some(f.cfb(p.key, p.nonce)) && created.sink.given == []
  {
    hide KeyedFor, LaidOutFor;
    if Known(security) {
      KeysForType(f, p, security);
      LayoutForType(security, option);
    }
    KeysAreUsable(f, p, UsesAes(security));
    var k := KeysOf(f, p, UsesAes(security));
    var framer;
    if security == SECURITY_NONE {
      if !Has(option, CHUNK_STREAM) {
        return DirectWriter(upstream);
      }
      framer := NewFramer(upstream, k, option, Has(option, AUTHENTICATED_LENGTH), Bare);
      created := ChunkWriter(Writer(BodyWriter.Plain(framer), false));
    } else if security == SECURITY_LEGACY {
      var encrypter := new Sink(Some(f.cfb(p.key, p.nonce)));
      if !Has(option, CHUNK_STREAM) {
        return DirectWriter(encrypter);
      }
      framer := NewFramer(if streamWriter.Some? then streamWriter.value else encrypter, k, option, false, Checksum);
      var c := new StreamChecksumWriter(framer.s);
      created := ChunkWriter(Writer(BodyWriter.Checked(c), true));
    } else if security == SECURITY_AES_128_GCM || security == SECURITY_CHACHA20_POLY1305 {
      framer := NewFramer(upstream, k, option, Has(option, AUTHENTICATED_LENGTH), AEAD);
      var w := new AEADWriter(framer);
      created := ChunkWriter(Writer(BodyWriter.Authenticated(w), true));
    } else {
      created := WriterPanic;
    }
  }

  method CreateReader(upstream: Source, streamReader: Option<Source>, f: Foreign, p: Params, security: byte, option: byte)
    returns (created: CreatedReader)
    requires Lawful(f)
    ensures created.ReaderPanic? <==> security !in {1, 3, 4, 5}
    ensures created.DirectReader? <==> security in {1, 5} && option % 2 == 0
    ensures created.ChunkReader? ==>
              KeyedFor(created.r.Keys(), f, p, security) && LaidOutFor(created.r.Layout(), security, option)
    ensures Known(security) ==> (created.ChunkReader? <==> InChunks(security, option))
    ensures created.ChunkReader? ==>
              var r := created.r;
              && r.Valid() && r.Keys() == KeysOf(f, p, UsesAes(security)) && Usable(r.Keys())
              && r.Layout() == LayoutOf(security, option) && r.At() == BEGINNING
              && r.Coming() == (if security != SECURITY_LEGACY then upstream.Coming()
                                else if streamReader.Some? then streamReader.value.Coming()
                                else Decrypt(f.cfb(p.key, p.nonce), [], upstream.incoming))
              && fresh(r.Objects() - {upstream} - (if streamReader.Some? then {streamReader.value} else {}))
    ensures created.DirectReader? ==>
              if security == SECURITY_NONE then created.source == upstream
              else if streamReader.Some? then created.source == streamReader.value
              else created.source.Coming() == Decrypt(f.cfb(p.key, p.nonce), [], upstream.incoming)
  {
    hide KeyedFor, LaidOutFor;
    if Known(security) {
      KeysForType(f, p, security);
      LayoutForType(security, option);
    }
    KeysAreUsable(f, p, UsesAes(security));
    var k := KeysOf(f, p, UsesAes(security));
    var d;
    if security == SECURITY_NONE {
      if !Has(option, CHUNK_STREAM) {
        return DirectReader(upstream);
      }
      d := NewDeframer(upstream, k, option, Has(option, AUTHENTICATED_LENGTH), Bare);
      created := ChunkReader(BodyReader.Plain(d));
    } else if security == SECURITY_LEGACY {
      var source;
      match streamReader {
        case Some(s) => source := s;
        case None => source := new Source(Some(f.cfb(p.key, p.nonce)), upstream.incoming);
      }
      if !Has(option, CHUNK_STREAM) {
        return DirectReader(source);
      }
      d := NewDeframer(source, k, option, false, Checksum);
      var c := new StreamChecksumReader(d.s);
      created := ChunkReader(BodyReader.Checked(c));
    } else if security == SECURITY_AES_128_GCM || security == SECURITY_CHACHA20_POLY1305 {
      d := NewDeframer(upstream, k, option, Has(option, AUTHENTICATED_LENGTH), AEAD);
      var r := new AEADReader(d);
      created := ChunkReader(BodyReader.Authenticated(r));
    } else {
      created := ReaderPanic;
    }
  }

  // The pieces of one Write per element of ws.
  function AllPieces(split: bool, ws: seq<bytes>): seq<bytes> {
    if ws == [] then [] else Pieces(split, ws[0]) + AllPieces(split, ws[1..])
  }

  lemma {:induction false} AllPiecesKeepBytes(split: bool, ws: seq<bytes>)
    ensures Flatten(AllPieces(split, ws)) == Flatten(ws)
    ensures forall i :: 0 <= i < |AllPieces(split, ws)| ==> 0 < |AllPieces(split, ws)[i]|
    ensures split ==> forall i :: 0 <= i < |AllPieces(split, ws)| ==> |AllPieces(split, ws)[i]| <= WRITE_CHUNK_SIZE
    ensures !split ==> forall i :: 0 <= i < |AllPieces(split, ws)| ==> AllPieces(split, ws)[i] in ws
  {
    hide Split;
    if ws == [] {
    } else {
      AllPiecesKeepBytes(split, ws[1..]);
      FlattenAppend(Pieces(split, ws[0]), AllPieces(split, ws[1..]));
    }
  }

  // What the reader's buffer asks of the Writes: nothing when they are split,
  // and that each of them fits otherwise.
  predicate WritesFit(security: byte, ws: seq<bytes>) {
    Splits(security) || forall w :: w in ws ==> |w| <= 16384
  }

  lemma PiecesFit(security: byte, option: byte, ws: seq<bytes>, fills: seq<bytes>)
    requires Known(security) && |fills| == |AllPieces(Splits(security), ws)|
    requires forall i :: 0 <= i < |fills| ==> |fills[i]| < MAX_PADDING
    ensures AllCarried(LayoutOf(security, option), AllPieces(Splits(security), ws), fills, READ_ROOM)
            <==> WritesFit(security, ws)
  {
    hide AllPieces, Has, Flatten;
    AllPiecesKeepBytes(Splits(security), ws);
    var ps := AllPieces(Splits(security), ws);
    if !WritesFit(security, ws) {
      var w :| w in ws && |w| > 16384;
      UnsplitPiece(ws, w);
      var i :| 0 <= i < |ps| && ps[i] == w;
      assert !ChunkCarried(LayoutOf(security, option), ps[i], fills[i], READ_ROOM);
    }
  }

  lemma {:induction false} UnsplitPiece(ws: seq<bytes>, w: bytes)
    requires w in ws && w != []
    ensures w in AllPieces(false, ws)
  {
    if w != ws[0] {
      UnsplitPiece(ws[1..], w);
    }
  }

  lemma {:induction false} FillsAreShort(k: Keys, l: Layout, at: Place, fills: seq<bytes>)
    requires Filled(k, l, at, fills)
    ensures forall i :: 0 <= i < |fills| ==> |fills[i]| < MAX_PADDING
    decreases |fills|
  {
    hide AfterChunk;
    if fills != [] {
      FillsAreShort(k, l, AfterChunk(l, at), fills[1..]);
      forall i | 0 <= i < |fills| ensures |fills[i]| < MAX_PADDING {
        if i > 0 {
          assert fills[i] == fills[1..][i - 1];
        }
      }
    }
  }

  // The stack round trip, for every security type and option bits: what any
  // Writes put on the stream is read back in order, a piece per Read, in the
  // reader's buffer; and the pieces are the bytes written. Without security
  // the pieces are the Writes themselves, which then have to fit the buffer.
  lemma StackRoundTrip(f: Foreign, p: Params, security: byte, option: byte, ws: seq<bytes>, fills: seq<bytes>, rest: bytes)
    requires Lawful(f) && Known(security)
    requires |fills| == |AllPieces(Splits(security), ws)|
    requires Filled(KeysOf(f, p, UsesAes(security)), LayoutOf(security, option), BEGINNING, fills)
    ensures
      var k, l, ps := KeysOf(f, p, UsesAes(security)), LayoutOf(security, option), AllPieces(Splits(security), ws);
      && (ReadsBack(k, l, BEGINNING, Chunks(k, l, BEGINNING, ps, fills) + rest, READ_ROOM, ps, rest)
          <==> WritesFit(security, ws))
      && Flatten(ps) == Flatten(ws)
  {
    hide Chunks, Filled, ReadsBack, AllPieces, KeysOf, Flatten, AllCarried, WritesFit;
    var k, l, ps := KeysOf(f, p, UsesAes(security)), LayoutOf(security, option), AllPieces(Splits(security), ws);
    KeysAreUsable(f, p, UsesAes(security));
    AllPiecesKeepBytes(Splits(security), ws);
    FillsAreShort(k, l, BEGINNING, fills);
    PiecesFit(security, option, ws, fills);
    ChunksAreReadBack(k, l, BEGINNING, ps, fills, rest, READ_ROOM);
  }

  // Nothing splits a Write without security: it is read back by one Read
  // exactly when it fits the reader's slice, its length with the padding is a
  // 16-bit word, and the capacity has room for a sealed length if there is one.
  lemma UnsplitWrite(f: Foreign, p: Params, option: byte, at: Place, w: bytes, fill: bytes, rest: bytes, room: Room)
    requires Lawful(f) && w != []
    requires |fill| == PaddingLength(KeysOf(f, p, true), LayoutOf(SECURITY_NONE, option), at)
    ensures
      var k, l := KeysOf(f, p, true), LayoutOf(SECURITY_NONE, option);
      ReadChunk(k, l, at, Chunk(k, l, at, w, fill) + rest, room) == Got(w, rest)
      <==> |w| <= room.length && |w| + |fill| < WORD_RANGE && Holds(l, room)
  {
    hide ReadChunk, Chunk, KeysOf, Has;
    KeysAreUsable(f, p, true);
    ChunkIsReadBack(KeysOf(f, p, true), LayoutOf(SECURITY_NONE, option), at, w, fill, rest, room);
  }

  // How much more room than the data a reader is to be given.
  function ReaderOverhead(security: byte, option: byte): (r: nat)
    ensures !Has(option, CHUNK_STREAM) ==> r == if security == 3 || security == 4 then 16 else 0
    ensures !Known(security) ==> r == 0
  {
    if security == SECURITY_NONE then
      if Has(option, CHUNK_STREAM) && Has(option, AUTHENTICATED_LENGTH) then SEALED_LENGTH_SIZE else 0
    else if security == SECURITY_LEGACY then
      if Has(option, CHUNK_STREAM) then CHECKSUM_SIZE else 0
    else if security == SECURITY_AES_128_GCM || security == SECURITY_CHACHA20_POLY1305 then TAG_LENGTH
    else 0
  }

  // A slice of that length takes every piece but one whose length wraps around
  // and a single sealed byte behind a sealed length. That is read into the same
  // slice and is a byte longer, so the capacity must be greater than the length.
  lemma ReaderOverheadSuffices(f: Foreign, p: Params, security: byte, option: byte, at: Place, piece: bytes, fill: bytes,
                               rest: bytes, spare: nat)
    requires Lawful(f) && Known(security) && InChunks(security, option) && piece != []
    requires |fill| == PaddingLength(KeysOf(f, p, UsesAes(security)), LayoutOf(security, option), at)
    ensures
      var k, l := KeysOf(f, p, UsesAes(security)), LayoutOf(security, option);
      var room := Room(|piece| + ReaderOverhead(security, option), spare);
      ReadChunk(k, l, at, Chunk(k, l, at, piece, fill) + rest, room) == Got(piece, rest)
      <==> !(l.body.AEAD? && l.lengths.Sealed? && |piece| == 1 && spare == 0) && |piece| + BodyOverhead(l) + |fill| < WORD_RANGE
  {
    hide ReadChunk, Chunk, KeysOf, Has;
    var k, l := KeysOf(f, p, UsesAes(security)), LayoutOf(security, option);
    KeysAreUsable(f, p, UsesAes(security));
    ChunkIsReadBack(k, l, at, piece, fill, rest, Room(|piece| + ReaderOverhead(security, option), spare));
  }

  // An instance of the foreign functions, which shows that they can be lawful.
  function TagForeign(): Foreign {
    Foreign(TagSuite(), nonce => (i: nat) => 0, key => key, key => key, data => [0, 0, 0, 0], (key, iv) => history => 0)
  }

  lemma TagForeignIsLawful()
    ensures Lawful(TagForeign())
  {
    TagSuiteLaws();
  }

  // A single byte under AES-GCM with a sealed length, in a slice of the length
  // the overhead asks for: 17 bytes, where the sealed length takes 18. It is
  // refused if the slice ends its buffer, and taken in a buffer of 64.
  lemma SingleByteIsRefused(p: Params, rest: bytes)
    ensures
      var f, option: byte := TagForeign(), CHUNK_STREAM + AUTHENTICATED_LENGTH;
      var k, l := KeysOf(f, p, true), LayoutOf(SECURITY_AES_128_GCM, option);
      var wire := Chunk(k, l, BEGINNING, [7], []) + rest;
      && InChunks(SECURITY_AES_128_GCM, option)
      && |[7]| + ReaderOverhead(SECURITY_AES_128_GCM, option) == 17
      && ReadChunk(k, l, BEGINNING, wire, Room(17, 0)) == Failed(ShortBuffer)
      && ReadChunk(k, l, BEGINNING, wire, Room(17, 47)) == Got([7], rest)
  {
    hide Chunk, KeysOf, ReadChunk;
    TagForeignIsLawful();
    var k, l := KeysOf(TagForeign(), p, true), LayoutOf(SECURITY_AES_128_GCM, 17);
    KeysAreUsable(TagForeign(), p, true);
    assert l.lengths.Sealed? && PaddingLength(k, l, BEGINNING) == 0;
    TooShort(k, l, BEGINNING, Chunk(k, l, BEGINNING, [7], []) + rest, Room(17, 0));
    ReaderOverheadSuffices(TagForeign(), p, SECURITY_AES_128_GCM, 17, BEGINNING, [7], [], rest, 47);
  }

  // A Write of 16385 bytes without security, chunked: the peer's buffer is one
  // byte too short.
  lemma LargeWriteIsRefused(p: Params, w: bytes, rest: bytes)
    requires |w| == 16385
    ensures
      var k, l := KeysOf(TagForeign(), p, true), LayoutOf(SECURITY_NONE, CHUNK_STREAM);
      ReadChunk(k, l, BEGINNING, Chunk(k, l, BEGINNING, w, []) + rest, READ_ROOM) == Failed(ShortBuffer)
  {
    hide ReadFrame, Frame, KeysOf;
    TagForeignIsLawful();
    KeysAreUsable(TagForeign(), p, true);
    var k, l := KeysOf(TagForeign(), p, true), LayoutOf(SECURITY_NONE, CHUNK_STREAM);
    FrameOpens(k, l, BEGINNING, w, [], rest, READ_ROOM);
  }

  lemma TooShort(k: Keys, l: Layout, at: Place, stream: bytes, room: Room)
    requires Usable(k) && !Holds(l, room)
    ensures ReadChunk(k, l, at, stream, room) == Failed(ShortBuffer)
  {
  }
}
