// The readers of chunk_length_stream.go, chunk_length_aead.go, chunk_aead.go
// and chunk_stream_checksum.go, which take chunks apart in the caller's buffer.
module ChunkReaders {
  import opened Bytes
  import opened Crypto
  import opened ChunkFormat
  import opened ByteStream
  import opened ChunkWriters
  import Net

  // The outcome of reading into a buffer: how much, or what went wrong.
  datatype Outcome = Took(n: nat) | Error(error: ChunkFormat.Error)

  // Whether a buffer, the stream and an outcome are what got says.
  predicate Shows(got: Got, outcome: Outcome, buffer: bytes, coming: bytes) {
    match got
    case Got(data, rest) => outcome == Took(|data|) && |data| <= |buffer| && buffer[..|data|] == data && coming == rest
    case Failed(error) => outcome == Error(error)
  }

  // A slice is the first size bytes of an array, whose length is its capacity.
  function RoomOf(p: array<byte>, size: nat): Room
    requires size <= p.Length
  {
    Room(size, p.Length - size)
  }

  // The common end of both chunk readers: data of the announced length, less
  // the padding, which is skipped.
  method ReadData(upstream: Source, p: array<byte>, size: nat, length: word, paddingLen: nat) returns (outcome: Outcome)
    requires size <= p.Length
    modifies upstream, p
    ensures Shows(DataOf(length, paddingLen, old(upstream.Coming()), size), outcome, p[..size], upstream.Coming())
  {
    var dataLen := length - paddingLen;
    if dataLen < 0 {
      return Error(BadLength);
    }
    if dataLen == 0 {
      return Error(EndMarker);
    }
    var readLen := size;
    if readLen > dataLen {
      readLen := dataLen;
    } else if readLen < dataLen {
      return Error(ShortBuffer);
    }
    ghost var stream := upstream.Coming();
    var ok := upstream.ReadFull(p, readLen);
    if !ok {
      return Error(EndOfStream);
    }
    ghost var rest := upstream.Coming();
    ok := upstream.Discard(paddingLen);
    if !ok {
      return Error(EndOfStream);
    }
    assert stream[..dataLen] == p[..dataLen] && stream[dataLen..] == rest;
    assert stream[dataLen + paddingLen..] == rest[paddingLen..];
    outcome := Took(readLen);
  }

  class StreamChunkReader {
    const upstream: Source
    const keys: Keys
    const layout: Layout
    const hash: Shake
    const chunkMasking: bool
    const globalPadding: bool

    constructor (upstream: Source, keys: Keys, hash: Shake, chunkMasking: bool, globalPadding: bool, layout: Layout)
      requires hash.words == keys.words && Usable(keys)
      requires layout.lengths == Lengths.Clear(chunkMasking) && layout.padded == globalPadding
      ensures this.upstream == upstream && this.hash == hash && this.keys == keys && this.layout == layout && Valid()
    {
      this.upstream, this.keys, this.layout, this.hash := upstream, keys, layout, hash;
      this.chunkMasking, this.globalPadding := chunkMasking, globalPadding;
    }

    ghost predicate Valid() {
      && hash.words == keys.words && Usable(keys)
      && layout.lengths == Lengths.Clear(chunkMasking) && layout.padded == globalPadding
    }

    ghost function At(): Place
      reads hash
    {
      Place(hash.cursor, 0, 0)
    }

    // The length in the clear, and the padding counted in it.
    method Length() returns (length: word, paddingLen: nat, ok: bool)
      requires Valid()
      modifies hash, upstream
      ensures !ok ==> ReadLength(keys, layout, old(At()), old(upstream.Coming()), Room(0, 0)) == Failed(EndOfStream)
      ensures ok ==>
                && ReadLength(keys, layout, old(At()), old(upstream.Coming()), Room(0, 0)) == Got(BE16(length), upstream.Coming())
                && paddingLen == PaddingLength(keys, layout, old(At())) && At() == AfterFrame(layout, old(At()))
    {
      hide XorWord;
      ghost var stream, at := upstream.Coming(), At();
      length, paddingLen := 0, 0;
      length, ok := ReadWord();
      if !ok {
        return;
      }
      if globalPadding {
        var hashCode := hash.Next();
        paddingLen := hashCode % MAX_PADDING;
      }
      if chunkMasking {
        var hashCode := hash.Next();
        length := XorWord(length, hashCode);
      }
    }

    // binary.Read of a uint16
    method ReadWord() returns (length: word, ok: bool)
      modifies upstream
      ensures ok <==> |old(upstream.Coming())| >= LENGTH_SIZE
      ensures ok ==> length == FromBE16(old(upstream.Coming())[..LENGTH_SIZE])
                     && upstream.Coming() == old(upstream.Coming())[LENGTH_SIZE..]
    {
      var lengthBuffer := new byte[LENGTH_SIZE];
      ghost var stream := upstream.Coming();
      ok := upstream.ReadFull(lengthBuffer, LENGTH_SIZE);
      length := 0;
      if ok {
        assert lengthBuffer[..] == lengthBuffer[..LENGTH_SIZE] == stream[..LENGTH_SIZE];
        length := FromBE16(lengthBuffer[..]);
      }
    }

    method Read(p: array<byte>, size: nat) returns (outcome: Outcome)
      requires Valid() && size <= p.Length
      modifies hash, upstream, p
      ensures Shows(ReadFrame(keys, layout, old(At()), old(upstream.Coming()), RoomOf(p, size)), outcome, p[..size], upstream.Coming())
      ensures outcome.Took? ==> At() == AfterFrame(layout, old(At()))
    {
      hide ReadLength, DataOf, PaddingLength, BE16, FromBE16, AfterFrame;
      ClearLengthNeedsNoBuffer(keys, layout, At(), upstream.Coming(), RoomOf(p, size));
      var length, paddingLen, ok := Length();
      if !ok {
        return Error(EndOfStream);
      }
      BE16RoundTrip(length);
      outcome := ReadData(upstream, p, size, length, paddingLen);
    }
  }

  lemma ClearLengthNeedsNoBuffer(k: Keys, l: Layout, at: Place, stream: bytes, room: Room)
    requires |k.lengthNonce| >= LENGTH_SIZE && l.lengths.Clear?
    ensures ReadLength(k, l, at, stream, room) == ReadLength(k, l, at, stream, Room(0, 0))
  {
  }

  class AEADChunkReader {
    const upstream: Source
    const keys: Keys
    const layout: Layout
    const hash: Shake
    const globalPadding: bool
    var nonce: bytes
    var nonceCount: word

    constructor (upstream: Source, keys: Keys, hash: Shake, globalPadding: bool, layout: Layout)
      requires hash.words == keys.words && Usable(keys)
      requires layout.lengths.Sealed? && layout.padded == globalPadding
      ensures this.upstream == upstream && this.hash == hash && this.keys == keys && this.layout == layout
      ensures Valid() && nonceCount == 0
    {
      this.upstream, this.keys, this.layout, this.hash, this.globalPadding := upstream, keys, layout, hash, globalPadding;
      nonce, nonceCount := keys.lengthNonce, 0;
    }

    ghost predicate Valid()
      reads this
    {
      && hash.words == keys.words && Usable(keys)
      && |nonce| >= LENGTH_SIZE && nonce[LENGTH_SIZE..] == keys.lengthNonce[LENGTH_SIZE..]
      && layout.lengths.Sealed? && layout.padded == globalPadding
    }

    ghost function At(): Place
      reads this, hash
    {
      Place(hash.cursor, nonceCount, 0)
    }

    // The sealed length is opened in the first bytes of p, which need not belong
    // to the slice.
    method Length(p: array<byte>, ghost size: nat) returns (length: word, paddingLen: nat, failure: Option<ChunkFormat.Error>)
      requires Valid() && size <= p.Length
      modifies this, hash, upstream, p
      ensures Valid()
      ensures failure.Some? ==> ReadLength(keys, layout, old(At()), old(upstream.Coming()), RoomOf(p, size)) == Failed(failure.value)
      ensures failure.None? ==>
                && ReadLength(keys, layout, old(At()), old(upstream.Coming()), RoomOf(p, size)) == Got(BE16(length), upstream.Coming())
                && paddingLen == PaddingLength(keys, layout, old(At())) && At() == AfterFrame(layout, old(At()))
    {
      hide BE16, FromBE16, Wrap16;
      length, paddingLen := 0, 0;
      if p.Length < SEALED_LENGTH_SIZE {
        return length, paddingLen, Some(ShortBuffer);
      }
      ghost var stream := upstream.Coming();
      var ok := upstream.ReadFull(p, SEALED_LENGTH_SIZE);
      if !ok {
        return length, paddingLen, Some(EndOfStream);
      }
      var sealed := p[..SEALED_LENGTH_SIZE];
      assert sealed == stream[..SEALED_LENGTH_SIZE] && upstream.Coming() == stream[SEALED_LENGTH_SIZE..];
      nonce := CountedNonce(nonce, nonceCount);
      nonceCount := Wrap16(nonceCount + 1);
      match keys.suite.open(keys.lengthKey, nonce, [], sealed) {
        case None =>
          return length, paddingLen, Some(BadTag);
        case Some(x) =>
          Net.Store(p, 0, x);
          assert p[..LENGTH_SIZE] == x;
      }
      length := Wrap16(FromBE16(p[..LENGTH_SIZE]) + TAG_LENGTH);
      if globalPadding {
        var hashCode := hash.Next();
        paddingLen := hashCode % MAX_PADDING;
      }
      failure := None;
    }

    method Read(p: array<byte>, size: nat) returns (outcome: Outcome)
      requires Valid() && size <= p.Length
      modifies this, hash, upstream, p
      ensures Valid()
      ensures Shows(ReadFrame(keys, layout, old(At()), old(upstream.Coming()), RoomOf(p, size)), outcome, p[..size], upstream.Coming())
      ensures outcome.Took? ==> At() == AfterFrame(layout, old(At()))
    {
      hide ReadLength, DataOf, PaddingLength, BE16, FromBE16, AfterFrame;
      var length, paddingLen, failure := Length(p, size);
      if failure.Some? {
        return Error(failure.value);
      }
      BE16RoundTrip(length);
      outcome := ReadData(upstream, p, size, length, paddingLen);
    }
  }

  // What a body reader reads chunks from.
  datatype Deframer = Clear(s: StreamChunkReader) | Sealed(a: AEADChunkReader) {
    ghost function Objects(): set<object> {
      match this
      case Clear(s) => {s, s.hash, s.upstream}
      case Sealed(a) => {a, a.hash, a.upstream}
    }

    ghost predicate Valid()
      reads Objects()
    {
      match this
      case Clear(s) => s.Valid()
      case Sealed(a) => a.Valid()
    }

    function Keys(): (k: Keys) {
      match this
      case Clear(s) => s.keys
      case Sealed(a) => a.keys
    }

    function Layout(): Layout {
      match this
      case Clear(s) => s.layout
      case Sealed(a) => a.layout
    }

    ghost function At(): Place
      reads Objects()
    {
      match this
      case Clear(s) => s.At()
      case Sealed(a) => a.At()
    }

    ghost function Coming(): bytes
      reads Objects()
    {
      match this
      case Clear(s) => s.upstream.Coming()
      case Sealed(a) => a.upstream.Coming()
    }

    method Read(p: array<byte>, size: nat) returns (outcome: Outcome)
      requires Valid() && Usable(Keys()) && size <= p.Length
      modifies Objects(), p
      ensures Valid()
      ensures Shows(ReadFrame(Keys(), Layout(), old(At()), old(Coming()), RoomOf(p, size)), outcome, p[..size], Coming())
      ensures outcome.Took? ==> At() == AfterFrame(Layout(), old(At()))
    {
      hide ReadFrame, AfterFrame;
      match this {
        case Clear(s) => outcome := s.Read(p, size);
        case Sealed(a) => outcome := a.Read(p, size);
      }
    }
  }

  lemma ReadIgnoresBody(k: Keys, l: Layout, at: Place, count: word, stream: bytes, room: Room)
    requires |k.lengthNonce| >= LENGTH_SIZE
    ensures ReadFrame(k, l, at.(bodyCount := count), stream, room) == ReadFrame(k, l, at, stream, room)
    ensures AfterFrame(l, at.(bodyCount := count)) == AfterFrame(l, at).(bodyCount := count)
  {
  }

  class AEADReader {
    const upstream: Deframer
    const keys: Keys
    var nonce: bytes
    var nonceCount: word

    constructor (upstream: Deframer)
      requires upstream.Valid() && upstream.Layout().body.AEAD?
      ensures this.upstream == upstream && Valid() && nonceCount == 0
    {
      this.upstream, keys := upstream, upstream.Keys();
      nonce, nonceCount := upstream.Keys().bodyNonce, 0;
    }

    ghost predicate Valid()
      reads this, upstream.Objects()
    {
      && upstream.Valid() && keys == upstream.Keys() && upstream.Layout().body.AEAD? && this !in upstream.Objects()
      && |nonce| >= LENGTH_SIZE && |keys.bodyNonce| >= LENGTH_SIZE && nonce[LENGTH_SIZE..] == keys.bodyNonce[LENGTH_SIZE..]
      && Usable(keys)
    }

    ghost function At(): Place
      reads this, upstream.Objects()
    {
      upstream.At().(bodyCount := nonceCount)
    }

    // Opens the chunk in place: the plaintext ends up at the front of p.
    method Read(p: array<byte>, size: nat) returns (outcome: Outcome)
      requires Valid() && p !in upstream.Objects() && size <= p.Length
      modifies this, upstream.Objects(), p
      ensures Valid()
      ensures Shows(ReadChunk(keys, upstream.Layout(), old(At()), old(upstream.Coming()), RoomOf(p, size)), outcome, p[..size], upstream.Coming())
      ensures outcome.Took? ==> At() == AfterChunk(upstream.Layout(), old(At()))
    {
      hide ReadFrame, AfterFrame;
      ghost var l, at, stream := upstream.Layout(), upstream.At(), upstream.Coming();
      ReadIgnoresBody(keys, l, at, nonceCount, stream, RoomOf(p, size));
      outcome := upstream.Read(p, size);
      if outcome.Error? {
        return;
      }
      var data := p[..outcome.n];
      assert data == p[..size][..outcome.n];
      nonce := CountedNonce(nonce, nonceCount);
      nonceCount := Wrap16(nonceCount + 1);
      match keys.suite.open(keys.bodyKey, nonce, [], data) {
        case None =>
          return Error(BadTag);
        case Some(x) =>
          Net.Store(p, 0, x);
          assert p[..size][..|x|] == p[0..|x|] == x;
          outcome := Took(outcome.n - TAG_LENGTH);
      }
    }
  }

  class StreamChecksumReader {
    const upstream: StreamChunkReader

    constructor (upstream: StreamChunkReader)
      requires upstream.Valid() && upstream.layout.body.Checksum?
      ensures this.upstream == upstream && Valid()
    {
      this.upstream := upstream;
    }

    ghost predicate Valid() {
      upstream.Valid() && upstream.layout.body.Checksum?
    }

    // Checks the data against the four bytes before it and moves it to the front.
    method Read(p: array<byte>, size: nat) returns (outcome: Outcome)
      requires Valid() && size <= p.Length
      modifies upstream.hash, upstream.upstream, p
      ensures
        var r := upstream;
        Shows(ReadChunk(r.keys, r.layout, old(r.At()), old(r.upstream.Coming()), RoomOf(p, size)), outcome, p[..size], r.upstream.Coming())
      ensures outcome.Took? ==> upstream.At() == AfterChunk(upstream.layout, old(upstream.At()))
    {
      hide ReadFrame, AfterFrame;
      outcome := upstream.Read(p, size);
      if outcome.Error? {
        return;
      }
      var n := outcome.n;
      var data := p[..n];
      assert data == p[..size][..n];
      if n < CHECKSUM_SIZE {
        return Error(BadChecksum);
      }
      var text := p[CHECKSUM_SIZE..n];
      assert text == data[CHECKSUM_SIZE..] && p[..CHECKSUM_SIZE] == data[..CHECKSUM_SIZE];
      if upstream.keys.checksum(text) != p[..CHECKSUM_SIZE] {
        return Error(BadChecksum);
      }
      Net.Store(p, 0, text);
      assert p[..size][..|text|] == p[0..|text|] == text;
      outcome := Took(|text|);
    }
  }
}
