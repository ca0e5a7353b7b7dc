// The writers of chunk_length_stream.go, chunk_length_aead.go, chunk_aead.go
// and chunk_stream_checksum.go, as they are stacked by protocol.go.
module ChunkWriters {
  import opened Bytes
  import opened Crypto
  import opened ChunkFormat
  import opened ByteStream
  import Net

  // A sha3.ShakeHash that is only read from, a 16-bit word at a time.
  class Shake {
    const words: nat -> word
    var cursor: nat

    constructor (words: nat -> word)
      ensures this.words == words && cursor == 0
    {
      this.words, cursor := words, 0;
    }

    method Next() returns (w: word)
      modifies this
      ensures w == words(old(cursor)) && cursor == old(cursor) + 1
    {
      w := words(cursor);
      cursor := cursor + 1;
    }
  }

  // The writer's two hash fields are nil or one shared object: the flags say
  // which of them is set.
  class StreamChunkWriter {
    const upstream: Sink
    const hash: Shake
    const chunkMasking: bool
    const globalPadding: bool
    const keys: Keys
    const layout: Layout

    constructor (upstream: Sink, hash: Shake, chunkMasking: bool, globalPadding: bool, keys: Keys, layout: Layout)
      requires hash.words == keys.words && upstream.Valid() && Usable(keys)
      requires layout.lengths == Lengths.Clear(chunkMasking) && layout.padded == globalPadding
      ensures this.upstream == upstream && this.hash == hash && this.keys == keys && this.layout == layout && Valid()
    {
      this.upstream, this.hash, this.chunkMasking, this.globalPadding := upstream, hash, chunkMasking, globalPadding;
      this.keys, this.layout := keys, layout;
    }

    ghost predicate Valid()
      reads upstream
    {
      && hash.words == keys.words && upstream.Valid() && Usable(keys)
      && layout.lengths == Lengths.Clear(chunkMasking) && layout.padded == globalPadding
    }

    ghost function At(): Place
      reads hash
    {
      Place(hash.cursor, 0, 0)
    }

    // Padding is drawn before the mask, from the same stream.
    method Length(size: nat) returns (dataLen: word, paddingLen: nat)
      requires Valid()
      modifies hash
      ensures paddingLen == PaddingLength(keys, layout, old(At()))
      ensures BE16(dataLen) == LengthField(keys, layout, old(At()), size)
      ensures At() == AfterFrame(layout, old(At()))
    {
      hide Wrap16, XorWord, BE16;
      dataLen, paddingLen := Wrap16(size), 0;
      WrapOnce(size, PaddingLength(keys, layout, At()));
      if globalPadding {
        var hashCode := hash.Next();
        paddingLen := hashCode % MAX_PADDING;
        dataLen := Wrap16(dataLen + paddingLen);
      }
      if chunkMasking {
        var hashCode := hash.Next();
        dataLen := XorWord(dataLen, hashCode);
      }
    }

    method Write(p: bytes) returns (ghost fill: bytes)
      requires Valid()
      modifies hash, upstream
      ensures Valid()
      ensures p == [] ==> upstream.given == old(upstream.given) && At() == old(At())
      ensures p != [] ==>
                && |fill| == PaddingLength(keys, layout, old(At()))
                && upstream.given == old(upstream.given) + Frame(keys, layout, old(At()), p, fill)
                && At() == AfterFrame(layout, old(At()))
    {
      hide Frame, PaddingLength, AfterFrame;
      fill := [];
      if |p| == 0 {
        return;
      }
      assert [] + p == p;
      fill := WriteFrame([], p);
    }

    // The length, the checksum if there is one, the data and the padding.
    method WriteFrame(checksum: bytes, p: bytes) returns (ghost fill: bytes)
      requires Valid()
      modifies hash, upstream
      ensures Valid()
      ensures |fill| == PaddingLength(keys, layout, old(At()))
      ensures upstream.given == old(upstream.given) + Frame(keys, layout, old(At()), checksum + p, fill)
      ensures At() == AfterFrame(layout, old(At()))
    {
      hide LengthField, PaddingLength, AfterFrame, Encrypt, BE16, Usable, Sink.Valid;
      ghost var before := upstream.given;
      var dataLen, paddingLen := Length(|checksum| + |p|);
      upstream.Write(BE16(dataLen));
      WriteData(checksum, p);
      fill := WritePadding(upstream, paddingLen);
      Joined(before, BE16(dataLen), checksum + p, fill);
    }

    method WriteData(checksum: bytes, p: bytes)
      requires upstream.Valid()
      modifies upstream
      ensures upstream.Valid() && upstream.given == old(upstream.given) + (checksum + p)
    {
      hide Encrypt;
      ghost var before := upstream.given;
      if checksum == [] {
        assert checksum + p == p;
      } else {
        upstream.Write(checksum);
        Assoc(before, checksum, p);
      }
      upstream.Write(p);
    }

    method WriteWithChecksum(checksum: bytes, p: bytes) returns (ghost fill: bytes)
      requires Valid() && |checksum| == CHECKSUM_SIZE
      modifies hash, upstream
      ensures Valid()
      ensures |fill| == PaddingLength(keys, layout, old(At()))
      ensures upstream.given == old(upstream.given) + Frame(keys, layout, old(At()), checksum + p, fill)
      ensures At() == AfterFrame(layout, old(At()))
    {
      fill := WriteFrame(checksum, p);
    }

    // The same chunk built in one buffer.
    method WriteBuffer(p: bytes) returns (ghost fill: bytes)
      requires Valid()
      modifies hash, upstream
      ensures Valid()
      ensures p == [] ==> upstream.given == old(upstream.given) && At() == old(At())
      ensures p != [] ==>
                && |fill| == PaddingLength(keys, layout, old(At()))
                && upstream.given == old(upstream.given) + Frame(keys, layout, old(At()), p, fill)
                && At() == AfterFrame(layout, old(At()))
    {
      fill := [];
      if |p| == 0 {
        return;
      }
      var dataLen, paddingLen := Length(|p|);
      var buffer := BE16(dataLen) + p;
      var padding := Net.RandomBytes(paddingLen);
      fill := padding;
      assert buffer + padding == BE16(dataLen) + (p + padding);
      upstream.Write(buffer + padding);
    }
  }

  // io.CopyN of n random bytes, if there are any to be written.
  method WritePadding(upstream: Sink, n: nat) returns (ghost fill: bytes)
    requires upstream.Valid()
    modifies upstream
    ensures upstream.Valid() && |fill| == n && upstream.given == old(upstream.given) + fill
  {
    hide Encrypt;
    var padding := Net.RandomBytes(n);
    fill := padding;
    if n > 0 {
      upstream.Write(padding);
    } else {
      assert upstream.given + fill == upstream.given;
    }
  }

  lemma Joined(given: bytes, length: bytes, data: bytes, fill: bytes)
    ensures ((given + length) + data) + fill == given + (length + (data + fill))
  {
  }

  class AEADChunkWriter {
    const upstream: Sink
    const keys: Keys
    const layout: Layout
    const hash: Shake
    const globalPadding: bool
    var nonce: bytes
    var nonceCount: word

    constructor (upstream: Sink, keys: Keys, hash: Shake, globalPadding: bool, layout: Layout)
      requires hash.words == keys.words && upstream.Valid() && Usable(keys)
      requires layout.lengths.Sealed? && layout.padded == globalPadding
      ensures this.upstream == upstream && this.hash == hash && this.keys == keys && this.layout == layout
      ensures Valid() && nonceCount == 0
    {
      this.upstream, this.keys, this.hash, this.globalPadding, this.layout := upstream, keys, hash, globalPadding, layout;
      nonce, nonceCount := keys.lengthNonce, 0;
    }

    ghost predicate Valid()
      reads this, upstream
    {
      && hash.words == keys.words && upstream.Valid() && Usable(keys)
      && |nonce| >= LENGTH_SIZE && nonce[LENGTH_SIZE..] == keys.lengthNonce[LENGTH_SIZE..]
      && layout.lengths.Sealed? && layout.padded == globalPadding
    }

    ghost function At(): Place
      reads this, hash
    {
      Place(hash.cursor, nonceCount, 0)
    }

    // The sealed length, and how much padding was drawn for it.
    method Length(size: nat) returns (field: bytes, paddingLen: nat)
      requires Valid()
      modifies hash, `nonce, `nonceCount
      ensures Valid()
      ensures paddingLen == PaddingLength(keys, layout, old(At()))
      ensures field == LengthField(keys, layout, old(At()), size)
      ensures At() == AfterFrame(layout, old(At()))
    {
      hide Wrap16, BE16;
      ghost var before := At();
      var dataLength := Wrap16(size);
      paddingLen := 0;
      WrapOnce(size, PaddingLength(keys, layout, before));
      if globalPadding {
        var hashCode := hash.Next();
        paddingLen := hashCode % MAX_PADDING;
        dataLength := Wrap16(dataLength + paddingLen);
      }
      dataLength := Wrap16(dataLength - TAG_LENGTH);
      nonce := CountedNonce(nonce, nonceCount);
      nonceCount := Wrap16(nonceCount + 1);
      field := keys.suite.seal(keys.lengthKey, nonce, [], BE16(dataLength));
    }

    method Write(p: bytes) returns (ghost fill: bytes)
      requires Valid()
      modifies this, hash, upstream
      ensures Valid()
      ensures p == [] ==> upstream.given == old(upstream.given) && At() == old(At())
      ensures p != [] ==>
                && |fill| == PaddingLength(keys, layout, old(At()))
                && upstream.given == old(upstream.given) + Frame(keys, layout, old(At()), p, fill)
                && At() == AfterFrame(layout, old(At()))
    {
      hide LengthField, PaddingLength, AfterFrame, Encrypt, Usable;
      fill := [];
      if |p| == 0 {
        return;
      }
      ghost var before := upstream.given;
      var field, paddingLen := Length(|p|);
      upstream.Write(field);
      upstream.Write(p);
      fill := WritePadding(upstream, paddingLen);
      Joined(before, field, p, fill);
    }

    // The same chunk built in one buffer.
    method WriteBuffer(p: bytes) returns (ghost fill: bytes)
      requires Valid()
      modifies this, hash, upstream
      ensures Valid()
      ensures p == [] ==> upstream.given == old(upstream.given) && At() == old(At())
      ensures p != [] ==>
                && |fill| == PaddingLength(keys, layout, old(At()))
                && upstream.given == old(upstream.given) + Frame(keys, layout, old(At()), p, fill)
                && At() == AfterFrame(layout, old(At()))
    {
      hide LengthField, PaddingLength, AfterFrame, Encrypt, Usable;
      fill := [];
      if |p| == 0 {
        return;
      }
      var field, paddingLen := Length(|p|);
      var padding := Net.RandomBytes(paddingLen);
      fill := padding;
      var buffer := field + p;
      assert buffer + padding == field + (p + padding);
      upstream.Write(buffer + padding);
    }
  }

  // What a body writer writes chunks to.
  datatype Framer = Clear(s: StreamChunkWriter) | Sealed(a: AEADChunkWriter) {
    ghost function Objects(): set<object> {
      match this
      case Clear(s) => {s, s.hash, s.upstream}
      case Sealed(a) => {a, a.hash, a.upstream}
    }

    ghost predicate Valid()
      reads Objects()
    {
      match this
      case Clear(s) => s.Valid()
      case Sealed(a) => a.Valid()
    }

    function Keys(): Keys {
      match this
      case Clear(s) => s.keys
      case Sealed(a) => a.keys
    }

    function Layout(): Layout {
      match this
      case Clear(s) => s.layout
      case Sealed(a) => a.layout
    }

    ghost function At(): Place
      reads Objects()
    {
      match this
      case Clear(s) => s.At()
      case Sealed(a) => a.At()
    }

    function Upstream(): Sink {
      match this
      case Clear(s) => s.upstream
      case Sealed(a) => a.upstream
    }

    ghost function Given(): bytes
      reads Objects()
    {
      Upstream().given
    }

    method Write(p: bytes) returns (ghost fill: bytes)
      requires Valid()
      modifies Objects()
      ensures Valid()
      ensures p == [] ==> Given() == old(Given()) && At() == old(At())
      ensures p != [] ==>
                && |fill| == PaddingLength(Keys(), Layout(), old(At()))
                && Given() == old(Given()) + Frame(Keys(), Layout(), old(At()), p, fill)
                && At() == AfterFrame(Layout(), old(At()))
    {
      hide Frame, PaddingLength, AfterFrame;
      match this {
        case Clear(s) => fill := s.Write(p);
        case Sealed(a) => fill := a.Write(p);
      }
    }
  }

  // The place of a chunk's body does not show in its frame.
  lemma FrameIgnoresBody(k: Keys, l: Layout, at: Place, count: word, data: bytes, fill: bytes)
    requires |k.lengthNonce| >= LENGTH_SIZE
    ensures
      var there := at.(bodyCount := count);
      && Frame(k, l, there, data, fill) == Frame(k, l, at, data, fill)
      && PaddingLength(k, l, there) == PaddingLength(k, l, at)
      && AfterFrame(l, there) == AfterFrame(l, at).(bodyCount := count)
  {
  }

  class AEADWriter {
    const upstream: Framer
    const keys: Keys
    var nonce: bytes
    var nonceCount: word

    constructor (upstream: Framer)
      requires upstream.Valid() && upstream.Layout().body.AEAD?
      ensures this.upstream == upstream && Valid() && nonceCount == 0
    {
      this.upstream, keys := upstream, upstream.Keys();
      nonce, nonceCount := upstream.Keys().bodyNonce, 0;
    }

    ghost predicate Valid()
      reads this, upstream.Objects()
    {
      && upstream.Valid() && keys == upstream.Keys() && upstream.Layout().body.AEAD? && this !in upstream.Objects()
      && |nonce| >= LENGTH_SIZE && nonce[LENGTH_SIZE..] == keys.bodyNonce[LENGTH_SIZE..]
    }

    ghost function At(): Place
      reads this, upstream.Objects()
    {
      upstream.At().(bodyCount := nonceCount)
    }

    // Write and WriteBuffer: the source's Write wraps its argument in a buffer.
    method WriteBuffer(p: bytes) returns (ghost fill: bytes)
      requires Valid()
      modifies this, upstream.Objects()
      ensures Valid()
      ensures |fill| == PaddingLength(keys, upstream.Layout(), old(At()))
      ensures upstream.Given() == old(upstream.Given()) + Chunk(keys, upstream.Layout(), old(At()), p, fill)
      ensures At() == AfterChunk(upstream.Layout(), old(At()))
    {
      hide Frame, PaddingLength, AfterFrame;
      ghost var l, at := upstream.Layout(), upstream.At();
      Unpacks(keys, l, At(), p);
      nonce := CountedNonce(nonce, nonceCount);
      var sealed := keys.suite.seal(keys.bodyKey, nonce, [], p);
      nonceCount := Wrap16(nonceCount + 1);
      fill := upstream.Write(sealed);
      FrameIgnoresBody(keys, l, at, old(nonceCount), sealed, fill);
    }
  }

  class StreamChecksumWriter {
    const upstream: StreamChunkWriter

    constructor (upstream: StreamChunkWriter)
      requires upstream.Valid() && upstream.layout.body.Checksum?
      ensures this.upstream == upstream && Valid()
    {
      this.upstream := upstream;
    }

    ghost predicate Valid()
      reads upstream.upstream
    {
      upstream.Valid() && upstream.layout.body.Checksum?
    }

    method Write(p: bytes) returns (ghost fill: bytes)
      requires Valid()
      modifies upstream.hash, upstream.upstream
      ensures Valid()
      ensures |fill| == PaddingLength(upstream.keys, upstream.layout, old(upstream.At()))
      ensures upstream.upstream.given
              == old(upstream.upstream.given) + Chunk(upstream.keys, upstream.layout, old(upstream.At()), p, fill)
      ensures upstream.At() == AfterChunk(upstream.layout, old(upstream.At()))
    {
      hide Frame, PaddingLength, AfterFrame;
      fill := upstream.WriteWithChecksum(upstream.keys.checksum(p), p);
    }

    // The same chunk from a buffer with the checksum put before the data.
    method WriteBuffer(p: bytes) returns (ghost fill: bytes)
      requires Valid()
      modifies upstream.hash, upstream.upstream
      ensures Valid()
      ensures |fill| == PaddingLength(upstream.keys, upstream.layout, old(upstream.At()))
      ensures upstream.upstream.given
              == old(upstream.upstream.given) + Chunk(upstream.keys, upstream.layout, old(upstream.At()), p, fill)
      ensures upstream.At() == AfterChunk(upstream.layout, old(upstream.At()))
    {
      hide Frame, PaddingLength, AfterFrame;
      fill := upstream.Write(upstream.keys.checksum(p) + p);
    }
  }
}
