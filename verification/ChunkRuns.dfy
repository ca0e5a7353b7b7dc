// Whole runs over the VMess chunks: any Writes into a stack made by
// CreateWriter, and Reads from one made by CreateReader over the same bytes.
module ChunkRuns {
  import opened Bytes
  import opened Crypto
  import opened ChunkFormat
  import opened ByteStream
  import opened ChunkReaders
  import opened ChunkStacks

  lemma {:induction false} FilledConcatenate(k: Keys, l: Layout, at: Place, fills: seq<bytes>, more: seq<bytes>)
    requires Filled(k, l, at, fills) && Filled(k, l, AfterChunks(l, at, |fills|), more)
    ensures Filled(k, l, at, fills + more)
    ensures AfterChunks(l, AfterChunks(l, at, |fills|), |more|) == AfterChunks(l, at, |fills| + |more|)
    decreases |fills|
  {
    hide AfterChunk, PaddingLength;
    if fills == [] {
      assert fills + more == more;
    } else {
      assert (fills + more)[1..] == fills[1..] + more;
      FilledConcatenate(k, l, AfterChunk(l, at), fills[1..], more);
    }
  }

  // Writes, one after the other.
  method WriteAll(w: Writer, ws: seq<bytes>) returns (ghost fills: seq<bytes>)
    requires w.body.Valid() && Usable(w.body.Keys())
    modifies w.body.Objects()
    ensures w.body.Valid() && Usable(w.body.Keys())
    ensures |fills| == |AllPieces(w.split, ws)| && Filled(w.body.Keys(), w.body.Layout(), old(w.body.At()), fills)
    ensures w.body.Given() == old(w.body.Given())
                              + Chunks(w.body.Keys(), w.body.Layout(), old(w.body.At()), AllPieces(w.split, ws), fills)
    ensures w.body.At() == AfterChunks(w.body.Layout(), old(w.body.At()), |fills|)
    decreases |ws|
  {
    hide AfterChunk, PaddingLength, Chunks, AfterChunks, Filled, Pieces, Chunk;
    ghost var k, l, at, given := w.body.Keys(), w.body.Layout(), w.body.At(), w.body.Given();
    if ws == [] {
      NoChunks(k, l, at);
      fills := [];
      assert given + [] == given;
      return;
    }
    ghost var first := w.Write(ws[0]);
    ghost var more := WriteAll(w, ws[1..]);
    ghost var pieces, others := Pieces(w.split, ws[0]), AllPieces(w.split, ws[1..]);
    fills := first + more;
    FilledConcatenate(k, l, at, first, more);
    ChunksConcatenate(k, l, at, pieces, first, others, more);
    Assoc(given, Chunks(k, l, at, pieces, first), Chunks(k, l, AfterChunks(l, at, |first|), others, more));
  }

  // What up to n Reads yield, the first that fails ending them.
  function Yields(k: Keys, l: Layout, at: Place, stream: bytes, room: Room, n: nat): seq<bytes>
    requires |k.lengthNonce| >= LENGTH_SIZE && |k.bodyNonce| >= LENGTH_SIZE
    decreases n
  {
    if n == 0 then []
    else
      var r := ReadChunk(k, l, at, stream, room);
      if r.Failed? then [] else [r.data] + Yields(k, l, AfterChunk(l, at), r.rest, room, n - 1)
  }

  method ReadAll(r: BodyReader, buffer: array<byte>, n: nat) returns (got: seq<bytes>)
    requires r.Valid() && Usable(r.Keys()) && buffer !in r.Objects()
    modifies r.Objects(), buffer
    ensures got == Yields(r.Keys(), r.Layout(), old(r.At()), old(r.Coming()), Room(buffer.Length, 0), n)
    decreases n
  {
    hide ReadChunk, AfterChunk;
    if n == 0 {
      return [];
    }
    var outcome := r.Read(buffer, buffer.Length);
    match outcome {
      case Error(_) => got := [];
      case Took(m) =>
        var data := buffer[..m];
        assert buffer[..buffer.Length] == buffer[..] && data == buffer[..][..m];
        var others := ReadAll(r, buffer, n - 1);
        got := [data] + others;
    }
  }

  // Reading as often as there are pieces yields them exactly when each of them
  // is carried.
  lemma {:induction false} ChunksAreYielded(k: Keys, l: Layout, at: Place, ps: seq<bytes>, fills: seq<bytes>, rest: bytes, room: Room)
    requires Usable(k) && |fills| == |ps| && Filled(k, l, at, fills)
    ensures Yields(k, l, at, Chunks(k, l, at, ps, fills) + rest, room, |ps|) == ps <==> AllCarried(l, ps, fills, room)
    decreases |ps|
  {
    hide Chunk, ReadChunk, AfterChunk, PaddingLength, ChunkCarried, AllCarried;
    if ps == [] {
      EveryOfNoneIsCarried(l, room);
    } else {
      var first, others := Chunk(k, l, at, ps[0], fills[0]), Chunks(k, l, AfterChunk(l, at), ps[1..], fills[1..]);
      ChunkIsReadBack(k, l, at, ps[0], fills[0], others + rest, room);
      ChunksAreYielded(k, l, AfterChunk(l, at), ps[1..], fills[1..], rest, room);
      Assoc(first, others, rest);
      AllCarriedSplits(l, ps, fills, room);
    }
  }

  lemma EveryOfNoneIsCarried(l: Layout, room: Room)
    ensures AllCarried(l, [], [], room)
  {
  }

  // The connection's bytes for those of the chunks, and back: only the legacy
  // type has a stream cipher underneath.
  function OnWire(f: Foreign, p: Params, security: byte, given: bytes): bytes {
    if security == SECURITY_LEGACY then Encrypt(f.cfb(p.key, p.nonce), [], given) else given
  }

  function OffWire(f: Foreign, p: Params, security: byte, wire: bytes): bytes {
    if security == SECURITY_LEGACY then Decrypt(f.cfb(p.key, p.nonce), [], wire) else wire
  }

  lemma OffWireUndoes(f: Foreign, p: Params, security: byte, given: bytes, following: bytes)
    returns (rest: bytes)
    ensures OffWire(f, p, security, OnWire(f, p, security, given) + following) == given + rest
  {
    hide Encrypt, Decrypt;
    if security == SECURITY_LEGACY {
      var m := f.cfb(p.key, p.nonce);
      SinkToSource(m, [], given, following);
      rest := Decrypt(m, [] + Encrypt(m, [], given), following);
    } else {
      rest := following;
    }
  }

  // What a sink given only this has sent.
  lemma Sent(sink: Sink)
    requires sink.Valid()
    ensures sink.sent == if sink.cipher.Some? then Encrypt(sink.cipher.value, [], sink.given) else sink.given
  {
  }

  // Writes into a new stack of writers.
  method Written(f: Foreign, p: Params, security: byte, option: byte, ws: seq<bytes>)
    returns (wire: bytes, ghost fills: seq<bytes>)
    requires Lawful(f) && Known(security) && InChunks(security, option)
    ensures |fills| == |AllPieces(Splits(security), ws)|
    ensures Filled(KeysOf(f, p, UsesAes(security)), LayoutOf(security, option), BEGINNING, fills)
    ensures wire == OnWire(f, p, security,
                           Chunks(KeysOf(f, p, UsesAes(security)), LayoutOf(security, option), BEGINNING,
                                  AllPieces(Splits(security), ws), fills))
  {
    hide Lawful, Sound, Has, KeysOf, LayoutOf, InChunks, Known, Filled, Chunks, Encrypt, AllPieces, Sink.Valid;
    var sink := new Sink(None);
    var created := CreateWriter(sink, None, f, p, security, option);
    var w := created.w;
    assert w.body.Given() == [];
    fills := WriteAll(w, ws);
    wire := w.body.Upstream().sent;
    IntoValid(w.body);
    Sent(w.body.Upstream());
    assert w.body.Given() == Chunks(w.body.Keys(), w.body.Layout(), BEGINNING, AllPieces(w.split, ws), fills);
  }

  lemma IntoValid(b: BodyWriter)
    requires b.Valid()
    ensures b.Upstream().Valid()
  {
  }

  // Reads from a new stack of readers.
  method Reading(f: Foreign, p: Params, security: byte, option: byte, wire: bytes, n: nat) returns (got: seq<bytes>)
    requires Lawful(f) && Known(security) && InChunks(security, option)
    ensures Usable(KeysOf(f, p, UsesAes(security)))
    ensures got == Yields(KeysOf(f, p, UsesAes(security)), LayoutOf(security, option), BEGINNING,
                          OffWire(f, p, security, wire), READ_ROOM, n)
  {
    hide Lawful, Sound, Has, KeysOf, LayoutOf, InChunks, Known, Decrypt, Yields;
    var source := new Source(None, wire);
    var created := CreateReader(source, None, f, p, security, option);
    var buffer := new byte[READ_CHUNK_SIZE];
    got := ReadAll(created.r, buffer, n);
  }

  // From writer to reader, for every security type and option bits with
  // chunks: Reads yield the pieces of the Writes, whose bytes are those
  // written, whatever follows on the connection, and exactly when Writes that
  // are not split fit the buffer.
  method WrittenIsRead(f: Foreign, p: Params, security: byte, option: byte, ws: seq<bytes>, following: bytes)
    returns (got: seq<bytes>)
    requires Lawful(f) && Known(security) && InChunks(security, option)
    ensures got == AllPieces(Splits(security), ws) <==> WritesFit(security, ws)
    ensures WritesFit(security, ws) ==> Flatten(got) == Flatten(ws)
  {
    hide Lawful, Sound, Has, KeysOf, LayoutOf, InChunks, Known, WritesFit, Filled, Chunks, AllPieces, Yields, OnWire, OffWire;
    var k, l := KeysOf(f, p, UsesAes(security)), LayoutOf(security, option);
    var ps := AllPieces(Splits(security), ws);
    ghost var fills;
    var wire;
    wire, fills := Written(f, p, security, option, ws);
    got := Reading(f, p, security, option, wire + following, |ps|);
    ghost var rest := OffWireUndoes(f, p, security, Chunks(k, l, BEGINNING, ps, fills), following);
    ChunksAreYielded(k, l, BEGINNING, ps, fills, rest, READ_ROOM);
    FillsAreShort(k, l, BEGINNING, fills);
    PiecesFit(security, option, ws, fills);
    AllPiecesKeepBytes(Splits(security), ws);
  }

  // What a reader that goes on with its stream makes of a header and then of
  // bytes that were encrypted by a new one, as the legacy type without chunks
  // does it.
  function ReadOn(m: Feedback, header: bytes, p: bytes): bytes {
    Decrypt(m, [], Encrypt(m, [], header) + Encrypt(m, [], p))
  }

  // It gets every p exactly if the masks do not depend on the header before
  // them, as when there was none.
  lemma NewStreamReadsBack(m: Feedback, header: bytes)
    ensures (forall p: bytes :: ReadOn(m, header, p) == header + p)
            <==> (forall c: bytes :: m(Encrypt(m, [], header) + c) == m(c))
    ensures header == [] ==> forall p: bytes :: ReadOn(m, header, p) == header + p
  {
    hide Encrypt, Decrypt, Xor;
    var before := Encrypt(m, [], header);
    EncryptNothing(m, []);
    assert header == [] ==> before == [] && forall c: bytes :: before + c == c;
    forall p: bytes ensures ReadOn(m, header, p) == header + Decrypt(m, before, Encrypt(m, [], p)) {
      SinkToSource(m, [], header, Encrypt(m, [], p));
      assert [] + before == before;
    }
    if forall c: bytes :: m(before + c) == m(c) {
      forall p: bytes ensures ReadOn(m, header, p) == header + p {
        assert before + [] == before;
        DecryptElsewhere(m, before, [], Encrypt(m, [], p));
        DecryptUndoes(m, [], p);
      }
    } else {
      var c: bytes :| m(before + c) != m(c);
      MaskShows(m, before, c);
      var p: bytes :| Decrypt(m, before, Encrypt(m, [], p)) != p;
      assert (header + Decrypt(m, before, Encrypt(m, [], p)))[|header|..] == Decrypt(m, before, Encrypt(m, [], p));
      assert (header + p)[|header|..] == p;
      assert !(forall q: bytes :: ReadOn(m, header, q) == header + q) by {
        assert ReadOn(m, header, p) != header + p;
      }
      assert m(Encrypt(m, [], header) + c) != m(c);
    }
  }

  // With masks that count the bytes before them, a zero byte behind a header of
  // one byte is read as a one.
  lemma NewStreamIsMisread()
    ensures ReadOn((h: bytes) => |h| % 256, [0], [0]) == [0, 1]
  {
    hide Encrypt, Decrypt, Xor;
    var m: Feedback := (h: bytes) => |h| % 256;
    XorFromZero(0);
    XorFromZero(1);
    EncryptOne(m, [], 0);
    assert [0] + [0] == [0, 0];
    DecryptFirst(m, [], 0, [0]);
    DecryptFirst(m, [0], 0, []);
    assert [] + [0] == [0] && [0] + [] == [0];
  }

  lemma {:induction false} DecryptElsewhere(m: Feedback, before: bytes, h: bytes, c: bytes)
    requires forall d: bytes :: m(before + d) == m(d)
    ensures Decrypt(m, before + h, c) == Decrypt(m, h, c)
    decreases |c|
  {
    if c != [] {
      DecryptElsewhere(m, before, h + [c[0]], c[1..]);
      Assoc(before, h, [c[0]]);
    }
  }

  // A byte behind c whose mask differs is read wrong.
  lemma MaskShows(m: Feedback, before: bytes, c: bytes)
    requires m(before + c) != m(c)
    ensures exists p: bytes :: Decrypt(m, before, Encrypt(m, [], p)) != p
  {
    hide Encrypt, Decrypt, Xor;
    var p := Decrypt(m, [], c) + [Xor(0, m(c)) as byte];
    EncryptUndoes(m, [], c);
    assert [] + c == c;
    EncryptAppend(m, [], Decrypt(m, [], c), [Xor(0, m(c)) as byte]);
    EncryptOne(m, c, Xor(0, m(c)));
    XorInvolution(0, m(c));
    assert Encrypt(m, [], p) == c + [0];
    DecryptAppend(m, before, c, [0]);
    DecryptFirst(m, before + c, 0, []);
    assert [0] + [] == [0];
    XorTellsMask(m(before + c), m(c));
    var q := Decrypt(m, before, c + [0]);
    assert q[|c|] == Xor(0, m(before + c)) && p[|c|] == Xor(0, m(c));
  }

  lemma {:induction false} EncryptUndoes(m: Feedback, history: bytes, c: bytes)
    ensures Encrypt(m, history, Decrypt(m, history, c)) == c
    decreases |c|
  {
    if c != [] {
      XorInvolution(c[0], m(history));
      EncryptUndoes(m, history + [c[0]], c[1..]);
      assert Decrypt(m, history, c)[1..] == Decrypt(m, history + [c[0]], c[1..]);
    }
  }

  lemma XorTellsMask(a: byte, b: byte)
    ensures Xor(0, a) == Xor(0, b) ==> a == b
  {
    XorFromZero(a);
    XorFromZero(b);
  }

  lemma XorFromZero(a: byte)
    ensures Xor(0, a) == a
  {
    assert Pow2(8) == 256 by { assert Pow2(4) == 16; }
    XorZero(a, 8);
  }

  lemma {:induction false} XorZero(a: nat, n: nat)
    requires a < Pow2(n)
    ensures XorBits(0, a, n) == a
  {
    if n > 0 {
      XorZero(a / 2, n - 1);
    }
  }
}
