// The VMess chunk layers on values: what a stack of writers puts on the wire
// and what the matching stack of readers makes of it.
module ChunkFormat {
  import opened Bytes
  import opened Crypto

  const WORD_RANGE := 0x10000
  const LENGTH_SIZE := 2
  const SEALED_LENGTH_SIZE := LENGTH_SIZE + TAG_LENGTH
  const MAX_PADDING := 64
  const CHECKSUM_SIZE := 4
  const READ_CHUNK_SIZE := 16384
  const WRITE_CHUNK_SIZE := 15000

  // How a chunk carries its length: in the clear, possibly XORed with a word
  // of the hash stream, or sealed.
  datatype Lengths = Clear(masked: bool) | Sealed

  // What a chunk carries.
  datatype Body = Bare | Checksum | AEAD

  datatype Layout = Layout(lengths: Lengths, padded: bool, body: Body)

  // What both ends of one direction share: the hash stream as 16-bit words,
  // the two ciphers with their nonces, and the checksum.
  datatype Keys = Keys(
    suite: Suite, words: nat -> word,
    lengthKey: CipherKey, lengthNonce: bytes,
    bodyKey: CipherKey, bodyNonce: bytes,
    checksum: bytes -> bytes)

  ghost predicate Usable(k: Keys) {
    && Sound(k.suite)
    && |k.lengthNonce| >= LENGTH_SIZE && |k.bodyNonce| >= LENGTH_SIZE
    && forall p: bytes :: |k.checksum(p)| == CHECKSUM_SIZE
  }

  // The cursor into the hash stream and the two nonce counters.
  datatype Place = Place(cursor: nat, lengthCount: word, bodyCount: word)

  const BEGINNING: Place := Place(0, 0, 0)

  // PutUint16(nonce, count)
  function CountedNonce(nonce: bytes, count: word): (r: bytes)
    requires |nonce| >= LENGTH_SIZE
    ensures |r| == |nonce| && r[LENGTH_SIZE..] == nonce[LENGTH_SIZE..]
  {
    BE16(count) + nonce[LENGTH_SIZE..]
  }

  function Wrap16(x: int): word {
    x % WORD_RANGE
  }

  lemma WrapOnce(x: int, y: int)
    ensures Wrap16(Wrap16(x) + y) == Wrap16(x + y)
  {
    var q := x / WORD_RANGE;
    assert x == q * WORD_RANGE + Wrap16(x);
    assert (x + y) == q * WORD_RANGE + (Wrap16(x) + y);
  }

  function XorWord(a: word, b: word): (r: word) {
    assert Pow2(16) == 0x10000 by { assert Pow2(4) == 16; assert Pow2(8) == 256; assert Pow2(12) == 4096; }
    XorBits(a, b, 16)
  }

  lemma XorWordInvolution(a: word, b: word)
    ensures XorWord(XorWord(a, b), b) == a
  {
    assert Pow2(16) == 0x10000 by { assert Pow2(4) == 16; assert Pow2(8) == 256; assert Pow2(12) == 4096; }
    XorBitsInvolution(a, b, 16);
  }

  function PaddingLength(k: Keys, l: Layout, at: Place): nat {
    if l.padded then k.words(at.cursor) % MAX_PADDING else 0
  }

  // The words a chunk takes: one for its padding, then one for its mask.
  function WordsTaken(l: Layout): nat {
    (if l.padded then 1 else 0) + (if l.lengths.Clear? && l.lengths.masked then 1 else 0)
  }

  function Mask(k: Keys, l: Layout, at: Place, length: word): word {
    if l.lengths.Clear? && l.lengths.masked
    then XorWord(length, k.words(at.cursor + (if l.padded then 1 else 0)))
    else length
  }

  function LengthField(k: Keys, l: Layout, at: Place, size: nat): bytes
    requires |k.lengthNonce| >= LENGTH_SIZE
  {
    var length := Wrap16(size + PaddingLength(k, l, at));
    if l.lengths.Sealed?
    then k.suite.seal(k.lengthKey, CountedNonce(k.lengthNonce, at.lengthCount), [], BE16(Wrap16(length - TAG_LENGTH)))
    else BE16(Mask(k, l, at, length))
  }

  // One chunk around data; fill is its random padding.
  function Frame(k: Keys, l: Layout, at: Place, data: bytes, fill: bytes): bytes
    requires |k.lengthNonce| >= LENGTH_SIZE
  {
    LengthField(k, l, at, |data|) + (data + fill)
  }

  function AfterFrame(l: Layout, at: Place): Place {
    at.(cursor := at.cursor + WordsTaken(l),
        lengthCount := if l.lengths.Sealed? then Wrap16(at.lengthCount + 1) else at.lengthCount)
  }

  datatype Error = ShortBuffer | BadLength | EndMarker | EndOfStream | BadTag | BadChecksum

  datatype Got = Got(data: bytes, rest: bytes) | Failed(error: Error)

  // The slice a Read is given: its length, and what its capacity is above that.
  datatype Room = Room(length: nat, spare: nat) {
    function Capacity(): nat {
      length + spare
    }
  }

  // The reader's buffer, which has no spare room.
  const READ_ROOM := Room(READ_CHUNK_SIZE, 0)

  // What the length field says. A sealed one is read and opened in the room,
  // up to its capacity.
  function ReadLength(k: Keys, l: Layout, at: Place, stream: bytes, room: Room): (r: Got)
    requires |k.lengthNonce| >= LENGTH_SIZE
    ensures r.Got? ==> |r.data| >= LENGTH_SIZE && |r.rest| < |stream|
  {
    if l.lengths.Sealed? then
      if room.Capacity() < SEALED_LENGTH_SIZE then Failed(ShortBuffer)
      else if |stream| < SEALED_LENGTH_SIZE then Failed(EndOfStream)
      else
        match k.suite.open(k.lengthKey, CountedNonce(k.lengthNonce, at.lengthCount), [], stream[..SEALED_LENGTH_SIZE])
        case None => Failed(BadTag)
        case Some(x) =>
          if |x| < LENGTH_SIZE then Failed(BadTag) else Got(BE16(Wrap16(FromBE16(x) + TAG_LENGTH)), stream[SEALED_LENGTH_SIZE..])
    else
      if |stream| < LENGTH_SIZE then Failed(EndOfStream)
      else Got(BE16(Mask(k, l, at, FromBE16(stream[..LENGTH_SIZE]))), stream[LENGTH_SIZE..])
  }

  // One Read into a room, whose length the data must not exceed.
  function ReadFrame(k: Keys, l: Layout, at: Place, stream: bytes, room: Room): (r: Got)
    requires |k.lengthNonce| >= LENGTH_SIZE
    ensures r.Got? ==> 0 < |r.data| <= room.length && |r.rest| < |stream|
  {
    var head := ReadLength(k, l, at, stream, room);
    if head.Failed? then head
    else
      DataOf(FromBE16(head.data), PaddingLength(k, l, at), head.rest, room.length)
  }

  // The data of a chunk of the given length, of which padding is skipped.
  function DataOf(length: nat, padding: nat, stream: bytes, size: nat): (r: Got)
    ensures r.Got? ==> 0 < |r.data| <= size && |r.rest| < |stream|
  {
    if length < padding then Failed(BadLength)
    else
      var dataLen := length - padding;
      if dataLen == 0 then Failed(EndMarker)
      else if size < dataLen then Failed(ShortBuffer)
      else if |stream| < dataLen + padding then Failed(EndOfStream)
      else Got(stream[..dataLen], stream[dataLen + padding..])
  }

  predicate Holds(l: Layout, room: Room) {
    l.lengths.Sealed? ==> room.Capacity() >= SEALED_LENGTH_SIZE
  }

  lemma SealedLengthOpens(k: Keys, l: Layout, at: Place, size: nat, rest: bytes, room: Room)
    requires Usable(k) && l.lengths.Sealed? && Holds(l, room)
    ensures ReadLength(k, l, at, LengthField(k, l, at, size) + rest, room)
            == Got(BE16(Wrap16(size + PaddingLength(k, l, at))), rest)
  {
    hide PaddingLength, Wrap16, FromBE16, CountedNonce;
    var length := Wrap16(size + PaddingLength(k, l, at));
    var short := Wrap16(length - TAG_LENGTH);
    var field := LengthField(k, l, at, size);
    BE16RoundTrip(short);
    assert |field| == SEALED_LENGTH_SIZE;
    assert (field + rest)[..SEALED_LENGTH_SIZE] == field && (field + rest)[SEALED_LENGTH_SIZE..] == rest;
    assert Wrap16(short + TAG_LENGTH) == length by {
      WrapOnce(length - TAG_LENGTH, TAG_LENGTH);
      WrapOnce(size + PaddingLength(k, l, at), 0);
    }
  }

  lemma ClearLengthOpens(k: Keys, l: Layout, at: Place, size: nat, rest: bytes, room: Room)
    requires |k.lengthNonce| >= LENGTH_SIZE && l.lengths.Clear?
    ensures ReadLength(k, l, at, LengthField(k, l, at, size) + rest, room)
            == Got(BE16(Wrap16(size + PaddingLength(k, l, at))), rest)
  {
    hide PaddingLength, Mask;
    var length := Wrap16(size + PaddingLength(k, l, at));
    var masked := Mask(k, l, at, length);
    BE16RoundTrip(masked);
    assert (BE16(masked) + rest)[..LENGTH_SIZE] == BE16(masked) && (BE16(masked) + rest)[LENGTH_SIZE..] == rest;
    MaskInvolution(k, l, at, length);
  }

  lemma MaskInvolution(k: Keys, l: Layout, at: Place, length: word)
    ensures Mask(k, l, at, Mask(k, l, at, length)) == length
  {
    XorWordInvolution(length, k.words(at.cursor + (if l.padded then 1 else 0)));
  }

  // The reader undoes masking, sealing and the wrap-around of the length.
  lemma LengthOpens(k: Keys, l: Layout, at: Place, size: nat, rest: bytes, room: Room)
    requires Usable(k) && Holds(l, room)
    ensures ReadLength(k, l, at, LengthField(k, l, at, size) + rest, room)
            == Got(BE16(Wrap16(size + PaddingLength(k, l, at))), rest)
  {
    if l.lengths.Sealed? {
      SealedLengthOpens(k, l, at, size, rest, room);
    } else {
      ClearLengthOpens(k, l, at, size, rest, room);
    }
  }

  // Whether a chunk of size bytes and some padding goes through a
  // reader's room: its length must not wrap around.
  predicate Carried(l: Layout, size: nat, padding: nat, room: Room) {
    0 < size <= room.length && size + padding < WORD_RANGE && Holds(l, room)
  }

  // What one Read makes of the head of a frame, whatever the frame's size.
  lemma FrameOpens(k: Keys, l: Layout, at: Place, data: bytes, fill: bytes, rest: bytes, room: Room)
    requires Usable(k) && |fill| == PaddingLength(k, l, at) && Holds(l, room)
    ensures ReadFrame(k, l, at, Frame(k, l, at, data, fill) + rest, room)
            == DataOf(Wrap16(|data| + |fill|), |fill|, data + (fill + rest), room.length)
  {
    hide ReadLength, LengthField, BE16, FromBE16, PaddingLength, DataOf, Wrap16;
    var field, tail := LengthField(k, l, at, |data|), data + (fill + rest);
    assert Frame(k, l, at, data, fill) + rest == field + tail by {
      Regroup(field, data, fill, rest);
    }
    LengthOpens(k, l, at, |data|, tail, room);
    BE16RoundTrip(Wrap16(|data| + |fill|));
    WrapOnce(|data| + |fill|, 0);
  }

  lemma DataIsTaken(data: bytes, fill: bytes, rest: bytes, size: nat)
    requires 0 < |data| <= size
    ensures DataOf(|data| + |fill|, |fill|, data + (fill + rest), size) == Got(data, rest)
  {
    assert (data + (fill + rest))[..|data|] == data;
    assert (data + (fill + rest))[|data| + |fill|..] == rest;
  }

  lemma PaddingIsShort(k: Keys, l: Layout, at: Place)
    ensures PaddingLength(k, l, at) < MAX_PADDING
  {
  }

  // A chunk that is not carried is refused or cut short.
  lemma FrameFailsOtherwise(k: Keys, l: Layout, at: Place, data: bytes, fill: bytes, rest: bytes, room: Room)
    requires Usable(k) && |fill| == PaddingLength(k, l, at) && !Carried(l, |data|, |fill|, room)
    ensures
      var r := ReadFrame(k, l, at, Frame(k, l, at, data, fill) + rest, room);
      r.Got? ==> |r.data| < |data|
  {
    hide ReadFrame, Frame, PaddingLength, Sound, DataOf, Wrap16;
    PaddingIsShort(k, l, at);
    if Holds(l, room) {
      FrameOpens(k, l, at, data, fill, rest, room);
      LengthIsTooShort(|data|, |fill|, data + (fill + rest), room.length);
    } else {
      SealedNeedsRoom(k, l, at, Frame(k, l, at, data, fill) + rest, room);
    }
  }

  lemma LengthIsTooShort(size: nat, padding: nat, stream: bytes, room: nat)
    requires padding < MAX_PADDING && !(0 < size <= room && size + padding < WORD_RANGE)
    ensures var r := DataOf(Wrap16(size + padding), padding, stream, room); r.Got? ==> |r.data| < size
  {
  }

  lemma SealedNeedsRoom(k: Keys, l: Layout, at: Place, stream: bytes, room: Room)
    requires |k.lengthNonce| >= LENGTH_SIZE && !Holds(l, room)
    ensures ReadFrame(k, l, at, stream, room) == Failed(ShortBuffer)
  {
  }

  // A chunk is read back whole exactly when its data is not empty, fits the
  // buffer and has, with its padding, a 16-bit length.
  lemma FrameIsReadBack(k: Keys, l: Layout, at: Place, data: bytes, fill: bytes, rest: bytes, room: Room)
    requires Usable(k) && |fill| == PaddingLength(k, l, at)
    ensures ReadFrame(k, l, at, Frame(k, l, at, data, fill) + rest, room) == Got(data, rest)
            <==> Carried(l, |data|, |fill|, room)
  {
    hide ReadFrame, Frame, PaddingLength, Sound, DataOf;
    if Carried(l, |data|, |fill|, room) {
      FrameOpens(k, l, at, data, fill, rest, room);
      DataIsTaken(data, fill, rest, room.length);
    } else {
      FrameFailsOtherwise(k, l, at, data, fill, rest, room);
    }
  }

  // A chunk without data ends the stream.
  lemma EmptyFrameEnds(k: Keys, l: Layout, at: Place, fill: bytes, rest: bytes, room: Room)
    requires Usable(k) && |fill| == PaddingLength(k, l, at) && Holds(l, room)
    ensures ReadFrame(k, l, at, Frame(k, l, at, [], fill) + rest, room) == Failed(EndMarker)
  {
    hide ReadFrame, Frame;
    PaddingIsShort(k, l, at);
    FrameOpens(k, l, at, [], fill, rest, room);
  }

  // The first hash word of a padded chunk is its padding, modulo 64, and the
  // next one its mask; without padding the mask is the first.
  lemma HashWords(k: Keys, at: Place, padded: bool, data: bytes, fill: bytes)
    requires |k.lengthNonce| >= LENGTH_SIZE
    ensures
      var l := Layout(Clear(true), padded, Bare);
      |fill| == PaddingLength(k, l, at) ==>
        && |fill| == (if padded then k.words(at.cursor) % 64 else 0)
        && Frame(k, l, at, data, fill)[..2]
           == BE16(XorWord((|data| + |fill|) % 0x10000, k.words(if padded then at.cursor + 1 else at.cursor)))
        && AfterFrame(l, at).cursor == at.cursor + if padded then 2 else 1
  {
    var l := Layout(Clear(true), padded, Bare);
    if |fill| == PaddingLength(k, l, at) {
      assert Frame(k, l, at, data, fill)[..2] == LengthField(k, l, at, |data|);
    }
  }

  // What a Read meets in any stream: a length field of 2 bytes, or of 18 that
  // must fit the capacity and open, and then data and padding.
  lemma FrameMeets(k: Keys, l: Layout, at: Place, stream: bytes, room: Room)
    requires |k.lengthNonce| >= LENGTH_SIZE
    ensures
      var size := if l.lengths.Sealed? then 18 else 2;
      var r := ReadFrame(k, l, at, stream, room);
      && (l.lengths.Sealed? && room.length + room.spare < 18 ==> r == Failed(ShortBuffer))
      && (l.lengths.Clear? || room.length + room.spare >= 18 ==>
            && (|stream| < size ==> r == Failed(EndOfStream))
            && (|stream| >= size ==>
                  var opens := l.lengths.Sealed? ==>
                    k.suite.open(k.lengthKey, BE16(at.lengthCount) + k.lengthNonce[2..], [], stream[..18]).Some?;
                  !opens ==> r == Failed(BadTag)))
  {
    hide PaddingLength, Mask;
  }

  lemma DataMeets(length: nat, padding: nat, stream: bytes, size: nat)
    ensures
      var r := DataOf(length, padding, stream, size);
      && (r == Failed(BadLength) <==> length < padding)
      && (r == Failed(EndMarker) <==> length == padding)
      && (r == Failed(ShortBuffer) <==> length - padding > size)
      && (r == Failed(EndOfStream) <==> 0 < length - padding <= size && |stream| < length)
      && (r.Got? ==> r == Got(stream[..length - padding], stream[length..]))
  {
  }

  // What the layer above a chunk makes of a piece of plaintext, and back.
  function Pack(k: Keys, l: Layout, at: Place, p: bytes): bytes
    requires |k.bodyNonce| >= LENGTH_SIZE
  {
    match l.body
    case Bare => p
    case Checksum => k.checksum(p) + p
    case AEAD => k.suite.seal(k.bodyKey, CountedNonce(k.bodyNonce, at.bodyCount), [], p)
  }

  function Unpack(k: Keys, l: Layout, at: Place, data: bytes): Option<bytes>
    requires |k.bodyNonce| >= LENGTH_SIZE
  {
    match l.body
    case Bare => Some(data)
    case Checksum =>
      if |data| >= CHECKSUM_SIZE && k.checksum(data[CHECKSUM_SIZE..]) == data[..CHECKSUM_SIZE]
      then Some(data[CHECKSUM_SIZE..]) else None
    case AEAD => k.suite.open(k.bodyKey, CountedNonce(k.bodyNonce, at.bodyCount), [], data)
  }

  // Data are taken only behind their own checksum, or if they open.
  lemma OthersAreNotUnpacked(k: Keys, l: Layout, at: Place, data: bytes)
    requires |k.bodyNonce| >= LENGTH_SIZE
    ensures l.body.Checksum? ==>
              (Unpack(k, l, at, data).Some? <==> |data| >= 4 && data[..4] == k.checksum(data[4..]))
    ensures l.body.AEAD? ==>
              Unpack(k, l, at, data) == k.suite.open(k.bodyKey, BE16(at.bodyCount) + k.bodyNonce[2..], [], data)
    ensures l.body.Bare? ==> Unpack(k, l, at, data) == Some(data)
  {
  }

  function BodyOverhead(l: Layout): nat {
    match l.body
    case Bare => 0
    case Checksum => CHECKSUM_SIZE
    case AEAD => TAG_LENGTH
  }

  lemma Unpacks(k: Keys, l: Layout, at: Place, p: bytes)
    requires Usable(k)
    ensures Unpack(k, l, at, Pack(k, l, at, p)) == Some(p) && |Pack(k, l, at, p)| == |p| + BodyOverhead(l)
  {
    if l.body.Checksum? {
      var data := k.checksum(p) + p;
      assert data[..CHECKSUM_SIZE] == k.checksum(p) && data[CHECKSUM_SIZE..] == p;
    }
  }

  function Chunk(k: Keys, l: Layout, at: Place, p: bytes, fill: bytes): bytes
    requires |k.lengthNonce| >= LENGTH_SIZE && |k.bodyNonce| >= LENGTH_SIZE
  {
    Frame(k, l, at, Pack(k, l, at, p), fill)
  }

  function AfterChunk(l: Layout, at: Place): Place {
    AfterFrame(l, at).(bodyCount := if l.body.AEAD? then Wrap16(at.bodyCount + 1) else at.bodyCount)
  }

  // One Read through the whole stack of readers.
  function ReadChunk(k: Keys, l: Layout, at: Place, stream: bytes, room: Room): (r: Got)
    requires |k.lengthNonce| >= LENGTH_SIZE && |k.bodyNonce| >= LENGTH_SIZE
    ensures r.Got? ==> |r.rest| < |stream|
  {
    var frame := ReadFrame(k, l, at, stream, room);
    if frame.Failed? then frame
    else
      match Unpack(k, l, at, frame.data)
      case None => Failed(if l.body.Checksum? then BadChecksum else BadTag)
      case Some(p) => Got(p, frame.rest)
  }

  // A chunk byte by byte: the length, sealed under its own counted nonce or, if
  // it is not masked, as it is; the data in the body's form; the padding. Each
  // counter moves by one, modulo 65536, if its layer seals.
  lemma ChunkOnTheWire(k: Keys, l: Layout, at: Place, p: bytes, fill: bytes)
    requires Usable(k) && |fill| == PaddingLength(k, l, at)
    ensures
      var data := match l.body
                  case Bare => p
                  case Checksum => k.checksum(p) + p
                  case AEAD => k.suite.seal(k.bodyKey, BE16(at.bodyCount) + k.bodyNonce[2..], [], p);
      && (l.lengths.Sealed? ==>
            Chunk(k, l, at, p, fill)
            == k.suite.seal(k.lengthKey, BE16(at.lengthCount) + k.lengthNonce[2..], [], BE16(|data| + |fill| - 16)) + (data + fill))
      && (l.lengths == Clear(false) ==> Chunk(k, l, at, p, fill) == BE16(|data| + |fill|) + (data + fill))
    ensures AfterChunk(l, at).lengthCount == if l.lengths.Sealed? then (at.lengthCount + 1) % 65536 else at.lengthCount
    ensures AfterChunk(l, at).bodyCount == if l.body.AEAD? then (at.bodyCount + 1) % 65536 else at.bodyCount
  {
    hide PaddingLength, Sound;
    var size := |Pack(k, l, at, p)| + |fill|;
    WordBytes(size);
    WordBytes(size - TAG_LENGTH);
    WrapOnce(size, -TAG_LENGTH);
  }

  lemma WordBytes(x: int)
    ensures BE16(Wrap16(x)) == BE16(x)
  {
    BE16RoundTrip(x);
    BE16RoundTrip(Wrap16(x));
    BE16Injective(BE16(Wrap16(x)), BE16(x));
  }

  lemma BE16Injective(a: bytes, b: bytes)
    requires |a| == |b| == 2 && FromBE16(a) == FromBE16(b)
    ensures a == b
  {
  }

  // What a layer recovers is shorter than what carried it by its overhead.
  lemma UnpackedLength(k: Keys, l: Layout, at: Place, data: bytes)
    requires Usable(k)
    ensures Unpack(k, l, at, data).Some? ==> |Unpack(k, l, at, data).value| + BodyOverhead(l) == |data|
  {
  }

  predicate ChunkCarried(l: Layout, p: bytes, fill: bytes, room: Room) {
    Carried(l, |p| + BodyOverhead(l), |fill|, room)
  }

  // One piece through both stacks: read back exactly when it is not empty on
  // the wire, fits the reader's buffer together with its overhead, and its
  // length does not wrap around; and then nothing else is taken.
  lemma ChunkIsReadBack(k: Keys, l: Layout, at: Place, p: bytes, fill: bytes, rest: bytes, room: Room)
    requires Usable(k) && |fill| == PaddingLength(k, l, at)
    ensures
      var r := ReadChunk(k, l, at, Chunk(k, l, at, p, fill) + rest, room);
      && (r.Got? && r.data == p <==> ChunkCarried(l, p, fill, room))
      && (r == Got(p, rest) <==> ChunkCarried(l, p, fill, room))
  {
    hide ReadFrame, Frame, Pack, Unpack, Sound, PaddingLength, BodyOverhead;
    Unpacks(k, l, at, p);
    var data := Pack(k, l, at, p);
    if ChunkCarried(l, p, fill, room) {
      FrameIsReadBack(k, l, at, data, fill, rest, room);
    } else {
      FrameFailsOtherwise(k, l, at, data, fill, rest, room);
      var frame := ReadFrame(k, l, at, Frame(k, l, at, data, fill) + rest, room);
      if frame.Got? {
        UnpackedLength(k, l, at, frame.data);
      }
    }
  }

  // Several pieces, one chunk each; fills is their padding.
  function Chunks(k: Keys, l: Layout, at: Place, ps: seq<bytes>, fills: seq<bytes>): bytes
    requires |k.lengthNonce| >= LENGTH_SIZE && |k.bodyNonce| >= LENGTH_SIZE && |fills| == |ps|
    decreases |ps|
  {
    if ps == [] then [] else Chunk(k, l, at, ps[0], fills[0]) + Chunks(k, l, AfterChunk(l, at), ps[1..], fills[1..])
  }

  lemma NoChunks(k: Keys, l: Layout, at: Place)
    requires |k.lengthNonce| >= LENGTH_SIZE && |k.bodyNonce| >= LENGTH_SIZE
    ensures Chunks(k, l, at, [], []) == [] && AfterChunks(l, at, 0) == at && Filled(k, l, at, [])
  {
  }

  function AfterChunks(l: Layout, at: Place, n: nat): Place
    decreases n
  {
    if n == 0 then at else AfterChunks(l, AfterChunk(l, at), n - 1)
  }

  predicate Filled(k: Keys, l: Layout, at: Place, fills: seq<bytes>)
    decreases |fills|
  {
    fills == [] || (|fills[0]| == PaddingLength(k, l, at) && Filled(k, l, AfterChunk(l, at), fills[1..]))
  }

  // Reading chunk after chunk yields ps in order and leaves rest.
  predicate ReadsBack(k: Keys, l: Layout, at: Place, stream: bytes, room: Room, ps: seq<bytes>, rest: bytes)
    requires |k.lengthNonce| >= LENGTH_SIZE && |k.bodyNonce| >= LENGTH_SIZE
    decreases |ps|
  {
    if ps == [] then stream == rest
    else
      var r := ReadChunk(k, l, at, stream, room);
      r.Got? && r.data == ps[0] && ReadsBack(k, l, AfterChunk(l, at), r.rest, room, ps[1..], rest)
  }

  predicate AllCarried(l: Layout, ps: seq<bytes>, fills: seq<bytes>, room: Room)
    requires |fills| == |ps|
  {
    forall i :: 0 <= i < |ps| ==> ChunkCarried(l, ps[i], fills[i], room)
  }

  // The whole stack in lockstep over any number of chunks, exactly as long as
  // each of them is carried.
  lemma {:induction false} ChunksAreReadBack(k: Keys, l: Layout, at: Place, ps: seq<bytes>, fills: seq<bytes>, rest: bytes, room: Room)
    requires Usable(k) && |fills| == |ps| && Filled(k, l, at, fills)
    ensures ReadsBack(k, l, at, Chunks(k, l, at, ps, fills) + rest, room, ps, rest) <==> AllCarried(l, ps, fills, room)
    decreases |ps|
  {
    hide Chunk, ReadChunk, AfterChunk, PaddingLength, ChunkCarried, Sound;
    if ps == [] {
      assert Chunks(k, l, at, ps, fills) + rest == rest;
    } else {
      var first, others := Chunk(k, l, at, ps[0], fills[0]), Chunks(k, l, AfterChunk(l, at), ps[1..], fills[1..]);
      ChunkIsReadBack(k, l, at, ps[0], fills[0], others + rest, room);
      ChunksAreReadBack(k, l, AfterChunk(l, at), ps[1..], fills[1..], rest, room);
      Assoc(first, others, rest);
      AllCarriedSplits(l, ps, fills, room);
    }
  }

  lemma AllCarriedSplits(l: Layout, ps: seq<bytes>, fills: seq<bytes>, room: Room)
    requires |fills| == |ps| && ps != []
    ensures AllCarried(l, ps, fills, room)
            <==> ChunkCarried(l, ps[0], fills[0], room) && AllCarried(l, ps[1..], fills[1..], room)
  {
    hide ChunkCarried;
    if ChunkCarried(l, ps[0], fills[0], room) && AllCarried(l, ps[1..], fills[1..], room) {
      forall i | 0 <= i < |ps| ensures ChunkCarried(l, ps[i], fills[i], room) {
        if i > 0 {
          assert ps[i] == ps[1..][i - 1] && fills[i] == fills[1..][i - 1];
        }
      }
    } else if AllCarried(l, ps, fills, room) {
      forall i | 0 <= i < |ps[1..]| ensures ChunkCarried(l, ps[1..][i], fills[1..][i], room) {
        assert ps[1..][i] == ps[i + 1] && fills[1..][i] == fills[i + 1];
      }
    }
  }

  lemma {:induction false} ChunksAppend(k: Keys, l: Layout, at: Place, ps: seq<bytes>, fills: seq<bytes>, p: bytes, fill: bytes)
    requires |k.lengthNonce| >= LENGTH_SIZE && |k.bodyNonce| >= LENGTH_SIZE && |fills| == |ps|
    ensures Chunks(k, l, at, ps + [p], fills + [fill])
            == Chunks(k, l, at, ps, fills) + Chunk(k, l, AfterChunks(l, at, |ps|), p, fill)
    ensures AfterChunks(l, at, |ps| + 1) == AfterChunk(l, AfterChunks(l, at, |ps|))
    ensures Filled(k, l, at, fills) && |fill| == PaddingLength(k, l, AfterChunks(l, at, |ps|))
            ==> Filled(k, l, at, fills + [fill])
    decreases |ps|
  {
    hide Chunk, AfterChunk, PaddingLength;
    if ps == [] {
      assert ps + [p] == [p] && fills + [fill] == [fill];
      assert AfterChunks(l, at, 1) == AfterChunks(l, AfterChunk(l, at), 0);
      assert Chunks(k, l, at, [p], [fill]) == Chunk(k, l, at, p, fill) + Chunks(k, l, AfterChunk(l, at), [], []);
    } else {
      ChunksAppend(k, l, AfterChunk(l, at), ps[1..], fills[1..], p, fill);
      assert (ps + [p])[1..] == ps[1..] + [p] && (fills + [fill])[1..] == fills[1..] + [fill];
    }
  }

  // Chunks of one call followed by those of the next.
  lemma {:induction false} ChunksConcatenate(k: Keys, l: Layout, at: Place, ps: seq<bytes>, fills: seq<bytes>,
                                             qs: seq<bytes>, more: seq<bytes>)
    requires |k.lengthNonce| >= LENGTH_SIZE && |k.bodyNonce| >= LENGTH_SIZE && |fills| == |ps| && |more| == |qs|
    ensures Chunks(k, l, at, ps + qs, fills + more)
            == Chunks(k, l, at, ps, fills) + Chunks(k, l, AfterChunks(l, at, |ps|), qs, more)
    decreases |ps|
  {
    hide Chunk, AfterChunk;
    if ps == [] {
      assert ps + qs == qs && fills + more == more;
    } else {
      ChunksConcatenate(k, l, AfterChunk(l, at), ps[1..], fills[1..], qs, more);
      assert (ps + qs)[1..] == ps[1..] + qs && (fills + more)[1..] == fills[1..] + more;
    }
  }

  // bufio.ChunkWriter: pieces of at most size bytes.
  function Split(p: bytes, size: nat): (r: seq<bytes>)
    requires size > 0
    ensures Flatten(r) == p
    ensures forall i :: 0 <= i < |r| ==> 0 < |r[i]| <= size
    decreases |p|
  {
    if p == [] then []
    else
      var n := Min(|p|, size);
      var r := [p[..n]] + Split(p[n..], size);
      assert r[1..] == Split(p[n..], size) && p[..n] + p[n..] == p;
      r
  }
}
