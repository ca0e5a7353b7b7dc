// vless/encryption/xor.go: a connection that XORs only the record headers.
module XorConn {
  import opened Bytes
  import opened Header
  import opened Net

  // The position of one direction: body bytes still to skip, the part of a
  // header already seen (in plaintext), and the keystream offset.
  datatype Half = Half(skip: nat, header: bytes, pos: nat) {
    predicate Valid() {
      |header| < HEADER_LENGTH
    }
  }

  function Advance(h: Half, plain: byte): (r: Half)
    requires h.Valid()
    ensures r.Valid()
  {
    if h.skip > 0 then h.(skip := h.skip - 1)
    else
      var header := h.header + [plain];
      if |header| < HEADER_LENGTH then Half(0, header, h.pos + 1)
      else Half(LengthOf(header), [], h.pos + 1)
  }

  function Mask(ks: Keystream, h: Half, b: byte): byte {
    if h.skip > 0 then b else Xor(b, ks(h.pos))
  }

  // Byte-at-a-time reference for Write.
  function Encode(ks: Keystream, h: Half, x: bytes): (r: bytes)
    requires h.Valid()
    ensures |r| == |x|
    decreases |x|
  {
    if x == [] then []
    else [Mask(ks, h, x[0])] + Encode(ks, Advance(h, x[0]), x[1..])
  }

  function AfterEncode(h: Half, x: bytes): (r: Half)
    requires h.Valid()
    ensures r.Valid()
    decreases |x|
  {
    if x == [] then h else AfterEncode(Advance(h, x[0]), x[1..])
  }

  // Byte-at-a-time reference for Read.
  function Decode(ks: Keystream, h: Half, y: bytes): (r: bytes)
    requires h.Valid()
    ensures |r| == |y|
    decreases |y|
  {
    if y == [] then []
    else
      var p := Mask(ks, h, y[0]);
      [p] + Decode(ks, Advance(h, p), y[1..])
  }

  lemma {:induction false} EncodeAppend(ks: Keystream, h: Half, x: bytes, y: bytes)
    requires h.Valid()
    ensures Encode(ks, h, x + y) == Encode(ks, h, x) + Encode(ks, AfterEncode(h, x), y)
    ensures AfterEncode(h, x + y) == AfterEncode(AfterEncode(h, x), y)
    decreases |x|
  {
    if x == [] {
      assert x + y == y;
    } else {
      assert (x + y)[1..] == x[1..] + y;
      EncodeAppend(ks, Advance(h, x[0]), x[1..], y);
    }
  }

  // A reader in the writer's position recovers what was written, and ends in
  // the writer's position; no header needs to be acceptable to decodeHeader.
  lemma {:induction false} RoundTrip(ks: Keystream, h: Half, x: bytes)
    requires h.Valid()
    ensures Decode(ks, h, Encode(ks, h, x)) == x
    decreases |x|
  {
    if x != [] {
      var y := Encode(ks, h, x);
      if h.skip == 0 {
        XorInvolution(x[0], ks(h.pos));
      }
      assert Mask(ks, h, y[0]) == x[0];
      assert y[1..] == Encode(ks, Advance(h, x[0]), x[1..]);
      RoundTrip(ks, Advance(h, x[0]), x[1..]);
    }
  }

  lemma {:induction false} DecodeInverse(ks: Keystream, h: Half, y: bytes)
    requires h.Valid()
    ensures Encode(ks, h, Decode(ks, h, y)) == y
    decreases |y|
  {
    if y != [] {
      var p := Mask(ks, h, y[0]);
      if h.skip == 0 {
        XorInvolution(y[0], ks(h.pos));
      }
      var x := Decode(ks, h, y);
      assert x[1..] == Decode(ks, Advance(h, p), y[1..]);
      DecodeInverse(ks, Advance(h, p), y[1..]);
    }
  }

  lemma DecodeAppend(ks: Keystream, h: Half, x: bytes, y: bytes)
    requires h.Valid()
    ensures var p := Decode(ks, h, x);
            Decode(ks, h, x + y) == p + Decode(ks, AfterEncode(h, p), y)
  {
    var p := Decode(ks, h, x);
    var q := Decode(ks, AfterEncode(h, p), y);
    EncodeAppend(ks, h, p, q);
    DecodeInverse(ks, h, x);
    DecodeInverse(ks, AfterEncode(h, p), y);
    RoundTrip(ks, h, p + q);
  }

  // Bytes inside the skip pass unchanged, whichever side counts them.
  lemma {:induction false} SkipPasses(ks: Keystream, h: Half, x: bytes)
    requires h.Valid() && |x| <= h.skip
    ensures Encode(ks, h, x) == x && Decode(ks, h, x) == x
    ensures AfterEncode(h, x) == h.(skip := h.skip - |x|)
    decreases |x|
  {
    if x != [] {
      SkipPasses(ks, Advance(h, x[0]), x[1..]);
    }
  }

  // A stretch of header bytes is XORed as one block.
  lemma {:induction false} HeaderBlock(ks: Keystream, h: Half, x: bytes)
    requires h.Valid() && h.skip == 0
    requires |h.header| + |x| <= HEADER_LENGTH
    ensures Encode(ks, h, x) == XorStream(ks, h.pos, x)
    decreases |x|
  {
    if x != [] {
      var h1, t := Advance(h, x[0]), x[1..];
      assert x == [x[0]] + t;
      XorStreamSplit(ks, h.pos, [x[0]], t);
      assert XorStream(ks, h.pos, [x[0]]) == [Mask(ks, h, x[0])];
      if t != [] {
        HeaderBlock(ks, h1, t);
      }
    }
  }

  lemma {:induction false} HeaderAdvance(h: Half, x: bytes)
    requires h.Valid() && h.skip == 0
    requires |h.header| + |x| <= HEADER_LENGTH
    ensures AfterEncode(h, x) == AfterHeader(h, x)
    decreases |x|
  {
    if x == [] {
      assert h.header + x == h.header;
    } else {
      var h1, t := Advance(h, x[0]), x[1..];
      assert h.header + x == (h.header + [x[0]]) + t;
      if t == [] {
        assert h.header + x == h.header + [x[0]];
        assert AfterEncode(h, x) == h1;
      } else {
        assert h1 == Half(0, h.header + [x[0]], h.pos + 1);
        HeaderAdvance(h1, t);
      }
    }
  }

  // The position after k header bytes x.
  function AfterHeader(h: Half, x: bytes): (r: Half)
    requires h.Valid() && |h.header| + |x| <= HEADER_LENGTH
    ensures r.Valid()
  {
    if |h.header| + |x| < HEADER_LENGTH then Half(0, h.header + x, h.pos + |x|)
    else Half(LengthOf(h.header + x), [], h.pos + |x|)
  }

  lemma EncodeNothing(ks: Keystream, h: Half)
    requires h.Valid()
    ensures Encode(ks, h, []) == [] && AfterEncode(h, []) == h
  {
  }

  // One full turn: the rest of the skipped body, then the header bytes head.
  lemma EncodeTurn(ks: Keystream, h: Half, body: bytes, head: bytes, rest: bytes)
    requires h.Valid() && h.skip == |body| && |h.header| + |head| <= HEADER_LENGTH
    ensures Encode(ks, h, body + (head + rest))
         == body + XorStream(ks, h.pos, head) + Encode(ks, AfterHeader(h.(skip := 0), head), rest)
    ensures AfterEncode(h, body + (head + rest)) == AfterEncode(AfterHeader(h.(skip := 0), head), rest)
  {
    hide Encode, AfterEncode, AfterHeader;
    var h1 := h.(skip := 0);
    SkipPasses(ks, h, body);
    HeaderBlock(ks, h1, head);
    HeaderAdvance(h1, head);
    EncodeAppend(ks, h, body, head + rest);
    EncodeAppend(ks, h1, head, rest);
  }

  lemma DecodeTurn(ks: Keystream, h: Half, body: bytes, head: bytes, rest: bytes)
    requires h.Valid() && h.skip == |body| && |h.header| + |head| <= HEADER_LENGTH
    ensures Decode(ks, h, body + (head + rest))
         == body + XorStream(ks, h.pos, head)
            + Decode(ks, AfterHeader(h.(skip := 0), XorStream(ks, h.pos, head)), rest)
    ensures AfterEncode(h, body + XorStream(ks, h.pos, head)) == AfterHeader(h.(skip := 0), XorStream(ks, h.pos, head))
  {
    hide Encode, Decode, AfterEncode, AfterHeader;
    var h1, p := h.(skip := 0), XorStream(ks, h.pos, head);
    SkipPasses(ks, h, body);
    HeaderDecode(ks, h1, head);
    HeaderAdvance(h1, p);
    DecodeAppend(ks, h, body, head + rest);
    DecodeAppend(ks, h1, head, rest);
    EncodeAppend(ks, h, body, p);
  }

  lemma HeaderDecode(ks: Keystream, h: Half, y: bytes)
    requires h.Valid() && h.skip == 0
    requires |h.header| + |y| <= HEADER_LENGTH
    ensures Decode(ks, h, y) == XorStream(ks, h.pos, y)
  {
    var x := XorStream(ks, h.pos, y);
    XorStreamInvolution(ks, h.pos, y);
    HeaderBlock(ks, h, x);
    RoundTrip(ks, h, x);
  }

  // A record between records: its five header bytes are masked with the next
  // five of the keystream, its body goes as it is, and the next record finds
  // the keystream five bytes on.
  lemma RecordIsMasked(ks: Keystream, pos: nat, body: bytes)
    requires |body| < 0x10000
    ensures
      var header := [23, 3, 3, |body| / 256, |body| % 256];
      var sent := Encode(ks, Half(0, [], pos), header + body);
      && (forall i :: 0 <= i < 5 ==> sent[i] == Xor(header[i], ks(pos + i)))
      && sent[5..] == body
      && AfterEncode(Half(0, [], pos), header + body) == Half(0, [], pos + 5)
  {
    hide Encode, AfterEncode, Xor, AfterHeader, LengthOf;
    assert |body| / 256 < 256;
    var header: bytes := [23, 3, 3, |body| / 256, |body| % 256];
    var h := Half(0, [], pos);
    HeaderBlock(ks, h, header);
    HeaderAdvance(h, header);
    WholeHeader(pos, header, |body|);
    EncodeAppend(ks, h, header, body);
    SkipPasses(ks, Half(|body|, [], pos + 5), body);
  }

  lemma WholeHeader(pos: nat, header: bytes, length: nat)
    requires |header| == 5 && header[3] == length / 256 && header[4] == length % 256
    ensures AfterHeader(Half(0, [], pos), header) == Half(length, [], pos + 5)
  {
    assert [] + header == header;
  }

  // The wire after one Write per element of xs.
  function EncodeAll(ks: Keystream, h: Half, xs: seq<bytes>): bytes
    requires h.Valid()
    decreases |xs|
  {
    if xs == [] then [] else Encode(ks, h, xs[0]) + EncodeAll(ks, AfterEncode(h, xs[0]), xs[1..])
  }

  // What one Read per element of ys hands over.
  function DecodeAll(ks: Keystream, h: Half, ys: seq<bytes>): bytes
    requires h.Valid()
    decreases |ys|
  {
    if ys == [] then []
    else
      var p := Decode(ks, h, ys[0]);
      p + DecodeAll(ks, AfterEncode(h, p), ys[1..])
  }

  lemma {:induction false} WritesConcatenate(ks: Keystream, h: Half, xs: seq<bytes>)
    requires h.Valid()
    ensures EncodeAll(ks, h, xs) == Encode(ks, h, Flatten(xs))
    decreases |xs|
  {
    if xs != [] {
      EncodeAppend(ks, h, xs[0], Flatten(xs[1..]));
      WritesConcatenate(ks, AfterEncode(h, xs[0]), xs[1..]);
    }
  }

  lemma {:induction false} ReadsConcatenate(ks: Keystream, h: Half, ys: seq<bytes>)
    requires h.Valid()
    ensures DecodeAll(ks, h, ys) == Decode(ks, h, Flatten(ys))
    decreases |ys|
  {
    if ys != [] {
      DecodeAppend(ks, h, ys[0], Flatten(ys[1..]));
      ReadsConcatenate(ks, AfterEncode(h, Decode(ks, h, ys[0])), ys[1..]);
    }
  }

  // However the writer and the network cut the stream, the reader gets the
  // bytes written. A prefix sent in clear (the writer's initial skip) is read
  // before the reader's automaton is created, which therefore starts at zero.
  lemma FragmentedRoundTrip(ks: Keystream, clear: bytes, pos: nat, xs: seq<bytes>, ys: seq<bytes>)
    requires EncodeAll(ks, Half(|clear|, [], pos), [clear] + xs) == clear + Flatten(ys)
    ensures DecodeAll(ks, Half(0, [], pos), ys) == Flatten(xs)
  {
    hide Encode, Decode, AfterEncode;
    var h, h0 := Half(|clear|, [], pos), Half(0, [], pos);
    assert ([clear] + xs)[1..] == xs;
    SkipPasses(ks, h, clear);
    var wire := EncodeAll(ks, h0, xs);
    assert clear + wire == clear + Flatten(ys);
    assert (clear + wire)[|clear|..] == wire && (clear + Flatten(ys))[|clear|..] == Flatten(ys);
    WritesConcatenate(ks, h0, xs);
    ReadsConcatenate(ks, h0, ys);
    RoundTrip(ks, h0, Flatten(xs));
  }

  // One direction of a transport: the bare connection or an XorConn on it.
  datatype Link = Bare | Masked(ks: Keystream, half: Half) {
    ghost predicate Valid() {
      Masked? ==> half.Valid()
    }
  }

  // What crosses the link when w is written.
  function Carry(l: Link, w: bytes): bytes
    requires l.Valid()
  {
    if l.Bare? then w else Encode(l.ks, l.half, w)
  }

  function AfterCarry(l: Link, w: bytes): (r: Link)
    requires l.Valid()
    ensures r.Valid()
  {
    if l.Bare? then l else l.(half := AfterEncode(l.half, w))
  }

  lemma CarryAppend(l: Link, v: bytes, w: bytes)
    requires l.Valid()
    ensures Carry(l, v + w) == Carry(l, v) + Carry(AfterCarry(l, v), w)
    ensures AfterCarry(l, v + w) == AfterCarry(AfterCarry(l, v), w)
    ensures Carry(l, []) == [] && AfterCarry(l, []) == l
  {
    if l.Masked? {
      EncodeAppend(l.ks, l.half, v, w);
    }
  }

  // What is read when y arrives over the link.
  function Recover(l: Link, y: bytes): (r: bytes)
    requires l.Valid()
    ensures |r| == |y|
  {
    if l.Bare? then y else Decode(l.ks, l.half, y)
  }

  lemma CarryRecover(l: Link, w: bytes)
    requires l.Valid()
    ensures Recover(l, Carry(l, w)) == w
  {
    if l.Masked? {
      RoundTrip(l.ks, l.half, w);
    }
  }

  // cipher.Stream in counter mode.
  class CTR {
    const stream: Keystream
    var pos: nat

    constructor (stream: Keystream)
      ensures this.stream == stream && pos == 0
    {
      this.stream := stream;
      pos := 0;
    }

    // XORKeyStream(a[lo:hi], a[lo:hi])
    method XORKeyStream(a: array<byte>, lo: nat, hi: nat)
      requires lo <= hi <= a.Length
      modifies `pos, a
      ensures a[lo..hi] == XorStream(stream, old(pos), old(a[lo..hi]))
      ensures forall k :: 0 <= k < lo || hi <= k < a.Length ==> a[k] == old(a[k])
      ensures pos == old(pos) + (hi - lo)
    {
      var i := lo;
      while i < hi
        invariant lo <= i <= hi
        invariant pos == old(pos) + (i - lo)
        invariant forall k :: lo <= k < i ==> a[k] == Xor(old(a[k]), stream(old(pos) + (k - lo)))
        invariant forall k :: 0 <= k < lo || i <= k < a.Length ==> a[k] == old(a[k])
      {
        a[i] := Xor(a[i], stream(pos));
        pos := pos + 1;
        i := i + 1;
      }
    }
  }

  class XorConn {
    const conn: Conn
    const ctr: CTR
    var peerCTR: CTR?
    var outSkip: nat
    var outHeader: bytes
    var inSkip: nat
    var inHeader: bytes

    ghost predicate Valid()
      reads this
    {
      |outHeader| < HEADER_LENGTH && |inHeader| < HEADER_LENGTH && ctr != peerCTR
    }

    ghost function Outbound(): (h: Half)
      reads this, ctr
    {
      Half(outSkip, outHeader, ctr.pos)
    }

    ghost function Inbound(): (h: Half)
      reads this, peerCTR
    {
      Half(inSkip, inHeader, if peerCTR == null then 0 else peerCTR.pos)
    }

    constructor (conn: Conn, ctr: CTR, peerCTR: CTR?, outSkip: nat, inSkip: nat)
      requires ctr != peerCTR
      ensures Valid()
      ensures this.conn == conn && this.ctr == ctr && this.peerCTR == peerCTR
      ensures this.outSkip == outSkip && this.inSkip == inSkip && outHeader == [] && inHeader == []
    {
      this.conn, this.ctr, this.peerCTR := conn, ctr, peerCTR;
      this.outSkip, this.outHeader := outSkip, [];
      this.inSkip, this.inHeader := inSkip, [];
    }

    // Notes the next header bytes b[q..r] of the plaintext and masks them.
    method EncryptHeader(b: array<byte>, q: nat, r: nat)
      requires Valid() && q <= r <= b.Length
      requires outSkip == 0 && |outHeader| + (r - q) <= HEADER_LENGTH
      modifies `outSkip, `outHeader, ctr`pos, b
      ensures Valid() && Outbound() == AfterHeader(old(Outbound()), old(b[q..r]))
      ensures b[q..r] == XorStream(ctr.stream, old(ctr.pos), old(b[q..r]))
      ensures forall k :: 0 <= k < q || r <= k < b.Length ==> b[k] == old(b[k])
    {
      var header := outHeader + b[q..r];
      if |header| < HEADER_LENGTH {
        outHeader := header;
      } else {
        outSkip := LengthOf(header);
        outHeader := [];
      }
      ctr.XORKeyStream(b, q, r);
    }

    // One turn of Write's loop over b[p..end] that gets past the skipped body.
    method EncryptTurn(b: array<byte>, p: nat, end: nat) returns (r: nat)
      requires Valid() && p <= end <= b.Length && outSkip < end - p
      modifies `outSkip, `outHeader, ctr`pos, b
      ensures Valid() && p < r <= end
      ensures forall k :: 0 <= k < p || r <= k < b.Length ==> b[k] == old(b[k])
      ensures Encode(ctr.stream, old(Outbound()), old(b[p..end])) == b[p..r] + Encode(ctr.stream, Outbound(), b[r..end])
      ensures AfterEncode(old(Outbound()), old(b[p..end])) == AfterEncode(Outbound(), b[r..end])
    {
      hide Encode, AfterEncode, XorStream, AfterHeader;
      ghost var h := Outbound();
      var q := p + outSkip;
      outSkip := 0;
      var need := HEADER_LENGTH - |outHeader|;
      r := if end - q < need then end else q + need;
      ghost var before := b[..];
      Cut(before, q, r, end);
      Cut(before, p, q, end);
      EncodeTurn(ctr.stream, h, before[p..q], before[q..r], before[r..end]);
      EncryptHeader(b, q, r);
      SameSlice(before, b[..], p, q);
      SameSlice(before, b[..], r, end);
      Cut(b[..], p, q, r);
    }

    // Masks b[lo..end] in place. After an incomplete header nothing is left, so
    // the next test of the skip ends the loop.
    method EncryptInPlace(b: array<byte>, lo: nat, end: nat)
      requires Valid() && lo <= end <= b.Length
      modifies `outSkip, `outHeader, ctr`pos, b
      ensures Valid()
      ensures b[lo..end] == Encode(ctr.stream, old(Outbound()), old(b[lo..end]))
      ensures forall k :: 0 <= k < lo || end <= k < b.Length ==> b[k] == old(b[k])
      ensures Outbound() == AfterEncode(old(Outbound()), old(b[lo..end]))
    {
      hide Encode, AfterEncode, XorStream, AfterHeader, Advance, Mask;
      ghost var ks := ctr.stream;
      ghost var all, last := Encode(ks, Outbound(), b[lo..end]), AfterEncode(Outbound(), b[lo..end]);
      var p := lo;
      while outSkip < end - p
        invariant Valid() && lo <= p <= end
        invariant forall k :: 0 <= k < lo || p <= k < b.Length ==> b[k] == old(b[k])
        invariant all == b[lo..p] + Encode(ks, Outbound(), b[p..end])
        invariant last == AfterEncode(Outbound(), b[p..end])
        decreases end - p
      {
        p := EncryptStep(b, lo, p, end);
      }
      SkipPasses(ks, Outbound(), b[p..end]);
      outSkip := outSkip - (end - p);
      Cut(b[..], lo, p, end);
    }

    // A turn of the loop, seen from where it began.
    method EncryptStep(b: array<byte>, lo: nat, p: nat, end: nat) returns (r: nat)
      requires Valid() && lo <= p <= end <= b.Length && outSkip < end - p
      modifies `outSkip, `outHeader, ctr`pos, b
      ensures Valid() && p < r <= end
      ensures forall k :: 0 <= k < p || r <= k < b.Length ==> b[k] == old(b[k])
      ensures b[lo..r] + Encode(ctr.stream, Outbound(), b[r..end])
              == old(b[lo..p]) + Encode(ctr.stream, old(Outbound()), old(b[p..end]))
      ensures AfterEncode(Outbound(), b[r..end]) == AfterEncode(old(Outbound()), old(b[p..end]))
    {
      hide Encode, AfterEncode;
      ghost var before := b[..];
      r := EncryptTurn(b, p, end);
      SameSlice(before, b[..], lo, p);
      Cut(b[..], lo, p, r);
      Assoc(b[lo..p], b[p..r], Encode(ctr.stream, Outbound(), b[r..end]));
    }

    // XORs the caller's bytes b[lo..hi] in place, then sends them.
    method Write(b: array<byte>, lo: nat, hi: nat)
      requires Valid() && lo <= hi <= b.Length
      modifies `outSkip, `outHeader, ctr`pos, conn`sent, b
      ensures Valid()
      ensures b[lo..hi] == Encode(ctr.stream, old(Outbound()), old(b[lo..hi]))
      ensures forall k :: 0 <= k < lo || hi <= k < b.Length ==> b[k] == old(b[k])
      ensures conn.sent == old(conn.sent) + b[lo..hi]
      ensures Outbound() == AfterEncode(old(Outbound()), old(b[lo..hi]))
    {
      if lo == hi {
        assert b[lo..hi] == [];
        return;
      }
      EncryptInPlace(b, lo, hi);
      conn.Write(b[lo..hi]);
    }

    // Unmasks the next header bytes b[q..r] and notes them.
    method DecryptHeader(b: array<byte>, q: nat, r: nat)
      requires Valid() && peerCTR != null && q <= r <= b.Length
      requires inSkip == 0 && |inHeader| + (r - q) <= HEADER_LENGTH
      modifies `inSkip, `inHeader, peerCTR, b
      ensures Valid() && Inbound() == AfterHeader(old(Inbound()), b[q..r])
      ensures b[q..r] == XorStream(peerCTR.stream, old(peerCTR.pos), old(b[q..r]))
      ensures forall k :: 0 <= k < q || r <= k < b.Length ==> b[k] == old(b[k])
    {
      peerCTR.XORKeyStream(b, q, r);
      var header := inHeader + b[q..r];
      if |header| < HEADER_LENGTH {
        inHeader := header;
      } else {
        inSkip := LengthOf(header);
        inHeader := [];
      }
    }

    // One turn of Read's loop over b[p..end] that gets past the skipped body.
    method DecryptTurn(b: array<byte>, p: nat, end: nat) returns (r: nat)
      requires Valid() && p <= end <= b.Length
      requires peerCTR != null && inSkip < end - p
      modifies `inSkip, `inHeader, peerCTR, b
      ensures Valid() && p < r <= end
      ensures forall k :: 0 <= k < p || r <= k < b.Length ==> b[k] == old(b[k])
      ensures Decode(peerCTR.stream, old(Inbound()), old(b[p..end])) == b[p..r] + Decode(peerCTR.stream, Inbound(), b[r..end])
      ensures Inbound() == AfterEncode(old(Inbound()), b[p..r])
    {
      hide Encode, Decode, AfterEncode, XorStream, AfterHeader;
      ghost var ks, h := peerCTR.stream, Inbound();
      var q := p + inSkip;
      inSkip := 0;
      var need := HEADER_LENGTH - |inHeader|;
      r := if end - q < need then end else q + need;
      ghost var before := b[..];
      Cut(before, q, r, end);
      Cut(before, p, q, end);
      DecodeTurn(ks, h, before[p..q], before[q..r], before[r..end]);
      DecryptHeader(b, q, r);
      SameSlice(before, b[..], p, q);
      SameSlice(before, b[..], r, end);
      Cut(b[..], p, q, r);
    }

    // Recovers b[lo..end] in place. While the peer's keystream is not known,
    // only skipped bytes may be among them, and ks does not matter.
    method DecryptInPlace(b: array<byte>, lo: nat, end: nat, ghost ks: Keystream)
      requires Valid() && lo <= end <= b.Length
      requires if peerCTR == null then end - lo <= inSkip else ks == peerCTR.stream
      modifies `inSkip, `inHeader, peerCTR, b
      ensures Valid()
      ensures b[lo..end] == Decode(ks, old(Inbound()), old(b[lo..end]))
      ensures forall k :: 0 <= k < lo || end <= k < b.Length ==> b[k] == old(b[k])
      ensures Inbound() == AfterEncode(old(Inbound()), b[lo..end])
    {
      hide Encode, Decode, AfterEncode;
      ghost var all := Decode(ks, Inbound(), b[lo..end]);
      EncodeNothing(ks, Inbound());
      var p := lo;
      while inSkip < end - p
        invariant Valid() && lo <= p <= end
        invariant peerCTR == null ==> end - p <= inSkip
        invariant forall k :: 0 <= k < lo || p <= k < b.Length ==> b[k] == old(b[k])
        invariant all == b[lo..p] + Decode(ks, Inbound(), b[p..end])
        invariant Inbound() == AfterEncode(old(Inbound()), b[lo..p])
        decreases end - p
      {
        ghost var before, from := b[..], p;
        p := DecryptTurn(b, p, end);
        SameSlice(before, b[..], lo, from);
        Cut(b[..], lo, from, p);
        EncodeAppend(ks, old(Inbound()), b[lo..from], b[from..p]);
      }
      SkipPasses(ks, Inbound(), b[p..end]);
      EncodeAppend(ks, old(Inbound()), b[lo..p], b[p..end]);
      Cut(b[..], lo, p, end);
      inSkip := inSkip - (end - p);
    }

    // Reads into b[lo..hi] any non-empty prefix of the peer's plaintext.
    method Read(b: array<byte>, lo: nat, hi: nat, ghost ks: Keystream) returns (n: nat)
      requires Valid()
      requires lo <= hi <= b.Length
      requires if peerCTR == null then hi - lo <= inSkip else ks == peerCTR.stream
      modifies `inSkip, `inHeader, peerCTR, conn`incoming, b
      ensures Valid()
      ensures n <= hi - lo && n <= |old(conn.incoming)|
      ensures n == 0 ==> lo == hi || old(conn.incoming) == []
      ensures b[lo..lo + n] == Decode(ks, old(Inbound()), old(conn.incoming)[..n])
      ensures forall k :: 0 <= k < lo || lo + n <= k < b.Length ==> b[k] == old(b[k])
      ensures Decode(ks, old(Inbound()), old(conn.incoming)) == b[lo..lo + n] + Decode(ks, Inbound(), conn.incoming)
      ensures Inbound() == AfterEncode(old(Inbound()), b[lo..lo + n])
      ensures conn.incoming == old(conn.incoming)[n..]
    {
      if lo == hi {
        return 0;
      }
      n := conn.Read(b, lo, hi);
      DecryptInPlace(b, lo, lo + n, ks);
      DecodeAppend(ks, old(Inbound()), old(conn.incoming)[..n], old(conn.incoming)[n..]);
      assert old(conn.incoming) == old(conn.incoming)[..n] + old(conn.incoming)[n..];
    }
  }
}
