// The way back in mux.go: the frame writers of the server, and the client
// readers of xudp.go and mux_wrapper.go.
module MuxReplies {
  import opened Bytes
  import opened ByteStream
  import opened MuxFormat
  import opened MuxServer
  import Net

  // What writePacketFrame writes: without a valid destination the header's
  // length still counts one.
  function PacketFrameBytes(c: Codec, session: word, data: bytes, destination: Addr): bytes {
    Header(5 + c.length(destination), session, STATUS_KEEP, OPTION_DATA)
    + ((if destination.Address? then [NETWORK_UDP] + c.encode(destination) else []) + DataBytes(Some(data)))
  }

  function ReplyFrame(session: word, data: bytes, destination: Option<Addr>): Frame {
    Frame(session, STATUS_KEEP, OPTION_DATA,
          if destination.Some? then Some(Target(NETWORK_UDP, destination.value, [])) else None, Some(data))
  }

  class SessionWriter {
    const writer: Sink
    const codec: Codec

    constructor (writer: Sink, codec: Codec)
      ensures this.writer == writer && this.codec == codec
    {
      this.writer, this.codec := writer, codec;
    }

    method WriteHeader(length: nat, session: word, status: byte, option: byte)
      requires writer.Valid()
      modifies writer
      ensures writer.Valid() && writer.given == old(writer.given) + Header(length, session, status, option)
    {
      ghost var before := writer.given;
      writer.Write(BE16(length));
      writer.Write(BE16(session));
      writer.Write([status]);
      writer.Write([option]);
      assert writer.given == before + (BE16(length) + (BE16(session) + [status, option]));
    }

    method WriteFrame(session: word, data: bytes)
      requires writer.Valid()
      modifies writer
      ensures writer.Valid() && writer.given == old(writer.given) + Encode(codec, ReplyFrame(session, data, None))
    {
      hide Header, BE16;
      ghost var before := writer.given;
      WriteHeader(SHORT_LENGTH, session, STATUS_KEEP, OPTION_DATA);
      writer.Write(BE16(|data|));
      writer.Write(data);
      var h := Header(SHORT_LENGTH, session, STATUS_KEEP, OPTION_DATA);
      Join(before, h, BE16(|data|), data);
      assert [] + (BE16(|data|) + data) == BE16(|data|) + data;
    }

    method WriteTarget(destination: Addr)
      requires writer.Valid()
      modifies writer
      ensures writer.Valid()
      ensures writer.given
              == old(writer.given) + (if destination.Address? then [NETWORK_UDP] + codec.encode(destination) else [])
    {
      ghost var before := writer.given;
      assert before + [] == before;
      if destination.Address? {
        writer.Write([NETWORK_UDP]);
        writer.Write(codec.encode(destination));
        Assoc(before, [NETWORK_UDP], codec.encode(destination));
      }
    }

    method WritePacketFrame(session: word, data: bytes, destination: Addr)
      requires writer.Valid()
      modifies writer
      ensures writer.Valid()
      ensures writer.given == old(writer.given) + PacketFrameBytes(codec, session, data, destination)
    {
      hide Header, BE16, Encrypt;
      ghost var before := writer.given;
      ghost var h := Header(5 + codec.length(destination), session, STATUS_KEEP, OPTION_DATA);
      ghost var t := if destination.Address? then [NETWORK_UDP] + codec.encode(destination) else [];
      WriteHeader(5 + codec.length(destination), session, STATUS_KEEP, OPTION_DATA);
      WriteTarget(destination);
      writer.Write(BE16(|data|));
      writer.Write(data);
      Join(before + h, t, BE16(|data|), data);
      Assoc(before, h, t + (BE16(|data|) + data));
    }

    method WriteCloseFrame(session: word, hasError: bool)
      requires writer.Valid()
      modifies writer
      ensures writer.Valid()
      ensures writer.given == old(writer.given)
              + Encode(codec, Frame(session, STATUS_END, if hasError then OPTION_ERROR else 0, None, None))
    {
      var option: byte := if hasError then OPTION_ERROR else 0;
      WriteHeader(SHORT_LENGTH, session, STATUS_END, option);
      var h := Header(SHORT_LENGTH, session, STATUS_END, option);
      assert h + ([] + []) == h;
    }
  }

  datatype ClientError = Closed | RemoteClosed | Unexpected | BadLength | TooSmall | Undecodable | StreamEnded

  datatype PacketGot = PacketGot(packet: Packet, rest: bytes) | Refused(error: ClientError)

  // The address of a reply and what the client has read beyond it.
  datatype ReplyHeader = ReplyHeader(address: Addr, extra: bytes, rest: bytes) | BadReply(error: ClientError)

  // A Keep frame after its first six bytes, in a buffer with room for cap
  // more: the two bytes after the header are taken with it.
  function ReadReplyHeader(c: Codec, own: Addr, length: word, s: bytes, cap: nat): (r: ReplyHeader)
    ensures r.ReplyHeader? ==> |r.rest| <= |s|
  {
    if length < SHORT_LENGTH then BadReply(BadLength)
    else
      var need := length - 2;
      if cap < need then BadReply(TooSmall)
      else if |s| < need then BadReply(StreamEnded)
      else if length == SHORT_LENGTH then ReplyHeader(own, s[..2], s[2..])
      else
        match c.decode(s[1..need])
        case None => BadReply(Undecodable)
        case Some(decoded) =>
          if decoded.1 > need - 1 then BadReply(Undecodable)
          else ReplyHeader(decoded.0, s[1..need][decoded.1..], s[need..])
  }

  // XUDPConn.ReadPacket with room for cap bytes.
  function XudpRead(c: Codec, own: Addr, s: bytes, cap: nat): (r: PacketGot)
    decreases |s|
  {
    if cap < HEADER_SIZE then Refused(TooSmall)
    else if |s| < HEADER_SIZE then Refused(StreamEnded)
    else if FromBE16(s[..2]) < SHORT_LENGTH then Refused(BadLength)
    else if s[4] == STATUS_END then Refused(Closed)
    else if s[4] != STATUS_KEEP && s[4] != STATUS_KEEP_ALIVE then Refused(Unexpected)
    else
      var body := s[HEADER_SIZE..];
      var h := if s[4] == STATUS_KEEP then ReadReplyHeader(c, own, FromBE16(s[..2]), body, cap - HEADER_SIZE)
               else ReplyHeader(NoAddress, [], body);
      if h.BadReply? then Refused(h.error)
      else if HasError(s[5]) then Refused(RemoteClosed)
      else if !HasData(s[5]) then XudpRead(c, own, h.rest, cap)
      else if |h.extra| < 2 then Refused(StreamEnded)
      else
        var size := FromBE16(h.extra[..2]);
        if cap < size then Refused(TooSmall)
        else if |h.rest| < size then Refused(StreamEnded)
        else PacketGot(Packet(h.rest[..size], h.address), h.rest[size..])
  }

  // Packets the server sends come back one by one, with the address it named
  // or the client's own, exactly when the length of the data is a 16-bit word
  // and the buffer has room for the data and, as it is shared, for the header.
  lemma ReplyReadsBack(c: Codec, own: Addr, session: word, data: bytes, destination: Option<Addr>, rest: bytes, cap: nat)
    requires Lawful(c) && (destination.Some? ==> Fits(destination.value))
    ensures XudpRead(c, own, Encode(c, ReplyFrame(session, data, destination)) + rest, cap)
            == PacketGot(Packet(data, if destination.Some? then destination.value else own), rest)
            <==> |data| < 0x10000 && |data| <= cap
                 && HEADER_SIZE + 2 + |TargetBytes(c, ReplyFrame(session, data, destination).target)| <= cap
  {
    hide Header, BE16, FromBE16, Lawful, Encode, TargetBytes, ReadReplyHeader;
    var t, size := TargetBytes(c, ReplyFrame(session, data, destination).target), BE16(|data|);
    TargetIsBounded(c, destination);
    ReplyBytes(c, session, data, destination, rest);
    HeaderFields(SHORT_LENGTH + |t|, session, STATUS_KEEP, OPTION_DATA, t + (size + (data + rest)));
    if cap < HEADER_SIZE + 2 + |t| {
      HeaderIsTooLong(c, own, SHORT_LENGTH + |t|, t + (size + (data + rest)), cap - HEADER_SIZE);
    } else {
      ReplyHeaderReadsBack(c, own, session, data, destination, size, data + rest, cap - HEADER_SIZE);
      BE16RoundTrip(|data|);
      assert size[..2] == size;
      if |data| < 0x10000 {
        assert (data + rest)[..|data|] == data && (data + rest)[|data|..] == rest;
      }
    }
  }

  lemma TargetIsBounded(c: Codec, destination: Option<Addr>)
    requires Lawful(c) && (destination.Some? ==> Fits(destination.value))
    ensures |TargetBytes(c, ReplyFrame(0, [], destination).target)| <= 1 + MAX_ADDRESS_SIZE
  {
  }

  lemma HeaderIsTooLong(c: Codec, own: Addr, length: word, s: bytes, cap: int)
    requires length >= SHORT_LENGTH
    ensures 0 <= cap < length - 2 ==> ReadReplyHeader(c, own, length, s, cap) == BadReply(TooSmall)
  {
  }

  lemma ReplyHeaderNeedsRoom(c: Codec, own: Addr, session: word, data: bytes, destination: Option<Addr>, rest: bytes, cap: nat)
    requires Lawful(c) && (destination.Some? ==> Fits(destination.value))
    requires cap < HEADER_SIZE + 2 + |TargetBytes(c, ReplyFrame(session, data, destination).target)|
    ensures XudpRead(c, own, Encode(c, ReplyFrame(session, data, destination)) + rest, cap).Refused?
  {
    hide Header, BE16, FromBE16, Lawful, Encode, TargetBytes, ReadReplyHeader;
    var t, size := TargetBytes(c, ReplyFrame(session, data, destination).target), BE16(|data|);
    TargetIsBounded(c, destination);
    ReplyBytes(c, session, data, destination, rest);
    HeaderFields(SHORT_LENGTH + |t|, session, STATUS_KEEP, OPTION_DATA, t + (size + (data + rest)));
    HeaderIsTooLong(c, own, SHORT_LENGTH + |t|, t + (size + (data + rest)), cap - HEADER_SIZE);
  }

  lemma ReplyBytes(c: Codec, session: word, data: bytes, destination: Option<Addr>, rest: bytes)
    ensures
      var f := ReplyFrame(session, data, destination);
      var t := TargetBytes(c, f.target);
      Encode(c, f) + rest
      == Header(SHORT_LENGTH + |t|, session, STATUS_KEEP, OPTION_DATA) + (t + (BE16(|data|) + (data + rest)))
  {
    hide Header, BE16, TargetBytes;
    var f := ReplyFrame(session, data, destination);
    var t, size := TargetBytes(c, f.target), BE16(|data|);
    Regroup(Header(SHORT_LENGTH + |t|, session, STATUS_KEEP, OPTION_DATA), t, size + data, rest);
    assert (size + data) + rest == size + (data + rest);
  }

  lemma ReplyHeaderReadsBack(c: Codec, own: Addr, session: word, data: bytes, destination: Option<Addr>,
                             size: bytes, rest: bytes, cap: nat)
    requires Lawful(c) && (destination.Some? ==> Fits(destination.value)) && size == BE16(|data|)
    requires cap >= 2 + |TargetBytes(c, ReplyFrame(session, data, destination).target)|
    ensures
      var t := TargetBytes(c, ReplyFrame(session, data, destination).target);
      && |t| <= 1 + MAX_ADDRESS_SIZE && |size| == 2
      && ReadReplyHeader(c, own, SHORT_LENGTH + |t|, t + (size + rest), cap)
         == ReplyHeader(if destination.Some? then destination.value else own, size, rest)
  {
    var t := TargetBytes(c, ReplyFrame(session, data, destination).target);
    var s := t + (size + rest);
    match destination
    case None =>
      assert s == size + rest;
    case Some(a) =>
      var e := c.encode(a);
      assert t == [NETWORK_UDP] + e;
      assert s[1..1 + |e| + 2] == e + size && s[1 + |e| + 2..] == rest;
      assert (e + size)[|e|..] == size;
  }

  // A packet frame can be read back, whatever fits the buffer and whatever
  // follows, exactly when its destination is valid.
  lemma PacketFrameNeedsDestination(c: Codec, own: Addr, session: word, destination: Addr, cap: nat)
    requires Lawful(c) && (destination.Address? ==> Fits(destination))
    requires HEADER_SIZE + 3 + c.length(destination) <= cap
    ensures (forall data: bytes, rest: bytes :: |data| < 0x10000 && |data| <= cap ==>
               XudpRead(c, own, PacketFrameBytes(c, session, data, destination) + rest, cap)
               == PacketGot(Packet(data, destination), rest))
            <==> destination.Address?
  {
    hide XudpRead, Encode, PacketFrameBytes, Lawful, TargetBytes;
    if destination.Address? {
      AddressedTarget(c, destination);
      forall data: bytes, rest: bytes | |data| < 0x10000 && |data| <= cap
        ensures XudpRead(c, own, PacketFrameBytes(c, session, data, destination) + rest, cap)
                == PacketGot(Packet(data, destination), rest)
      {
        AddressedPacketFrame(c, session, data, destination);
        ReplyReadsBack(c, own, session, data, Some(destination), rest, cap);
      }
    } else {
      EmptyPacketIsLost(c, own, session, cap);
    }
  }

  lemma AddressedTarget(c: Codec, a: Addr)
    requires Lawful(c) && Fits(a)
    ensures forall session, data :: |TargetBytes(c, ReplyFrame(session, data, Some(a)).target)| == 1 + c.length(a)
  {
  }

  lemma AddressedPacketFrame(c: Codec, session: word, data: bytes, a: Addr)
    requires Lawful(c) && Fits(a)
    ensures PacketFrameBytes(c, session, data, a) == Encode(c, ReplyFrame(session, data, Some(a)))
  {
    hide Header, BE16;
    assert c.encode(a) + [] == c.encode(a);
  }

  // An empty packet to nowhere, with nothing after it, leaves the client
  // waiting for the address its header promises.
  lemma EmptyPacketIsLost(c: Codec, own: Addr, session: word, cap: nat)
    requires Lawful(c) && HEADER_SIZE + 3 + c.length(NoAddress) <= cap
    ensures XudpRead(c, own, PacketFrameBytes(c, session, [], NoAddress) + [], cap) == Refused(StreamEnded)
  {
    var size := DataBytes(Some([]));
    var s := PacketFrameBytes(c, session, [], NoAddress) + [];
    assert s == Header(5 + c.length(NoAddress), session, STATUS_KEEP, OPTION_DATA) + size;
    HeaderFields(5 + c.length(NoAddress), session, STATUS_KEEP, OPTION_DATA, size);
  }

  // What MuxConnWrapper meets at a frame boundary.
  datatype Step = DataFollows(size: word, rest: bytes) | Skip(rest: bytes) | Stop(error: ClientError)

  function NextStep(s: bytes): (r: Step)
    ensures !r.Stop? ==> |r.rest| < |s|
  {
    if |s| < HEADER_SIZE then Stop(StreamEnded)
    else if s[4] == STATUS_END then Stop(Closed)
    else if s[4] != STATUS_KEEP && s[4] != STATUS_KEEP_ALIVE then Stop(Unexpected)
    else
      var length := FromBE16(s[..2]);
      var skip := if s[4] == STATUS_KEEP && length > SHORT_LENGTH then length - SHORT_LENGTH else 0;
      if |s| - HEADER_SIZE < skip then Stop(StreamEnded)
      else
        var body := s[HEADER_SIZE + skip..];
        if HasError(s[5]) then Stop(RemoteClosed)
        else if !HasData(s[5]) then Skip(body)
        else if |body| < 2 then Stop(StreamEnded)
        else DataFollows(FromBE16(body[..2]), body[2..])
  }

  // The two clients read a header alike: a frame ends the stream exactly if it
  // is an End (3), neither a Keep (2) nor a KeepAlive (4), or carries the error
  // bit; only the packet client looks at a header length below 4.
  lemma HeadersAreJudged(c: Codec, own: Addr, s: bytes, cap: nat)
    requires |s| >= 6 && cap >= 6
    ensures s[4] == 3 ==> NextStep(s) == Stop(Closed)
    ensures s[4] != 2 && s[4] != 3 && s[4] != 4 ==> NextStep(s) == Stop(Unexpected)
    ensures var length := FromBE16(s[..2]);
            && (s[4] == 4 || (s[4] == 2 && |s| >= 6 + (length - 4)) ==> (BitOf(s[5], 1) == 1 <==> NextStep(s) == Stop(RemoteClosed)))
            && (length < 4 ==> XudpRead(c, own, s, cap) == Refused(BadLength))
            && (length >= 4 && s[4] != 2 && s[4] != 4 ==> XudpRead(c, own, s, cap) == Refused(if s[4] == 3 then Closed else Unexpected))
            && (BitOf(s[5], 1) == 1 && length >= 4 && (s[4] == 4 || (s[4] == 2 && length == 4 && |s| >= 8 && cap >= 8)) ==>
                  XudpRead(c, own, s, cap) == Refused(RemoteClosed))
  {
    assert BitOf(s[5], 1) == s[5] / 2 % 2 by {
      assert BitOf(s[5], 1) == BitOf(s[5] / 2, 0);
    }
  }

  // All the data still to come when remaining bytes of the current frame's
  // data are still to be read.
  function Text(remaining: nat, s: bytes): bytes
    decreases |s|
  {
    if s == [] then []
    else if remaining > 0 then
      if |s| <= remaining then s else s[..remaining] + Text(0, s[remaining..])
    else
      match NextStep(s)
      case Stop(_) => []
      case Skip(rest) => Text(0, rest)
      case DataFollows(size, rest) => Text(size, rest)
  }

  // What a Read reports that finds no data: how the first frame that is not
  // passed over ends the stream, or that it ends before that frame's data.
  function Ending(remaining: nat, s: bytes): ClientError
    decreases |s|
  {
    if remaining > 0 then StreamEnded
    else
      match NextStep(s)
      case Stop(error) => error
      case Skip(rest) => Ending(0, rest)
      case DataFollows(size, rest) => Ending(size, rest)
  }

  lemma NoText()
    ensures forall k: nat :: Text(k, []) == []
  {
  }

  lemma TextSteps(s: bytes)
    ensures
      var r := NextStep(s);
      Text(0, s) == if r.Stop? then [] else if r.Skip? then Text(0, r.rest) else Text(r.size, r.rest)
  {
  }

  lemma TextSplits(remaining: nat, s: bytes, n: nat)
    requires n <= remaining && n <= |s|
    ensures Text(remaining, s) == s[..n] + Text(remaining - n, s[n..])
  {
    hide NextStep;
    var head, tail := s[..n], s[n..];
    assert s == head + tail;
    if n == 0 {
      assert head + Text(remaining, s) == Text(remaining, s) && tail == s;
    } else if |s| <= remaining {
      assert tail != [] ==> Text(remaining - n, tail) == tail;
    } else {
      TextOfLongTail(remaining, s, n);
    }
  }

  lemma TextOfLongTail(remaining: nat, s: bytes, n: nat)
    requires 0 < n <= remaining < |s|
    ensures Text(remaining, s) == s[..n] + Text(remaining - n, s[n..])
  {
    hide NextStep;
    var later := Text(0, s[remaining..]);
    assert Text(remaining, s) == s[..remaining] + later;
    Cut(s, 0, n, remaining);
    CutTail(s, n, remaining);
    assert Text(remaining - n, s[n..]) == s[n..remaining] + later by {
      if n == remaining {
        assert s[n..remaining] + later == later;
      }
    }
    Assoc(s[..n], s[n..remaining], later);
  }

  // Replies to a stream client are exactly their data, in order.
  lemma {:induction false} RepliesAreText(c: Codec, session: word, ds: seq<bytes>, rest: bytes)
    requires forall i :: 0 <= i < |ds| ==> |ds[i]| < 0x10000
    ensures Text(0, Replies(c, session, ds) + rest) == Flatten(ds) + Text(0, rest)
    decreases |ds|
  {
    hide NextStep, BE16, FromBE16, Encode, Text;
    if ds == [] {
      assert Replies(c, session, ds) + rest == rest && [] + Text(0, rest) == Text(0, rest);
    } else {
      var d, others := ds[0], Replies(c, session, ds[1..]) + rest;
      RepliesAreText(c, session, ds[1..], rest);
      var f := Encode(c, ReplyFrame(session, d, None));
      assert Replies(c, session, ds) + rest == f + others;
      ReplyStep(c, session, d, others);
      TextSteps(f + others);
      TextSplits(|d|, d + others, |d|);
      assert (d + others)[..|d|] == d && (d + others)[|d|..] == others;
      assert d + (Flatten(ds[1..]) + Text(0, rest)) == (d + Flatten(ds[1..])) + Text(0, rest);
    }
  }

  function Replies(c: Codec, session: word, ds: seq<bytes>): bytes {
    if ds == [] then [] else Encode(c, ReplyFrame(session, ds[0], None)) + Replies(c, session, ds[1..])
  }

  lemma ReplyStep(c: Codec, session: word, data: bytes, rest: bytes)
    requires |data| < 0x10000
    ensures NextStep(Encode(c, ReplyFrame(session, data, None)) + rest) == DataFollows(|data|, data + rest)
  {
    hide Header, BE16, FromBE16, Encode;
    var size := BE16(|data|);
    ReplyBytes(c, session, data, None, rest);
    assert size + (data + rest) == [] + (size + (data + rest));
    HeaderFields(SHORT_LENGTH, session, STATUS_KEEP, OPTION_DATA, size + (data + rest));
    BE16RoundTrip(|data|);
    assert (size + (data + rest))[..2] == size && (size + (data + rest))[2..] == data + rest;
  }
}
