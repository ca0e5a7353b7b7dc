// Runs of packets over the multiplexer: what one end writes packet by packet,
// and what the other reads packet by packet.
module MuxRuns {
  import opened Bytes
  import opened ByteStream
  import opened MuxFormat
  import opened MuxSessions
  import opened MuxServer
  import opened MuxReplies
  import opened MuxClient

  // From the client to the server's handler. An empty packet is not carried.

  function NonEmpty(ps: seq<Packet>): seq<Packet> {
    if ps == [] then [] else (if ps[0].data == [] then [] else [ps[0]]) + NonEmpty(ps[1..])
  }

  // What up to n ReadFroms yield, the first that fails ending them.
  function PacketsRead(c: Codec, s: bytes, cap: nat, n: nat): seq<Packet>
    decreases n
  {
    if n == 0 then []
    else
      match ReadPacket(c, s, cap)
      case PacketRead(p, rest) => [p] + PacketsRead(c, rest, cap, n - 1)
      case _ => []
  }

  method ReadAllFrom(conn: PacketConn, p: array<byte>, n: nat) returns (got: seq<Packet>)
    modifies conn.pipe, p
    ensures got == PacketsRead(conn.codec, old(conn.pipe.Coming()), p.Length, n)
  {
    hide ReadPacket;
    if n == 0 {
      return [];
    }
    var size, address, ok := conn.ReadFrom(p);
    if !ok {
      return [];
    }
    var packet := Packet(p[..size], address);
    var others := ReadAllFrom(conn, p, n - 1);
    got := [packet] + others;
  }

  lemma ReadPacketIsBounded(c: Codec, s: bytes, cap: nat)
    ensures ReadPacket(c, s, cap).PacketRead? ==> |ReadPacket(c, s, cap).packet.data| <= cap
  {
  }

  // The packets in a session's pipe come out one by one, in order, exactly
  // when each of them fits the reader's buffer.
  lemma {:induction false} PacketsAreRead(c: Codec, ps: seq<Packet>, rest: bytes, cap: nat)
    requires Lawful(c) && forall i :: 0 <= i < |ps| ==> Fits(ps[i].address) && |ps[i].data| < 0x10000
    ensures PacketsRead(c, Packets(c, ps) + rest, cap, |NonEmpty(ps)|) == NonEmpty(ps)
            <==> forall i :: 0 <= i < |ps| ==> |ps[i].data| <= cap
    decreases |ps|
  {
    hide ReadPacket, Carried, Lawful;
    if ps != [] {
      PacketsAreRead(c, ps[1..], rest, cap);
      assert (forall i :: 0 <= i < |ps| ==> |ps[i].data| <= cap)
        <==> |ps[0].data| <= cap && forall i :: 0 <= i < |ps[1..]| ==> |ps[1..][i].data| <= cap;
      var others := Packets(c, ps[1..]);
      if ps[0].data == [] {
        assert [] + others == others;
      } else {
        var first := Carried(c, NETWORK_UDP, ps[0].address, ps[0].data);
        Assoc(first, others, rest);
        PacketReadsBack(c, ps[0], others + rest, cap);
        ReadPacketIsBounded(c, first + (others + rest), cap);
        var got := PacketsRead(c, Packets(c, ps) + rest, cap, |NonEmpty(ps)|);
        assert got != [] ==> got == [got[0]] + got[1..];
        assert NonEmpty(ps)[0] == ps[0] && NonEmpty(ps)[1..] == NonEmpty(ps[1..]);
      }
    }
  }

  method WritePackets(x: XUDPConn, ps: seq<Packet>)
    requires Lawful(x.codec) && x.writer.Valid() && forall i :: 0 <= i < |ps| ==> Fits(ps[i].address)
    modifies x, x.writer
    ensures x.writer.Valid()
    ensures x.writer.given == old(x.writer.given) + EncodeAll(x.codec, PacketFrames(!old(x.requestWritten), ps))
    decreases |ps|
  {
    hide Encode, Lawful;
    ghost var given, first := x.writer.given, !x.requestWritten;
    ghost var frames := PacketFrames(first, ps);
    if ps == [] {
      assert given + [] == given;
      return;
    }
    var ok := x.WritePacket(ps[0].data, ps[0].address);
    WritePackets(x, ps[1..]);
    assert frames[0] == PacketFrame(first, ps[0]) && frames[1..] == PacketFrames(false, ps[1..]);
    Assoc(given, Encode(x.codec, frames[0]), EncodeAll(x.codec, frames[1..]));
  }

  // From end to end: the packets a client writes, what the server makes of the
  // bytes sent while its handler reads, and ReadFroms at the handler's end.
  method PacketsRun(c: Codec, destination: Addr, ps: seq<Packet>, cap: nat) returns (got: seq<Packet>)
    requires Lawful(c) && ps != []
    requires forall i :: 0 <= i < |ps| ==> Fits(ps[i].address) && |ps[i].data| < 0x10000
    ensures got == NonEmpty(ps) <==> forall i :: 0 <= i < |ps| ==> |ps[i].data| <= cap
  {
    hide Lawful, Encode, EncodeAll, Eat, View, Packets, PacketsRead, Fits;
    var sink := new Sink(None);
    var nothing := new Source(None, []);
    var x := new XUDPConn(nothing, sink, c, destination);
    WritePackets(x, ps);
    assert [] + EncodeAll(c, PacketFrames(true, ps)) == EncodeAll(c, PacketFrames(true, ps));
    PacketsAreReceived(c, ps);
    var session := View(Eat(c, EMPTY, sink.sent, NoneGone(|ps| + 1)).m, 0);
    var pipe := new Source(None, session.value.text);
    var conn := new PacketConn(pipe, c);
    PacketsAreRead(c, ps, [], cap);
    assert Packets(c, ps) + [] == Packets(c, ps);
    var p := new byte[cap];
    got := ReadAllFrom(conn, p, |NonEmpty(ps)|);
  }

  // From the server to the client. A reply names an address or leaves it to the
  // client's own.
  datatype Reply = Reply(data: bytes, destination: Option<Addr>)

  function ReplyFrames(session: word, rs: seq<Reply>): (r: seq<Frame>)
    ensures |r| == |rs| && forall i :: 0 <= i < |rs| ==> r[i] == ReplyFrame(session, rs[i].data, rs[i].destination)
  {
    seq(|rs|, i requires 0 <= i < |rs| => ReplyFrame(session, rs[i].data, rs[i].destination))
  }

  function Named(own: Addr, rs: seq<Reply>): (r: seq<Packet>)
    ensures |r| == |rs|
  {
    if rs == [] then []
    else [Packet(rs[0].data, if rs[0].destination.Some? then rs[0].destination.value else own)] + Named(own, rs[1..])
  }

  // Data and header share the buffer.
  predicate ReplyFits(c: Codec, r: Reply, cap: nat) {
    && |r.data| < 0x10000 && |r.data| <= cap
    && HEADER_SIZE + 2 + |TargetBytes(c, ReplyFrame(0, r.data, r.destination).target)| <= cap
  }

  // What up to n ReadPackets yield, the first that fails ending them.
  function RepliesRead(c: Codec, own: Addr, s: bytes, cap: nat, n: nat): seq<Packet>
    decreases n
  {
    if n == 0 then []
    else
      match XudpRead(c, own, s, cap)
      case PacketGot(p, rest) => [p] + RepliesRead(c, own, rest, cap, n - 1)
      case Refused(_) => []
  }

  method ReadAllReplies(x: XUDPConn, p: array<byte>, n: nat) returns (got: seq<Packet>)
    modifies x.conn, p
    ensures got == RepliesRead(x.codec, x.destination, old(x.conn.Coming()), p.Length, n)
  {
    hide XudpRead;
    if n == 0 {
      return [];
    }
    var size, address, error := x.ReadPacket(p);
    if error.Some? {
      return [];
    }
    var packet := Packet(p[..size], address);
    var others := ReadAllReplies(x, p, n - 1);
    got := [packet] + others;
  }

  // A reply that does not fit is not read as it was sent.
  lemma ReplyNeedsRoom(c: Codec, own: Addr, session: word, r: Reply, rest: bytes, cap: nat)
    requires Lawful(c) && (r.destination.Some? ==> Fits(r.destination.value)) && !ReplyFits(c, r, cap)
    ensures
      var got := XudpRead(c, own, Encode(c, ReplyFrame(session, r.data, r.destination)) + rest, cap);
      got.PacketGot? ==> |got.packet.data| != |r.data|
  {
    hide XudpRead, Encode;
    XudpReadIsBounded(c, own, Encode(c, ReplyFrame(session, r.data, r.destination)) + rest, cap);
    if |r.data| < 0x10000 && |r.data| <= cap {
      ReplyHeaderNeedsRoom(c, own, session, r.data, r.destination, rest, cap);
    }
  }

  lemma {:induction false} XudpReadIsBounded(c: Codec, own: Addr, s: bytes, cap: nat)
    ensures XudpRead(c, own, s, cap).PacketGot? ==> |XudpRead(c, own, s, cap).packet.data| <= Min(cap, 0xffff)
    decreases |s|
  {
    hide ReadReplyHeader, FromBE16;
    if |s| >= HEADER_SIZE && cap >= HEADER_SIZE {
      var body := s[HEADER_SIZE..];
      var h := ReadReplyHeader(c, own, FromBE16(s[..2]), body, cap - HEADER_SIZE);
      if s[4] == STATUS_KEEP_ALIVE {
        XudpReadIsBounded(c, own, body, cap);
      } else if h.ReplyHeader? {
        XudpReadIsBounded(c, own, h.rest, cap);
      }
    }
  }

  // Replies are read one by one, in order, with the addresses named, exactly
  // when each of them fits the client's buffer.
  lemma {:induction false} RepliesAreRead(c: Codec, own: Addr, session: word, rs: seq<Reply>, rest: bytes, cap: nat)
    requires Lawful(c) && forall i :: 0 <= i < |rs| && rs[i].destination.Some? ==> Fits(rs[i].destination.value)
    ensures RepliesRead(c, own, EncodeAll(c, ReplyFrames(session, rs)) + rest, cap, |rs|) == Named(own, rs)
            <==> forall i :: 0 <= i < |rs| ==> ReplyFits(c, rs[i], cap)
    decreases |rs|
  {
    hide XudpRead, Encode, Lawful, ReplyFits, Fits;
    if rs != [] {
      RepliesAreRead(c, own, session, rs[1..], rest, cap);
      assert (forall i :: 0 <= i < |rs| ==> ReplyFits(c, rs[i], cap))
        <==> ReplyFits(c, rs[0], cap) && forall i :: 0 <= i < |rs[1..]| ==> ReplyFits(c, rs[1..][i], cap);
      var frames := ReplyFrames(session, rs);
      assert frames[1..] == ReplyFrames(session, rs[1..]);
      var first, others := Encode(c, frames[0]), EncodeAll(c, frames[1..]);
      Assoc(first, others, rest);
      assert Named(own, rs)[1..] == Named(own, rs[1..]);
      var got := RepliesRead(c, own, EncodeAll(c, frames) + rest, cap, |rs|);
      assert got != [] ==> got == [got[0]] + got[1..];
      OneReplyIsRead(c, own, session, rs[0], others + rest, cap);
    }
  }

  lemma OneReplyIsRead(c: Codec, own: Addr, session: word, r: Reply, rest: bytes, cap: nat)
    requires Lawful(c) && (r.destination.Some? ==> Fits(r.destination.value))
    ensures
      var got := XudpRead(c, own, Encode(c, ReplyFrame(session, r.data, r.destination)) + rest, cap);
      if ReplyFits(c, r, cap) then got == PacketGot(Named(own, [r])[0], rest)
      else got.PacketGot? ==> got.packet != Named(own, [r])[0]
  {
    hide XudpRead, Encode, Lawful, Fits;
    if ReplyFits(c, r, cap) {
      ReplyReadsBack(c, own, session, r.data, r.destination, rest, cap);
    } else {
      ReplyNeedsRoom(c, own, session, r, rest, cap);
    }
  }

  method WriteReplies(w: SessionWriter, session: word, rs: seq<Reply>)
    requires Lawful(w.codec) && w.writer.Valid()
    requires forall i :: 0 <= i < |rs| && rs[i].destination.Some? ==> Fits(rs[i].destination.value)
    modifies w.writer
    ensures w.writer.Valid()
    ensures w.writer.given == old(w.writer.given) + EncodeAll(w.codec, ReplyFrames(session, rs))
    decreases |rs|
  {
    hide Encode, Lawful, Fits;
    ghost var given, frames := w.writer.given, ReplyFrames(session, rs);
    if rs == [] {
      assert given + [] == given;
      return;
    }
    match rs[0].destination {
      case None => w.WriteFrame(session, rs[0].data);
      case Some(a) =>
        AddressedPacketFrame(w.codec, session, rs[0].data, a);
        w.WritePacketFrame(session, rs[0].data, a);
    }
    WriteReplies(w, session, rs[1..]);
    assert frames[1..] == ReplyFrames(session, rs[1..]);
    Assoc(given, Encode(w.codec, frames[0]), EncodeAll(w.codec, frames[1..]));
  }

  // From end to end: the frames the server writes on a session, and ReadPackets
  // at the client over the bytes sent, whatever follows.
  method RepliesRun(c: Codec, own: Addr, session: word, rs: seq<Reply>, following: bytes, cap: nat) returns (got: seq<Packet>)
    requires Lawful(c) && forall i :: 0 <= i < |rs| && rs[i].destination.Some? ==> Fits(rs[i].destination.value)
    ensures got == Named(own, rs) <==> forall i :: 0 <= i < |rs| ==> ReplyFits(c, rs[i], cap)
  {
    hide Lawful, Encode, EncodeAll, RepliesRead, ReplyFits, Fits;
    var sink := new Sink(None);
    var w := new SessionWriter(sink, c);
    WriteReplies(w, session, rs);
    assert [] + EncodeAll(c, ReplyFrames(session, rs)) == EncodeAll(c, ReplyFrames(session, rs));
    RepliesAreRead(c, own, session, rs, following, cap);
    var source := new Source(None, sink.sent + following);
    var requests := new Sink(None);
    var x := new XUDPConn(source, requests, c, own);
    var p := new byte[cap];
    got := ReadAllReplies(x, p, |rs|);
  }
}
