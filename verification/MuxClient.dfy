// The client ends of mux.go: XUDPConn of xudp.go and MuxConnWrapper of
// mux_wrapper.go, and the frame writers of the server they read from.
module MuxClient {
  import opened Bytes
  import opened ByteStream
  import opened MuxFormat
  import opened MuxSessions
  import opened MuxServer
  import opened MuxReplies
  import Net

  // What a packet client sends: its first frame opens session 0.
  function PacketFrame(first: bool, p: Packet): Frame {
    Frame(0, if first then STATUS_NEW else STATUS_KEEP, OPTION_DATA, Some(Target(NETWORK_UDP, p.address, [])), Some(p.data))
  }

  // What a stream client sends: only the first frame names the destination.
  function StreamFrame(first: bool, destination: Addr, data: bytes): Frame {
    Frame(0, if first then STATUS_NEW else STATUS_KEEP, OPTION_DATA,
          if first then Some(Target(NETWORK_TCP, destination, [])) else None, Some(data))
  }

  function PacketFrames(first: bool, ps: seq<Packet>): (r: seq<Frame>)
    ensures |r| == |ps| && forall i :: 0 <= i < |ps| ==> r[i] == PacketFrame(first && i == 0, ps[i])
  {
    seq(|ps|, i requires 0 <= i < |ps| => PacketFrame(first && i == 0, ps[i]))
  }

  function StreamFrames(first: bool, destination: Addr, ds: seq<bytes>): (r: seq<Frame>)
    ensures |r| == |ds| && forall i :: 0 <= i < |ds| ==> r[i] == StreamFrame(first && i == 0, destination, ds[i])
  {
    seq(|ds|, i requires 0 <= i < |ds| => StreamFrame(first && i == 0, destination, ds[i]))
  }

  lemma {:induction false} OnlyOne(fs: seq<Frame>, s: word)
    requires forall i :: 0 <= i < |fs| ==> fs[i].session == s
    ensures Only(fs, s) == fs
  {
    if fs != [] {
      OnlyOne(fs[1..], s);
    }
  }

  lemma TargetIsShort(c: Codec, network: byte, a: Addr)
    requires Lawful(c) && Fits(a)
    ensures |TargetBytes(c, Some(Target(network, a, [])))| == 1 + |c.encode(a)| < 0x10000 - SHORT_LENGTH
  {
  }

  // One New and then Keeps, all on one session: the server has that session,
  // with all the data since.
  lemma OneSession(c: Codec, fs: seq<Frame>)
    requires Lawful(c) && AllWellFormed(c, fs) && fs != []
    requires forall i :: 0 <= i < |fs| ==>
               Sendable(fs[i]) && fs[i].session == 0 && fs[i].status == (if i == 0 then STATUS_NEW else STATUS_KEEP)
    requires fs[0].target.Some?
    ensures
      var t := fs[0].target.value;
      View(Eat(c, EMPTY, EncodeAll(c, fs), NoneGone(|fs| + 1)).m, 0) == Some(Session(t.network, t.address, AllAdded(c, t.network, t.address, fs)))
  {
    hide Eat, EncodeAll, View, RunAlone, AllAdded, WellFormed;
    StreamDemultiplexes(c, fs, NoneGone(|fs| + 1), 0);
    assert NoneGone(|fs| + 1)[..|fs|] == NoneGone(|fs|);
    AllAttended(c, EMPTY, fs, 0);
    OnlyOne(fs, 0);
    assert [fs[0]] + fs[1..] == fs && [] + Attended(fs) == Attended(fs);
    SinceLatestNew(c, None, [], fs[0], fs[1..]);
  }

  // The packets of a client, with their boundaries and addresses, in the pipe;
  // an empty packet is not carried.
  function Packets(c: Codec, ps: seq<Packet>): bytes {
    if ps == [] then []
    else (if ps[0].data == [] then [] else Carried(c, NETWORK_UDP, ps[0].address, ps[0].data)) + Packets(c, ps[1..])
  }

  lemma {:induction false} PacketsAreAdded(c: Codec, first: bool, destination: Addr, ps: seq<Packet>)
    requires forall i :: 0 <= i < |ps| ==> Fits(ps[i].address)
    ensures AllAdded(c, NETWORK_UDP, destination, PacketFrames(first, ps)) == Packets(c, ps)
    decreases |ps|
  {
    if ps != [] {
      hide Carried;
      PacketsAreAdded(c, false, destination, ps[1..]);
      assert PacketFrames(first, ps)[1..] == PacketFrames(false, ps[1..]);
      assert Fits(ps[0].address);
    }
  }

  lemma PacketsAreReceived(c: Codec, ps: seq<Packet>)
    requires Lawful(c) && ps != []
    requires forall i :: 0 <= i < |ps| ==> Fits(ps[i].address) && |ps[i].data| < 0x10000
    ensures View(Eat(c, EMPTY, EncodeAll(c, PacketFrames(true, ps)), NoneGone(|ps| + 1)).m, 0)
            == Some(Session(NETWORK_UDP, ps[0].address, Packets(c, ps)))
  {
    hide Eat, EncodeAll, View, AllAdded, Packets;
    var fs := PacketFrames(true, ps);
    forall i | 0 <= i < |fs| ensures WellFormed(c, fs[i]) {
      TargetIsShort(c, NETWORK_UDP, ps[i].address);
    }
    OneSession(c, fs);
    PacketsAreAdded(c, true, ps[0].address, ps);
  }

  lemma {:induction false} DataIsAdded(c: Codec, first: bool, destination: Addr, ds: seq<bytes>)
    ensures AllAdded(c, NETWORK_TCP, destination, StreamFrames(first, destination, ds)) == Flatten(ds)
    decreases |ds|
  {
    if ds != [] {
      DataIsAdded(c, false, destination, ds[1..]);
      assert StreamFrames(first, destination, ds)[1..] == StreamFrames(false, destination, ds[1..]);
    }
  }

  // What a stream client writes is what the handler reads.
  lemma StreamIsReceived(c: Codec, destination: Addr, ds: seq<bytes>)
    requires Lawful(c) && ds != [] && Fits(destination)
    requires forall i :: 0 <= i < |ds| ==> |ds[i]| < 0x10000
    ensures View(Eat(c, EMPTY, EncodeAll(c, StreamFrames(true, destination, ds)), NoneGone(|ds| + 1)).m, 0)
            == Some(Session(NETWORK_TCP, destination, Flatten(ds)))
  {
    hide Eat, EncodeAll, View, AllAdded, Flatten;
    var fs := StreamFrames(true, destination, ds);
    forall i | 0 <= i < |fs| ensures WellFormed(c, fs[i]) {
      TargetIsShort(c, NETWORK_TCP, destination);
    }
    OneSession(c, fs);
    DataIsAdded(c, true, destination, ds);
  }

  // A frame's bytes in the order the writers put them together.
  lemma TargetedBytes(c: Codec, session: word, status: byte, option: byte, network: byte, a: Addr, data: bytes)
    requires Lawful(c) && Fits(a)
    ensures BE16(5 + c.length(a)) + BE16(session) + [status, option, network] + c.encode(a) + BE16(|data|) + data
            == Encode(c, Frame(session, status, option, Some(Target(network, a, [])), Some(data)))
  {
    hide BE16;
    var e, b := c.encode(a), BE16(|data|);
    var t := [network] + (e + []);
    assert e + [] == e;
    var length := BE16(5 + |e|);
    var head := length + (BE16(session) + [status, option]);
    assert length + BE16(session) + [status, option, network] == head + [network];
    assert (head + [network]) + e == head + t;
    Join(head, t, b, data);
  }

  lemma UntargetedBytes(c: Codec, session: word, status: byte, option: byte, data: bytes)
    ensures BE16(SHORT_LENGTH) + BE16(session) + [status, option] + BE16(|data|) + data
            == Encode(c, Frame(session, status, option, None, Some(data)))
  {
    hide BE16;
  }

  class XUDPConn {
    const conn: Source
    const writer: Sink
    const codec: Codec
    const destination: Addr
    var requestWritten: bool

    constructor (conn: Source, writer: Sink, codec: Codec, destination: Addr)
      ensures this.conn == conn && this.writer == writer && this.codec == codec && this.destination == destination
      ensures !requestWritten
    {
      this.conn, this.writer, this.codec, this.destination, requestWritten := conn, writer, codec, destination, false;
    }

    // The header is written in front of the data, in one buffer.
    method WritePacket(data: bytes, destination: Addr) returns (ok: bool)
      requires Lawful(codec) && writer.Valid()
      modifies `requestWritten, writer
      ensures writer.Valid() && ok == Fits(destination)
      ensures if ok
              then requestWritten && writer.given
                   == old(writer.given) + Encode(codec, PacketFrame(!old(requestWritten), Packet(data, destination)))
              else requestWritten == old(requestWritten) && writer.given == old(writer.given)
    {
      hide Encode;
      ok := Fits(destination);
      if ok {
        var status := if requestWritten then STATUS_KEEP else STATUS_NEW;
        var buffer := WithHeader(codec, status, NETWORK_UDP, destination, data);
        writer.Write(buffer);
        requestWritten := true;
      }
    }

    method ReadHeader() returns (length: word, status: byte, option: byte, ok: bool)
      modifies conn
      ensures ok <==> |old(conn.Coming())| >= HEADER_SIZE
      ensures ok ==>
                var s := old(conn.Coming());
                length == FromBE16(s[..2]) && status == s[4] && option == s[5] && conn.Coming() == s[HEADER_SIZE..]
    {
      length, status, option, ok := 0, 0, 0, false;
      if |conn.incoming| >= HEADER_SIZE {
        ghost var s := conn.Coming();
        var header := conn.Take(HEADER_SIZE);
        assert header == s[..HEADER_SIZE] && header[..2] == s[..2];
        length, status, option, ok := FromBE16(header[..2]), header[4], header[5], true;
      }
    }

    // The rest of a Keep frame's header, and the two bytes after it.
    method ReadReply(length: word, cap: nat) returns (address: Addr, extra: bytes, error: Option<ClientError>)
      modifies conn
      ensures
        var r := ReadReplyHeader(codec, destination, length, old(conn.Coming()), cap);
        if r.BadReply? then error == Some(r.error)
        else error == None && address == r.address && extra == r.extra && conn.Coming() == r.rest
    {
      address, extra, error := destination, [], None;
      if length < SHORT_LENGTH {
        return address, extra, Some(BadLength);
      }
      var need := length - 2;
      if cap < need {
        return address, extra, Some(TooSmall);
      }
      if |conn.incoming| < need {
        return address, extra, Some(StreamEnded);
      }
      ghost var s := conn.Coming();
      var block := conn.Take(need);
      assert block == s[..need] && conn.Coming() == s[need..];
      if length == SHORT_LENGTH {
        return destination, block, None;
      }
      assert block[1..] == s[1..need];
      match codec.decode(block[1..]) {
        case None =>
          error := Some(Undecodable);
        case Some(decoded) =>
          if decoded.1 > need - 1 {
            error := Some(Undecodable);
          } else {
            address, extra := decoded.0, block[1..][decoded.1..];
          }
      }
    }

    // Headers and data share the caller's buffer, so both have to fit it.
    method ReadPacket(p: array<byte>) returns (n: nat, address: Addr, error: Option<ClientError>)
      modifies conn, p
      ensures
        var r := XudpRead(codec, destination, old(conn.Coming()), p.Length);
        if r.Refused? then error == Some(r.error) && n == 0
        else error == None && n <= p.Length && Packet(p[..n], address) == r.packet && conn.Coming() == r.rest
    {
      hide ReadReplyHeader, FromBE16;
      n, address, error := 0, NoAddress, None;
      ghost var start := XudpRead(codec, destination, conn.Coming(), p.Length);
      while true
        invariant XudpRead(codec, destination, conn.Coming(), p.Length) == start
        decreases |conn.Coming()|
      {
        if p.Length < HEADER_SIZE {
          return 0, NoAddress, Some(TooSmall);
        }
        var length, status, option, ok := ReadHeader();
        if !ok {
          return 0, NoAddress, Some(StreamEnded);
        }
        if length < SHORT_LENGTH {
          return 0, NoAddress, Some(BadLength);
        }
        var extra: bytes := [];
        address := NoAddress;
        if status == STATUS_END {
          return 0, NoAddress, Some(Closed);
        } else if status == STATUS_KEEP {
          address, extra, error := ReadReply(length, p.Length - HEADER_SIZE);
          if error.Some? {
            return;
          }
        } else if status != STATUS_KEEP_ALIVE {
          return 0, NoAddress, Some(Unexpected);
        }
        if HasError(option) {
          return 0, NoAddress, Some(RemoteClosed);
        }
        if HasData(option) {
          if |extra| < 2 {
            return 0, NoAddress, Some(StreamEnded);
          }
          var size := FromBE16(extra[..2]);
          if p.Length < size {
            return 0, NoAddress, Some(TooSmall);
          }
          ghost var s := conn.Coming();
          ok := conn.ReadFull(p, size);
          if !ok {
            return 0, NoAddress, Some(StreamEnded);
          }
          assert p[..size] == s[..size] && conn.Coming() == s[size..];
          return size, address, None;
        }
      }
    }
  }

  // The header of a frame with a target, in front of its data.
  method WithHeader(c: Codec, status: byte, network: byte, destination: Addr, data: bytes) returns (buffer: bytes)
    requires Lawful(c) && Fits(destination)
    ensures buffer == Encode(c, Frame(0, status, OPTION_DATA, Some(Target(network, destination, [])), Some(data)))
  {
    hide Encode, BE16, Lawful;
    buffer := BE16(5 + c.length(destination)) + BE16(0) + [status, OPTION_DATA, network];
    buffer := buffer + c.encode(destination);
    buffer := buffer + BE16(|data|);
    TargetedBytes(c, 0, status, OPTION_DATA, network, destination, data);
    buffer := buffer + data;
  }

  class MuxConnWrapper {
    const conn: Source
    const writer: Sink
    const codec: Codec
    const destination: Addr
    var requestWritten: bool
    var remaining: nat

    constructor (conn: Source, writer: Sink, codec: Codec, destination: Addr)
      ensures this.conn == conn && this.writer == writer && this.codec == codec && this.destination == destination
      ensures !requestWritten && remaining == 0
    {
      this.conn, this.writer, this.codec, this.destination := conn, writer, codec, destination;
      requestWritten, remaining := false, 0;
    }

    method WriteBuffer(data: bytes) returns (ok: bool)
      requires Lawful(codec) && writer.Valid()
      modifies `requestWritten, writer
      ensures writer.Valid() && ok == (old(requestWritten) || Fits(destination))
      ensures if ok
              then requestWritten && writer.given
                   == old(writer.given) + Encode(codec, StreamFrame(!old(requestWritten), destination, data))
              else requestWritten == old(requestWritten) && writer.given == old(writer.given)
    {
      ok := requestWritten || Fits(destination);
      if !ok {
        return;
      }
      hide Encode, BE16;
      var buffer;
      if !requestWritten {
        buffer := WithHeader(codec, STATUS_NEW, NETWORK_TCP, destination, data);
      } else {
        buffer := BE16(SHORT_LENGTH) + BE16(0) + [STATUS_KEEP, OPTION_DATA] + BE16(|data|) + data;
        UntargetedBytes(codec, 0, STATUS_KEEP, OPTION_DATA, data);
      }
      writer.Write(buffer);
      requestWritten := true;
    }

    // To the next frame with data, or to the end.
    method NextFrame() returns (error: Option<ClientError>)
      requires remaining == 0
      modifies `remaining, conn
      ensures error.None? ==> Text(remaining, conn.Coming()) == old(Text(0, conn.Coming()))
                              && Ending(remaining, conn.Coming()) == old(Ending(0, conn.Coming()))
                              && |conn.Coming()| < |old(conn.Coming())|
      ensures error.Some? ==> remaining == 0 && error.value != TooSmall && old(Text(0, conn.Coming())) == []
                              && error.value == old(Ending(0, conn.Coming()))
    {
      hide Text;
      ghost var s := conn.Coming();
      TextSteps(s);
      var step := TakeStep();
      if step.Stop? {
        return Some(step.error);
      }
      if step.DataFollows? {
        remaining := step.size;
      }
      error := None;
    }

    method TakeStep() returns (step: Step)
      modifies conn
      ensures
        var r := NextStep(old(conn.Coming()));
        if r.Stop? then step == r && r.error != TooSmall
        else conn.Coming() == r.rest && step.DataFollows? == r.DataFollows? && step.Skip? == r.Skip?
             && (step.DataFollows? ==> step.size == r.size)
    {
      hide FromBE16;
      ghost var s := conn.Coming();
      if |conn.incoming| < HEADER_SIZE {
        return Stop(StreamEnded);
      }
      var header := conn.Take(HEADER_SIZE);
      assert header == s[..HEADER_SIZE] && header[..2] == s[..2] && conn.Coming() == s[HEADER_SIZE..];
      var length := FromBE16(header[..2]);
      var skip := 0;
      if header[4] == STATUS_KEEP {
        if length > SHORT_LENGTH {
          skip := length - SHORT_LENGTH;
          var ok := conn.Discard(skip);
          if !ok {
            return Stop(StreamEnded);
          }
        }
      } else if header[4] == STATUS_END {
        return Stop(Closed);
      } else if header[4] != STATUS_KEEP_ALIVE {
        return Stop(Unexpected);
      }
      assert conn.Coming() == s[HEADER_SIZE + skip..];
      if HasError(header[5]) {
        return Stop(RemoteClosed);
      }
      if HasData(header[5]) {
        var size, ok := ReadWord(conn);
        if !ok {
          return Stop(StreamEnded);
        }
        return DataFollows(size, []);
      }
      step := Skip([]);
    }

    // Any non-empty part of the current frame's data. Between frames the
    // caller's buffer has to hold a header.
    method ReadBuffer(p: array<byte>) returns (n: nat, error: Option<ClientError>)
      modifies `remaining, conn, p
      ensures error.None? ==>
                && n <= p.Length && (p.Length > 0 ==> n > 0)
                && old(Text(remaining, conn.Coming())) == p[..n] + Text(remaining, conn.Coming())
      ensures error.Some? ==> n == 0
      ensures error.Some? && error.value != TooSmall ==>
                && old(Text(remaining, conn.Coming())) == []
                && error.value == old(Ending(remaining, conn.Coming()))
      ensures error == Some(TooSmall) <==> p.Length < HEADER_SIZE && old(remaining) == 0
    {
      hide Text;
      NoText();
      n, error := 0, None;
      while remaining == 0
        invariant Text(remaining, conn.Coming()) == old(Text(remaining, conn.Coming()))
        invariant Ending(remaining, conn.Coming()) == old(Ending(remaining, conn.Coming()))
        invariant error.None? && (p.Length < HEADER_SIZE ==> remaining == old(remaining))
        decreases |conn.Coming()|
      {
        if p.Length < HEADER_SIZE {
          return 0, Some(TooSmall);
        }
        error := NextFrame();
        if error.Some? {
          return 0, error;
        }
      }
      n := TakeSome(p);
      if n == 0 && p.Length > 0 {
        error := Some(StreamEnded);
      }
    }

    // conn.Read of at most what remains of the current frame's data.
    method TakeSome(p: array<byte>) returns (n: nat)
      requires remaining > 0
      modifies `remaining, conn, p
      ensures n <= p.Length && (n == 0 ==> p.Length == 0 || old(conn.Coming()) == [])
      ensures old(Text(remaining, conn.Coming())) == p[..n] + Text(remaining, conn.Coming())
    {
      hide Text;
      ghost var s := conn.Coming();
      var limit := Min(Min(p.Length, remaining), |conn.incoming|);
      n :| 0 <= n <= limit && (n == 0 ==> limit == 0);
      var data := conn.Take(n);
      assert data == s[..n] && conn.Coming() == s[n..];
      TextSplits(remaining, s, n);
      remaining := remaining - n;
      Net.Store(p, 0, data);
      assert p[0..n] == p[..n];
    }
  }
}
