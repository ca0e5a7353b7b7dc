// serverSession of mux.go: taking frames off the connection, and the packets
// a handler reads from its pipe.
module MuxServer {
  import opened Bytes
  import opened ByteStream
  import opened MuxFormat
  import opened MuxSessions
  import Net

  function EncodeAll(c: Codec, fs: seq<Frame>): bytes {
    if fs == [] then [] else Encode(c, fs[0]) + EncodeAll(c, fs[1..])
  }

  predicate Sendable(f: Frame) {
    f.data.Some? ==> |f.data.value| < 0x10000
  }

  // binary.Read of a uint16
  method ReadWord(conn: Source) returns (w: word, ok: bool)
    modifies conn
    ensures ok <==> |old(conn.Coming())| >= 2
    ensures ok ==> w == FromBE16(old(conn.Coming())[..2]) && conn.Coming() == old(conn.Coming())[2..]
  {
    w, ok := 0, false;
    if |conn.incoming| >= 2 {
      ghost var s := conn.Coming();
      var b := conn.Take(2);
      assert s[..2] == b;
      w, ok := FromBE16(b), true;
    }
  }

  method ReadByte(conn: Source) returns (b: byte, ok: bool)
    modifies conn
    ensures ok <==> |old(conn.Coming())| >= 1
    ensures ok ==> b == old(conn.Coming())[0] && conn.Coming() == old(conn.Coming())[1..]
  {
    b, ok := 0, false;
    if |conn.incoming| >= 1 {
      var d := conn.Take(1);
      b, ok := d[0], true;
    }
  }

  class ServerSession {
    const conn: Source
    const codec: Codec
    var streams: map<word, Stream>
    var pipes: seq<bytes>
    var closed: set<nat>
    var closing: seq<word>
    // Pipes whose handler has stopped reading.
    var gone: set<nat>

    constructor (conn: Source, codec: Codec)
      ensures this.conn == conn && this.codec == codec && Valid() && State() == EMPTY && gone == {}
    {
      this.conn, this.codec := conn, codec;
      streams, pipes, closed, closing, gone := map[], [], {}, [], {};
    }

    ghost predicate Valid()
      reads this
    {
      State().Valid()
    }

    ghost function State(): Mux
      reads this
    {
      Mux(streams, pipes, closed, closing)
    }

    // The network and the address of a header of the given length; what else
    // the header holds is discarded.
    method ReadTarget(length: word) returns (target: Option<Target>, error: Option<Error>)
      modifies conn
      ensures
        var r := ParseTarget(codec, length, old(conn.Coming()));
        if r.TargetFailed? then error == Some(r.error)
        else error == None && target == r.target && conn.Coming() == r.rest
    {
      target, error := None, None;
      if length > SHORT_LENGTH {
        ghost var s := conn.Coming();
        if |conn.incoming| < length - SHORT_LENGTH {
          return None, Some(Ended);
        }
        var limited := conn.Take(length - SHORT_LENGTH);
        assert limited[1..] == s[1..length - SHORT_LENGTH];
        match codec.decode(limited[1..]) {
          case None =>
            error := Some(BadAddress);
          case Some(decoded) =>
            if decoded.1 > |limited[1..]| {
              error := Some(BadAddress);
            } else {
              target := Some(Target(limited[0], decoded.0, limited[1..][decoded.1..]));
            }
        }
      }
    }

    method ReadHeader() returns (session: word, status: byte, option: byte, target: Option<Target>, error: Option<Error>)
      modifies conn
      ensures
        var s := old(conn.Coming());
        if |s| < HEADER_SIZE then error == Some(Ended)
        else
          var r := ParseTarget(codec, FromBE16(s[..2]), s[HEADER_SIZE..]);
          if r.TargetFailed? then error == Some(r.error)
          else error == None && session == FromBE16(s[2..4]) && status == s[4] && option == s[5]
               && target == r.target && conn.Coming() == r.rest
    {
      hide FromBE16, ParseTarget;
      session, status, option, target, error := 0, 0, 0, None, Some(Ended);
      ghost var s := conn.Coming();
      var length, ok := ReadWord(conn);
      if !ok { return; }
      session, ok := ReadWord(conn);
      if !ok { return; }
      assert s[2..][..2] == s[2..4] && s[2..][2..] == s[4..];
      status, ok := ReadByte(conn);
      if !ok { return; }
      assert s[4..][1..] == s[5..];
      option, ok := ReadByte(conn);
      if !ok { return; }
      assert s[5..][1..] == s[HEADER_SIZE..];
      target, error := ReadTarget(length);
    }

    method ReadData(option: byte) returns (data: Option<bytes>, ok: bool)
      modifies conn
      ensures
        var r := ParseData(option, old(conn.Coming()));
        ok == r.DataParsed? && (ok ==> data == r.data && conn.Coming() == r.rest)
    {
      data, ok := None, true;
      if !HasData(option) {
        return;
      }
      ghost var s := conn.Coming();
      var length;
      length, ok := ReadWord(conn);
      if !ok {
        return;
      }
      if |conn.incoming| < length {
        return None, false;
      }
      var d := conn.Take(length);
      assert s[2..2 + length] == d && s[2 + length..] == conn.Coming();
      data := Some(d);
    }

    // The effect of a frame before its data: which stream the data is for.
    method Begin(session: word, status: byte, target: Option<Target>) returns (stream: Option<Stream>)
      requires Valid() && CheckFrame(status, target).None?
      modifies `streams, `pipes, `closed, `closing
      ensures Valid()
      ensures
        var f := Frame(session, status, 0, target, None);
        if status == STATUS_NEW then State() == Open(old(State()), f) && stream == Some(streams[session])
        else
          && State() == Apply(codec, old(State()), f, gone)
          && (if status == STATUS_KEEP && session in streams then stream == Some(streams[session]) else stream == None)
    {
      stream := None;
      if status == STATUS_NEW {
        var s := Stream(target.value.network, target.value.address, |pipes|);
        pipes := pipes + [[]];
        streams := streams[session := s];
        stream := Some(s);
        assert State() == Open(old(State()), Frame(session, status, 0, target, None));
      } else if status == STATUS_KEEP {
        if session in streams {
          stream := Some(streams[session]);
        } else {
          closing := closing + [session];
        }
      } else if status == STATUS_END {
        var wasOpen := LocalClose(session);
      }
    }

    method LocalClose(session: word) returns (wasOpen: bool)
      requires Valid()
      modifies `streams, `closed
      ensures Valid() && wasOpen == (session in old(streams)) && streams == old(streams) - {session}
      ensures closed == old(closed) + (if wasOpen then {old(streams)[session].pipe} else {})
    {
      wasOpen := session in streams;
      if wasOpen {
        closed := closed + {streams[session].pipe};
        streams := streams - {session};
      }
    }

    // recvTo: the data, as a packet unless the stream is TCP, and then the
    // session's end if its pipe is gone.
    method RecvTo(session: word, stream: Stream, data: bytes, destination: Addr)
      requires Valid() && session in streams && streams[session] == stream && data != []
      modifies `streams, `pipes, `closed, `closing
      ensures Valid()
      ensures
        var added := Carried(codec, stream.network, destination, data);
        State() == (if stream.pipe in gone
                    then Mux(old(streams) - {session}, old(pipes), old(closed) + {stream.pipe}, old(closing) + [session])
                    else old(State()).(pipes := old(pipes)[stream.pipe := old(pipes)[stream.pipe] + added]))
    {
      if stream.pipe in gone {
        var wasOpen := LocalClose(session);
        if wasOpen {
          closing := closing + [session];
        }
        return;
      }
      var text := pipes[stream.pipe];
      if stream.network == NETWORK_TCP {
        text := text + data;
      } else {
        text := text + BE16(|data|);
        text := text + data;
        text := text + codec.encode(destination);
        assert text == pipes[stream.pipe] + (BE16(|data|) + (data + codec.encode(destination)));
      }
      pipes := pipes[stream.pipe := text];
    }

    // One frame, whole: exactly the frame Parse sees is taken off the
    // connection and applied.
    method Recv() returns (error: Option<Error>)
      requires Valid()
      modifies this, conn
      ensures gone == old(gone)
      ensures old(conn.Coming()) == [] ==> State() == old(State())
      ensures
        var r := Parse(codec, old(conn.Coming()));
        if r.Failed? then error == Some(r.error)
        else error == None && Valid() && conn.Coming() == r.rest && State() == Apply(codec, old(State()), r.frame, gone)
    {
      hide ParseTarget, ParseData, FromBE16, Carried;
      CarriedIsNotEmpty(codec);
      var session, status, option, target, failure := ReadHeader();
      if failure.Some? {
        return failure;
      }
      error := CheckFrame(status, target);
      if error.Some? {
        return;
      }
      ghost var m := State();
      var stream := Begin(session, status, target);
      var data, ok := ReadData(option);
      if !ok {
        return Some(Ended);
      }
      ghost var f := Frame(session, status, option, target, data);
      if stream.Some? && data.Some? && data.value != [] {
        var destination := if target.Some? && target.value.address.Address? then target.value.address else stream.value.destination;
        RecvTo(session, stream.value, data.value, destination);
      }
    }

    // What the handlers do in the meantime: some stop reading for good.
    method HandlersRun()
      modifies `gone
      ensures old(gone) <= gone
    {
      var stopped: set<nat> := *;
      gone := gone + stopped;
    }

    // recvLoop: frames until one fails. left is what was still to be read then,
    // gones who had stopped reading at each recv.
    method RecvLoop() returns (error: Error, ghost left: bytes, ghost gones: seq<set<nat>>)
      requires Valid()
      modifies this, conn
      ensures
        var e := Eat(codec, old(State()), old(conn.Coming()), gones);
        e.error == Some(error) && left == e.left && (left == [] ==> State() == e.m)
      ensures forall i :: 0 <= i < |gones| ==> old(gone) <= gones[i] <= gone
    {
      gones := [];
      ghost var m, s := State(), conn.Coming();
      while true
        invariant Valid() && old(gone) <= gone
        invariant forall i :: 0 <= i < |gones| ==> old(gone) <= gones[i] <= gone
        invariant Eat(codec, m, s, gones) == Eaten(State(), conn.Coming(), None)
        decreases |conn.Coming()|
      {
        hide Parse, Apply, Eat;
        left := conn.Coming();
        HandlersRun();
        EatOneMore(codec, m, s, gones, gone);
        gones := gones + [gone];
        var failure := Recv();
        if failure.Some? {
          return failure.value, left, gones;
        }
      }
    }
  }

  lemma CarriedIsNotEmpty(c: Codec)
    ensures forall network, destination, data :: data != [] ==> Carried(c, network, destination, data) != []
  {
  }

  // Frame after frame off a stream, up to the first that fails; gones says who
  // has stopped reading at each of them.
  datatype Eaten = Eaten(m: Mux, left: bytes, error: Option<Error>)

  function Eat(c: Codec, m: Mux, s: bytes, gones: seq<set<nat>>): (r: Eaten)
    requires m.Valid()
    ensures r.m.Valid()
    decreases |s|
  {
    if gones == [] then Eaten(m, s, None)
    else
      var r := Parse(c, s);
      if r.Failed? then Eaten(m, s, Some(r.error)) else Eat(c, Apply(c, m, r.frame, gones[0]), r.rest, gones[1..])
  }

  lemma {:induction false} EatOneMore(c: Codec, m: Mux, s: bytes, gones: seq<set<nat>>, gone: set<nat>)
    requires m.Valid()
    ensures
      var e := Eat(c, m, s, gones);
      var r := Parse(c, e.left);
      Eat(c, m, s, gones + [gone])
      == if e.error.Some? then e
         else if r.Failed? then Eaten(e.m, e.left, Some(r.error))
         else Eaten(Apply(c, e.m, r.frame, gone), r.rest, None)
    decreases |s|
  {
    hide Parse, Apply;
    var all := gones + [gone];
    if gones == [] {
      assert all == [gone] && all[1..] == [];
    } else {
      var r := Parse(c, s);
      NewIsTargeted(c, s);
      assert all[0] == gones[0] && all[1..] == gones[1..] + [gone];
      if r.Parsed? {
        EatOneMore(c, Apply(c, m, r.frame, gones[0]), r.rest, gones[1..], gone);
      }
    }
  }

  lemma NewIsTargeted(c: Codec, s: bytes)
    ensures Parse(c, s).Parsed? && Parse(c, s).frame.status == STATUS_NEW ==> Parse(c, s).frame.target.Some?
  {
  }

  // Frame alignment: of any well-formed frames whose data have 16-bit lengths,
  // the loop takes every one and nothing else, whoever stops reading.
  lemma {:induction false} EatsWholeFrames(c: Codec, m: Mux, fs: seq<Frame>, gones: seq<set<nat>>)
    requires Lawful(c) && m.Valid() && AllWellFormed(c, fs) && |gones| == |fs| + 1
    requires forall i :: 0 <= i < |fs| ==> Sendable(fs[i])
    ensures Eat(c, m, EncodeAll(c, fs), gones) == Eaten(Run(c, m, fs, gones[..|fs|]), [], Some(Ended))
    decreases |fs|
  {
    hide WellFormed, Apply, Encode;
    if fs == [] {
      assert Parse(c, []) == Failed(Ended);
    } else {
      hide Parse;
      assert WellFormed(c, fs[0]) && Sendable(fs[0]) && AllWellFormed(c, fs[1..]);
      NewHasTarget(c, fs[0]);
      FrameReadsBack(c, fs[0], EncodeAll(c, fs[1..]));
      assert gones[..|fs|][1..] == gones[1..][..|fs[1..]|];
      EatsWholeFrames(c, Apply(c, m, fs[0], gones[0]), fs[1..], gones[1..]);
    }
  }

  // The whole of it: from the bytes of any interleaving of sessions' frames,
  // each session ends up as its own frames and its own handler make it.
  lemma StreamDemultiplexes(c: Codec, fs: seq<Frame>, gones: seq<set<nat>>, s: word)
    requires Lawful(c) && AllWellFormed(c, fs) && |gones| == |fs| + 1
    requires forall i :: 0 <= i < |fs| ==> Sendable(fs[i])
    ensures View(Eat(c, EMPTY, EncodeAll(c, fs), gones).m, s) == RunAlone(c, None, Turns(c, EMPTY, fs, gones[..|fs|], s))
  {
    EatsWholeFrames(c, EMPTY, fs, gones);
    Demultiplexes(c, EMPTY, fs, gones[..|fs|], s);
  }

  // A packet in a pipe, as recvTo wrote it.
  datatype Packet = Packet(data: bytes, address: Addr)

  datatype PacketRead = PacketRead(packet: Packet, rest: bytes) | ShortBuffer | NoPacket

  // ReadFrom and ReadPacket with room for cap bytes.
  function ReadPacket(c: Codec, s: bytes, cap: nat): PacketRead {
    if |s| < 2 then NoPacket
    else
      var n := FromBE16(s[..2]);
      if n > cap then ShortBuffer
      else if |s| - 2 < n then NoPacket
      else
        match c.decode(s[2 + n..])
        case None => NoPacket
        case Some(decoded) =>
          if decoded.1 > |s[2 + n..]| then NoPacket
          else PacketRead(Packet(s[2..2 + n], decoded.0), s[2 + n..][decoded.1..])
  }

  // Packets keep their boundaries and addresses: one comes back, and the next
  // is next, exactly when it fits the reader's buffer.
  lemma PacketReadsBack(c: Codec, p: Packet, rest: bytes, cap: nat)
    requires Lawful(c) && Fits(p.address) && |p.data| < 0x10000
    ensures ReadPacket(c, Carried(c, NETWORK_UDP, p.address, p.data) + rest, cap) == PacketRead(p, rest)
            <==> |p.data| <= cap
  {
    var n, e := |p.data|, c.encode(p.address);
    var s := Carried(c, NETWORK_UDP, p.address, p.data) + rest;
    BE16RoundTrip(n);
    assert s[..2] == BE16(n) && s[2..2 + n] == p.data && s[2 + n..] == e + rest;
    assert (e + rest)[|e|..] == rest;
  }

  class PacketConn {
    const pipe: Source
    const codec: Codec

    constructor (pipe: Source, codec: Codec)
      ensures this.pipe == pipe && this.codec == codec
    {
      this.pipe, this.codec := pipe, codec;
    }

    method ReadFrom(p: array<byte>) returns (n: nat, address: Addr, ok: bool)
      modifies pipe, p
      ensures
        var r := ReadPacket(codec, old(pipe.Coming()), p.Length);
        && ok == r.PacketRead?
        && (ok ==> n <= p.Length && Packet(p[..n], address) == r.packet && pipe.Coming() == r.rest)
    {
      n, address := 0, NoAddress;
      ghost var s := pipe.Coming();
      var length;
      length, ok := ReadWord(pipe);
      if !ok {
        return;
      }
      if length > p.Length {
        return 0, NoAddress, false;
      }
      ok := pipe.ReadFull(p, length);
      if !ok {
        return;
      }
      assert s[2..2 + length] == p[..length] && s[2 + length..] == pipe.Coming();
      n := length;
      address, ok := ReadAddress();
    }

    method ReadAddress() returns (address: Addr, ok: bool)
      modifies pipe
      ensures
        var s := old(pipe.Coming());
        var d := codec.decode(s);
        && (ok <==> d.Some? && d.value.1 <= |s|)
        && (ok ==> address == d.value.0 && pipe.Coming() == s[d.value.1..])
    {
      address := NoAddress;
      var d := codec.decode(pipe.Peek());
      ok := d.Some? && d.value.1 <= |pipe.incoming|;
      if ok {
        address := d.value.0;
        var used := pipe.Take(d.value.1);
      }
    }
  }
}
