// Vision connections of vless/vision.go: padded blocks at first, then either
// plain bytes under encryption or raw bytes beside it.
module Vision {
  import opened Bytes
  import opened VisionFormat
  import opened VisionStream
  import opened VisionSwitch
  import Net
  import VisionFilter

  const CHUNK_SIZE := 8192

  // The encrypted connection under Vision (a tls.Conn or a CommonConn) with the
  // two fields Vision reaches into. Opening the last record may already have
  // taken raw bytes that follow it off the transport.
  class Outer {
    const net: Net.Conn
    var records: seq<bytes>
    var input: bytes
    var rawInput: bytes
    var sent: bytes

    constructor (net: Net.Conn, records: seq<bytes>)
      ensures this.net == net && this.records == records && input == [] && rawInput == [] && sent == []
    {
      this.net, this.records := net, records;
      input, rawInput, sent := [], [], [];
    }

    ghost predicate Valid()
      reads this
    {
      && (forall i :: 0 <= i < |records| ==> records[i] != [])
      && (rawInput != [] ==> records == [])
    }

    // The plaintext still to come.
    ghost function Incoming(): bytes
      reads this
    {
      input + Flatten(records)
    }

    // What follows the last record undecrypted.
    ghost function Raw(): bytes
      reads this, net
    {
      rawInput + net.incoming
    }

    // What the next Read into size bytes gives: of one record, or of what is
    // left of it.
    ghost function NextPiece(size: nat): bytes
      reads this
    {
      var record := if input != [] || records == [] then input else records[0];
      record[..Min(size, |record|)]
    }

    method Write(b: bytes)
      modifies `sent
      ensures sent == old(sent) + b
    {
      sent := sent + b;
    }

    method NextRecord()
      requires Valid() && input == []
      modifies `records, `input, `rawInput, net`incoming
      ensures Valid()
      ensures Incoming() == old(Incoming()) && Raw() == old(Raw())
      ensures forall size: nat :: NextPiece(size) == old(NextPiece(size))
      ensures input == [] <==> old(Incoming()) == []
    {
      if records != [] {
        input, records := records[0], records[1..];
        if records == [] {
          var ahead :| 0 <= ahead <= |net.incoming|;
          rawInput, net.incoming := rawInput + net.incoming[..ahead], net.incoming[ahead..];
        }
      }
    }

    // At most one record per call; nothing only at the end of the stream.
    method Read(p: array<byte>) returns (n: nat)
      requires Valid() && p.Length > 0
      modifies `records, `input, `rawInput, net`incoming, p
      ensures Valid()
      ensures n <= p.Length && p[..n] + Incoming() == old(Incoming()) && p[..n] == old(NextPiece(p.Length))
      ensures forall k :: n <= k < p.Length ==> p[k] == old(p[k])
      ensures n == 0 <==> old(Incoming()) == []
      ensures Raw() == old(Raw())
    {
      if input == [] {
        NextRecord();
      }
      n := Min(p.Length, |input|);
      var piece, rest := input[..n], input[n..];
      assert input + Flatten(records) == piece + (rest + Flatten(records));
      input := rest;
      Net.Store(p, 0, piece);
    }
  }

  // A buffer of the reader: its own memory, or a view of the chunk buffer.
  datatype Slice = Owned(text: bytes) | View(lo: nat, hi: nat)

  predicate Fits(s: Slice, memory: bytes) {
    s.View? ==> s.lo <= s.hi <= |memory|
  }

  function Text(s: Slice, memory: bytes): bytes
    requires Fits(s, memory)
  {
    match s
    case Owned(text) => text
    case View(lo, hi) => memory[lo..hi]
  }

  predicate AllFit(buffers: seq<Slice>, memory: bytes) {
    forall i :: 0 <= i < |buffers| ==> Fits(buffers[i], memory)
  }

  function Texts(buffers: seq<Slice>, memory: bytes): bytes
    requires AllFit(buffers, memory)
  {
    if buffers == [] then [] else Text(buffers[0], memory) + Texts(buffers[1..], memory)
  }

  // A buffer's memory after reading piece into it.
  function Over(piece: bytes, memory: bytes): (r: bytes)
    ensures |r| == |memory|
  {
    if |piece| <= |memory| then piece + memory[|piece|..] else memory
  }

  lemma OverNothing(memory: bytes)
    ensures Over([], memory) == memory
  {
  }

  // What is left when an empty first buffer is dropped.
  function Dropped(buffers: seq<Slice>, memory: bytes): (r: seq<Slice>)
    requires AllFit(buffers, memory)
    ensures AllFit(r, memory)
  {
    if buffers != [] && Text(buffers[0], memory) == [] then buffers[1..] else buffers
  }

  lemma HeadStays(buffers: seq<Slice>, memory: bytes)
    requires AllFit(buffers, memory) && buffers != []
    ensures Dropped(buffers, memory)
            == if Text(buffers[0], memory) == [] then buffers[1..]
               else [Skip(buffers[0], 0, memory)] + buffers[1..]
  {
    var first := buffers[0];
    if first.Owned? {
      assert first.text[0..] == first.text;
    }
    assert Skip(first, 0, memory) == first && [first] + buffers[1..] == buffers;
  }

  lemma {:induction false} ViewFollows(buffers: seq<Slice>, memory: bytes, n: nat)
    requires AllFit(buffers, memory) && n <= |memory|
    ensures
      var after := buffers + [View(0, n)];
      AllFit(after, memory) && Texts(after, memory) == Texts(buffers, memory) + memory[..n]
    decreases |buffers|
  {
    var after := buffers + [View(0, n)];
    if buffers == [] {
      assert after == [View(0, n)] && Texts([], memory) == [];
    } else {
      ViewFollows(buffers[1..], memory, n);
      assert after[1..] == buffers[1..] + [View(0, n)] && after[0] == buffers[0];
      Assoc(Text(buffers[0], memory), Texts(buffers[1..], memory), memory[..n]);
    }
  }

  lemma NoTexts()
    ensures forall memory :: Texts([], memory) == []
  {
  }

  function Own(buffers: seq<bytes>): (r: seq<Slice>)
    ensures |r| == |buffers| && forall i :: 0 <= i < |r| ==> r[i] == Owned(buffers[i])
  {
    seq(|buffers|, i requires 0 <= i < |buffers| => Owned(buffers[i]))
  }

  // The texts of buffers that have their own memory.
  function Held(buffers: seq<Slice>): (r: seq<bytes>)
    ensures |r| == |buffers| && forall i :: 0 <= i < |r| && buffers[i].Owned? ==> r[i] == buffers[i].text
  {
    seq(|buffers|, i requires 0 <= i < |buffers| => if buffers[i].Owned? then buffers[i].text else [])
  }

  lemma {:induction false} OwnedTexts(buffers: seq<bytes>, memory: bytes)
    ensures AllFit(Own(buffers), memory) && Texts(Own(buffers), memory) == Flatten(buffers)
  {
    if buffers != [] {
      OwnedTexts(buffers[1..], memory);
      assert Own(buffers)[1..] == Own(buffers[1..]);
    }
  }

  // What the sender has put on its two ways out, and what it was given.
  ghost predicate Sent(id: bytes, inner: bytes, raw: bytes, isPadding: bool, writeUUID: bool, direct: bool, written: bytes) {
    && |id| == ID_LENGTH
    && (isPadding ==> !direct)
    && (!direct ==> raw == [])
    && if writeUUID then isPadding && inner == [] && written == []
       else
         && |inner| >= OPENING_LENGTH && inner[..ID_LENGTH] == id
         && Proper(START, inner[ID_LENGTH..])
         && After(START, inner[ID_LENGTH..])
            == Unpadder(0, 0, if isPadding then CONTINUE else if direct then DIRECT else END, [])
         && written == Emit(START, inner[ID_LENGTH..]) + raw
  }

  // What the sender was given is what a fresh reader has to return.
  lemma WrittenIsFuture(id: bytes, inner: bytes, raw: bytes, isPadding: bool, writeUUID: bool, direct: bool, written: bytes)
    requires Sent(id, inner, raw, isPadding, writeUUID, direct, written)
    ensures Future(Fresh, inner, raw) == written && Regular(Fresh, inner, raw)
  {
  }

  // The whole-stream round trip: however the encrypted stream is cut into
  // pieces, what they yield and then the raw bytes are exactly what was written.
  lemma WrittenIsYielded(id: bytes, pieces: seq<Piece>, raw: bytes, isPadding: bool, writeUUID: bool, direct: bool, written: bytes)
    requires Sent(id, Data(pieces), raw, isPadding, writeUUID, direct, written)
    requires Orderly(id, Fresh, pieces)
    ensures YieldAll(id, Fresh, pieces) + raw == written
    ensures !FedAll(id, Fresh, pieces).Failed?
  {
    WrittenIsFuture(id, Data(pieces), raw, isPadding, writeUUID, direct, written);
    hide Sent;
    assert Data(pieces) + [] == Data(pieces);
    AnyPieces(id, Fresh, pieces, [], raw);
    var end := FedAll(id, Fresh, pieces);
    if !end.Direct? {
      NothingIsLeft(end, raw);
    }
  }

  // One more block at the end of the padded phase.
  lemma BlockFollows(s: bytes, command: byte, content: bytes, padding: bytes)
    requires Proper(START, s) && After(START, s) == START
    requires command <= DIRECT && |content| < 0x10000 && |padding| < 0x10000
    ensures
      var t := s + Block(command, content, padding);
      && Emit(START, t) == Emit(START, s) + content
      && After(START, t) == Unpadder(0, 0, command, [])
      && Proper(START, t)
  {
    hide Emit, After, Proper, Block;
    BlockDecodes(START, command, content, padding);
    Glue(START, s, Block(command, content, padding));
  }

  class VisionConn {
    const conn: Outer
    const net: Net.Conn
    const userUUID: bytes
    const filter: VisionFilter.Filter
    const chunk: array<byte>

    // The writing half.
    var isPadding: bool
    var writeUUID: bool
    var directWrite: bool
    var writerIsDirect: bool
    ghost var written: bytes

    // The reading half.
    var withinPaddingBuffers: bool
    var remainingContent: int
    var remainingPadding: int
    var currentCommand: byte
    var paddingHeader: bytes
    var paddingHeaderLen: nat
    var directRead: bool
    var remainingBuffers: seq<Slice>

    constructor (conn: Outer, userUUID: bytes)
      requires |userUUID| == 16 && conn.sent == [] && conn.net.sent == [] && conn.Valid()
      ensures this.conn == conn && this.userUUID == userUUID && fresh(filter) && fresh(chunk)
      ensures ValidWriter() && written == [] && isPadding && writeUUID && !directWrite
      ensures filter.State() == VisionFilter.UNDETECTED && filter.seen == [] && filter.Valid()
      ensures ValidReader() && State() == Fresh && remainingBuffers == []
    {
      this.conn, this.net, this.userUUID := conn, conn.net, userUUID;
      filter := new VisionFilter.Filter();
      chunk := new byte[CHUNK_SIZE];
      isPadding, writeUUID, directWrite, writerIsDirect, written := true, true, false, false, [];
      withinPaddingBuffers, remainingContent, remainingPadding, currentCommand := true, -1, -1, 0;
      paddingHeader, paddingHeaderLen, directRead, remainingBuffers := [0, 0, 0, 0, 0], 0, false, [];
    }

    ghost predicate ValidWriter()
      reads this, conn, net
    {
      && net == conn.net
      && writerIsDirect == directWrite
      && Sent(userUUID, conn.sent, net.sent, isPadding, writeUUID, directWrite, written)
    }

    lemma NothingRawYet()
      requires ValidWriter() && isPadding
      ensures !directWrite && net.sent == []
    {
    }

    // One block, after the id when it is the first; the padding is what the
    // new buffer happened to hold.
    method Padding(buffer: bytes, command: byte) returns (block: bytes, ghost padding: bytes)
      requires |buffer| <= BUFFER_LIMIT
      modifies `writeUUID
      ensures |padding| < 0x10000 && Allowed(filter.isTLS, buffer, padding)
      ensures block == (if old(writeUUID) then userUUID else []) + Block(command, buffer, padding)
      ensures !writeUUID
    {
      var paddingLen: nat;
      if |buffer| < 900 && filter.isTLS {
        var l :| 0 <= l < 500;
        paddingLen := l + 900 - |buffer|;
      } else {
        var l :| 0 <= l < 256;
        paddingLen := l;
      }
      var fill := new byte[paddingLen];
      padding := fill[..];
      block := if writeUUID then userUUID else [];
      writeUUID := false;
      block := block + ([command] + BE16(|buffer|) + BE16(paddingLen));
      block := block + buffer + fill[..];
      var head := if old(writeUUID) then userUUID else [];
      assert block == head + ([command] + (BE16(|buffer|) + (BE16(|padding|) + (buffer + padding))));
    }

    method WriteVectorised(buffers: seq<bytes>)
      requires net == conn.net
      modifies conn`sent, net`sent
      ensures if writerIsDirect
              then conn.sent == old(conn.sent) && net.sent == old(net.sent) + Flatten(buffers)
              else conn.sent == old(conn.sent) + Flatten(buffers) && net.sent == old(net.sent)
    {
      if writerIsDirect {
        net.Write(Flatten(buffers));
      } else {
        conn.Write(Flatten(buffers));
      }
    }

    // The loop body of Write: pads one piece and chooses its command.
    method PadNext(buffer: bytes, ghost inner: bytes, ghost given: bytes) returns (block: bytes, ghost padding: bytes)
      requires |buffer| <= BUFFER_LIMIT
      requires isPadding && !directWrite && Sent(userUUID, inner, [], true, writeUUID, false, given)
      modifies `isPadding, `writeUUID, `directWrite
      ensures Sent(userUUID, inner + block, [], isPadding, writeUUID, directWrite, given + buffer)
      ensures isPadding ==> !directWrite
      ensures Allowed(filter.isTLS, buffer, padding) && !writeUUID
      ensures
        var d := filter.State();
        && (isPadding <==> !Ends(d, buffer)) && (directWrite <==> Switches(d, buffer))
        && block == (if old(writeUUID) then userUUID else []) + Block(Command(d, buffer), buffer, padding)
    {
      hide Emit, After, Proper, Block, Allowed;
      var command := CONTINUE;
      if filter.isTLS && |buffer| > 6 && buffer[..3] == APPLICATION_DATA {
        command := END;
        if filter.enableXTLS {
          directWrite := true;
          command := DIRECT;
        }
        isPadding := false;
      } else if !filter.isTLS12orAbove && filter.numberOfPacketToFilter <= 1 {
        isPadding := false;
        command := END;
      }
      ghost var first := writeUUID;
      block, padding := Padding(buffer, command);
      PaddedSent(userUUID, inner, first, given, command, buffer, padding);
    }

    method PadBuffers(pieces: seq<bytes>)
      returns (buffers: seq<bytes>, specIndex: nat, ghost padded: nat, ghost paddings: seq<bytes>)
      requires ValidWriter() && isPadding && pieces != []
      requires forall i :: 0 <= i < |pieces| ==> |pieces[i]| <= BUFFER_LIMIT
      modifies `isPadding, `writeUUID, `directWrite
      ensures |buffers| == |pieces| && padded == Padded(filter.State(), pieces)
      ensures buffers[padded..] == pieces[padded..]
      ensures isPadding ==> padded == |pieces|
      ensures directWrite ==> padded == specIndex + 1
      ensures Sent(userUUID, conn.sent + Flatten(buffers[..padded]), [], isPadding, writeUUID, directWrite,
                   written + Flatten(pieces[..padded]))
      ensures
        var d := filter.State();
        && (isPadding <==> !Ends(d, pieces[padded - 1])) && (directWrite <==> Switches(d, pieces[padded - 1])) && !writeUUID
        && AllAllowed(d.isTLS, pieces[..padded], paddings)
        && Flatten(buffers[..padded]) == (if old(writeUUID) then userUUID else []) + Blocks(d, pieces[..padded], paddings)
    {
      hide Sent, Ends, Switches, Command, Block, Blocks, AllAllowed, Allowed, Padded, Flatten;
      NothingRawYet();
      ghost var d, head := filter.State(), if writeUUID then userUUID else [];
      buffers, specIndex, padded, paddings := pieces, 0, 0, [];
      NoBlocks(d);
      assert pieces[..0] == [] && conn.sent + [] == conn.sent && written + [] == written;
      for i := 0 to |pieces|
        invariant |buffers| == |pieces| && buffers[i..] == pieces[i..] && padded == i == |paddings|
        invariant isPadding && !directWrite && writeUUID == (if i == 0 then old(writeUUID) else false)
        invariant Sent(userUUID, conn.sent + Flatten(buffers[..i]), [], true, writeUUID, false,
                       written + Flatten(pieces[..i]))
        invariant forall j :: 0 <= j < i ==> !Ends(d, pieces[j])
        invariant AllAllowed(d.isTLS, pieces[..i], paddings)
        invariant Flatten(buffers[..i]) == (if i == 0 then [] else head + Blocks(d, pieces[..i], paddings))
      {
        assert buffers[i] == pieces[i] && buffers[i + 1..] == pieces[i + 1..];
        ghost var before := buffers;
        var block;
        ghost var padding;
        block, padding := PadNext(buffers[i], conn.sent + Flatten(before[..i]), written + Flatten(pieces[..i]));
        buffers := buffers[i := block];
        OneMore(conn.sent, before, buffers, i, block);
        OneMore(written, pieces, pieces, i, pieces[i]);
        OneMoreIs(head, d, before, buffers, i, pieces, paddings, block, padding);
        padded, paddings := i + 1, paddings + [padding];
        if !isPadding {
          specIndex := i;
          PaddedIs(d, pieces, padded);
          return;
        }
      }
      PaddedIs(d, pieces, padded);
      assert !Ends(d, pieces[padded - 1]);
      SwitchEnds(d, pieces[padded - 1]);
    }

    // Once the padding is over, bytes go out as they are, on one way or the
    // other; before that a Write is cut into pieces, the first of which are
    // padded, up to the one that ends it.
    method Write(p: bytes) returns (n: nat)
      requires ValidWriter()
      modifies `isPadding, `writeUUID, `directWrite, `writerIsDirect, `written, filter, conn`sent, net`sent
      ensures ValidWriter() && n == |p| && written == old(written) + p
      ensures if old(filter.numberOfPacketToFilter) > 0
              then filter.State() == VisionFilter.Filtered(old(filter.State()), [p]) && filter.seen == old(filter.seen) + [[p]]
              else filter.State() == old(filter.State()) && filter.seen == old(filter.seen)
      ensures old(filter.Valid()) ==> filter.Valid()
      ensures !old(isPadding) ==>
                && !isPadding && directWrite == old(directWrite) && writeUUID == old(writeUUID)
                && conn.sent == old(conn.sent) + (if directWrite then [] else p)
                && net.sent == old(net.sent) + (if directWrite then p else [])
      ensures old(isPadding) ==>
                var d, pieces := filter.State(), Reshape(p);
                var k := Padded(d, pieces);
                && 0 < k && (isPadding <==> !Ends(d, pieces[k - 1])) && (directWrite <==> Switches(d, pieces[k - 1])) && !writeUUID
                && (exists paddings: seq<bytes> ::
                      && AllAllowed(d.isTLS, pieces[..k], paddings)
                      && conn.sent == old(conn.sent)
                                      + (((if old(writeUUID) then userUUID else []) + Blocks(d, pieces[..k], paddings))
                                         + (if directWrite then [] else Flatten(pieces[k..]))))
                && net.sent == (if directWrite then Flatten(pieces[k..]) else [])
    {
      hide Sent, Ends, Switches, Blocks, AllAllowed, Flatten, Reshape, VisionFilter.Filtered, VisionFilter.Filter.Valid;
      if filter.numberOfPacketToFilter > 0 {
        filter.FilterTLS([p]);
      }
      if isPadding {
        ghost var paddings := WritePadded(p);
      } else {
        PlainFollows(userUUID, conn.sent, net.sent, directWrite, written, p, writeUUID);
        assert conn.sent + [] == conn.sent && net.sent + [] == net.sent;
        if directWrite {
          net.Write(p);
        } else {
          conn.Write(p);
        }
        written := written + p;
      }
      n := |p|;
    }

    method WritePadded(p: bytes) returns (ghost paddings: seq<bytes>)
      requires ValidWriter() && isPadding
      modifies `isPadding, `writeUUID, `directWrite, `writerIsDirect, `written, conn`sent, net`sent
      ensures ValidWriter() && written == old(written) + p
      ensures
        var d, pieces := filter.State(), Reshape(p);
        var k := Padded(d, pieces);
        && 0 < k && (isPadding <==> !Ends(d, pieces[k - 1])) && (directWrite <==> Switches(d, pieces[k - 1])) && !writeUUID
        && AllAllowed(d.isTLS, pieces[..k], paddings)
        && conn.sent == old(conn.sent)
                        + (((if old(writeUUID) then userUUID else []) + Blocks(d, pieces[..k], paddings))
                           + (if directWrite then [] else Flatten(pieces[k..])))
        && net.sent == (if directWrite then Flatten(pieces[k..]) else [])
    {
      hide Ends, Switches, Blocks, AllAllowed, Padded, Sent, Reshape, Flatten;
      NothingRawYet();
      var pieces := ReshapeBuffer(p);
      ReshapeKeepsBytes(p);
      var buffers, specIndex;
      ghost var padded;
      buffers, specIndex, padded, paddings := PadBuffers(pieces);
      SwitchEnds(filter.State(), pieces[padded - 1]);
      PaddedAndRest(userUUID, conn.sent, written, p, pieces, buffers, padded, isPadding, writeUUID, directWrite);
      SentInTwo(conn.sent, buffers, pieces, padded);
      SendBuffers(buffers, specIndex);
      written := written + p;
    }

    // The buffers up to the direct block under encryption, the others beside it.
    method SendBuffers(all: seq<bytes>, specIndex: nat)
      requires net == conn.net && !writerIsDirect && net.sent == []
      requires directWrite ==> specIndex < |all|
      modifies `writerIsDirect, conn`sent, net`sent
      ensures writerIsDirect == directWrite
      ensures if directWrite
              then conn.sent == old(conn.sent) + Flatten(all[..specIndex + 1]) && net.sent == Flatten(all[specIndex + 1..])
              else conn.sent == old(conn.sent) + Flatten(all) && net.sent == []
    {
      hide Flatten;
      FlattenOne([]);
      var buffers := all;
      if directWrite {
        WriteVectorised(buffers[..specIndex + 1]);
        buffers := buffers[specIndex + 1..];
        writerIsDirect := true;
      }
      if |buffers| > 0 {
        WriteVectorised(buffers);
      } else {
        assert conn.sent + [] == conn.sent;
      }
    }

    // The reading half's fields, apart from what is buffered.
    ghost predicate Shape()
      reads this
    {
      && |paddingHeader| == BLOCK_HEADER_LENGTH && paddingHeaderLen < BLOCK_HEADER_LENGTH
      && -1 <= remainingContent && -1 <= remainingPadding && (remainingContent == -1 <==> remainingPadding == -1)
      && (remainingContent == -1 ==> paddingHeaderLen == 0)
    }

    ghost predicate Unpadding()
      reads this
    {
      Shape() && remainingContent >= 0 && Current().Valid()
    }

    ghost function Current(): Unpadder
      requires Shape() && remainingContent >= 0
      reads this
    {
      Unpadder(remainingContent, remainingPadding, currentCommand, paddingHeader[..paddingHeaderLen])
    }

    ghost function State(): Reader
      requires Shape()
      reads this
    {
      if directRead then Direct
      else if remainingContent >= 0 then Within(Current())
      else if withinPaddingBuffers then Fresh else Plain
    }

    ghost predicate ValidReader()
      reads this, conn, chunk
    {
      && net == conn.net && conn.Valid() && chunk.Length == CHUNK_SIZE && |userUUID| == ID_LENGTH
      && Shape() && State().Valid()
      && (remainingContent >= 0 && !directRead ==> withinPaddingBuffers)
      && AllFit(remainingBuffers, chunk[..]) && (directRead ==> conn.rawInput == [])
    }

    // Everything Read has still to return.
    ghost function Rest(): bytes
      requires ValidReader()
      reads this, conn, net, chunk
    {
      Texts(remainingBuffers, chunk[..]) + Future(State(), conn.Incoming(), conn.Raw())
    }

    ghost predicate Good()
      requires ValidReader()
      reads this, conn, net, chunk
    {
      Regular(State(), conn.Incoming(), conn.Raw())
    }

    // The loop body of unPadding.
    method UnpadTurn(buffer: bytes, index: nat) returns (next: nat, out: seq<bytes>)
      requires Unpadding() && index < |buffer|
      modifies `remainingContent, `remainingPadding, `currentCommand, `paddingHeader, `paddingHeaderLen
      ensures Unpadding() && index < next <= |buffer|
      ensures Flatten(out) == Emit(old(Current()), buffer[index..next])
      ensures Current() == After(old(Current()), buffer[index..next])
    {
      hide Emit, After;
      ghost var u := Current();
      out := [];
      assert Flatten([]) == [] && forall s :: Flatten([s]) == s + Flatten([]);
      if remainingContent <= 0 && remainingPadding <= 0 {
        if currentCommand == END {
          next := |buffer|;
          EndPassesAll(u, buffer[index..next]);
          out := [buffer[index..]];
        } else {
          var headerLen := Min(BLOCK_HEADER_LENGTH - paddingHeaderLen, |buffer| - index);
          next := index + headerLen;
          HeaderIsNoted(u, buffer[index..next]);
          NoteHeader(buffer[index..next]);
        }
      } else if remainingContent > 0 {
        var end := Min(remainingContent, |buffer| - index);
        next := index + end;
        ContentPasses(u, buffer[index..next]);
        out := [buffer[index..next]];
        remainingContent := remainingContent - end;
      } else {
        var end := Min(remainingPadding, |buffer| - index);
        next := index + end;
        PaddingIsDropped(u, buffer[index..next]);
        remainingPadding := remainingPadding - end;
      }
    }

    // Header bytes, up to the end of the header.
    method NoteHeader(s: bytes)
      requires Unpadding() && Current().Idle() && currentCommand != END
      requires paddingHeaderLen + |s| <= BLOCK_HEADER_LENGTH
      modifies `remainingContent, `remainingPadding, `currentCommand, `paddingHeader, `paddingHeaderLen
      ensures Unpadding() && Current() == AfterHeader(old(Current()), s)
    {
      var held := paddingHeaderLen + |s|;
      paddingHeader := paddingHeader[..paddingHeaderLen] + s + paddingHeader[held..];
      assert paddingHeader[..held] == old(Current()).header + s;
      paddingHeaderLen := held;
      if held == BLOCK_HEADER_LENGTH {
        assert paddingHeader == old(Current()).header + s;
        paddingHeaderLen := 0;
        currentCommand := paddingHeader[0];
        remainingContent := FromBE16(paddingHeader[1..3]);
        remainingPadding := FromBE16(paddingHeader[3..5]);
      }
    }

    method UnpadFrom(buffer: bytes, start: nat) returns (buffers: seq<bytes>)
      requires Unpadding() && start <= |buffer|
      modifies `remainingContent, `remainingPadding, `currentCommand, `paddingHeader, `paddingHeaderLen
      ensures Unpadding()
      ensures Flatten(buffers) == Emit(old(Current()), buffer[start..])
      ensures Current() == After(old(Current()), buffer[start..])
    {
      hide Flatten;
      FlattenOne([]);
      ghost var u := Current();
      buffers := [];
      var bufferIndex := start;
      while bufferIndex < |buffer|
        invariant Unpadding() && start <= bufferIndex <= |buffer|
        invariant Flatten(buffers) == Emit(u, buffer[start..bufferIndex])
        invariant Current() == After(u, buffer[start..bufferIndex])
      {
        ghost var at := bufferIndex;
        var out;
        bufferIndex, out := UnpadTurn(buffer, bufferIndex);
        EmitAppend(u, buffer[start..at], buffer[at..bufferIndex]);
        Cut(buffer, start, at, bufferIndex);
        FlattenAppend(buffers, out);
        buffers := buffers + out;
      }
      assert buffer[start..bufferIndex] == buffer[start..];
    }

    method UnPadding(buffer: bytes) returns (buffers: seq<bytes>)
      requires Shape() && State().Valid() && !directRead && |userUUID| == ID_LENGTH
      modifies `remainingContent, `remainingPadding, `currentCommand, `paddingHeader, `paddingHeaderLen
      ensures Shape()
      ensures
        if Parsed(userUUID, old(State()), buffer, true)
        then
          && Unpadding()
          && Current() == After(Beginning(old(State())), Parse(old(State()), buffer))
          && Flatten(buffers) == Emit(Beginning(old(State())), Parse(old(State()), buffer))
        else
          && buffers == [buffer] && remainingContent == old(remainingContent) && State() == old(State())
    {
      hide Emit, After;
      var bufferIndex := 0;
      if remainingContent == -1 && remainingPadding == -1 {
        if |buffer| >= OPENING_LENGTH && userUUID == buffer[..ID_LENGTH] {
          bufferIndex := ID_LENGTH;
          remainingContent, remainingPadding, currentCommand := 0, 0, 0;
        }
      }
      if remainingContent == -1 && remainingPadding == -1 {
        return [buffer];
      }
      assert buffer[0..] == buffer;
      buffers := UnpadFrom(buffer, bufferIndex);
    }

    // After a direct block: what the connection underneath holds, in the order
    // it arrived.
    method TakeHeld(buffers: seq<bytes>) returns (more: seq<bytes>)
      requires conn.Valid() && net == conn.net
      modifies conn`input, conn`rawInput
      ensures conn.Valid() && conn.input == [] && conn.rawInput == [] && |conn.Incoming()| <= |old(conn.Incoming())|
      ensures Flatten(more) == Flatten(buffers) + (old(conn.input) + old(conn.rawInput))
      ensures Regular(Direct, old(conn.Incoming()), old(conn.Raw())) ==>
                && Regular(Direct, conn.Incoming(), conn.Raw())
                && Flatten(more) + Future(Direct, conn.Incoming(), conn.Raw())
                   == Flatten(buffers) + Future(Direct, old(conn.Incoming()), old(conn.Raw()))
    {
      hide Flatten;
      HeldFollows(buffers, conn.input, conn.rawInput, Flatten(conn.records), net.incoming);
      AllHeldFollows(buffers, conn.input, conn.rawInput);
      more := buffers + [conn.input] + [conn.rawInput];
      conn.input, conn.rawInput := [], [];
      assert [] + net.incoming == net.incoming;
    }

    // The phase after a piece has been parsed, or found not to be padded. After
    // a direct block what the connection underneath holds is taken over.
    method Switch(buffers: seq<bytes>) returns (more: seq<bytes>, failed: bool)
      requires net == conn.net && conn.Valid() && Shape() && !directRead
      requires remainingContent >= 0 ==> Current().Valid()
      modifies `remainingContent, `remainingPadding, `withinPaddingBuffers, `directRead, conn`input, conn`rawInput
      ensures
        var t := if old(remainingContent) >= 0 then Settle(old(Current())) else Plain;
        && (failed <==> t.Failed?)
        && (!failed ==>
          && Shape() && conn.Valid() && State() == t
          && Flatten(more) == Flatten(buffers) + (if directRead then old(conn.input) + old(conn.rawInput) else [])
          && (remainingContent >= 0 && !directRead ==> withinPaddingBuffers) && (directRead ==> conn.rawInput == [])
          && |conn.Incoming()| <= |old(conn.Incoming())| && (!directRead ==> conn.Incoming() == old(conn.Incoming()))
          && (Regular(t, old(conn.Incoming()), old(conn.Raw())) ==>
               && Regular(t, conn.Incoming(), conn.Raw())
               && Flatten(more) + Future(t, conn.Incoming(), conn.Raw())
                  == Flatten(buffers) + Future(t, old(conn.Incoming()), old(conn.Raw()))))
    {
      hide Flatten, Regular, Future;
      more, failed := buffers, false;
      assert Flatten(buffers) + [] == Flatten(buffers);
      if remainingContent == 0 && remainingPadding == 0 {
        if currentCommand == END {
          withinPaddingBuffers := false;
          remainingContent, remainingPadding := -1, -1;
        } else if currentCommand == DIRECT {
          withinPaddingBuffers, directRead := false, true;
          more := TakeHeld(buffers);
        } else if currentCommand == CONTINUE {
          withinPaddingBuffers := true;
        } else {
          failed := true;
        }
      } else if remainingContent > 0 || remainingPadding > 0 {
        withinPaddingBuffers := true;
      } else {
        withinPaddingBuffers := false;
      }
    }

    // What Read does with a piece while it still parses or filters.
    method Digest(piece: bytes) returns (buffers: seq<bytes>, failed: bool, ghost filtering: bool)
      requires ValidReader() && !directRead
      requires withinPaddingBuffers || filter.numberOfPacketToFilter > 0
      modifies `remainingContent, `remainingPadding, `currentCommand, `paddingHeader, `paddingHeaderLen
      modifies `withinPaddingBuffers, `directRead, filter, conn`input, conn`rawInput
      ensures filtering == (old(filter.numberOfPacketToFilter) > 0)
      ensures if filtering && !failed
              then filter.State() == VisionFilter.Filtered(old(filter.State()), buffers) && filter.seen == old(filter.seen) + [buffers]
              else unchanged(filter)
      ensures old(filter.Valid()) ==> filter.Valid()
      ensures
        var t := Fed(userUUID, old(State()), piece, filtering);
        && (failed <==> t.Failed?)
        && (!failed ==>
          && ValidReader() && State() == t
          && |conn.Incoming()| <= |old(conn.Incoming())| && (!directRead ==> conn.Incoming() == old(conn.Incoming()))
          && Flatten(buffers) == Yield(userUUID, old(State()), piece, filtering)
                                 + (if directRead then old(conn.input) + old(conn.rawInput) else [])
          && (Regular(t, old(conn.Incoming()), old(conn.Raw())) ==>
               && Good()
               && Flatten(buffers) + Future(t, conn.Incoming(), conn.Raw())
                  == Yield(userUUID, old(State()), piece, filtering) + Future(t, old(conn.Incoming()), old(conn.Raw()))))
    {
      hide Emit, After, Opens, Flatten, Regular, Future, Settle, VisionFilter.Filtered, VisionFilter.Filter.Valid;
      FlattenOne(piece);
      filtering := filter.numberOfPacketToFilter > 0;
      buffers := UnPadding(piece);
      buffers, failed := Switch(buffers);
      if !failed && filter.numberOfPacketToFilter > 0 {
        filter.FilterTLS(buffers);
      }
    }

    // Copies held bytes out, dropping buffers as they become empty; with no
    // room for any it looks at the first buffer only.
    method Drain(p: array<byte>) returns (n: nat)
      requires ValidReader() && p != chunk
      modifies `remainingBuffers, p
      ensures ValidReader() && n <= p.Length
      ensures p[..n] + Texts(remainingBuffers, chunk[..]) == old(Texts(remainingBuffers, chunk[..]))
      ensures n == 0 && p.Length > 0 ==> remainingBuffers == []
      ensures p.Length == 0 ==> remainingBuffers == Dropped(old(remainingBuffers), chunk[..])
    {
      hide Texts, Text;
      n := 0;
      ghost var all := Texts(remainingBuffers, chunk[..]);
      assert p[..0] + all == all;
      while remainingBuffers != []
        invariant ValidReader() && n <= p.Length && (p.Length > 0 ==> n < p.Length)
        invariant p.Length == 0 ==> remainingBuffers == old(remainingBuffers)
        invariant p[..n] + Texts(remainingBuffers, chunk[..]) == all
        decreases |remainingBuffers|
      {
        var newN, buffers := DrainTurn(remainingBuffers, chunk[..], p, n, p[..n]);
        remainingBuffers := buffers;
        n := n + newN;
        if n == p.Length {
          break;
        }
      }
    }

    // How much Read asks the connection underneath for.
    function Asked(room: nat): nat {
      if room > CHUNK_SIZE then room else CHUNK_SIZE
    }

    // Pieces pass unparsed.
    ghost predicate Passing()
      reads this, filter
    {
      !withinPaddingBuffers && filter.numberOfPacketToFilter <= 0
    }

    // A reader that has seen nothing yet finds the id and a header at once.
    ghost predicate OpeningComes()
      requires Shape()
      reads this, conn
    {
      State().Fresh? ==> conn.Incoming() == [] || Opens(userUUID, conn.NextPiece(CHUNK_SIZE))
    }

    // A piece of the connection underneath, into p or into the chunk buffer.
    method ReadPiece(p: array<byte>) returns (n: nat, piece: bytes)
      requires ValidReader() && p != chunk && !directRead
      modifies conn`input, conn`rawInput, conn`records, net`incoming, p, chunk
      ensures ValidReader() && State() == old(State())
      ensures n == |piece| && piece + conn.Incoming() == old(conn.Incoming()) && piece == old(conn.NextPiece(Asked(p.Length)))
      ensures n == 0 <==> old(conn.Incoming()) == []
      ensures conn.Raw() == old(conn.Raw())
      ensures if p.Length > CHUNK_SIZE then n <= p.Length && p[..n] == piece && chunk[..] == old(chunk[..])
              else n <= CHUNK_SIZE && chunk[..] == Over(piece, old(chunk[..]))
    {
      if p.Length > CHUNK_SIZE {
        n := conn.Read(p);
        piece := p[..n];
      } else {
        ghost var memory := chunk[..];
        n := conn.Read(chunk);
        piece := chunk[..n];
        SameTail(memory, chunk[..], n);
        assert chunk[..] == chunk[..n] + chunk[n..];
      }
    }

    lemma EndOfStream()
      requires ValidReader() && !directRead && remainingBuffers == [] && conn.Incoming() == []
      ensures Good() ==> Rest() == []
    {
      if Good() {
        NothingIsLeft(State(), conn.Raw());
      }
    }

    // What Read does with a piece: while it parses or filters, what the piece
    // yields replaces the held buffers; after that the piece is handed over or
    // held behind them. kept is what the held buffers still say then.
    method TakePiece(p: array<byte>, n: nat, piece: bytes) returns (done: bool, failed: bool, ghost kept: bytes)
      requires ValidReader() && p != chunk && !directRead && n == |piece| > 0
      requires if p.Length > CHUNK_SIZE then remainingBuffers == [] && n <= p.Length && p[..n] == piece
               else n <= CHUNK_SIZE && chunk[..n] == piece
      modifies `remainingContent, `remainingPadding, `currentCommand, `paddingHeader, `paddingHeaderLen
      modifies `withinPaddingBuffers, `directRead, `remainingBuffers, filter, conn`input, conn`rawInput
      ensures done ==> !failed && p.Length > CHUNK_SIZE
      ensures if old(filter.numberOfPacketToFilter) > 0 && !failed
              then filter.State() == VisionFilter.Filtered(old(filter.State()), Held(remainingBuffers))
                   && filter.seen == old(filter.seen) + [Held(remainingBuffers)]
              else unchanged(filter)
      ensures old(filter.Valid()) ==> filter.Valid()
      ensures old(Passing()) && p.Length <= CHUNK_SIZE ==>
                Passing() && remainingBuffers == old(remainingBuffers) + [View(0, n)]
      ensures
        var filtering := old(filter.numberOfPacketToFilter) > 0;
        var t := Fed(userUUID, old(State()), piece, filtering);
        && (failed <==> t.Failed?)
        && kept == (if old(withinPaddingBuffers) || filtering then [] else old(Texts(remainingBuffers, chunk[..])))
        && (!failed ==>
          && ValidReader() && State() == t
          && |conn.Incoming()| <= |old(conn.Incoming())| && (!directRead ==> conn.Incoming() == old(conn.Incoming()))
          && (Regular(t, old(conn.Incoming()), old(conn.Raw())) ==>
               && Good()
               && (if done then [] else kept) + (Yield(userUUID, old(State()), piece, filtering)
                                                 + Future(t, old(conn.Incoming()), old(conn.Raw())))
                  == (if done then piece else []) + Rest()))
    {
      hide Fed, Yield, Future, Regular, Flatten, Opens, Texts, Text, VisionFilter.Filtered, VisionFilter.Filter.Valid;
      done, failed, kept := false, false, Texts(remainingBuffers, chunk[..]);
      if withinPaddingBuffers || filter.numberOfPacketToFilter > 0 {
        var buffers;
        ghost var filtering;
        kept := [];
        buffers, failed, filtering := Digest(piece);
        remainingBuffers := Own(buffers);
        OwnedTexts(buffers, chunk[..]);
        assert Held(remainingBuffers) == buffers;
      } else {
        PlainPasses(userUUID, piece);
        if p.Length > CHUNK_SIZE {
          NoTexts();
          done := true;
        } else {
          ViewFollows(remainingBuffers, chunk[..], n);
          Assoc(kept, piece, Future(Plain, conn.Incoming(), conn.Raw()));
          remainingBuffers := remainingBuffers + [View(0, n)];
        }
      }
    }

    // One turn of Read's loop once nothing can be copied out: a piece is either
    // handed over as it is or parsed. kept is what the buffers still held say
    // after that, coming everything else that is still to come.
    method ReadTurn(p: array<byte>) returns (n: nat, done: bool, failed: bool, ghost piece: Piece, ghost kept: bytes)
      requires ValidReader() && p != chunk && (p.Length > 0 ==> remainingBuffers == []) && !directRead
      modifies `remainingContent, `remainingPadding, `currentCommand, `paddingHeader, `paddingHeaderLen
      modifies `withinPaddingBuffers, `directRead, `remainingBuffers, filter, conn`input, conn`rawInput, conn`records
      modifies net`incoming, p, chunk
      ensures piece.data <= old(conn.Incoming()) && (done ==> n <= p.Length)
      ensures piece == Piece(old(conn.NextPiece(Asked(p.Length))), old(filter.numberOfPacketToFilter) > 0)
      ensures if piece.data != [] && piece.filtering && !failed
              then filter.State() == VisionFilter.Filtered(old(filter.State()), Held(remainingBuffers))
                   && filter.seen == old(filter.seen) + [Held(remainingBuffers)]
              else unchanged(filter)
      ensures old(filter.Valid()) ==> filter.Valid()
      ensures piece.data != [] && old(Passing()) && p.Length <= CHUNK_SIZE ==>
                Passing() && remainingBuffers == old(remainingBuffers) + [View(0, |piece.data|)]
      ensures piece.data == [] <==> old(conn.Incoming()) == []
      ensures piece.data == [] ==> done && n == 0 && !failed && ValidReader() && State() == old(State())
                                   && conn.Incoming() == [] && directRead == old(directRead)
                                   && Rest() == old(Rest()) && Good() == old(Good())
                                   && (Good() && p.Length > 0 ==> Rest() == [])
      ensures piece.data != [] ==>
        var t := Fed(userUUID, old(State()), piece.data, piece.filtering);
        && (failed <==> t.Failed?) && (failed ==> n == 0) && (done ==> 0 < n)
        && (!failed ==>
            && ValidReader() && State() == t && !t.Fresh?
            && |conn.Incoming()| < |old(conn.Incoming())|
            && (!directRead ==> piece.data + conn.Incoming() == old(conn.Incoming())))
        && kept == old(Kept(piece.data, p.Length))
        && (old(Good()) && Expected(userUUID, old(State()), piece.data, piece.filtering) ==>
              && !failed && Good()
              && (if done then [] else kept) + old(Future(State(), conn.Incoming(), conn.Raw()))
                 == (if done then p[..n] else []) + Rest())
    {
      hide Fed, Yield, Future, Regular, Expected, Flatten, Opens, Texts, VisionFilter.Filtered, VisionFilter.Filter.Valid;
      ghost var r, raw := State(), conn.Raw();
      ghost var memory := chunk[..];
      var data;
      done, failed, kept := false, false, [];
      n, data := ReadPiece(p);
      piece := Piece(data, filter.numberOfPacketToFilter > 0);
      if n == 0 {
        done := true;
        assert [] + conn.Incoming() == conn.Incoming();
        OverNothing(memory);
        if p.Length > 0 {
          EndOfStream();
        }
        return;
      }
      ghost var rest := conn.Incoming();
      NeverFreshAgain(userUUID, r, data, piece.filtering);
      if Regular(r, data + rest, raw) && Expected(userUUID, r, data, piece.filtering) {
        PieceByPiece(userUUID, r, data, rest, raw, piece.filtering);
      }
      done, failed, kept := TakePiece(p, n, data);
      if failed {
        n := 0;
      }
    }

    // What the held buffers say once a piece has been read over the chunk
    // buffer, unless they are replaced.
    ghost function Kept(piece: bytes, room: nat): bytes
      requires ValidReader()
      reads this, conn, chunk, filter
    {
      if withinPaddingBuffers || filter.numberOfPacketToFilter > 0 then []
      else Texts(remainingBuffers, if room > CHUNK_SIZE then chunk[..] else Over(piece, chunk[..]))
    }

    // Read's loop body: held bytes first, then the transport once the stream
    // is direct, else one more piece. With no room in p the held bytes are
    // still there when the piece comes: nothing is lost exactly when kept is
    // what was held.
    method ReadOnce(p: array<byte>) returns (n: nat, done: bool, failed: bool, ghost pieces: seq<Piece>, ghost kept: bytes)
      requires ValidReader() && p != chunk
      modifies `remainingContent, `remainingPadding, `currentCommand, `paddingHeader, `paddingHeaderLen
      modifies `withinPaddingBuffers, `directRead, `remainingBuffers, filter, conn`input, conn`rawInput, conn`records
      modifies net`incoming, p, chunk
      ensures (done || failed ==> n <= p.Length) && |pieces| <= 1
      ensures pieces != [] ==> !old(directRead) && pieces[0].data != [] && pieces[0].data <= old(conn.Incoming())
      ensures pieces != [] ==>
                pieces[0] == Piece(old(conn.NextPiece(Asked(p.Length))), old(filter.numberOfPacketToFilter) > 0)
      ensures if pieces != [] && pieces[0].filtering && !failed
              then filter.State() == VisionFilter.Filtered(old(filter.State()), Held(remainingBuffers))
                   && filter.seen == old(filter.seen) + [Held(remainingBuffers)]
              else unchanged(filter)
      ensures old(filter.Valid()) ==> filter.Valid()
      ensures pieces != [] && old(Passing()) && p.Length == 0 ==>
                && Passing()
                && remainingBuffers == old(Dropped(remainingBuffers, chunk[..])) + [View(0, |pieces[0].data|)]
      ensures failed ==> n == 0 && pieces != [] && Fed(userUUID, old(State()), pieces[0].data, pieces[0].filtering).Failed?
      ensures !failed ==>
                && ValidReader() && (old(OpeningComes()) ==> OpeningComes())
                && State() == (if pieces == [] then old(State()) else Fed(userUUID, old(State()), pieces[0].data, pieces[0].filtering))
                && (!done ==> |conn.Incoming()| < |old(conn.Incoming())|)
                && (if pieces == [] then old(conn.Incoming()) == conn.Incoming()
                    else directRead || pieces[0].data + conn.Incoming() == old(conn.Incoming()))
      ensures old(Good()) && (pieces == [] || Expected(userUUID, old(State()), pieces[0].data, pieces[0].filtering)) ==>
                && !failed && Good()
                && (p.Length > 0 ==>
                      && old(Rest()) == (if done then p[..n] else []) + Rest()
                      && (done && n == 0 ==> Rest() == []))
                && (p.Length == 0 ==>
                      if pieces == [] then Rest() == old(Rest())
                      else
                        && kept == old(Kept(pieces[0].data, 0))
                        && Rest() == kept + old(Future(State(), conn.Incoming(), conn.Raw()))
                        && (Rest() == old(Rest()) <==> kept == old(Texts(remainingBuffers, chunk[..]))))
      ensures !failed && p.Length == 0 ==> (done <==> old(directRead) || old(conn.Incoming()) == [])
    {
      hide Fed, Future, Regular, Expected, Texts, Over, Dropped, Outer.NextPiece, Outer.Valid, VisionFilter.Filtered, VisionFilter.Filter.Valid;
      NoTexts();
      done, failed, pieces, kept := true, false, [], [];
      ghost var buffers, memory := remainingBuffers, chunk[..];
      n := Drain(p);
      if n > 0 {
        Assoc(p[..n], Texts(remainingBuffers, chunk[..]), Future(State(), conn.Incoming(), conn.Raw()));
        return;
      }
      assert p[..0] + Texts(remainingBuffers, chunk[..]) == Texts(remainingBuffers, chunk[..]);
      if directRead {
        n := ReadDirect(p);
        return;
      }
      ghost var piece;
      n, done, failed, piece, kept := ReadTurn(p);
      if piece.data != [] {
        pieces := [piece];
        if p.Length == 0 {
          DroppedSays(buffers, memory, Over(piece.data, memory));
          SameBehind(kept, Texts(buffers, memory), old(Future(State(), conn.Incoming(), conn.Raw())));
        }
      }
    }

    method ReadDirect(p: array<byte>) returns (n: nat)
      requires ValidReader() && p != chunk && directRead && (p.Length > 0 ==> remainingBuffers == [])
      modifies net`incoming, p
      ensures ValidReader() && n <= p.Length
      ensures old(Good()) ==> Good() && old(Rest()) == p[..n] + Rest() && (n == 0 && p.Length > 0 ==> Rest() == [])
    {
      n := net.Read(p, 0, p.Length);
    }

    // What comes next is as expected, as long as the id does not occur in what
    // is still to be returned.
    lemma NextIsExpected(room: nat, filtering: bool)
      requires ValidReader() && !directRead && Good() && OpeningComes() && !Occurs(userUUID, Rest())
      ensures var piece := conn.NextPiece(Asked(room)); piece != [] ==> Expected(userUUID, State(), piece, filtering)
    {
      hide Occurs, Texts, Regular, Outer.NextPiece, Emit;
      var piece := conn.NextPiece(Asked(room));
      PieceComes(conn, Asked(room));
      PieceGrows(conn, CHUNK_SIZE, Asked(room));
      if State().Plain? {
        PlainIsExpected(userUUID, Texts(remainingBuffers, chunk[..]), piece, conn.Incoming()[|piece|..], conn.Raw());
        assert piece + conn.Incoming()[|piece|..] == conn.Incoming();
      }
    }

    // The pieces are those read in this call. As long as each is as expected,
    // what Read returns is exactly the next part of what was still to come, and
    // it returns nothing only when nothing is to come. A Read of no bytes does
    // not return before the stream is direct or at its end.
    method Read(p: array<byte>) returns (n: nat, failed: bool, ghost pieces: seq<Piece>)
      requires ValidReader() && p != chunk
      modifies `remainingContent, `remainingPadding, `currentCommand, `paddingHeader, `paddingHeaderLen
      modifies `withinPaddingBuffers, `directRead, `remainingBuffers, filter, conn`input, conn`rawInput, conn`records
      modifies net`incoming, p, chunk
      ensures n <= p.Length && Data(pieces) <= old(conn.Incoming())
      ensures old(filter.seen) <= filter.seen && (old(filter.Valid()) ==> filter.Valid())
      ensures if failed then n == 0 && FedAll(userUUID, old(State()), pieces).Failed?
              else ValidReader() && State() == FedAll(userUUID, old(State()), pieces)
      ensures old(Good()) && Orderly(userUUID, old(State()), pieces) ==> !failed && Good()
      ensures p.Length > 0 && old(Good()) && old(OpeningComes()) && !Occurs(userUUID, old(Rest())) ==>
                Orderly(userUUID, old(State()), pieces) && OpeningComes()
      ensures old(Good()) && Orderly(userUUID, old(State()), pieces) && p.Length > 0 ==>
                && old(Rest()) == p[..n] + Rest()
                && (n == 0 ==> Rest() == [])
      ensures p.Length == 0 && !failed ==> directRead || conn.Incoming() == []
    {
      hide Future, Regular, FedAll, Orderly, Expected, Fed, Data, Texts, VisionFilter.Filtered, VisionFilter.Filter.Valid;
      ghost var r, all, rest := State(), conn.Incoming(), Rest();
      NoPieces(userUUID, r);
      ghost var good := Good();
      ghost var safe := p.Length > 0 && good && OpeningComes() && !Occurs(userUUID, rest);
      failed, pieces := false, [];
      var done := false;
      n := 0;
      while !done && !failed
        invariant done || failed ==> n <= p.Length
        invariant old(filter.seen) <= filter.seen && (old(filter.Valid()) ==> filter.Valid())
        invariant Data(pieces) <= all
        invariant if failed then n == 0 && FedAll(userUUID, r, pieces).Failed?
                  else ValidReader() && State() == FedAll(userUUID, r, pieces)
        invariant !failed && !directRead ==> Data(pieces) + conn.Incoming() == all
        invariant good && Orderly(userUUID, r, pieces) ==> !failed && Good()
        invariant good && Orderly(userUUID, r, pieces) && p.Length > 0 ==>
                    && rest == (if done then p[..n] else []) + Rest()
                    && (done && n == 0 ==> Rest() == [])
        invariant safe ==> Orderly(userUUID, r, pieces) && OpeningComes()
        invariant p.Length == 0 && done && !failed ==> directRead || conn.Incoming() == []
        decreases if !done && !failed then 1 + |conn.Incoming()| else 0
      {
        ghost var before, more, kept := pieces, [], [];
        assert safe ==> Rest() == rest;
        if safe && !directRead {
          NextIsExpected(p.Length, filter.numberOfPacketToFilter > 0);
        }
        n, done, failed, more, kept := ReadOnce(p);
        if more != [] {
          pieces := before + more;
          OneMorePiece(userUUID, r, before, more[0]);
          assert more == [more[0]];
          assert (Data(before) + more[0].data) + conn.Incoming() == Data(before) + (more[0].data + conn.Incoming());
        }
      }
    }
  }

  // One turn of a Read of no bytes: the piece comes over what is held.
  method EmptyTurn(v: VisionConn, p: array<byte>, ghost first: bytes, ghost rest: bytes)
    requires v.ValidReader() && p.Length == 0 && v.State() == Plain && v.Passing() && v.Good()
    requires v.conn.Incoming() == first + rest && |first + rest| < OPENING_LENGTH
    requires first != [] && first == v.conn.NextPiece(CHUNK_SIZE)
    modifies v`remainingContent, v`remainingPadding, v`currentCommand, v`paddingHeader, v`paddingHeaderLen
    modifies v`withinPaddingBuffers, v`directRead, v`remainingBuffers, v.filter
    modifies v.conn`input, v.conn`rawInput, v.conn`records, v.net`incoming, p, v.chunk
    ensures v.ValidReader() && v.State() == Plain && v.Passing() && v.Good() && v.conn.Incoming() == rest
    ensures v.remainingBuffers == old(Dropped(v.remainingBuffers, v.chunk[..])) + [View(0, |first|)]
    ensures v.Rest() == old(Texts(v.remainingBuffers, Over(first, v.chunk[..]))) + (first + rest)
  {
    hide Regular, Future, Expected, Fed, Texts, Over, Dropped, Text;
    PlainEnds(v.userUUID, first + rest);
    PlainEnds(v.userUUID, first);
    ghost var raw := v.conn.Raw();
    assert raw == [] by { NothingRaw(first + rest, raw); }
    var n, done, failed;
    ghost var pieces, kept;
    n, done, failed, pieces, kept := v.ReadOnce(p);
    assert pieces != [] && pieces[0].data == first;
    assert v.conn.Incoming() == (first + v.conn.Incoming())[|first|..] && rest == (first + rest)[|first|..];
  }

  lemma NothingRaw(plain: bytes, raw: bytes)
    ensures Regular(Plain, plain, raw) ==> raw == []
  {
  }

  // Nothing is held and two records of a byte each are to come: in the turns of
  // a Read of no bytes, which ends with the stream, the second byte takes the
  // place of the first.
  method EmptyReadOverwrites(v: VisionConn, p: array<byte>) returns (done: bool)
    requires v.ValidReader() && p.Length == 0
    requires v.State() == Plain && v.Passing() && v.remainingBuffers == []
    requires v.conn.input == [] && v.conn.records == [[1], [2]] && v.conn.Raw() == []
    modifies v`remainingContent, v`remainingPadding, v`currentCommand, v`paddingHeader, v`paddingHeaderLen
    modifies v`withinPaddingBuffers, v`directRead, v`remainingBuffers, v.filter
    modifies v.conn`input, v.conn`rawInput, v.conn`records, v.net`incoming, p, v.chunk
    ensures done && v.ValidReader() && old(v.Rest()) == [1, 2] && v.Rest() == [2, 2]
  {
    hide Regular, Future, Expected, Fed, Texts, Outer.NextPiece;
    NoTexts();
    PlainEnds(v.userUUID, [1, 2]);
    TwoRecords(v.conn);
    EmptyTurn(v, p, [1], [2]);
    assert v.remainingBuffers == [View(0, 1)];
    OneViewSays(2, Over([2], v.chunk[..]));
    LastPiece(v.conn);
    EmptyTurn(v, p, [2], []);
    assert [2] + ([2] + []) == [2, 2];
    done := EmptyEnd(v, p);
  }

  method EmptyEnd(v: VisionConn, p: array<byte>) returns (done: bool)
    requires v.ValidReader() && p.Length == 0 && v.Good() && v.conn.Incoming() == []
    modifies v`remainingContent, v`remainingPadding, v`currentCommand, v`paddingHeader, v`paddingHeaderLen
    modifies v`withinPaddingBuffers, v`directRead, v`remainingBuffers, v.filter
    modifies v.conn`input, v.conn`rawInput, v.conn`records, v.net`incoming, p, v.chunk
    ensures done && v.ValidReader() && v.Rest() == old(v.Rest())
  {
    hide Regular, Future, Expected, Fed, Texts, Over, Dropped, Text;
    var n, failed;
    ghost var pieces, kept;
    n, done, failed, pieces, kept := v.ReadOnce(p);
  }

  lemma LastPiece(c: Outer)
    requires c.Valid() && c.Incoming() == [2]
    ensures c.NextPiece(CHUNK_SIZE) == [2]
  {
    if c.input == [] {
      assert c.records[0] + Flatten(c.records[1..]) == [2];
    }
  }

  lemma TwoRecords(c: Outer)
    requires c.input == [] && c.records == [[1], [2]]
    ensures c.Incoming() == [1, 2] && forall size: nat :: size > 0 ==> c.NextPiece(size) == [1]
  {
    FlattenOne([2]);
    assert c.records[1..] == [[2]];
  }

  lemma OneViewSays(b: byte, memory: bytes)
    requires |memory| > 0 && memory[0] == b
    ensures Texts([View(0, 1)], memory) == [b]
  {
    assert Texts([], memory) == [];
  }

  lemma PlainEnds(id: bytes, piece: bytes)
    requires |piece| < OPENING_LENGTH
    ensures Regular(Plain, piece, []) && Future(Plain, piece, []) == piece
    ensures forall filtering :: Expected(id, Plain, piece, filtering) && Fed(id, Plain, piece, filtering) == Plain
  {
  }

  lemma SameBehind(a: bytes, b: bytes, c: bytes)
    ensures a + c == b + c <==> a == b
  {
    if a + c == b + c {
      assert a == (a + c)[..|a|] && b == (b + c)[..|b|];
    }
  }

  lemma DroppedSays(buffers: seq<Slice>, before: bytes, memory: bytes)
    requires AllFit(buffers, before) && |before| == |memory|
    ensures AllFit(Dropped(buffers, before), memory) && AllFit(buffers, memory)
    ensures Texts(Dropped(buffers, before), memory) == Texts(buffers, memory)
  {
    if buffers != [] && Text(buffers[0], before) == [] {
      assert Text(buffers[0], memory) == [];
    }
  }

  // Copies from the first buffer, and drops it once it is empty.
  method DrainTurn(buffers: seq<Slice>, memory: bytes, p: array<byte>, n: nat, ghost before: bytes)
    returns (newN: nat, rest: seq<Slice>)
    requires n <= p.Length && p[..n] == before && buffers != [] && AllFit(buffers, memory)
    modifies p
    ensures AllFit(rest, memory) && n + newN <= p.Length
    ensures |rest| < |buffers| || n + newN == p.Length
    ensures p[..n + newN] + Texts(rest, memory) == before + Texts(buffers, memory)
    ensures p.Length == 0 ==> rest == Dropped(buffers, memory)
  {
    hide Texts, Text, Skip, Dropped, Fits, AllFit;
    FirstFits(buffers, memory);
    var text := Text(buffers[0], memory);
    newN := Min(p.Length - n, |text|);
    HeadMoves(buffers, memory, newN, before);
    HeadStays(buffers, memory);
    Net.Append(p, n, text[..newN], before);
    rest := if newN == |text| then buffers[1..] else [Skip(buffers[0], newN, memory)] + buffers[1..];
  }

  lemma PieceComes(c: Outer, size: nat)
    requires c.Valid() && size > 0
    ensures c.NextPiece(size) <= c.Incoming()
    ensures c.NextPiece(size) == [] ==> c.Incoming() == []
  {
  }

  lemma PieceGrows(c: Outer, size: nat, more: nat)
    requires size <= more
    ensures c.NextPiece(size) <= c.NextPiece(more)
  {
  }

  lemma FirstFits(buffers: seq<Slice>, memory: bytes)
    requires AllFit(buffers, memory) && buffers != []
    ensures Fits(buffers[0], memory) && AllFit(buffers[1..], memory)
  {
  }

  lemma HeldFollows(buffers: seq<bytes>, input: bytes, rawInput: bytes, plain: bytes, incoming: bytes)
    ensures Regular(Direct, input + plain, rawInput + incoming)
            ==> Flatten(buffers + [input] + [rawInput]) + incoming == Flatten(buffers) + (rawInput + incoming)
  {
    FlattenAppend(buffers + [input], [rawInput]);
    FlattenAppend(buffers, [input]);
    assert Flatten([rawInput]) == rawInput && Flatten([input]) == input;
    if input + plain == [] {
      assert input == [];
    }
  }

  lemma AllHeldFollows(buffers: seq<bytes>, input: bytes, rawInput: bytes)
    ensures Flatten(buffers + [input] + [rawInput]) == Flatten(buffers) + (input + rawInput)
  {
    FlattenAppend(buffers + [input], [rawInput]);
    FlattenAppend(buffers, [input]);
    FlattenOne(input);
    FlattenOne(rawInput);
    Assoc(Flatten(buffers), input, rawInput);
  }

  lemma HeadMoves(buffers: seq<Slice>, memory: bytes, k: nat, before: bytes)
    requires AllFit(buffers, memory) && buffers != [] && k <= |Text(buffers[0], memory)|
    ensures
      var text := Text(buffers[0], memory);
      var after := if k == |text| then buffers[1..] else [Skip(buffers[0], k, memory)] + buffers[1..];
      AllFit(after, memory) && (before + text[..k]) + Texts(after, memory) == before + Texts(buffers, memory)
  {
    hide Text, Skip;
    var text, rest := Text(buffers[0], memory), Texts(buffers[1..], memory);
    assert ([Skip(buffers[0], k, memory)] + buffers[1..])[1..] == buffers[1..];
    assert text == text[..k] + text[k..];
    assert before + (text + rest) == (before + text[..k]) + (text[k..] + rest);
    assert k == |text| ==> text[k..] + rest == rest;
  }

  function Skip(s: Slice, k: nat, memory: bytes): (r: Slice)
    requires Fits(s, memory) && k <= |Text(s, memory)|
    ensures Fits(r, memory) && Text(r, memory) == Text(s, memory)[k..]
  {
    match s
    case Owned(text) => Owned(text[k..])
    case View(lo, hi) => View(lo + k, hi)
  }

  // A padded piece extends what was sent by one block.
  lemma PaddedSent(id: bytes, inner: bytes, first: bool, given: bytes, command: byte, content: bytes, padding: bytes)
    requires Sent(id, inner, [], true, first, false, given) && command <= DIRECT
    requires |content| <= BUFFER_LIMIT && |padding| < 0x10000
    ensures
      var block := (if first then id else []) + Block(command, content, padding);
      Sent(id, inner + block, [], command == CONTINUE, false, command == DIRECT, given + content)
  {
    hide Emit, After, Proper;
    AtStart();
    var b := Block(command, content, padding);
    var block := (if first then id else []) + b;
    var s := if first then [] else inner[ID_LENGTH..];
    BlockFollows(s, command, content, padding);
    assert inner + block == (if first then id else inner[..ID_LENGTH]) + (s + b);
    assert (inner + block)[ID_LENGTH..] == s + b;
  }

  // After the last block, bytes go out as they are, on the one way or the other.
  lemma PlainFollows(id: bytes, inner: bytes, raw: bytes, direct: bool, given: bytes, p: bytes, writeUUID: bool)
    requires Sent(id, inner, raw, false, writeUUID, direct, given)
    ensures direct ==> Sent(id, inner, raw + p, false, writeUUID, true, given + p)
    ensures !direct ==> Sent(id, inner + p, raw, false, writeUUID, false, given + p)
  {
    hide Emit, After, Proper;
    if direct {
      assert (Emit(START, inner[ID_LENGTH..]) + raw) + p == Emit(START, inner[ID_LENGTH..]) + (raw + p);
    } else {
      var s := inner[ID_LENGTH..];
      EndPassesAll(After(START, s), p);
      Glue(START, s, p);
      assert (inner + p)[ID_LENGTH..] == s + p;
    }
  }

  lemma OneMore(start: bytes, before: seq<bytes>, after: seq<bytes>, i: nat, x: bytes)
    requires i < |before| == |after| && after == before[i := x]
    ensures start + Flatten(after[..i + 1]) == (start + Flatten(before[..i])) + x
  {
    assert after[..i + 1] == before[..i] + [x];
    FlattenAppend(before[..i], [x]);
    assert Flatten([x]) == x + Flatten([]);
  }

  lemma NoBlocks(d: VisionFilter.Detection)
    ensures Blocks(d, [], []) == [] && AllAllowed(d.isTLS, [], []) && Flatten([]) == []
  {
  }

  lemma OneMoreIs(head: bytes, d: VisionFilter.Detection, before: seq<bytes>, after: seq<bytes>, i: nat,
                  pieces: seq<bytes>, paddings: seq<bytes>, block: bytes, padding: bytes)
    requires i < |before| == |after| == |pieces| && after == before[i := block] && |paddings| == i
    requires AllAllowed(d.isTLS, pieces[..i], paddings) && Allowed(d.isTLS, pieces[i], padding)
    requires Flatten(before[..i]) == if i == 0 then [] else head + Blocks(d, pieces[..i], paddings)
    requires block == (if i == 0 then head else []) + Block(Command(d, pieces[i]), pieces[i], padding)
    ensures Flatten(after[..i + 1]) == head + Blocks(d, pieces[..i + 1], paddings + [padding])
    ensures AllAllowed(d.isTLS, pieces[..i + 1], paddings + [padding])
  {
    hide Blocks, Block, Command, Allowed, AllAllowed;
    NoBlocks(d);
    OneMore([], before, after, i, block);
    OneMoreBlock(d, pieces[..i], paddings, pieces[i], padding);
    assert pieces[..i + 1] == pieces[..i] + [pieces[i]];
    assert [] + Flatten(after[..i + 1]) == Flatten(after[..i + 1]) && [] + Flatten(before[..i]) == Flatten(before[..i]);
    var next := Block(Command(d, pieces[i]), pieces[i], padding);
    if i == 0 {
      assert pieces[..0] == [] && paddings == [] && [] + (head + next) == head + ([] + next);
    } else {
      Assoc(head, Blocks(d, pieces[..i], paddings), next);
      assert [] + next == next;
    }
  }

  lemma Divide(xs: seq<bytes>, k: nat)
    requires k <= |xs|
    ensures Flatten(xs[..k]) + Flatten(xs[k..]) == Flatten(xs)
  {
    FlattenAppend(xs[..k], xs[k..]);
    assert xs[..k] + xs[k..] == xs;
  }

  lemma SentInTwo(sent: bytes, buffers: seq<bytes>, pieces: seq<bytes>, k: nat)
    requires k <= |buffers| == |pieces| && buffers[k..] == pieces[k..]
    ensures sent + Flatten(buffers) == sent + (Flatten(buffers[..k]) + Flatten(pieces[k..]))
    ensures sent + Flatten(buffers[..k]) == sent + (Flatten(buffers[..k]) + [])
  {
    hide Flatten;
    Divide(buffers, k);
    assert Flatten(buffers[..k]) + [] == Flatten(buffers[..k]);
  }

  // The padded pieces and the rest of one Write, on the ways they are sent.
  lemma PaddedAndRest(id: bytes, inner: bytes, given: bytes, p: bytes, pieces: seq<bytes>, buffers: seq<bytes>, k: nat,
                      isPadding: bool, writeUUID: bool, direct: bool)
    requires k <= |pieces| == |buffers| && buffers[k..] == pieces[k..] && Flatten(pieces) == p
    requires Sent(id, inner + Flatten(buffers[..k]), [], isPadding, writeUUID, direct, given + Flatten(pieces[..k]))
    requires isPadding ==> k == |pieces| && !direct
    ensures direct ==> Sent(id, inner + Flatten(buffers[..k]), Flatten(buffers[k..]), isPadding, writeUUID, true, given + p)
    ensures !direct ==> Sent(id, inner + Flatten(buffers), [], isPadding, writeUUID, false, given + p)
  {
    hide Sent, Flatten;
    Divide(pieces, k);
    Divide(buffers, k);
    assert (given + Flatten(pieces[..k])) + Flatten(pieces[k..]) == given + p;
    assert (inner + Flatten(buffers[..k])) + Flatten(buffers[k..]) == inner + Flatten(buffers);
    if isPadding {
      assert pieces[..k] == pieces && buffers[..k] == buffers;
    } else {
      PlainFollows(id, inner + Flatten(buffers[..k]), [], direct, given + Flatten(pieces[..k]), Flatten(pieces[k..]), writeUUID);
      assert [] + Flatten(buffers[k..]) == Flatten(buffers[k..]);
    }
  }
}
