// Whole runs over a Vision connection: any calls at one end, and Reads at the
// other over what they sent.
module VisionRuns {
  import opened Bytes
  import opened VisionFormat
  import opened VisionStream
  import opened Vision
  import opened VisionFilter
  import opened VisionSwitch
  import Net

  // What the user of a connection does with it, in any order.
  datatype Call = Write(data: bytes) | Read(room: nat)

  function Writes(calls: seq<Call>): bytes {
    if calls == [] then []
    else (if calls[0].Write? then calls[0].data else []) + Writes(calls[1..])
  }

  // The switch to raw bytes was allowed when it was made.
  ghost predicate Honest(v: VisionConn)
    reads v, v.filter
  {
    v.filter.Valid() && (v.directWrite ==> v.filter.isTLS && v.filter.enableXTLS)
  }

  // Reads turn the flags by which Write chooses its commands, and change
  // nothing of what stands for the bytes written; after one that failed there
  // are no more.
  method Do(v: VisionConn, calls: seq<Call>, reading: bool)
    requires v.ValidWriter() && Honest(v) && (reading ==> v.ValidReader())
    modifies v, v.filter, v.conn, v.net, v.chunk
    ensures v.ValidWriter() && Honest(v) && v.written == old(v.written) + Writes(calls)
    decreases |calls|
  {
    hide Writes, Honest, VisionConn.ValidWriter, VisionConn.ValidReader;
    NothingWritten(calls);
    if calls == [] {
      assert v.written + [] == v.written;
      return;
    }
    var still := reading;
    match calls[0] {
      case Write(data) =>
        WriteOne(v, data, reading);
        Assoc(old(v.written), data, Writes(calls[1..]));
      case Read(room) =>
        if reading {
          still := ReadOne(v, room);
        }
        assert [] + Writes(calls[1..]) == Writes(calls[1..]);
    }
    Do(v, calls[1..], still);
  }

  lemma NothingWritten(calls: seq<Call>)
    ensures Writes(calls) == if calls == [] then [] else (if calls[0].Write? then calls[0].data else []) + Writes(calls[1..])
  {
  }

  method WriteOne(v: VisionConn, data: bytes, ghost reading: bool)
    requires v.ValidWriter() && Honest(v) && (reading ==> v.ValidReader())
    modifies v`isPadding, v`writeUUID, v`directWrite, v`writerIsDirect, v`written, v.filter, v.conn`sent, v.net`sent
    ensures v.ValidWriter() && Honest(v) && (reading ==> v.ValidReader()) && v.written == old(v.written) + data
  {
    hide Sent, AllFit, Reader.Valid, Ends, Blocks, AllAllowed, Padded, Flatten, Reshape, FilteredAll, Filtered;
    ghost var seen := v.filter.seen;
    var n := v.Write(data);
    FlagsStay(UNDETECTED, seen, v.filter.seen);
  }

  method ReadOne(v: VisionConn, room: nat) returns (still: bool)
    requires v.ValidWriter() && Honest(v) && v.ValidReader()
    modifies v, v.filter, v.conn, v.net, v.chunk
    ensures v.ValidWriter() && Honest(v) && (still ==> v.ValidReader()) && v.written == old(v.written)
  {
    hide Sent, AllFit, Reader.Valid, FilteredAll, Orderly, FedAll, Expected, Future, Regular, Texts, Occurs, Opens;
    ghost var seen := v.filter.seen;
    var p := new byte[room];
    var n, failed;
    ghost var pieces;
    n, failed, pieces := v.Read(p);
    still := !failed;
    FlagsStay(UNDETECTED, seen, v.filter.seen);
  }

  // Raw bytes went out only after a server hello with one of the four suites
  // and a buffer that says TLS 1.3 had passed, on the one way or the other.
  lemma RawIsEarned(v: VisionConn)
    requires v.ValidWriter() && Honest(v) && v.net.sent != []
    ensures
      var d, buffers := v.filter.State(), AllOf(v.filter.seen);
      && d.isTLS && Penetrable(d.cipher)
      && (exists i :: 0 <= i < |buffers| && Names(buffers[i], d.cipher))
      && (exists i :: 0 <= i < |buffers| && Contains(buffers[i], SUPPORTED_VERSIONS))
  {
    hide Names, Contains, FilteredAll, AllOf;
    SwitchNeedsHello(v.filter.seen);
  }

  // Reads, up to limit of them or to the end of the stream: nothing is lost as
  // long as the reader finds its opening at once and the id does not occur in
  // what is to come.
  method ReadAll(v: VisionConn, p: array<byte>, limit: nat) returns (got: bytes, ended: bool)
    requires v.ValidReader() && p != v.chunk && p.Length > 0
    requires v.Good() && v.OpeningComes() && !Occurs(v.userUUID, v.Rest())
    modifies v, v.filter, v.conn`input, v.conn`rawInput, v.conn`records, v.net`incoming, p, v.chunk
    ensures v.ValidReader() && old(v.Rest()) == got + v.Rest()
    ensures if ended then v.Rest() == [] else |got| >= limit
    decreases limit
  {
    hide Future, Regular, FedAll, Orderly, Expected, Fed, Data, Texts, Occurs, Opens;
    if limit == 0 {
      got, ended := [], false;
      assert [] + v.Rest() == v.Rest();
      return;
    }
    ghost var rest := v.Rest();
    var n, failed;
    ghost var pieces;
    n, failed, pieces := v.Read(p);
    got, ended := p[..n], true;
    if failed || n == 0 {
      return;
    }
    if Occurs(v.userUUID, v.Rest()) {
      OccursLater(v.userUUID, got, v.Rest());
    }
    var others;
    others, ended := ReadAll(v, p, limit - 1);
    Assoc(got, others, v.Rest());
    got := got + others;
  }

  // How the encrypted stream comes in records. The id and the first header are
  // sent as one, and arrive so.
  ghost predicate Records(cut: bytes -> seq<bytes>) {
    forall s ::
      && Flatten(cut(s)) == s
      && (forall i :: 0 <= i < |cut(s)| ==> cut(s)[i] != [])
      && (|s| >= OPENING_LENGTH ==> cut(s) != [] && |cut(s)[0]| >= OPENING_LENGTH)
  }

  // What w sent, arriving at a new reader.
  method Arriving(w: VisionConn, cut: bytes -> seq<bytes>) returns (r: VisionConn)
    requires w.ValidWriter() && Records(cut)
    ensures fresh(r) && fresh(r.conn) && fresh(r.net) && fresh(r.filter) && fresh(r.chunk)
    ensures r.ValidReader() && r.userUUID == w.userUUID && r.State() == Fresh && r.Good() && r.Rest() == w.written
    ensures r.OpeningComes()
  {
    hide Sent, Future, Regular, Texts, Flatten, Reader.Valid;
    NoTexts();
    SentOpens(w, cut);
    var far := new Net.Conn(w.net.sent);
    var outer := new Outer(far, cut(w.conn.sent));
    r := new VisionConn(outer, w.userUUID);
    WrittenIsFuture(w.userUUID, w.conn.sent, w.net.sent, w.isPadding, w.writeUUID, w.directWrite, w.written);
    assert [] + Flatten(outer.records) == w.conn.sent && [] + far.incoming == w.net.sent;
    assert r.Rest() == [] + w.written;
  }

  lemma NothingFlattens(xs: seq<bytes>)
    requires Flatten(xs) == []
    ensures xs == [] || xs[0] == []
  {
  }

  lemma SentOpens(w: VisionConn, cut: bytes -> seq<bytes>)
    requires w.ValidWriter() && Records(cut)
    ensures |w.userUUID| == ID_LENGTH
    ensures
      var records := cut(w.conn.sent);
      if w.conn.sent == [] then records == []
      else records != [] && |records[0]| >= OPENING_LENGTH && records[0][..ID_LENGTH] == w.userUUID
  {
    var s, records := w.conn.sent, cut(w.conn.sent);
    if s == [] {
      NothingFlattens(records);
    } else {
      assert s == records[0] + Flatten(records[1..]);
      assert records[0][..ID_LENGTH] == s[..ID_LENGTH];
    }
  }

  // From end to end: whatever was done at the sender in whatever order, and
  // however its encrypted stream comes in records, Reads into a buffer of any
  // size yield exactly what was written, unless the id occurs in that.
  method WrittenIsRead(id: bytes, calls: seq<Call>, answers: bytes, raw: bytes, cut: bytes -> seq<bytes>, room: nat)
    returns (got: bytes)
    requires |id| == ID_LENGTH && room > 0 && Records(cut) && !Occurs(id, Writes(calls))
    ensures got == Writes(calls)
  {
    hide Sent, Writes, Occurs, Opens, Flatten, VisionConn.ValidReader, VisionConn.ValidWriter;
    hide VisionConn.Good, VisionConn.Rest, VisionConn.OpeningComes, VisionConn.State;
    var near := new Net.Conn(raw);
    var inner := new Outer(near, cut(answers));
    var w := new VisionConn(inner, id);
    Do(w, calls, true);
    assert [] + Writes(calls) == Writes(calls);
    var r := Arriving(w, cut);
    var p := new byte[room];
    var ended;
    got, ended := ReadAll(r, p, |Writes(calls)| + 1);
    assert got + [] == got;
  }
}
