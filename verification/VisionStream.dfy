// What a Vision connection carries, over whole streams: the sender's padded,
// ended and direct phases against the reader's.
module VisionStream {
  import opened Bytes
  import opened VisionFormat

  const ID_LENGTH := 16
  const OPENING_LENGTH := ID_LENGTH + BLOCK_HEADER_LENGTH

  // The reading side between two pieces read from the connection underneath.
  datatype Reader = Fresh | Within(u: Unpadder) | Plain | Direct | Failed {
    predicate Valid() {
      Within? ==> u.Valid() && (u.Idle() ==> u.command == CONTINUE)
    }

    predicate Reads() {
      !Direct? && !Failed?
    }
  }

  // The test in unPadding for the id and one whole header.
  predicate Opens(id: bytes, piece: bytes) {
    |id| == ID_LENGTH && |piece| >= OPENING_LENGTH && piece[..ID_LENGTH] == id
  }

  function Settle(u: Unpadder): (r: Reader)
    requires u.Valid()
    ensures r.Valid()
  {
    if !u.Idle() || u.command == CONTINUE then Within(u)
    else if u.command == END then Plain
    else if u.command == DIRECT then Direct
    else Failed
  }

  // Whether a piece is parsed, and from where.
  predicate Parsed(id: bytes, r: Reader, piece: bytes, filtering: bool) {
    r.Within? || (Opens(id, piece) && (r.Fresh? || (r.Plain? && filtering)))
  }

  function Beginning(r: Reader): (u: Unpadder)
    requires r.Valid()
    ensures u.Valid()
  {
    if r.Within? then r.u else START
  }

  function Parse(r: Reader, piece: bytes): bytes
    requires r.Within? || |piece| >= ID_LENGTH
  {
    if r.Within? then piece else piece[ID_LENGTH..]
  }

  // The state after one piece, and what the piece yields.
  function Fed(id: bytes, r: Reader, piece: bytes, filtering: bool): (t: Reader)
    requires r.Valid() && r.Reads()
    ensures t.Valid()
  {
    if Parsed(id, r, piece, filtering) then Settle(After(Beginning(r), Parse(r, piece))) else Plain
  }

  function Yield(id: bytes, r: Reader, piece: bytes, filtering: bool): bytes
    requires r.Valid() && r.Reads()
  {
    if Parsed(id, r, piece, filtering) then Emit(Beginning(r), Parse(r, piece)) else piece
  }

  // The first piece holds the id and a header; while the TLS detection is
  // still counting, no piece of plain bytes starts like that.
  predicate Expected(id: bytes, r: Reader, piece: bytes, filtering: bool) {
    && (r.Fresh? ==> Opens(id, piece))
    && (r.Plain? && filtering ==> !Opens(id, piece))
  }

  lemma NeverFreshAgain(id: bytes, r: Reader, piece: bytes, filtering: bool)
    requires r.Valid() && r.Reads()
    ensures !Fed(id, r, piece, filtering).Fresh?
  {
  }

  // a is a part of b.
  predicate Occurs(a: bytes, b: bytes) {
    a <= b || (b != [] && Occurs(a, b[1..]))
  }

  // No plain piece of bytes in which the id does not occur starts like an
  // opening.
  lemma PlainIsExpected(id: bytes, held: bytes, piece: bytes, rest: bytes, raw: bytes)
    ensures Opens(id, piece) ==> Occurs(id, held + Future(Plain, piece + rest, raw))
  {
    if Opens(id, piece) {
      Assoc(piece, rest, raw);
      assert id <= piece + (rest + raw);
      OccursLater(id, held, piece + (rest + raw));
    }
  }

  lemma {:induction false} OccursLater(id: bytes, a: bytes, b: bytes)
    requires Occurs(id, b)
    ensures Occurs(id, a + b)
  {
    if a == [] {
      assert a + b == b;
    } else {
      assert (a + b)[1..] == a[1..] + b;
      OccursLater(id, a[1..], b);
    }
  }

  // What a reader in state r still has to return when plain is what the
  // connection underneath will yield and raw what follows it undecrypted.
  function Future(r: Reader, plain: bytes, raw: bytes): bytes
    requires r.Valid()
  {
    match r
    case Fresh => if |plain| < ID_LENGTH then raw else Emit(START, plain[ID_LENGTH..]) + raw
    case Within(u) => Emit(u, plain) + raw
    case Plain => plain + raw
    case Direct => raw
    case Failed => []
  }

  // Streams a sender makes: raw bytes come only after a direct block.
  predicate Regular(r: Reader, plain: bytes, raw: bytes)
    requires r.Valid()
  {
    match r
    case Fresh => if |plain| < ID_LENGTH then raw == [] else Closed(START, plain[ID_LENGTH..], raw)
    case Within(u) => Closed(u, plain, raw)
    case Plain => raw == []
    case Direct => plain == []
    case Failed => false
  }

  predicate Closed(u: Unpadder, plain: bytes, raw: bytes)
    requires u.Valid()
  {
    && Proper(u, plain)
    && (raw != [] ==> After(u, plain).Idle() && After(u, plain).command == DIRECT)
  }

  // One piece moves its yield out of the future, and nothing else.
  lemma PieceByPiece(id: bytes, r: Reader, piece: bytes, rest: bytes, raw: bytes, filtering: bool)
    requires r.Valid() && r.Reads() && |id| == ID_LENGTH
    requires Regular(r, piece + rest, raw) && Expected(id, r, piece, filtering)
    ensures Future(r, piece + rest, raw) == Yield(id, r, piece, filtering) + Future(Fed(id, r, piece, filtering), rest, raw)
    ensures Regular(Fed(id, r, piece, filtering), rest, raw) && !Fed(id, r, piece, filtering).Failed?
  {
    hide Emit, After, Proper;
    if r.Plain? {
      assert (piece + rest) + raw == piece + (rest + raw);
    } else {
      var u, s := Beginning(r), Parse(r, piece);
      if r.Fresh? {
        assert (piece + rest)[ID_LENGTH..] == s + rest;
      }
      ParsedPiece(u, s, rest, raw);
    }
  }

  lemma ParsedPiece(u: Unpadder, s: bytes, rest: bytes, raw: bytes)
    requires u.Valid() && (u.Idle() ==> u.command <= DIRECT) && Closed(u, s + rest, raw)
    ensures Emit(u, s + rest) + raw == Emit(u, s) + Future(Settle(After(u, s)), rest, raw)
    ensures Regular(Settle(After(u, s)), rest, raw)
  {
    hide Emit, After, Proper;
    EmitAppend(u, s, rest);
    var v := After(u, s);
    Assoc(Emit(u, s), Emit(v, rest), raw);
    if v.Idle() {
      CommandIsKnown(u, s, rest);
      if v.command == END {
        EndPassesAll(v, rest);
      } else if v.command == DIRECT {
        NothingAfterDirect(v, rest);
      }
    }
  }

  lemma NothingAfterDirect(u: Unpadder, s: bytes)
    requires u.Valid() && u.Idle() && u.command == DIRECT && Proper(u, s)
    ensures s == [] && Emit(u, s) == [] && After(u, s) == u
  {
  }

  // In a proper stream the command of the last whole header is a known one.
  lemma {:induction false} CommandIsKnown(u: Unpadder, s: bytes, rest: bytes)
    requires u.Valid() && (u.Idle() ==> u.command <= DIRECT) && Proper(u, s + rest)
    ensures After(u, s).Idle() ==> After(u, s).command <= DIRECT
    decreases |s|
  {
    if s != [] {
      var v := Step(u, s[0]);
      assert (s + rest)[1..] == s[1..] + rest;
      assert Proper(v, s[1..] + rest);
      CommandIsKnown(v, s[1..], rest);
    }
  }

  // At the end of the encrypted stream nothing is left, unless raw bytes follow.
  lemma NothingIsLeft(r: Reader, raw: bytes)
    requires r.Valid() && !r.Direct? && Regular(r, [], raw)
    ensures Future(r, [], raw) == [] && raw == []
  {
  }

  // What ends a block decides what follows: more blocks, plain bytes, raw
  // bytes, or a failure.
  lemma CommandDecides(id: bytes, command: byte, content: bytes, padding: bytes, filtering: bool)
    requires |content| < 0x10000 && |padding| < 0x10000
    ensures
      var t := Fed(id, Within(START), Block(command, content, padding), filtering);
      && Yield(id, Within(START), Block(command, content, padding), filtering) == content
      && (command == 0 ==> t == Within(START)) && (command == 1 ==> t == Plain) && (command == 2 ==> t == Direct)
      && (command > 2 ==> t.Failed?)
  {
    hide Emit, After, Block;
    BlockDecodes(START, command, content, padding);
  }

  // The first piece of what a sender sent gets through exactly when it has the
  // id and a header: a shorter one turns the reader plain.
  lemma FirstPieceSurvives(id: bytes, piece: bytes, rest: bytes, raw: bytes, filtering: bool)
    requires |id| == ID_LENGTH && piece != [] && id <= piece + rest && Regular(Fresh, piece + rest, raw)
    ensures Yield(id, Fresh, piece, filtering) + Future(Fed(id, Fresh, piece, filtering), rest, raw)
            == Future(Fresh, piece + rest, raw)
            <==> |piece| >= OPENING_LENGTH
  {
    hide Emit, After, Proper;
    if |piece| >= OPENING_LENGTH {
      assert piece[..ID_LENGTH] == (piece + rest)[..ID_LENGTH] == id;
      PieceByPiece(id, Fresh, piece, rest, raw, filtering);
    } else {
      EmitIsNoLonger(START, (piece + rest)[ID_LENGTH..]);
      assert |piece + (rest + raw)| > |Future(Fresh, piece + rest, raw)|;
    }
  }

  // A plain piece gets through exactly when it is not taken for an opening.
  lemma PlainPieceSurvives(id: bytes, piece: bytes, filtering: bool)
    requires |id| == ID_LENGTH
    ensures Yield(id, Plain, piece, filtering) == piece <==> !(filtering && Opens(id, piece))
  {
    if filtering && Opens(id, piece) {
      EmitIsNoLonger(START, piece[ID_LENGTH..]);
    }
  }

  // After an opening that ends the padding at once, the detection still counts:
  // a piece of plain bytes that starts like an opening yields nothing.
  lemma LookalikeIsSwallowed(id: bytes)
    requires |id| == ID_LENGTH
    ensures
      var opening, plain := id + Block(END, [], []), id + Block(CONTINUE, [], []);
      && Expected(id, Fresh, opening, true)
      && Fed(id, Fresh, opening, true) == Plain
      && plain != [] && Yield(id, Plain, plain, true) == []
  {
    hide Emit, After;
    AtStart();
    BlockDecodes(START, END, [], []);
    BlockDecodes(START, CONTINUE, [], []);
    assert (id + Block(END, [], []))[ID_LENGTH..] == Block(END, [], []);
    assert (id + Block(CONTINUE, [], []))[ID_LENGTH..] == Block(CONTINUE, [], []);
    assert (id + Block(END, [], []))[..ID_LENGTH] == id && (id + Block(CONTINUE, [], []))[..ID_LENGTH] == id;
  }

  // Once filtering has stopped, plain pieces are not looked at any more.
  lemma PlainPasses(id: bytes, piece: bytes)
    ensures Fed(id, Plain, piece, false) == Plain && Yield(id, Plain, piece, false) == piece
  {
  }

  lemma {:induction false} EmitIsNoLonger(u: Unpadder, s: bytes)
    requires u.Valid()
    ensures |Emit(u, s)| <= |s|
    decreases |s|
  {
    if s != [] {
      EmitIsNoLonger(Step(u, s[0]), s[1..]);
    }
  }

  // One piece as the reader met it.
  datatype Piece = Piece(data: bytes, filtering: bool)

  function FedAll(id: bytes, r: Reader, pieces: seq<Piece>): (t: Reader)
    requires r.Valid()
    ensures t.Valid()
  {
    if pieces == [] then r
    else
      var last := |pieces| - 1;
      var before := FedAll(id, r, pieces[..last]);
      if before.Reads() then Fed(id, before, pieces[last].data, pieces[last].filtering) else before
  }

  predicate Orderly(id: bytes, r: Reader, pieces: seq<Piece>)
    requires r.Valid()
  {
    pieces == [] ||
    var last := |pieces| - 1;
    && Orderly(id, r, pieces[..last])
    && Expected(id, FedAll(id, r, pieces[..last]), pieces[last].data, pieces[last].filtering)
  }

  function Data(pieces: seq<Piece>): bytes {
    if pieces == [] then [] else Data(pieces[..|pieces| - 1]) + pieces[|pieces| - 1].data
  }

  lemma NoPieces(id: bytes, r: Reader)
    requires r.Valid()
    ensures FedAll(id, r, []) == r && Data([]) == [] && Orderly(id, r, [])
  {
  }

  lemma OneMorePiece(id: bytes, r: Reader, pieces: seq<Piece>, p: Piece)
    requires r.Valid()
    ensures Data(pieces + [p]) == Data(pieces) + p.data
    ensures FedAll(id, r, pieces).Reads() ==> FedAll(id, r, pieces + [p]) == Fed(id, FedAll(id, r, pieces), p.data, p.filtering)
    ensures Orderly(id, r, pieces + [p])
            <==> Orderly(id, r, pieces) && Expected(id, FedAll(id, r, pieces), p.data, p.filtering)
  {
    assert (pieces + [p])[..|pieces|] == pieces;
  }

  function YieldAll(id: bytes, r: Reader, pieces: seq<Piece>): bytes
    requires r.Valid()
  {
    if pieces == [] then []
    else
      var last := |pieces| - 1;
      var before := FedAll(id, r, pieces[..last]);
      YieldAll(id, r, pieces[..last])
      + if before.Reads() then Yield(id, before, pieces[last].data, pieces[last].filtering) else []
  }

  // However the stream is cut, the pieces move their share out of the future.
  lemma {:induction false} AnyPieces(id: bytes, r: Reader, pieces: seq<Piece>, rest: bytes, raw: bytes)
    requires r.Valid() && |id| == ID_LENGTH
    requires Regular(r, Data(pieces) + rest, raw) && Orderly(id, r, pieces)
    ensures Regular(FedAll(id, r, pieces), rest, raw)
    ensures Future(r, Data(pieces) + rest, raw) == YieldAll(id, r, pieces) + Future(FedAll(id, r, pieces), rest, raw)
    decreases |pieces|
  {
    hide Fed, Yield, Expected, Future;
    if pieces == [] {
      assert [] + rest == rest;
    } else {
      var last := |pieces| - 1;
      var head, p := pieces[..last], pieces[last];
      assert Data(pieces) + rest == Data(head) + (p.data + rest);
      AnyPieces(id, r, head, p.data + rest, raw);
      var before := FedAll(id, r, head);
      if before.Reads() {
        PieceByPiece(id, before, p.data, rest, raw, p.filtering);
        var y := Yield(id, before, p.data, p.filtering);
        assert (YieldAll(id, r, head) + y) + Future(FedAll(id, r, pieces), rest, raw)
            == YieldAll(id, r, head) + (y + Future(FedAll(id, r, pieces), rest, raw));
      } else {
        assert p.data + rest == [] && rest == [];
        assert YieldAll(id, r, head) + [] == YieldAll(id, r, head);
      }
    }
  }
}
