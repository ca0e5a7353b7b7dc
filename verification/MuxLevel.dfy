// How much stays in the buffered writer of mux.go when no call is in flight.
module MuxLevel {
  import opened Bytes
  import opened MuxFlush
  import opened MuxDirect

  // What a writer that holds n bytes holds after a piece.
  function Level(n: nat, piece: nat): (r: nat)
    requires n <= BUFFER_SIZE
    ensures r <= BUFFER_SIZE
  {
    if n + piece <= BUFFER_SIZE then n + piece
    else if n == 0 || n + piece > 2 * BUFFER_SIZE then 0
    else n + piece - BUFFER_SIZE
  }

  function Levels(n: nat, pieces: seq<bytes>): (r: nat)
    requires n <= BUFFER_SIZE
    ensures r <= BUFFER_SIZE
    decreases |pieces|
  {
    if pieces == [] then n else Levels(Level(n, |pieces[0]|), pieces[1..])
  }

  predicate Flushed(calls: map<nat, Call>, id: nat) {
    id in calls && calls[id].Done? && calls[id].flush
  }

  // What the calls, in the order in which they got the lock, leave behind.
  function Left(f: Frames, ids: seq<nat>, calls: map<nat, Call>): (r: nat)
    ensures r <= BUFFER_SIZE
  {
    if ids == [] || Flushed(calls, ids[|ids| - 1]) then 0
    else Levels(Left(f, Init(ids), calls), f(ids[|ids| - 1]))
  }

  lemma {:induction false} LeftDependsOnFlushes(f: Frames, ids: seq<nat>, a: map<nat, Call>, b: map<nat, Call>)
    requires forall i :: 0 <= i < |ids| ==> (Flushed(a, ids[i]) <==> Flushed(b, ids[i]))
    ensures Left(f, ids, a) == Left(f, ids, b)
  {
    hide Flushed, Levels;
    if ids != [] {
      assert Flushed(a, ids[|ids| - 1]) <==> Flushed(b, ids[|ids| - 1]);
      LeftDependsOnFlushes(f, Init(ids), a, b);
    }
  }

  // The pieces that the holder of the lock has still to write.
  function Ahead(s: Session): seq<bytes> {
    if s.holder.Some? && s.holder.value in s.calls && s.calls[s.holder.value].Writing?
    then s.calls[s.holder.value].todo else []
  }

  ghost predicate Leveled(f: Frames, s: Session) {
    Levels(|s.buffer|, Ahead(s)) == Left(f, s.locked, s.calls)
  }

  lemma SpillLevels(held: Held, piece: bytes, more: seq<bytes>)
    requires |held| + |piece| > BUFFER_SIZE
    ensures Levels(0, Spilled(held, piece).1 + more) == Levels(Level(|held|, |piece|), more)
  {
    if held == [] {
      assert Spilled(held, piece).1 + more == more;
    } else {
      var rest := piece[BUFFER_SIZE - |held|..];
      assert ([rest] + more)[0] == rest && ([rest] + more)[1..] == more;
    }
  }

  lemma CallsLevel(f: Frames, s: Session, e: Event)
    requires Inv(f, s) && Leveled(f, s) && Enabled(s, e) && (e.Ticket? || e.Check? || e.Direct?)
    ensures Leveled(f, Next(f, s, e))
  {
    hide Contiguous, Buffered, Tickets, LooksNewest, Flatten, Levels, Left;
    var t := Next(f, s, e);
    LeftDependsOnFlushes(f, s.locked, s.calls, t.calls);
    assert Ahead(t) == Ahead(s);
  }

  lemma PiecesLevel(f: Frames, s: Session, e: Event)
    requires Inv(f, s) && Leveled(f, s) && Enabled(s, e) && (e.Piece? || e.Spill?)
    ensures Leveled(f, Next(f, s, e))
  {
    hide Contiguous, Buffered, Tickets, Flatten, Left, Spilled;
    var t, todo := Next(f, s, e), s.calls[e.id].todo;
    LeftDependsOnFlushes(f, s.locked, s.calls, t.calls);
    assert Ahead(s) == todo;
    if e.Spill? {
      SpillLevels(s.buffer, todo[0], todo[1..]);
    }
  }

  lemma LockLevels(f: Frames, s: Session, id: nat)
    requires Inv(f, s) && Leveled(f, s) && Enabled(s, Lock(id))
    ensures Leveled(f, Next(f, s, Lock(id)))
  {
    hide Contiguous, Buffered, Tickets, Flatten;
    var t := Next(f, s, Lock(id));
    LeftDependsOnFlushes(f, s.locked, s.calls, t.calls);
    assert Init(t.locked) == s.locked && t.locked[|s.locked|] == id;
  }

  lemma LeaveLevels(f: Frames, s: Session, id: nat)
    requires Inv(f, s) && Leveled(f, s) && Enabled(s, Leave(id))
    ensures Leveled(f, Next(f, s, Leave(id)))
  {
    hide Contiguous, Buffered, Tickets, Flatten;
    var t := Next(f, s, Leave(id));
    assert Last(s) == Last(t) == id && Ahead(s) == Ahead(t) == [];
    if !s.calls[id].flush {
      LeftDependsOnFlushes(f, s.locked, s.calls, t.calls);
    }
  }

  lemma {:induction false} RunLevels(f: Frames, s: Session, es: seq<Event>)
    requires Inv(f, s) && Leveled(f, s) && Run(f, s, es).Some?
    ensures Leveled(f, Run(f, s, es).value)
    decreases |es|
  {
    hide Inv, Leveled, Next, Enabled;
    if es != [] {
      InvKeeps(f, s, es[0]);
      match es[0]
      case Lock(id) => LockLevels(f, s, id);
      case Leave(id) => LeaveLevels(f, s, id);
      case Piece(_) => PiecesLevel(f, s, es[0]);
      case Spill(_) => PiecesLevel(f, s, es[0]);
      case _ => CallsLevel(f, s, es[0]);
    }
    if es != [] {
      RunLevels(f, Next(f, s, es[0]), es[1..]);
    }
  }

  // When no call is in flight, the buffer is empty exactly if the last call to
  // get the lock has flushed, as the newest does, or if its frame, behind what
  // was left before, came out even with the buffer.
  lemma QuiescentBuffer(f: Frames, es: seq<Event>)
    requires Run(f, START, es).Some? && Quiescent(Run(f, START, es).value)
    requires Run(f, START, es).value.locked != []
    ensures
      var s := Run(f, START, es).value;
      Last(s) in s.calls && s.calls[Last(s)].Done? &&
      var c, before := s.calls[Last(s)], Left(f, Init(s.locked), s.calls);
      && (s.buffer == [] <==> c.flush || Levels(before, f(Last(s))) == 0)
      && (c.ticket == |s.issued| ==> c.flush)
      && (|s.issued| < RACE_RANGE ==> (c.flush <==> c.ticket == |s.issued|))
  {
    hide Run;
    LastFlushes(f, es);
    RunLevels(f, START, es);
  }

  // No frame comes out even that is not empty and has no piece longer than the
  // buffer.
  lemma {:induction false} SmallPiecesStay(n: nat, pieces: seq<bytes>)
    requires n <= BUFFER_SIZE && forall i :: 0 <= i < |pieces| ==> |pieces[i]| <= BUFFER_SIZE
    ensures Levels(n, pieces) == 0 <==> n == 0 && Flatten(pieces) == []
    decreases |pieces|
  {
    if pieces != [] {
      SmallPiecesStay(Level(n, |pieces[0]|), pieces[1..]);
    }
  }

  // So behind such a frame the buffer is empty exactly if the call had the
  // newest ticket, of fewer than 2^32.
  lemma SmallFrameStays(f: Frames, es: seq<Event>)
    requires Run(f, START, es).Some? && Quiescent(Run(f, START, es).value)
    requires
      var s := Run(f, START, es).value;
      && s.locked != [] && |s.issued| < RACE_RANGE && Flatten(f(Last(s))) != []
      && forall i :: 0 <= i < |f(Last(s))| ==> |f(Last(s))[i]| <= BUFFER_SIZE
    ensures
      var s := Run(f, START, es).value;
      Last(s) in s.calls && (s.buffer == [] <==> s.calls[Last(s)].ticket == |s.issued|)
  {
    hide Run, Quiescent;
    QuiescentBuffer(f, es);
    var s := Run(f, START, es).value;
    SmallPiecesStay(Left(f, Init(s.locked), s.calls), f(Last(s)));
  }
}
