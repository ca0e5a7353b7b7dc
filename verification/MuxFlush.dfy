// The ticket scheme by which concurrent writers of mux.go share flushes, as a
// step system: a call takes a ticket, waits for the lock, writes its frame in
// pieces to a bufio.Writer, flushes if its ticket is still the newest, and
// leaves. Beside them the direct writes, which go to the same connection
// without lock or buffer.
module MuxFlush {
  import opened Bytes

  const RACE_RANGE := 0x1_0000_0000

  // writeRace is a uint32; tickets are counted without wrap-around here.
  predicate LooksNewest(ticket: nat, issued: nat) {
    ticket % RACE_RANGE == issued % RACE_RANGE
  }

  // The size of a bufio.Writer that was given none.
  const BUFFER_SIZE := 4096
  type Held = b: bytes | |b| <= BUFFER_SIZE

  datatype Call =
    | Waiting(ticket: nat)
    | Writing(ticket: nat, todo: seq<bytes>)
    | Leaving(ticket: nat, flush: bool)
    | Done(ticket: nat, flush: bool)

  // issued lists the calls in ticket order, locked in the order they got the
  // lock, direct the direct writes in theirs; spilled says whether the buffered
  // writer has ever sent anything unasked. wire is what was sent, lane the part
  // of it that came from the buffered writer.
  datatype Session = Session(
    issued: seq<nat>, locked: seq<nat>, direct: seq<nat>, calls: map<nat, Call>, holder: Option<nat>,
    buffer: Held, lane: bytes, wire: bytes, spilled: bool)

  const START: Session := Session([], [], [], map[], None, [], [], [], false)

  // A piece that fits is kept; Spill is one turn of the loop in which the
  // buffered writer makes room for one that does not.
  datatype Event =
    | Ticket(id: nat) | Lock(id: nat) | Piece(id: nat) | Spill(id: nat) | Check(id: nat) | Leave(id: nat)
    | Direct(id: nat)

  // The pieces each call writes.
  type Frames = nat -> seq<bytes>

  predicate Enabled(s: Session, e: Event) {
    match e
    case Ticket(id) => id !in s.calls && id !in s.direct
    case Direct(id) => id !in s.calls && id !in s.direct
    case Lock(id) => id in s.calls && s.calls[id].Waiting? && s.holder.None?
    case Piece(id) => HasPiece(s, id) && |s.buffer| + |s.calls[id].todo[0]| <= BUFFER_SIZE
    case Spill(id) => HasPiece(s, id) && |s.buffer| + |s.calls[id].todo[0]| > BUFFER_SIZE
    case Check(id) => id in s.calls && s.calls[id].Writing? && s.calls[id].todo == []
    case Leave(id) => id in s.calls && s.calls[id].Leaving?
  }

  predicate HasPiece(s: Session, id: nat) {
    id in s.calls && s.calls[id].Writing? && s.calls[id].todo != []
  }

  function Next(f: Frames, s: Session, e: Event): Session
    requires Enabled(s, e)
  {
    match e
    case Ticket(id) =>
      s.(issued := s.issued + [id], calls := s.calls[id := Waiting(|s.issued| + 1)])
    case Lock(id) =>
      s.(holder := Some(id), locked := s.locked + [id], calls := s.calls[id := Writing(s.calls[id].ticket, f(id))])
    case Piece(id) =>
      s.(buffer := s.buffer + s.calls[id].todo[0],
         calls := s.calls[id := Writing(s.calls[id].ticket, s.calls[id].todo[1..])])
    case Spill(id) =>
      var (out, rest) := Spilled(s.buffer, s.calls[id].todo[0]);
      Sent(s, out).(buffer := [], spilled := true,
                    calls := s.calls[id := Writing(s.calls[id].ticket, rest + s.calls[id].todo[1..])])
    case Check(id) =>
      s.(calls := s.calls[id := Leaving(s.calls[id].ticket, LooksNewest(s.calls[id].ticket, |s.issued|))])
    case Leave(id) =>
      var c := s.calls[id];
      var t := s.(holder := None, calls := s.calls[id := Done(c.ticket, c.flush)]);
      if c.flush then Sent(t, s.buffer).(buffer := []) else t
    case Direct(id) =>
      s.(direct := s.direct + [id], wire := s.wire + Flatten(f(id)))
  }

  // What is sent to make room for a piece, and what is left of the piece: an
  // empty buffer lets the whole of it through, another is filled up first.
  function Spilled(held: Held, piece: bytes): (r: (bytes, seq<bytes>))
    requires |held| + |piece| > BUFFER_SIZE
    ensures r.0 != [] && r.0 + Flatten(r.1) == held + piece
  {
    if held == [] then (piece, [])
    else
      var room := BUFFER_SIZE - |held|;
      FlattenOne(piece[room..]);
      (held + piece[..room], [piece[room..]])
  }

  function Sent(s: Session, out: bytes): Session {
    s.(lane := s.lane + out, wire := s.wire + out)
  }

  // Tickets: call issued[i] has ticket i + 1.
  ghost predicate Tickets(s: Session) {
    && (forall i :: 0 <= i < |s.issued| ==> s.issued[i] in s.calls && s.calls[s.issued[i]].ticket == i + 1)
    && (forall id :: id in s.calls ==> 1 <= s.calls[id].ticket <= |s.issued| && s.issued[s.calls[id].ticket - 1] == id)
  }

  // The lock: its holder is the last of locked, and the only one inside.
  ghost predicate Locks(s: Session) {
    && (forall id :: id in s.calls ==> (s.calls[id].Writing? || s.calls[id].Leaving? <==> s.holder == Some(id)))
    && (s.holder.Some? ==> s.holder.value in s.calls && s.locked != [] && s.locked[|s.locked| - 1] == s.holder.value)
    && (forall id :: id in s.calls ==> (id in s.locked <==> !s.calls[id].Waiting?))
    && (forall i :: 0 <= i < |s.locked| ==> s.locked[i] in s.calls)
  }

  function Todo(s: Session): bytes {
    if s.holder.Some? && s.holder.value in s.calls && s.calls[s.holder.value].Writing?
    then Flatten(s.calls[s.holder.value].todo) else []
  }

  // The frames of calls, whole and one after the other.
  function Whole(f: Frames, ids: seq<nat>): bytes {
    if ids == [] then [] else Whole(f, ids[..|ids| - 1]) + Flatten(f(ids[|ids| - 1]))
  }

  // Contiguity: what left the buffer and what is in it are whole frames in
  // lock order, but for what the holder has still to write of its own.
  ghost predicate Contiguous(f: Frames, s: Session) {
    (s.lane + s.buffer) + Todo(s) == Whole(f, s.locked)
  }

  function Last(s: Session): nat
    requires s.locked != []
  {
    s.locked[|s.locked| - 1]
  }

  // What the last call to get the lock means for the buffer.
  ghost predicate Buffered(s: Session) {
    s.locked != [] && Last(s) in s.calls ==>
      var c := s.calls[Last(s)];
      && (c.Done? && c.flush ==> s.buffer == [])
      && ((c.Leaving? || c.Done?) && !c.flush ==> c.ticket < |s.issued|)
      && ((c.Leaving? || c.Done?) && c.flush && |s.issued| < RACE_RANGE ==>
            forall id :: id in s.calls && !s.calls[id].Waiting? && id != Last(s) ==> s.calls[id].ticket < c.ticket)
  }

  ghost predicate Inv(f: Frames, s: Session) {
    Tickets(s) && Locks(s) && Contiguous(f, s) && Buffered(s) && (s.locked == [] ==> s.buffer == [])
  }

  lemma TicketsKeep(f: Frames, s: Session, e: Event)
    requires Tickets(s) && Enabled(s, e)
    ensures Tickets(Next(f, s, e))
  {
    if e.Ticket? {
      NewTicket(f, s, e.id);
    } else {
      SameTickets(s, Next(f, s, e));
    }
  }

  lemma NewTicket(f: Frames, s: Session, id: nat)
    requires Tickets(s) && Enabled(s, Ticket(id))
    ensures Tickets(Next(f, s, Ticket(id)))
  {
    var t := Next(f, s, Ticket(id));
    assert t.issued[|s.issued|] == id;
    forall i | 0 <= i < |t.issued| ensures t.issued[i] in t.calls && t.calls[t.issued[i]].ticket == i + 1 {
      if i < |s.issued| {
        assert t.issued[i] == s.issued[i] && s.issued[i] in s.calls;
      }
    }
  }

  lemma SameTickets(s: Session, t: Session)
    requires Tickets(s) && t.issued == s.issued && t.calls.Keys == s.calls.Keys
    requires forall id :: id in s.calls ==> t.calls[id].ticket == s.calls[id].ticket
    ensures Tickets(t)
  {
    forall i | 0 <= i < |t.issued| ensures t.issued[i] in t.calls && t.calls[t.issued[i]].ticket == i + 1 {
      assert s.issued[i] in s.calls;
    }
  }

  lemma LocksKeep(f: Frames, s: Session, e: Event)
    requires Locks(s) && Enabled(s, e)
    ensures Locks(Next(f, s, e))
  {
    if e.Lock? {
      assert Next(f, s, e).locked[|s.locked|] == e.id;
    }
  }

  lemma ContiguousAfterPiece(f: Frames, s: Session, id: nat)
    requires Locks(s) && Contiguous(f, s) && Enabled(s, Piece(id))
    ensures Contiguous(f, Next(f, s, Piece(id)))
  {
    hide Whole;
    var todo := s.calls[id].todo;
    assert (s.lane + s.buffer) + (todo[0] + Flatten(todo[1..])) == (s.lane + (s.buffer + todo[0])) + Flatten(todo[1..]);
  }

  lemma ContiguousAfterSpill(f: Frames, s: Session, id: nat)
    requires Locks(s) && Contiguous(f, s) && Enabled(s, Spill(id))
    ensures Contiguous(f, Next(f, s, Spill(id)))
  {
    hide Whole, Spilled, Flatten;
    var todo := s.calls[id].todo;
    var (out, rest) := Spilled(s.buffer, todo[0]);
    assert Flatten(todo) == todo[0] + Flatten(todo[1..]) by { FlattenSplit(todo); }
    FlattenAppend(rest, todo[1..]);
    calc {
      (s.lane + s.buffer) + (todo[0] + Flatten(todo[1..]));
      s.lane + (s.buffer + todo[0]) + Flatten(todo[1..]);
      s.lane + (out + Flatten(rest)) + Flatten(todo[1..]);
      (s.lane + out) + [] + (Flatten(rest) + Flatten(todo[1..]));
    }
  }

  lemma FlattenSplit(xs: seq<bytes>)
    requires xs != []
    ensures Flatten(xs) == xs[0] + Flatten(xs[1..])
  {
  }

  lemma ContiguousKeeps(f: Frames, s: Session, e: Event)
    requires Locks(s) && Contiguous(f, s) && Enabled(s, e)
    ensures Contiguous(f, Next(f, s, e))
  {
    var t := Next(f, s, e);
    match e
    case Ticket(id) =>
      assert Todo(t) == Todo(s);
    case Lock(id) =>
      assert t.locked[..|t.locked| - 1] == s.locked && Last(t) == id;
      assert (s.lane + s.buffer) + [] == s.lane + s.buffer;
    case Piece(id) =>
      ContiguousAfterPiece(f, s, id);
    case Check(id) =>
      assert Flatten([]) == [];
    case Spill(id) =>
      ContiguousAfterSpill(f, s, id);
    case Leave(id) =>
      assert (s.lane + s.buffer) + [] == s.lane + s.buffer;
    case Direct(id) =>
      assert Todo(t) == Todo(s);
  }

  lemma BufferedAfterCheck(f: Frames, s: Session, id: nat)
    requires Inv(f, s) && Enabled(s, Check(id))
    ensures Buffered(Next(f, s, Check(id)))
  {
    var t := Next(f, s, Check(id));
    assert Last(t) == id && Last(s) == id;
    var ticket := s.calls[id].ticket;
    if |s.issued| < RACE_RANGE && t.calls[id].flush {
      assert ticket == |s.issued|;
      forall other | other in t.calls && other != id ensures t.calls[other].ticket < ticket {
        assert s.issued[s.calls[other].ticket - 1] == other;
      }
    }
  }

  lemma BufferedAfterOther(f: Frames, s: Session, e: Event)
    requires Inv(f, s) && Enabled(s, e) && !e.Check?
    ensures Buffered(Next(f, s, e))
  {
    hide Contiguous, Flatten, Whole, LooksNewest, Spilled;
    var t := Next(f, s, e);
    if e.Lock? || e.Leave? {
      assert Last(t) == e.id;
    }
  }

  lemma BufferedKeeps(f: Frames, s: Session, e: Event)
    requires Inv(f, s) && Enabled(s, e)
    ensures Buffered(Next(f, s, e))
  {
    hide Inv, Buffered, Next;
    if e.Check? {
      BufferedAfterCheck(f, s, e.id);
    } else {
      BufferedAfterOther(f, s, e);
    }
  }

  lemma InvKeeps(f: Frames, s: Session, e: Event)
    requires Inv(f, s) && Enabled(s, e)
    ensures Inv(f, Next(f, s, e))
  {
    hide Contiguous, Buffered;
    TicketsKeep(f, s, e);
    LocksKeep(f, s, e);
    ContiguousKeeps(f, s, e);
    BufferedKeeps(f, s, e);
  }

  // Runs: any interleaving of steps that are possible when they come.
  function Run(f: Frames, s: Session, es: seq<Event>): Option<Session>
    decreases |es|
  {
    if es == [] then Some(s)
    else if Enabled(s, es[0]) then Run(f, Next(f, s, es[0]), es[1..])
    else None
  }

  lemma {:induction false} RunKeepsInv(f: Frames, s: Session, es: seq<Event>)
    requires Inv(f, s) && Run(f, s, es).Some?
    ensures Inv(f, Run(f, s, es).value)
    decreases |es|
  {
    hide Inv, Next, Enabled;
    if es != [] {
      InvKeeps(f, s, es[0]);
      RunKeepsInv(f, Next(f, s, es[0]), es[1..]);
    }
  }

  predicate Quiescent(s: Session) {
    forall id :: id in s.calls ==> s.calls[id].Done?
  }

  // The frames of the calls are never torn in the buffer or mixed with another:
  // what went through it is whole frames in lock order but for the holder's
  // own. Without direct writes that is all that was sent.
  lemma FramesStayWhole(f: Frames, es: seq<Event>)
    requires Run(f, START, es).Some?
    ensures
      var s := Run(f, START, es).value;
      && s.lane + s.buffer <= Whole(f, s.locked)
      && (s.holder.None? ==> s.lane + s.buffer == Whole(f, s.locked))
      && (s.direct == [] ==> s.wire == s.lane)
  {
    RunKeepsInv(f, START, es);
    UndirectedWire(f, START, es);
    var s := Run(f, START, es).value;
    assert (s.lane + s.buffer) + [] == s.lane + s.buffer;
  }

  lemma {:induction false} UndirectedWire(f: Frames, s: Session, es: seq<Event>)
    requires Run(f, s, es).Some? && (s.direct == [] ==> s.wire == s.lane)
    ensures var t := Run(f, s, es).value; t.direct == [] ==> t.wire == t.lane
    decreases |es|
  {
    if es != [] {
      UndirectedWire(f, Next(f, s, es[0]), es[1..]);
    }
  }

  // A call that still has the newest ticket when it leaves empties the buffer.
  lemma NewestLeavesNothing(f: Frames, es: seq<Event>, id: nat)
    requires Run(f, START, es).Some?
    requires Enabled(Run(f, START, es).value, Leave(id))
    requires Run(f, START, es).value.calls[id].ticket == |Run(f, START, es).value.issued|
    ensures Next(f, Run(f, START, es).value, Leave(id)).buffer == []
  {
    RunKeepsInv(f, START, es);
  }

  // When no call is in flight, a last call to get the lock that had the newest
  // ticket has flushed, and of fewer than 2^32 calls no other.
  lemma LastFlushes(f: Frames, es: seq<Event>)
    requires Run(f, START, es).Some? && Quiescent(Run(f, START, es).value)
    requires Run(f, START, es).value.locked != []
    ensures
      var s := Run(f, START, es).value;
      Last(s) in s.calls && s.calls[Last(s)].Done? &&
      var c := s.calls[Last(s)];
      && (c.ticket == |s.issued| ==> c.flush)
      && (c.flush ==> s.buffer == [])
      && (|s.issued| < RACE_RANGE ==> (c.flush <==> c.ticket == |s.issued|))
  {
    RunKeepsInv(f, START, es);
    var s := Run(f, START, es).value;
    if s.calls[Last(s)].flush && |s.issued| < RACE_RANGE {
      var newest := s.issued[|s.issued| - 1];
      assert s.calls[newest].ticket == |s.issued|;
    }
  }

  // If the lock is granted in ticket order, nothing stays behind.
  ghost predicate InTicketOrder(s: Session) {
    forall i, j :: 0 <= i < j < |s.locked| && s.locked[i] in s.calls && s.locked[j] in s.calls ==>
      s.calls[s.locked[i]].ticket < s.calls[s.locked[j]].ticket
  }

  lemma OrderedLockLeavesNothing(f: Frames, es: seq<Event>)
    requires Run(f, START, es).Some? && Quiescent(Run(f, START, es).value)
    requires InTicketOrder(Run(f, START, es).value)
    ensures Run(f, START, es).value.buffer == []
  {
    RunKeepsInv(f, START, es);
    var s := Run(f, START, es).value;
    if s.locked != [] {
      LastFlushes(f, es);
      var newest := s.issued[|s.issued| - 1];
      assert newest in s.locked;
      var i :| 0 <= i < |s.locked| && s.locked[i] == newest;
      if i < |s.locked| - 1 {
        assert s.calls[s.locked[i]].ticket < s.calls[s.locked[|s.locked| - 1]].ticket;
      }
    }
  }

  // One call of a single piece, from getting the lock to leaving.
  function WholeCall(id: nat): seq<Event> {
    [Lock(id), Piece(id), Check(id), Leave(id)]
  }

  function After(f: Frames, s: Session, id: nat): Session
    requires id in s.calls && |f(id)| == 1 && |s.buffer| + |f(id)[0]| <= BUFFER_SIZE
  {
    var flush := LooksNewest(s.calls[id].ticket, |s.issued|);
    var t := s.(locked := s.locked + [id], holder := None, calls := s.calls[id := Done(s.calls[id].ticket, flush)],
                buffer := s.buffer + f(id)[0]);
    if flush then Sent(t, t.buffer).(buffer := []) else t
  }

  lemma OneCall(f: Frames, s: Session, id: nat)
    requires Enabled(s, Lock(id)) && |f(id)| == 1 && |s.buffer| + |f(id)[0]| <= BUFFER_SIZE
    ensures Run(f, s, WholeCall(id)) == Some(After(f, s, id))
  {
    var c := WholeCall(id);
    var ticket := s.calls[id].ticket;
    var s1 := Next(f, s, c[0]);
    var s2 := Next(f, s1, c[1]);
    var s3 := Next(f, s2, c[2]);
    var s4 := Next(f, s3, c[3]);
    assert s4 == After(f, s, id);
    assert Run(f, s3, [c[3]]) == Run(f, s4, []);
    assert Run(f, s2, [c[2], c[3]]) == Run(f, s3, [c[3]]) by { assert [c[2], c[3]][1..] == [c[3]]; }
    assert Run(f, s1, [c[1], c[2], c[3]]) == Run(f, s2, [c[2], c[3]]) by { assert [c[1], c[2], c[3]][1..] == [c[2], c[3]]; }
    assert c[1..] == [c[1], c[2], c[3]];
  }

  lemma {:induction false} RunAppend(f: Frames, s: Session, es: seq<Event>, more: seq<Event>)
    requires Run(f, s, es).Some?
    ensures Run(f, s, es + more) == Run(f, Run(f, s, es).value, more)
    decreases |es|
  {
    if es == [] {
      assert es + more == more;
    } else {
      assert (es + more)[0] == es[0] && (es + more)[1..] == es[1..] + more;
      RunAppend(f, Next(f, s, es[0]), es[1..], more);
    }
  }

  const BOTH_WAIT: Session := Session([0, 1], [], [], map[0 := Waiting(1), 1 := Waiting(2)], None, [], [], [], false)

  lemma TwoTickets(f: Frames)
    ensures Run(f, START, [Ticket(0), Ticket(1)]) == Some(BOTH_WAIT)
  {
    var s1 := Next(f, START, Ticket(0));
    assert Next(f, s1, Ticket(1)) == BOTH_WAIT;
    assert [Ticket(0), Ticket(1)][1..] == [Ticket(1)];
    assert Run(f, s1, [Ticket(1)]) == Run(f, BOTH_WAIT, []);
  }

  // Without that order a frame can stay behind: the first call gets the lock
  // after the second, which alone had the newest ticket.
  lemma OvertakenFrameStays(f: Frames)
    requires f(0) == [[7]] && f(1) == [[8]]
    ensures
      var r := Run(f, START, [Ticket(0), Ticket(1)] + (WholeCall(1) + WholeCall(0)));
      r.Some? && Quiescent(r.value) && r.value.buffer == [7] && r.value.wire == [8]
  {
    hide Run, WholeCall;
    TwoTickets(f);
    RunAppend(f, START, [Ticket(0), Ticket(1)], WholeCall(1) + WholeCall(0));
    OneCall(f, BOTH_WAIT, 1);
    var between := After(f, BOTH_WAIT, 1);
    RunAppend(f, BOTH_WAIT, WholeCall(1), WholeCall(0));
    OneCall(f, between, 0);
  }

  // Wrap-around of the counter only adds flushes: the newest ticket always
  // looks newest, and another one only 2^32 tickets or a multiple later.
  lemma WrapOnlyAddsFlushes(ticket: nat, issued: nat)
    requires 1 <= ticket <= issued
    ensures ticket == issued ==> LooksNewest(ticket, issued)
    ensures LooksNewest(ticket, issued) && ticket != issued ==> issued - ticket >= RACE_RANGE
  {
  }
}
