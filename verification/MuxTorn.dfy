// Direct writes inside a frame, mux.go: the connection carries whole frames
// whatever they contain exactly if no direct write comes inside one.
module MuxTorn {
  import opened Bytes
  import opened MuxFlush
  import opened MuxDirect

  // Frames of other contents and the same lengths.
  ghost predicate SameLengths(f: Frames, g: Frames) {
    forall id :: SamePieces(f(id), g(id))
  }

  predicate SamePieces(xs: seq<bytes>, ys: seq<bytes>) {
    |xs| == |ys| && forall i :: 0 <= i < |xs| ==> |xs[i]| == |ys[i]|
  }

  lemma {:induction false} SamePiecesFlatten(xs: seq<bytes>, ys: seq<bytes>)
    requires SamePieces(xs, ys)
    ensures |Flatten(xs)| == |Flatten(ys)|
  {
    if xs != [] {
      SamePiecesFlatten(xs[1..], ys[1..]);
    }
  }

  lemma {:induction false} SameWhole(f: Frames, g: Frames, ids: seq<nat>)
    requires SameLengths(f, g)
    ensures |Whole(f, ids)| == |Whole(g, ids)|
  {
    if ids != [] {
      SameWhole(f, g, Init(ids));
      SamePiecesFlatten(f(ids[|ids| - 1]), g(ids[|ids| - 1]));
    }
  }

  predicate SameCall(c: Call, d: Call) {
    c.ticket == d.ticket
    && match c
       case Waiting(_) => d.Waiting?
       case Writing(_, todo) => d.Writing? && SamePieces(todo, d.todo)
       case Leaving(_, flush) => d.Leaving? && d.flush == flush
       case Done(_, flush) => d.Done? && d.flush == flush
  }

  // Two sessions that differ in the contents of frames only.
  ghost predicate Alike(s: Session, t: Session) {
    && (s.issued, s.locked, s.direct, s.holder) == (t.issued, t.locked, t.direct, t.holder)
    && s.calls.Keys == t.calls.Keys
    && (forall id :: id in s.calls ==> SameCall(s.calls[id], t.calls[id]))
    && (|s.buffer|, |s.lane|, |s.wire|) == (|t.buffer|, |t.lane|, |t.wire|)
  }

  lemma SpillAlike(a: Held, x: bytes, b: Held, y: bytes)
    requires |a| == |b| && |x| == |y| && |a| + |x| > BUFFER_SIZE
    ensures |Spilled(a, x).0| == |Spilled(b, y).0| && SamePieces(Spilled(a, x).1, Spilled(b, y).1)
  {
  }

  lemma PieceAlike(f: Frames, g: Frames, s: Session, t: Session, e: Event)
    requires Alike(s, t) && Enabled(s, e) && (e.Piece? || e.Spill?)
    ensures Enabled(t, e) && Alike(Next(f, s, e), Next(g, t, e))
  {
    hide Spilled, Flatten;
    assert SameCall(s.calls[e.id], t.calls[e.id]);
    if e.Spill? {
      SpillAlike(s.buffer, s.calls[e.id].todo[0], t.buffer, t.calls[e.id].todo[0]);
    }
  }

  lemma StepAlike(f: Frames, g: Frames, s: Session, t: Session, e: Event)
    requires SameLengths(f, g) && Alike(s, t) && Enabled(s, e)
    ensures Enabled(t, e) && Alike(Next(f, s, e), Next(g, t, e))
  {
    hide Spilled, LooksNewest, Flatten, HasPiece;
    if e.Piece? || e.Spill? {
      PieceAlike(f, g, s, t, e);
    } else if e.Direct? {
      SamePiecesFlatten(f(e.id), g(e.id));
    } else if e.Lock? {
      assert SamePieces(f(e.id), g(e.id));
    }
  }

  lemma CutsAlike(f: Frames, g: Frames, s: Session, t: Session, e: Event)
    requires SameLengths(f, g) && Alike(s, t)
    ensures Cuts(f, s, e) <==> Cuts(g, t, e)
  {
    hide Flatten, Whole;
    if e.Direct? {
      SamePiecesFlatten(f(e.id), g(e.id));
    }
    forall n | 0 <= n <= |s.locked| ensures |Whole(f, s.locked[..n])| == |Whole(g, t.locked[..n])| {
      SameWhole(f, g, s.locked[..n]);
    }
  }

  // So runs are possible, and come without a write inside a frame, whatever
  // the frames contain.
  lemma {:induction false} RunAlike(f: Frames, g: Frames, s: Session, t: Session, es: seq<Event>)
    requires SameLengths(f, g) && Alike(s, t) && Run(f, s, es).Some?
    ensures Run(g, t, es).Some? && Alike(Run(f, s, es).value, Run(g, t, es).value)
    ensures Uncut(f, s, es) <==> Uncut(g, t, es)
    decreases |es|
  {
    hide SameLengths, Alike, Next, Enabled, Cuts;
    if es != [] {
      StepAlike(f, g, s, t, es[0]);
      CutsAlike(f, g, s, t, es[0]);
      RunAlike(f, g, Next(f, s, es[0]), Next(g, t, es[0]), es[1..]);
    }
  }

  // A call gets the lock once, and direct writes are no calls.
  ghost predicate Once(s: Session) {
    && (forall i, j :: 0 <= i < j < |s.locked| ==> s.locked[i] != s.locked[j])
    && (forall i :: 0 <= i < |s.direct| ==> s.direct[i] !in s.calls)
  }

  lemma OnceKeeps(f: Frames, s: Session, e: Event)
    requires Inv(f, s) && Once(s) && Enabled(s, e)
    ensures Once(Next(f, s, e))
  {
    hide Contiguous, Buffered, Tickets, Spilled, LooksNewest, Flatten;
    var t := Next(f, s, e);
    if e.Lock? {
      assert e.id !in s.locked;
    }
  }

  lemma StartInvariants(f: Frames)
    ensures Inv(f, START) && Once(START)
  {
  }

  lemma {:induction false} RunKeepsOnce(f: Frames, s: Session, es: seq<Event>)
    requires Inv(f, s) && Once(s) && Run(f, s, es).Some?
    ensures Once(Run(f, s, es).value)
    decreases |es|
  {
    hide Inv, Once, Next, Enabled;
    if es != [] {
      InvKeeps(f, s, es[0]);
      OnceKeeps(f, s, es[0]);
      RunKeepsOnce(f, Next(f, s, es[0]), es[1..]);
    }
  }

  // What is sent after s: nothing is taken back, and a mark the buffered writer
  // sends reaches the connection.
  ghost predicate Extends(s: Session, t: Session) {
    && s.locked <= t.locked && s.wire <= t.wire && s.lane <= t.lane
    && (1 in t.lane[|s.lane|..] ==> 1 in t.wire[|s.wire|..])
  }

  lemma SentExtends(s: Session, t: Session, out: bytes, sent: bytes)
    requires s.locked <= t.locked && t.lane == s.lane + out && t.wire == s.wire + sent
    requires 1 in out ==> 1 in sent
    ensures Extends(s, t)
  {
    assert t.lane[|s.lane|..] == out && t.wire[|s.wire|..] == sent;
  }

  lemma StepExtends(f: Frames, s: Session, e: Event)
    requires Enabled(s, e)
    ensures Extends(s, Next(f, s, e))
  {
    hide Spilled, LooksNewest, Flatten, Extends;
    var t := Next(f, s, e);
    assert s.lane + [] == s.lane && s.wire + [] == s.wire;
    if e.Direct? {
      SentExtends(s, t, [], Flatten(f(e.id)));
    } else if e.Spill? {
      var out := Spilled(s.buffer, s.calls[e.id].todo[0]).0;
      SentExtends(s, t, out, out);
    } else if e.Leave? && s.calls[e.id].flush {
      SentExtends(s, t, s.buffer, s.buffer);
    } else {
      SentExtends(s, t, [], []);
    }
  }

  lemma ExtendsFurther(s: Session, t: Session, u: Session)
    requires Extends(s, t) && Extends(t, u)
    ensures Extends(s, u)
  {
    CutTail(u.lane, |s.lane|, |t.lane|);
    CutTail(u.wire, |s.wire|, |t.wire|);
    assert u.lane[|s.lane|..|t.lane|] == t.lane[|s.lane|..];
    assert u.wire[|s.wire|..|t.wire|] == t.wire[|s.wire|..];
  }

  lemma {:induction false} RunExtends(f: Frames, s: Session, es: seq<Event>)
    requires Run(f, s, es).Some?
    ensures Extends(s, Run(f, s, es).value)
    decreases |es|
  {
    hide Extends, Next, Enabled;
    if es == [] {
      assert s.lane + [] == s.lane && s.wire + [] == s.wire;
      SentExtends(s, s, [], []);
    } else {
      StepExtends(f, s, es[0]);
      RunExtends(f, Next(f, s, es[0]), es[1..]);
      ExtendsFurther(s, Next(f, s, es[0]), Run(f, s, es).value);
    }
  }

  // Frames in which c is told from all others: its bytes are ones, theirs zeros.
  function Marked(f: Frames, c: nat): Frames {
    (id: nat) => Filled(f(id), if id == c then 1 else 0)
  }

  function Filled(xs: seq<bytes>, v: byte): (r: seq<bytes>)
    ensures SamePieces(xs, r)
  {
    if xs == [] then [] else [seq(|xs[0]|, _ => v)] + Filled(xs[1..], v)
  }

  lemma {:induction false} FilledIsUniform(xs: seq<bytes>, v: byte)
    ensures forall k :: 0 <= k < |Flatten(Filled(xs, v))| ==> Flatten(Filled(xs, v))[k] == v
  {
    if xs != [] {
      FilledIsUniform(xs[1..], v);
    }
  }

  lemma MarkedFrames(f: Frames, c: nat, id: nat)
    ensures forall k :: 0 <= k < |Flatten(Marked(f, c)(id))| ==>
              Flatten(Marked(f, c)(id))[k] == if id == c then 1 else 0
  {
    FilledIsUniform(f(id), if id == c then 1 else 0);
  }

  predicate AtMostOnce(c: nat, ids: seq<nat>) {
    forall i, j :: 0 <= i < j < |ids| && ids[i] == c ==> ids[j] != c
  }

  lemma {:induction false} MergesKeepsOnce(order: seq<nat>, a: seq<nat>, b: seq<nat>, c: nat)
    requires Merges(order, a, b) && c !in b
    ensures c !in a ==> c !in order
    ensures AtMostOnce(c, a) ==> AtMostOnce(c, order)
    decreases |order|
  {
    if order != [] {
      var last := order[|order| - 1];
      assert order == Init(order) + [last];
      if a != [] && a[|a| - 1] == last && Merges(Init(order), Init(a), b) {
        MergesKeepsOnce(Init(order), Init(a), b, c);
        assert a == Init(a) + [last];
      } else {
        MergesKeepsOnce(Init(order), a, Init(b), c);
        assert b[|b| - 1] == last;
      }
    }
  }

  // A mark, something else, and a mark again.
  ghost predicate Gap(b: bytes) {
    exists i, j, k :: 0 <= i < j < k < |b| && b[i] == 1 && b[j] != 1 && b[k] == 1
  }

  lemma {:induction false} UnmarkedWhole(f: Frames, c: nat, ids: seq<nat>)
    requires c !in ids
    ensures 1 !in Whole(Marked(f, c), ids)
  {
    if ids != [] {
      UnmarkedWhole(f, c, Init(ids));
      MarkedFrames(f, c, ids[|ids| - 1]);
    }
  }

  lemma {:induction false} WholeHasNoGap(f: Frames, c: nat, ids: seq<nat>)
    requires AtMostOnce(c, ids)
    ensures !Gap(Whole(Marked(f, c), ids))
  {
    if ids != [] {
      var last := ids[|ids| - 1];
      MarkedFrames(f, c, last);
      WholeHasNoGap(f, c, Init(ids));
      if last == c {
        assert c !in Init(ids);
        UnmarkedWhole(f, c, Init(ids));
      }
    }
  }

  // Where the frame of the n-th call is marked.
  lemma MarkedPart(f: Frames, ids: seq<nat>, n: nat, k: nat)
    requires n < |ids| && |Whole(Marked(f, ids[n]), ids[..n])| <= k < |Whole(Marked(f, ids[n]), ids[..n + 1])|
    ensures k < |Whole(Marked(f, ids[n]), ids)| && Whole(Marked(f, ids[n]), ids)[k] == 1
  {
    hide Whole;
    var g := Marked(f, ids[n]);
    WholeGrows(g, ids, n + 1, |ids|);
    WholeOne(g, ids[..n], ids[n]);
    MarkedFrames(f, ids[n], ids[n]);
    assert ids[..n] + [ids[n]] == ids[..n + 1] && ids[..|ids|] == ids;
  }

  // A frame of which a part was sent at s, and the rest at t.
  lemma MarksOnBothSides(f: Frames, g: Frames, s: Session, t: Session, n: nat)
    requires n < |s.locked| && g == Marked(f, s.locked[n])
    requires |Whole(g, s.locked[..n])| < |s.lane| < |Whole(g, s.locked[..n + 1])|
    requires Extends(s, t) && t.lane == Whole(g, t.locked)
    ensures 1 in s.lane && 1 in t.lane[|s.lane|..]
  {
    hide Whole;
    var lo := |Whole(g, s.locked[..n])|;
    assert t.locked[..n] == s.locked[..n] && t.locked[..n + 1] == s.locked[..n + 1] && t.locked[n] == s.locked[n];
    MarkedPart(f, t.locked, n, lo);
    MarkedPart(f, t.locked, n, |s.lane|);
    assert s.lane[lo] == t.lane[lo] == 1;
    assert t.lane[|s.lane|..][0] == 1;
  }

  // A write inside the frame of call c leaves a gap in what was sent.
  lemma CutLeavesGap(f: Frames, g: Frames, s: Session, id: nat, n: nat, es: seq<Event>)
    requires n < |s.locked| && g == Marked(f, s.locked[n]) && Inv(g, s) && Once(s) && Extends(START, s)
    requires Enabled(s, Direct(id)) && Flatten(g(id)) != []
    requires |Whole(g, s.locked[..n])| < |s.lane| < |Whole(g, s.locked[..n + 1])|
    requires Run(g, Next(g, s, Direct(id)), es).Some? && AtRest(Run(g, Next(g, s, Direct(id)), es).value)
    ensures Gap(Run(g, Next(g, s, Direct(id)), es).value.wire)
  {
    hide Whole, Tickets, Buffered, Gap, Run;
    var u := Next(g, s, Direct(id));
    var t := Run(g, u, es).value;
    InvKeeps(g, s, Direct(id));
    RunKeepsInv(g, u, es);
    RunExtends(g, u, es);
    assert (t.lane + []) + [] == t.lane;
    assert s.lane[|START.lane|..] == s.lane && s.wire[|START.wire|..] == s.wire;
    assert Extends(s, t);
    MarksOnBothSides(f, g, s, t, n);
    MarkedFrames(f, s.locked[n], id);
    assert id !in s.calls && s.locked[n] in s.calls;
    GapAcross(s.wire, Flatten(g(id)), t.wire[|u.wire|..]);
    assert t.wire == u.wire + t.wire[|u.wire|..];
  }

  lemma GapAcross(a: bytes, b: bytes, d: bytes)
    requires 1 in a && b != [] && b[0] != 1 && 1 in d
    ensures Gap((a + b) + d)
  {
    var i :| 0 <= i < |a| && a[i] == 1;
    var k :| 0 <= k < |d| && d[k] == 1;
    var all := (a + b) + d;
    assert all[i] == 1 && all[|a|] == b[0] && all[|a| + |b| + k] == 1;
  }

  // Where the first write inside a frame comes.
  lemma {:induction false} FirstCut(f: Frames, s: Session, es: seq<Event>) returns (k: nat)
    requires Run(f, s, es).Some? && !Uncut(f, s, es)
    ensures k < |es| && Run(f, s, es[..k]).Some?
    ensures Enabled(Run(f, s, es[..k]).value, es[k]) && Cuts(f, Run(f, s, es[..k]).value, es[k])
    ensures Run(f, Next(f, Run(f, s, es[..k]).value, es[k]), es[k + 1..]) == Run(f, s, es)
    decreases |es|
  {
    hide Cuts, Next, Enabled;
    if Cuts(f, s, es[0]) {
      k := 0;
    } else {
      var rest := FirstCut(f, Next(f, s, es[0]), es[1..]);
      k := rest + 1;
      assert es[..k][1..] == es[1..][..rest] && es[..k][0] == es[0] && es[1..][rest + 1..] == es[k + 1..];
    }
  }

  // The connection carries whole frames in some order, each of them once.
  ghost predicate CarriesWhole(f: Frames, s: Session) {
    exists order :: Merges(order, s.locked, s.direct) && s.wire == Whole(f, order)
  }

  lemma GapIsNoWhole(f: Frames, es: seq<Event>, c: nat)
    requires Run(Marked(f, c), START, es).Some? && c in Run(Marked(f, c), START, es).value.locked
    requires Gap(Run(Marked(f, c), START, es).value.wire)
    ensures !CarriesWhole(Marked(f, c), Run(Marked(f, c), START, es).value)
  {
    hide Whole, Gap, Run, Tickets, Buffered, Contiguous;
    var g := Marked(f, c);
    StartInvariants(g);
    RunKeepsInv(g, START, es);
    RunKeepsOnce(g, START, es);
    var s := Run(g, START, es).value;
    forall order | Merges(order, s.locked, s.direct) ensures s.wire != Whole(g, order) {
      MergesKeepsOnce(order, s.locked, s.direct, c);
      WholeHasNoGap(f, c, order);
    }
  }

  lemma StaysLocked(f: Frames, s: Session, e: Event, es: seq<Event>)
    requires Enabled(s, e) && Run(f, Next(f, s, e), es).Some?
    ensures s.locked <= Run(f, Next(f, s, e), es).value.locked
  {
    hide Run;
    StepExtends(f, s, e);
    RunExtends(f, Next(f, s, e), es);
  }

  // A run with a write inside a frame, and contents of the same lengths with
  // which the connection carries no whole frames.
  lemma CutIsTorn(f: Frames, es: seq<Event>) returns (g: Frames)
    requires Run(f, START, es).Some? && AtRest(Run(f, START, es).value) && !Uncut(f, START, es)
    ensures SameLengths(f, g) && Run(g, START, es).Some? && !CarriesWhole(g, Run(g, START, es).value)
  {
    hide Run, Uncut, Next, Enabled, Inv, Once, Whole, Gap, CarriesWhole, Extends;
    var k := FirstCut(f, START, es);
    var s := Run(f, START, es[..k]).value;
    var n :| 0 <= n < |s.locked| && |Whole(f, s.locked[..n])| < |s.lane| < |Whole(f, s.locked[..n + 1])|;
    var c := s.locked[n];
    g := Marked(f, c);
    RunAlike(f, g, START, START, es[..k]);
    RunAlike(f, g, START, START, es);
    var t := Run(g, START, es[..k]).value;
    StartInvariants(g);
    RunKeepsInv(g, START, es[..k]);
    RunKeepsOnce(g, START, es[..k]);
    RunExtends(g, START, es[..k]);
    SameWhole(f, g, s.locked[..n]);
    SameWhole(f, g, s.locked[..n + 1]);
    SamePiecesFlatten(f(es[k].id), g(es[k].id));
    RunThrough(g, START, es, k);
    CutLeavesGap(f, g, t, es[k].id, n, es[k + 1..]);
    StaysLocked(g, t, es[k], es[k + 1..]);
    GapIsNoWhole(f, es, c);
  }

  // The connection carries whole frames, whatever they contain, exactly if no
  // direct write comes inside a frame.
  lemma WholeIffUncut(f: Frames, es: seq<Event>)
    requires Run(f, START, es).Some? && AtRest(Run(f, START, es).value)
    ensures
      (forall g :: SameLengths(f, g) ==> Run(g, START, es).Some? && CarriesWhole(g, Run(g, START, es).value))
      <==> Uncut(f, START, es)
  {
    hide Run, Uncut, Merges, Whole;
    if Uncut(f, START, es) {
      forall g | SameLengths(f, g) ensures Run(g, START, es).Some? && CarriesWhole(g, Run(g, START, es).value) {
        RunAlike(f, g, START, START, es);
        var order := WireIsWhole(g, es);
      }
    } else {
      var g := CutIsTorn(f, es);
    }
  }

  lemma {:induction false} RunThrough(f: Frames, s: Session, es: seq<Event>, k: nat)
    requires k < |es| && Run(f, s, es).Some?
    ensures Run(f, s, es[..k]).Some? && Enabled(Run(f, s, es[..k]).value, es[k])
    ensures Run(f, Next(f, Run(f, s, es[..k]).value, es[k]), es[k + 1..]) == Run(f, s, es)
    decreases k
  {
    hide Next, Enabled;
    if k > 0 {
      assert es[..k][1..] == es[1..][..k - 1] && es[1..][k..] == es[k + 1..];
      RunThrough(f, Next(f, s, es[0]), es[1..], k - 1);
    }
  }

  // Pieces that fit are kept.
  function Pieces(id: nat, n: nat): seq<Event> {
    if n == 0 then [] else [Piece(id)] + Pieces(id, n - 1)
  }

  function Keeping(s: Session, id: nat, n: nat): Session
    requires id in s.calls && s.calls[id].Writing? && n <= |s.calls[id].todo|
    requires |s.buffer| + |Flatten(s.calls[id].todo[..n])| <= BUFFER_SIZE
  {
    var c := s.calls[id];
    s.(buffer := s.buffer + Flatten(c.todo[..n]), calls := s.calls[id := Writing(c.ticket, c.todo[n..])])
  }

  lemma {:induction false} PiecesAreKept(f: Frames, s: Session, id: nat, n: nat)
    requires id in s.calls && s.calls[id].Writing? && n <= |s.calls[id].todo|
    requires |s.buffer| + |Flatten(s.calls[id].todo[..n])| <= BUFFER_SIZE
    ensures Run(f, s, Pieces(id, n)) == Some(Keeping(s, id, n))
    decreases n
  {
    var todo := s.calls[id].todo;
    if n == 0 {
      assert s.buffer + [] == s.buffer && todo[0..] == todo && todo[..0] == [];
      assert Keeping(s, id, 0) == s;
    } else {
      assert todo[..n][1..] == todo[1..][..n - 1] && todo[..n][0] == todo[0];
      assert todo[1..][n - 1..] == todo[n..];
      Assoc(s.buffer, todo[0], Flatten(todo[1..][..n - 1]));
      var t := Next(f, s, Piece(id));
      PiecesAreKept(f, t, id, n - 1);
      assert Keeping(t, id, n - 1) == Keeping(s, id, n);
      FirstStep(f, s, Piece(id), Pieces(id, n - 1));
    }
  }

  // A frame of 5000 bytes of data, and a direct one of another session.
  const HEAD: bytes := [0, 4, 0, 0, 2, 1, 0x13, 0x88]
  const DIRECT: bytes := [0, 4, 0, 1, 2, 1, 0, 1, 9]
  const ROOM := 4088

  ghost predicate TwoFrames(f: Frames, data: bytes) {
    |data| == 5000 && f(0) == [[0, 4], [0, 0], [2], [1], [0x13, 0x88], data] && f(1) == [DIRECT]
  }

  // The direct write comes when the buffered writer has filled up once.
  function TornRun(): seq<Event> {
    [Ticket(0), Lock(0)] + (Pieces(0, 5) + ([Spill(0), Direct(1)] + [Piece(0), Check(0), Leave(0)]))
  }

  function Writer(todo: seq<bytes>, direct: seq<nat>, buffer: Held, lane: bytes, wire: bytes, spilled: bool): Session {
    Session([0], [0], direct, map[0 := Writing(1, todo)], Some(0), buffer, lane, wire, spilled)
  }

  lemma HeadIsKept(f: Frames, data: bytes)
    requires TwoFrames(f, data)
    ensures Run(f, START, [Ticket(0), Lock(0)]) == Some(Writer(f(0), [], [], [], [], false))
    ensures Run(f, Writer(f(0), [], [], [], [], false), Pieces(0, 5)) == Some(Writer([data], [], HEAD, [], [], false))
  {
    hide Run, Pieces;
    var s := Writer(f(0), [], [], [], [], false);
    assert Next(f, Next(f, START, Ticket(0)), Lock(0)) == s;
    FirstStep(f, START, Ticket(0), [Lock(0)]);
    OneStep(f, Next(f, START, Ticket(0)), Lock(0));
    assert [Ticket(0), Lock(0)] == [Ticket(0)] + [Lock(0)];
    HeadPieces();
    assert f(0)[..5] == [[0, 4], [0, 0], [2], [1], [0x13, 0x88]] && f(0)[5..] == [data];
    PiecesAreKept(f, s, 0, 5);
    assert [] + HEAD == HEAD;
    assert Keeping(s, 0, 5) == Writer([data], [], HEAD, [], [], false);
  }

  lemma HeadPieces()
    ensures Flatten([[0, 4], [0, 0], [2], [1], [0x13, 0x88]]) == HEAD
  {
    var xs: seq<bytes> := [[0, 4], [0, 0], [2], [1], [0x13, 0x88]];
    assert xs[1..][1..][1..][1..] == [[0x13, 0x88]];
    FlattenOne([0x13, 0x88]);
  }

  lemma DirectCuts(f: Frames, data: bytes)
    requires TwoFrames(f, data)
    ensures
      var out := HEAD + data[..ROOM];
      Run(f, Writer([data], [], HEAD, [], [], false), [Spill(0), Direct(1)])
      == Some(Writer([data[ROOM..]], [1], [], out, out + DIRECT, true))
  {
    hide Run;
    var out := HEAD + data[..ROOM];
    var s := Writer([data], [], HEAD, [], [], false);
    var t := Writer([data[ROOM..]], [], [], out, out, true);
    assert [] + out == out && [data[ROOM..]] + [data][1..] == [data[ROOM..]];
    assert Next(f, s, Spill(0)) == t;
    FirstStep(f, s, Spill(0), [Direct(1)]);
    FlattenOne(DIRECT);
    assert Next(f, t, Direct(1)) == Writer([data[ROOM..]], [1], [], out, out + DIRECT, true);
    OneStep(f, t, Direct(1));
    assert [Spill(0), Direct(1)] == [Spill(0)] + [Direct(1)];
  }

  function Torn(data: bytes): bytes
    requires |data| == 5000
  {
    ((HEAD + data[..ROOM]) + DIRECT) + data[ROOM..]
  }

  lemma RestIsSent(f: Frames, data: bytes)
    requires TwoFrames(f, data)
    ensures
      var out := HEAD + data[..ROOM];
      var r := Run(f, Writer([data[ROOM..]], [1], [], out, out + DIRECT, true), [Piece(0), Check(0), Leave(0)]);
      && r.Some? && Quiescent(r.value) && AtRest(r.value) && r.value.wire == Torn(data)
      && r.value.locked == [0] && r.value.direct == [1]
  {
    hide Run;
    var out := HEAD + data[..ROOM];
    var s := Writer([data[ROOM..]], [1], [], out, out + DIRECT, true);
    var s1 := Writer([], [1], data[ROOM..], out, out + DIRECT, true);
    assert [] + data[ROOM..] == data[ROOM..] && [data[ROOM..]][1..] == [];
    assert Next(f, s, Piece(0)) == s1;
    var s2 := Next(f, s1, Check(0));
    FirstStep(f, s, Piece(0), [Check(0), Leave(0)]);
    FirstStep(f, s1, Check(0), [Leave(0)]);
    OneStep(f, s2, Leave(0));
    assert [Piece(0), Check(0), Leave(0)] == [Piece(0)] + [Check(0), Leave(0)];
    assert [Check(0), Leave(0)] == [Check(0)] + [Leave(0)];
  }

  // The direct frame lies inside the other: what was sent is no sequence of
  // the two frames, although every call has returned and all is flushed.
  lemma FrameIsTorn(f: Frames, data: bytes)
    requires TwoFrames(f, data) && data[ROOM] != 0
    ensures
      var r := Run(f, START, TornRun());
      r.Some? && Quiescent(r.value) && AtRest(r.value) && !CarriesWhole(f, r.value)
  {
    hide Run, Pieces, Quiescent, AtRest;
    var rest := [Piece(0), Check(0), Leave(0)];
    HeadIsKept(f, data);
    DirectCuts(f, data);
    RestIsSent(f, data);
    RunAppend(f, START, [Ticket(0), Lock(0)], Pieces(0, 5) + ([Spill(0), Direct(1)] + rest));
    RunAppend(f, Writer(f(0), [], [], [], [], false), Pieces(0, 5), [Spill(0), Direct(1)] + rest);
    RunAppend(f, Writer([data], [], HEAD, [], [], false), [Spill(0), Direct(1)], rest);
    forall order | Merges(order, [0], [1]) ensures Whole(f, order) != Torn(data) {
      TornIsNoOrder(f, data, order);
    }
  }

  lemma TornIsNoOrder(f: Frames, data: bytes, order: seq<nat>)
    requires TwoFrames(f, data) && data[ROOM] != 0 && Merges(order, [0], [1])
    ensures Whole(f, order) != Torn(data)
  {
    hide Whole, Merges;
    TwoOrders(order);
    WholeOfTwo(f, 0, 1);
    WholeOfTwo(f, 1, 0);
    FlattenOne(DIRECT);
    FlattenOne(data);
    HeadPieces();
    FlattenAppend([[0, 4], [0, 0], [2], [1], [0x13, 0x88]], [data]);
    assert f(0) == [[0, 4], [0, 0], [2], [1], [0x13, 0x88]] + [data];
    assert ((HEAD + data) + DIRECT)[4096] == data[ROOM];
    assert Torn(data)[4096] == DIRECT[0] == 0;
    assert (DIRECT + (HEAD + data))[3] == 1 && Torn(data)[3] == HEAD[3] == 0;
  }

  lemma TwoOrders(order: seq<nat>)
    requires Merges(order, [0], [1])
    ensures order == [0, 1] || order == [1, 0]
  {
    assert Init([0]) == [] && Init([1]) == [];
    var rest := Init(order);
    assert order == rest + [order[|order| - 1]];
    assert Merges(rest, [], [1]) || Merges(rest, [0], []);
    OneOrder(rest, 0);
    OneOrder(rest, 1);
  }

  lemma OneOrder(order: seq<nat>, id: nat)
    ensures Merges(order, [], [id]) || Merges(order, [id], []) ==> order == [id]
  {
    assert Init([id]) == [];
    if Merges(order, [], [id]) || Merges(order, [id], []) {
      assert order == Init(order) + [order[|order| - 1]];
      assert Merges(Init(order), [], []);
    }
  }

  lemma WholeOfTwo(f: Frames, a: nat, b: nat)
    ensures Whole(f, [a, b]) == Flatten(f(a)) + Flatten(f(b))
  {
    WholeOne(f, [a], b);
    WholeOne(f, [], a);
    assert [a, b] == [a] + [b] && [a] == [] + [a];
  }
}
