// Direct writes beside the shared flushes of mux.go: that the connection still
// carries whole frames if they come between frames, and which they overtake.
module MuxDirect {
  import opened Bytes
  import opened MuxFlush

  function Init(ids: seq<nat>): seq<nat>
    requires ids != []
  {
    ids[..|ids| - 1]
  }

  // order is a and b, each in its own order.
  predicate Merges(order: seq<nat>, a: seq<nat>, b: seq<nat>)
    decreases |order|
  {
    if order == [] then a == [] && b == []
    else
      var last := order[|order| - 1];
      || (a != [] && a[|a| - 1] == last && Merges(Init(order), Init(a), b))
      || (b != [] && b[|b| - 1] == last && Merges(Init(order), a, Init(b)))
  }

  lemma {:induction false} MergesMore(order: seq<nat>, a: seq<nat>, b: seq<nat>, more: seq<nat>)
    requires Merges(order, a, b)
    ensures Merges(order + more, a + more, b)
    decreases |more|
  {
    if more == [] {
      assert order + more == order && a + more == a;
    } else {
      MergesMore(order, a, b, Init(more));
      assert Init(order + more) == order + Init(more) && Init(a + more) == a + Init(more);
    }
  }

  lemma MergesDirect(order: seq<nat>, a: seq<nat>, b: seq<nat>, id: nat)
    requires Merges(order, a, b)
    ensures Merges(order + [id], a, b + [id])
  {
    assert Init(order + [id]) == order && Init(b + [id]) == b;
  }

  lemma {:induction false} WholeAppend(f: Frames, a: seq<nat>, b: seq<nat>)
    ensures Whole(f, a + b) == Whole(f, a) + Whole(f, b)
    decreases |b|
  {
    if b == [] {
      assert a + b == a && Whole(f, a) + [] == Whole(f, a);
    } else {
      WholeAppend(f, a, Init(b));
      assert (a + b)[..|a + b| - 1] == a + Init(b);
      Assoc(Whole(f, a), Whole(f, Init(b)), Flatten(f(b[|b| - 1])));
    }
  }

  lemma WholeOne(f: Frames, ids: seq<nat>, id: nat)
    ensures Whole(f, ids + [id]) == Whole(f, ids) + Flatten(f(id))
  {
    assert (ids + [id])[..|ids|] == ids;
  }

  lemma WholeNone(f: Frames)
    ensures Whole(f, []) == []
  {
  }

  // The first size bytes of the frames of calls end inside one of them.
  ghost predicate Inside(f: Frames, ids: seq<nat>, size: nat) {
    exists n :: 0 <= n < |ids| && |Whole(f, ids[..n])| < size < |Whole(f, ids[..n + 1])|
  }

  // The buffered writer has sent a part of a frame and not all of it.
  ghost predicate PartlySent(f: Frames, s: Session) {
    Inside(f, s.locked, |s.lane|)
  }

  lemma {:induction false} EndsWithFrame(f: Frames, ids: seq<nat>, size: nat, k: nat) returns (m: nat)
    requires k <= |ids| && !Inside(f, ids, size) && size <= |Whole(f, ids[..k])|
    ensures m <= k && |Whole(f, ids[..m])| == size
    decreases k
  {
    if |Whole(f, ids[..k])| == size {
      m := k;
    } else {
      assert k > 0;
      var n := k - 1;
      assert size < |Whole(f, ids[..n + 1])|;
      m := EndsWithFrame(f, ids, size, n);
    }
  }

  // Otherwise it has sent whole frames.
  lemma SentWhole(f: Frames, s: Session) returns (m: nat)
    requires Contiguous(f, s) && !PartlySent(f, s)
    ensures m <= |s.locked| && s.lane == Whole(f, s.locked[..m])
  {
    hide Whole;
    assert s.locked[..|s.locked|] == s.locked;
    m := EndsWithFrame(f, s.locked, |s.lane|, |s.locked|);
    WholeGrows(f, s.locked, m, |s.locked|);
    var rest := s.buffer + Todo(s);
    Assoc(s.lane, s.buffer, Todo(s));
    assert s.lane == (s.lane + rest)[..|s.lane|];
    assert Whole(f, s.locked[..m]) == (Whole(f, s.locked[..m]) + Whole(f, s.locked[m..]))[..|s.lane|];
  }

  lemma WholeFramesAreNotPartlySent(f: Frames, s: Session, m: nat)
    requires m <= |s.locked| && s.lane == Whole(f, s.locked[..m])
    ensures !PartlySent(f, s)
  {
    hide Whole;
    forall n | 0 <= n < |s.locked| && |Whole(f, s.locked[..n])| < |s.lane|
      ensures |s.lane| >= |Whole(f, s.locked[..n + 1])|
    {
      if m <= n {
        WholeGrows(f, s.locked, m, n);
      } else {
        WholeGrows(f, s.locked, n + 1, m);
      }
    }
  }

  // What was sent is whole frames, those of the first n calls and the direct
  // ones, and then what the buffered writer has sent since.
  ghost predicate Woven(f: Frames, s: Session, order: seq<nat>, n: nat, since: bytes) {
    && n <= |s.locked|
    && s.wire == Whole(f, order) + since
    && s.lane == Whole(f, s.locked[..n]) + since
    && Merges(order, s.locked[..n], s.direct)
  }

  lemma SentStaysWoven(f: Frames, s: Session, out: bytes, order: seq<nat>, n: nat, since: bytes)
    requires Woven(f, s, order, n, since)
    ensures Woven(f, Sent(s, out), order, n, since + out)
  {
    hide Whole, Merges;
    Assoc(Whole(f, order), since, out);
    Assoc(Whole(f, s.locked[..n]), since, out);
  }

  lemma CallsStayWoven(f: Frames, s: Session, e: Event, order: seq<nat>, n: nat, since: bytes)
    returns (more: bytes)
    requires Woven(f, s, order, n, since) && Enabled(s, e) && !e.Direct?
    ensures Woven(f, Next(f, s, e), order, n, more)
  {
    hide Whole, Merges, LooksNewest, Spilled, Flatten;
    more := since;
    if e.Leave? {
      if s.calls[e.id].flush {
        SentStaysWoven(f, s, s.buffer, order, n, since);
        more := since + s.buffer;
      }
    } else if e.Spill? {
      var out := Spilled(s.buffer, s.calls[e.id].todo[0]).0;
      SentStaysWoven(f, s, out, order, n, since);
      more := since + out;
    } else if e.Lock? {
      assert (s.locked + [e.id])[..n] == s.locked[..n];
    }
  }

  lemma {:induction false} WholeGrows(f: Frames, ids: seq<nat>, m: nat, n: nat)
    requires m <= n <= |ids|
    ensures Whole(f, ids[..n]) == Whole(f, ids[..m]) + Whole(f, ids[m..n])
  {
    assert ids[..n] == ids[..m] + ids[m..n];
    WholeAppend(f, ids[..m], ids[m..n]);
  }

  // Whole frames stay whole frames when a direct one follows.
  lemma DirectIsWoven(f: Frames, s: Session, id: nat, order: seq<nat>, n: nat, since: bytes)
    returns (ids: seq<nat>, k: nat)
    requires Woven(f, s, order, n, since) && Contiguous(f, s) && Enabled(s, Direct(id)) && !PartlySent(f, s)
    ensures Woven(f, Next(f, s, Direct(id)), ids, k, [])
  {
    hide Whole, Merges, PartlySent, Contiguous;
    var m := SentWhole(f, s);
    k := if m < n then n else m;
    var between := s.locked[n..k];
    if m < n {
      WholeGrows(f, s.locked, m, n);
      assert since == [] && between == [];
      assert Whole(f, order) + [] == Whole(f, order) && order + between == order;
      assert Whole(f, s.locked[..n]) + [] == Whole(f, s.locked[..n]);
    } else {
      WholeGrows(f, s.locked, n, m);
      Cancel(Whole(f, s.locked[..n]), since, Whole(f, between));
      WholeAppend(f, order, between);
    }
    assert s.wire == Whole(f, order + between);
    assert s.locked[..n] + between == s.locked[..k];
    MergesMore(order, s.locked[..n], s.direct, between);
    MergesDirect(order + between, s.locked[..k], s.direct, id);
    ids := (order + between) + [id];
    WholeOne(f, order + between, id);
    var t := Next(f, s, Direct(id));
    assert Whole(f, ids) + [] == Whole(f, ids);
    assert s.lane == Whole(f, s.locked[..k]) && Whole(f, s.locked[..k]) + [] == Whole(f, s.locked[..k]);
  }

  // An empty one makes no difference.
  lemma EmptyStaysWoven(f: Frames, s: Session, id: nat, order: seq<nat>, n: nat, since: bytes)
    requires Woven(f, s, order, n, since) && Enabled(s, Direct(id)) && Flatten(f(id)) == []
    ensures Woven(f, Next(f, s, Direct(id)), order + [id], n, since)
  {
    hide Whole, Merges;
    MergesDirect(order, s.locked[..n], s.direct, id);
    WholeOne(f, order, id);
    assert Whole(f, order) + [] == Whole(f, order) && s.wire + [] == s.wire;
  }

  // A direct write comes inside a frame.
  ghost predicate Cuts(f: Frames, s: Session, e: Event) {
    e.Direct? && Flatten(f(e.id)) != [] && PartlySent(f, s)
  }

  // Runs in which none does.
  ghost predicate Uncut(f: Frames, s: Session, es: seq<Event>)
    decreases |es|
  {
    es == [] || (Enabled(s, es[0]) && !Cuts(f, s, es[0]) && Uncut(f, Next(f, s, es[0]), es[1..]))
  }

  lemma {:induction false} RunWeaves(f: Frames, s: Session, es: seq<Event>, order: seq<nat>, n: nat, since: bytes)
    returns (ids: seq<nat>, k: nat, rest: bytes)
    requires Inv(f, s) && Uncut(f, s, es) && Woven(f, s, order, n, since)
    ensures Run(f, s, es).Some? && Woven(f, Run(f, s, es).value, ids, k, rest)
    decreases |es|
  {
    hide Woven, Next, Enabled, PartlySent, Tickets, Locks, Buffered, Contiguous;
    ids, k, rest := order, n, since;
    if es != [] {
      InvKeeps(f, s, es[0]);
      if !es[0].Direct? {
        rest := CallsStayWoven(f, s, es[0], order, n, since);
      } else if Flatten(f(es[0].id)) == [] {
        EmptyStaysWoven(f, s, es[0].id, order, n, since);
        ids := order + [es[0].id];
      } else {
        ids, k := DirectIsWoven(f, s, es[0].id, order, n, since);
        rest := [];
      }
      ids, k, rest := RunWeaves(f, Next(f, s, es[0]), es[1..], ids, k, rest);
    }
  }

  lemma StartIsWoven(f: Frames)
    ensures Woven(f, START, [], 0, [])
  {
  }

  // If no direct write comes inside a frame, the connection carries whole
  // frames, those of calls in lock order and the direct ones in theirs, and
  // then what the buffered writer sent since.
  lemma WireIsWoven(f: Frames, es: seq<Event>) returns (order: seq<nat>, n: nat, since: bytes)
    requires Uncut(f, START, es)
    ensures Run(f, START, es).Some? && Woven(f, Run(f, START, es).value, order, n, since)
  {
    hide Uncut, Run;
    StartIsWoven(f);
    order, n, since := RunWeaves(f, START, es, [], 0, []);
  }

  predicate AtRest(s: Session) {
    s.holder.None? && s.buffer == []
  }

  // And nothing but whole frames, each of them once, when no call holds the
  // lock and the buffer is empty.
  lemma WireIsWhole(f: Frames, es: seq<Event>) returns (order: seq<nat>)
    requires Uncut(f, START, es)
    ensures Run(f, START, es).Some?
    ensures
      var s := Run(f, START, es).value;
      AtRest(s) ==> s.wire == Whole(f, order) && Merges(order, s.locked, s.direct)
  {
    hide Merges, Whole, Uncut, Run;
    var n, since;
    order, n, since := WireIsWoven(f, es);
    var s := Run(f, START, es).value;
    if AtRest(s) {
      FramesStayWhole(f, es);
      WholeGrows(f, s.locked, n, |s.locked|);
      assert s.lane + [] == s.lane && s.locked[..|s.locked|] == s.locked;
      var between := s.locked[n..];
      Cancel(Whole(f, s.locked[..n]), since, Whole(f, between));
      WholeAppend(f, order, between);
      MergesMore(order, s.locked[..n], s.direct, between);
      assert s.locked[..n] + between == s.locked;
      order := order + between;
    }
  }

  lemma Cancel(a: bytes, b: bytes, c: bytes)
    requires a + b == a + c
    ensures b == c
  {
    assert b == (a + b)[|a|..] && c == (a + c)[|a|..];
  }

  // What leaves the buffer by flushes alone ends between two frames.
  lemma FlushesSendWhole(f: Frames, s: Session, e: Event, m: nat) returns (n: nat)
    requires Inv(f, s) && Enabled(s, e) && m <= |s.locked| && s.lane == Whole(f, s.locked[..m]) && !e.Spill?
    ensures var t := Next(f, s, e); n <= |t.locked| && t.lane == Whole(f, t.locked[..n])
  {
    hide Whole, Tickets, Buffered, LooksNewest;
    var t := Next(f, s, e);
    if e.Leave? && s.calls[e.id].flush {
      assert (s.lane + s.buffer) + [] == s.lane + s.buffer;
      assert s.locked[..|s.locked|] == s.locked;
      n := |s.locked|;
    } else {
      assert t.locked[..m] == s.locked[..m];
      n := m;
    }
  }

  // So in a run in which no piece had to be made room for, no direct write
  // comes inside a frame.
  lemma {:induction false} UnspilledIsUncut(f: Frames, s: Session, es: seq<Event>, m: nat)
    requires Inv(f, s) && m <= |s.locked| && s.lane == Whole(f, s.locked[..m])
    requires Run(f, s, es).Some? && !Run(f, s, es).value.spilled
    ensures Uncut(f, s, es)
    decreases |es|
  {
    hide Inv, PartlySent, Whole, Next, Enabled;
    if es != [] {
      InvKeeps(f, s, es[0]);
      SpillShows(f, s, es);
      WholeFramesAreNotPartlySent(f, s, m);
      var n := FlushesSendWhole(f, s, es[0], m);
      UnspilledIsUncut(f, Next(f, s, es[0]), es[1..], n);
    }
  }

  lemma SpillShows(f: Frames, s: Session, es: seq<Event>)
    requires es != [] && Run(f, s, es).Some? && !Run(f, s, es).value.spilled
    ensures !es[0].Spill?
  {
    if es[0].Spill? {
      SpilledStays(f, Next(f, s, es[0]), es[1..]);
    }
  }

  lemma {:induction false} SpilledStays(f: Frames, s: Session, es: seq<Event>)
    requires s.spilled && Run(f, s, es).Some?
    ensures Run(f, s, es).value.spilled
    decreases |es|
  {
    if es != [] {
      SpilledStays(f, Next(f, s, es[0]), es[1..]);
    }
  }

  lemma UnspilledWireIsWhole(f: Frames, es: seq<Event>) returns (order: seq<nat>)
    requires Run(f, START, es).Some?
    ensures
      var s := Run(f, START, es).value;
      !s.spilled && AtRest(s) ==> s.wire == Whole(f, order) && Merges(order, s.locked, s.direct)
  {
    hide Run, Uncut, Merges;
    order := [];
    if !Run(f, START, es).value.spilled {
      UnspilledIsUncut(f, START, es, 0);
      order := WireIsWhole(f, es);
    }
  }

  // What was sent is as long as what the buffered writer sent and the direct
  // frames are together.
  lemma {:induction false} WireLength(f: Frames, s: Session, es: seq<Event>)
    requires Run(f, s, es).Some? && |s.wire| == |s.lane| + |Whole(f, s.direct)|
    ensures var t := Run(f, s, es).value; |t.wire| == |t.lane| + |Whole(f, t.direct)|
    decreases |es|
  {
    hide Whole, Spilled, LooksNewest;
    if es != [] {
      if es[0].Direct? {
        WholeOne(f, s.direct, es[0].id);
      }
      WireLength(f, Next(f, s, es[0]), es[1..]);
    }
  }

  lemma {:induction false} MergesLength(f: Frames, order: seq<nat>, a: seq<nat>, b: seq<nat>)
    requires Merges(order, a, b)
    ensures |Whole(f, order)| == |Whole(f, a)| + |Whole(f, b)|
    decreases |order|
  {
    if order != [] {
      if a != [] && a[|a| - 1] == order[|order| - 1] && Merges(Init(order), Init(a), b) {
        MergesLength(f, Init(order), Init(a), b);
      } else {
        MergesLength(f, Init(order), a, Init(b));
      }
    }
  }

  // All frames of calls were sent before the direct one.
  ghost predicate ComesLast(f: Frames, s: Session, id: nat)
    requires Enabled(s, Direct(id))
  {
    exists order ::
      Merges(order, s.locked, s.direct) && Next(f, s, Direct(id)).wire == Whole(f, order + [id])
  }

  // With the lock free, a direct write overtakes no frame exactly if none is
  // in the buffer. That it overtakes what is there needs no condition.
  lemma OvertakesBuffered(f: Frames, es: seq<Event>, id: nat)
    requires Run(f, START, es).Some? && Run(f, START, es).value.holder.None?
    requires Enabled(Run(f, START, es).value, Direct(id))
    ensures var s := Run(f, START, es).value; ComesLast(f, s, id) ==> s.buffer == []
    ensures
      var s := Run(f, START, es).value;
      Uncut(f, START, es) ==> (ComesLast(f, s, id) <==> s.buffer == [])
  {
    hide Merges, Whole, Uncut, Run;
    var s := Run(f, START, es).value;
    if ComesLast(f, s, id) {
      var order :| Merges(order, s.locked, s.direct) && Next(f, s, Direct(id)).wire == Whole(f, order + [id]);
      WholeOne(f, order, id);
      MergesLength(f, order, s.locked, s.direct);
      WholeNone(f);
      WireLength(f, START, es);
      FramesStayWhole(f, es);
      assert |s.lane| + |s.buffer| == |Whole(f, s.locked)|;
    } else if s.buffer == [] && Uncut(f, START, es) {
      var order := WireIsWhole(f, es);
      WholeOne(f, order, id);
    }
  }

  // A direct write after the first call has returned, which left its frame to
  // the second: it is sent before that frame.
  lemma DirectOvertakes(f: Frames)
    requires f(0) == [[7]] && f(2) == [[9]]
    ensures
      var r := Run(f, START, [Ticket(0), Ticket(1)] + (WholeCall(0) + [Direct(2)]));
      r.Some? && 0 in r.value.calls && r.value.calls[0] == Done(1, false) && r.value.buffer == [7] && r.value.wire == [9]
  {
    hide Run, WholeCall;
    TwoTickets(f);
    RunAppend(f, START, [Ticket(0), Ticket(1)], WholeCall(0) + [Direct(2)]);
    OneCall(f, BOTH_WAIT, 0);
    var between := After(f, BOTH_WAIT, 0);
    RunAppend(f, BOTH_WAIT, WholeCall(0), [Direct(2)]);
    OneStep(f, between, Direct(2));
    FlattenOne([9]);
  }

  lemma OneStep(f: Frames, s: Session, e: Event)
    requires Enabled(s, e)
    ensures Run(f, s, [e]) == Some(Next(f, s, e))
  {
    assert Run(f, Next(f, s, e), []) == Some(Next(f, s, e));
  }

  lemma FirstStep(f: Frames, s: Session, e: Event, es: seq<Event>)
    requires Enabled(s, e)
    ensures Run(f, s, [e] + es) == Run(f, Next(f, s, e), es)
  {
    assert ([e] + es)[1..] == es;
  }
}
