// What the frames of one mux connection do to its sessions, in mux.go: each
// session's pipe against the frames of that session alone.
module MuxSessions {
  import opened Bytes
  import opened MuxFormat

  // A stream's pipe is named by its place among all pipes ever made.
  datatype Stream = Stream(network: byte, destination: Addr, pipe: nat)

  // closing lists the sessions for which a close frame is to be sent.
  datatype Mux = Mux(streams: map<word, Stream>, pipes: seq<bytes>, closed: set<nat>, closing: seq<word>) {
    ghost predicate Valid() {
      && (forall s :: s in streams ==> streams[s].pipe < |pipes|)
      && (forall s, t :: s in streams && t in streams && s != t ==> streams[s].pipe != streams[t].pipe)
    }
  }

  const EMPTY: Mux := Mux(map[], [], {}, [])

  // What recvTo writes into a pipe: packets with their length and address.
  function Carried(c: Codec, network: byte, destination: Addr, data: bytes): bytes {
    if network == NETWORK_TCP then data else BE16(|data|) + (data + c.encode(destination))
  }

  // The address of a packet: the frame's own, or else the stream's.
  function Destination(target: Option<Target>, stream: Addr): Addr {
    if target.Some? && target.value.address.Address? then target.value.address else stream
  }

  // What a frame adds to the pipe of a stream; an empty frame adds nothing.
  function Added(c: Codec, network: byte, destination: Addr, f: Frame): bytes {
    if f.data.None? || f.data.value == [] then []
    else Carried(c, network, Destination(f.target, destination), f.data.value)
  }

  // A write to a pipe that nobody reads any more closes the session.
  function Deliver(c: Codec, m: Mux, f: Frame, gone: set<nat>): (r: Mux)
    requires f.session in m.streams && m.streams[f.session].pipe < |m.pipes|
  {
    var s := m.streams[f.session];
    var added := Added(c, s.network, s.destination, f);
    if added == [] then m
    else if s.pipe in gone then
      m.(streams := m.streams - {f.session}, closed := m.closed + {s.pipe}, closing := m.closing + [f.session])
    else m.(pipes := m.pipes[s.pipe := m.pipes[s.pipe] + added])
  }

  function Open(m: Mux, f: Frame): Mux
    requires f.target.Some?
  {
    m.(streams := m.streams[f.session := Stream(f.target.value.network, f.target.value.address, |m.pipes|)],
       pipes := m.pipes + [[]])
  }

  function Apply(c: Codec, m: Mux, f: Frame, gone: set<nat>): (r: Mux)
    requires m.Valid() && (f.status == STATUS_NEW ==> f.target.Some?)
    ensures r.Valid()
  {
    if f.status == STATUS_NEW then Deliver(c, Open(m, f), f, gone)
    else if f.status == STATUS_KEEP then
      if f.session in m.streams then Deliver(c, m, f, gone) else m.(closing := m.closing + [f.session])
    else if f.status == STATUS_END && f.session in m.streams then
      m.(streams := m.streams - {f.session}, closed := m.closed + {m.streams[f.session].pipe})
    else m
  }

  // A session as its handler sees it.
  datatype Session = Session(network: byte, destination: Addr, text: bytes)

  function View(m: Mux, s: word): Option<Session>
    requires m.Valid()
  {
    if s in m.streams then Some(Session(m.streams[s].network, m.streams[s].destination, m.pipes[m.streams[s].pipe]))
    else None
  }

  // A frame, and whether the handler of its session has stopped reading.
  datatype Turn = Turn(frame: Frame, abandoned: bool)

  // The reference: one session's frames alone, without any table. Data for a
  // handler that has stopped reading end the session.
  function Alone(c: Codec, before: Option<Session>, turn: Turn): Option<Session>
    requires turn.frame.status == STATUS_NEW ==> turn.frame.target.Some?
  {
    var f := turn.frame;
    if f.status == STATUS_NEW then
      var t := f.target.value;
      Received(c, Session(t.network, t.address, []), turn)
    else if f.status == STATUS_KEEP then
      if before.None? then None else Received(c, before.value, turn)
    else if f.status == STATUS_END then None
    else before
  }

  function Received(c: Codec, b: Session, turn: Turn): Option<Session> {
    var added := Added(c, b.network, b.destination, turn.frame);
    if added != [] && turn.abandoned then None else Some(b.(text := b.text + added))
  }

  // gone are the pipes whose handlers have stopped reading when the frame
  // comes, among them possibly the one it opens.
  function Abandoned(m: Mux, f: Frame, gone: set<nat>): bool {
    if f.status == STATUS_NEW then |m.pipes| in gone
    else f.session in m.streams && m.streams[f.session].pipe in gone
  }

  // A frame acts on its own session as if it were alone, and on no other,
  // also when it finds its pipe abandoned.
  lemma OtherSessionsKeep(c: Codec, m: Mux, f: Frame, gone: set<nat>, s: word)
    requires m.Valid() && WellFormed(c, f) && s != f.session
    ensures View(Apply(c, m, f, gone), s) == View(m, s)
  {
    hide Added, WellFormed;
    NewHasTarget(c, f);
    if f.status == STATUS_NEW {
      assert Open(m, f).Valid() && View(Open(m, f), s) == View(m, s);
    }
  }

  lemma OwnSessionMoves(c: Codec, m: Mux, f: Frame, gone: set<nat>)
    requires m.Valid() && WellFormed(c, f)
    ensures View(Apply(c, m, f, gone), f.session) == Alone(c, View(m, f.session), Turn(f, Abandoned(m, f, gone)))
  {
    hide Carried;
    assert forall t: bytes :: t + [] == t;
    if f.status == STATUS_NEW {
      assert Open(m, f).Valid() && View(Open(m, f), f.session).Some?;
      assert forall t: bytes :: [] + t == t;
    }
  }

  // Frames, and for each of them the pipes nobody reads any more by then.
  function Run(c: Codec, m: Mux, fs: seq<Frame>, gones: seq<set<nat>>): (r: Mux)
    requires m.Valid() && AllWellFormed(c, fs) && |gones| == |fs|
    ensures r.Valid()
    decreases |fs|
  {
    if fs == [] then m else Run(c, Apply(c, m, fs[0], gones[0]), fs[1..], gones[1..])
  }

  predicate AllWellFormed(c: Codec, fs: seq<Frame>) {
    forall i :: 0 <= i < |fs| ==> WellFormed(c, fs[i])
  }

  // One session's frames, in order, each with its own handler's state.
  function Turns(c: Codec, m: Mux, fs: seq<Frame>, gones: seq<set<nat>>, s: word): (r: seq<Turn>)
    requires m.Valid() && AllWellFormed(c, fs) && |gones| == |fs|
    ensures TurnsWellFormed(c, r)
    decreases |fs|
  {
    if fs == [] then []
    else
      (if fs[0].session == s then [Turn(fs[0], Abandoned(m, fs[0], gones[0]))] else [])
      + Turns(c, Apply(c, m, fs[0], gones[0]), fs[1..], gones[1..], s)
  }

  predicate TurnsWellFormed(c: Codec, ts: seq<Turn>) {
    forall i :: 0 <= i < |ts| ==> WellFormed(c, ts[i].frame)
  }

  function RunAlone(c: Codec, before: Option<Session>, ts: seq<Turn>): Option<Session>
    requires TurnsWellFormed(c, ts)
    decreases |ts|
  {
    if ts == [] then before else RunAlone(c, Alone(c, before, ts[0]), ts[1..])
  }

  // Demultiplexing: however the frames of the sessions are interleaved, and
  // whenever handlers stop reading, each session is what its own frames and
  // its own handler make of it.
  lemma {:induction false} Demultiplexes(c: Codec, m: Mux, fs: seq<Frame>, gones: seq<set<nat>>, s: word)
    requires m.Valid() && AllWellFormed(c, fs) && |gones| == |fs|
    ensures View(Run(c, m, fs, gones), s) == RunAlone(c, View(m, s), Turns(c, m, fs, gones, s))
    decreases |fs|
  {
    hide View, Apply, Alone, Abandoned, WellFormed;
    if fs != [] {
      assert WellFormed(c, fs[0]);
      NewHasTarget(c, fs[0]);
      var n := Apply(c, m, fs[0], gones[0]);
      Demultiplexes(c, n, fs[1..], gones[1..], s);
      var others := Turns(c, n, fs[1..], gones[1..], s);
      if fs[0].session == s {
        OwnSessionMoves(c, m, fs[0], gones[0]);
        var first := Turn(fs[0], Abandoned(m, fs[0], gones[0]));
        assert Turns(c, m, fs, gones, s) == [first] + others && ([first] + others)[1..] == others;
      } else {
        OtherSessionsKeep(c, m, fs[0], gones[0], s);
        assert Turns(c, m, fs, gones, s) == [] + others == others;
      }
    }
  }

  // The frames of one session, and the same with a handler that reads on.
  function Only(fs: seq<Frame>, s: word): (r: seq<Frame>)
    ensures forall i :: 0 <= i < |r| ==> r[i] in fs
  {
    if fs == [] then [] else (if fs[0].session == s then [fs[0]] else []) + Only(fs[1..], s)
  }

  function Attended(fs: seq<Frame>): (r: seq<Turn>)
    ensures |r| == |fs|
  {
    seq(|fs|, i requires 0 <= i < |fs| => Turn(fs[i], false))
  }

  function NoneGone(n: nat): (r: seq<set<nat>>)
    ensures |r| == n && forall i :: 0 <= i < n ==> r[i] == {}
  {
    seq(n, _ => {})
  }

  // While every handler reads, the turns of a session are its frames.
  lemma {:induction false} AllAttended(c: Codec, m: Mux, fs: seq<Frame>, s: word)
    requires m.Valid() && AllWellFormed(c, fs)
    ensures Turns(c, m, fs, NoneGone(|fs|), s) == Attended(Only(fs, s))
    decreases |fs|
  {
    hide Apply, WellFormed;
    if fs != [] {
      assert WellFormed(c, fs[0]);
      NewHasTarget(c, fs[0]);
      assert NoneGone(|fs|)[1..] == NoneGone(|fs[1..]|);
      AllAttended(c, Apply(c, m, fs[0], {}), fs[1..], s);
    }
  }

  // The data of frames on an open session of the given network and address.
  function AllAdded(c: Codec, network: byte, destination: Addr, fs: seq<Frame>): bytes {
    if fs == [] then [] else Added(c, network, destination, fs[0]) + AllAdded(c, network, destination, fs[1..])
  }

  // After the latest New of a session that is not followed by its End, and as
  // long as its handler reads, the pipe holds exactly the data of its frames
  // from then on, in order.
  lemma {:induction false} SinceLatestNew(c: Codec, before: Option<Session>, earlier: seq<Turn>, first: Frame, later: seq<Frame>)
    requires TurnsWellFormed(c, earlier + Attended([first] + later))
    requires first.status == STATUS_NEW && first.target.Some?
    requires forall i :: 0 <= i < |later| ==> later[i].status == STATUS_KEEP
    ensures
      var t := first.target.value;
      RunAlone(c, before, earlier + Attended([first] + later))
      == Some(Session(t.network, t.address, AllAdded(c, t.network, t.address, [first] + later)))
    decreases |earlier|
  {
    hide Added, WellFormed;
    var all := earlier + Attended([first] + later);
    assert all[|earlier|] == Turn(first, false) && all[|earlier| + 1..] == Attended(later);
    if earlier == [] {
      assert all[1..] == Attended(later) && all[0] == Turn(first, false);
      var t := first.target.value;
      assert TurnsWellFormed(c, Attended(later));
      assert [] + Added(c, t.network, t.address, first) == Added(c, t.network, t.address, first);
      KeepsAppend(c, t.network, t.address, Added(c, t.network, t.address, first), later);
    } else {
      assert all[0] == earlier[0] && all[1..] == earlier[1..] + Attended([first] + later);
      assert TurnsWellFormed(c, all[1..]);
      assert WellFormed(c, all[0].frame);
      NewHasTarget(c, all[0].frame);
      SinceLatestNew(c, Alone(c, before, earlier[0]), earlier[1..], first, later);
    }
  }

  lemma {:induction false} KeepsAppend(c: Codec, network: byte, destination: Addr, text: bytes, fs: seq<Frame>)
    requires TurnsWellFormed(c, Attended(fs))
    requires forall i :: 0 <= i < |fs| ==> fs[i].status == STATUS_KEEP
    ensures RunAlone(c, Some(Session(network, destination, text)), Attended(fs))
            == Some(Session(network, destination, text + AllAdded(c, network, destination, fs)))
    decreases |fs|
  {
    hide Added, WellFormed;
    if fs == [] {
      assert text + [] == text;
    } else {
      var a, others := Added(c, network, destination, fs[0]), AllAdded(c, network, destination, fs[1..]);
      assert Attended(fs)[1..] == Attended(fs[1..]) && Attended(fs)[0] == Turn(fs[0], false);
      KeepsAppend(c, network, destination, text + a, fs[1..]);
      Assoc(text, a, others);
    }
  }
}
