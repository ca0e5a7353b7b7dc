// Which sessions mux.go answers with a close frame, and which pipes it closes:
// an account of open sessions alone, against the server's tables.
module MuxClosing {
  import opened Bytes
  import opened MuxFormat
  import opened MuxSessions
  import opened MuxServer
  import opened MuxReplies

  // The pipe of every open session, and how many pipes there have been.
  datatype Account = Account(open: map<word, nat>, made: nat)

  const NOTHING_OPEN: Account := Account(map[], 0)

  predicate CarriesData(f: Frame) {
    f.data.Some? && |f.data.value| > 0
  }

  // The pipe a frame's data are for: that of a New is the next to be made.
  function PipeOf(a: Account, f: Frame): Option<nat> {
    if f.status == STATUS_NEW then Some(a.made)
    else if f.status == STATUS_KEEP && f.session in a.open then Some(a.open[f.session])
    else None
  }

  // Data for a pipe that nobody reads any more.
  predicate IsLost(a: Account, f: Frame, gone: set<nat>) {
    CarriesData(f) && PipeOf(a, f).Some? && PipeOf(a, f).value in gone
  }

  // The sender is told that the session is closed.
  predicate IsAnswered(a: Account, f: Frame, gone: set<nat>) {
    (f.status == STATUS_KEEP && f.session !in a.open) || IsLost(a, f, gone)
  }

  function Accounted(a: Account, f: Frame, gone: set<nat>): Account {
    var made := if f.status == STATUS_NEW then a.made + 1 else a.made;
    if f.status == STATUS_END || IsLost(a, f, gone) then Account(a.open - {f.session}, made)
    else if f.status == STATUS_NEW then Account(a.open[f.session := a.made], made)
    else a
  }

  // The close frames owed for a run, in order.
  function Answers(a: Account, fs: seq<Frame>, gones: seq<set<nat>>): seq<word>
    requires |gones| == |fs|
    decreases |fs|
  {
    if fs == [] then []
    else
      (if IsAnswered(a, fs[0], gones[0]) then [fs[0].session] else [])
      + Answers(Accounted(a, fs[0], gones[0]), fs[1..], gones[1..])
  }

  // The pipes whose sessions ended, by an End or with data for nobody.
  function Ended(a: Account, fs: seq<Frame>, gones: seq<set<nat>>): set<nat>
    requires |gones| == |fs|
    decreases |fs|
  {
    if fs == [] then {}
    else
      var f := fs[0];
      (if f.status == STATUS_END && f.session in a.open then {a.open[f.session]}
       else if IsLost(a, f, gones[0]) then {PipeOf(a, f).value} else {})
      + Ended(Accounted(a, f, gones[0]), fs[1..], gones[1..])
  }

  // The account of a server's tables.
  function AccountOf(m: Mux): Account {
    Account(map s | s in m.streams :: m.streams[s].pipe, |m.pipes|)
  }

  lemma DataIsAdded(c: Codec, network: byte, destination: Addr, f: Frame)
    ensures Added(c, network, destination, f) == [] <==> !CarriesData(f)
  {
    CarriedIsNotEmpty(c);
  }

  // What one frame adds to both, told from the account.
  ghost predicate Told(c: Codec, m: Mux, f: Frame, gone: set<nat>)
    requires m.Valid() && WellFormed(c, f) && (f.status == STATUS_NEW ==> f.target.Some?)
  {
    var a, n := AccountOf(m), Apply(c, m, f, gone);
    && n.closing == m.closing + (if IsAnswered(a, f, gone) then [f.session] else [])
    && n.closed == m.closed + (if f.status == STATUS_END && f.session in a.open then {a.open[f.session]}
                               else if IsLost(a, f, gone) then {PipeOf(a, f).value} else {})
  }

  lemma OpenIsAccounted(m: Mux, f: Frame)
    requires f.target.Some?
    ensures AccountOf(Open(m, f)) == Account(AccountOf(m).open[f.session := |m.pipes|], |m.pipes| + 1)
  {
  }

  lemma DeliverIsTold(c: Codec, m: Mux, f: Frame, gone: set<nat>)
    requires f.session in m.streams && m.streams[f.session].pipe < |m.pipes|
    ensures var lost, n := CarriesData(f) && m.streams[f.session].pipe in gone, Deliver(c, m, f, gone);
            && n.closing == m.closing + (if lost then [f.session] else [])
            && n.closed == m.closed + (if lost then {m.streams[f.session].pipe} else {})
            && AccountOf(n) == if lost then Account(AccountOf(m).open - {f.session}, |m.pipes|) else AccountOf(m)
  {
    hide Added, CarriesData;
    DataIsAdded(c, m.streams[f.session].network, m.streams[f.session].destination, f);
  }

  lemma NewIsTold(c: Codec, m: Mux, f: Frame, gone: set<nat>)
    requires m.Valid() && WellFormed(c, f) && f.status == STATUS_NEW && f.target.Some?
    ensures Told(c, m, f, gone) && AccountOf(Apply(c, m, f, gone)) == Accounted(AccountOf(m), f, gone)
  {
    hide Deliver, WellFormed, CarriesData;
    OpenIsAccounted(m, f);
    DeliverIsTold(c, Open(m, f), f, gone);
    hide AccountOf;
    assert AccountOf(m).made == |m.pipes| by { SizeIsMade(m); }
    assert AccountOf(m).open[f.session := |m.pipes|] - {f.session} == AccountOf(m).open - {f.session};
  }

  lemma SizeIsMade(m: Mux)
    ensures AccountOf(m).made == |m.pipes|
  {
  }

  lemma OtherIsTold(c: Codec, m: Mux, f: Frame, gone: set<nat>)
    requires m.Valid() && WellFormed(c, f) && f.status != STATUS_NEW
    ensures Told(c, m, f, gone) && AccountOf(Apply(c, m, f, gone)) == Accounted(AccountOf(m), f, gone)
  {
    hide Deliver, WellFormed, CarriesData;
    if f.status == STATUS_KEEP && f.session in m.streams {
      DeliverIsTold(c, m, f, gone);
    }
  }

  // Over any run from any state: exactly these sessions are added to those to
  // be answered, in order, and exactly these pipes to the closed ones.
  lemma {:induction false} ClosingIsOwed(c: Codec, m: Mux, fs: seq<Frame>, gones: seq<set<nat>>)
    requires m.Valid() && AllWellFormed(c, fs) && |gones| == |fs|
    ensures
      var n := Run(c, m, fs, gones);
      && n.closing == m.closing + Answers(AccountOf(m), fs, gones)
      && n.closed == m.closed + Ended(AccountOf(m), fs, gones)
    decreases |fs|
  {
    hide Apply, AccountOf, Accounted, IsAnswered, IsLost, PipeOf, WellFormed;
    if fs != [] {
      assert WellFormed(c, fs[0]);
      NewHasTarget(c, fs[0]);
      if fs[0].status == STATUS_NEW {
        NewIsTold(c, m, fs[0], gones[0]);
      } else {
        OtherIsTold(c, m, fs[0], gones[0]);
      }
      ClosingIsOwed(c, Apply(c, m, fs[0], gones[0]), fs[1..], gones[1..]);
    }
  }

  // The same from the bytes of the connection.
  lemma StreamIsAnswered(c: Codec, fs: seq<Frame>, gones: seq<set<nat>>)
    requires Lawful(c) && AllWellFormed(c, fs) && |gones| == |fs| + 1
    requires forall i :: 0 <= i < |fs| ==> Sendable(fs[i])
    ensures
      var m := Eat(c, EMPTY, EncodeAll(c, fs), gones).m;
      m.closing == Answers(NOTHING_OPEN, fs, gones[..|fs|]) && m.closed == Ended(NOTHING_OPEN, fs, gones[..|fs|])
  {
    EatsWholeFrames(c, EMPTY, fs, gones);
    ClosingIsOwed(c, EMPTY, fs, gones[..|fs|]);
    assert AccountOf(EMPTY) == NOTHING_OPEN;
  }

  // The bytes of a Keep for session 5, which was never opened: it is answered,
  // once, and nothing else happens.
  lemma StrayKeepIsAnswered(c: Codec)
    requires Lawful(c)
    ensures Eat(c, EMPTY, [0, 4, 0, 5, 2, 0], NoneGone(2)).m == EMPTY.(closing := [5])
  {
    hide Eat, Lawful;
    var f := Frame(5, STATUS_KEEP, 0, None, None);
    assert Encode(c, f) == [0, 4, 0, 5, 2, 0];
    assert EncodeAll(c, [f]) == Encode(c, f) + EncodeAll(c, [f][1..]) && [f][1..] == [];
    assert EncodeAll(c, [f]) == [0, 4, 0, 5, 2, 0];
    var gones := NoneGone(2)[..1];
    EatsWholeFrames(c, EMPTY, [f], NoneGone(2));
    var m := Apply(c, EMPTY, f, gones[0]);
    assert m == EMPTY.(closing := [5]);
    assert gones[1..] == [] && Run(c, EMPTY, [f], gones) == Run(c, m, [f][1..], gones[1..]) == m;
  }

  // What the answer is: the packet client is told that its session is closed.
  lemma AnswerIsRead(c: Codec, own: Addr, session: word, hasError: bool, rest: bytes, cap: nat)
    requires cap >= HEADER_SIZE
    ensures
      var f := Frame(session, STATUS_END, if hasError then OPTION_ERROR else 0, None, None);
      XudpRead(c, own, Encode(c, f) + rest, cap) == Refused(Closed) && NextStep(Encode(c, f) + rest) == Stop(Closed)
  {
    var f := Frame(session, STATUS_END, if hasError then OPTION_ERROR else 0, None, None);
    var h := Header(SHORT_LENGTH, session, STATUS_END, f.option);
    assert Encode(c, f) + rest == h + rest;
    HeaderFields(SHORT_LENGTH, session, STATUS_END, f.option, rest);
  }
}
