// Frames without data on the way back: what the packet client of xudp.go and
// the stream client of mux_wrapper.go pass over.
module MuxDataless {
  import opened Bytes
  import opened MuxFormat
  import opened MuxServer
  import opened MuxReplies

  // Frames that make the client stop, each for a reason of its own.
  const END_FRAME: bytes := [0, 4, 0, 0, 3, 0]
  const NEW_FRAME: bytes := [0, 4, 0, 0, 1, 0]

  // Whether the packet client, starting at s, comes to its end without a
  // packet and without a refusal.
  predicate WalkedOver(c: Codec, own: Addr, s: bytes, cap: nat)
    requires cap >= HEADER_SIZE
    decreases |s|
  {
    s == []
    || (|s| >= HEADER_SIZE && FromBE16(s[..2]) >= SHORT_LENGTH && !HasError(s[5]) && !HasData(s[5])
        && if s[4] == STATUS_KEEP then
             var h := ReadReplyHeader(c, own, FromBE16(s[..2]), s[HEADER_SIZE..], cap - HEADER_SIZE);
             h.ReplyHeader? && WalkedOver(c, own, h.rest, cap)
           else s[4] == STATUS_KEEP_ALIVE && WalkedOver(c, own, s[HEADER_SIZE..], cap))
  }

  // What is read of a reply's header when more follows it.
  lemma HeaderAhead(c: Codec, own: Addr, length: word, s: bytes, rest: bytes, cap: nat)
    ensures
      var r, alone := ReadReplyHeader(c, own, length, s + rest, cap), ReadReplyHeader(c, own, length, s, cap);
      if SHORT_LENGTH <= length && |s| < length - 2 then
        alone.BadReply? && if r.BadReply? then r.error != Closed else |r.rest| < |rest|
      else if alone.BadReply? then r == alone && r.error != Closed
      else r == alone.(rest := alone.rest + rest) && |alone.rest| <= |s|
  {
    if SHORT_LENGTH <= length && length - 2 <= |s| {
      var need := length - 2;
      assert (s + rest)[..need] == s[..need] && (s + rest)[need..] == s[need..] + rest;
      assert (s + rest)[1..need] == s[1..need];
      assert (s + rest)[..2] == s[..2] && (s + rest)[2..] == s[2..] + rest;
    }
  }

  lemma SameHeader(s: bytes, rest: bytes)
    requires |s| >= HEADER_SIZE
    ensures (s + rest)[..2] == s[..2] && (s + rest)[4] == s[4] && (s + rest)[5] == s[5]
    ensures (s + rest)[HEADER_SIZE..] == s[HEADER_SIZE..] + rest
  {
  }

  // What the client does with a dataless frame that lies in s.
  lemma WalkStep(c: Codec, own: Addr, s: bytes, rest: bytes, cap: nat)
    requires cap >= HEADER_SIZE && |s| >= HEADER_SIZE
    requires FromBE16(s[..2]) >= SHORT_LENGTH && !HasError(s[5]) && !HasData(s[5])
    ensures s[4] == STATUS_KEEP_ALIVE ==>
              XudpRead(c, own, s + rest, cap) == XudpRead(c, own, s[HEADER_SIZE..] + rest, cap)
    ensures s[4] == STATUS_KEEP ==>
              var h := ReadReplyHeader(c, own, FromBE16(s[..2]), s[HEADER_SIZE..], cap - HEADER_SIZE);
              h.ReplyHeader? ==> XudpRead(c, own, s + rest, cap) == XudpRead(c, own, h.rest + rest, cap)
  {
    hide ReadReplyHeader;
    SameHeader(s, rest);
    HeaderAhead(c, own, FromBE16(s[..2]), s[HEADER_SIZE..], rest, cap - HEADER_SIZE);
  }

  lemma {:induction false} WalkGoesOn(c: Codec, own: Addr, s: bytes, rest: bytes, cap: nat)
    requires cap >= HEADER_SIZE && WalkedOver(c, own, s, cap)
    ensures XudpRead(c, own, s + rest, cap) == XudpRead(c, own, rest, cap)
    decreases |s|
  {
    hide ReadReplyHeader, XudpRead, FromBE16;
    if s == [] {
      assert s + rest == rest;
    } else {
      WalkStep(c, own, s, rest, cap);
      if s[4] == STATUS_KEEP {
        var h := ReadReplyHeader(c, own, FromBE16(s[..2]), s[HEADER_SIZE..], cap - HEADER_SIZE);
        WalkGoesOn(c, own, h.rest, rest, cap);
      } else {
        WalkGoesOn(c, own, s[HEADER_SIZE..], rest, cap);
      }
    }
  }

  lemma StopFrames(c: Codec, own: Addr, cap: nat)
    requires cap >= HEADER_SIZE
    ensures XudpRead(c, own, [], cap) == Refused(StreamEnded)
    ensures XudpRead(c, own, END_FRAME, cap) == Refused(Closed)
    ensures XudpRead(c, own, NEW_FRAME, cap) == Refused(Unexpected)
  {
  }

  lemma TooFewBytes(c: Codec, own: Addr, s: bytes, cap: nat)
    requires cap >= HEADER_SIZE && |s| < HEADER_SIZE
    ensures XudpRead(c, own, s, cap) == Refused(StreamEnded)
  {
  }

  // Whether one of three continuations shows that s is not passed over.
  predicate Told(c: Codec, own: Addr, s: bytes, cap: nat) {
    || XudpRead(c, own, s + END_FRAME, cap) != Refused(Closed)
    || XudpRead(c, own, s + NEW_FRAME, cap) == Refused(Closed)
    || XudpRead(c, own, s + [], cap) == Refused(Closed)
  }

  // A few bytes, which the next frame makes a header of.
  lemma FewBytesTell(c: Codec, own: Addr, s: bytes, cap: nat)
    requires cap >= HEADER_SIZE && 0 < |s| < HEADER_SIZE
    ensures Told(c, own, s, cap)
  {
    hide FromBE16, ReadReplyHeader;
    var t := s + END_FRAME;
    assert t[..2] == (s + NEW_FRAME)[..2] by {
      assert END_FRAME[0] == NEW_FRAME[0];
    }
    assert t[4] == if |s| == 5 then s[4] else END_FRAME[4 - |s|];
    assert (s + NEW_FRAME)[4] == if |s| == 5 then s[4] else NEW_FRAME[4 - |s|];
    if FromBE16(t[..2]) >= SHORT_LENGTH && (t[4] == STATUS_KEEP || t[4] == STATUS_KEEP_ALIVE) {
      ShortRemainderTells(c, own, t, cap);
    }
  }

  // With less than a header behind a header that is no END the stream ends.
  lemma ShortRemainderTells(c: Codec, own: Addr, t: bytes, cap: nat)
    requires cap >= HEADER_SIZE && HEADER_SIZE <= |t| < HEADER_SIZE + HEADER_SIZE && t[4] != STATUS_END
    ensures XudpRead(c, own, t, cap) != Refused(Closed)
  {
    var body := t[HEADER_SIZE..];
    HeaderAhead(c, own, FromBE16(t[..2]), body, [], cap - HEADER_SIZE);
    assert body + [] == body;
    var h := if t[4] == STATUS_KEEP then ReadReplyHeader(c, own, FromBE16(t[..2]), body, cap - HEADER_SIZE)
             else ReplyHeader(NoAddress, [], body);
    if h.ReplyHeader? {
      TooFewBytes(c, own, h.rest, cap);
    }
  }

  // A Keep that is not passed over: its header is refused or reaches into what
  // follows.
  lemma KeepTells(c: Codec, own: Addr, s: bytes, cap: nat)
    requires cap >= HEADER_SIZE && |s| >= HEADER_SIZE && s[4] == STATUS_KEEP && FromBE16(s[..2]) >= SHORT_LENGTH
    requires ReadReplyHeader(c, own, FromBE16(s[..2]), s[HEADER_SIZE..], cap - HEADER_SIZE).BadReply?
    ensures XudpRead(c, own, s + END_FRAME, cap) != Refused(Closed)
  {
    hide ReadReplyHeader, FromBE16;
    SameHeader(s, END_FRAME);
    HeaderAhead(c, own, FromBE16(s[..2]), s[HEADER_SIZE..], END_FRAME, cap - HEADER_SIZE);
    var h := ReadReplyHeader(c, own, FromBE16(s[..2]), s[HEADER_SIZE..] + END_FRAME, cap - HEADER_SIZE);
    if h.ReplyHeader? {
      TooFewBytes(c, own, h.rest, cap);
    }
  }

  // A header that ends the walk whatever follows.
  lemma HeaderTells(c: Codec, own: Addr, s: bytes, cap: nat)
    requires cap >= HEADER_SIZE && |s| >= HEADER_SIZE
    requires FromBE16(s[..2]) < SHORT_LENGTH || (s[4] != STATUS_KEEP && s[4] != STATUS_KEEP_ALIVE)
             || HasError(s[5]) || HasData(s[5])
    ensures Told(c, own, s, cap)
  {
    hide ReadReplyHeader, FromBE16;
    SameHeader(s, END_FRAME);
    SameHeader(s, []);
    HeaderAhead(c, own, FromBE16(s[..2]), s[HEADER_SIZE..], END_FRAME, cap - HEADER_SIZE);
  }

  lemma {:induction false} WalkStops(c: Codec, own: Addr, s: bytes, cap: nat)
    requires cap >= HEADER_SIZE && !WalkedOver(c, own, s, cap)
    ensures Told(c, own, s, cap)
    decreases |s|
  {
    hide ReadReplyHeader, XudpRead, FromBE16;
    if |s| < HEADER_SIZE {
      FewBytesTell(c, own, s, cap);
    } else if FromBE16(s[..2]) < SHORT_LENGTH || (s[4] != STATUS_KEEP && s[4] != STATUS_KEEP_ALIVE)
              || HasError(s[5]) || HasData(s[5]) {
      HeaderTells(c, own, s, cap);
    } else {
      forall rest: bytes
        ensures s[4] == STATUS_KEEP_ALIVE ==>
                  XudpRead(c, own, s + rest, cap) == XudpRead(c, own, s[HEADER_SIZE..] + rest, cap)
      {
        WalkStep(c, own, s, rest, cap);
      }
      if s[4] == STATUS_KEEP_ALIVE {
        WalkStops(c, own, s[HEADER_SIZE..], cap);
      } else {
        var h := ReadReplyHeader(c, own, FromBE16(s[..2]), s[HEADER_SIZE..], cap - HEADER_SIZE);
        if h.BadReply? {
          KeepTells(c, own, s, cap);
        } else {
          WalkStep(c, own, s, END_FRAME, cap);
          WalkStep(c, own, s, NEW_FRAME, cap);
          WalkStep(c, own, s, [], cap);
          WalkStops(c, own, h.rest, cap);
        }
      }
    }
  }

  // The client passes over s whatever follows it.
  ghost predicate PassedOver(c: Codec, own: Addr, s: bytes, cap: nat) {
    forall rest: bytes :: XudpRead(c, own, s + rest, cap) == XudpRead(c, own, rest, cap)
  }

  lemma PassedOverIsWalkedOver(c: Codec, own: Addr, s: bytes, cap: nat)
    requires cap >= HEADER_SIZE
    ensures PassedOver(c, own, s, cap) <==> WalkedOver(c, own, s, cap)
  {
    hide XudpRead, WalkedOver;
    if WalkedOver(c, own, s, cap) {
      forall rest: bytes ensures XudpRead(c, own, s + rest, cap) == XudpRead(c, own, rest, cap) {
        WalkGoesOn(c, own, s, rest, cap);
      }
    } else {
      StopFrames(c, own, cap);
      WalkStops(c, own, s, cap);
    }
  }

  // A dataless Keep or KeepAlive is passed over whole exactly when it is a
  // KeepAlive without the error bit whose target, which this client does not
  // skip, is itself passed over; or when the buffer takes no header at all. In
  // particular a KeepAlive without a target always is, one whose target is
  // shorter than a frame header never, and a Keep never.
  lemma DatalessFrames(c: Codec, own: Addr, f: Frame, cap: nat)
    requires WellFormed(c, f) && f.data.None? && (f.status == STATUS_KEEP || f.status == STATUS_KEEP_ALIVE)
    ensures
      var t := TargetBytes(c, f.target);
      && (PassedOver(c, own, Encode(c, f), cap)
          <==> cap < HEADER_SIZE
               || (f.status == STATUS_KEEP_ALIVE && !HasError(f.option) && WalkedOver(c, own, t, cap)))
      && (cap >= HEADER_SIZE && f.target.None? ==> WalkedOver(c, own, t, cap))
      && (cap >= HEADER_SIZE && 0 < |t| < HEADER_SIZE ==> !WalkedOver(c, own, t, cap))
  {
    hide ReadReplyHeader, Header, FromBE16, BE16, HasError, HasData, TargetBytes;
    if cap >= HEADER_SIZE {
      NoTargetBytes(c);
      var t := TargetBytes(c, f.target);
      var s := Encode(c, f);
      PassedOverIsWalkedOver(c, own, s, cap);
      assert DataBytes(f.data) == [] && t + [] == t;
      HeaderFields(SHORT_LENGTH + |t|, f.session, f.status, f.option, t);
      HeaderAhead(c, own, SHORT_LENGTH + |t|, t, [], cap - HEADER_SIZE);
    }
  }

  function TargetedKeepAlive(): Frame {
    Frame(0, STATUS_KEEP_ALIVE, 0, Some(Target(0, Address([], 256), [])), None)
  }

  lemma TargetedKeepAliveBytes()
    ensures WellFormed(NameCodec(), TargetedKeepAlive())
    ensures Encode(NameCodec(), TargetedKeepAlive()) == [0, 8, 0, 0, 4, 0] + [0, 1, 0, 0]
  {
    assert TargetBytes(NameCodec(), TargetedKeepAlive().target) == [0, 1, 0, 0];
  }

  // A KeepAlive naming a host without letters at port 256: the client takes
  // the four bytes of the target for the start of the next header, and the
  // packet that follows is lost.
  lemma TargetedKeepAliveIsNotPassedOver(own: Addr, rest: bytes)
    ensures
      var c, f := NameCodec(), TargetedKeepAlive();
      var p := Encode(c, ReplyFrame(0, [7], None));
      && WellFormed(c, f)
      && XudpRead(c, own, p + rest, 100) == PacketGot(Packet([7], own), rest)
      && XudpRead(c, own, Encode(c, f) + (p + rest), 100) == Refused(BadLength)
  {
    hide Encode, XudpRead, WellFormed, NameCodec, ReadReplyHeader;
    var c, f := NameCodec(), TargetedKeepAlive();
    var p := Encode(c, ReplyFrame(0, [7], None));
    NameCodecIsLawful();
    NoTargetBytes(c);
    ReplyReadsBack(c, own, 0, [7], None, rest, 100);
    TargetedKeepAliveBytes();
    KeepAliveStep(c, own, [0, 8, 0, 0, 4, 0], [0, 1, 0, 0] + (p + rest), 100);
    Assoc([0, 8, 0, 0, 4, 0], [0, 1, 0, 0], p + rest);
    ReplyHasHeader(c, 0, [7]);
    LowLengthIsRefused(c, own, [0, 1, 0, 0] + (p + rest), 100);
  }

  lemma ReplyHasHeader(c: Codec, session: word, data: bytes)
    ensures |Encode(c, ReplyFrame(session, data, None))| >= HEADER_SIZE
  {
  }

  lemma LowLengthIsRefused(c: Codec, own: Addr, s: bytes, cap: nat)
    requires |s| >= HEADER_SIZE && cap >= HEADER_SIZE && s[0] == 0 && s[1] < SHORT_LENGTH
    ensures XudpRead(c, own, s, cap) == Refused(BadLength)
  {
  }

  lemma KeepAliveStep(c: Codec, own: Addr, h: bytes, rest: bytes, cap: nat)
    requires |h| == HEADER_SIZE <= cap && FromBE16(h[..2]) >= SHORT_LENGTH && h[4..] == [STATUS_KEEP_ALIVE, 0]
    ensures XudpRead(c, own, h + rest, cap) == XudpRead(c, own, rest, cap)
  {
    assert h[4] == h[4..][0] && h[5] == h[4..][1];
    SameHeader(h, rest);
    assert h[HEADER_SIZE..] + rest == rest;
  }

  // One step of the stream client: a dataless Keep or KeepAlive is skipped
  // whole, whatever follows, exactly when the error bit is off and it is a
  // Keep or has no target.
  lemma DatalessSteps(c: Codec, f: Frame)
    requires WellFormed(c, f) && f.data.None? && (f.status == STATUS_KEEP || f.status == STATUS_KEEP_ALIVE)
    ensures (forall rest: bytes :: NextStep(Encode(c, f) + rest) == Skip(rest))
            <==> !HasError(f.option) && (f.status == STATUS_KEEP || f.target.None?)
  {
    hide Header, FromBE16, BE16, HasError, HasData, TargetBytes, NextStep;
    var t := TargetBytes(c, f.target);
    TargetIsSomeByte(c, f.target);
    forall rest: bytes
      ensures NextStep(Encode(c, f) + rest)
              == if HasError(f.option) then Stop(RemoteClosed) else Skip(if f.status == STATUS_KEEP then rest else t + rest)
    {
      StepOver(c, f, rest);
    }
    assert t + [] == t;
    if f.target.None? {
      forall rest: bytes ensures t + rest == rest {
      }
    }
    assert NextStep(Encode(c, f) + [])
           == if HasError(f.option) then Stop(RemoteClosed) else Skip(if f.status == STATUS_KEEP then [] else t + []);
  }

  lemma TargetIsSomeByte(c: Codec, target: Option<Target>)
    ensures target.Some? <==> TargetBytes(c, target) != []
  {
  }

  lemma StepOver(c: Codec, f: Frame, rest: bytes)
    requires WellFormed(c, f) && f.data.None? && (f.status == STATUS_KEEP || f.status == STATUS_KEEP_ALIVE)
    ensures
      var t := TargetBytes(c, f.target);
      NextStep(Encode(c, f) + rest)
      == if HasError(f.option) then Stop(RemoteClosed) else Skip(if f.status == STATUS_KEEP then rest else t + rest)
  {
    hide Header, FromBE16, BE16, HasError, HasData, TargetBytes;
    NoTargetBytes(c);
    var t := TargetBytes(c, f.target);
    HeaderFields(SHORT_LENGTH + |t|, f.session, f.status, f.option, t + rest);
    assert DataBytes(f.data) == [] && t + [] == t;
    Assoc(Header(SHORT_LENGTH + |t|, f.session, f.status, f.option), t, rest);
    assert (t + rest)[0..] == t + rest && (t + rest)[|t|..] == rest;
  }
}
