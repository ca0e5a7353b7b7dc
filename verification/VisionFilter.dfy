// The TLS detection of vless/vision.go: what it makes of the buffers that pass,
// and when it allows the switch to raw bytes.
module VisionFilter {
  import opened Bytes
  import VisionFormat

  const SUPPORTED_VERSIONS: bytes := [0x00, 0x2b, 0x00, 0x02, 0x03, 0x04]
  const PACKETS_TO_FILTER := 8

  predicate Contains(b: bytes, pattern: bytes) {
    VisionFormat.LastIndex(b, pattern) >= 0
  }

  // hello is what is still to come of a server hello, -1 before the first one.
  datatype Detection = Detection(
    isTLS: bool, packets: int, isTLS12orAbove: bool, hello: int, cipher: nat, enableXTLS: bool)

  const UNDETECTED: Detection := Detection(false, PACKETS_TO_FILTER, false, -1, 0, false)

  predicate HandshakeRecord(buffer: bytes) {
    |buffer| > 6 && buffer[0] == 22 && buffer[1] == 3 && buffer[2] == 3
  }

  predicate ServerHello(buffer: bytes) {
    HandshakeRecord(buffer) && buffer[5] == 2
  }

  predicate ClientHello(buffer: bytes) {
    |buffer| > 6 && buffer[0] == 22 && buffer[1] == 3 && buffer[5] == 1
  }

  function HelloLength(buffer: bytes): nat
    requires ServerHello(buffer)
  {
    FromBE16(buffer[3..5]) + 5
  }

  // The cipher suite behind the session id, where the buffer holds it.
  function CipherSuite(buffer: bytes): Option<nat>
    requires ServerHello(buffer)
  {
    if |buffer| >= 79 && HelloLength(buffer) >= 79 && |buffer| >= 43 + buffer[43] as int + 3
    then Some(FromBE16(buffer[43 + buffer[43] as int + 1..43 + buffer[43] as int + 3]))
    else None
  }

  function Noted(d: Detection, buffer: bytes): Detection {
    if ServerHello(buffer) then
      d.(isTLS := true, isTLS12orAbove := true, hello := HelloLength(buffer),
         cipher := if CipherSuite(buffer).Some? then CipherSuite(buffer).value else d.cipher)
    else if HandshakeRecord(buffer) || ClientHello(buffer) then d.(isTLS := true)
    else d
  }

  // Suites of TLS 1.3 but for the one with the short tag.
  predicate Penetrable(cipher: nat) {
    0x1301 <= cipher <= 0x1304
  }

  // One buffer, and whether it ends the server hello.
  function Watched(d: Detection, buffer: bytes): (Detection, bool) {
    var e := Noted(d.(packets := d.packets - 1), buffer);
    if e.hello <= 0 then (e, false)
    else
      var end := Min(e.hello, |buffer|);
      if Contains(buffer[..end], SUPPORTED_VERSIONS)
      then (e.(hello := e.hello - end, packets := 0, enableXTLS := e.enableXTLS || Penetrable(e.cipher)), true)
      else if e.hello == end then (e.(hello := 0, packets := 0), true)
      else (e.(hello := e.hello - end), false)
  }

  // The buffers of one call, up to the one that ends the hello.
  function Filtered(d: Detection, buffers: seq<bytes>): Detection
    decreases |buffers|
  {
    if buffers == [] then d
    else
      var (e, ended) := Watched(d, buffers[0]);
      if ended then e else Filtered(e, buffers[1..])
  }

  // Any number of calls; there are none once the count is used up.
  function FilteredAll(d: Detection, calls: seq<seq<bytes>>): Detection
    decreases |calls|
  {
    if calls == [] || d.packets <= 0 then d else FilteredAll(Filtered(d, calls[0]), calls[1..])
  }

  // What an allowed switch takes for granted.
  predicate Earned(d: Detection) {
    && (d.hello >= 0 ==> d.isTLS12orAbove)
    && (d.isTLS12orAbove ==> d.isTLS)
    && (d.enableXTLS ==> d.isTLS12orAbove && d.packets <= 0 && Penetrable(d.cipher))
  }

  lemma WatchedEarns(d: Detection, buffer: bytes)
    requires Earned(d) && !d.enableXTLS
    ensures Earned(Watched(d, buffer).0) && (Watched(d, buffer).0.enableXTLS ==> Watched(d, buffer).1)
  {
    hide Contains, HelloLength, CipherSuite;
  }

  lemma {:induction false} FilteredEarns(d: Detection, buffers: seq<bytes>)
    requires Earned(d) && !d.enableXTLS
    ensures Earned(Filtered(d, buffers))
    decreases |buffers|
  {
    hide Watched, Earned;
    if buffers != [] {
      WatchedEarns(d, buffers[0]);
      var (e, ended) := Watched(d, buffers[0]);
      if !ended {
        FilteredEarns(e, buffers[1..]);
      }
    }
  }

  // Over any calls: raw bytes are only allowed after a server hello of TLS 1.2
  // or later with one of the suites, and then filtering is over.
  lemma {:induction false} SwitchIsEarned(d: Detection, calls: seq<seq<bytes>>)
    requires Earned(d) && (d.packets > 0 ==> !d.enableXTLS)
    ensures
      var e := FilteredAll(d, calls);
      && Earned(e)
      && (e.enableXTLS ==> e.isTLS && e.isTLS12orAbove && e.packets <= 0 && Penetrable(e.cipher))
    decreases |calls|
  {
    hide Filtered;
    if calls != [] && d.packets > 0 {
      FilteredEarns(d, calls[0]);
      SwitchIsEarned(Filtered(d, calls[0]), calls[1..]);
    }
  }

  lemma {:induction false} OneMoreCall(d: Detection, calls: seq<seq<bytes>>, call: seq<bytes>)
    ensures
      var e := FilteredAll(d, calls);
      FilteredAll(d, calls + [call]) == if e.packets > 0 then Filtered(e, call) else e
    decreases |calls|
  {
    hide Filtered;
    if calls == [] {
      assert [call][1..] == [];
    } else if d.packets > 0 {
      assert (calls + [call])[1..] == calls[1..] + [call];
      OneMoreCall(Filtered(d, calls[0]), calls[1..], call);
    }
  }

  // What has been allowed stays allowed, whatever passes later.
  lemma {:induction false} FlagsStay(d: Detection, calls: seq<seq<bytes>>, more: seq<seq<bytes>>)
    requires calls <= more
    ensures
      var e, l := FilteredAll(d, calls), FilteredAll(d, more);
      (e.isTLS ==> l.isTLS) && (e.isTLS12orAbove ==> l.isTLS12orAbove) && (e.enableXTLS ==> l.enableXTLS)
    decreases |more|
  {
    hide Filtered;
    if d.packets > 0 && more != [] {
      FilteredOnlyAdds(d, more[0]);
      if calls == [] {
        FlagsStay(Filtered(d, more[0]), [], more[1..]);
      } else {
        FlagsStay(Filtered(d, more[0]), calls[1..], more[1..]);
      }
    }
  }

  // The cipher noted is that of a server hello among the buffers.
  ghost predicate Seen(buffers: seq<bytes>, d: Detection) {
    && (d.isTLS12orAbove ==> exists i :: 0 <= i < |buffers| && ServerHello(buffers[i]))
    && (d.cipher > 0 ==> exists i :: 0 <= i < |buffers| && Names(buffers[i], d.cipher))
    && (d.enableXTLS ==> exists i :: 0 <= i < |buffers| && Contains(buffers[i], SUPPORTED_VERSIONS))
  }

  predicate Names(hello: bytes, cipher: nat) {
    ServerHello(hello) && CipherSuite(hello) == Some(cipher)
  }

  lemma {:induction false} ContainsPrefix(b: bytes, n: nat, pattern: bytes)
    requires n <= |b| && Contains(b[..n], pattern)
    ensures Contains(b, pattern)
    decreases |b|
  {
    var i := VisionFormat.LastIndex(b[..n], pattern);
    assert b[..n][i..i + |pattern|] == b[i..i + |pattern|];
    FoundAt(b, pattern, i);
  }

  lemma {:induction false} FoundAt(b: bytes, pattern: bytes, i: nat)
    requires i + |pattern| <= |b| && b[i..i + |pattern|] == pattern
    ensures VisionFormat.LastIndex(b, pattern) >= i
    decreases |b|
  {
    if i + |pattern| < |b| && b[|b| - |pattern|..] != pattern {
      assert b[..|b| - 1][i..i + |pattern|] == pattern;
      FoundAt(b[..|b| - 1], pattern, i);
    }
  }

  lemma {:induction false} SeenGrows(buffers: seq<bytes>, more: seq<bytes>, d: Detection)
    requires Seen(buffers, d)
    ensures Seen(buffers + more, d)
  {
    hide ServerHello, Names, Contains;
    var all := buffers + more;
    assert forall i :: 0 <= i < |buffers| ==> all[i] == buffers[i];
    if d.isTLS12orAbove {
      var i :| 0 <= i < |buffers| && ServerHello(buffers[i]);
      assert ServerHello(all[i]);
    }
    if d.cipher > 0 {
      var i :| 0 <= i < |buffers| && Names(buffers[i], d.cipher);
      assert Names(all[i], d.cipher);
    }
    if d.enableXTLS {
      var i :| 0 <= i < |buffers| && Contains(buffers[i], SUPPORTED_VERSIONS);
      assert Contains(all[i], SUPPORTED_VERSIONS);
    }
  }

  lemma WatchedIsSeen(buffers: seq<bytes>, d: Detection, buffer: bytes)
    requires Seen(buffers, d)
    ensures Seen(buffers + [buffer], Watched(d, buffer).0)
  {
    hide Contains, HelloLength, CipherSuite, Seen;
    SeenGrows(buffers, [buffer], d);
    var all := buffers + [buffer];
    assert all[|buffers|] == buffer;
    SameFlags(all, d, d.(packets := d.packets - 1));
    NotedIsSeen(all, d.(packets := d.packets - 1), buffer);
    var e := Noted(d.(packets := d.packets - 1), buffer);
    if e.hello > 0 {
      var end := Min(e.hello, |buffer|);
      if Contains(buffer[..end], SUPPORTED_VERSIONS) {
        ContainsPrefix(buffer, end, SUPPORTED_VERSIONS);
        VersionsSeen(all, e, Watched(d, buffer).0, buffer);
      } else {
        SameFlags(all, e, Watched(d, buffer).0);
      }
    }
  }

  lemma SameFlags(buffers: seq<bytes>, d: Detection, e: Detection)
    requires d.isTLS12orAbove == e.isTLS12orAbove && d.cipher == e.cipher && d.enableXTLS == e.enableXTLS
    ensures Seen(buffers, d) <==> Seen(buffers, e)
  {
  }

  lemma VersionsSeen(buffers: seq<bytes>, d: Detection, e: Detection, buffer: bytes)
    requires Seen(buffers, d) && buffer in buffers && Contains(buffer, SUPPORTED_VERSIONS)
    requires d.isTLS12orAbove == e.isTLS12orAbove && d.cipher == e.cipher
    ensures Seen(buffers, e)
  {
    hide ServerHello, Names, Contains;
  }

  lemma NotedIsSeen(buffers: seq<bytes>, d: Detection, buffer: bytes)
    requires buffer in buffers && Seen(buffers, d)
    ensures Seen(buffers, Noted(d, buffer))
  {
    hide Contains, CipherSuite, HelloLength;
    var i :| 0 <= i < |buffers| && buffers[i] == buffer;
    if ServerHello(buffer) {
      assert ServerHello(buffers[i]);
      if CipherSuite(buffer).Some? {
        assert Names(buffers[i], Noted(d, buffer).cipher);
      }
    }
  }

  lemma {:induction false} FilteredIsSeen(buffers: seq<bytes>, d: Detection, call: seq<bytes>)
    requires Seen(buffers, d)
    ensures Seen(buffers + call, Filtered(d, call))
    decreases |call|
  {
    hide Seen, Watched;
    if call == [] {
      assert buffers + call == buffers;
    } else {
      WatchedIsSeen(buffers, d, call[0]);
      var (e, ended) := Watched(d, call[0]);
      assert (buffers + [call[0]]) + call[1..] == buffers + call;
      if ended {
        SeenGrows(buffers + [call[0]], call[1..], e);
      } else {
        FilteredIsSeen(buffers + [call[0]], e, call[1..]);
      }
    }
  }

  // All buffers of some calls.
  function AllOf(calls: seq<seq<bytes>>): seq<bytes> {
    if calls == [] then [] else calls[0] + AllOf(calls[1..])
  }

  lemma {:induction false} CallsAreSeen(buffers: seq<bytes>, d: Detection, calls: seq<seq<bytes>>)
    requires Seen(buffers, d)
    ensures Seen(buffers + AllOf(calls), FilteredAll(d, calls))
    decreases |calls|
  {
    hide Seen, Filtered;
    if calls == [] {
      assert buffers + [] == buffers;
    } else if d.packets <= 0 {
      SeenGrows(buffers, AllOf(calls), d);
    } else {
      FilteredIsSeen(buffers, d, calls[0]);
      CallsAreSeen(buffers + calls[0], Filtered(d, calls[0]), calls[1..]);
      assert (buffers + calls[0]) + AllOf(calls[1..]) == buffers + AllOf(calls);
    }
  }

  // Raw bytes are allowed only when a server hello has passed whose suite is
  // one of the four, and a buffer that says TLS 1.3.
  lemma SwitchNeedsHello(calls: seq<seq<bytes>>)
    ensures
      var e, buffers := FilteredAll(UNDETECTED, calls), AllOf(calls);
      e.enableXTLS ==>
        && e.isTLS && Penetrable(e.cipher)
        && (exists i :: 0 <= i < |buffers| && Names(buffers[i], e.cipher))
        && (exists i :: 0 <= i < |buffers| && Contains(buffers[i], SUPPORTED_VERSIONS))
  {
    hide Names, Contains, ServerHello, FilteredAll;
    SwitchIsEarned(UNDETECTED, calls);
    CallsAreSeen([], UNDETECTED, calls);
    assert [] + AllOf(calls) == AllOf(calls);
  }

  // A whole server hello in one buffer, while the count is not up and no hello
  // is awaited: raw bytes are allowed exactly if it says TLS 1.3 and names one
  // of the four suites, and nothing is filtered any more.
  lemma HelloDecides(d: Detection, hello: bytes, suite: nat)
    requires |hello| >= 79 && hello[..3] == [22, 3, 3] && hello[5] == 2
    requires hello[3] as int * 256 + hello[4] + 5 <= |hello| && hello[3] as int * 256 + hello[4] + 5 >= 79
    requires |hello| >= 43 + hello[43] as int + 3
    requires suite == hello[43 + hello[43] as int + 1] as int * 256 + hello[43 + hello[43] as int + 2]
    ensures
      var e := Filtered(d, [hello]);
      && e.isTLS && e.isTLS12orAbove && e.packets == 0 && e.cipher == suite
      && (e.enableXTLS <==>
            || d.enableXTLS
            || (suite in {0x1301, 0x1302, 0x1303, 0x1304}
                && VisionFormat.LastIndex(hello[..hello[3] as int * 256 + hello[4] + 5], [0, 43, 0, 2, 3, 4]) >= 0))
  {
    hide VisionFormat.LastIndex;
    assert hello[3..5][0] == hello[3] && hello[3..5][1] == hello[4];
    var at := 43 + hello[43] as int + 1;
    assert hello[at..at + 2][0] == hello[at] && hello[at..at + 2][1] == hello[at + 1];
    assert [hello][1..] == [];
  }

  // Buffers without a handshake record leave the flags alone, and eight of
  // them use up the count of a new connection.
  lemma {:induction false} CountRunsOut(d: Detection, buffers: seq<bytes>)
    requires d.hello <= 0
    requires forall i :: 0 <= i < |buffers| ==> |buffers[i]| <= 6 || buffers[i][0] != 22
    ensures Filtered(d, buffers) == d.(packets := d.packets - |buffers|)
    ensures UNDETECTED.packets == 8 && UNDETECTED.hello == -1 && !UNDETECTED.isTLS && !UNDETECTED.enableXTLS
    decreases |buffers|
  {
    hide Contains;
    if buffers != [] {
      CountRunsOut(d.(packets := d.packets - 1), buffers[1..]);
    }
  }

  // A client hello is a sign of TLS and no more.
  lemma ClientHelloIsNoted(d: Detection, hello: bytes)
    requires d.hello <= 0 && |hello| > 6 && hello[0] == 22 && hello[1] == 3 && hello[5] == 1
    ensures Filtered(d, [hello]) == d.(packets := d.packets - 1, isTLS := true)
  {
    hide Contains;
    assert [hello][1..] == [];
  }

  // The detection only ever gains flags, and its count only falls.
  lemma {:induction false} FilteredOnlyAdds(d: Detection, buffers: seq<bytes>)
    requires d.packets > 0
    ensures
      var e := Filtered(d, buffers);
      && (d.isTLS ==> e.isTLS) && (d.isTLS12orAbove ==> e.isTLS12orAbove) && (d.enableXTLS ==> e.enableXTLS)
      && e.packets <= d.packets
  {
    Watching(d, buffers, d.packets);
  }

  lemma {:induction false} Watching(d: Detection, buffers: seq<bytes>, most: int)
    requires d.packets <= most && most > 0
    ensures
      var e := Filtered(d, buffers);
      && (d.isTLS ==> e.isTLS) && (d.isTLS12orAbove ==> e.isTLS12orAbove) && (d.enableXTLS ==> e.enableXTLS)
      && e.packets <= most
    decreases |buffers|
  {
    hide Contains, HelloLength, CipherSuite;
    if buffers != [] {
      var (e, ended) := Watched(d, buffers[0]);
      if !ended {
        Watching(e, buffers[1..], most);
      }
    }
  }

  class Filter {
    var isTLS: bool
    var numberOfPacketToFilter: int
    var isTLS12orAbove: bool
    var remainingServerHello: int
    var cipher: nat
    var enableXTLS: bool
    ghost var seen: seq<seq<bytes>>

    constructor ()
      ensures State() == UNDETECTED && seen == [] && Valid()
    {
      seen := [];
      isTLS, numberOfPacketToFilter, isTLS12orAbove := false, PACKETS_TO_FILTER, false;
      remainingServerHello, cipher, enableXTLS := -1, 0, false;
    }

    ghost function State(): Detection
      reads this
    {
      Detection(isTLS, numberOfPacketToFilter, isTLS12orAbove, remainingServerHello, cipher, enableXTLS)
    }

    // The detection is what the calls so far make of it.
    ghost predicate Valid()
      reads this
    {
      State() == FilteredAll(UNDETECTED, seen)
    }

    // The detection after one call; filtering stops for good once the count is
    // used up.
    method FilterTLS(buffers: seq<bytes>)
      requires numberOfPacketToFilter > 0
      modifies this
      ensures State() == Filtered(old(State()), buffers)
      ensures numberOfPacketToFilter <= old(numberOfPacketToFilter)
      ensures seen == old(seen) + [buffers] && (old(Valid()) ==> Valid())
    {
      hide Watched, Filtered, FilteredAll;
      OneMoreCall(UNDETECTED, seen, buffers);
      FilterBuffers(buffers);
      seen := seen + [buffers];
    }

    method FilterBuffers(buffers: seq<bytes>)
      requires numberOfPacketToFilter > 0
      modifies `isTLS, `numberOfPacketToFilter, `isTLS12orAbove, `remainingServerHello, `cipher, `enableXTLS
      ensures State() == Filtered(old(State()), buffers)
      ensures numberOfPacketToFilter <= old(numberOfPacketToFilter)
    {
      hide Watched;
      FilteredOnlyAdds(State(), buffers);
      assert buffers[0..] == buffers;
      for i := 0 to |buffers|
        invariant Filtered(State(), buffers[i..]) == Filtered(old(State()), buffers)
      {
        assert buffers[i..][0] == buffers[i] && buffers[i..][1..] == buffers[i + 1..];
        var ended := Watch(buffers[i]);
        if ended {
          return;
        }
      }
    }

    // The loop body of filterTLS.
    method Watch(buffer: bytes) returns (ended: bool)
      modifies `isTLS, `numberOfPacketToFilter, `isTLS12orAbove, `remainingServerHello, `cipher, `enableXTLS
      ensures (State(), ended) == Watched(old(State()), buffer)
    {
      hide Contains, Noted;
      numberOfPacketToFilter := numberOfPacketToFilter - 1;
      NoteHello(buffer);
      ended := false;
      if remainingServerHello > 0 {
        var end := Min(remainingServerHello, |buffer|);
        remainingServerHello := remainingServerHello - end;
        if Contains(buffer[..end], SUPPORTED_VERSIONS) {
          if 0x1301 <= cipher <= 0x1304 {
            enableXTLS := true;
          }
          numberOfPacketToFilter := 0;
          ended := true;
        } else if remainingServerHello == 0 {
          numberOfPacketToFilter := 0;
          ended := true;
        }
      }
    }

    // The hello messages: every index lies inside the buffer.
    method NoteHello(buffer: bytes)
      modifies `isTLS, `isTLS12orAbove, `remainingServerHello, `cipher
      ensures State() == Noted(old(State()), buffer)
    {
      if |buffer| > 6 {
        if buffer[0] == 22 && buffer[1] == 3 && buffer[2] == 3 {
          isTLS := true;
          if buffer[5] == 2 {
            isTLS12orAbove := true;
            remainingServerHello := FromBE16(buffer[3..5]) + 5;
            if |buffer| >= 79 && remainingServerHello >= 79 {
              var sessionIdLen: int := buffer[43];
              if |buffer| >= 43 + sessionIdLen + 3 {
                cipher := FromBE16(buffer[43 + sessionIdLen + 1..43 + sessionIdLen + 3]);
              }
            }
          }
        } else if buffer[0] == 0x16 && buffer[1] == 3 && buffer[5] == 1 {
          isTLS := true;
        }
      }
    }
  }
}
