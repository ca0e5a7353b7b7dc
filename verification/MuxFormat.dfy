// The frames of mux.go: how they are written and how serverSession.recv takes
// them off the stream.
module MuxFormat {
  import opened Bytes

  const STATUS_NEW: byte := 1
  const STATUS_KEEP: byte := 2
  const STATUS_END: byte := 3
  const STATUS_KEEP_ALIVE: byte := 4
  const OPTION_DATA: byte := 1
  const OPTION_ERROR: byte := 2
  const NETWORK_TCP: byte := 1
  const NETWORK_UDP: byte := 2

  const HEADER_SIZE := 6
  const SHORT_LENGTH := 4
  const MAX_ADDRESS_SIZE := 259

  // A Socksaddr, which need not be valid.
  datatype Addr = NoAddress | Address(host: bytes, port: word)

  // The address serializer of the sing library.
  datatype Codec = Codec(
    encode: Addr -> bytes,                        // WriteAddrPort
    decode: bytes -> Option<(Addr, nat)>,         // ReadAddrPort and how much it read
    length: Addr -> nat)                          // AddrPortLen

  // A name of more than 255 bytes has no encoding.
  predicate Fits(a: Addr) {
    a.Address? && |a.host| < 256
  }

  // A prefix decoder that knows its lengths.
  ghost predicate Lawful(c: Codec) {
    && (forall a: Addr, rest: bytes :: Fits(a) ==> c.decode(c.encode(a) + rest) == Some((a, |c.encode(a)|)))
    && (forall a: Addr :: Fits(a) ==> c.length(a) == |c.encode(a)|)
    && (forall a: Addr :: c.length(a) <= MAX_ADDRESS_SIZE)
    && (forall b: bytes :: c.decode(b).Some? ==> Fits(c.decode(b).value.0) && c.decode(b).value.1 <= |b|)
  }

  // The laws are consistent: port, then the length of the name, then the name.
  function NameCodec(): Codec {
    Codec((a: Addr) => if Fits(a) then BE16(a.port) + ([|a.host| as byte] + a.host) else [],
          (b: bytes) =>
            if |b| < 3 || |b| < 3 + b[2] as int then None
            else Some((Address(b[3..3 + b[2] as int], FromBE16(b[..2])), 3 + b[2] as int)),
          (a: Addr) => if Fits(a) then 3 + |a.host| else 0)
  }

  lemma NameCodecIsLawful()
    ensures Lawful(NameCodec())
  {
    forall a: Addr, rest: bytes | Fits(a)
      ensures NameCodec().decode(NameCodec().encode(a) + rest) == Some((a, |NameCodec().encode(a)|))
    {
      NameReadsBack(a, rest);
    }
  }

  lemma NameReadsBack(a: Addr, rest: bytes)
    requires Fits(a)
    ensures NameCodec().decode(NameCodec().encode(a) + rest) == Some((a, |NameCodec().encode(a)|))
  {
    hide BE16, FromBE16;
    var b := NameCodec().encode(a) + rest;
    BE16RoundTrip(a.port);
    assert b[..2] == BE16(a.port) && b[2] == |a.host| && b[3..3 + |a.host|] == a.host;
  }

  // A frame. The target is the network and the address of a header of more
  // than four bytes; extra is what follows them in the header.
  datatype Frame = Frame(session: word, status: byte, option: byte, target: Option<Target>, data: Option<bytes>)

  datatype Target = Target(network: byte, address: Addr, extra: bytes)

  function TargetBytes(c: Codec, target: Option<Target>): bytes {
    match target
    case None => []
    case Some(t) => [t.network] + (c.encode(t.address) + t.extra)
  }

  function DataBytes(data: Option<bytes>): bytes {
    match data
    case None => []
    case Some(d) => BE16(|d|) + d
  }

  function Header(length: nat, session: word, status: byte, option: byte): bytes {
    BE16(length) + (BE16(session) + [status, option])
  }

  function Encode(c: Codec, f: Frame): bytes {
    Header(SHORT_LENGTH + |TargetBytes(c, f.target)|, f.session, f.status, f.option)
    + (TargetBytes(c, f.target) + DataBytes(f.data))
  }

  predicate HasData(option: byte) {
    option % 2 == 1
  }

  predicate HasError(option: byte) {
    option as int / 2 % 2 == 1
  }

  predicate KnownStatus(status: byte) {
    STATUS_NEW <= status <= STATUS_KEEP_ALIVE
  }

  // Frames that recv accepts.
  predicate WellFormed(c: Codec, f: Frame) {
    && KnownStatus(f.status)
    && (HasData(f.option) <==> f.data.Some?)
    && (f.target.Some? ==> Fits(f.target.value.address) && |TargetBytes(c, f.target)| < 0x10000 - SHORT_LENGTH)
    && (f.status == STATUS_NEW ==>
          f.target.Some? && (f.target.value.network == NETWORK_TCP || f.target.value.network == NETWORK_UDP))
  }

  lemma NewHasTarget(c: Codec, f: Frame)
    requires WellFormed(c, f)
    ensures f.status == STATUS_NEW ==> f.target.Some?
  {
  }

  lemma NoTargetBytes(c: Codec)
    ensures TargetBytes(c, None) == []
  {
  }

  datatype Error = Ended | BadAddress | BadNetwork | BadStatus

  datatype Parsed = Parsed(frame: Frame, rest: bytes) | Failed(error: Error)

  datatype TargetParsed = TargetParsed(target: Option<Target>, rest: bytes) | TargetFailed(error: Error)

  // A header length of up to four means no target, even when it is less.
  function ParseTarget(c: Codec, length: word, s: bytes): (r: TargetParsed)
    ensures r.TargetParsed? ==> |r.rest| <= |s|
  {
    if length <= SHORT_LENGTH then TargetParsed(None, s)
    else if |s| < length - SHORT_LENGTH then TargetFailed(Ended)
    else
      var limited := s[1..length - SHORT_LENGTH];
      match c.decode(limited)
      case None => TargetFailed(BadAddress)
      case Some(decoded) =>
        if decoded.1 > |limited| then TargetFailed(BadAddress)
        else TargetParsed(Some(Target(s[0], decoded.0, limited[decoded.1..])), s[length - SHORT_LENGTH..])
  }

  datatype DataParsed = DataParsed(data: Option<bytes>, rest: bytes) | DataEnded

  function ParseData(option: byte, s: bytes): (r: DataParsed)
    ensures r.DataParsed? ==> |r.rest| <= |s|
  {
    if !HasData(option) then DataParsed(None, s)
    else if |s| < 2 || |s| - 2 < FromBE16(s[..2]) then DataEnded
    else DataParsed(Some(s[2..2 + FromBE16(s[..2])]), s[2 + FromBE16(s[..2])..])
  }

  function CheckFrame(status: byte, target: Option<Target>): Option<Error> {
    if status == STATUS_NEW then
      if target.None? then Some(BadNetwork)
      else if target.value.network == NETWORK_TCP || target.value.network == NETWORK_UDP then None else Some(BadNetwork)
    else if KnownStatus(status) then None else Some(BadStatus)
  }

  function Parse(c: Codec, s: bytes): (r: Parsed)
    ensures r.Parsed? ==> |r.rest| < |s|
  {
    if |s| < HEADER_SIZE then Failed(Ended)
    else
      match ParseTarget(c, FromBE16(s[..2]), s[HEADER_SIZE..])
      case TargetFailed(e) => Failed(e)
      case TargetParsed(target, body) =>
        match CheckFrame(s[4], target)
        case Some(e) => Failed(e)
        case None =>
          match ParseData(s[5], body)
          case DataEnded => Failed(Ended)
          case DataParsed(data, rest) => Parsed(Frame(FromBE16(s[2..4]), s[4], s[5], target, data), rest)
  }

  lemma TargetReadsBack(c: Codec, target: Option<Target>, rest: bytes)
    requires Lawful(c)
    requires target.Some? ==> Fits(target.value.address) && |TargetBytes(c, target)| < 0x10000 - SHORT_LENGTH
    ensures ParseTarget(c, SHORT_LENGTH + |TargetBytes(c, target)|, TargetBytes(c, target) + rest) == TargetParsed(target, rest)
  {
    if target.Some? {
      var t := target.value;
      var e := c.encode(t.address);
      var s := TargetBytes(c, target) + rest;
      assert s[1..1 + |e| + |t.extra|] == e + t.extra;
      assert c.decode(e + t.extra) == Some((t.address, |e|));
      assert (e + t.extra)[|e|..] == t.extra;
      assert s[1 + |e| + |t.extra|..] == rest;
    } else {
      assert [] + rest == rest;
    }
  }

  lemma HeaderFields(length: nat, session: word, status: byte, option: byte, rest: bytes)
    requires length < 0x10000
    ensures
      var s := Header(length, session, status, option) + rest;
      && |s| == HEADER_SIZE + |rest| && FromBE16(s[..2]) == length && FromBE16(s[2..4]) == session
      && s[4] == status && s[5] == option && s[HEADER_SIZE..] == rest
  {
    var s := Header(length, session, status, option) + rest;
    BE16RoundTrip(length);
    BE16RoundTrip(session);
    assert s[..2] == BE16(length) && s[2..4] == BE16(session);
  }

  lemma DataReadsBack(option: byte, data: Option<bytes>, rest: bytes)
    requires HasData(option) <==> data.Some?
    ensures ParseData(option, DataBytes(data) + rest) == DataParsed(data, rest)
            <==> (data.Some? ==> |data.value| < 0x10000)
  {
    match data
    case None => assert [] + rest == rest;
    case Some(d) =>
      var s := DataBytes(data) + rest;
      assert s[..2] == BE16(|d|);
      BE16RoundTrip(|d|);
      if |d| < 0x10000 {
        assert s[2..2 + |d|] == d && s[2 + |d|..] == rest;
      }
  }

  // A well-formed frame is taken off the stream exactly, and what follows it is
  // left, if and only if its data has a 16-bit length.
  lemma FrameReadsBack(c: Codec, f: Frame, rest: bytes)
    requires Lawful(c) && WellFormed(c, f)
    ensures Parse(c, Encode(c, f) + rest) == Parsed(f, rest)
            <==> (f.data.Some? ==> |f.data.value| < 0x10000)
  {
    hide ParseTarget, ParseData, TargetBytes, DataBytes, Header, BE16, FromBE16;
    NoTargetBytes(c);
    var t, d := TargetBytes(c, f.target), DataBytes(f.data);
    assert Encode(c, f) + rest == Header(SHORT_LENGTH + |t|, f.session, f.status, f.option) + (t + (d + rest)) by {
      Regroup(Header(SHORT_LENGTH + |t|, f.session, f.status, f.option), t, d, rest);
    }
    HeaderFields(SHORT_LENGTH + |t|, f.session, f.status, f.option, t + (d + rest));
    TargetReadsBack(c, f.target, d + rest);
    DataReadsBack(f.option, f.data, rest);
  }

  // A frame of 65536 bytes of data announces none: the data are taken for the
  // frames that follow.
  lemma LongFrameLosesAlignment(c: Codec, session: word, data: bytes, rest: bytes)
    requires |data| == 0x10000
    ensures
      var f := Frame(session, STATUS_KEEP, OPTION_DATA, None, Some(data));
      WellFormed(c, f) && Parse(c, Encode(c, f) + rest) == Parsed(f.(data := Some([])), data + rest)
  {
    hide Header, BE16, FromBE16;
    var f := Frame(session, STATUS_KEEP, OPTION_DATA, None, Some(data));
    var h, size := Header(SHORT_LENGTH, session, STATUS_KEEP, OPTION_DATA), BE16(|data|);
    BE16RoundTrip(|data|);
    var body := size + (data + rest);
    assert Encode(c, f) == h + ([] + (size + data)) == h + (size + data);
    assert Encode(c, f) + rest == h + body by {
      Regroup(h, size, data, rest);
    }
    HeaderFields(SHORT_LENGTH, session, STATUS_KEEP, OPTION_DATA, body);
    assert body[..2] == size && body[2..] == data + rest && body[2..2] == [];
  }

  lemma Join(a: bytes, b: bytes, c: bytes, d: bytes)
    ensures ((a + b) + c) + d == a + (b + (c + d))
  {
  }

  // What recv accepts: one of the four statuses, a New only with a target on
  // TCP or UDP, and data exactly with their bit.
  lemma OnlyTheseAreParsed(c: Codec, s: bytes)
    ensures
      var r := Parse(c, s);
      r.Parsed? ==>
        && 1 <= r.frame.status <= 4 && (r.frame.data.Some? <==> r.frame.option % 2 == 1)
        && (r.frame.status == 1 ==> r.frame.target.Some? && r.frame.target.value.network in {1, 2})
        && (r.frame.target.Some? <==> FromBE16(s[..2]) > 4)
  {
  }

  // And what it refuses: any other status, a New without such a target.
  lemma OthersAreRefused(c: Codec, s: bytes)
    requires |s| >= HEADER_SIZE
    ensures
      var target := ParseTarget(c, FromBE16(s[..2]), s[HEADER_SIZE..]);
      target.TargetParsed? ==>
        && (s[4] == 0 || s[4] > 4 ==> Parse(c, s) == Failed(BadStatus))
        && (s[4] == 1 && (target.target.None? || target.target.value.network !in {1, 2}) ==> Parse(c, s) == Failed(BadNetwork))
  {
  }
}
