// The padded block format of vless/vision.go and the cutting of vless/constant.go.
module VisionFormat {
  import opened Bytes

  const CONTINUE: byte := 0
  const END: byte := 1
  const DIRECT: byte := 2

  const BLOCK_HEADER_LENGTH := 5
  const BUFFER_LIMIT := 8192 - 21
  const APPLICATION_DATA: bytes := [0x17, 0x03, 0x03]

  // bytes.LastIndex
  function LastIndex(b: bytes, pattern: bytes): (r: int)
    ensures -1 <= r && (r >= 0 ==> r + |pattern| <= |b| && b[r..r + |pattern|] == pattern)
    decreases |b|
  {
    if |b| < |pattern| then -1
    else if b[|b| - |pattern|..] == pattern then |b| - |pattern|
    else if b == [] then -1
    else
      var r := LastIndex(b[..|b| - 1], pattern);
      assert r >= 0 ==> b[..|b| - 1][r..r + |pattern|] == b[r..r + |pattern|];
      r
  }

  function Int32(x: int): (r: int)
    ensures -0x8000_0000 <= r < 0x8000_0000
  {
    (x + 0x8000_0000) % 0x1_0000_0000 - 0x8000_0000
  }

  // Where reshapeBuffer cuts a buffer that is too long.
  function CutPoint(b: bytes): (r: nat)
    requires |b| >= BUFFER_LIMIT
    ensures 32 <= r <= BUFFER_LIMIT
  {
    var index := Int32(LastIndex(b, APPLICATION_DATA));
    if index < 32 || index > BUFFER_LIMIT then 8192 / 2 else index
  }

  function Reshape(b: bytes): seq<bytes>
    decreases |b|
  {
    if |b| < BUFFER_LIMIT then [b] else [b[..CutPoint(b)]] + Reshape(b[CutPoint(b)..])
  }

  method ReshapeBuffer(b: bytes) returns (buffers: seq<bytes>)
    ensures buffers == Reshape(b)
  {
    if |b| < BUFFER_LIMIT {
      return [b];
    }
    buffers := [];
    var rest := b;
    while |rest| >= BUFFER_LIMIT
      invariant Reshape(b) == buffers + Reshape(rest)
      decreases |rest|
    {
      var index := NextCut(rest);
      ReshapeStep(buffers, rest);
      buffers := buffers + [rest[..index]];
      rest := rest[index..];
    }
    buffers := buffers + [rest];
  }

  method NextCut(b: bytes) returns (index: nat)
    requires |b| >= BUFFER_LIMIT
    ensures index == CutPoint(b)
  {
    var i := Int32(LastIndex(b, APPLICATION_DATA));
    if i < 32 || i > BUFFER_LIMIT {
      i := 8192 / 2;
    }
    index := i;
  }

  lemma ReshapeStep(done: seq<bytes>, b: bytes)
    requires |b| >= BUFFER_LIMIT
    ensures done + Reshape(b) == (done + [b[..CutPoint(b)]]) + Reshape(b[CutPoint(b)..])
  {
    hide CutPoint;
  }

  predicate StartsAt(b: bytes, i: int) {
    0 <= i <= |b| - 3 && b[i..i + 3] == [0x17, 0x03, 0x03]
  }

  lemma LastIndexSteps(b: bytes)
    ensures var r := LastIndex(b, APPLICATION_DATA);
            if |b| < 3 then r == -1
            else if StartsAt(b, |b| - 3) then r == |b| - 3
            else r == LastIndex(b[..|b| - 1], APPLICATION_DATA)
  {
    assert |b| >= 3 ==> b[|b| - 3..] == b[|b| - 3..|b|];
  }

  lemma {:induction false} LastIndexIsLast(b: bytes)
    ensures var r := LastIndex(b, APPLICATION_DATA);
            (r >= 0 ==> StartsAt(b, r)) && forall i :: r < i ==> !StartsAt(b, i)
    decreases |b|
  {
    hide LastIndex;
    LastIndexSteps(b);
    if |b| >= 3 && !StartsAt(b, |b| - 3) {
      var init := b[..|b| - 1];
      LastIndexIsLast(init);
      forall i | 0 <= i <= |b| - 4 ensures StartsAt(b, i) <==> StartsAt(init, i) {
        assert b[i..i + 3] == init[i..i + 3];
      }
    }
  }

  // A long buffer is cut in front of the last start of a record, if that lies
  // between 32 and 8171, and else at 4096.
  lemma CutsAtLastStart(b: bytes, i: int)
    requires 8171 <= |b| < 0x8000_0000
    requires forall k :: i < k ==> !StartsAt(b, k)
    requires i == -1 || StartsAt(b, i)
    ensures Reshape(b) == var cut: nat := if 32 <= i <= 8171 then i else 4096; [b[..cut]] + Reshape(b[cut..])
  {
    hide LastIndex, Reshape, CutPoint;
    PointIsLastStart(b, i);
    ReshapeStep([], b);
    assert [] + Reshape(b) == Reshape(b);
    assert [] + [b[..CutPoint(b)]] == [b[..CutPoint(b)]];
  }

  lemma PointIsLastStart(b: bytes, i: int)
    requires 8171 <= |b| < 0x8000_0000
    requires forall k :: i < k ==> !StartsAt(b, k)
    requires i == -1 || StartsAt(b, i)
    ensures CutPoint(b) == if 32 <= i <= 8171 then i else 4096
  {
    hide LastIndex;
    LastIndexIsLast(b);
    assert LastIndex(b, APPLICATION_DATA) == i;
    SmallStays(i);
  }

  lemma SmallStays(x: int)
    requires -0x8000_0000 <= x < 0x8000_0000
    ensures Int32(x) == x
  {
  }

  // The pieces are the buffer, and each fits a block with a 16-bit length.
  lemma {:induction false} ReshapeKeepsBytes(b: bytes)
    ensures Flatten(Reshape(b)) == b && Reshape(b) != []
    ensures forall i :: 0 <= i < |Reshape(b)| ==> |Reshape(b)[i]| <= BUFFER_LIMIT
    decreases |b|
  {
    if |b| < BUFFER_LIMIT {
      assert Flatten([b]) == b + Flatten([]);
    } else {
      var rest := b[CutPoint(b)..];
      ReshapeKeepsBytes(rest);
      assert Reshape(b)[1..] == Reshape(rest);
      assert b == b[..CutPoint(b)] + rest;
    }
  }

  // One padded block.
  function Block(command: byte, content: bytes, padding: bytes): bytes {
    [command] + (BE16(|content|) + (BE16(|padding|) + (content + padding)))
  }

  // The unpadder between two bytes, once it has seen the id.
  datatype Unpadder = Unpadder(content: nat, padding: nat, command: byte, header: bytes) {
    predicate Valid() {
      |header| < BLOCK_HEADER_LENGTH && (!Idle() || command == END ==> header == [])
    }

    // Between two blocks.
    predicate Idle() {
      content == 0 && padding == 0
    }
  }

  const START: Unpadder := Unpadder(0, 0, CONTINUE, [])

  function Step(u: Unpadder, b: byte): (r: Unpadder)
    requires u.Valid()
    ensures r.Valid()
  {
    if u.content > 0 then u.(content := u.content - 1)
    else if u.padding > 0 then u.(padding := u.padding - 1)
    else if u.command == END then u
    else
      var header := u.header + [b];
      if |header| < BLOCK_HEADER_LENGTH then u.(header := header)
      else Unpadder(FromBE16(header[1..3]), FromBE16(header[3..5]), header[0], [])
  }

  function Output(u: Unpadder, b: byte): bytes {
    if u.content > 0 || (u.padding == 0 && u.command == END) then [b] else []
  }

  // Byte-at-a-time reference for unPadding.
  function After(u: Unpadder, s: bytes): (r: Unpadder)
    requires u.Valid()
    ensures r.Valid()
    decreases |s|
  {
    if s == [] then u else After(Step(u, s[0]), s[1..])
  }

  function Emit(u: Unpadder, s: bytes): bytes
    requires u.Valid()
    decreases |s|
  {
    if s == [] then [] else Output(u, s[0]) + Emit(Step(u, s[0]), s[1..])
  }

  // Nothing follows a direct block, and every command is known.
  predicate Proper(u: Unpadder, s: bytes)
    requires u.Valid()
    decreases |s|
  {
    && (u.Idle() && u.header == [] ==> u.command <= DIRECT)
    && (s == [] || (!(u.Idle() && u.command == DIRECT) && Proper(Step(u, s[0]), s[1..])))
  }

  lemma AtStart()
    ensures Proper(START, []) && After(START, []) == START && Emit(START, []) == []
  {
  }

  // However a stream is fragmented, the unpadder yields the same.
  lemma {:induction false} EmitAppend(u: Unpadder, s: bytes, t: bytes)
    requires u.Valid()
    ensures Emit(u, s + t) == Emit(u, s) + Emit(After(u, s), t)
    ensures After(u, s + t) == After(After(u, s), t)
    ensures Proper(u, s + t) ==> Proper(After(u, s), t)
    ensures Proper(u, s) && Proper(After(u, s), t) && (t != [] ==> !(After(u, s).Idle() && After(u, s).command == DIRECT))
            ==> Proper(u, s + t)
    decreases |s|
  {
    if s == [] {
      assert s + t == t;
    } else {
      assert (s + t)[1..] == s[1..] + t;
      EmitAppend(Step(u, s[0]), s[1..], t);
    }
  }

  lemma {:induction false} ContentPasses(u: Unpadder, s: bytes)
    requires u.Valid() && |s| <= u.content
    ensures Emit(u, s) == s && After(u, s) == u.(content := u.content - |s|)
    ensures |s| < u.content || u.padding > 0 || u.command <= DIRECT ==> Proper(u, s)
    decreases |s|
  {
    if s != [] {
      ContentPasses(Step(u, s[0]), s[1..]);
    }
  }

  lemma {:induction false} PaddingIsDropped(u: Unpadder, s: bytes)
    requires u.Valid() && u.content == 0 && |s| <= u.padding
    ensures Emit(u, s) == [] && After(u, s) == u.(padding := u.padding - |s|)
    ensures |s| < u.padding || u.command <= DIRECT ==> Proper(u, s)
    decreases |s|
  {
    if s != [] {
      PaddingIsDropped(Step(u, s[0]), s[1..]);
    }
  }

  lemma {:induction false} EndPassesAll(u: Unpadder, s: bytes)
    requires u.Valid() && u.Idle() && u.command == END
    ensures Emit(u, s) == s && After(u, s) == u && Proper(u, s)
    decreases |s|
  {
    if s != [] {
      EndPassesAll(u, s[1..]);
    }
  }

  // The state after header bytes s, which end at or before the fifth.
  function AfterHeader(u: Unpadder, s: bytes): Unpadder
    requires u.Valid() && |u.header| + |s| <= BLOCK_HEADER_LENGTH
  {
    var header := u.header + s;
    if |header| < BLOCK_HEADER_LENGTH then u.(header := header)
    else Unpadder(FromBE16(header[1..3]), FromBE16(header[3..5]), header[0], [])
  }

  lemma {:induction false} HeaderIsNoted(u: Unpadder, s: bytes)
    requires u.Valid() && u.Idle() && u.command != END && |u.header| + |s| <= BLOCK_HEADER_LENGTH
    ensures Emit(u, s) == [] && After(u, s) == AfterHeader(u, s)
    decreases |s|
  {
    if s == [] {
      assert u.header + s == u.header;
    } else {
      assert u.header + s == (u.header + [s[0]]) + s[1..];
      var v := Step(u, s[0]);
      if |u.header| + 1 == BLOCK_HEADER_LENGTH {
        assert s[1..] == [] && u.header + s == u.header + [s[0]];
      } else {
        assert v == u.(header := u.header + [s[0]]);
        HeaderIsNoted(v, s[1..]);
      }
    }
  }

  // A whole block between two blocks: its content comes out, its command stays.
  lemma BlockDecodes(u: Unpadder, command: byte, content: bytes, padding: bytes)
    requires u == Unpadder(0, 0, CONTINUE, []) && |content| < 0x10000 && |padding| < 0x10000
    ensures Emit(u, Block(command, content, padding)) == content
    ensures After(u, Block(command, content, padding)) == Unpadder(0, 0, command, [])
    ensures command <= DIRECT ==> Proper(u, Block(command, content, padding))
  {
    hide Emit, After, Proper;
    var header := [command] + (BE16(|content|) + BE16(|padding|));
    var begun := Unpadder(|content|, |padding|, command, []);
    HeaderOpens(u, command, |content|, |padding|);
    var drained := begun.(content := 0);
    ContentPasses(begun, content);
    PaddingIsDropped(drained, padding);
    var closed := drained.(padding := 0);
    EmitAppend(drained, padding, []);
    EmitAppend(begun, content, padding);
    EmitAppend(u, header, content + padding);
    if command <= DIRECT {
      Glue(begun, content, padding);
      Glue(u, header, content + padding);
    }
    assert Block(command, content, padding) == header + (content + padding);
  }

  // EmitAppend for two parts whose join lies inside a block.
  lemma Glue(u: Unpadder, s: bytes, t: bytes)
    requires u.Valid()
    requires Proper(u, s) && Proper(After(u, s), t)
    requires t != [] ==> !(After(u, s).Idle() && After(u, s).command == DIRECT)
    ensures Emit(u, s + t) == Emit(u, s) + Emit(After(u, s), t)
    ensures After(u, s + t) == After(After(u, s), t)
    ensures Proper(u, s + t)
  {
    EmitAppend(u, s, t);
  }

  lemma HeaderOpens(u: Unpadder, command: byte, content: nat, padding: nat)
    requires u == Unpadder(0, 0, CONTINUE, []) && content < 0x10000 && padding < 0x10000
    ensures
      var header := [command] + (BE16(content) + BE16(padding));
      && Emit(u, header) == []
      && After(u, header) == Unpadder(content, padding, command, [])
      && (command <= DIRECT ==> Proper(u, header))
  {
    var header := [command] + (BE16(content) + BE16(padding));
    HeaderIsNoted(u, header);
    BE16RoundTrip(content);
    BE16RoundTrip(padding);
    assert header[1..3] == BE16(content) && header[3..5] == BE16(padding);
    assert u.header + header == header;
    if command <= DIRECT {
      HeaderIsProper(u, header);
    }
  }

  lemma {:induction false} HeaderIsProper(u: Unpadder, s: bytes)
    requires u.Valid() && u.Idle() && u.command == CONTINUE && |u.header| + |s| <= BLOCK_HEADER_LENGTH
    requires s != [] && (if u.header == [] then s[0] else u.header[0]) <= DIRECT
    ensures Proper(u, s)
    decreases |s|
  {
    var v := Step(u, s[0]);
    if s[1..] == [] {
      assert Proper(v, []);
    } else {
      HeaderIsProper(v, s[1..]);
    }
  }
}
