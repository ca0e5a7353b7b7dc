// Hello padding of vless/encryption/common.go and the loops that send it.
module Padding {
  import opened Bytes
  import opened Net

  const MIN_PADDING_LENGTH := 35
  const MAX_TOTAL_PADDING := 65553
  const ENCRYPTED_LENGTH_SIZE := 18

  // A value strconv.Atoi can return for a part without a minus sign.
  type int63 = x: int | 0 <= x < 0x8000_0000_0000_0000

  // One "chance-from-to" parameter.
  datatype Segment = Segment(chance: int63, from: int63, to: int63)

  datatype Parsed = Invalid | Lists(lens: seq<Segment>, gaps: seq<Segment>)

  // Go's int: two's complement on 64 bits.
  function Int64(x: int): (r: int)
    ensures -0x8000_0000_0000_0000 <= r < 0x8000_0000_0000_0000
  {
    (x + 0x8000_0000_0000_0000) % 0x1_0000_0000_0000_0000 - 0x8000_0000_0000_0000
  }

  lemma Int64Exact(x: int)
    ensures Int64(x) == x <==> -0x8000_0000_0000_0000 <= x < 0x8000_0000_0000_0000
  {
  }

  lemma Int64Absorbs(x: int, y: int)
    ensures Int64(Int64(x) + y) == Int64(x + y)
  {
    var m, h := 0x1_0000_0000_0000_0000, 0x8000_0000_0000_0000;
    var q := (x + h) / m;
    assert Int64(x) == x - m * q;
    var p := (x + y + h) / m;
    assert Int64(x + y) == x + y - m * p;
    assert x - m * q + y + h == m * (p - q) + (x + y + h) % m;
    assert (x - m * q + y + h) % m == (x + y + h) % m;
  }

  function Evens(s: seq<Segment>): seq<Segment> {
    if s == [] then [] else if |s| % 2 == 1 then Evens(s[..|s| - 1]) + [s[|s| - 1]] else Evens(s[..|s| - 1])
  }

  function Odds(s: seq<Segment>): seq<Segment> {
    if s == [] then [] else if |s| % 2 == 0 then Odds(s[..|s| - 1]) + [s[|s| - 1]] else Odds(s[..|s| - 1])
  }

  // The exact sum of the larger bounds.
  function SumMax(s: seq<Segment>): nat {
    if s == [] then 0 else SumMax(s[..|s| - 1]) + Max(s[|s| - 1].from, s[|s| - 1].to)
  }

  predicate FirstAccepted(s: Segment) {
    s.chance >= 100 && s.from >= MIN_PADDING_LENGTH && s.to >= MIN_PADDING_LENGTH
  }

  // What parsePadding decides; its total is a wrapped 64-bit sum.
  function Parse(padding: seq<Segment>): Parsed {
    if padding == [] then Lists([], [])
    else if !FirstAccepted(padding[0]) || Int64(SumMax(Evens(padding))) > MAX_TOTAL_PADDING then Invalid
    else Lists(Evens(padding), Odds(padding))
  }

  // The parameters are lengths and gaps in turn.
  lemma {:induction false} ListsAlternate(s: seq<Segment>)
    ensures |Evens(s)| == (|s| + 1) / 2 && |Odds(s)| == |s| / 2
    ensures forall i :: 0 <= i < |Evens(s)| ==> Evens(s)[i] == s[2 * i]
    ensures forall i :: 0 <= i < |Odds(s)| ==> Odds(s)[i] == s[2 * i + 1]
  {
    hide Evens, Odds;
    OneMoreSegment(s);
    if s != [] {
      ListsAlternate(s[..|s| - 1]);
    }
  }

  lemma OneMoreSegment(s: seq<Segment>)
    ensures s == [] ==> Evens(s) == [] && Odds(s) == []
    ensures s != [] ==>
              var t := s[..|s| - 1];
              && Evens(s) == (if |s| % 2 == 1 then Evens(t) + [s[|s| - 1]] else Evens(t))
              && Odds(s) == (if |s| % 2 == 0 then Odds(t) + [s[|s| - 1]] else Odds(t))
  {
  }

  // A list is refused exactly if its first length may be left out or be below
  // 35, or if the larger bounds of its lengths add up, in 64 bits, to more than
  // 65553.
  lemma RefusedExactly(padding: seq<Segment>)
    ensures Parse(padding).Invalid?
            <==> padding != []
                 && (padding[0].chance < 100 || Min(padding[0].from, padding[0].to) < 35 || Int64(SumMax(Evens(padding))) > 65553)
  {
  }

  method ParsePadding(padding: seq<Segment>) returns (r: Parsed)
    ensures r == Parse(padding)
  {
    if |padding| == 0 {
      return Lists([], []);
    }
    hide Int64;
    Int64Exact(0);
    var lens, gaps: seq<Segment> := [], [];
    var maxLen := 0;
    var i := 0;
    while i < |padding|
      invariant 0 <= i <= |padding|
      invariant lens == Evens(padding[..i]) && gaps == Odds(padding[..i])
      invariant maxLen == Int64(SumMax(lens))
      invariant i > 0 ==> FirstAccepted(padding[0])
    {
      var values := padding[i];
      if i == 0 && (values.chance < 100 || values.from < MIN_PADDING_LENGTH || values.to < MIN_PADDING_LENGTH) {
        return Invalid;
      }
      assert padding[..i + 1][..i] == padding[..i];
      if i % 2 == 0 {
        Int64Absorbs(SumMax(lens), Max(values.from, values.to));
        assert (lens + [values])[..|lens|] == lens;
        lens := lens + [values];
        maxLen := Int64(maxLen + Max(values.from, values.to));
      } else {
        gaps := gaps + [values];
      }
      i := i + 1;
    }
    assert padding[..i] == padding;
    if maxLen > MAX_TOTAL_PADDING {
      return Invalid;
    }
    return Lists(lens, gaps);
  }

  // What randBetween can return.
  predicate Between(from: int, to: int, r: int) {
    if from == to then r == from else Min(from, to) <= r < Max(from, to)
  }

  method RandBetween(from: int, to: int) returns (r: int)
    ensures Between(from, to, r)
  {
    if from == to {
      return from;
    }
    var lo, hi := from, to;
    if hi < lo {
      lo, hi := hi, lo;
    }
    r :| lo <= r < hi;
  }

  // What one segment can contribute: nothing if its chance can fail.
  predicate Drawable(s: Segment, v: int) {
    (s.chance < 99 && v == 0) || Between(s.from, s.to, v)
  }

  predicate AllDrawable(lens: seq<Segment>, drawn: seq<int>) {
    |drawn| == |lens| && forall i :: 0 <= i < |lens| ==> Drawable(lens[i], drawn[i])
  }

  function Sum(s: seq<int>): int {
    if s == [] then 0 else Sum(s[..|s| - 1]) + s[|s| - 1]
  }

  const DEFAULT_LENS := [Segment(100, 111, 1111), Segment(50, 0, 3333)]
  const DEFAULT_GAPS := [Segment(75, 0, 111)]

  function EffectiveLens(lens: seq<Segment>): seq<Segment> {
    if lens == [] then DEFAULT_LENS else lens
  }

  function EffectiveGaps(lens: seq<Segment>, gaps: seq<Segment>): seq<Segment> {
    if lens == [] then DEFAULT_GAPS else gaps
  }

  method Draw(segments: seq<Segment>) returns (drawn: seq<int>, total: int)
    ensures AllDrawable(segments, drawn) && total == Int64(Sum(drawn))
  {
    hide Int64;
    Int64Exact(0);
    drawn, total := [], 0;
    var i := 0;
    while i < |segments|
      invariant 0 <= i <= |segments| && |drawn| == i
      invariant forall k :: 0 <= k < i ==> Drawable(segments[k], drawn[k])
      invariant total == Int64(Sum(drawn))
    {
      var y, v := segments[i], 0;
      var chance := RandBetween(0, 100);
      if y.chance >= chance {
        v := RandBetween(y.from, y.to);
      }
      Int64Absorbs(Sum(drawn), v);
      assert (drawn + [v])[..|drawn|] == drawn;
      drawn := drawn + [v];
      total := Int64(total + v);
      i := i + 1;
    }
  }

  // Lengths and gaps (in milliseconds) for one hello.
  method CreatePadding(paddingLens: seq<Segment>, paddingGaps: seq<Segment>) returns (length: int, lens: seq<int>, gaps: seq<int>)
    ensures AllDrawable(EffectiveLens(paddingLens), lens) && length == Int64(Sum(lens))
    ensures AllDrawable(EffectiveGaps(paddingLens, paddingGaps), gaps)
  {
    lens, length := Draw(EffectiveLens(paddingLens));
    var total;
    gaps, total := Draw(EffectiveGaps(paddingLens, paddingGaps));
  }

  // The largest value a segment can contribute.
  function Top(s: Segment): nat {
    if s.from == s.to then s.from else Max(s.from, s.to) - 1
  }

  function SumTop(s: seq<Segment>): nat {
    if s == [] then 0 else SumTop(s[..|s| - 1]) + Top(s[|s| - 1])
  }

  function Tops(s: seq<Segment>): (r: seq<int>)
    ensures |r| == |s| && forall i :: 0 <= i < |s| ==> r[i] == Top(s[i])
  {
    seq(|s|, i requires 0 <= i < |s| => Top(s[i]))
  }

  lemma {:induction false} SumTopReached(s: seq<Segment>)
    ensures AllDrawable(s, Tops(s)) && Sum(Tops(s)) == SumTop(s)
  {
    if s != [] {
      SumTopReached(s[..|s| - 1]);
      assert Tops(s)[..|s| - 1] == Tops(s[..|s| - 1]);
    }
  }

  lemma {:induction false} SumTopBounds(s: seq<Segment>, drawn: seq<int>)
    requires AllDrawable(s, drawn)
    ensures 0 <= Sum(drawn) <= SumTop(s) <= SumMax(s)
    ensures |s| > 0 ==> drawn[0] <= Sum(drawn)
  {
    if s != [] {
      SumTopBounds(s[..|s| - 1], drawn[..|drawn| - 1]);
      assert Drawable(s[|s| - 1], drawn[|s| - 1]);
    }
  }

  // The lists parsePadding can hand to createPadding.
  predicate Accepted(lens: seq<Segment>, gaps: seq<Segment>, padding: seq<Segment>) {
    Parse(padding) == Lists(lens, gaps)
  }

  lemma {:induction false} FirstIsEven(s: seq<Segment>)
    requires s != []
    ensures Evens(s) != [] && Evens(s)[0] == s[0]
  {
    if |s| > 1 {
      FirstIsEven(s[..|s| - 1]);
    } else {
      assert Evens(s) == Evens(s[..0]) + [s[0]];
    }
  }

  // What parsePadding sees to in any list it accepts.
  predicate Parsable(lens: seq<Segment>) {
    lens == [] || FirstAccepted(lens[0])
  }

  lemma AcceptedIsParsable(padding: seq<Segment>, lens: seq<Segment>, gaps: seq<Segment>)
    requires Accepted(lens, gaps, padding)
    ensures Parsable(lens)
  {
    if padding != [] {
      FirstIsEven(padding);
    }
  }

  // The promise: a total from 35 to 65553. It is kept for every draw exactly
  // when the attainable maximum respects the limit. The code compares a sum
  // that wraps around with the limit instead.
  lemma PaddingInRange(padding: seq<Segment>, lens: seq<Segment>, gaps: seq<Segment>)
    requires Accepted(lens, gaps, padding)
    ensures (forall drawn :: AllDrawable(EffectiveLens(lens), drawn) ==> MIN_PADDING_LENGTH <= Sum(drawn) <= MAX_TOTAL_PADDING)
            <==> SumTop(EffectiveLens(lens)) <= MAX_TOTAL_PADDING
  {
    var s := EffectiveLens(lens);
    AcceptedIsParsable(padding, lens, gaps);
    forall drawn | AllDrawable(s, drawn)
      ensures MIN_PADDING_LENGTH <= Sum(drawn) <= SumTop(s)
    {
      SumTopBounds(s, drawn);
      assert Drawable(s[0], drawn[0]);
    }
    SumTopReached(s);
  }

  // Unless the sum of the bounds overflows 64 bits, the check is enough.
  lemma NoOverflowSuffices(padding: seq<Segment>, lens: seq<Segment>, gaps: seq<Segment>)
    requires Accepted(lens, gaps, padding) && SumMax(lens) < 0x8000_0000_0000_0000
    ensures SumTop(EffectiveLens(lens)) <= MAX_TOTAL_PADDING
  {
    Int64Exact(SumMax(lens));
    var s := EffectiveLens(lens);
    SumTopReached(s);
    SumTopBounds(s, Tops(s));
    if lens == [] {
      assert DEFAULT_LENS[..1] == [Segment(100, 111, 1111)];
      assert SumTop(DEFAULT_LENS) == SumTop(DEFAULT_LENS[..1]) + 3332;
    }
  }

  // An accepted list whose draws exceed the limit by far; with one of them any
  // handshake panics.
  lemma OverflowIsAccepted(head: nat)
    ensures var huge := 0x7fff_ffff_ffff_ffff;
            var padding := [Segment(100, 35, huge), Segment(0, 0, 0), Segment(100, 0, huge)];
            var lens := [padding[0], padding[2]];
            && Accepted(lens, [padding[1]], padding)
            && SumTop(EffectiveLens(lens)) > MAX_TOTAL_PADDING
            && AllDrawable(EffectiveLens(lens), Tops(lens)) && !Sendable(head, Tops(lens))
  {
    var huge := 0x7fff_ffff_ffff_ffff;
    var padding := [Segment(100, 35, huge), Segment(0, 0, 0), Segment(100, 0, huge)];
    var lens := [padding[0], padding[2]];
    assert padding[..2] == [padding[0], padding[1]] && padding[..2][..1] == [padding[0]] && padding[..2][..1][..0] == [];
    assert Evens([padding[0]]) == [padding[0]];
    assert Odds([padding[0]]) == [];
    assert Evens(padding[..2]) == [padding[0]] && Odds(padding[..2]) == [padding[1]];
    assert lens[..1] == [padding[0]] && lens[..1][..0] == [];
    assert SumMax([padding[0]]) == huge;
    assert SumMax(lens) == 2 * huge;
    assert SumTop([padding[0]]) == huge - 1;
    assert SumTop(lens) == 2 * (huge - 1);
    SumTopReached(lens);
  }

  // With the total in range, the sum did not wrap, the encoded length is a
  // 16-bit number and every slice of the padding is valid.
  lemma PaddingFits(drawn: seq<int>)
    requires MIN_PADDING_LENGTH <= Sum(drawn) <= MAX_TOTAL_PADDING
    ensures var length := Int64(Sum(drawn));
            && length == Sum(drawn)
            && FromBE16(BE16(length - ENCRYPTED_LENGTH_SIZE)) == length - ENCRYPTED_LENGTH_SIZE
            && ENCRYPTED_LENGTH_SIZE <= length - 16 <= length
  {
    Int64Exact(Sum(drawn));
    BE16RoundTrip(Sum(drawn) - ENCRYPTED_LENGTH_SIZE);
  }

  const INT_RANGE := 0x8000_0000_0000_0000

  // A hello of head bytes and its padding: whether its buffer has a size at
  // all, and whether the fragments then fit it. Otherwise the handshake
  // panics, where it allocates the buffer or where it cuts it.
  predicate Allocated(head: nat, drawn: seq<int>) {
    0 <= Int64(Sum(drawn)) && head + Int64(Sum(drawn)) < INT_RANGE
  }

  predicate Sendable(head: nat, drawn: seq<int>) {
    head + Sum(drawn) < INT_RANGE
  }

  lemma DrawnFits(lens: seq<Segment>, drawn: seq<int>, head: nat)
    requires Parsable(lens) && AllDrawable(EffectiveLens(lens), drawn)
    ensures drawn != [] && MIN_PADDING_LENGTH <= Sum(drawn)
    ensures forall k :: 0 <= k < |drawn| ==> drawn[k] >= 0
    ensures Sendable(head, drawn) ==> Int64(Sum(drawn)) == Sum(drawn) && Allocated(head, drawn)
  {
    var s := EffectiveLens(lens);
    SumTopBounds(s, drawn);
    assert Drawable(s[0], drawn[0]);
    forall k | 0 <= k < |drawn| ensures drawn[k] >= 0 {
      assert Drawable(s[k], drawn[k]);
    }
    Int64Exact(Sum(drawn));
  }

  // Buffer and fragments are of one size exactly when the sum did not wrap
  // around.
  lemma SendableIsExact(head: nat, drawn: seq<int>)
    requires Allocated(head, drawn) && Sum(drawn) >= 0
    ensures Sendable(head, drawn) <==> head + Int64(Sum(drawn)) == head + Sum(drawn)
  {
    Int64Exact(Sum(drawn));
  }

  // A list that keeps the promised range never comes to that.
  lemma PromisedRangeIsSendable(lens: seq<Segment>, drawn: seq<int>, head: nat)
    requires SumTop(EffectiveLens(lens)) <= MAX_TOTAL_PADDING && AllDrawable(EffectiveLens(lens), drawn)
    requires head + MAX_TOTAL_PADDING < INT_RANGE
    ensures Sendable(head, drawn)
  {
    SumTopBounds(EffectiveLens(lens), drawn);
  }

  lemma {:induction false} SumUpdate(s: seq<int>, k: int)
    requires s != []
    ensures Sum(s[0 := s[0] + k]) == Sum(s) + k
  {
    var t := s[0 := s[0] + k];
    if |s| > 1 {
      SumUpdate(s[..|s| - 1], k);
      assert t[..|t| - 1] == s[..|s| - 1][0 := s[0] + k];
    } else {
      assert t[..0] == [] && s[..0] == [];
    }
  }

  lemma {:induction false} SumPrefix(s: seq<int>, i: nat)
    requires i <= |s| && forall k :: 0 <= k < |s| ==> s[k] >= 0
    ensures 0 <= Sum(s[..i]) <= Sum(s)
    decreases |s|
  {
    if i == |s| {
      assert s[..i] == s;
      if s != [] {
        SumPrefix(s[..|s| - 1], |s| - 1);
        assert s[..|s| - 1][..|s| - 1] == s[..|s| - 1];
      }
    } else {
      SumPrefix(s[..|s| - 1], i);
      assert s[..|s| - 1][..i] == s[..i];
    }
  }

  // Both hello loops: the first fragment also carries everything before the
  // padding, and the fragments are exactly the hello.
  method SendFragments(conn: Conn, hello: bytes, head: nat, paddingLens: seq<int>) returns (fragments: seq<bytes>)
    requires paddingLens != [] && forall k :: 0 <= k < |paddingLens| ==> paddingLens[k] >= 0
    requires |hello| == head + Sum(paddingLens)
    modifies conn`sent
    ensures conn.sent == old(conn.sent) + hello && Flatten(fragments) == hello
    ensures head > 0 ==> fragments != [] && |fragments[0]| == head + paddingLens[0]
  {
    hide Flatten, Sum;
    NothingSent();
    var lens := paddingLens[0 := paddingLens[0] + head];
    SumUpdate(paddingLens, head);
    fragments := [];
    var rest, i := hello, 0;
    assert lens[..0] == [] && [] + rest == hello && conn.sent + [] == conn.sent;
    while i < |lens|
      invariant 0 <= i <= |lens|
      invariant |rest| == Sum(lens) - Sum(lens[..i])
      invariant hello == Flatten(fragments) + rest
      invariant conn.sent == old(conn.sent) + Flatten(fragments)
      invariant i > 0 && lens[0] > 0 ==> fragments != [] && |fragments[0]| == lens[0]
      invariant i == 0 ==> fragments == []
    {
      SumNext(lens, i);
      if lens[i] > 0 {
        OneMoreFragment(fragments, rest, lens[i], old(conn.sent));
        conn.Write(rest[..lens[i]]);
        fragments := fragments + [rest[..lens[i]]];
        rest := rest[lens[i]..];
      }
      i := i + 1;
    }
    assert lens[..i] == lens;
    assert rest == [] && Flatten(fragments) + [] == Flatten(fragments);
  }

  lemma NothingSent()
    ensures Sum([]) == 0 && Flatten([]) == []
  {
  }

  lemma SumNext(s: seq<int>, i: nat)
    requires i < |s| && forall k :: 0 <= k < |s| ==> s[k] >= 0
    ensures Sum(s[..i + 1]) == Sum(s[..i]) + s[i] && Sum(s[..i + 1]) <= Sum(s)
  {
    assert s[..i + 1][..i] == s[..i];
    SumPrefix(s, i + 1);
  }

  lemma OneMoreFragment(fragments: seq<bytes>, rest: bytes, l: nat, sent: bytes)
    requires l <= |rest|
    ensures Flatten(fragments + [rest[..l]]) == Flatten(fragments) + rest[..l]
    ensures Flatten(fragments + [rest[..l]]) + rest[l..] == Flatten(fragments) + rest
    ensures (sent + Flatten(fragments)) + rest[..l] == sent + Flatten(fragments + [rest[..l]])
  {
    FlattenAppend(fragments, [rest[..l]]);
    assert Flatten([rest[..l]]) == rest[..l] + Flatten([]);
    assert rest == rest[..l] + rest[l..];
    Assoc(Flatten(fragments), rest[..l], rest[l..]);
    Assoc(sent, Flatten(fragments), rest[..l]);
  }
}
