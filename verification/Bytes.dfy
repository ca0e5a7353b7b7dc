// Bytes, big-endian 16-bit words and keystream XOR.
module Bytes {
  type byte = x: int | 0 <= x < 256
  type word = x: int | 0 <= x < 0x10000
  type bytes = seq<byte>
  type Keystream = nat -> byte

  datatype Option<+T> = None | Some(value: T)

  function Min(a: int, b: int): int { if a < b then a else b }

  function Max(a: int, b: int): int { if a < b then b else a }

  // PutUint16(uint16(x)): the conversion to uint16 drops the high bits.
  function BE16(x: int): (r: bytes)
    ensures |r| == 2
  {
    [x / 256 % 256, x % 256]
  }

  function FromBE16(b: bytes): word
    requires |b| >= 2
  {
    (b[0] as int) * 256 + b[1]
  }

  lemma BE16RoundTrip(x: int)
    ensures FromBE16(BE16(x)) == x % 0x10000
  {
    var q, y := x / 0x10000, x % 0x10000;
    assert x == 256 * (256 * q + y / 256) + y % 256;
    assert x / 256 == 256 * q + y / 256;
    assert x % 256 == y % 256;
    assert (256 * q + y / 256) % 256 == y / 256;
  }

  function Pow2(n: nat): (r: nat)
    ensures r > 0
  {
    if n == 0 then 1 else 2 * Pow2(n - 1)
  }

  // Exclusive or of the n lowest bits.
  function XorBits(a: nat, b: nat, n: nat): (r: nat)
    ensures r < Pow2(n)
  {
    if n == 0 then 0
    else (if a % 2 == b % 2 then 0 else 1) + 2 * XorBits(a / 2, b / 2, n - 1)
  }

  lemma {:induction false} XorBitsInvolution(a: nat, b: nat, n: nat)
    requires a < Pow2(n)
    ensures XorBits(XorBits(a, b, n), b, n) == a
  {
    if n > 0 {
      var r := XorBits(a, b, n);
      assert r / 2 == XorBits(a / 2, b / 2, n - 1);
      XorBitsInvolution(a / 2, b / 2, n - 1);
    }
  }

  // The k-th lowest bit.
  function BitOf(a: nat, k: nat): nat {
    if k == 0 then a % 2 else BitOf(a / 2, k - 1)
  }

  // Bit by bit: set where the two differ.
  lemma {:induction false} XorBitsDiffer(a: nat, b: nat, n: nat, k: nat)
    requires k < n
    ensures BitOf(XorBits(a, b, n), k) == if BitOf(a, k) == BitOf(b, k) then 0 else 1
    decreases n
  {
    if k > 0 {
      assert XorBits(a, b, n) / 2 == XorBits(a / 2, b / 2, n - 1);
      XorBitsDiffer(a / 2, b / 2, n - 1, k - 1);
    }
  }

  function Xor(a: byte, b: byte): byte {
    assert Pow2(8) == 256 by { assert Pow2(4) == 16; }
    XorBits(a, b, 8)
  }

  lemma XorInvolution(a: byte, b: byte)
    ensures Xor(Xor(a, b), b) == a
  {
    assert Pow2(8) == 256 by { assert Pow2(4) == 16; }
    XorBitsInvolution(a, b, 8);
  }

  // What XORKeyStream does to s when the stream stands at position pos.
  function XorStream(ks: Keystream, pos: nat, s: bytes): (r: bytes)
    ensures |r| == |s|
    ensures forall i :: 0 <= i < |s| ==> r[i] == Xor(s[i], ks(pos + i))
  {
    seq(|s|, i requires 0 <= i < |s| => Xor(s[i], ks(pos + i)))
  }

  lemma XorStreamSplit(ks: Keystream, pos: nat, s: bytes, t: bytes)
    ensures XorStream(ks, pos, s + t) == XorStream(ks, pos, s) + XorStream(ks, pos + |s|, t)
  {
  }

  lemma XorStreamInvolution(ks: Keystream, pos: nat, s: bytes)
    ensures XorStream(ks, pos, XorStream(ks, pos, s)) == s
  {
    forall i | 0 <= i < |s| ensures Xor(Xor(s[i], ks(pos + i)), ks(pos + i)) == s[i] {
      XorInvolution(s[i], ks(pos + i));
    }
  }

  function Flatten(xs: seq<bytes>): bytes {
    if xs == [] then [] else xs[0] + Flatten(xs[1..])
  }

  lemma {:induction false} FlattenAppend(xs: seq<bytes>, ys: seq<bytes>)
    ensures Flatten(xs + ys) == Flatten(xs) + Flatten(ys)
  {
    if xs == [] {
      assert xs + ys == ys;
    } else {
      assert (xs + ys)[1..] == xs[1..] + ys;
      FlattenAppend(xs[1..], ys);
    }
  }

  lemma FlattenOne(x: bytes)
    ensures Flatten([]) == [] && Flatten([x]) == x
  {
    assert Flatten([x]) == x + Flatten([]);
  }

  // Slices of a buffer before and after a change elsewhere.
  lemma SameSlice(s: bytes, t: bytes, lo: nat, hi: nat)
    requires lo <= hi <= |s| == |t|
    requires forall k :: lo <= k < hi ==> s[k] == t[k]
    ensures s[lo..hi] == t[lo..hi]
  {
  }

  lemma Cut(s: bytes, p: nat, q: nat, r: nat)
    requires p <= q <= r <= |s|
    ensures s[p..r] == s[p..q] + s[q..r]
    ensures s[p..r][..q - p] == s[p..q] && s[p..r][q - p..] == s[q..r]
  {
  }

  lemma CutTail(s: bytes, p: nat, q: nat)
    requires p <= q <= |s|
    ensures s[p..] == s[p..q] + s[q..]
    ensures s[p..][..q - p] == s[p..q] && s[p..][q - p..] == s[q..]
  {
  }

  lemma SameTail(s: bytes, t: bytes, lo: nat)
    requires lo <= |s| == |t|
    requires forall k :: lo <= k < |s| ==> s[k] == t[k]
    ensures s[lo..] == t[lo..]
  {
  }

  lemma Assoc(a: bytes, b: bytes, c: bytes)
    ensures (a + b) + c == a + (b + c)
  {
  }

  lemma Regroup(a: bytes, b: bytes, c: bytes, d: bytes)
    ensures (a + (b + c)) + d == a + (b + (c + d))
  {
  }
}
