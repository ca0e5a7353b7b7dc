// The 96-bit AEAD counter of vless/encryption/common.go.
module Nonce {
  import opened Bytes

  const NONCE_LENGTH := 12

  function Repeat(b: byte, n: nat): (r: bytes)
    ensures |r| == n
  {
    seq(n, _ => b)
  }

  const ZERO_NONCE: bytes := Repeat(0, NONCE_LENGTH)
  const MAX_NONCE: bytes := Repeat(255, NONCE_LENGTH)

  function Pow256(n: nat): (r: nat)
    ensures r > 0
  {
    if n == 0 then 1 else 256 * Pow256(n - 1)
  }

  // The big-endian value.
  function Value(nonce: bytes): (v: nat)
    ensures v < Pow256(|nonce|)
  {
    if nonce == [] then 0
    else
      var init := nonce[..|nonce| - 1];
      assert Value(init) + 1 <= Pow256(|init|);
      Value(init) * 256 + nonce[|nonce| - 1]
  }

  // Increment with carry, from the last byte.
  function Next(nonce: bytes): (r: bytes)
    ensures |r| == |nonce|
  {
    if nonce == [] then []
    else
      var init, last := nonce[..|nonce| - 1], nonce[|nonce| - 1];
      if last == 255 then Next(init) + [0] else init + [last + 1]
  }

  lemma {:induction false} NextAddsOne(nonce: bytes)
    ensures Value(Next(nonce)) == if Value(nonce) + 1 == Pow256(|nonce|) then 0 else Value(nonce) + 1
  {
    if nonce != [] {
      var init, last := nonce[..|nonce| - 1], nonce[|nonce| - 1];
      var r := Next(nonce);
      NextAddsOne(init);
      if last == 255 {
        assert r[..|r| - 1] == Next(init);
      } else {
        assert r[..|r| - 1] == init;
        assert Value(init) + 1 <= Pow256(|init|);
      }
    }
  }

  lemma {:induction false} ValueInjective(a: bytes, b: bytes)
    requires |a| == |b| && Value(a) == Value(b)
    ensures a == b
  {
    if a != [] {
      var i, j := a[..|a| - 1], b[..|b| - 1];
      ValueInjective(i, j);
      assert a == i + [a[|a| - 1]] && b == j + [b[|b| - 1]];
    }
  }

  lemma {:induction false} RepeatValue(n: nat)
    ensures Value(Repeat(0, n)) == 0
    ensures Value(Repeat(255, n)) == Pow256(n) - 1
  {
    if n > 0 {
      RepeatValue(n - 1);
      assert Repeat(0, n)[..n - 1] == Repeat(0, n - 1);
      assert Repeat(255, n)[..n - 1] == Repeat(255, n - 1);
    }
  }

  // increaseNonce: the counter in place, up to the byte that does not wrap.
  method IncreaseNonce(nonce: array<byte>)
    requires nonce.Length == NONCE_LENGTH
    modifies nonce
    ensures nonce[..] == Next(old(nonce[..]))
  {
    ghost var before := nonce[..];
    var i := 0;
    assert nonce[..NONCE_LENGTH] == before && nonce[NONCE_LENGTH..] == [];
    while i < NONCE_LENGTH
      invariant 0 <= i <= NONCE_LENGTH
      invariant nonce[..NONCE_LENGTH - i] == before[..NONCE_LENGTH - i]
      invariant Next(before) == Next(nonce[..NONCE_LENGTH - i]) + nonce[NONCE_LENGTH - i..]
    {
      var k := NONCE_LENGTH - 1 - i;
      ghost var head, tail := nonce[..k + 1], nonce[k + 1..];
      assert head[..k] == nonce[..k];
      nonce[k] := (nonce[k] as int + 1) % 256;
      assert nonce[k..] == [nonce[k]] + tail;
      if nonce[k] != 0 {
        assert nonce[..] == nonce[..k] + nonce[k..];
        return;
      }
      i := i + 1;
    }
    assert nonce[..] == nonce[0..];
  }
}
