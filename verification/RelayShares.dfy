// vless/encryption/service.go: which relays the server accepts at all.
module RelayShares {
  import opened Bytes
  import opened Crypto
  import opened Relay

  // A share and the secret that the server's key makes of it.
  datatype Share = Share(share: bytes, secret: bytes)

  // The server's key accepts the share: of 32 bytes with the highest bit clear
  // for X25519, of 1088 bytes for ML-KEM.
  predicate Accepts(x: Exchange, sk: SecretKey, o: Share) {
    && |o.share| == (if sk.kind == X25519 then 32 else 1088)
    && (sk.kind == X25519 ==> o.share[31] < 128)
    && x.accept(sk.kind, sk.key, o.share) == Some(o.secret)
  }

  predicate AcceptsAll(x: Exchange, sks: seq<SecretKey>, os: seq<Share>) {
    |os| == |sks| && forall i :: 0 <= i < |sks| ==> Accepts(x, sks[i], os[i])
  }

  // The relays that carry the shares: each masked, and behind each but the last
  // the next relay's hash, masked with the keystream of its secret.
  function Carrying(s: Setting, sks: seq<SecretKey>, os: seq<Share>, last: Option<Keystream>): bytes
    requires sks != [] && AcceptsAll(s.exchange, sks, os)
    decreases |sks|
  {
    var first := MaskByPrevious(last, MaskByKey(s, s.exchange.publicOf(sks[0].kind, sks[0].key), os[0].share));
    if |sks| == 1 then first
    else
      var ks := s.suite.keystream(os[0].secret, s.iv);
      first + (XorStream(ks, 0, s.exchange.hash(s.exchange.publicOf(sks[1].kind, sks[1].key))) + Carrying(s, sks[1..], os[1..], Some(ks)))
  }

  // Byte by byte: under the relay's public key unless the mode is native, and
  // in the first 32 bytes under what follows the hash in the previous stream.
  lemma ShareIsMasked(s: Setting, pk: bytes, last: Option<Keystream>, share: bytes, k: nat)
    requires k < |share| && |share| >= 32
    ensures MaskByPrevious(last, MaskByKey(s, pk, share))[k]
         == var b: byte := if s.masked then Xor(share[k], s.suite.keystream(pk, s.iv)(k)) else share[k];
            if last.Some? && k < 32 then Xor(b, last.value(32 + k)) else b
  {
  }

  // What is accepted from one relay on.
  ghost predicate Carried(s: Setting, sks: seq<SecretKey>, relays: bytes, last: Option<Keystream>, os: seq<Share>, rest: bytes)
    requires sks != []
  {
    AcceptsAll(s.exchange, sks, os) && relays == Carrying(s, sks, os, last) + rest
  }

  // The server accepts exactly the relays that carry shares its keys accept,
  // and comes out with the last one's secret.
  lemma UnwrapsExactly(s: Setting, sks: seq<SecretKey>, relays: bytes, nfsKey: bytes, rest: bytes)
    requires Agrees(s.exchange) && sks != [] && |relays| >= RelaysLength(Kinds(PublicKeys(s.exchange, sks)))
    ensures Unwrap(s, sks, relays, None) == Unwrapped.Unwrapped(nfsKey, rest)
            <==> exists os: seq<Share> :: Carried(s, sks, relays, None, os, rest) && os[|sks| - 1].secret == nfsKey
  {
    if Unwrap(s, sks, relays, None) == Unwrapped.Unwrapped(nfsKey, rest) {
      var os := UnwrappedIsCarried(s, sks, relays, None);
    }
    if os: seq<Share> :| Carried(s, sks, relays, None, os, rest) && os[|sks| - 1].secret == nfsKey {
      CarriedIsUnwrapped(s, sks, relays, None, os, rest);
    }
  }

  lemma RelaysSplit(x: Exchange, sks: seq<SecretKey>)
    requires sks != []
    ensures RelaysLength(Kinds(PublicKeys(x, sks)))
         == ShareLength(sks[0].kind) + if |sks| == 1 then 0 else HASH_LENGTH + RelaysLength(Kinds(PublicKeys(x, sks[1..])))
  {
    if |sks| > 1 {
      assert Kinds(PublicKeys(x, sks))[1..] == Kinds(PublicKeys(x, sks[1..]));
    }
  }

  // The first share as the server recovers it from the relays.
  function Recovered(s: Setting, sk: SecretKey, relays: bytes, last: Option<Keystream>): bytes
    requires |relays| >= ShareLength(sk.kind)
  {
    MaskByKey(s, s.exchange.publicOf(sk.kind, sk.key), MaskByPrevious(last, relays[..ShareLength(sk.kind)]))
  }

  lemma UnwrapSplits(s: Setting, sks: seq<SecretKey>, relays: bytes, last: Option<Keystream>) returns (secret: bytes)
    requires sks != [] && |relays| >= RelaysLength(Kinds(PublicKeys(s.exchange, sks)))
    requires Unwrap(s, sks, relays, last).Unwrapped?
    ensures |relays| >= ShareLength(sks[0].kind)
    ensures Accepts(s.exchange, sks[0], Share(Recovered(s, sks[0], relays, last), secret))
    ensures var behind, ks := relays[ShareLength(sks[0].kind)..], s.suite.keystream(secret, s.iv);
            if |sks| == 1 then Unwrap(s, sks, relays, last) == Unwrapped.Unwrapped(secret, behind)
            else
              && |behind| >= HASH_LENGTH
              && XorStream(ks, 0, behind[..HASH_LENGTH]) == s.exchange.hash(s.exchange.publicOf(sks[1].kind, sks[1].key))
              && |behind[HASH_LENGTH..]| >= RelaysLength(Kinds(PublicKeys(s.exchange, sks[1..])))
              && Unwrap(s, sks, relays, last) == Unwrap(s, sks[1..], behind[HASH_LENGTH..], Some(ks))
  {
    hide XorStream, MaskByKey, MaskByPrevious, RelaysLength, Kinds, PublicKeys;
    RelaysSplit(s.exchange, sks);
    secret := s.exchange.accept(sks[0].kind, sks[0].key, Recovered(s, sks[0], relays, last)).value;
  }

  lemma {:induction false} UnwrappedIsCarried(s: Setting, sks: seq<SecretKey>, relays: bytes, last: Option<Keystream>)
    returns (os: seq<Share>)
    requires Agrees(s.exchange) && sks != [] && |relays| >= RelaysLength(Kinds(PublicKeys(s.exchange, sks)))
    requires Unwrap(s, sks, relays, last).Unwrapped?
    ensures var u := Unwrap(s, sks, relays, last);
            Carried(s, sks, relays, last, os, u.rest) && os[|sks| - 1].secret == u.nfsKey
    decreases |sks|
  {
    hide XorStream, MaskByKey, MaskByPrevious, Agrees, RelaysLength, Kinds, PublicKeys, Carrying, Unwrap;
    var secret := UnwrapSplits(s, sks, relays, last);
    var index, share := ShareLength(sks[0].kind), Recovered(s, sks[0], relays, last);
    MasksRedo(s, s.exchange.publicOf(sks[0].kind, sks[0].key), last, relays[..index]);
    hide Accepts;
    if |sks| == 1 {
      os := [Share(share, secret)];
      CarryingSplits(s, sks, os, last);
    } else {
      var ks, behind := s.suite.keystream(secret, s.iv), relays[index..];
      var more := UnwrappedIsCarried(s, sks[1..], behind[HASH_LENGTH..], Some(ks));
      os := [Share(share, secret)] + more;
      assert os[1..] == more;
      CarryingSplits(s, sks, os, last);
      XorStreamInvolution(ks, 0, behind[..HASH_LENGTH]);
      Regroup(relays[..index], behind[..HASH_LENGTH], Carrying(s, sks[1..], more, Some(ks)), Unwrap(s, sks, relays, last).rest);
    }
  }

  lemma CarryingSplits(s: Setting, sks: seq<SecretKey>, os: seq<Share>, last: Option<Keystream>)
    requires sks != [] && AcceptsAll(s.exchange, sks, os)
    ensures var first := MaskByPrevious(last, MaskByKey(s, s.exchange.publicOf(sks[0].kind, sks[0].key), os[0].share));
            var ks := s.suite.keystream(os[0].secret, s.iv);
            Carrying(s, sks, os, last)
            == if |sks| == 1 then first
               else first + (XorStream(ks, 0, s.exchange.hash(s.exchange.publicOf(sks[1].kind, sks[1].key)))
                             + Carrying(s, sks[1..], os[1..], Some(ks)))
  {
  }

  lemma {:induction false} CarriedIsUnwrapped(s: Setting, sks: seq<SecretKey>, relays: bytes, last: Option<Keystream>, os: seq<Share>,
                                              rest: bytes)
    requires Agrees(s.exchange) && sks != [] && |relays| >= RelaysLength(Kinds(PublicKeys(s.exchange, sks)))
    requires Carried(s, sks, relays, last, os, rest)
    ensures Unwrap(s, sks, relays, last) == Unwrapped.Unwrapped(os[|sks| - 1].secret, rest)
    decreases |sks|
  {
    hide XorStream, MaskByKey, MaskByPrevious, RelaysLength, Kinds, PublicKeys, Carrying;
    RelaysSplit(s.exchange, sks);
    CarryingSplits(s, sks, os, last);
    var index, pk := ShareLength(sks[0].kind), s.exchange.publicOf(sks[0].kind, sks[0].key);
    var first := MaskByPrevious(last, MaskByKey(s, pk, os[0].share));
    MasksUndo(s, pk, last, os[0].share);
    if |sks| == 1 {
      assert relays[..index] == first && relays[index..] == rest;
    } else {
      var ks := s.suite.keystream(os[0].secret, s.iv);
      var hash := s.exchange.hash(s.exchange.publicOf(sks[1].kind, sks[1].key));
      var masked, carrying := XorStream(ks, 0, hash), Carrying(s, sks[1..], os[1..], Some(ks));
      hide Agrees;
      XorStreamInvolution(ks, 0, hash);
      Regroup(first, masked, carrying, rest);
      assert relays[..index] == first && relays[index..] == masked + (carrying + rest);
      assert relays[index..][..HASH_LENGTH] == masked && relays[index..][HASH_LENGTH..] == carrying + rest;
      CarriedIsUnwrapped(s, sks[1..], carrying + rest, Some(ks), os[1..], rest);
    }
  }

  lemma MasksRedo(s: Setting, pk: bytes, last: Option<Keystream>, x: bytes)
    requires |x| >= HASH_LENGTH
    ensures var share := MaskByKey(s, pk, MaskByPrevious(last, x));
            |share| == |x| && MaskByPrevious(last, MaskByKey(s, pk, share)) == x
  {
    var w := MaskByPrevious(last, x);
    XorStreamInvolution(s.suite.keystream(pk, s.iv), 0, w);
    assert MaskByKey(s, pk, MaskByKey(s, pk, w)) == w;
    if last.Some? {
      XorStreamInvolution(last.value, HASH_LENGTH, x[..HASH_LENGTH]);
      assert w[..HASH_LENGTH] == XorStream(last.value, HASH_LENGTH, x[..HASH_LENGTH]) && w[HASH_LENGTH..] == x[HASH_LENGTH..];
    }
  }
}
