// The relay chain of the handshake hello: vless/encryption/client.go wraps
// one key share per relay key, service.go unwraps them in place.
module Relay {
  import opened Bytes
  import opened Crypto
  import opened Net
  import opened XorConn

  const HASH_LENGTH := 32

  datatype Kind = X25519 | MLKEM

  function ShareLength(kind: Kind): (n: nat)
    ensures n >= HASH_LENGTH
  {
    match kind
    case X25519 => 32
    case MLKEM => 1088
  }

  function PublicLength(kind: Kind): nat {
    match kind
    case X25519 => 32
    case MLKEM => 1184
  }

  // Key exchange and hashing. admits tells the public keys an exchange does
  // not refuse; offer is what one side makes of such a key and fresh
  // randomness: the share it sends and the secret it keeps.
  datatype Exchange = Exchange(
    publicOf: (Kind, bytes) -> bytes,
    admits: (Kind, bytes) -> bool,
    offer: (Kind, bytes, bytes) -> (bytes, bytes),
    accept: (Kind, bytes, bytes) -> Option<bytes>,
    hash: bytes -> bytes)

  ghost predicate Agrees(x: Exchange) {
    && (forall kind: Kind, pk: bytes, random: bytes :: x.admits(kind, pk) ==>
          |x.offer(kind, pk, random).0| == ShareLength(kind) && (kind == X25519 ==> x.offer(kind, pk, random).0[31] <= 127))
    && (forall kind: Kind, sk: bytes :: x.admits(kind, x.publicOf(kind, sk)))
    && (forall kind: Kind, sk: bytes, random: bytes ::
          var offered := x.offer(kind, x.publicOf(kind, sk), random);
          x.accept(kind, sk, offered.0) == Some(offered.1))
    && (forall b: bytes :: |x.hash(b)| == HASH_LENGTH)
    && (forall kind: Kind, sk: bytes :: |x.publicOf(kind, sk)| == PublicLength(kind))
  }

  // The laws are consistent.
  function EchoExchange(): Exchange {
    Exchange((kind, sk) => seq(PublicLength(kind), _ => 0),
             (kind, pk: bytes) => |pk| == PublicLength(kind),
             (kind, pk, random) => (seq(ShareLength(kind), _ => 0), []),
             (kind, sk, share) => Some([]),
             b => seq(HASH_LENGTH, _ => 0))
  }

  lemma EchoExchangeAgrees()
    ensures Agrees(EchoExchange())
  {
  }

  datatype PublicKey = PublicKey(kind: Kind, key: bytes)
  datatype SecretKey = SecretKey(kind: Kind, key: bytes)

  // Shared by the two functions: the suite, the exchange, the IV, and whether
  // the XOR mode masks the shares with the relays' public keys.
  datatype Setting = Setting(suite: Suite, exchange: Exchange, iv: bytes, masked: bool)

  function PublicKeys(x: Exchange, sks: seq<SecretKey>): (r: seq<PublicKey>)
    ensures |r| == |sks|
    ensures forall i :: 0 <= i < |sks| ==> r[i] == PublicKey(sks[i].kind, x.publicOf(sks[i].kind, sks[i].key))
  {
    seq(|sks|, i requires 0 <= i < |sks| => PublicKey(sks[i].kind, x.publicOf(sks[i].kind, sks[i].key)))
  }

  predicate Admitted(x: Exchange, pks: seq<PublicKey>) {
    forall i :: 0 <= i < |pks| ==> x.admits(pks[i].kind, pks[i].key)
  }

  lemma OwnKeysAreAdmitted(x: Exchange, sks: seq<SecretKey>)
    requires Agrees(x)
    ensures Admitted(x, PublicKeys(x, sks))
  {
  }

  // relaysLength as NewClient and NewService compute it.
  function RelaysLength(kinds: seq<Kind>): nat
    requires kinds != []
  {
    if |kinds| == 1 then ShareLength(kinds[0]) else ShareLength(kinds[0]) + HASH_LENGTH + RelaysLength(kinds[1..])
  }

  function Kinds(pks: seq<PublicKey>): (r: seq<Kind>)
    ensures |r| == |pks|
  {
    seq(|pks|, i requires 0 <= i < |pks| => pks[i].kind)
  }

  // Masking of one share: by the relay's public key, then by what is left of
  // the previous relay's keystream, whose first 32 bytes covered the hash.
  function MaskByKey(s: Setting, pk: bytes, share: bytes): (r: bytes)
    ensures |r| == |share|
  {
    if s.masked then XorStream(s.suite.keystream(pk, s.iv), 0, share) else share
  }

  function MaskByPrevious(last: Option<Keystream>, share: bytes): (r: bytes)
    requires |share| >= HASH_LENGTH
    ensures |r| == |share|
  {
    match last
    case None => share
    case Some(ks) => XorStream(ks, HASH_LENGTH, share[..HASH_LENGTH]) + share[HASH_LENGTH..]
  }

  // What the client puts into the hello for the keys pks.
  function Wrap(s: Setting, pks: seq<PublicKey>, randoms: seq<bytes>, last: Option<Keystream>): bytes
    requires Agrees(s.exchange) && Admitted(s.exchange, pks) && pks != [] && |randoms| == |pks|
    decreases |pks|
  {
    var (share, secret) := s.exchange.offer(pks[0].kind, pks[0].key, randoms[0]);
    var first := MaskByPrevious(last, MaskByKey(s, pks[0].key, share));
    if |pks| == 1 then first
    else
      var ks := s.suite.keystream(secret, s.iv);
      first + XorStream(ks, 0, s.exchange.hash(pks[1].key)) + Wrap(s, pks[1..], randoms[1..], Some(ks))
  }

  // The secret the hello ends with.
  function FinalKey(s: Setting, pks: seq<PublicKey>, randoms: seq<bytes>): bytes
    requires pks != [] && |randoms| == |pks|
    decreases |pks|
  {
    if |pks| == 1 then s.exchange.offer(pks[0].kind, pks[0].key, randoms[0]).1
    else FinalKey(s, pks[1..], randoms[1..])
  }

  datatype Unwrapped = HighBitSet | NoSecret | BadHash | Unwrapped(nfsKey: bytes, rest: bytes)

  // What the server makes of relays with its keys.
  function Unwrap(s: Setting, sks: seq<SecretKey>, relays: bytes, last: Option<Keystream>): Unwrapped
    requires sks != [] && |relays| >= RelaysLength(Kinds(PublicKeys(s.exchange, sks)))
    decreases |sks|, 1
  {
    var index := ShareLength(sks[0].kind);
    var pk := s.exchange.publicOf(sks[0].kind, sks[0].key);
    Judge(s, sks, MaskByKey(s, pk, MaskByPrevious(last, relays[..index])), relays[index..])
  }

  // Its verdict on the recovered share of sks[0], rest being what follows it.
  function Judge(s: Setting, sks: seq<SecretKey>, share: bytes, rest: bytes): Unwrapped
    requires sks != [] && |share| == ShareLength(sks[0].kind)
    requires |share| + |rest| >= RelaysLength(Kinds(PublicKeys(s.exchange, sks)))
    decreases |sks|, 0
  {
    assert |sks| > 1 ==> Kinds(PublicKeys(s.exchange, sks))[1..] == Kinds(PublicKeys(s.exchange, sks[1..]));
    if sks[0].kind == X25519 && share[31] > 127 then HighBitSet
    else
      match s.exchange.accept(sks[0].kind, sks[0].key, share)
      case None => NoSecret
      case Some(secret) =>
        if |sks| == 1 then Unwrapped.Unwrapped(secret, rest)
        else
          var ks := s.suite.keystream(secret, s.iv);
          var expected := s.exchange.hash(s.exchange.publicOf(sks[1].kind, sks[1].key));
          if XorStream(ks, 0, rest[..HASH_LENGTH]) != expected then BadHash
          else Unwrap(s, sks[1..], rest[HASH_LENGTH..], Some(ks))
  }

  lemma {:induction false} WrapLength(s: Setting, pks: seq<PublicKey>, randoms: seq<bytes>, last: Option<Keystream>)
    requires Agrees(s.exchange) && Admitted(s.exchange, pks) && pks != [] && |randoms| == |pks|
    ensures |Wrap(s, pks, randoms, last)| == RelaysLength(Kinds(pks))
    decreases |pks|
  {
    if |pks| > 1 {
      assert Kinds(pks)[1..] == Kinds(pks[1..]);
      var (share, secret) := s.exchange.offer(pks[0].kind, pks[0].key, randoms[0]);
      WrapLength(s, pks[1..], randoms[1..], Some(s.suite.keystream(secret, s.iv)));
    }
  }

  lemma MasksUndo(s: Setting, pk: bytes, last: Option<Keystream>, share: bytes)
    requires |share| >= HASH_LENGTH
    ensures MaskByKey(s, pk, MaskByPrevious(last, MaskByPrevious(last, MaskByKey(s, pk, share)))) == share
  {
    var m := MaskByKey(s, pk, share);
    if last.Some? {
      XorStreamInvolution(last.value, HASH_LENGTH, m[..HASH_LENGTH]);
      var w := MaskByPrevious(last, m);
      assert w[..HASH_LENGTH] == XorStream(last.value, HASH_LENGTH, m[..HASH_LENGTH]) && w[HASH_LENGTH..] == m[HASH_LENGTH..];
      assert MaskByPrevious(last, w) == m;
    }
    XorStreamInvolution(s.suite.keystream(pk, s.iv), 0, share);
  }

  // The server gets past one honestly wrapped relay.
  lemma UnwrapsOne(s: Setting, sks: seq<SecretKey>, random: bytes, last: Option<Keystream>, later: bytes)
    requires Agrees(s.exchange) && |sks| > 1 && |later| >= RelaysLength(Kinds(PublicKeys(s.exchange, sks[1..])))
    ensures var pks := PublicKeys(s.exchange, sks);
            var offered := s.exchange.offer(pks[0].kind, pks[0].key, random);
            var first := MaskByPrevious(last, MaskByKey(s, pks[0].key, offered.0));
            var ks := s.suite.keystream(offered.1, s.iv);
            var relays := first + (XorStream(ks, 0, s.exchange.hash(pks[1].key)) + later);
            && |relays| >= RelaysLength(Kinds(pks))
            && Unwrap(s, sks, relays, last) == Unwrap(s, sks[1..], later, Some(ks))
  {
    var pks := PublicKeys(s.exchange, sks);
    assert Kinds(pks)[1..] == Kinds(PublicKeys(s.exchange, sks[1..]));
    var (share, secret) := s.exchange.offer(pks[0].kind, pks[0].key, random);
    var index := ShareLength(pks[0].kind);
    var first := MaskByPrevious(last, MaskByKey(s, pks[0].key, share));
    var ks, hash := s.suite.keystream(secret, s.iv), s.exchange.hash(pks[1].key);
    var masked := XorStream(ks, 0, hash);
    var relays := first + (masked + later);
    assert relays[..index] == first && relays[index..] == masked + later;
    assert (masked + later)[..HASH_LENGTH] == masked && (masked + later)[HASH_LENGTH..] == later;
    MasksUndo(s, pks[0].key, last, share);
    XorStreamInvolution(ks, 0, hash);
  }

  // The wrapped first share of a hello.
  function FirstShare(s: Setting, pks: seq<PublicKey>, randoms: seq<bytes>, last: Option<Keystream>): bytes
    requires Agrees(s.exchange) && pks != [] && |randoms| == |pks| && s.exchange.admits(pks[0].kind, pks[0].key)
  {
    MaskByPrevious(last, MaskByKey(s, pks[0].key, s.exchange.offer(pks[0].kind, pks[0].key, randoms[0]).0))
  }

  // The keystream that the first relay's secret leaves for the next one.
  function NextStream(s: Setting, pks: seq<PublicKey>, randoms: seq<bytes>): Keystream
    requires pks != [] && |randoms| == |pks|
  {
    s.suite.keystream(s.exchange.offer(pks[0].kind, pks[0].key, randoms[0]).1, s.iv)
  }

  lemma WrapSplits(s: Setting, pks: seq<PublicKey>, randoms: seq<bytes>, last: Option<Keystream>)
    requires Agrees(s.exchange) && Admitted(s.exchange, pks) && |pks| > 1 && |randoms| == |pks|
    ensures var ks := NextStream(s, pks, randoms);
            Wrap(s, pks, randoms, last)
            == FirstShare(s, pks, randoms, last)
               + (XorStream(ks, 0, s.exchange.hash(pks[1].key)) + Wrap(s, pks[1..], randoms[1..], Some(ks)))
    ensures FinalKey(s, pks, randoms) == FinalKey(s, pks[1..], randoms[1..])
  {
    var ks := NextStream(s, pks, randoms);
    var a, b, c := FirstShare(s, pks, randoms, last), XorStream(ks, 0, s.exchange.hash(pks[1].key)), Wrap(s, pks[1..], randoms[1..], Some(ks));
    assert (a + b) + c == a + (b + c);
  }

  // For any number of relays of either kind, in any XOR mode, the server ends
  // with the client's last secret and has used exactly the relays' bytes.
  lemma {:induction false} UnwrapsWhatWasWrapped(s: Setting, sks: seq<SecretKey>, randoms: seq<bytes>, last: Option<Keystream>, tail: bytes)
    requires Agrees(s.exchange) && sks != [] && |randoms| == |sks|
    ensures Admitted(s.exchange, PublicKeys(s.exchange, sks))
    ensures var pks := PublicKeys(s.exchange, sks);
            var relays := Wrap(s, pks, randoms, last);
            && |relays| == RelaysLength(Kinds(pks))
            && Unwrap(s, sks, relays + tail, last) == Unwrapped.Unwrapped(FinalKey(s, pks, randoms), tail)
    decreases |sks|
  {
    OwnKeysAreAdmitted(s.exchange, sks);
    var pks := PublicKeys(s.exchange, sks);
    var relays := Wrap(s, pks, randoms, last);
    WrapLength(s, pks, randoms, last);
    if |sks| == 1 {
      var (share, secret) := s.exchange.offer(pks[0].kind, pks[0].key, randoms[0]);
      MasksUndo(s, pks[0].key, last, share);
      assert (relays + tail)[..ShareLength(pks[0].kind)] == relays;
      assert (relays + tail)[ShareLength(pks[0].kind)..] == tail;
    } else {
      hide Unwrap, Wrap, FinalKey, XorStream, MaskByKey, MaskByPrevious, Kinds, RelaysLength, Agrees;
      var ks := NextStream(s, pks, randoms);
      assert PublicKeys(s.exchange, sks[1..]) == pks[1..];
      WrapSplits(s, pks, randoms, last);
      WrapLength(s, pks[1..], randoms[1..], Some(ks));
      var first, masked := FirstShare(s, pks, randoms, last), XorStream(ks, 0, s.exchange.hash(pks[1].key));
      var wrapped := Wrap(s, pks[1..], randoms[1..], Some(ks));
      Regroup(first, masked, wrapped, tail);
      UnwrapsOne(s, sks, randoms[0], last, wrapped + tail);
      UnwrapsWhatWasWrapped(s, sks[1..], randoms[1..], Some(ks), tail);
    }
  }

  // lastCTR.XORKeyStream over the first 32 bytes of relays[at..end].
  method MaskHead(lastCTR: CTR?, relays: array<byte>, at: nat, end: nat)
    requires at + HASH_LENGTH <= end <= relays.Length
    requires lastCTR != null ==> lastCTR.pos == HASH_LENGTH
    modifies relays, lastCTR
    ensures relays[at..end] == MaskByPrevious(if lastCTR == null then None else Some(lastCTR.stream), old(relays[at..end]))
    ensures forall k :: 0 <= k < at || end <= k < relays.Length ==> relays[k] == old(relays[k])
  {
    if lastCTR != null {
      hide XorStream;
      var mid := at + HASH_LENGTH;
      ghost var before := relays[..];
      Cut(before, at, mid, end);
      lastCTR.XORKeyStream(relays, at, mid);
      SameSlice(before, relays[..], mid, end);
      Cut(relays[..], at, mid, end);
    }
  }

  // NewCTR(pk, iv).XORKeyStream over relays[at..end], unless the mode is native.
  method MaskWhole(s: Setting, pk: bytes, relays: array<byte>, at: nat, end: nat)
    requires at <= end <= relays.Length
    modifies relays
    ensures relays[at..end] == MaskByKey(s, pk, old(relays[at..end]))
    ensures forall k :: 0 <= k < at || end <= k < relays.Length ==> relays[k] == old(relays[k])
  {
    if s.masked {
      var ctr := new CTR(s.suite.keystream(pk, s.iv));
      ctr.XORKeyStream(relays, at, end);
    }
  }

  // One share, copied to relays[at..] and masked there.
  method WrapShare(s: Setting, pk: bytes, share: bytes, lastCTR: CTR?, relays: array<byte>, at: nat)
    requires at + |share| <= relays.Length && |share| >= HASH_LENGTH
    requires lastCTR != null ==> lastCTR.pos == HASH_LENGTH
    modifies relays, lastCTR
    ensures relays[at..at + |share|]
         == MaskByPrevious(if lastCTR == null then None else Some(lastCTR.stream), MaskByKey(s, pk, share))
    ensures forall k :: 0 <= k < at || at + |share| <= k < relays.Length ==> relays[k] == old(relays[k])
  {
    hide MaskByKey, MaskByPrevious;
    Store(relays, at, share);
    MaskWhole(s, pk, relays, at, at + |share|);
    MaskHead(lastCTR, relays, at, at + |share|);
  }

  // The next relay's hash at relays[at..], under a new keystream.
  method WrapHash(ks: Keystream, hash: bytes, relays: array<byte>, at: nat) returns (ctr: CTR)
    requires |hash| == HASH_LENGTH && at + HASH_LENGTH <= relays.Length
    modifies relays
    ensures fresh(ctr) && ctr.stream == ks && ctr.pos == HASH_LENGTH
    ensures relays[..at] == old(relays[..at])
    ensures relays[at..at + HASH_LENGTH] == XorStream(ks, 0, hash)
  {
    ctr := new CTR(ks);
    Store(relays, at, hash);
    ctr.XORKeyStream(relays, at, at + HASH_LENGTH);
  }

  // One turn of the client's loop, for the first of the keys pks: its share
  // and, unless it is the last key, the next relay's hash behind it.
  method WrapTurn(s: Setting, pks: seq<PublicKey>, randoms: seq<bytes>, lastCTR: CTR?, relays: array<byte>, at: nat)
    returns (nfsKey: bytes, end: nat, ctr: CTR?)
    requires Agrees(s.exchange) && pks != [] && |randoms| == |pks| && s.exchange.admits(pks[0].kind, pks[0].key)
    requires lastCTR != null ==> lastCTR.pos == HASH_LENGTH
    requires at + RelaysLength(Kinds(pks)) == relays.Length
    modifies relays, lastCTR
    ensures relays[..at] == old(relays[..at]) && at <= end <= relays.Length
    ensures nfsKey == s.exchange.offer(pks[0].kind, pks[0].key, randoms[0]).1
    ensures var last := if lastCTR == null then None else Some(lastCTR.stream);
            if |pks| == 1 then ctr == null && end == relays.Length && relays[at..] == FirstShare(s, pks, randoms, last)
            else
              && ctr != null && fresh(ctr) && ctr.pos == HASH_LENGTH && ctr.stream == NextStream(s, pks, randoms)
              && end + RelaysLength(Kinds(pks[1..])) == relays.Length
              && relays[at..end] == FirstShare(s, pks, randoms, last) + XorStream(ctr.stream, 0, s.exchange.hash(pks[1].key))
  {
    hide XorStream, MaskByKey, MaskByPrevious, Agrees;
    ghost var last := if lastCTR == null then None else Some(lastCTR.stream);
    OfferFits(s, pks, randoms, last);
    hide RelaysLength, Kinds;
    var offered := s.exchange.offer(pks[0].kind, pks[0].key, randoms[0]);
    nfsKey := offered.1;
    end := at + ShareLength(pks[0].kind);
    ghost var before := relays[..];
    WrapShare(s, pks[0].key, offered.0, lastCTR, relays, at);
    SameSlice(before, relays[..], 0, at);
    ctr := null;
    if |pks| > 1 {
      before := relays[..];
      ctr := WrapHash(s.suite.keystream(nfsKey, s.iv), s.exchange.hash(pks[1].key), relays, end);
      Cut(before, 0, at, end);
      Cut(relays[..], 0, at, end);
      Cut(relays[..], at, end, end + HASH_LENGTH);
      end := end + HASH_LENGTH;
    }
  }

  // The loop of Client.Handshake over the relay part of the hello, in place. It
  // ends at a relay key that the exchange refuses.
  method WrapRelays(s: Setting, pks: seq<PublicKey>, randoms: seq<bytes>, relays: array<byte>) returns (nfsKey: Option<bytes>)
    requires Agrees(s.exchange) && pks != [] && |randoms| == |pks|
    requires relays.Length == RelaysLength(Kinds(pks))
    modifies relays
    ensures nfsKey.Some? <==> Admitted(s.exchange, pks)
    ensures nfsKey.Some? ==> relays[..] == Wrap(s, pks, randoms, None) && nfsKey.value == FinalKey(s, pks, randoms)
  {
    hide Wrap, FinalKey, FirstShare, XorStream, RelaysLength, Kinds, Agrees, Admitted;
    var lastCTR: CTR? := null;
    var i, at := 0, 0;
    AdmittedSplits(s.exchange, pks, 0);
    assert pks[0..] == pks && randoms[0..] == randoms;
    while true
      invariant 0 <= i < |pks| && 0 <= at <= relays.Length && at + RelaysLength(Kinds(pks[i..])) == relays.Length
      invariant lastCTR != null ==> fresh(lastCTR) && lastCTR.pos == HASH_LENGTH
      invariant Admitted(s.exchange, pks) <==> Admitted(s.exchange, pks[i..])
      invariant Admitted(s.exchange, pks) ==>
                  Wrap(s, pks, randoms, None)
                  == relays[..at] + Wrap(s, pks[i..], randoms[i..], if lastCTR == null then None else Some(lastCTR.stream))
      invariant FinalKey(s, pks, randoms) == FinalKey(s, pks[i..], randoms[i..])
      decreases |pks| - i
    {
      ghost var done, from, last := relays[..at], at, if lastCTR == null then None else Some(lastCTR.stream);
      var ps, rs := pks[i..], randoms[i..];
      AdmittedSplits(s.exchange, ps, 1);
      if !s.exchange.admits(ps[0].kind, ps[0].key) {
        return None;
      }
      var key;
      key, at, lastCTR := WrapTurn(s, ps, rs, lastCTR, relays, at);
      if i == |pks| - 1 {
        LastShare(s, ps, rs, last);
        assert relays[..] == relays[..from] + relays[from..];
        return Some(key);
      }
      FinalKeyIsLater(s, ps, rs);
      if Admitted(s.exchange, pks) {
        WrapSplits(s, ps, rs, last);
      }
      assert ps[1..] == pks[i + 1..] && rs[1..] == randoms[i + 1..];
      Cut(relays[..], 0, from, at);
      i := i + 1;
    }
  }

  lemma AdmittedSplits(x: Exchange, pks: seq<PublicKey>, n: nat)
    requires n <= |pks|
    ensures Admitted(x, pks) <==> Admitted(x, pks[..n]) && Admitted(x, pks[n..])
    ensures Admitted(x, pks[..0])
    ensures n == 1 ==> (Admitted(x, pks[..1]) <==> x.admits(pks[0].kind, pks[0].key))
    ensures n == |pks| ==> Admitted(x, pks[n..])
  {
    if Admitted(x, pks[..n]) && Admitted(x, pks[n..]) {
      forall i | 0 <= i < |pks| ensures x.admits(pks[i].kind, pks[i].key) {
        assert pks[i] == if i < n then pks[..n][i] else pks[n..][i - n];
      }
    }
  }

  lemma FinalKeyIsLater(s: Setting, pks: seq<PublicKey>, randoms: seq<bytes>)
    requires |pks| > 1 && |randoms| == |pks|
    ensures FinalKey(s, pks, randoms) == FinalKey(s, pks[1..], randoms[1..])
  {
  }

  lemma OfferFits(s: Setting, pks: seq<PublicKey>, randoms: seq<bytes>, last: Option<Keystream>)
    requires Agrees(s.exchange) && pks != [] && |randoms| == |pks| && s.exchange.admits(pks[0].kind, pks[0].key)
    ensures |s.exchange.offer(pks[0].kind, pks[0].key, randoms[0]).0| == ShareLength(pks[0].kind)
    ensures RelaysLength(Kinds(pks))
         == ShareLength(pks[0].kind) + if |pks| == 1 then 0 else HASH_LENGTH + RelaysLength(Kinds(pks[1..]))
    ensures |pks| > 1 ==> |s.exchange.hash(pks[1].key)| == HASH_LENGTH
  {
    if |pks| > 1 {
      assert Kinds(pks)[1..] == Kinds(pks[1..]);
    }
  }

  lemma LastShare(s: Setting, pks: seq<PublicKey>, randoms: seq<bytes>, last: Option<Keystream>)
    requires Agrees(s.exchange) && Admitted(s.exchange, pks) && |pks| == |randoms| == 1
    ensures Wrap(s, pks, randoms, last) == FirstShare(s, pks, randoms, last)
    ensures FinalKey(s, pks, randoms) == s.exchange.offer(pks[0].kind, pks[0].key, randoms[0]).1
  {
  }

  // One turn of the server's loop, for the first of the keys sks: recovers its
  // share in place, derives the secret and checks the next key's hash.
  method UnwrapTurn(s: Setting, sks: seq<SecretKey>, lastCTR: CTR?, relays: array<byte>, at: nat)
    returns (verdict: Option<Unwrapped>, end: nat, ctr: CTR?)
    requires sks != [] && at + RelaysLength(Kinds(PublicKeys(s.exchange, sks))) == relays.Length
    requires lastCTR != null ==> lastCTR.pos == HASH_LENGTH
    modifies relays, lastCTR
    ensures |sks| == 1 ==> verdict.Some?
    ensures verdict.Some? ==>
              Unwrap(s, sks, old(relays[at..]), if lastCTR == null then None else Some(lastCTR.stream)) == verdict.value
    ensures verdict == None ==>
              && ctr != null && fresh(ctr) && ctr.pos == HASH_LENGTH && end <= relays.Length
              && end + RelaysLength(Kinds(PublicKeys(s.exchange, sks[1..]))) == relays.Length
              && Unwrap(s, sks, old(relays[at..]), if lastCTR == null then None else Some(lastCTR.stream))
                 == Unwrap(s, sks[1..], relays[end..], Some(ctr.stream))
  {
    hide XorStream, MaskByKey, MaskByPrevious, Kinds, Judge;
    KindsSplit(s.exchange, sks);
    CutTail(relays[..], at, at + ShareLength(sks[0].kind));
    var share := RecoverShare(s, sks[0], lastCTR, relays, at);
    verdict, end, ctr := JudgeTurn(s, sks, share, relays, at + ShareLength(sks[0].kind));
  }

  // The first share, unmasked in place.
  method RecoverShare(s: Setting, sk: SecretKey, lastCTR: CTR?, relays: array<byte>, at: nat) returns (share: bytes)
    requires at + ShareLength(sk.kind) <= relays.Length
    requires lastCTR != null ==> lastCTR.pos == HASH_LENGTH
    modifies relays, lastCTR
    ensures |share| == ShareLength(sk.kind)
    ensures share == MaskByKey(s, s.exchange.publicOf(sk.kind, sk.key),
                               MaskByPrevious(if lastCTR == null then None else Some(lastCTR.stream),
                                              old(relays[at..at + ShareLength(sk.kind)])))
    ensures relays[at + ShareLength(sk.kind)..] == old(relays[at + ShareLength(sk.kind)..])
  {
    hide MaskByKey, MaskByPrevious;
    ghost var before := relays[..];
    var end := at + ShareLength(sk.kind);
    MaskHead(lastCTR, relays, at, end);
    MaskWhole(s, s.exchange.publicOf(sk.kind, sk.key), relays, at, end);
    SameTail(before, relays[..], end);
    share := relays[at..end];
  }

  // The verdict on a share, or the way to the next one.
  method JudgeTurn(s: Setting, sks: seq<SecretKey>, share: bytes, relays: array<byte>, from: nat)
    returns (verdict: Option<Unwrapped>, end: nat, ctr: CTR?)
    requires sks != [] && |share| == ShareLength(sks[0].kind) <= from <= relays.Length
    requires from - |share| + RelaysLength(Kinds(PublicKeys(s.exchange, sks))) == relays.Length
    modifies relays
    ensures |sks| == 1 ==> verdict.Some?
    ensures verdict.Some? ==> Judge(s, sks, share, old(relays[from..])) == verdict.value
    ensures verdict == None ==>
              && ctr != null && fresh(ctr) && ctr.pos == HASH_LENGTH && end <= relays.Length
              && end + RelaysLength(Kinds(PublicKeys(s.exchange, sks[1..]))) == relays.Length
              && Judge(s, sks, share, old(relays[from..])) == Unwrap(s, sks[1..], relays[end..], Some(ctr.stream))
  {
    hide XorStream, Kinds, Unwrap;
    KindsSplit(s.exchange, sks);
    verdict, end, ctr := None, from, null;
    if sks[0].kind == X25519 && share[31] > 127 {
      return Some(HighBitSet), end, ctr;
    }
    var secret := s.exchange.accept(sks[0].kind, sks[0].key, share);
    if secret == None {
      return Some(NoSecret), end, ctr;
    }
    if |sks| == 1 {
      return Some(Unwrapped.Unwrapped(secret.value, relays[from..])), end, ctr;
    }
    ghost var before := relays[..];
    end := from + HASH_LENGTH;
    CutTail(before, from, end);
    ctr := new CTR(s.suite.keystream(secret.value, s.iv));
    ctr.XORKeyStream(relays, from, end);
    if relays[from..end] != s.exchange.hash(s.exchange.publicOf(sks[1].kind, sks[1].key)) {
      return Some(BadHash), end, ctr;
    }
    SameTail(before, relays[..], end);
  }

  // The loop of Service.Handshake over the relay part of the hello, in place.
  method UnwrapRelays(s: Setting, sks: seq<SecretKey>, relays: array<byte>) returns (r: Unwrapped)
    requires sks != [] && relays.Length == RelaysLength(Kinds(PublicKeys(s.exchange, sks)))
    modifies relays
    ensures r == Unwrap(s, sks, old(relays[..]), None)
  {
    hide Unwrap, RelaysLength, Kinds, PublicKeys;
    var lastCTR: CTR? := null;
    var i, at := 0, 0;
    ghost var all := Unwrap(s, sks, relays[..], None);
    assert sks[0..] == sks && relays[0..] == relays[..];
    while true
      invariant 0 <= i < |sks| && 0 <= at <= relays.Length
      invariant at + RelaysLength(Kinds(PublicKeys(s.exchange, sks[i..]))) == relays.Length
      invariant lastCTR != null ==> fresh(lastCTR) && lastCTR.pos == HASH_LENGTH
      invariant all == Unwrap(s, sks[i..], relays[at..], if lastCTR == null then None else Some(lastCTR.stream))
      decreases |sks| - i
    {
      var verdict;
      assert sks[i..][1..] == sks[i + 1..];
      verdict, at, lastCTR := UnwrapTurn(s, sks[i..], lastCTR, relays, at);
      if verdict.Some? {
        return verdict.value;
      }
      i := i + 1;
    }
  }

  lemma KindsSplit(x: Exchange, sks: seq<SecretKey>)
    requires sks != []
    ensures RelaysLength(Kinds(PublicKeys(x, sks)))
         == ShareLength(sks[0].kind) + if |sks| == 1 then 0 else HASH_LENGTH + RelaysLength(Kinds(PublicKeys(x, sks[1..])))
  {
    if |sks| > 1 {
      assert Kinds(PublicKeys(x, sks))[1..] == Kinds(PublicKeys(x, sks[1..]));
    }
  }
}
