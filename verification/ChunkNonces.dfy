// The counted nonces of the VMess chunks: how long they stay different, and
// how long a chunk may be before its length field lies.
module ChunkNonces {
  import opened Bytes
  import opened Crypto
  import opened ChunkFormat

  lemma {:induction false} CountsAfter(l: Layout, at: Place, n: nat)
    ensures AfterChunks(l, at, n).bodyCount == (if l.body.AEAD? then Wrap16(at.bodyCount + n) else at.bodyCount)
    ensures AfterChunks(l, at, n).lengthCount == (if l.lengths.Sealed? then Wrap16(at.lengthCount + n) else at.lengthCount)
    decreases n
  {
    if n > 0 {
      CountsAfter(l, AfterChunk(l, at), n - 1);
      WrapOnce(at.bodyCount + 1, n - 1);
      WrapOnce(at.lengthCount + 1, n - 1);
    }
  }

  // The nonces under which the data and the lengths of n chunks from at on are
  // sealed.
  function BodyNonces(k: Keys, l: Layout, at: Place, n: nat): seq<bytes>
    requires |k.bodyNonce| >= LENGTH_SIZE
  {
    seq(n, i requires 0 <= i < n => CountedNonce(k.bodyNonce, AfterChunks(l, at, i).bodyCount))
  }

  function LengthNonces(k: Keys, l: Layout, at: Place, n: nat): seq<bytes>
    requires |k.lengthNonce| >= LENGTH_SIZE
  {
    seq(n, i requires 0 <= i < n => CountedNonce(k.lengthNonce, AfterChunks(l, at, i).lengthCount))
  }

  lemma CountedNonceTellsCount(nonce: bytes, a: word, b: word)
    requires |nonce| >= LENGTH_SIZE
    ensures CountedNonce(nonce, a) == CountedNonce(nonce, b) <==> a == b
  {
    if CountedNonce(nonce, a) == CountedNonce(nonce, b) {
      assert BE16(a) == CountedNonce(nonce, a)[..LENGTH_SIZE] && BE16(b) == CountedNonce(nonce, b)[..LENGTH_SIZE];
      BE16RoundTrip(a);
      BE16RoundTrip(b);
    }
  }

  lemma WrapsDiffer(base: nat, i: nat, j: nat)
    requires i < j < i + WORD_RANGE
    ensures Wrap16(base + i) != Wrap16(base + j)
  {
    var q, r := (base + i) / WORD_RANGE, (base + j) / WORD_RANGE;
    assert j - i == WORD_RANGE * (r - q) + (Wrap16(base + j) - Wrap16(base + i));
  }

  predicate AllDiffer(s: seq<bytes>) {
    forall i, j :: 0 <= i < j < |s| ==> s[i] != s[j]
  }

  lemma FullTurn(base: word)
    ensures Wrap16(base + 0) == Wrap16(base + WORD_RANGE)
  {
  }

  lemma CountedTurn(nonces: seq<bytes>, nonce: bytes, base: word)
    requires |nonce| >= LENGTH_SIZE
    requires forall i :: 0 <= i < |nonces| ==> nonces[i] == CountedNonce(nonce, Wrap16(base + i))
    ensures AllDiffer(nonces) <==> |nonces| <= WORD_RANGE
  {
    hide Wrap16, CountedNonce;
    if |nonces| <= WORD_RANGE {
      forall i, j | 0 <= i < j < |nonces| ensures nonces[i] != nonces[j] {
        WrapsDiffer(base, i, j);
        CountedNonceTellsCount(nonce, Wrap16(base + i), Wrap16(base + j));
      }
    } else {
      FullTurn(base);
      assert nonces[0] == nonces[WORD_RANGE];
    }
  }

  // Under one key no nonce is used twice exactly as long as no more than 65536
  // chunks go one way.
  lemma ChunkNoncesDiffer(k: Keys, l: Layout, at: Place, n: nat)
    requires |k.bodyNonce| >= LENGTH_SIZE && |k.lengthNonce| >= LENGTH_SIZE
    ensures l.body.AEAD? ==> (AllDiffer(BodyNonces(k, l, at, n)) <==> n <= WORD_RANGE)
    ensures l.lengths.Sealed? ==> (AllDiffer(LengthNonces(k, l, at, n)) <==> n <= WORD_RANGE)
  {
    hide Wrap16, CountedNonce, AllDiffer;
    forall i: nat ensures
        && (l.body.AEAD? ==> AfterChunks(l, at, i).bodyCount == Wrap16(at.bodyCount + i))
        && (l.lengths.Sealed? ==> AfterChunks(l, at, i).lengthCount == Wrap16(at.lengthCount + i)) {
      CountsAfter(l, at, i);
    }
    if l.body.AEAD? {
      CountedTurn(BodyNonces(k, l, at, n), k.bodyNonce, at.bodyCount);
    }
    if l.lengths.Sealed? {
      CountedTurn(LengthNonces(k, l, at, n), k.lengthNonce, at.lengthCount);
    }
  }

  function Zeros(n: nat): (r: bytes)
    ensures |r| == n
  {
    seq(n, _ => 0)
  }

  // Keys whose every chunk has 50 bytes of padding.
  function FiftyPadded(): Keys {
    var key := CipherKey([], true);
    Keys(TagSuite(), (i: nat) => 50, key, Zeros(12), key, Zeros(12), (p: bytes) => Zeros(CHECKSUM_SIZE))
  }

  // 65500 bytes with 50 of padding announce themselves as 14: the largest
  // buffer a 16-bit length can ask for does not get them back.
  lemma WrappedLengthIsRefused(rest: bytes)
    ensures
      var k, l, data, fill := FiftyPadded(), Layout(Clear(false), true, Bare), Zeros(65500), Zeros(50);
      && Usable(k) && |fill| == PaddingLength(k, l, BEGINNING)
      && LengthField(k, l, BEGINNING, |data|) == BE16(14)
      && ReadFrame(k, l, BEGINNING, Frame(k, l, BEGINNING, data, fill) + rest, Room(65535, 0)) == Failed(BadLength)
  {
    TagSuiteLaws();
    hide ReadFrame, Frame;
    var k, l := FiftyPadded(), Layout(Clear(false), true, Bare);
    FrameOpens(k, l, BEGINNING, Zeros(65500), Zeros(50), rest, Room(65535, 0));
  }
}
