// Which counter values seal the records of a run, per AEAD instance.
module NonceUse {
  import opened Bytes
  import opened Crypto
  import opened Nonce
  import opened Record

  // One use: the number of key changes before it, and the nonce.
  datatype Use = Use(epoch: nat, nonce: bytes)

  // The uses in sealing one Write per element of xs, record by record.
  function Uses(env: Env, s: Sender, epoch: nat, xs: seq<bytes>): seq<Use>
    decreases |xs|, if xs == [] then 0 else |xs[0]|
  {
    if xs == [] then []
    else if xs[0] == [] then Uses(env, s, epoch, xs[1..])
    else
      var record := s.pending + SealRecord(env, s.cipher, FirstChunk(xs[0]));
      [Use(epoch, Next(s.cipher.nonce))]
      + Uses(env, Sender([], Turn(env, s.cipher, record)), AfterUse(epoch, s.cipher), [OtherChunks(xs[0])] + xs[1..])
  }

  function AfterUse(epoch: nat, c: Cipher): nat {
    if c.nonce == MAX_NONCE then epoch + 1 else epoch
  }

  const PERIOD: nat := 0x1_0000_0000_0000_0000_0000_0000 // 2^96

  // The place of a use in the run: every instance goes through the values
  // 1, 2, ... up to the wrapped zero, which is its last.
  function Rank(u: Use): nat {
    u.epoch * PERIOD + (if Value(u.nonce) == 0 then PERIOD else Value(u.nonce))
  }

  ghost predicate Consecutive(uses: seq<Use>, before: nat) {
    forall i :: 0 <= i < |uses| ==> |uses[i].nonce| == NONCE_LENGTH && Rank(uses[i]) == before + i + 1
  }

  lemma MaxNonceValue(nonce: bytes)
    requires |nonce| == NONCE_LENGTH
    ensures Value(nonce) < PERIOD
    ensures nonce == MAX_NONCE <==> Value(nonce) == PERIOD - 1
    ensures Pow256(NONCE_LENGTH) == PERIOD
  {
    assert Pow256(6) == 0x1_0000_0000_0000;
    RepeatValue(NONCE_LENGTH);
    if Value(nonce) == PERIOD - 1 {
      ValueInjective(nonce, MAX_NONCE);
    }
  }

  // Consecutive values, up to the wrapped zero, then a fresh instance.
  lemma {:induction false} UsesAreConsecutive(env: Env, s: Sender, epoch: nat, xs: seq<bytes>)
    requires |s.cipher.nonce| == NONCE_LENGTH
    ensures Consecutive(Uses(env, s, epoch, xs), epoch * PERIOD + Value(s.cipher.nonce))
    decreases |xs|, if xs == [] then 0 else |xs[0]|
  {
    if xs == [] {
    } else if xs[0] == [] {
      UsesAreConsecutive(env, s, epoch, xs[1..]);
    } else {
      var v := Value(s.cipher.nonce);
      var record := s.pending + SealRecord(env, s.cipher, FirstChunk(xs[0]));
      var s1, epoch1 := Sender([], Turn(env, s.cipher, record)), AfterUse(epoch, s.cipher);
      var xs1 := [OtherChunks(xs[0])] + xs[1..];
      UsesAreConsecutive(env, s1, epoch1, xs1);
      NextAddsOne(s.cipher.nonce);
      MaxNonceValue(s.cipher.nonce);
      RepeatValue(NONCE_LENGTH);
      assert epoch1 * PERIOD + Value(s1.cipher.nonce) == epoch * PERIOD + v + 1;
      var uses, later := Uses(env, s, epoch, xs), Uses(env, s1, epoch1, xs1);
      forall i | 0 <= i < |uses|
        ensures |uses[i].nonce| == NONCE_LENGTH && Rank(uses[i]) == epoch * PERIOD + v + i + 1
      {
        if i > 0 {
          assert uses[i] == later[i - 1];
        }
      }
    }
  }

  // No instance seals two records with one nonce, in any run.
  lemma NoncesDoNotRepeat(env: Env, s: Sender, xs: seq<bytes>, i: nat, j: nat)
    requires |s.cipher.nonce| == NONCE_LENGTH
    requires i < j < |Uses(env, s, 0, xs)|
    ensures Uses(env, s, 0, xs)[i] != Uses(env, s, 0, xs)[j]
  {
    UsesAreConsecutive(env, s, 0, xs);
    assert Rank(Uses(env, s, 0, xs)[i]) < Rank(Uses(env, s, 0, xs)[j]);
  }
}
