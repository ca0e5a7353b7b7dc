// The byte streams under the VMess chunks: the connection itself, or the CFB
// stream of chunk_stream.go over it.
module ByteStream {
  import opened Bytes
  import opened Net

  // CFB: the mask of a byte depends on all the ciphertext before it.
  type Feedback = bytes -> byte

  function Encrypt(m: Feedback, history: bytes, p: bytes): (r: bytes)
    ensures |r| == |p|
    decreases |p|
  {
    if p == [] then []
    else
      var c := Xor(p[0], m(history));
      [c] + Encrypt(m, history + [c], p[1..])
  }

  function Decrypt(m: Feedback, history: bytes, c: bytes): (r: bytes)
    ensures |r| == |c|
    decreases |c|
  {
    if c == [] then [] else [Xor(c[0], m(history)) as byte] + Decrypt(m, history + [c[0]], c[1..])
  }

  lemma {:induction false} DecryptUndoes(m: Feedback, history: bytes, p: bytes)
    ensures Decrypt(m, history, Encrypt(m, history, p)) == p
    decreases |p|
  {
    if p != [] {
      var c := Xor(p[0], m(history));
      XorInvolution(p[0], m(history));
      DecryptUndoes(m, history + [c], p[1..]);
      assert Encrypt(m, history, p)[1..] == Encrypt(m, history + [c], p[1..]);
    }
  }

  lemma EncryptFirst(m: Feedback, history: bytes, b: byte, p: bytes)
    ensures var c := Xor(b, m(history)); Encrypt(m, history, [b] + p) == [c] + Encrypt(m, history + [c], p)
  {
    assert ([b] + p)[1..] == p;
  }

  lemma DecryptFirst(m: Feedback, history: bytes, b: byte, c: bytes)
    ensures Decrypt(m, history, [b] + c) == [Xor(b, m(history)) as byte] + Decrypt(m, history + [b], c)
  {
    assert ([b] + c)[1..] == c;
  }

  lemma {:induction false} EncryptAppend(m: Feedback, history: bytes, p: bytes, q: bytes)
    ensures Encrypt(m, history, p + q)
            == Encrypt(m, history, p) + Encrypt(m, history + Encrypt(m, history, p), q)
    decreases |p|
  {
    if p == [] {
      assert p + q == q && history + [] == history;
    } else {
      hide Encrypt, Xor;
      var c: bytes := [Xor(p[0], m(history))];
      var e := Encrypt(m, history + c, p[1..]);
      EncryptAppend(m, history + c, p[1..], q);
      EncryptFirst(m, history, p[0], p[1..]);
      EncryptFirst(m, history, p[0], p[1..] + q);
      assert p == [p[0]] + p[1..] && p + q == [p[0]] + (p[1..] + q);
      Assoc(history, c, e);
      Assoc(c, e, Encrypt(m, (history + c) + e, q));
    }
  }

  lemma {:induction false} DecryptAppend(m: Feedback, history: bytes, c: bytes, d: bytes)
    ensures Decrypt(m, history, c + d) == Decrypt(m, history, c) + Decrypt(m, history + c, d)
    decreases |c|
  {
    if c == [] {
      assert c + d == d && history + [] == history;
    } else {
      hide Decrypt, Xor;
      var p: bytes := [Xor(c[0], m(history))];
      var h := history + [c[0]];
      DecryptAppend(m, h, c[1..], d);
      DecryptFirst(m, history, c[0], c[1..]);
      DecryptFirst(m, history, c[0], c[1..] + d);
      assert c == [c[0]] + c[1..] && c + d == [c[0]] + (c[1..] + d);
      assert h + c[1..] == history + c;
      Assoc(p, Decrypt(m, h, c[1..]), Decrypt(m, history + c, d));
    }
  }

  // Byte by byte: what masks a byte depends on what was sent before it.
  lemma {:induction false} EncryptAt(m: Feedback, history: bytes, p: bytes, i: nat)
    requires i < |p|
    ensures Encrypt(m, history, p)[i] == Xor(p[i], m(history + Encrypt(m, history, p)[..i]))
    decreases |p|
  {
    hide Xor;
    var c := Xor(p[0], m(history));
    var later := Encrypt(m, history + [c], p[1..]);
    if i == 0 {
      assert history + Encrypt(m, history, p)[..0] == history;
    } else {
      EncryptAt(m, history + [c], p[1..], i - 1);
      assert Encrypt(m, history, p)[..i] == [c] + later[..i - 1];
      Assoc(history, [c], later[..i - 1]);
    }
  }

  // A connection to write to, through a CFB encrypter if it has one.
  class Sink {
    const cipher: Option<Feedback>
    var sent: bytes
    ghost var given: bytes

    constructor (cipher: Option<Feedback>)
      ensures this.cipher == cipher && sent == [] && given == [] && Valid()
    {
      this.cipher, sent, given := cipher, [], [];
    }

    ghost predicate Valid()
      reads this
    {
      sent == if cipher.Some? then Encrypt(cipher.value, [], given) else given
    }

    method Write(p: bytes)
      requires Valid()
      modifies this
      ensures Valid() && given == old(given) + p
    {
      match cipher {
        case None =>
          sent := sent + p;
        case Some(m) =>
          EncryptAppend(m, [], given, p);
          assert [] + sent == sent;
          sent := sent + Encrypt(m, sent, p);
      }
      given := given + p;
    }

    // StreamWriter.Write: the caller's bytes are encrypted where they are, and
    // stay so.
    method WriteInPlace(p: array<byte>)
      requires Valid()
      modifies this, p
      ensures Valid() && given == old(given) + old(p[..])
      ensures p[..] == if cipher.Some? then Encrypt(cipher.value, old(sent), old(p[..])) else old(p[..])
      ensures sent == old(sent) + p[..]
    {
      hide Encrypt;
      ghost var plain := p[..];
      match cipher {
        case None =>
        case Some(m) =>
          EncryptAppend(m, [], given, plain);
          assert [] + sent == sent;
          XORKeyStream(m, sent, p);
      }
      sent := sent + p[..];
      given := given + plain;
    }
  }

  // The CFB encrypter over a slice, one byte after the other; before is the
  // ciphertext so far.
  method XORKeyStream(m: Feedback, before: bytes, p: array<byte>)
    modifies p
    ensures p[..] == Encrypt(m, before, old(p[..]))
  {
    hide Encrypt, Xor;
    ghost var plain := p[..];
    assert plain[..0] == [] && plain[0..] == plain;
    EncryptNothing(m, before);
    var i := 0;
    while i < p.Length
      invariant i <= p.Length
      invariant p[..i] == Encrypt(m, before, plain[..i])
      invariant p[i..] == plain[i..]
    {
      assert p[i] == plain[i] by {
        assert p[i..][0] == plain[i..][0];
      }
      assert plain[..i + 1] == plain[..i] + [plain[i]];
      EncryptAppend(m, before, plain[..i], [plain[i]]);
      EncryptOne(m, before + p[..i], plain[i]);
      ghost var done := p[..i];
      ghost var left := plain[i + 1..];
      assert p[i + 1..] == p[i..][1..] && left == plain[i..][1..];
      p[i] := Xor(p[i], m(before + p[..i]));
      assert p[..i + 1] == done + [p[i]];
      assert p[i + 1..] == left;
      i := i + 1;
    }
    assert p[..] == p[..i] && plain[..i] == plain;
  }

  lemma EncryptNothing(m: Feedback, history: bytes)
    ensures Encrypt(m, history, []) == []
  {
  }

  lemma EncryptOne(m: Feedback, history: bytes, b: byte)
    ensures Encrypt(m, history, [b]) == [Xor(b, m(history)) as byte]
  {
    EncryptNothing(m, history + [Xor(b, m(history))]);
  }

  // A connection to read from, through a CFB decrypter if it has one.
  class Source {
    const cipher: Option<Feedback>
    var incoming: bytes
    var taken: bytes

    constructor (cipher: Option<Feedback>, incoming: bytes)
      ensures this.cipher == cipher && this.incoming == incoming && taken == []
    {
      this.cipher, this.incoming, taken := cipher, incoming, [];
    }

    // What is still to be read, decrypted.
    ghost function Coming(): bytes
      reads this
    {
      if cipher.Some? then Decrypt(cipher.value, taken, incoming) else incoming
    }

    method Take(n: nat) returns (data: bytes)
      requires n <= |incoming|
      modifies this
      ensures |data| == n && old(Coming()) == data + Coming() && |incoming| == |old(incoming)| - n
    {
      var c, rest := incoming[..n], incoming[n..];
      assert incoming == c + rest;
      match cipher {
        case None =>
          data := c;
        case Some(m) =>
          DecryptAppend(m, taken, c, rest);
          data := Decrypt(m, taken, c);
      }
      taken := taken + c;
      incoming := rest;
    }

    // What a decoder would see; it takes what it uses.
    function Peek(): (s: bytes)
      reads this
      ensures s == Coming() && |s| == |incoming|
    {
      if cipher.Some? then Decrypt(cipher.value, taken, incoming) else incoming
    }

    // io.ReadFull into p[..n]; nothing is promised about a stream that ends.
    method ReadFull(p: array<byte>, n: nat) returns (ok: bool)
      requires n <= p.Length
      modifies this, p
      ensures ok <==> n <= |old(Coming())|
      ensures ok ==> p[..n] + Coming() == old(Coming())
    {
      if |incoming| < n {
        return false;
      }
      var data := Take(n);
      Store(p, 0, data);
      return true;
    }

    // io.CopyN to io.Discard
    method Discard(n: nat) returns (ok: bool)
      modifies this
      ensures ok <==> n <= |old(Coming())|
      ensures ok ==> Coming() == old(Coming())[n..]
    {
      if |incoming| < n {
        return false;
      }
      var data := Take(n);
      return true;
    }
  }

  // What went into a sink comes out of a source that reads the sink's bytes
  // with the same cipher from the same place on, and then what follows them.
  lemma SinkToSource(m: Feedback, before: bytes, given: bytes, more: bytes)
    ensures
      var sent := Encrypt(m, before, given);
      Decrypt(m, before, sent + more) == given + Decrypt(m, before + sent, more)
  {
    DecryptUndoes(m, before, given);
    DecryptAppend(m, before, Encrypt(m, before, given), more);
  }
}
