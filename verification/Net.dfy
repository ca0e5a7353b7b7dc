// The transport under every connection: an ordered byte stream in each direction.
module Net {
  import opened Bytes

  // A net.Conn whose writes succeed. A read returns any non-empty prefix of
  // what is still to come, and nothing only at the end of the stream.
  class Conn {
    var incoming: bytes
    var sent: bytes

    constructor (incoming: bytes)
      ensures this.incoming == incoming && sent == []
    {
      this.incoming := incoming;
      sent := [];
    }

    method Write(b: bytes)
      modifies `sent
      ensures sent == old(sent) + b
    {
      sent := sent + b;
    }

    // Reads into b[lo..hi].
    method Read(b: array<byte>, lo: nat, hi: nat) returns (n: nat)
      requires lo <= hi <= b.Length
      modifies `incoming, b
      ensures n <= hi - lo && n <= |old(incoming)|
      ensures n == 0 ==> lo == hi || old(incoming) == []
      ensures incoming == old(incoming)[n..]
      ensures b[lo..lo + n] == old(incoming)[..n]
      ensures forall k :: 0 <= k < lo || lo + n <= k < b.Length ==> b[k] == old(b[k])
    {
      var limit := Min(hi - lo, |incoming|);
      n :| 0 <= n <= limit && (n == 0 ==> limit == 0);
      var chunk := incoming[..n];
      incoming := incoming[n..];
      Store(b, lo, chunk);
    }
  }

  // copy(b[at:], s) for an s that fits.
  method Store(b: array<byte>, at: nat, s: bytes)
    requires at + |s| <= b.Length
    modifies b
    ensures b[at..at + |s|] == s
    ensures forall k :: 0 <= k < at || at + |s| <= k < b.Length ==> b[k] == old(b[k])
  {
    forall i | 0 <= i < |s| {
      b[at + i] := s[i];
    }
  }

  // Store right after what the buffer already holds.
  method Append(b: array<byte>, at: nat, s: bytes, ghost held: bytes)
    requires at + |s| <= b.Length && b[..at] == held
    modifies b
    ensures b[..at + |s|] == held + s
  {
    ghost var before := b[..];
    Store(b, at, s);
    SameSlice(before, b[..], 0, at);
    Cut(b[..], 0, at, at + |s|);
  }

  // rand.Read into a new buffer.
  method RandomBytes(n: nat) returns (b: bytes)
    ensures |b| == n
  {
    var buffer := new byte[n];
    b := buffer[..];
  }

  // io.ReadFull into a new buffer of size n.
  method ReadFull(conn: Conn, n: nat) returns (b: array<byte>, ok: bool)
    modifies conn`incoming
    ensures fresh(b) && b.Length == n
    ensures ok <==> n <= |old(conn.incoming)|
    ensures ok ==> b[..] == old(conn.incoming)[..n] && conn.incoming == old(conn.incoming)[n..]
  {
    b := new byte[n];
    ghost var all := conn.incoming;
    var p := 0;
    while p < n
      invariant 0 <= p <= n && fresh(b)
      invariant p <= |all| && b[..p] == all[..p] && conn.incoming == all[p..]
      decreases n - p
    {
      ghost var before := b[..];
      var k := conn.Read(b, p, n);
      if k == 0 {
        return b, false;
      }
      SameSlice(before, b[..], 0, p);
      Cut(b[..], 0, p, p + k);
      Cut(all, 0, p, p + k);
      CutTail(all, p, p + k);
      p := p + k;
    }
    assert b[..n] == b[..];
    ok := true;
  }
}
