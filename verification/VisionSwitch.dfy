// When the writer of vless/vision.go stops padding, and what becomes of the
// pieces of one Write.
module VisionSwitch {
  import opened Bytes
  import opened VisionFormat
  import opened VisionFilter

  // A record of TLS application data, with something in it.
  predicate Application(b: bytes) {
    |b| > 6 && b[0] == 23 && b[1] == 3 && b[2] == 3
  }

  // A piece is the last one padded: the first application data of a TLS
  // stream, or any piece when there is no sign of TLS 1.2 and the count is up.
  predicate Ends(d: Detection, b: bytes) {
    (d.isTLS && Application(b)) || (!d.isTLS12orAbove && d.packets <= 1)
  }

  // What follows it goes out raw.
  predicate Switches(d: Detection, b: bytes) {
    d.isTLS && d.enableXTLS && Application(b)
  }

  function Command(d: Detection, b: bytes): byte {
    if Switches(d, b) then DIRECT else if Ends(d, b) then END else CONTINUE
  }

  lemma SwitchEnds(d: Detection, b: bytes)
    ensures Switches(d, b) ==> Ends(d, b)
  {
  }

  // How many pieces are padded: those up to the first that ends it.
  function Padded(d: Detection, pieces: seq<bytes>): (k: nat)
    ensures k <= |pieces| && (k == 0 <==> pieces == [])
    ensures forall i :: 0 <= i < k - 1 ==> !Ends(d, pieces[i])
    ensures 0 < k < |pieces| ==> Ends(d, pieces[k - 1])
  {
    if pieces == [] then 0 else if Ends(d, pieces[0]) then 1 else 1 + Padded(d, pieces[1..])
  }

  lemma {:induction false} PaddedIs(d: Detection, pieces: seq<bytes>, k: nat)
    requires k <= |pieces| && (k == 0 <==> pieces == [])
    requires forall i :: 0 <= i < k - 1 ==> !Ends(d, pieces[i])
    requires 0 < k < |pieces| ==> Ends(d, pieces[k - 1])
    ensures Padded(d, pieces) == k
    decreases |pieces|
  {
    hide Ends;
    if k > 1 {
      assert !Ends(d, pieces[0]);
      PaddedIs(d, pieces[1..], k - 1);
    }
  }

  // How much padding a block may have.
  predicate Allowed(isTLS: bool, content: bytes, padding: bytes) {
    if isTLS && |content| < 900 then 900 <= |content| + |padding| < 1400 else |padding| < 256
  }

  // The blocks of some pieces.
  function Blocks(d: Detection, pieces: seq<bytes>, paddings: seq<bytes>): bytes
    requires |paddings| == |pieces|
  {
    if pieces == [] then []
    else
      var last := |pieces| - 1;
      Blocks(d, pieces[..last], paddings[..last]) + Block(Command(d, pieces[last]), pieces[last], paddings[last])
  }

  predicate AllAllowed(isTLS: bool, pieces: seq<bytes>, paddings: seq<bytes>) {
    |paddings| == |pieces| && forall i :: 0 <= i < |pieces| ==> Allowed(isTLS, pieces[i], paddings[i])
  }

  lemma OneMoreBlock(d: Detection, pieces: seq<bytes>, paddings: seq<bytes>, piece: bytes, padding: bytes)
    requires |paddings| == |pieces|
    ensures Blocks(d, pieces + [piece], paddings + [padding])
            == Blocks(d, pieces, paddings) + Block(Command(d, piece), piece, padding)
    ensures AllAllowed(d.isTLS, pieces, paddings) && Allowed(d.isTLS, piece, padding)
            ==> AllAllowed(d.isTLS, pieces + [piece], paddings + [padding])
  {
    assert (pieces + [piece])[..|pieces|] == pieces && (paddings + [padding])[..|pieces|] == paddings;
  }

  // The writer switches on what the detection has earned, and on nothing else.
  lemma SwitchNeedsFlags(d: Detection, b: bytes)
    requires Earned(d) && Switches(d, b)
    ensures d.isTLS12orAbove && Penetrable(d.cipher) && d.packets <= 0 && Ends(d, b)
  {
  }
}
