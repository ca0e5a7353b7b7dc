// The five-byte record header of vless/encryption/common.go.
module Header {
  import opened Bytes

  const HEADER_LENGTH := 5
  const MIN_PACKET_LENGTH := 17
  const MAX_PACKET_LENGTH := 16384 + 256 // TLS 1.3 limit, section 5.2 of RFC 8446

  function EncodeHeader(length: int): (r: bytes)
    ensures |r| == HEADER_LENGTH
  {
    [23, 3, 3] + BE16(length)
  }

  // The length decodeHeader returns, with or without an error.
  function LengthOf(header: bytes): nat
    requires |header| == HEADER_LENGTH
  {
    (header[3] as int) * 256 + header[4]
  }

  // decodeHeader returns no error.
  predicate Accepted(header: bytes)
    requires |header| == HEADER_LENGTH
  {
    && header[..3] == [23, 3, 3]
    && MIN_PACKET_LENGTH <= LengthOf(header) <= MAX_PACKET_LENGTH
  }

  lemma HeaderRoundTrip(length: int)
    requires 0 <= length < 0x10000
    ensures LengthOf(EncodeHeader(length)) == length
    ensures Accepted(EncodeHeader(length)) <==> MIN_PACKET_LENGTH <= length <= MAX_PACKET_LENGTH
  {
    BE16RoundTrip(length);
    assert EncodeHeader(length)[..3] == [23, 3, 3];
  }
}
