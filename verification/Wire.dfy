/** NapLink packets: type codes and the header that precedes every body (packet.h). */
module Wire {
  import opened Bytes

  // host to target
  const PACKET_RESET: u32 := 0x004d704e
  const PACKET_EXECPS2: u32 := 0x014d704e
  const PACKET_EXECIOP: u32 := 0x024d704e
  const PACKET_QUIT: u32 := 0x034d704e
  const PACKET_BENCHMARK: u32 := 0x044d704e

  // target to host
  const PACKET_OPEN: u32 := 0x104d704e
  const PACKET_CLOSE: u32 := 0x114d704e
  const PACKET_READ: u32 := 0x124d704e
  const PACKET_WRITE: u32 := 0x134d704e
  const PACKET_LSEEK: u32 := 0x144d704e
  const PACKET_WAZZUP: u32 := 0x154d704e

  // both directions
  const PACKET_RETURN: u32 := 0x204d704e

  const HEADER_SIZE: nat := 8

  datatype Packet = Packet(kind: u32, body: seq<byte>)

  /** `size` is an unsigned int, so a body of 2^32 bytes or more has no header. */
  predicate Fits(p: Packet) {
    |p.body| < 0x1_0000_0000
  }

  function Header(p: Packet): (h: seq<byte>)
    requires Fits(p)
    ensures |h| == HEADER_SIZE
  {
    PutLE32(|p.body|) + PutLE32(p.kind)
  }

  /** The bytes one packet puts on the pipe: header, then body if it is not empty. */
  function Encode(p: Packet): (b: seq<byte>)
    requires Fits(p)
    ensures |b| == HEADER_SIZE + |p.body|
  {
    Header(p) + p.body
  }

  function SizeField(h: seq<byte>): u32
    requires |h| == HEADER_SIZE
  {
    GetLE32(h)
  }

  function KindField(h: seq<byte>): u32
    requires |h| == HEADER_SIZE
  {
    GetLE32(h[4..])
  }

  lemma HeaderRoundTrip(p: Packet)
    requires Fits(p)
    ensures SizeField(Header(p)) == |p.body| && KindField(Header(p)) == p.kind
  {
    LE32RoundTrip(|p.body|, PutLE32(p.kind));
    LE32RoundTrip(p.kind, []);
    assert Header(p)[4..] == PutLE32(p.kind) + [];
  }
}
