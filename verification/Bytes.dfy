/** Byte strings and the C integer conversions the two wire formats rely on. */
module Bytes {

  type byte = x: int | 0 <= x < 0x100
  type u16 = x: int | 0 <= x < 0x1_0000
  type u32 = x: int | 0 <= x < 0x1_0000_0000
  type i32 = x: int | -0x8000_0000 <= x < 0x8000_0000

  /** Conversion to `unsigned int`: the value modulo 2^32. */
  function ToU32(x: int): u32 {
    x % 0x1_0000_0000
  }

  /** Conversion to `int`: two's complement reading of the low 32 bits. */
  function ToI32(x: int): i32 {
    var u := x % 0x1_0000_0000;
    if u < 0x8000_0000 then u else u - 0x1_0000_0000
  }

  lemma SignedUnsigned(x: i32)
    ensures ToI32(ToU32(x)) == x
  {
  }

  /** The four base-256 digits of a 32-bit number. */
  lemma Digits(x: u32)
    ensures x == x % 0x100 + x / 0x100 % 0x100 * 0x100 + x / 0x1_0000 % 0x100 * 0x1_0000 + x / 0x100_0000 * 0x100_0000
  {
    var q := x / 0x100;
    var r := x / 0x1_0000;
    assert r == q / 0x100;
    assert x / 0x100_0000 == r / 0x100;
    assert x == x % 0x100 + q * 0x100 && q == q % 0x100 + r * 0x100 && r == r % 0x100 + r / 0x100 * 0x100;
  }

  // Little endian: the in-memory layout of `packet_header_t` and `return_data_t` on the host.

  function PutLE32(x: u32): (b: seq<byte>)
    ensures |b| == 4
  {
    [x % 0x100, x / 0x100 % 0x100, x / 0x1_0000 % 0x100, x / 0x100_0000]
  }

  function GetLE32(b: seq<byte>): u32
    requires |b| >= 4
  {
    b[0] as int + b[1] as int * 0x100 + b[2] as int * 0x1_0000 + b[3] as int * 0x100_0000
  }

  lemma LE32RoundTrip(x: u32, tail: seq<byte>)
    ensures GetLE32(PutLE32(x) + tail) == x
  {
    var b := PutLE32(x) + tail;
    Digits(x);
    assert b[0] == x % 0x100 && b[1] == x / 0x100 % 0x100 && b[2] == x / 0x1_0000 % 0x100 && b[3] == x / 0x100_0000;
  }

  // Big endian: htonl / htons.

  function PutBE32(x: u32): (b: seq<byte>)
    ensures |b| == 4
  {
    [x / 0x100_0000, x / 0x1_0000 % 0x100, x / 0x100 % 0x100, x % 0x100]
  }

  function GetBE32(b: seq<byte>): u32
    requires |b| >= 4
  {
    b[3] as int + b[2] as int * 0x100 + b[1] as int * 0x1_0000 + b[0] as int * 0x100_0000
  }

  function PutBE16(x: u16): (b: seq<byte>)
    ensures |b| == 2
  {
    [x / 0x100, x % 0x100]
  }

  function GetBE16(b: seq<byte>): u16
    requires |b| >= 2
  {
    b[1] as int + b[0] as int * 0x100
  }

  lemma BE32RoundTrip(x: u32)
    ensures GetBE32(PutBE32(x)) == x
  {
    Digits(x);
  }

  lemma BE16RoundTrip(x: u16)
    ensures GetBE16(PutBE16(x)) == x
  {
  }
}
