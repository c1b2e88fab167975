/** Integers on the X11 wire, in the byte order the client asked for (x11bridge/x11_proto.c). */
module Bytes {
  type byte = x: int | 0 <= x < 256

  /** 0x42 is most significant byte first; the code treats every other value as least significant first. */
  const MSB_FIRST: byte := 0x42

  type U16 = x: int | 0 <= x < 0x1_0000

  type U32 = x: int | 0 <= x < 0x1_0000_0000

  function GetU16(p: seq<byte>, order: byte): U16
    requires |p| >= 2
  {
    var a: int, b: int := p[0], p[1];
    if order == MSB_FIRST then a * 0x100 + b else a + b * 0x100
  }

  function GetU32(p: seq<byte>, order: byte): U32
    requires |p| >= 4
  {
    var a: int, b: int, c: int, d: int := p[0], p[1], p[2], p[3];
    if order == MSB_FIRST then a * 0x100_0000 + b * 0x1_0000 + c * 0x100 + d
    else a + b * 0x100 + c * 0x1_0000 + d * 0x100_0000
  }

  function PutU16(v: U16, order: byte): (p: seq<byte>)
    ensures |p| == 2
  {
    if order == MSB_FIRST then [v / 0x100, v % 0x100] else [v % 0x100, v / 0x100]
  }

  function PutU32(v: U32, order: byte): (p: seq<byte>)
    ensures |p| == 4
  {
    var b3, b2, b1, b0 := v / 0x100_0000, v / 0x1_0000 % 0x100, v / 0x100 % 0x100, v % 0x100;
    if order == MSB_FIRST then [b3, b2, b1, b0] else [b0, b1, b2, b3]
  }

  /** The least multiple of four that is at least n. */
  function Pad4(n: nat): (r: nat)
    ensures r % 4 == 0 && n <= r < n + 4
  {
    (n + 3) / 4 * 4
  }

  /** 16 bits on the wire: the first byte weighs 256 in the one order and 1 in the other. */
  lemma U16OnTheWire(p: seq<byte>, order: byte)
    requires |p| >= 2
    ensures var a: int, b: int := p[0], p[1];
            GetU16(p, order) == if order == 0x42 then a * 256 + b else a + b * 256
  {
  }

  lemma U32OnTheWire(p: seq<byte>, order: byte)
    requires |p| >= 4
    ensures var a: int, b: int, c: int, d: int := p[0], p[1], p[2], p[3];
            GetU32(p, order) ==
            if order == 0x42 then ((a * 256 + b) * 256 + c) * 256 + d else a + 256 * (b + 256 * (c + 256 * d))
  {
  }

  lemma RoundTrip16(v: U16, order: byte)
    ensures GetU16(PutU16(v, order), order) == v
  {
  }

  lemma RoundTrip32(v: U32, order: byte)
    ensures GetU32(PutU32(v, order), order) == v
  {
    Digits32(v);
  }

  /** The four bytes of v, by their weights. */
  lemma Digits32(v: U32)
    ensures v == v / 0x100_0000 * 0x100_0000 + v / 0x1_0000 % 0x100 * 0x1_0000 + v / 0x100 % 0x100 * 0x100 + v % 0x100
  {
    Digits24(v / 0x100);
    assert v / 0x100 / 0x100 == v / 0x1_0000;
    assert v / 0x100 / 0x1_0000 == v / 0x100_0000;
  }

  lemma Digits24(q: nat)
    ensures q == q / 0x1_0000 * 0x1_0000 + q / 0x100 % 0x100 * 0x100 + q % 0x100
  {
    assert q / 0x100 / 0x100 == q / 0x1_0000;
  }
}
