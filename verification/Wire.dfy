/** Little-endian integers and the records the C code copies to and from sockets. */
module Wire {
  type byte = x: int | 0 <= x < 256

  function Pow256(n: nat): (r: nat)
    ensures r > 0
  {
    if n == 0 then 1 else 256 * Pow256(n - 1)
  }

  const U16_BOUND: nat := 0x1_0000
  const U32_BOUND: nat := 0x1_0000_0000

  type u16 = x: int | 0 <= x < U16_BOUND
  type u32 = x: int | 0 <= x < U32_BOUND
  type i32 = x: int | -0x8000_0000 <= x < 0x8000_0000

  /** The low `n` bytes of `x`, least significant first. */
  function Encode(x: nat, n: nat): (s: seq<byte>)
    ensures |s| == n
  {
    if n == 0 then [] else [x % 256] + Encode(x / 256, n - 1)
  }

  function Decode(s: seq<byte>): (x: nat)
    ensures x < Pow256(|s|)
  {
    if s == [] then 0 else s[0] + 256 * Decode(s[1..])
  }

  lemma {:induction false} DecodeEncode(x: nat, n: nat)
    requires x < Pow256(n)
    ensures Decode(Encode(x, n)) == x
  {
    if n > 0 {
      DecodeEncode(x / 256, n - 1);
      assert Encode(x, n)[1..] == Encode(x / 256, n - 1);
    }
  }

  lemma {:induction false} EncodeDecode(s: seq<byte>)
    ensures Encode(Decode(s), |s|) == s
  {
    if s != [] {
      EncodeDecode(s[1..]);
      LowByte(s[0], Decode(s[1..]));
      assert s == [s[0]] + s[1..];
    }
  }

  lemma LowByte(b: byte, rest: nat)
    ensures (b + 256 * rest) % 256 == b && (b + 256 * rest) / 256 == rest
  {
  }

  lemma Bounds()
    ensures Pow256(2) == U16_BOUND && Pow256(4) == U32_BOUND
  {
    assert Pow256(1) == 256;
    assert Pow256(2) == 256 * Pow256(1);
    assert Pow256(3) == 256 * Pow256(2);
  }

  function U16(x: u16): (s: seq<byte>)
    ensures |s| == 2 && GetU16(s) == x
  {
    Bounds();
    DecodeEncode(x, 2);
    Encode(x, 2)
  }

  function GetU16(s: seq<byte>): u16
    requires |s| == 2
  {
    Bounds();
    Decode(s)
  }

  function U32(x: u32): (s: seq<byte>)
    ensures |s| == 4 && GetU32(s) == x
  {
    Bounds();
    DecodeEncode(x, 4);
    Encode(x, 4)
  }

  function GetU32(s: seq<byte>): u32
    requires |s| == 4
  {
    Bounds();
    Decode(s)
  }

  /** Two's complement. */
  function I32(x: i32): (s: seq<byte>)
    ensures |s| == 4 && GetI32(s) == x
  {
    U32(if x < 0 then x + U32_BOUND else x)
  }

  function GetI32(s: seq<byte>): (x: i32)
    requires |s| == 4
  {
    var u := GetU32(s);
    if u < 0x8000_0000 then u else u - U32_BOUND
  }

  /** Reading four bytes and writing them back changes nothing. */
  lemma WordsFaithful(s: seq<byte>)
    requires |s| == 4
    ensures U32(GetU32(s)) == s && I32(GetI32(s)) == s
  {
    EncodeDecode(s);
  }

  lemma HalfWordsFaithful(s: seq<byte>)
    requires |s| == 2
    ensures U16(GetU16(s)) == s
  {
    EncodeDecode(s);
  }

  // ---- The bytes themselves ----

  lemma TwoBytes(x: u16)
    ensures U16(x) == [x % 256, x / 256]
  {
    assert Encode(x / 256, 1) == [x / 256 % 256] + Encode(x / 256 / 256, 0);
  }

  /** Least significant byte first. */
  lemma FourBytes(x: u32)
    ensures U32(x) == [x % 256, x / 256 % 256, x / 65536 % 256, x / 16777216]
  {
    Quotients(x);
    var d := x / 16777216;
    assert Encode(d, 1) == [d % 256] + Encode(d / 256, 0);
    assert Encode(x / 65536, 2) == [x / 65536 % 256] + Encode(d, 1);
    assert Encode(x / 256, 3) == [x / 256 % 256] + Encode(x / 65536, 2);
  }

  lemma Quotients(x: u32)
    ensures x / 256 / 256 == x / 65536 && x / 65536 / 256 == x / 16777216 < 256
  {
  }

  /** Each byte weighs 256 times the one before it; the upper half of the range is negative. */
  lemma FourBytesValue(s: seq<byte>)
    requires |s| == 4
    ensures var u := s[0] as int + 256 * s[1] as int + 65536 * s[2] as int + 16777216 * s[3] as int;
            GetU32(s) == u && GetI32(s) == if u < 0x8000_0000 then u else u - 4294967296
  {
    assert s[1..][1..] == s[2..] && s[2..][1..] == s[3..] && s[3..][1..] == [];
    assert Decode(s[3..]) == s[3];
    assert Decode(s[2..]) == s[2] + 256 * Decode(s[3..]);
    assert Decode(s[1..]) == s[1] + 256 * Decode(s[2..]);
  }
}
