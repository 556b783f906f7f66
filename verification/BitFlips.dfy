/** Exclusive or with all ones, on 32-bit vectors, is subtraction from all ones. The proof goes
    byte by byte: no step mixes integers with a vector of more than eight unknown bits.
 */
module BitFlips {
  function Value8(b: bv8): int { b as int }

  function Value16(b: bv16): int { b as int }

  function Value32(b: bv32): int { b as int }

  function Flip8(b: bv8): bv8 { b ^ 0xFF }

  function Flip16(b: bv16): bv16 { b ^ 0xFFFF }

  function Flip32(b: bv32): bv32 { b ^ 0xFFFF_FFFF }

  function Low8(x: nat): bv8
    requires x < 256
  {
    x as bv8
  }

  function Low32(x: nat): bv32
    requires x < 0x1_0000_0000
  {
    x as bv32
  }

  function Join16(h: bv8, l: bv8): bv16
  {
    ((h as bv16) << 8) | (l as bv16)
  }

  function Join32(h: bv16, l: bv16): bv32
  {
    ((h as bv32) << 16) | (l as bv32)
  }

  function Join(a: bv8, b: bv8, c: bv8, d: bv8): bv32
  {
    Join32(Join16(a, b), Join16(c, d))
  }

  lemma FlippedByte(b: bv8)
    ensures Value8(Flip8(b)) == 255 - Value8(b)
  {
  }

  lemma Joined16(h: bv8, l: bv8)
    ensures Value16(Join16(h, l)) == 256 * Value8(h) + Value8(l)
    ensures Flip16(Join16(h, l)) == Join16(Flip8(h), Flip8(l))
  {
  }

  lemma Joined32(h: bv16, l: bv16)
    ensures Value32(Join32(h, l)) == 65536 * Value16(h) + Value16(l)
    ensures Flip32(Join32(h, l)) == Join32(Flip16(h), Flip16(l))
  {
  }

  lemma FlippedHalfWord(h: bv8, l: bv8)
    ensures Value16(Flip16(Join16(h, l))) == 65535 - Value16(Join16(h, l))
  {
    hide *;
    Joined16(h, l);
    Joined16(Flip8(h), Flip8(l));
    FlippedByte(h);
    FlippedByte(l);
  }

  lemma FlippedWord(a: bv8, b: bv8, c: bv8, d: bv8)
    ensures Value32(Join(a, b, c, d)) == 16777216 * Value8(a) + 65536 * Value8(b) + 256 * Value8(c) + Value8(d)
    ensures Value32(Flip32(Join(a, b, c, d))) == 0xFFFF_FFFF - Value32(Join(a, b, c, d))
  {
    hide Join16, Join32, Value8, Value16, Value32, Flip8, Flip16, Flip32;
    var h, l := Join16(a, b), Join16(c, d);
    Joined16(a, b);
    Joined16(c, d);
    FlippedHalfWord(a, b);
    FlippedHalfWord(c, d);
    Joined32(h, l);
    Joined32(Flip16(h), Flip16(l));
  }

  lemma FromByte(x: nat)
    requires x < 256
    ensures Value8(Low8(x)) == x
  {
    assert x % 256 == x;
  }

  lemma FromWord(b: bv32)
    ensures 0 <= Value32(b) < 0x1_0000_0000 && Low32(Value32(b)) == b
  {
  }

  lemma FourDigits(x: nat) returns (a: nat, b: nat, c: nat, d: nat)
    requires x < 0x1_0000_0000
    ensures a < 256 && b < 256 && c < 256 && d < 256
    ensures x == 16777216 * a + 65536 * b + 256 * c + d
  {
    var y, z := x / 256, x / 65536;
    Quotients(x);
    return z / 256, z % 256, y % 256, x % 256;
  }

  lemma Quotients(x: nat)
    requires x < 0x1_0000_0000
    ensures x / 256 / 256 == x / 65536 && x / 65536 / 256 < 256
  {
  }

  lemma FlippedVector(v: bv32)
    ensures Value32(Flip32(v)) == 0xFFFF_FFFF - Value32(v)
  {
    hide *;
    FromWord(v);
    var a, b, c, d := FourDigits(Value32(v));
    FromByte(a);
    FromByte(b);
    FromByte(c);
    FromByte(d);
    FlippedWord(Low8(a), Low8(b), Low8(c), Low8(d));
    FromWord(Join(Low8(a), Low8(b), Low8(c), Low8(d)));
  }

  /** Every 32-bit number is the value of its vector. */
  lemma FromNumber(x: nat)
    requires x < 0x1_0000_0000
    ensures Value32(Low32(x)) == x
  {
    assert x % 0x1_0000_0000 == x;
  }

  lemma FlippedNumber(x: nat)
    requires x < 0x1_0000_0000
    ensures Value32(Flip32(Low32(x))) == 0xFFFF_FFFF - x
  {
    hide *;
    FromNumber(x);
    FlippedVector(Low32(x));
  }
}
