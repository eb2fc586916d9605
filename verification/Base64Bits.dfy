/** The shifts and masks of Crow's base64 loops, on bytes as eight bits, and the
    arithmetic they amount to. */
module Base64Bits {
  /** The four digits of three bytes, as arithmetic. */
  function Digit0(a: int): int { a / 4 }
  function Digit1(a: int, b: int): int { a % 4 * 16 + b / 16 }
  function Digit2(b: int, c: int): int { b % 16 * 4 + c / 64 }
  function Digit3(c: int): int { c % 64 }

  /** The three bytes of four digits, as arithmetic. */
  function Byte0(x: int, y: int): int { x * 4 + y / 16 }
  function Byte1(y: int, z: int): int { y % 16 * 16 + z / 4 }
  function Byte2(z: int, u: int): int { z % 4 * 64 + u }

  // ----- An "or" of disjoint bits is a sum -----

  lemma OrSmall(u: bv8, v: bv8)
    requires u & 0x03 == 0 && v < 4
    ensures (u | v) as int == u as int + v as int
  {
    if v == 0 { assert u | 0 == u; }
    else if v == 1 { assert u | 1 == u + 1; }
    else if v == 2 { assert u | 2 == u + 2; }
    else { assert u | 3 == u + 3; }
  }

  lemma OrTop(u: bv8, v: bv8)
    requires u & 0x3F == 0 && v < 64
    ensures (u | v) as int == u as int + v as int
  {
    assert u == 0 || u == 64 || u == 128 || u == 192;
    if u == 0 { assert 0 | v == v; }
    else if u == 64 { assert 64 | v == 64 + v; }
    else if u == 128 { assert 128 | v == 128 + v; }
    else { assert 192 | v == 192 + v; }
  }

  lemma OrWide(u: bv8, v: bv8)
    requires u & 0x0F == 0 && v < 16
    ensures (u | v) as int == u as int + v as int
  {
    var t, w := u & 0xC0, u & 0x30;
    assert u == t | w && t & 0x3F == 0 && w < 64 && w & 0x0F == 0;
    OrTop(t, w);
    assert u | v == t | (w | v) && (w | v) < 64;
    OrTop(t, w | v);
    OrMid(w, v);
  }

  lemma OrMid(w: bv8, v: bv8)
    requires w & 0x0F == 0 && w < 64 && v < 16
    ensures (w | v) as int == w as int + v as int
  {
    assert w == 0 || w == 16 || w == 32 || w == 48;
    if w == 0 { assert 0 | v == v; }
    else if w == 16 { assert 16 | v == 16 + v; }
    else if w == 32 { assert 32 | v == 32 + v; }
    else { assert 48 | v == 48 + v; }
  }

  // ----- Shifts and masks are divisions and remainders -----

  lemma Top6(x: bv8)
    ensures ((x & 0xFC) >> 2) as int == (x as int) / 4
  {
  }

  lemma Low2(x: bv8)
    ensures ((x & 0x03) << 4) as int == (x as int) % 4 * 16
  {
  }

  lemma Top4(x: bv8)
    ensures ((x & 0xF0) >> 4) as int == (x as int) / 16
  {
  }

  lemma Low4(x: bv8)
    ensures ((x & 0x0F) << 2) as int == (x as int) % 16 * 4
  {
  }

  lemma Top2(x: bv8)
    ensures ((x & 0xC0) >> 6) as int == (x as int) / 64
  {
  }

  lemma Low6(x: bv8)
    ensures (x & 0x3F) as int == (x as int) % 64
  {
  }

  lemma Up2(x: bv8)
    requires x < 64
    ensures (x << 2) as int == (x as int) * 4
  {
  }

  lemma Mid2(x: bv8)
    requires x < 64
    ensures ((x & 0x30) >> 4) as int == (x as int) / 16
  {
  }

  lemma Up4(x: bv8)
    ensures ((x & 0x0F) << 4) as int == (x as int) % 16 * 16
  {
  }

  lemma Mid4(x: bv8)
    requires x < 64
    ensures ((x & 0x3C) >> 2) as int == (x as int) / 4
  {
  }

  lemma Up6(x: bv8)
    ensures ((x & 0x03) << 6) as int == (x as int) % 4 * 64
  {
  }

  // ----- The expressions of the two loops -----

  /** What the encoder picks out of three bytes. */
  lemma EncoderBits(a: bv8, b: bv8, c: bv8)
    ensures ((a & 0xFC) >> 2) as int == Digit0(a as int)
    ensures (((a & 0x03) << 4) | ((b & 0xF0) >> 4)) as int == Digit1(a as int, b as int)
    ensures (((b & 0x0F) << 2) | ((c & 0xC0) >> 6)) as int == Digit2(b as int, c as int)
    ensures (c & 0x3F) as int == Digit3(c as int)
    ensures ((a & 0x03) << 4) as int == Digit1(a as int, 0) && ((b & 0x0F) << 2) as int == Digit2(b as int, 0)
  {
    Top6(a);
    FirstJoin(a, b);
    SecondJoin(b, c);
    Low6(c);
    Low2(a);
    Low4(b);
  }

  lemma FirstJoin(a: bv8, b: bv8)
    ensures (((a & 0x03) << 4) | ((b & 0xF0) >> 4)) as int == Digit1(a as int, b as int)
  {
    Low2(a);
    Top4(b);
    OrWide((a & 0x03) << 4, (b & 0xF0) >> 4);
  }

  lemma SecondJoin(b: bv8, c: bv8)
    ensures (((b & 0x0F) << 2) | ((c & 0xC0) >> 6)) as int == Digit2(b as int, c as int)
  {
    Low4(b);
    Top2(c);
    OrSmall((b & 0x0F) << 2, (c & 0xC0) >> 6);
  }

  /** What the decoder puts together from four digits. */
  lemma DecoderBits(x: bv8, y: bv8, z: bv8, u: bv8)
    requires x < 64 && y < 64 && z < 64 && u < 64
    ensures ((x << 2) | ((y & 0x30) >> 4)) as int == Byte0(x as int, y as int)
    ensures (((y & 0x0F) << 4) | ((z & 0x3C) >> 2)) as int == Byte1(y as int, z as int)
    ensures (((z & 0x03) << 6) | u) as int == Byte2(z as int, u as int)
  {
    FirstByte(x, y);
    SecondByte(y, z);
    Up6(z);
    OrTop((z & 0x03) << 6, u);
  }

  lemma FirstByte(x: bv8, y: bv8)
    requires x < 64 && y < 64
    ensures ((x << 2) | ((y & 0x30) >> 4)) as int == Byte0(x as int, y as int)
  {
    Up2(x);
    Mid2(y);
    OrSmall(x << 2, (y & 0x30) >> 4);
  }

  lemma SecondByte(y: bv8, z: bv8)
    requires y < 64 && z < 64
    ensures (((y & 0x0F) << 4) | ((z & 0x3C) >> 2)) as int == Byte1(y as int, z as int)
  {
    Up4(y);
    Mid4(z);
    OrWide((y & 0x0F) << 4, (z & 0x3C) >> 2);
  }
}
