/** Crow's base64 encoder and decoder, against sections 4 and 5 of RFC 4648. */
module Base64 {
  import opened Bytes
  import opened Base64Bits

  const UPPER := "ABCDEFGHIJKLMNOPQRSTUVWXYZ"
  const LOWER := "abcdefghijklmnopqrstuvwxyz"
  const NUMERALS := "0123456789"
  const STANDARD := UPPER + LOWER + NUMERALS + "+/"
  const URLSAFE := UPPER + LOWER + NUMERALS + "-_"

  type Sextet = n: int | 0 <= n < 64

  // ----- RFC 4648: digits in base 64 -----

  /** `n` in `k` base-64 digits, most significant first. */
  function Digits(n: nat, k: nat): (d: seq<Sextet>)
    ensures |d| == k
  {
    if k == 0 then [] else Digits(n / 64, k - 1) + [n % 64]
  }

  function Number(d: seq<Sextet>): nat {
    if d == [] then 0 else 64 * Number(d[..|d| - 1]) + d[|d| - 1]
  }

  function Letters(d: seq<Sextet>, key: string): (t: string)
    requires |key| == 64
    ensures |t| == |d|
  {
    seq(|d|, i requires 0 <= i < |d| => key[d[i]])
  }

  /** Characters of an encoding, padded and not. */
  function EncodedLength(n: nat): nat {
    if n == 0 then 0 else if n < 3 then 4 else EncodedLength(n - 3) + 4
  }

  function Needed(n: nat): nat {
    if n == 0 then 0 else if n < 3 then n + 1 else Needed(n - 3) + 4
  }

  function PadLength(n: nat): (k: nat)
    ensures k + Needed(n) == EncodedLength(n)
  {
    if n == 0 then 0 else if n < 3 then 3 - n else PadLength(n - 3)
  }

  lemma LengthsAre(n: nat)
    ensures EncodedLength(n) == (n + 2) / 3 * 4
    ensures Needed(n) == n / 3 * 4 + if n % 3 == 0 then 0 else n % 3 + 1
    ensures PadLength(n) == if n % 3 == 0 then 0 else 3 - n % 3
  {
    if n >= 3 {
      LengthsAre(n - 3);
      assert n / 3 == (n - 3) / 3 + 1 && n % 3 == (n - 3) % 3;
      assert (n + 2) / 3 == (n - 3 + 2) / 3 + 1;
    }
  }

  /** Three bytes are four digits; a last group is filled up with zero bits. */
  function Encode(data: seq<Byte>, key: string): (t: string)
    requires |key| == 64
    ensures |t| == EncodedLength(|data|)
  {
    if |data| == 0 then ""
    else if |data| == 1 then Letters(Digits(FromBe(data) * 16, 2), key) + "=="
    else if |data| == 2 then Letters(Digits(FromBe(data) * 4, 3), key) + "="
    else Letters(Digits(FromBe(data[..3]), 4), key) + Encode(data[3..], key)
  }

  /** The same without the padding. */
  function EncodeUnpadded(data: seq<Byte>, key: string): (t: string)
    requires |key| == 64
    ensures |t| == Needed(|data|)
  {
    assert PadLength(|data|) + Needed(|data|) == EncodedLength(|data|);
    Encode(data, key)[..Needed(|data|)]
  }

  /** The digit a character stands for, in either alphabet; 0 for any other character. */
  function Value(c: char): Sextet {
    if 'A' <= c <= 'Z' then c as int - 'A' as int
    else if 'a' <= c <= 'z' then c as int - 'a' as int + 26
    else if '0' <= c <= '9' then c as int - '0' as int + 52
    else if c == '+' || c == '-' then 62
    else if c == '/' || c == '_' then 63
    else 0
  }

  function Values(t: string): (d: seq<Sextet>)
    ensures |d| == |t|
  {
    seq(|t|, i requires 0 <= i < |t| => Value(t[i]))
  }

  /** How many bytes a text stands for, by its length and padding. */
  function DecodedSize(t: string): (n: nat)
    requires |t| >= 2
    ensures Needed(n) <= |t|
  {
    LengthsAre(|t| / 4 * 3);
    LengthsAre(|t| / 4 * 3 + 1);
    LengthsAre(|t| / 4 * 3 + 2);
    if |t| % 4 == 2 then |t| / 4 * 3 + 1
    else if |t| % 4 == 3 then |t| / 4 * 3 + 2
    else if t[|t| - 2] == '=' then |t| / 4 * 3 - 2
    else if t[|t| - 1] == '=' then |t| / 4 * 3 - 1
    else |t| / 4 * 3
  }

  /** The first `n` bytes written in a text. */
  function DecodeBytes(t: string, n: nat): (data: seq<Byte>)
    requires Needed(n) <= |t|
    ensures |data| == n
    decreases n
  {
    if n == 0 then []
    else if n == 1 then BeBytes(Number(Values(t[..2])) / 16, 1)
    else if n == 2 then BeBytes(Number(Values(t[..3])) / 4, 2)
    else BeBytes(Number(Values(t[..4])), 3) + DecodeBytes(t[4..], n - 3)
  }

  function Decode(t: string): (data: seq<Byte>)
    requires |t| >= 2
  {
    DecodeBytes(t, DecodedSize(t))
  }

  // ----- The implementation -----

  lemma DigitStep(high: nat, low: Sextet, k: nat)
    ensures Digits(64 * high + low, k + 1) == Digits(high, k) + [low]
  {
  }

  lemma FromBeUnfold(a: Byte, b: Byte, c: Byte)
    ensures FromBe([a]) == a
    ensures FromBe([a, b]) == 256 * FromBe([a]) + b
    ensures FromBe([a, b, c]) == 256 * FromBe([a, b]) + c
  {
    assert [a, b, c][..2] == [a, b] && [a, b][..1] == [a] && [a][..0] == [];
  }

  lemma DigitsInRange(a: Byte, b: Byte, c: Byte)
    ensures 0 <= Digit0(a) < 64 && 0 <= Digit1(a, b) < 64 && 0 <= Digit2(b, c) < 64 && 0 <= Digit3(c) < 64
    ensures 65536 * a + 256 * b + c == 64 * (64 * (64 * Digit0(a) + Digit1(a, b)) + Digit2(b, c)) + Digit3(c)
    ensures c == 0 ==> 4 * (256 * a + b) == 64 * (64 * Digit0(a) + Digit1(a, b)) + Digit2(b, c)
    ensures b == 0 ==> 16 * a == 64 * Digit0(a) + Digit1(a, b)
  {
    var a0, a1 := Split(a, 4);
    var b0, b1 := Split(b, 16);
    var c0, c1 := Split(c, 64);
  }

  lemma Split(x: Byte, m: int) returns (q: int, r: int)
    requires m == 4 || m == 16 || m == 64
    ensures q == x / m && r == x % m && x == q * m + r
    ensures 0 <= q && 0 <= r < m && q * m < 256
  {
    q, r := x / m, x % m;
  }

  lemma ShiftsAreDigits(a: Byte, b: Byte, c: Byte)
    ensures 0 <= Digit0(a) < 64 && 0 <= Digit1(a, b) < 64 && 0 <= Digit2(b, c) < 64 && 0 <= Digit3(c) < 64
    ensures Digits(FromBe([a, b, c]), 4) == [Digit0(a), Digit1(a, b), Digit2(b, c), Digit3(c)]
    ensures b == 0 ==> Digits(FromBe([a]) * 16, 2) == [Digit0(a), Digit1(a, b)]
    ensures c == 0 ==> Digits(FromBe([a, b]) * 4, 3) == [Digit0(a), Digit1(a, b), Digit2(b, c)]
  {
    hide Digits, FromBe, Digit0, Digit1, Digit2, Digit3;
    FromBeUnfold(a, b, c);
    DigitsInRange(a, b, c);
    var d0, d1, d2, d3 := Digit0(a), Digit1(a, b), Digit2(b, c), Digit3(c);
    assert Digits(0, 0) == [];
    DigitStep(0, d0, 0);
    DigitStep(d0, d1, 1);
    DigitStep(64 * d0 + d1, d2, 2);
    DigitStep(64 * (64 * d0 + d1) + d2, d3, 3);
  }

  lemma ByteStep(high: nat, low: Byte, k: nat)
    ensures BeBytes(256 * high + low, k + 1) == BeBytes(high, k) + [low]
  {
  }

  lemma NumberUnfold(x: Sextet, y: Sextet, z: Sextet, u: Sextet)
    ensures Number([x]) == x
    ensures Number([x, y]) == 64 * Number([x]) + y
    ensures Number([x, y, z]) == 64 * Number([x, y]) + z
    ensures Number([x, y, z, u]) == 64 * Number([x, y, z]) + u
  {
    assert [x, y, z, u][..3] == [x, y, z] && [x, y, z][..2] == [x, y] && [x, y][..1] == [x] && [x][..0] == [];
  }

  lemma BytesInRange(x: Sextet, y: Sextet, z: Sextet, u: Sextet)
    ensures 0 <= Byte0(x, y) < 256 && 0 <= Byte1(y, z) < 256 && 0 <= Byte2(z, u) < 256
    ensures (64 * x + y) / 16 == Byte0(x, y)
    ensures (4096 * x + 64 * y + z) / 4 == 256 * Byte0(x, y) + Byte1(y, z)
    ensures 262144 * x + 4096 * y + 64 * z + u == 256 * (256 * Byte0(x, y) + Byte1(y, z)) + Byte2(z, u)
  {
  }

  lemma ShiftsAreBytes(x: Sextet, y: Sextet, z: Sextet, u: Sextet)
    ensures 0 <= Byte0(x, y) < 256 && 0 <= Byte1(y, z) < 256 && 0 <= Byte2(z, u) < 256
    ensures BeBytes(Number([x, y]) / 16, 1) == [Byte0(x, y)]
    ensures BeBytes(Number([x, y, z]) / 4, 2) == [Byte0(x, y), Byte1(y, z)]
    ensures BeBytes(Number([x, y, z, u]), 3) == [Byte0(x, y), Byte1(y, z), Byte2(z, u)]
  {
    hide Number, BeBytes, Byte0, Byte1, Byte2;
    NumberUnfold(x, y, z, u);
    BytesInRange(x, y, z, u);
    var b0, b1, b2 := Byte0(x, y), Byte1(y, z), Byte2(z, u);
    assert BeBytes(0, 0) == [];
    ByteStep(0, b0, 0);
    ByteStep(b0, b1, 1);
    ByteStep(256 * b0 + b1, b2, 2);
  }

  lemma FourLetters(d: seq<Sextet>, key: string)
    requires |key| == 64
    ensures |d| == 2 ==> Letters(d, key) == [key[d[0]], key[d[1]]]
    ensures |d| == 3 ==> Letters(d, key) == [key[d[0]], key[d[1]], key[d[2]]]
    ensures |d| == 4 ==> Letters(d, key) == [key[d[0]], key[d[1]], key[d[2]], key[d[3]]]
  {
  }

  /** One group of an encoding, in terms of the shifts and masks. */
  lemma EncodeGroup(rest: seq<Byte>, key: string)
    requires |key| == 64 && rest != []
    ensures
      var a, b, c := rest[0], (if |rest| > 1 then rest[1] else 0), (if |rest| > 2 then rest[2] else 0);
      && 0 <= Digit0(a) < 64 && 0 <= Digit1(a, b) < 64 && 0 <= Digit2(b, c) < 64 && 0 <= Digit3(c) < 64
      && (|rest| == 1 ==> Encode(rest, key) == [key[Digit0(a)], key[Digit1(a, b)], '=', '='])
      && (|rest| == 2 ==> Encode(rest, key) == [key[Digit0(a)], key[Digit1(a, b)], key[Digit2(b, c)], '='])
      && (|rest| >= 3 ==>
            var group := [key[Digit0(a)], key[Digit1(a, b)], key[Digit2(b, c)], key[Digit3(c)]];
            Encode(rest, key) == group + Encode(rest[3..], key))
  {
    hide Digits, FromBe, Digit0, Digit1, Digit2, Digit3, Letters;
    var a, b, c := rest[0], if |rest| > 1 then rest[1] else 0, if |rest| > 2 then rest[2] else 0;
    ShiftsAreDigits(a, b, c);
    if |rest| == 1 {
      assert rest == [a];
      FourLetters(Digits(FromBe(rest) * 16, 2), key);
    } else if |rest| == 2 {
      assert rest == [a, b];
      FourLetters(Digits(FromBe(rest) * 4, 3), key);
    } else {
      assert rest[..3] == [a, b, c];
      FourLetters(Digits(FromBe(rest[..3]), 4), key);
    }
  }

  /** Four characters through the output iterator. */
  method WriteFour(buffer: array<char>, it: nat, c0: char, c1: char, c2: char, c3: char)
    requires it + 4 <= buffer.Length
    modifies buffer
    ensures buffer[..it + 4] == old(buffer[..it]) + [c0, c1, c2, c3]
  {
    buffer[it] := c0;
    buffer[it + 1] := c1;
    buffer[it + 2] := c2;
    buffer[it + 3] := c3;
  }

  /** `base64encode`; the URL-safe form passes the other key. */
  method Base64Encode(data: seq<Byte>, key: string) returns (ret: string)
    requires |key| == 64
    ensures ret == Encode(data, key)
  {
    hide Encode, Digit0, Digit1, Digit2, Digit3;
    var length := (|data| + 2) / 3 * 4;
    assert length == EncodedLength(|data|) by { LengthsAre(|data|); }
    var buffer := new char[length](_ => '\0');
    var it, p, size := 0, 0, |data|;
    assert data[0..] == data;
    while size >= 3
      invariant 0 <= it && 0 <= p && 0 <= size && p + size == |data|
      invariant it + EncodedLength(size) == buffer.Length
      invariant buffer[..it] + Encode(data[p..], key) == Encode(data, key)
    {
      var a, b, c := data[p], data[p + 1], data[p + 2];
      EncodeGroup(data[p..], key);
      assert data[p..][3..] == data[p + 3..];
      ghost var before := buffer[..it];
      WriteFour(buffer, it, key[Digit0(a)], key[Digit1(a, b)], key[Digit2(b, c)], key[Digit3(c)]);
      assert buffer[..it + 4] + Encode(data[p + 3..], key) == before + Encode(data[p..], key);
      it, p, size := it + 4, p + 3, size - 3;
    }
    EncodeRest(buffer, it, data[p..], key);
    ret := buffer[..];
  }

  /** The last one or two bytes, with their padding. */
  method EncodeRest(buffer: array<char>, it: nat, rest: seq<Byte>, key: string)
    requires |key| == 64 && |rest| < 3 && it + EncodedLength(|rest|) == buffer.Length
    modifies buffer
    ensures buffer[..] == old(buffer[..it]) + Encode(rest, key)
  {
    hide Encode, Digit0, Digit1, Digit2, Digit3;
    if |rest| == 1 {
      EncodeGroup(rest, key);
      WriteFour(buffer, it, key[Digit0(rest[0])], key[Digit1(rest[0], 0)], '=', '=');
      assert buffer[..it + 4] == buffer[..];
    } else if |rest| == 2 {
      EncodeGroup(rest, key);
      WriteFour(buffer, it, key[Digit0(rest[0])], key[Digit1(rest[0], rest[1])], key[Digit2(rest[1], 0)], '=');
      assert buffer[..it + 4] == buffer[..];
    } else {
      EncodeNothing(key);
      assert buffer[..it] == buffer[..];
    }
  }

  lemma EncodeNothing(key: string)
    requires |key| == 64
    ensures Encode([], key) == ""
  {
  }

  /** `base64decode`. It looks at the last two characters, so there must be two. */
  method Base64Decode(data: string) returns (ret: seq<Byte>)
    requires |data| >= 2
    ensures ret == Decode(data)
  {
    var size := |data|;
    if size % 4 == 2 {
      size := size / 4 * 3 + 1;
    } else if size % 4 == 3 {
      size := size / 4 * 3 + 2;
    } else if data[size - 2] == '=' {
      size := size / 4 * 3 - 2;
    } else if data[size - 1] == '=' {
      size := size / 4 * 3 - 1;
    } else {
      size := size / 4 * 3;
    }
    assert size == DecodedSize(data);
    ret := DecodeLoop(data, size);
  }

  /** The loop of `base64decode` over groups of four characters, and its last group. */
  method DecodeLoop(data: string, total: nat) returns (ret: seq<Byte>)
    requires Needed(total) <= |data|
    ensures ret == DecodeBytes(data, total)
  {
    hide DecodeBytes, Value, Byte0, Byte1, Byte2;
    var buffer := new Byte[total](_ => 0);
    var it, p, size := 0, 0, total;
    assert data[0..] == data;
    while size >= 3
      invariant 0 <= it && 0 <= p && 0 <= size && it + size == total
      invariant p + Needed(size) <= |data|
      invariant buffer[..it] + DecodeBytes(data[p..], size) == DecodeBytes(data, total)
    {
      DecodeGroup(data, p, size);
      var odd, even := Value(data[p]), Value(data[p + 1]);
      var b0 := Byte0(odd, even);
      odd := Value(data[p + 2]);
      var b1 := Byte1(even, odd);
      even := Value(data[p + 3]);
      var b2 := Byte2(odd, even);
      ghost var before := buffer[..it];
      WriteThree(buffer, it, b0, b1, b2);
      assert before + ([b0, b1, b2] + DecodeBytes(data[p + 4..], size - 3)) == buffer[..it + 3] + DecodeBytes(data[p + 4..], size - 3);
      it, p, size := it + 3, p + 4, size - 3;
    }
    DecodeRest(buffer, it, data[p..], size);
    ret := buffer[..];
  }

  /** Three bytes through the output iterator. */
  method WriteThree(buffer: array<Byte>, it: nat, b0: Byte, b1: Byte, b2: Byte)
    requires it + 3 <= buffer.Length
    modifies buffer
    ensures buffer[..it + 3] == old(buffer[..it]) + [b0, b1, b2]
  {
    buffer[it] := b0;
    buffer[it + 1] := b1;
    buffer[it + 2] := b2;
  }

  /** One group of four characters, in terms of the shifts and masks. */
  lemma DecodeGroup(data: string, p: nat, size: nat)
    requires size >= 3 && p + Needed(size) <= |data|
    ensures p + 4 + Needed(size - 3) <= |data|
    ensures
      var x, y, z, u := Value(data[p]), Value(data[p + 1]), Value(data[p + 2]), Value(data[p + 3]);
      && 0 <= Byte0(x, y) < 256 && 0 <= Byte1(y, z) < 256 && 0 <= Byte2(z, u) < 256
      && DecodeBytes(data[p..], size) == [Byte0(x, y), Byte1(y, z), Byte2(z, u)] + DecodeBytes(data[p + 4..], size - 3)
  {
    hide Number, BeBytes, Value, Byte0, Byte1, Byte2;
    var x, y, z, u := Value(data[p]), Value(data[p + 1]), Value(data[p + 2]), Value(data[p + 3]);
    ShiftsAreBytes(x, y, z, u);
    assert Values(data[p..][..4]) == [x, y, z, u];
    assert data[p..][4..] == data[p + 4..];
  }

  /** The last one or two bytes. */
  method DecodeRest(buffer: array<Byte>, it: nat, rest: string, size: nat)
    requires size < 3 && it + size == buffer.Length && Needed(size) <= |rest|
    modifies buffer
    ensures buffer[..] == old(buffer[..it]) + DecodeBytes(rest, size)
  {
    hide Number, BeBytes, Value, Byte0, Byte1, Byte2;
    if size == 2 {
      var odd, even := Value(rest[0]), Value(rest[1]);
      ShiftsAreBytes(odd, even, Value(rest[2]), 0);
      assert Values(rest[..3]) == [odd, even, Value(rest[2])];
      buffer[it] := Byte0(odd, even);
      odd := Value(rest[2]);
      buffer[it + 1] := Byte1(even, odd);
    } else if size == 1 {
      var odd, even := Value(rest[0]), Value(rest[1]);
      ShiftsAreBytes(odd, even, 0, 0);
      assert Values(rest[..2]) == [odd, even];
      buffer[it] := Byte0(odd, even);
    }
  }

  // ----- Decoding inverts encoding -----

  lemma UpperRun(i: nat)
    ensures |UPPER| == 26 && (i < 26 ==> UPPER[i] as int == 'A' as int + i)
  {
  }

  lemma LowerRun(i: nat)
    ensures |LOWER| == 26 && (i < 26 ==> LOWER[i] as int == 'a' as int + i)
  {
  }

  lemma NumeralRun(i: nat)
    ensures |NUMERALS| == 10 && (i < 10 ==> NUMERALS[i] as int == '0' as int + i)
  {
  }

  lemma KeyDecodes(v: Sextet, last: string)
    requires last == "+/" || last == "-_"
    ensures
      var key := UPPER + LOWER + NUMERALS + last;
      |key| == 64 && Value(key[v]) == v && key[v] != '='
  {
    hide UPPER, LOWER, NUMERALS;
    UpperRun(v);
    LowerRun(if v < 26 then 0 else v - 26);
    NumeralRun(if v < 52 then 0 else v - 52);
  }

  /** Tables 1 and 2 of RFC 4648: the two alphabets differ in their last two letters. */
  lemma Alphabets(v: Sextet)
    ensures |STANDARD| == |URLSAFE| == 64
    ensures v < 26 ==> STANDARD[v] == URLSAFE[v] == ('A' as int + v) as char
    ensures 26 <= v < 52 ==> STANDARD[v] == URLSAFE[v] == ('a' as int + v - 26) as char
    ensures 52 <= v < 62 ==> STANDARD[v] == URLSAFE[v] == ('0' as int + v - 52) as char
    ensures STANDARD[62] == '+' && STANDARD[63] == '/' && URLSAFE[62] == '-' && URLSAFE[63] == '_'
  {
    UpperRun(v);
    LowerRun(if v >= 26 then v - 26 else 0);
    NumeralRun(if v >= 52 then v - 52 else 0);
    hide UPPER, LOWER, NUMERALS;
  }

  /** A character of neither alphabet counts as the digit 0. */
  lemma OtherCharacters(c: char)
    requires c !in STANDARD && c !in URLSAFE
    ensures Value(c) == 0
  {
    KeysDecode();
    hide STANDARD, URLSAFE;
    Alphabets(Value(c));
    Alphabets(62);
    Alphabets(63);
  }

  /** Section 10 of RFC 4648, from "f" to "foo", and two bytes on which the alphabets differ. */
  lemma Vectors()
    ensures Encode([102], STANDARD) == "Zg==" && Encode([102, 111], STANDARD) == "Zm8="
    ensures Encode([102, 111, 111], STANDARD) == "Zm9v"
    ensures Encode([251, 255], STANDARD) == "+/8=" && Encode([251, 255], URLSAFE) == "-_8="
  {
    hide STANDARD, URLSAFE, Encode, Value;
    Alphabets(25);
    Alphabets(32);
    Alphabets(38);
    Alphabets(60);
    Alphabets(61);
    Alphabets(47);
    EncodeGroup([102], STANDARD);
    EncodeGroup([102, 111], STANDARD);
    EncodeGroup([102, 111, 111], STANDARD);
    EncodeNothing(STANDARD);
    EncodeGroup([251, 255], STANDARD);
    EncodeGroup([251, 255], URLSAFE);
  }

  predicate IsKey(key: string) {
    |key| == 64 && forall v :: 0 <= v < 64 ==> Value(key[v]) == v && key[v] != '='
  }

  lemma KeysDecode()
    ensures IsKey(STANDARD) && IsKey(URLSAFE)
  {
    KeyDecodes(0, "+/");
    forall v | 0 <= v < 64
      ensures |STANDARD| == 64 && Value(STANDARD[v]) == v && STANDARD[v] != '='
      ensures |URLSAFE| == 64 && Value(URLSAFE[v]) == v && URLSAFE[v] != '='
    {
      KeyDecodes(v, "+/");
      KeyDecodes(v, "-_");
    }
  }

  lemma ValuesOfLetters(d: seq<Sextet>, key: string)
    requires IsKey(key)
    ensures Values(Letters(d, key)) == d
  {
  }

  function Power64(k: nat): nat {
    if k == 0 then 1 else 64 * Power64(k - 1)
  }

  lemma {:induction false} NumberOfDigits(n: nat, k: nat)
    requires n < Power64(k)
    ensures Number(Digits(n, k)) == n
  {
    if k > 0 {
      NumberOfDigits(n / 64, k - 1);
      assert Digits(n, k)[..k - 1] == Digits(n / 64, k - 1);
    }
  }

  lemma {:induction false} DigitsOfNumber(d: seq<Sextet>)
    ensures Digits(Number(d), |d|) == d && Number(d) < Power64(|d|)
  {
    if d != [] {
      DigitsOfNumber(d[..|d| - 1]);
      assert d == d[..|d| - 1] + [d[|d| - 1]];
    }
  }

  lemma {:induction false} BytesOfNumber(s: seq<Byte>)
    ensures BeBytes(FromBe(s), |s|) == s && FromBe(s) < Pow256(|s|)
  {
    if s != [] {
      BytesOfNumber(s[..|s| - 1]);
      assert s == s[..|s| - 1] + [s[|s| - 1]];
    }
  }

  lemma Powers()
    ensures Power64(2) == 4096 && Power64(3) == 262144 && Power64(4) == 16777216
    ensures Pow256(1) == 256 && Pow256(2) == 65536 && Pow256(3) == 16777216
  {
    assert Power64(1) == 64;
    assert Pow256(1) == 256;
  }

  /** Letters of a group's digits read back as its number. */
  lemma GroupReadsBack(n: nat, k: nat, key: string)
    requires IsKey(key) && n < Power64(k)
    ensures Number(Values(Letters(Digits(n, k), key))) == n
  {
    ValuesOfLetters(Digits(n, k), key);
    NumberOfDigits(n, k);
  }

  /** The bytes come back from the encoding, whatever follows it. */
  lemma {:induction false} BytesComeBack(data: seq<Byte>, key: string, t: string)
    requires IsKey(key) && EncodeUnpadded(data, key) <= t
    ensures Needed(|data|) <= |t|
    ensures DecodeBytes(t, |data|) == data
    decreases |data|
  {
    hide Number, Digits, FromBe, BeBytes, Letters, Values;
    Powers();
    BytesOfNumber(data);
    var e := Encode(data, key);
    if |data| == 1 {
      GroupReadsBack(FromBe(data) * 16, 2, key);
      assert t[..2] == e[..2] == Letters(Digits(FromBe(data) * 16, 2), key);
    } else if |data| == 2 {
      GroupReadsBack(FromBe(data) * 4, 3, key);
      assert t[..3] == e[..3] == Letters(Digits(FromBe(data) * 4, 3), key);
    } else if |data| >= 3 {
      BytesOfNumber(data[..3]);
      GroupReadsBack(FromBe(data[..3]), 4, key);
      assert t[..4] == e[..4] == Letters(Digits(FromBe(data[..3]), 4), key);
      var rest := EncodeUnpadded(data[3..], key);
      assert e == e[..4] + Encode(data[3..], key);
      assert PadLength(|data| - 3) + Needed(|data| - 3) == |Encode(data[3..], key)|;
      assert EncodeUnpadded(data, key) == e[..4] + rest;
      assert rest == EncodeUnpadded(data, key)[4..] <= t[4..];
      BytesComeBack(data[3..], key, t[4..]);
      assert data == data[..3] + data[3..];
    }
  }

  /** Where the encoding has padding, and only there, it ends in '='. */
  lemma {:induction false} EndsInPadding(data: seq<Byte>, key: string)
    requires IsKey(key) && data != []
    ensures
      var t := Encode(data, key);
      && |t| >= 4
      && (t[|t| - 2] == '=' <==> PadLength(|data|) == 2)
      && (t[|t| - 1] == '=' <==> PadLength(|data|) >= 1)
    decreases |data|
  {
    if |data| > 3 {
      EndsInPadding(data[3..], key);
    } else if |data| == 3 {
      assert Encode(data[3..], key) == "";
    }
  }

  /** `base64decode` undoes `base64encode` on every non-empty byte string, for
      both alphabets, padded or stripped of the padding. */
  lemma DecodeInvertsEncode(data: seq<Byte>, key: string)
    requires data != [] && (key == STANDARD || key == URLSAFE)
    ensures |key| == 64 && |EncodeUnpadded(data, key)| >= 2
    ensures Decode(Encode(data, key)) == data
    ensures Decode(EncodeUnpadded(data, key)) == data
  {
    hide IsKey, Encode, EncodeUnpadded, DecodeBytes, EncodedLength, Needed, PadLength, STANDARD, URLSAFE;
    KeysDecode();
    KeyLength(key);
    EndsInPadding(data, key);
    SizesMatch(data, key);
    BytesComeBack(data, key, Encode(data, key));
    BytesComeBack(data, key, EncodeUnpadded(data, key));
  }

  lemma KeyLength(key: string)
    requires IsKey(key)
    ensures |key| == 64
  {
  }

  /** The decoder finds the number of bytes from the length and the padding. */
  lemma SizesMatch(data: seq<Byte>, key: string)
    requires IsKey(key) && data != []
    ensures |EncodeUnpadded(data, key)| >= 2 && |Encode(data, key)| >= 4
    ensures DecodedSize(Encode(data, key)) == |data|
    ensures DecodedSize(EncodeUnpadded(data, key)) == |data|
    ensures EncodeUnpadded(data, key) <= Encode(data, key)
  {
    hide Encode, EncodedLength, Needed, PadLength;
    EndsInPadding(data, key);
    LengthsAre(|data|);
    SizeFromLength(Encode(data, key), |data|);
    SizeFromLength(EncodeUnpadded(data, key), |data|);
  }

  lemma SizeFromLength(t: string, n: nat)
    requires n > 0 && |t| >= 2
    requires
      || (|t| == n / 3 * 4 + (if n % 3 == 0 then 0 else n % 3 + 1) && (n % 3 == 0 ==> t[|t| - 2] != '=' && t[|t| - 1] != '='))
      || (|t| == (n + 2) / 3 * 4 && (t[|t| - 2] == '=' <==> n % 3 == 1) && (t[|t| - 1] == '=' <==> n % 3 != 0))
    ensures DecodedSize(t) == n
  {
    var q, r := n / 3, n % 3;
    assert (n + 2) / 3 == if r == 0 then q else q + 1;
  }

  predicate InAlphabet(t: string, key: string)
    requires |key| == 64
  {
    forall i :: 0 <= i < |t| ==> t[i] in key && key[Value(t[i])] == t[i]
  }

  /** Conversely, every text of whole groups is the encoding of what it decodes to. */
  lemma EncodeInvertsDecode(t: string, key: string)
    requires key == STANDARD || key == URLSAFE
    requires |t| >= 4 && |t| % 4 == 0 && |key| == 64 && InAlphabet(t, key)
    ensures Encode(Decode(t), key) == t
  {
    hide STANDARD, URLSAFE, Encode, DecodeBytes;
    KeysDecode();
    GroupsEncodeBack(t, key, |t| / 4);
    assert t[|t| - 2] != '=' && t[|t| - 1] != '=';
  }

  lemma {:induction false} GroupsEncodeBack(t: string, key: string, groups: nat)
    requires IsKey(key) && InAlphabet(t, key) && |t| == 4 * groups
    ensures Needed(3 * groups) == |t| && Encode(DecodeBytes(t, 3 * groups), key) == t
    decreases groups
  {
    hide Number, Digits, FromBe, BeBytes;
    if t != [] {
      var n := 3 * groups;
      var group := Values(t[..4]);
      GroupsEncodeBack(t[4..], key, groups - 1);
      DigitsOfNumber(group);
      Powers();
      BeRoundTrip(Number(group), 3);
      var data := DecodeBytes(t, n);
      assert data[..3] == BeBytes(Number(group), 3) && data[3..] == DecodeBytes(t[4..], n - 3);
      assert Letters(group, key) == t[..4];
    }
  }

  /** Encoding and decoding through the two methods. */
  method RoundTrip(data: seq<Byte>, key: string) returns (text: string, back: seq<Byte>)
    requires data != [] && (key == STANDARD || key == URLSAFE)
    ensures back == data
  {
    DecodeInvertsEncode(data, key);
    text := Base64Encode(data, key);
    back := Base64Decode(text);
  }
}
