/** Decimal text as the wallet uses it: `std::to_string`, `std::stoi` and the
    zero-padded account identifiers of `genAccountID`. */
module Decimal {
  datatype Option<+T> = None | Some(value: T)

  const INT_MAX := 0x7fff_ffff
  const INT_MIN := -0x8000_0000
  const INT_RANGE := 0x1_0000_0000

  predicate IsInt32(n: int) {
    INT_MIN <= n <= INT_MAX
  }

  /** The 32-bit value an unchecked `int` addition leaves behind. */
  function Wrap32(n: int): (r: int)
    ensures IsInt32(r)
    ensures IsInt32(n) ==> r == n
    ensures INT_MAX < n <= 2 * INT_MAX ==> r == n - INT_RANGE
  {
    (n - INT_MIN) % INT_RANGE + INT_MIN
  }

  predicate IsDigit(c: char) {
    '0' <= c <= '9'
  }

  function DigitOf(c: char): (d: nat)
    requires IsDigit(c)
    ensures d < 10
  {
    c as int - '0' as int
  }

  function CharOf(d: nat): (c: char)
    requires d < 10
    ensures IsDigit(c) && DigitOf(c) == d
  {
    ('0' as int + d) as char
  }

  ghost predicate AllDigits(s: string) {
    forall i :: 0 <= i < |s| ==> IsDigit(s[i])
  }

  /** Decimal digits without leading zeros. */
  function Digits(n: nat): (s: string)
    ensures s != [] && AllDigits(s)
  {
    if n < 10 then [CharOf(n)] else Digits(n / 10) + [CharOf(n % 10)]
  }

  /** `std::to_string(int)`. */
  function ToString(n: int): (s: string)
    ensures s != []
  {
    if n < 0 then "-" + Digits(-n) else Digits(n)
  }

  function Value(s: string): nat
    requires AllDigits(s)
  {
    if s == [] then 0 else 10 * Value(s[..|s| - 1]) + DigitOf(s[|s| - 1])
  }

  predicate IsSpace(c: char) {
    c == ' ' || 9 <= c as int <= 13
  }

  function SkipSpaces(s: string): string {
    if s != [] && IsSpace(s[0]) then SkipSpaces(s[1..]) else s
  }

  /** How many digits `s` starts with. */
  function DigitSpan(s: string): (k: nat)
    ensures k <= |s| && AllDigits(s[..k])
    ensures k < |s| ==> !IsDigit(s[k])
  {
    if s != [] && IsDigit(s[0]) then
      var k := 1 + DigitSpan(s[1..]);
      assert s[..k] == [s[0]] + s[1..][..k - 1];
      k
    else 0
  }

  predicate IsSign(c: char) {
    c == '-' || c == '+'
  }

  /** `std::stoi`: spaces, one sign, then as many digits as there are; `None`
      stands for the exception thrown when there are no digits or the value
      does not fit an `int`. */
  function Stoi(s: string): (r: Option<int>)
    ensures r.Some? ==> IsInt32(r.value)
  {
    var t := SkipSpaces(s);
    var u := if t != [] && IsSign(t[0]) then t[1..] else t;
    var k := DigitSpan(u);
    if k == 0 then None else
    var n: int := Value(u[..k]);
    var v := if t[0] == '-' then -n else n;
    if IsInt32(v) then Some(v) else None
  }

  lemma {:induction false} ValueOfDigits(n: nat)
    ensures Value(Digits(n)) == n
  {
    if n >= 10 {
      ValueOfDigits(n / 10);
      assert Digits(n)[..|Digits(n)| - 1] == Digits(n / 10);
    }
  }

  lemma {:induction false} DigitSpanAll(s: string)
    requires AllDigits(s)
    ensures DigitSpan(s) == |s|
  {
    if s != [] {
      DigitSpanAll(s[1..]);
    }
  }

  /** `stoi` reads back what `to_string` wrote, for every `int`. */
  lemma {:induction false} StoiToString(n: int)
    requires IsInt32(n)
    ensures Stoi(ToString(n)) == Some(n)
  {
    var d := Digits(if n < 0 then -n else n);
    ValueOfDigits(if n < 0 then -n else n);
    DigitSpanAll(d);
    assert d[..|d|] == d;
    assert IsDigit(d[0]);
    if n < 0 {
      assert SkipSpaces("-" + d) == "-" + d;
      assert ("-" + d)[1..] == d;
    }
  }

  /** The signed amounts put into events also read back exactly. */
  lemma StoiSigned(n: int)
    requires 0 <= n <= INT_MAX
    ensures Stoi("-" + ToString(n)) == Some(-n)
    ensures Stoi("+" + ToString(n)) == Some(n)
  {
    var d := Digits(n);
    ValueOfDigits(n);
    DigitSpanAll(d);
    assert d[..|d|] == d;
    assert SkipSpaces("-" + d) == "-" + d && ("-" + d)[1..] == d;
    assert SkipSpaces("+" + d) == "+" + d && ("+" + d)[1..] == d;
  }

  // ----- The texts themselves -----

  /** Decimal notation, digit by digit: what `to_string` writes and what digits stand for. */
  lemma DecimalNotation(n: nat, d: nat, s: string)
    requires d < 10 && AllDigits(s)
    ensures ToString(d) == ["0123456789"[d]]
    ensures n > 0 ==> ToString(10 * n + d) == ToString(n) + ["0123456789"[d]]
    ensures n > 0 ==> ToString(-(n as int)) == "-" + ToString(n)
    ensures AllDigits(s + ["0123456789"[d]]) && Value(s + ["0123456789"[d]]) == 10 * Value(s) + d
    ensures Value("") == 0
  {
    DigitChar(d);
    var c := "0123456789"[d];
    assert (s + [c])[..|s|] == s && (s + [c])[|s|] == c;
    assert (10 * n + d) / 10 == n && (10 * n + d) % 10 == d;
    hide CharOf, DigitOf;
  }

  lemma DigitChar(d: nat)
    requires d < 10
    ensures CharOf(d) == "0123456789"[d] && IsDigit("0123456789"[d]) && DigitOf("0123456789"[d]) == d
  {
  }

  /** White space, as `isspace` has it. */
  predicate AllSpaces(s: string) {
    forall i :: 0 <= i < |s| ==> s[i] in " \t\n\U{b}\U{c}\r"
  }

  predicate IsSignText(sign: string) {
    sign == "" || sign == "+" || sign == "-"
  }

  /** `stoi` on any text of its form: white space, a sign or none, digits, and
      whatever follows them. */
  lemma {:induction false} StoiReads(spaces: string, sign: string, d: string, rest: string)
    requires AllSpaces(spaces) && IsSignText(sign) && d != [] && AllDigits(d) && (rest == [] || !IsDigit(rest[0]))
    ensures
      var n: int := if sign == "-" then -(Value(d) as int) else Value(d);
      Stoi(spaces + sign + d + rest) == if INT_MIN <= n <= INT_MAX then Some(n) else None
  {
    hide Value, DigitSpan, SkipSpaces, AllSpaces, IsSpace, Stoi, IsSign;
    var t := sign + d + rest;
    SignedText(sign, d, rest);
    SkipsSpaces(spaces, t);
    FourTexts(spaces, sign, d, rest);
    DigitsEnd(d, rest);
    StoiUnfolds(spaces + t, t, d + rest, |d|);
  }

  lemma FourTexts(a: string, b: string, c: string, d: string)
    ensures a + b + c + d == a + (b + c + d)
  {
  }

  lemma StoiUnfolds(s: string, t: string, u: string, k: nat)
    requires SkipSpaces(s) == t && t != [] && u == (if IsSign(t[0]) then t[1..] else t) && k == DigitSpan(u) > 0
    ensures
      var n: int := if t[0] == '-' then -(Value(u[..k]) as int) else Value(u[..k]);
      Stoi(s) == if INT_MIN <= n <= INT_MAX then Some(n) else None
  {
    hide Value, DigitSpan, SkipSpaces;
  }

  lemma SignedText(sign: string, d: string, rest: string)
    requires IsSignText(sign) && d != [] && AllDigits(d)
    ensures
      var t := sign + d + rest;
      && t != [] && (IsSign(t[0]) <==> sign != "") && (t[0] == '-' <==> sign == "-") && !IsSpace(t[0])
      && (if IsSign(t[0]) then t[1..] else t) == d + rest && (d + rest)[..|d|] == d
  {
    var t := sign + d + rest;
    assert IsDigit(d[0]);
    assert t[0] == if sign == "" then d[0] else sign[0];
    assert t[|sign|..] == d + rest;
  }

  /** Any other text is refused: no digit behind the white space and a sign. */
  lemma {:induction false} StoiRefuses(spaces: string, sign: string, rest: string)
    requires AllSpaces(spaces) && IsSignText(sign) && (rest == [] || !IsDigit(rest[0]))
    requires sign == "" && rest != [] ==> !IsSign(rest[0]) && rest[0] !in " \t\n\U{b}\U{c}\r"
    ensures Stoi(spaces + sign + rest) == None
  {
    var t := sign + rest;
    SkipsSpaces(spaces, t);
    assert spaces + sign + rest == spaces + t;
    assert t[|sign|..] == rest;
  }

  lemma {:induction false} SkipsSpaces(spaces: string, t: string)
    requires AllSpaces(spaces) && (t == [] || !IsSpace(t[0]))
    ensures SkipSpaces(spaces + t) == t
  {
    if spaces == [] {
      assert spaces + t == t;
    } else {
      assert (spaces + t)[0] == spaces[0] && (spaces + t)[1..] == spaces[1..] + t;
      SkipsSpaces(spaces[1..], t);
    }
  }

  lemma {:induction false} DigitsEnd(d: string, rest: string)
    requires AllDigits(d) && (rest == [] || !IsDigit(rest[0]))
    ensures DigitSpan(d + rest) == |d|
  {
    if d != [] {
      assert (d + rest)[1..] == d[1..] + rest;
      DigitsEnd(d[1..], rest);
    } else {
      assert d + rest == rest;
    }
  }

  lemma ToStringInjective(m: int, n: int)
    requires IsInt32(m) && IsInt32(n) && ToString(m) == ToString(n)
    ensures m == n
  {
    StoiToString(m);
    StoiToString(n);
  }

  function Zeros(k: nat): (s: string)
    ensures |s| == k && AllDigits(s) && forall i :: 0 <= i < k ==> s[i] == '0'
  {
    if k == 0 then "" else Zeros(k - 1) + "0"
  }

  /** `setw(8) << setfill('0')` after the literal "7". */
  function FormatId(n: nat): (id: string) {
    var d := Digits(n);
    "7" + (if |d| < 8 then Zeros(8 - |d|) else "") + d
  }

  /** The counter value an identifier was formatted from. */
  function IdNumber(id: string): nat {
    if id != [] && DigitSpan(id[1..]) == |id| - 1 then Value(id[1..][..DigitSpan(id[1..])]) else 0
  }

  lemma {:induction false} ValueOfPadded(k: nat, d: string)
    requires AllDigits(d)
    ensures Value(Zeros(k) + d) == Value(d)
  {
    if d == [] {
      assert Zeros(k) + d == Zeros(k);
      if k > 0 {
        ValueOfPadded(k - 1, []);
        assert Zeros(k)[..k - 1] == Zeros(k - 1) == Zeros(k - 1) + [];
      }
    } else {
      var front := d[..|d| - 1];
      ValueOfPadded(k, front);
      assert (Zeros(k) + d)[..k + |d| - 1] == Zeros(k) + front;
    }
  }

  /** Identifiers determine the counter value, also past eight digits. */
  lemma IdRoundTrip(n: nat)
    ensures IdNumber(FormatId(n)) == n
  {
    var d := Digits(n);
    var pad := if |d| < 8 then Zeros(8 - |d|) else Zeros(0);
    var body := FormatId(n)[1..];
    assert body == pad + d;
    assert AllDigits(body);
    DigitSpanAll(body);
    assert body[..|body|] == body;
    ValueOfPadded(|pad|, d);
    ValueOfDigits(n);
  }

  lemma FormatIdInjective(m: nat, n: nat)
    requires FormatId(m) == FormatId(n)
    ensures m == n
  {
    IdRoundTrip(m);
    IdRoundTrip(n);
  }

  lemma {:induction false} DigitCount(n: nat, k: nat, bound: nat)
    requires k > 0 && bound == TenTo(k)
    ensures |Digits(n)| <= k <==> n < bound
    ensures n > 0 ==> Digits(n)[0] != '0'
  {
    if n >= 10 {
      if k > 1 {
        DigitCount(n / 10, k - 1, TenTo(k - 1));
      } else {
        DigitCount(n / 10, 1, 10);
      }
    }
    if k > 1 {
      TenGrows(k - 1);
    }
  }

  function TenTo(k: nat): nat {
    if k == 0 then 1 else 10 * TenTo(k - 1)
  }

  lemma TenGrows(k: nat)
    ensures TenTo(k) >= 1
  {
  }

  /** An identifier is a '7' and the counter value: in eight digits with leading
      zeros, or in as many as it needs. */
  lemma FormatIdIs(n: nat)
    ensures
      var id := FormatId(n);
      && |id| >= 9 && id[0] == '7' && AllDigits(id[1..]) && Value(id[1..]) == n
      && (n < 100000000 ==> |id| == 9) && (n >= 100000000 ==> id == "7" + ToString(n))
  {
    hide Digits, Value, TenTo;
    var d := Digits(n);
    var pad := if |d| < 8 then Zeros(8 - |d|) else Zeros(0);
    assert FormatId(n) == "7" + (pad + d) && FormatId(n)[1..] == pad + d;
    ValueOfPadded(|pad|, d);
    ValueOfDigits(n);
    EightDigits();
    DigitCount(n, 8, 100000000);
  }

  lemma EightDigits()
    ensures TenTo(8) == 100000000
  {
    assert TenTo(4) == 10000;
  }
}
