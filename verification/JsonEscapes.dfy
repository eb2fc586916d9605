/** What the escapes of a JSON string stand for, against UTF-8 (RFC 3629) and the
    escapes of section 7 of RFC 8259. */
module JsonEscapes {
  import opened Memory
  import opened JsonText

  // ----- UTF-8 -----

  datatype Decoded = Malformed | Decoded(code: nat, length: nat)

  predicate IsContinuation(c: char) {
    0x80 <= c as int <= 0xBF
  }

  /** The code at the front of a text in UTF-8 of up to three bytes. Longer forms
      than needed are malformed. */
  function DecodeUtf8(s: string): Decoded {
    if s == [] then Malformed else
    var a := s[0] as int;
    if a <= 0x7F then Decoded(a, 1)
    else if 0xC2 <= a <= 0xDF && |s| >= 2 && IsContinuation(s[1]) then
      Decoded((a - 0xC0) * 64 + (s[1] as int - 0x80), 2)
    else if 0xE0 <= a <= 0xEF && |s| >= 3 && IsContinuation(s[1]) && IsContinuation(s[2]) then
      var code := (a - 0xE0) * 4096 + (s[1] as int - 0x80) * 64 + (s[2] as int - 0x80);
      if code < 0x800 then Malformed else Decoded(code, 3)
    else Malformed
  }

  lemma Utf8Decodes(code: nat)
    requires code < 0x10000
    ensures DecodeUtf8(Utf8(code)) == Decoded(code, |Utf8(code)|)
  {
    assert code / 64 == code / 4096 * 64 + code / 64 % 64;
  }

  // ----- Escapes -----

  /** An escape of four hexadecimal digits, in either case, stands for the UTF-8
      of the code they write. */
  lemma CodeEscape(code: nat, a: char, b: char, c: char, d: char, rest: string)
    requires code < 0x10000 && WellFormed(rest)
    requires IsHexDigit(a, code / 4096) && IsHexDigit(b, code / 256 % 16)
    requires IsHexDigit(c, code / 16 % 16) && IsHexDigit(d, code % 16)
    ensures
      var raw := ['\\', 'u', a, b, c, d] + rest;
      && WellFormed(raw)
      && exists u: string :: Unescaped(raw) == u + Unescaped(rest) && DecodeUtf8(u) == Decoded(code, |u|)
  {
    hide Utf8;
    DigitValue(a, code / 4096);
    DigitValue(b, code / 256 % 16);
    DigitValue(c, code / 16 % 16);
    DigitValue(d, code % 16);
    var raw := ['\\', 'u', a, b, c, d] + rest;
    assert raw[2] == a && raw[3] == b && raw[4] == c && raw[5] == d && raw[6..] == rest;
    FourDigits(code);
    assert IsCodeEscape(raw) && Code(raw) == code;
    Utf8Decodes(code);
    assert Unescaped(raw) == Utf8(code) + Unescaped(rest);
  }

  lemma DigitValue(c: char, v: nat)
    requires v < 16 && IsHexDigit(c, v)
    ensures IsHex(c) && FromHex(c) == v
  {
  }

  lemma FourDigits(code: nat)
    requires code < 0x10000
    ensures code / 4096 * 4096 + code / 256 % 16 * 256 + code / 16 % 16 * 16 + code % 16 == code
    ensures code / 4096 < 16
  {
    assert code / 256 == code / 256 / 16 * 16 + code / 256 % 16;
    assert code / 16 == code / 16 / 16 * 16 + code / 16 % 16;
  }

  /** The eight escapes of two characters. */
  lemma ShortEscapes(rest: string)
    requires WellFormed(rest)
    ensures Stands("\\\"", "\"", rest) && Stands("\\\\", "\\", rest) && Stands("\\/", "/", rest)
    ensures Stands("\\b", "\U{8}", rest) && Stands("\\f", "\U{c}", rest) && Stands("\\n", "\n", rest)
    ensures Stands("\\r", "\r", rest) && Stands("\\t", "\t", rest)
  {
    hide Stands;
    ShortEscape('"', rest);
    ShortEscape('\\', rest);
    ShortEscape('/', rest);
    ShortEscape('b', rest);
    ShortEscape('f', rest);
    ShortEscape('n', rest);
    ShortEscape('r', rest);
    ShortEscape('t', rest);
  }

  lemma ShortEscape(c: char, rest: string)
    requires c in "\"\\/bfnrt" && WellFormed(rest)
    ensures Stands(['\\', c], [SimpleEscape(c)], rest)
  {
    var raw := ['\\', c] + rest;
    assert raw[0] == '\\' && raw[1] == c && raw[2..] == rest;
    assert Used(raw) == 2;
  }

  /** In front of any text, `escape` stands for `s`. */
  predicate Stands(escape: string, s: string, rest: string)
    requires WellFormed(rest)
  {
    WellFormed(escape + rest) && Unescaped(escape + rest) == s + Unescaped(rest)
  }

  /** Any other character stands for itself, and no other escape is well formed. */
  lemma OtherCharacters(c: char, rest: string)
    requires WellFormed(rest)
    ensures c != '\\' ==> Stands([c], [c], rest)
    ensures c !in "\"\\/bfnrtu" ==> !WellFormed(['\\', c] + rest)
  {
    assert ([c] + rest)[1..] == rest;
    var raw := ['\\', c] + rest;
    assert raw[0] == '\\' && raw[1] == c;
  }

  /** How characters are printed: the short escapes, four digits for the other
      control characters, and everything else as it is. */
  lemma PrintedCharacters(c: char)
    ensures EscapeChar('"') == "\\\"" && EscapeChar('\\') == "\\\\" && EscapeChar('\n') == "\\n" && EscapeChar('\r') == "\\r"
    ensures EscapeChar('\t') == "\\t" && EscapeChar('\U{8}') == "\\b" && EscapeChar('\U{c}') == "\\f"
    ensures c as int >= 0x20 && c != '"' && c != '\\' ==> EscapeChar(c) == [c]
    ensures c as int < 0x20 && c !in "\n\r\t\U{8}\U{c}" ==>
      |EscapeChar(c)| == 6 && EscapeChar(c)[..4] == "\\u00"
      && IsHexDigit(EscapeChar(c)[4], c as int / 16) && IsHexDigit(EscapeChar(c)[5], c as int % 16)
  {
  }

  /** The printed form of a string has no control character and no quote that
      would end it. */
  lemma {:induction false} EscapedIsPrintable(s: string)
    requires IsBytes(s)
    ensures forall i :: 0 <= i < |Escaped(s)| ==> Escaped(s)[i] as int >= 0x20
  {
    if s != [] {
      EscapedIsPrintable(s[1..]);
      var e := EscapeChar(s[0]);
      assert forall i :: 0 <= i < |e| ==> e[i] as int >= 0x20;
    }
  }
}
