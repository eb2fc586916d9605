/** Strings and numbers in JSON text: escaping, unescaping in place, and the
    scanner for numbers. Characters stand for bytes. */
module JsonText {
  import opened Memory

  // ----- Escaping -----

  function ToHex(n: nat): char
    requires n < 16
  {
    if n < 10 then ('0' as int + n) as char else ('a' as int + n - 10) as char
  }

  function EscapeChar(c: char): (e: string)
    ensures e != []
  {
    if c == '"' then "\\\""
    else if c == '\\' then "\\\\"
    else if c == '\n' then "\\n"
    else if c as int == 8 then "\\b"
    else if c as int == 12 then "\\f"
    else if c == '\r' then "\\r"
    else if c == '\t' then "\\t"
    else if c as int < 0x20 then "\\u00" + [ToHex(c as int / 16), ToHex(c as int % 16)]
    else [c]
  }

  function Escaped(s: string): string {
    if s == [] then [] else EscapeChar(s[0]) + Escaped(s[1..])
  }

  /** `escape`. */
  method Escape(str: string, out: string) returns (ret: string)
    ensures ret == out + Escaped(str)
  {
    hide EscapeChar;
    ret := out;
    for i := 0 to |str|
      invariant ret + Escaped(str[i..]) == out + Escaped(str)
    {
      assert str[i..][0] == str[i] && str[i..][1..] == str[i + 1..];
      ret := ret + EscapeChar(str[i]);
    }
  }

  // ----- Reading a string -----

  function FromHex(c: char): int {
    if c >= 'a' then c as int - 'a' as int + 10
    else if c >= 'A' then c as int - 'A' as int + 10
    else c as int - '0' as int
  }

  predicate IsSimpleEscape(c: char) {
    c in "\"\\/bfnrt"
  }

  /** A four-digit escape at the front of a text, from its backslash on. */
  predicate IsCodeEscape(t: string) {
    |t| >= 6 && t[0] == '\\' && t[1] == 'u' && IsHex(t[2]) && IsHex(t[3]) && IsHex(t[4]) && IsHex(t[5])
  }

  /** Characters up to the closing quote, with every escape well formed. */
  function ScanString(t: string): (k: int)
    ensures -1 <= k < |t|
    ensures k >= 0 ==> t[k] == '"'
  {
    if t == [] || t[0] == NUL then -1
    else if t[0] == '"' then 0
    else
      var used := Used(t);
      if used == 0 then -1 else
      var k := ScanString(t[used..]);
      if k == -1 then -1 else used + k
  }

  /** The length of the character or escape at the front; 0 if it is malformed. */
  function Used(t: string): (n: nat)
    requires t != []
    ensures n <= |t|
  {
    if t[0] != '\\' then 1
    else if IsCodeEscape(t) then 6
    else if |t| >= 2 && IsSimpleEscape(t[1]) then 2
    else 0
  }

  function Code(t: string): (code: nat)
    requires IsCodeEscape(t)
    ensures code < 0x10000
  {
    CodeOf(t[2], t[3], t[4], t[5])
  }

  function CodeOf(a: char, b: char, c: char, d: char): (code: nat)
    requires IsHex(a) && IsHex(b) && IsHex(c) && IsHex(d)
    ensures code < 0x10000
  {
    FromHex(a) * 4096 + FromHex(b) * 256 + FromHex(c) * 16 + FromHex(d)
  }

  /** UTF-8 of a code below 2^16, as `unescape` writes it. */
  function Utf8(code: nat): (s: string)
    requires code < 0x10000
    ensures 1 <= |s| <= 3
  {
    if code >= 0x800 then [(0xE0 + code / 4096) as char, (0x80 + code / 64 % 64) as char, (0x80 + code % 64) as char]
    else if code >= 0x80 then [(0xC0 + code / 64) as char, (0x80 + code % 64) as char]
    else [code as char]
  }

  function SimpleEscape(c: char): char {
    if c == 'b' then 8 as char
    else if c == 'f' then 12 as char
    else if c == 'n' then '\n'
    else if c == 'r' then '\r'
    else if c == 't' then '\t'
    else c
  }

  /** What the character or escape at the front stands for. */
  function Meaning(t: string): (s: string)
    requires t != []
    ensures |s| <= Used(t)
  {
    if t[0] != '\\' then [t[0]]
    else if IsCodeEscape(t) then Utf8(Code(t))
    else if Used(t) == 2 then [SimpleEscape(t[1])]
    else []
  }

  /** A string's text consists of well-formed characters and escapes. */
  predicate WellFormed(raw: string) {
    raw == [] || (Used(raw) > 0 && WellFormed(raw[Used(raw)..]))
  }

  function Unescaped(raw: string): (s: string)
    requires WellFormed(raw)
    ensures |s| <= |raw|
  {
    if raw == [] then [] else Meaning(raw) + Unescaped(raw[Used(raw)..])
  }

  /** Without a backslash a text stands for itself. */
  lemma {:induction false} NothingToUnescape(raw: string)
    requires '\\' !in raw
    ensures WellFormed(raw) && Unescaped(raw) == raw
  {
    if raw != [] {
      NothingToUnescape(raw[1..]);
    }
  }

  lemma UsedStays(t: string, rest: string)
    requires t != [] && Used(t) > 0
    ensures Used(t + rest) == Used(t) && Meaning(t + rest) == Meaning(t)
    ensures (t + rest)[Used(t)..] == t[Used(t)..] + rest
  {
    assert forall i :: 0 <= i < |t| ==> (t + rest)[i] == t[i];
  }

  // ----- Unescaping undoes escaping -----

  lemma HexReadsBack(n: nat)
    requires n < 16
    ensures IsHex(ToHex(n)) && FromHex(ToHex(n)) == n
  {
  }

  /** One character's escape reads back as that character. */
  lemma EscapeReadsBack(c: char)
    requires c as int < 256
    ensures
      var e := EscapeChar(c);
      Used(e) == |e| && Meaning(e) == [c] && e[0] != NUL && e[0] != '"'
  {
    var e := EscapeChar(c);
    if e[0] == '\\' && e[1] == 'u' {
      hide ToHex;
      HexReadsBack(c as int / 16);
      HexReadsBack(c as int % 16);
      assert FromHex('0') == 0;
      assert IsCodeEscape(e) && Code(e) == c as int;
    }
  }

  lemma {:induction false} UnescapeUndoesEscape(s: string)
    requires IsBytes(s)
    ensures WellFormed(Escaped(s)) && Unescaped(Escaped(s)) == s
  {
    if s != [] {
      hide EscapeChar, Used, Meaning;
      UnescapeUndoesEscape(s[1..]);
      EscapeReadsBack(s[0]);
      UsedStays(EscapeChar(s[0]), Escaped(s[1..]));
      var e := EscapeChar(s[0]);
      assert e[|e|..] == [];
      assert Escaped(s)[|e|..] == Escaped(s[1..]);
    }
  }

  lemma ScanStep(t: string)
    requires t != [] && t[0] != NUL && t[0] != '"' && Used(t) > 0
    ensures
      var k := ScanString(t[Used(t)..]);
      ScanString(t) == if k == -1 then -1 else Used(t) + k
  {
    hide Used;
  }

  lemma ScanPast(e: string, after: string)
    requires e != [] && e[0] != NUL && e[0] != '"' && Used(e) == |e|
    ensures ScanString(after) >= 0 ==> ScanString(e + after) == |e| + ScanString(after)
  {
    hide Used, ScanString, Meaning;
    UsedStays(e, after);
    assert (e + after)[|e|..] == after;
    ScanStep(e + after);
  }

  lemma ScanQuote(t: string)
    requires t != [] && t[0] == '"'
    ensures ScanString(t) == 0
  {
  }

  /** The scanner stops at the closing quote behind an escaped string. */
  lemma {:induction false} ScanEscaped(s: string, rest: string)
    requires IsBytes(s)
    ensures ScanString(Escaped(s) + "\"" + rest) == |Escaped(s)|
  {
    hide EscapeChar, Used, Meaning, ScanString;
    if s == [] {
      ScanQuote(Escaped(s) + "\"" + rest);
    } else {
      var e, tail := EscapeChar(s[0]), Escaped(s[1..]);
      var after := tail + "\"" + rest;
      EscapeReadsBack(s[0]);
      ScanEscaped(s[1..], rest);
      ScanPast(e, after);
      assert (e + tail) + "\"" + rest == e + after;
    }
  }

  lemma UsedFront(t: string, k: nat)
    requires t != [] && 0 < Used(t) <= k <= |t|
    ensures Used(t[..k]) == Used(t)
  {
  }

  /** What was scanned is well formed. */
  lemma {:induction false} ScannedIsWellFormed(t: string)
    requires ScanString(t) >= 0
    ensures WellFormed(t[..ScanString(t)])
    decreases |t|
  {
    if t[0] != '"' {
      assert Used(t) > 0;
      hide Used, ScanString;
      var used, k := Used(t), ScanString(t);
      ScanStep(t);
      ScannedIsWellFormed(t[used..]);
      UsedFront(t, k);
      assert t[..k][used..] == t[used..][..k - used];
    }
  }
}
