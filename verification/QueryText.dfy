/** Text in memory as Crow's query-string functions see it: percent escapes,
    C strings, and the layout of a parsed query. */
module QueryText {
  import opened Memory

  function HexValue(c: char): (v: nat)
    ensures v < 16
  {
    if '0' <= c <= '9' then c as int - 48
    else if 'A' <= c <= 'F' then c as int - 55
    else if 'a' <= c <= 'f' then c as int - 87
    else 0
  }

  function HexChar(high: char, low: char): char {
    (16 * HexValue(high) + HexValue(low)) as char
  }

  /** A character inside a key or value; the others end it. */
  predicate IsQsChr(c: char) {
    c != '=' && c != '#' && c != '&' && c != NUL
  }

  predicate IsEscape(s: string) {
    |s| >= 3 && s[0] == '%' && IsHex(s[1]) && IsHex(s[2])
  }

  /** What the text at the front of `s` stands for: it ends at the first
      separator or at a malformed escape. */
  function Unescape(s: string): (v: string)
    ensures |v| <= |s|
  {
    if s == [] || !IsQsChr(s[0]) then []
    else if s[0] == '%' then
      if IsEscape(s) then [HexChar(s[1], s[2])] + Unescape(s[3..]) else []
    else [if s[0] == '+' then ' ' else s[0]] + Unescape(s[1..])
  }

  /** The text at the front of `s` has no malformed escape. */
  predicate WellEscaped(s: string) {
    if s == [] || !IsQsChr(s[0]) then true
    else if s[0] == '%' then IsEscape(s) && WellEscaped(s[3..])
    else WellEscaped(s[1..])
  }

  /** A percent escape of two hexadecimal digits, in either case, stands for the
      byte they write. */
  lemma EscapeMeans(n: nat, a: char, b: char, rest: string)
    requires n < 256 && IsHexDigit(a, n / 16) && IsHexDigit(b, n % 16)
    ensures Unescape(['%', a, b] + rest) == [n as char] + Unescape(rest)
    ensures WellEscaped(['%', a, b] + rest) == WellEscaped(rest)
  {
    DigitValue(a, n / 16);
    DigitValue(b, n % 16);
    hide HexValue, IsHexDigit;
    assert (['%', a, b] + rest)[3..] == rest;
  }

  lemma DigitValue(c: char, v: nat)
    requires v < 16 && IsHexDigit(c, v)
    ensures IsHex(c) && HexValue(c) == v
  {
  }

  /** A plus stands for a blank, a separator ends the text, and any other
      character but '%' stands for itself. */
  lemma CharacterMeans(c: char, rest: string)
    ensures c == '+' ==> Unescape([c] + rest) == " " + Unescape(rest)
    ensures c in ['=', '#', '&', NUL] ==> Unescape([c] + rest) == "" && WellEscaped([c] + rest)
    ensures c !in ['=', '#', '&', '%', '+', NUL] ==> Unescape([c] + rest) == [c] + Unescape(rest)
    ensures c !in ['=', '#', '&', '%', NUL] ==> WellEscaped([c] + rest) == WellEscaped(rest)
  {
    assert ([c] + rest)[1..] == rest;
  }

  /** A percent sign without two digits behind it ends the text. */
  lemma MalformedEscape(rest: string)
    requires |rest| < 2 || (forall v :: 0 <= v < 16 ==> !IsHexDigit(rest[0], v)) || (forall v :: 0 <= v < 16 ==> !IsHexDigit(rest[1], v))
    ensures Unescape("%" + rest) == "" && !WellEscaped("%" + rest)
  {
    if |rest| >= 2 {
      HexDigits(rest[0]);
      HexDigits(rest[1]);
    }
  }

  /** Reading stops at a separator, whatever lies behind it. */
  lemma {:induction false} UnescapeStops(s: string, c: char, rest: string)
    requires !IsQsChr(c)
    ensures Unescape(s + [c] + rest) == Unescape(s)
    ensures WellEscaped(s + [c] + rest) == WellEscaped(s)
  {
    var all := s + [c] + rest;
    if s == [] || !IsQsChr(s[0]) {
    } else if s[0] == '%' {
      if IsEscape(s) {
        assert all[3..] == s[3..] + [c] + rest;
        UnescapeStops(s[3..], c, rest);
      } else {
        assert !IsEscape(all);
      }
    } else {
      assert all[1..] == s[1..] + [c] + rest;
      UnescapeStops(s[1..], c, rest);
    }
  }

  // ----- C strings -----

  /** `strcspn`: the characters in front of the first stop or terminator. */
  function Span(m: string, stops: string): (k: nat)
    ensures k <= |m|
    ensures k < |m| ==> m[k] == NUL || m[k] in stops
    ensures forall i :: 0 <= i < k ==> m[i] != NUL && m[i] !in stops
  {
    if m == [] || m[0] == NUL || m[0] in stops then 0 else 1 + Span(m[1..], stops)
  }

  lemma SpanIs(m: string, stops: string, k: nat)
    requires k < |m| && (m[k] == NUL || m[k] in stops)
    requires forall i :: 0 <= i < k ==> m[i] != NUL && m[i] !in stops
    ensures Span(m, stops) == k
  {
  }

  lemma SpanStops(m: string, stops: string)
    requires Terminated(m)
    ensures Span(m, stops) < |m|
  {
  }

  function CStr(m: string): string {
    m[..Span(m, "")]
  }

  // ----- The layout of a query -----

  /** The key's characters in a pair "key=value". */
  function KeyLength(w: string): (e: nat)
    ensures e <= |w|
  {
    Span(w, "=&#")
  }

  /** A pair as it reads in memory once its value is decoded, with the terminator. */
  function Shown(w: string): string {
    var e := KeyLength(w);
    if e == |w| then w + [NUL] else w[..e + 1] + Unescape(w[e + 1..]) + [NUL]
  }

  lemma ShownFits(w: string)
    ensures |Shown(w)| <= |w| + 1 && Terminated(Shown(w))
  {
  }

  /** The memory of a pair and of the separator behind it, once decoded. */
  function Settled(w: string, end: char): (m: string)
    ensures |m| == |w| + 1 && Shown(w) <= m
  {
    ShownFits(w);
    Shown(w) + (w + [end])[|Shown(w)|..]
  }

  /** The pairs left after the one that ends with `end`, if `n` were allowed with it. */
  function Left(n: nat, end: char): nat
    requires n > 0
  {
    if end == NUL then 0 else n - 1
  }

  /** The first `n` pairs of a query at the front of `m`. */
  function Pieces(m: string, n: nat): (ws: seq<string>)
    requires n > 0 ==> Terminated(m)
    ensures |ws| <= n
    decreases n
  {
    if n == 0 then [] else
      SpanStops(m, "&");
      var k := Span(m, "&");
      [m[..k]] + Pieces(m[k + 1..], Left(n, m[k]))
  }

  /** Where they start, counted from `base`. */
  function Starts(m: string, n: nat, base: nat): (kv: seq<nat>)
    requires n > 0 ==> Terminated(m)
    decreases n
  {
    if n == 0 then [] else
      SpanStops(m, "&");
      var k := Span(m, "&");
      [base] + Starts(m[k + 1..], Left(n, m[k]), base + k + 1)
  }

  /** The memory after decoding: every pair in its own place. */
  function ParsedMemory(m: string, n: nat): (p: string)
    requires n > 0 ==> Terminated(m)
    ensures |p| == |m|
    decreases n
  {
    if n == 0 then m else
      SpanStops(m, "&");
      var k := Span(m, "&");
      Settled(m[..k], m[k]) + ParsedMemory(m[k + 1..], Left(n, m[k]))
  }

  /** The first pair and the rest. */
  lemma Unfold(m: string, n: nat, base: nat) returns (k: nat, left: nat)
    requires n > 0 && Terminated(m)
    ensures k == Span(m, "&") < |m| && left == Left(n, m[k]) < n
    ensures left > 0 ==> Terminated(m[k + 1..])
    ensures Pieces(m, n) == [m[..k]] + Pieces(m[k + 1..], left)
    ensures Starts(m, n, base) == [base] + Starts(m[k + 1..], left, base + k + 1)
    ensures ParsedMemory(m, n) == Settled(m[..k], m[k]) + ParsedMemory(m[k + 1..], left)
  {
    hide Span, Settled, Shown, Pieces, Starts, ParsedMemory;
    SpanStops(m, "&");
    k := Span(m, "&");
    left := Left(n, m[k]);
    UnfoldPieces(m, n, k, left);
    UnfoldStarts(m, n, base, k, left);
    UnfoldMemory(m, n, k, left);
  }

  lemma UnfoldPieces(m: string, n: nat, k: nat, left: nat)
    requires n > 0 && Terminated(m)
    requires k == Span(m, "&") < |m| && left == Left(n, m[k])
    ensures Pieces(m, n) == [m[..k]] + Pieces(m[k + 1..], left)
  {
    hide Span;
  }

  lemma UnfoldStarts(m: string, n: nat, base: nat, k: nat, left: nat)
    requires n > 0 && Terminated(m)
    requires k == Span(m, "&") < |m| && left == Left(n, m[k])
    ensures Starts(m, n, base) == [base] + Starts(m[k + 1..], left, base + k + 1)
  {
    hide Span;
  }

  lemma UnfoldMemory(m: string, n: nat, k: nat, left: nat)
    requires n > 0 && Terminated(m)
    requires k == Span(m, "&") < |m| && left == Left(n, m[k])
    ensures ParsedMemory(m, n) == Settled(m[..k], m[k]) + ParsedMemory(m[k + 1..], left)
  {
    hide Span, Settled, Shown;
  }

  lemma {:induction false} SameCount(m: string, n: nat, base: nat)
    requires n > 0 ==> Terminated(m)
    ensures |Pieces(m, n)| == |Starts(m, n, base)|
    decreases n
  {
    hide Span, Settled, Shown, ParsedMemory;
    if n > 0 {
      var k, left := Unfold(m, n, base);
      SameCount(m[k + 1..], left, base + k + 1);
    }
  }

  /** Each start points at its own decoded pair: decoding one pair leaves every
      other pair alone. */
  lemma {:induction false} PairsInPlace(m: string, n: nat, base: nat, i: nat)
    requires n > 0 ==> Terminated(m)
    requires i < |Starts(m, n, base)|
    ensures |Pieces(m, n)| == |Starts(m, n, base)|
    ensures base <= Starts(m, n, base)[i] < base + |m|
    ensures Shown(Pieces(m, n)[i]) <= ParsedMemory(m, n)[Starts(m, n, base)[i] - base..]
    decreases n
  {
    hide Pieces, Starts, ParsedMemory, Settled, Shown, Span;
    SameCount(m, n, base);
    SomeStart(m, n, base);
    var k, left := Unfold(m, n, base);
    var rest := m[k + 1..];
    var memory := ParsedMemory(rest, left);
    if i > 0 {
      PairsInPlace(rest, left, base + k + 1, i - 1);
      var s := Starts(m, n, base)[i];
      assert s == Starts(rest, left, base + k + 1)[i - 1];
      assert ParsedMemory(m, n)[s - base..] == memory[s - (base + k + 1)..];
      assert Pieces(m, n)[i] == Pieces(rest, left)[i - 1];
    } else {
      assert ParsedMemory(m, n)[0..] == Settled(m[..k], m[k]) + memory;
    }
  }

  lemma SomeStart(m: string, n: nat, base: nat)
    requires n > 0 ==> Terminated(m)
    requires Starts(m, n, base) != []
    ensures n > 0
  {
  }
}
