/** Looking values up in a parsed query, and the round trip from percent-encoded
    pairs through parsing and lookup. */
module QueryLookup {
  import opened Memory
  import opened QueryText
  import opened QueryString
  import opened Decimal

  // ----- qs_strncmp -----

  function At(s: string, i: nat): char {
    if i < |s| then s[i] else NUL
  }

  function Drop(s: string, k: nat): string {
    if k <= |s| then s[k..] else []
  }

  datatype Token = Token(c: char, used: nat)

  /** The next character of a text and how much of the text it takes up; NUL at
      its end and for a malformed escape. */
  function Next(s: string): Token {
    var u := At(s, 0);
    if !IsQsChr(u) then Token(NUL, 1)
    else if u == '+' then Token(' ', 1)
    else if u == '%' then Token(if IsHex(At(s, 1)) && IsHex(At(s, 2)) then HexChar(At(s, 1), At(s, 2)) else NUL, 3)
    else Token(u, 1)
  }

  /** The comparison of the first `n` characters of `s` with the text at `t`. */
  function Compare(s: string, t: string, n: nat): int {
    if n == 0 then if IsQsChr(At(t, 0)) then -1 else 0
    else
      var u1, u2 := Next(s), Next(t);
      if u1.c != u2.c then u1.c as int - u2.c as int
      else if u1.c == NUL then 0
      else Compare(Drop(s, u1.used), Drop(t, u2.used), n - 1)
  }

  method QsStrncmp(key: string, text: string, length: nat) returns (r: int)
    ensures r == Compare(key, text, length)
  {
    hide IsQsChr, IsHex, HexChar;
    var n, s, qs := length, key, text;
    while n > 0
      invariant Compare(s, qs, n) == Compare(key, text, length)
      decreases n
    {
      n := n - 1;
      var u1, u2, used1, used2 := At(s, 0), At(qs, 0), 1, 1;
      if !IsQsChr(u1) { u1 := NUL; }
      if !IsQsChr(u2) { u2 := NUL; }
      if u1 == '+' { u1 := ' '; }
      if u1 == '%' {
        used1 := 3;
        if IsHex(At(s, 1)) && IsHex(At(s, 2)) {
          u1 := HexChar(At(s, 1), At(s, 2));
        } else {
          u1 := NUL;
        }
      }
      if u2 == '+' { u2 := ' '; }
      if u2 == '%' {
        used2 := 3;
        if IsHex(At(qs, 1)) && IsHex(At(qs, 2)) {
          u2 := HexChar(At(qs, 1), At(qs, 2));
        } else {
          u2 := NUL;
        }
      }
      assert Next(s) == Token(u1, used1) && Next(qs) == Token(u2, used2);
      if u1 != u2 { return u1 as int - u2 as int; }
      if u1 == NUL { return 0; }
      s, qs := Drop(s, used1), Drop(qs, used2);
    }
    if IsQsChr(At(qs, 0)) { return -1; } else { return 0; }
  }

  /** The comparison looks at the pair alone, not at the memory behind it. */
  lemma {:induction false} CompareStays(s: string, t: string, rest: string, n: nat)
    requires Terminated(t)
    ensures Compare(s, t + rest, n) == Compare(s, t, n)
    decreases n
  {
    hide IsHex, HexChar;
    var all := t + rest;
    NextStays(t, rest);
    assert At(all, 0) == At(t, 0);
    if n > 0 && Next(t).c != NUL && Next(s).c == Next(t).c {
      var k := Next(t).used;
      assert all[k..] == t[k..] + rest;
      CompareStays(Drop(s, Next(s).used), t[k..], rest, n - 1);
    }
  }

  lemma NextStays(t: string, rest: string)
    requires Terminated(t)
    ensures Next(t + rest) == Next(t)
    ensures Next(t).c != NUL ==> Next(t).used < |t|
  {
    assert forall i :: 0 <= i < |t| ==> (t + rest)[i] == t[i];
  }

  /** A key that reads as itself: no separator, escape or plus sign. */
  predicate IsPlain(key: string) {
    forall i :: 0 <= i < |key| ==> IsQsChr(key[i]) && key[i] != '+' && key[i] != '%'
  }

  /** Comparing equal means that the whole text, unescaped, is the key. */
  lemma {:induction false} EqualMeansSame(key: string, t: string)
    requires IsPlain(key)
    ensures Compare(key, t, |key|) == 0 <==> WellEscaped(t) && Unescape(t) == key
    decreases |key|
  {
    hide HexChar;
    if key != [] {
      assert Next(key) == Token(key[0], 1);
      var u := Next(t);
      if t == [] || !IsQsChr(t[0]) {
      } else if t[0] == '%' {
        if IsEscape(t) && u.c == key[0] {
          EqualMeansSame(key[1..], t[3..]);
          assert Unescape(t) == key <==> Unescape(t[3..]) == key[1..];
        }
      } else {
        if u.c == key[0] {
          EqualMeansSame(key[1..], t[1..]);
          assert Unescape(t) == key <==> Unescape(t[1..]) == key[1..];
        }
      }
    }
  }

  // ----- qs_k2v -----

  /** A pair is found under `key`. */
  predicate Matches(w: string, key: string) {
    Compare(key, Shown(w), |CStr(key)|) == 0
  }

  /** A pair is found under a plain key exactly when its own key, unescaped, is that key. */
  lemma MatchesIff(w: string, key: string)
    requires IsPiece(w) && IsPlain(key)
    ensures Matches(w, key) <==> WellEscaped(w[..KeyLength(w)]) && Unescape(w[..KeyLength(w)]) == key
  {
    hide Compare, Unescape, WellEscaped, Span;
    assert CStr(key) == key by {
      assert Span(key, "") == |key|;
    }
    var e := KeyLength(w);
    EqualMeansSame(key, Shown(w));
    KeyEnds(w, NUL, "");
    if e == |w| {
      assert w[..e] == w && Shown(w) == w + [NUL] + "";
      UnescapeStops(w, NUL, "");
    } else {
      var rest := Unescape(w[e + 1..]) + [NUL];
      assert Shown(w) == w[..e] + [w[e]] + rest;
      UnescapeStops(w[..e], w[e], rest);
    }
  }

  /** The text behind the first '=' of a C string, or nothing. */
  function BehindEquals(m: string): string {
    var k := Span(m, "=");
    if k < |m| && m[k] == '=' then CStr(m[k + 1..]) else ""
  }

  function ValueOf(w: string): string {
    BehindEquals(Shown(w))
  }

  function NthValue(ws: seq<string>, key: string, nth: nat): Option<string> {
    if ws == [] then None
    else if !Matches(ws[0], key) then NthValue(ws[1..], key, nth)
    else if nth == 0 then Some(ValueOf(ws[0]))
    else NthValue(ws[1..], key, nth - 1)
  }

  lemma SpanStays(t: string, rest: string, stops: string)
    requires Terminated(t)
    ensures Span(t + rest, stops) == Span(t, stops) < |t|
  {
    SpanStops(t, stops);
    SpanIs(t + rest, stops, Span(t, stops));
  }

  lemma BehindEqualsStays(t: string, rest: string)
    requires Terminated(t)
    ensures BehindEquals(t + rest) == BehindEquals(t)
  {
    hide Span, CStr;
    SpanStays(t, rest, "=");
    var k := Span(t, "=");
    assert (t + rest)[k] == t[k];
    if t[k] == '=' {
      assert (t + rest)[k + 1..] == t[k + 1..] + rest;
      CStrStays(t[k + 1..], rest);
    }
  }

  lemma CStrStays(t: string, rest: string)
    requires Terminated(t)
    ensures CStr(t + rest) == CStr(t)
  {
    hide Span;
    SpanStays(t, rest, "");
  }

  /** Memory in which every start points at its decoded pair. */
  predicate InPlace(m: string, kv: seq<nat>, ws: seq<string>) {
    && |kv| == |ws|
    && forall i :: 0 <= i < |kv| ==> kv[i] < |m| && Shown(ws[i]) <= m[kv[i]..]
  }

  /** `qs_k2v`: the address of the value of the `nth` pair with the key, if there is one. */
  method QsK2v(key: string, m: string, kv: seq<nat>, nth: nat, ghost ws: seq<string>) returns (r: Option<nat>)
    requires InPlace(m, kv, ws)
    ensures r.None? <==> NthValue(ws, key, nth).None?
    ensures r.Some? ==> r.value <= |m| && Some(CStr(m[r.value..])) == NthValue(ws, key, nth)
  {
    hide Compare, Shown, Span;
    var keyLength := Span(key, "");
    var i, count := 0, nth;
    while i < |kv|
      invariant 0 <= i <= |kv|
      invariant NthValue(ws[i..], key, count) == NthValue(ws, key, nth)
    {
      var found := MatchAt(key, m, kv[i], ws[i]);
      assert ws[i..][0] == ws[i] && ws[i..][1..] == ws[i + 1..];
      if found {
        if count == 0 {
          var p := ValueAt(m, kv[i], ws[i]);
          return Some(p);
        } else {
          count := count - 1;
        }
      }
      i := i + 1;
    }
    r := None;
  }

  method MatchAt(key: string, m: string, p: nat, ghost w: string) returns (found: bool)
    requires p < |m| && Shown(w) <= m[p..]
    ensures found <==> Matches(w, key)
  {
    hide Compare, Shown, Span;
    var r := QsStrncmp(key, m[p..], Span(key, ""));
    ghost var t := Shown(w);
    assert m[p..] == t + m[p..][|t|..];
    ShownFits(w);
    CompareStays(key, t, m[p..][|t|..], Span(key, ""));
    found := r == 0;
  }

  method ValueAt(m: string, p: nat, ghost w: string) returns (v: nat)
    requires p < |m| && Shown(w) <= m[p..]
    ensures v <= |m| && CStr(m[v..]) == ValueOf(w)
  {
    hide Shown, Span;
    ghost var t := Shown(w);
    ghost var rest := m[p..][|t|..];
    assert m[p..] == t + rest;
    ShownFits(w);
    BehindEqualsStays(t, rest);
    SpanStays(t, rest, "=");
    var skip := Span(m[p..], "=");
    if m[p + skip] == '=' {
      skip := skip + 1;
      assert m[p..][skip..] == m[p + skip..];
    } else {
      assert m[p + skip] == m[p..][skip] == NUL;
    }
    v := p + skip;
  }

  // ----- query_string -----

  const MAX_PAIRS: nat := 256

  /** The pairs of a URL: what follows the first '?' or '#', cut at every '&'. */
  function UrlPieces(url: string): (ws: seq<string>) {
    var m := url + [NUL];
    SpanStops(m, "?#");
    var k := Span(m, "?#");
    if m[k] == NUL then [] else Pieces(m[k + 1..], MAX_PAIRS)
  }

  class Query {
    const url: array<char>
    var pairs: seq<nat>

    ghost predicate Holds(text: string)
      reads this, url
    {
      InPlace(url[..], pairs, UrlPieces(text))
    }

    constructor (text: string)
      ensures fresh(url) && Holds(text)
    {
      hide Span, Pieces, Starts, ParsedMemory, Shown;
      var buffer := new char[|text| + 1](i => if 0 <= i < |text| then text[i] else NUL);
      ghost var m := text + [NUL];
      assert buffer[..] == m;
      url := buffer;
      pairs := [];
      new;
      if text != "" {
        pairs := QsParse(url, MAX_PAIRS);
      } else {
        assert m[0] == NUL;
        SpanIs(m, "?#", 0);
      }
      ParsedInPlace(text, url[..], pairs);
    }

    /** `get`, and each step of `get_list`. */
    method Get(name: string, nth: nat, ghost text: string) returns (r: Option<string>)
      requires Holds(text)
      ensures r == NthValue(UrlPieces(text), name, nth)
    {
      var p := QsK2v(name, url[..], pairs, nth, UrlPieces(text));
      r := match p
        case None => None
        case Some(v) => Some(CStr(url[v..]));
      assert p.Some? ==> url[p.value..] == url[..][p.value..];
    }
  }

  lemma ParsedInPlace(text: string, memory: string, kv: seq<nat>)
    requires
      var m := text + [NUL];
      var k := Span(m, "?#");
      && k < |m|
      && (m[k] == NUL ==> kv == [])
      && (m[k] != NUL ==>
            && Terminated(m[k + 1..]) && kv == Starts(m[k + 1..], MAX_PAIRS, k + 1)
            && memory == m[..k + 1] + ParsedMemory(m[k + 1..], MAX_PAIRS))
    ensures InPlace(memory, kv, UrlPieces(text))
  {
    hide Span, Pieces, Starts, ParsedMemory, Shown;
    var m := text + [NUL];
    var k := Span(m, "?#");
    if m[k] != NUL {
      var rest := m[k + 1..];
      SameCount(rest, MAX_PAIRS, k + 1);
      forall i | 0 <= i < |kv|
        ensures kv[i] < |memory| && Shown(UrlPieces(text)[i]) <= memory[kv[i]..]
      {
        PairsInPlace(rest, MAX_PAIRS, k + 1, i);
        assert memory[kv[i]..] == ParsedMemory(rest, MAX_PAIRS)[kv[i] - (k + 1)..];
      }
    }
  }

  // ----- The round trip -----

  /** The unreserved characters of section 2.3 of RFC 3986. */
  predicate Unreserved(c: char) {
    'A' <= c <= 'Z' || 'a' <= c <= 'z' || '0' <= c <= '9' || c == '-' || c == '.' || c == '_' || c == '~'
  }

  function HexDigit(n: nat): char
    requires n < 16
  {
    if n < 10 then (48 + n) as char else (55 + n) as char
  }

  /** Percent-encoding, section 2.1 of RFC 3986, of characters of one byte. */
  function PercentEncode(v: string): string
    requires IsBytes(v)
  {
    if v == [] then []
    else (if Unreserved(v[0]) then [v[0]] else ['%', HexDigit(v[0] as nat / 16), HexDigit(v[0] as nat % 16)])
         + PercentEncode(v[1..])
  }

  lemma HexReadsBack(c: char)
    requires c as int < 256
    ensures
      var high, low := HexDigit(c as nat / 16), HexDigit(c as nat % 16);
      IsHex(high) && IsHex(low) && IsQsChr(high) && IsQsChr(low) && HexChar(high, low) == c
  {
  }

  lemma {:induction false} UnescapeEncoded(v: string)
    requires IsBytes(v)
    ensures WellEscaped(PercentEncode(v)) && Unescape(PercentEncode(v)) == v
    ensures forall i :: 0 <= i < |PercentEncode(v)| ==> IsQsChr(PercentEncode(v)[i])
  {
    if v != [] {
      hide HexDigit, HexChar, IsHex;
      HexReadsBack(v[0]);
      UnescapeEncoded(v[1..]);
      var e, rest := PercentEncode(v), PercentEncode(v[1..]);
      if Unreserved(v[0]) {
        assert e[1..] == rest;
      } else {
        assert e[3..] == rest && IsEscape(e);
      }
    }
  }

  datatype Pair = Pair(key: string, value: string)

  /** A key and a value of bytes without NUL. */
  predicate Encodable(p: Pair) {
    && IsBytes(p.key) && IsBytes(p.value)
    && (forall i :: 0 <= i < |p.key| ==> p.key[i] != NUL) && (forall i :: 0 <= i < |p.value| ==> p.value[i] != NUL)
  }

  predicate AllEncodable(ps: seq<Pair>) {
    forall i :: 0 <= i < |ps| ==> Encodable(ps[i])
  }

  function PairText(p: Pair): string
    requires Encodable(p)
  {
    PercentEncode(p.key) + "=" + PercentEncode(p.value)
  }

  function QueryOf(ps: seq<Pair>): string
    requires AllEncodable(ps)
  {
    if ps == [] then ""
    else if |ps| == 1 then PairText(ps[0])
    else PairText(ps[0]) + "&" + QueryOf(ps[1..])
  }

  function Texts(ps: seq<Pair>): seq<string>
    requires AllEncodable(ps)
  {
    if ps == [] then [] else [PairText(ps[0])] + Texts(ps[1..])
  }

  /** The values given for `key`, in order. */
  function ValuesFor(ps: seq<Pair>, key: string): seq<string> {
    if ps == [] then [] else (if ps[0].key == key then [ps[0].value] else []) + ValuesFor(ps[1..], key)
  }

  lemma PairReadsBack(p: Pair, key: string)
    requires Encodable(p) && IsPlain(key)
    ensures IsPiece(PairText(p))
    ensures Matches(PairText(p), key) <==> p.key == key
    ensures ValueOf(PairText(p)) == p.value
  {
    hide Compare, Unescape, PercentEncode, WellEscaped, Span, Shown, Matches, ValueOf;
    var w, k := PairText(p), PercentEncode(p.key);
    PairShows(p);
    UnescapeEncoded(p.key);
    assert w[..|k|] == k;
    MatchesIff(w, key);
    ValueBehind(w, k, p.value);
  }

  /** The text of a pair: where its key ends, and how it reads once decoded. */
  lemma PairShows(p: Pair)
    requires Encodable(p)
    ensures IsPiece(PairText(p)) && KeyLength(PairText(p)) == |PercentEncode(p.key)|
    ensures Shown(PairText(p)) == PercentEncode(p.key) + "=" + p.value + [NUL]
  {
    hide Unescape, PercentEncode, Span;
    UnescapeEncoded(p.value);
    UnescapeEncoded(p.key);
    var w, k := PairText(p), PercentEncode(p.key);
    SpanIs(w, "=&#", |k|);
    assert w[..|k| + 1] == k + "=" && w[|k| + 1..] == PercentEncode(p.value);
  }

  lemma ValueBehind(w: string, key: string, value: string)
    requires Shown(w) == key + "=" + value + [NUL]
    requires forall i :: 0 <= i < |key| ==> key[i] != NUL && key[i] != '='
    requires forall i :: 0 <= i < |value| ==> value[i] != NUL
    ensures ValueOf(w) == value
  {
    hide Span, Shown;
    var m := Shown(w);
    SpanIs(m, "=", |key|);
    assert m[|key| + 1..] == value + [NUL];
    SpanIs(value + [NUL], "", |value|);
  }

  function First(ps: seq<Pair>, n: nat): seq<Pair> {
    if |ps| <= n then ps else ps[..n]
  }

  /** Splitting the query gives the encoded pairs back, up to the limit. */
  lemma {:induction false} SplitReadsBack(ps: seq<Pair>, n: nat)
    requires AllEncodable(ps) && ps != [] && n > 0
    ensures Pieces(QueryOf(ps) + [NUL], n) == Texts(First(ps, n))
    decreases |ps|
  {
    hide PairText, Pieces, IsPiece, Encodable, Matches, ValueOf;
    var w := PairText(ps[0]);
    PairReadsBack(ps[0], "");
    if |ps| > 1 {
      var rest := QueryOf(ps[1..]) + [NUL];
      FirstPiece(w, '&', rest, n);
      assert QueryOf(ps) + [NUL] == w + ['&'] + rest;
      if n == 1 {
        NoPieces(rest);
        assert First(ps, 1)[1..] == [];
      } else {
        SplitReadsBack(ps[1..], n - 1);
        assert First(ps, n)[1..] == First(ps[1..], n - 1);
      }
    } else {
      FirstPiece(w, NUL, [], n);
      assert QueryOf(ps) + [NUL] == w + [NUL] + [];
      NoPieces([]);
      assert Texts(ps[1..]) == [];
    }
  }

  lemma FirstPiece(w: string, end: char, rest: string, n: nat)
    requires IsPiece(w) && (end == '&' || end == NUL) && n > 0
    requires Terminated([end] + rest)
    ensures Terminated(w + [end] + rest)
    ensures Left(n, end) > 0 ==> Terminated(rest)
    ensures Pieces(w + [end] + rest, n) == [w] + Pieces(rest, Left(n, end))
  {
    hide Span, Pieces;
    var m := w + [end] + rest;
    assert m[|m| - 1] == ([end] + rest)[|rest|];
    SpanIs(m, "&", |w|);
    UnfoldPieces(m, n, |w|, Left(n, end));
    assert m[..|w|] == w && m[|w| + 1..] == rest;
  }

  lemma NoPieces(m: string)
    ensures Pieces(m, 0) == []
  {
  }

  lemma {:induction false} LookupReadsBack(ps: seq<Pair>, key: string, nth: nat)
    requires AllEncodable(ps) && IsPlain(key)
    ensures NthValue(Texts(ps), key, nth)
         == if nth < |ValuesFor(ps, key)| then Some(ValuesFor(ps, key)[nth]) else None
    decreases |ps|
  {
    hide Matches, ValueOf, PairText;
    var ws := Texts(ps);
    if ps != [] {
      PairReadsBack(ps[0], key);
      if ps[0].key != key {
        LookupReadsBack(ps[1..], key, nth);
      } else if nth > 0 {
        LookupReadsBack(ps[1..], key, nth - 1);
      }
    }
  }

  /** Percent-encoding pairs into a URL behind a '?' or '#', parsing it and looking
      a key up gives the values of the pairs with that key, in order, among the
      first 256 pairs. */
  lemma QueryRoundTrip(path: string, mark: char, ps: seq<Pair>, key: string, nth: nat)
    requires AllEncodable(ps) && IsPlain(key) && key != "" && (mark == '?' || mark == '#')
    requires forall i :: 0 <= i < |path| ==> path[i] != '?' && path[i] != '#' && path[i] != NUL
    ensures
      var found := ValuesFor(First(ps, 256), key);
      NthValue(UrlPieces(path + [mark] + QueryOf(ps)), key, nth) == if nth < |found| then Some(found[nth]) else None
  {
    hide Span, Pieces, QueryOf, NthValue, ValuesFor;
    var m := path + [mark] + QueryOf(ps) + [NUL];
    SpanIs(m, "?#", |path|);
    assert m[|path| + 1..] == QueryOf(ps) + [NUL];
    if ps == [] {
      NoPairsNoValue(key, nth);
    } else {
      SplitReadsBack(ps, MAX_PAIRS);
      LookupReadsBack(First(ps, 256), key, nth);
    }
  }

  /** An empty query is one pair with an empty key, which no other key finds. */
  lemma NoPairsNoValue(key: string, nth: nat)
    requires IsPlain(key) && key != ""
    ensures QueryOf([]) == "" && ValuesFor([], key) == []
    ensures NthValue(Pieces(QueryOf([]) + [NUL], MAX_PAIRS), key, nth) == None
  {
    hide Compare;
    var m := QueryOf([]) + [NUL];
    SpanIs(m, "&", 0);
    MatchesIff("", key);
    assert Pieces(m, MAX_PAIRS) == [""];
  }

  /** The same through the class. */
  method EncodeAndGet(path: string, mark: char, ps: seq<Pair>, key: string, nth: nat) returns (r: Option<string>)
    requires AllEncodable(ps) && IsPlain(key) && key != "" && (mark == '?' || mark == '#')
    requires forall i :: 0 <= i < |path| ==> path[i] != '?' && path[i] != '#' && path[i] != NUL
    ensures
      var found := ValuesFor(First(ps, 256), key);
      r == if nth < |found| then Some(found[nth]) else None
  {
    QueryRoundTrip(path, mark, ps, key, nth);
    var query := new Query(path + [mark] + QueryOf(ps));
    r := query.Get(key, nth, path + [mark] + QueryOf(ps));
  }
}
