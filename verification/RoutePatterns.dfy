/** What the text of a route pattern means, character by character and parameter
    by parameter. */
module RoutePatterns {
  import opened Decimal
  import opened Trie
  import opened TrieOptimize
  import opened RouteTable

  // ----- Matching goes on behind what was matched -----

  /** Matching from a position is matching what lies behind it. */
  lemma {:induction false} AdvanceShift(sd: Strtod, tokens: seq<Token>, url: string, k: nat, pos: nat, ps: Params)
    requires k <= pos <= |url|
    ensures Advance(sd, tokens, url, pos, ps) ==
      match Advance(sd, tokens, url[k..], pos - k, ps)
      case None => None
      case Some((end, captured)) => Some((end + k, captured))
    decreases |tokens|
  {
    hide Capture;
    if tokens != [] && pos < |url| {
      assert url[k..][pos - k] == url[pos] && url[k..][pos - k..] == url[pos..];
      match tokens[0]
      case Ch(c) =>
        AdvanceShift(sd, tokens[1..], url, k, pos + 1, ps);
      case Par(kind) =>
        var got := Capture(sd, kind, url[pos..], ps);
        if got.Some? {
          AdvanceShift(sd, tokens[1..], url, k, pos + got.value.0, got.value.1);
        }
    }
  }

  /** One token, then the rest of the pattern on the rest of the URL. */
  lemma CaughtStep(sd: Strtod, pattern: string, token: Token, more: string, url: string, ps: Params)
    requires Tokenize(pattern) ==
      match Tokenize(more)
      case None => None
      case Some(rest) => Some([token] + rest)
    ensures url == "" ==> Caught(sd, pattern, url, ps) == None
    ensures url != "" && token.Ch? ==>
      Caught(sd, pattern, url, ps) == if url[0] == token.c then Caught(sd, more, url[1..], ps) else None
    ensures url != "" && token.Par? ==>
      Caught(sd, pattern, url, ps) ==
        match Capture(sd, token.kind, url, ps)
        case None => None
        case Some((k, captured)) => Caught(sd, more, url[k..], captured)
  {
    hide Capture, Tokenize;
    if Tokenize(more).Some? && url != "" {
      var rest := Tokenize(more).value;
      assert ([token] + rest)[1..] == rest && url[0..] == url;
      match token
      case Ch(c) =>
        AdvanceShift(sd, rest, url, 1, 1, ps);
      case Par(kind) =>
        var got := Capture(sd, kind, url, ps);
        if got.Some? {
          AdvanceShift(sd, rest, url, got.value.0, got.value.0, got.value.1);
        }
    }
  }

  // ----- Literal text -----

  lemma NothingLeft(sd: Strtod, url: string, ps: Params)
    ensures Caught(sd, "", url, ps) == if url == "" then Some(ps) else None
  {
  }

  /** A character other than '<' matches itself. */
  lemma Character(sd: Strtod, c: char, more: string, url: string, ps: Params)
    requires c != '<'
    ensures Caught(sd, [c] + more, url, ps)
      == if url != "" && url[0] == c then Caught(sd, more, url[1..], ps) else None
  {
    assert ([c] + more)[1..] == more;
    CaughtStep(sd, [c] + more, Ch(c), more, url, ps);
  }

  /** Text without '<' matches itself. */
  lemma {:induction false} Literal(sd: Strtod, text: string, more: string, url: string, ps: Params)
    requires '<' !in text
    ensures Caught(sd, text + more, url, ps) == if text <= url then Caught(sd, more, url[|text|..], ps) else None
  {
    hide Caught;
    if text == "" {
      assert text + more == more && url[0..] == url;
    } else {
      assert text + more == [text[0]] + (text[1..] + more);
      Character(sd, text[0], text[1..] + more, url, ps);
      if url != "" && url[0] == text[0] {
        Literal(sd, text[1..], more, url[1..], ps);
        assert |text| <= |url| ==> url[1..][|text| - 1..] == url[|text|..];
        assert text <= url <==> text[1..] <= url[1..] by {
          assert text == [text[0]] + text[1..] && url == [url[0]] + url[1..];
        }
      }
    }
  }

  // ----- Parameters -----

  lemma TokenOf(name: string, kind: ParamType, more: string)
    requires TraitAt(name + more, 0) == Some((|name|, kind)) && name != "" && name[0] == '<'
    ensures Tokenize(name + more) ==
      match Tokenize(more)
      case None => None
      case Some(rest) => Some([Par(kind)] + rest)
  {
    hide TraitAt;
    assert (name + more)[|name|..] == more;
  }

  /** The names of the parameters. */
  lemma Names(more: string)
    ensures TraitAt("<int>" + more, 0) == Some((5, INT)) && TraitAt("<uint>" + more, 0) == Some((6, UINT))
    ensures TraitAt("<float>" + more, 0) == Some((7, DOUBLE)) && TraitAt("<double>" + more, 0) == Some((8, DOUBLE))
    ensures TraitAt("<str>" + more, 0) == Some((5, STRING)) && TraitAt("<string>" + more, 0) == Some((8, STRING))
    ensures TraitAt("<path>" + more, 0) == Some((6, PATH))
  {
    NameAt("<int>", more, 0);
    NameAt("<uint>", more, 1);
    NameAt("<float>", more, 2);
    NameAt("<double>", more, 3);
    NameAt("<str>", more, 4);
    NameAt("<string>", more, 5);
    NameAt("<path>", more, 6);
  }

  lemma NameAt(name: string, more: string, i: nat)
    requires i < |TRAITS| && TRAITS[i].0 == name
    ensures TraitAt(name + more, 0) == Some((|name|, TRAITS[i].1))
  {
    NameFrom(name, more, i, 0);
  }

  lemma {:induction false} NameFrom(name: string, more: string, i: nat, from: nat)
    requires from <= i < |TRAITS| && TRAITS[i].0 == name
    ensures TraitAt(name + more, from) == Some((|name|, TRAITS[i].1))
    decreases i - from
  {
    if from < i {
      NoOther(name, more, i, from);
      NameFrom(name, more, i, from + 1);
    } else {
      assert name <= name + more;
    }
  }

  /** No name begins with another. */
  lemma NoOther(name: string, more: string, i: nat, j: nat)
    requires j < i < |TRAITS| && TRAITS[i].0 == name
    ensures !(TRAITS[j].0 <= name + more)
  {
    var other := TRAITS[j].0;
    var k := if i == 5 && j == 4 then 4 else 1;
    assert other[k] != name[k] == (name + more)[k];
  }

  /** An optional sign and digits at the front of a URL, up to something else. */
  ghost predicate IsNumeral(sign: string, d: string, rest: string) {
    sign in ["", "+", "-"] && d != [] && AllDigits(d) && (rest == [] || !IsDigit(rest[0]))
  }

  function Signed(sign: string, n: nat): int {
    if sign == "-" then -(n as int) else n
  }

  /** "<int>" takes a numeral in the range of 64 bits, and nothing else. */
  lemma IntParameter(sd: Strtod, more: string, sign: string, d: string, rest: string, ps: Params)
    requires IsNumeral(sign, d, rest)
    ensures
      var n := Signed(sign, Value(d));
      Caught(sd, "<int>" + more, sign + d + rest, ps)
        == if -0x8000_0000_0000_0000 <= n < 0x8000_0000_0000_0000 then Caught(sd, more, rest, ps.(ints := ps.ints + [n])) else None
  {
    hide Caught, Tokenize, TraitAt, Value, Capture;
    var url := sign + d + rest;
    Names(more);
    TokenOf("<int>", INT, more);
    CaughtStep(sd, "<int>" + more, Par(INT), more, url, ps);
    NumeralCaught(sd, sign, d, rest, ps);
    assert url[|sign| + |d|..] == rest;
  }

  /** "<uint>" takes a numeral without '-' in the unsigned range of 64 bits. */
  lemma UintParameter(sd: Strtod, more: string, sign: string, d: string, rest: string, ps: Params)
    requires IsNumeral(sign, d, rest)
    ensures
      Caught(sd, "<uint>" + more, sign + d + rest, ps)
        == if sign != "-" && Value(d) < 0x1_0000_0000_0000_0000 then Caught(sd, more, rest, ps.(uints := ps.uints + [Value(d)])) else None
  {
    hide Caught, Tokenize, TraitAt, Value, Capture;
    var url := sign + d + rest;
    Names(more);
    TokenOf("<uint>", UINT, more);
    CaughtStep(sd, "<uint>" + more, Par(UINT), more, url, ps);
    NumeralCaught(sd, sign, d, rest, ps);
    assert url[|sign| + |d|..] == rest;
  }

  lemma NumeralCaught(sd: Strtod, sign: string, d: string, rest: string, ps: Params)
    requires IsNumeral(sign, d, rest)
    ensures
      var url, n := sign + d + rest, Signed(sign, Value(d));
      && Capture(sd, INT, url, ps) == (if -0x8000_0000_0000_0000 <= n < 0x8000_0000_0000_0000
           then Some((|sign| + |d|, ps.(ints := ps.ints + [n]))) else None)
      && Capture(sd, UINT, url, ps) == (if sign != "-" && 0 <= n < 0x1_0000_0000_0000_0000
           then Some((|sign| + |d|, ps.(uints := ps.uints + [n]))) else None)
  {
    hide Value, ReadInteger;
    var url := sign + d + rest;
    SignedReadsBack(sign, d, rest, -0x8000_0000_0000_0000, 0x7fff_ffff_ffff_ffff);
    SignedReadsBack(sign, d, rest, 0, 0xffff_ffff_ffff_ffff);
    assert IsDigit(d[0]);
    assert url[0] == if sign == "" then d[0] else sign[0];
  }

  /** Without digits there is no match. */
  lemma NoNumeral(sd: Strtod, more: string, url: string, ps: Params)
    requires
      var t := if url != "" && (url[0] == '+' || url[0] == '-') then url[1..] else url;
      t == "" || !IsDigit(t[0])
    ensures Caught(sd, "<int>" + more, url, ps) == None && Caught(sd, "<uint>" + more, url, ps) == None
  {
    hide Caught, Tokenize, TraitAt, Value;
    Names(more);
    TokenOf("<int>", INT, more);
    TokenOf("<uint>", UINT, more);
    CaughtStep(sd, "<int>" + more, Par(INT), more, url, ps);
    CaughtStep(sd, "<uint>" + more, Par(UINT), more, url, ps);
  }

  /** "<string>" and "<str>" take everything up to the next slash, if there is anything. */
  lemma StringParameter(sd: Strtod, more: string, segment: string, rest: string, ps: Params)
    requires '/' !in segment && (rest == "" || rest[0] == '/')
    ensures
      var expected := if segment == "" then None else Caught(sd, more, rest, ps.(strings := ps.strings + [segment]));
      && Caught(sd, "<string>" + more, segment + rest, ps) == expected
      && Caught(sd, "<str>" + more, segment + rest, ps) == expected
  {
    hide Caught, Tokenize, TraitAt;
    var url := segment + rest;
    Names(more);
    TokenOf("<string>", STRING, more);
    TokenOf("<str>", STRING, more);
    CaughtStep(sd, "<string>" + more, Par(STRING), more, url, ps);
    CaughtStep(sd, "<str>" + more, Par(STRING), more, url, ps);
    SlashAfter(segment, rest);
    assert url[..|segment|] == segment && url[|segment|..] == rest;
  }

  /** "<path>" takes all the rest, slashes included, if there is any. */
  lemma PathParameter(sd: Strtod, more: string, url: string, ps: Params)
    ensures Caught(sd, "<path>" + more, url, ps)
      == if url == "" then None else Caught(sd, more, "", ps.(strings := ps.strings + [url]))
  {
    hide Caught, Tokenize, TraitAt;
    Names(more);
    TokenOf("<path>", PATH, more);
    CaughtStep(sd, "<path>" + more, Par(PATH), more, url, ps);
    assert url[|url|..] == "";
  }

  /** "<float>" and "<double>" take what `strtod` reads, if it begins like a number. */
  lemma FloatParameter(sd: Strtod, more: string, url: string, ps: Params)
    ensures
      var expected :=
        if url == "" || !(IsDigit(url[0]) || url[0] in "+-.") then None else
        match sd(url)
        case None => None
        case Some((v, k)) => if 0 < k <= |url| then Caught(sd, more, url[k..], ps.(doubles := ps.doubles + [v])) else None;
      && Caught(sd, "<float>" + more, url, ps) == expected
      && Caught(sd, "<double>" + more, url, ps) == expected
  {
    hide Caught, Tokenize, TraitAt;
    Names(more);
    TokenOf("<float>", DOUBLE, more);
    TokenOf("<double>", DOUBLE, more);
    CaughtStep(sd, "<float>" + more, Par(DOUBLE), more, url, ps);
    CaughtStep(sd, "<double>" + more, Par(DOUBLE), more, url, ps);
  }

  /** A '<' that begins no parameter's name matches nothing. */
  lemma NoParameter(sd: Strtod, pattern: string, url: string, ps: Params)
    requires pattern != "" && pattern[0] == '<'
    requires forall name ::
      name in ["<int>", "<uint>", "<float>", "<double>", "<str>", "<string>", "<path>"] ==> !(name <= pattern)
    ensures Caught(sd, pattern, url, ps) == None
  {
    NoTrait(pattern, 0);
  }

  lemma {:induction false} NoTrait(s: string, from: nat)
    requires from <= |TRAITS|
    requires forall name ::
      name in ["<int>", "<uint>", "<float>", "<double>", "<str>", "<string>", "<path>"] ==> !(name <= s)
    ensures TraitAt(s, from) == None
    decreases |TRAITS| - from
  {
    if from < |TRAITS| {
      assert TRAITS[from].0 in ["<int>", "<uint>", "<float>", "<double>", "<str>", "<string>", "<path>"];
      NoTrait(s, from + 1);
    }
  }

  // ----- Whole patterns -----

  /** Text, then one parameter at the end of the pattern. */
  lemma EndsInPath(sd: Strtod, pre: string, p: string)
    requires '<' !in pre
    ensures Caught(sd, pre + "<path>", pre + p, NO_PARAMS)
      == if p == "" then None else Some(NO_PARAMS.(strings := [p]))
  {
    hide Caught;
    Literal(sd, pre, "<path>", pre + p, NO_PARAMS);
    assert pre <= pre + p && (pre + p)[|pre|..] == p && "<path>" + "" == "<path>";
    PathParameter(sd, "", p, NO_PARAMS);
    assert NO_PARAMS.strings + [p] == [p];
    NothingLeft(sd, "", NO_PARAMS.(strings := [p]));
  }

  lemma EndsInString(sd: Strtod, pre: string, p: string)
    requires '<' !in pre
    ensures
      var expected := if p != "" && '/' !in p then Some(NO_PARAMS.(strings := [p])) else None;
      Caught(sd, pre + "<string>", pre + p, NO_PARAMS) == Caught(sd, pre + "<str>", pre + p, NO_PARAMS) == expected
  {
    hide Caught;
    var url := pre + p;
    Literal(sd, pre, "<string>", url, NO_PARAMS);
    Literal(sd, pre, "<str>", url, NO_PARAMS);
    assert pre <= url && url[|pre|..] == p;
    LastSegment(sd, p);
  }

  lemma LastSegment(sd: Strtod, p: string)
    ensures
      var expected := if p != "" && '/' !in p then Some(NO_PARAMS.(strings := [p])) else None;
      Caught(sd, "<string>", p, NO_PARAMS) == Caught(sd, "<str>", p, NO_PARAMS) == expected
  {
    hide Caught, SlashAt;
    var k := SlashAt(p);
    var segment, rest := p[..k], p[k..];
    assert p == segment + rest;
    assert "<string>" + "" == "<string>" && "<str>" + "" == "<str>";
    StringParameter(sd, "", segment, rest, NO_PARAMS);
    assert NO_PARAMS.strings + [segment] == [segment];
    NothingLeft(sd, rest, NO_PARAMS.(strings := [segment]));
    if k < |p| {
      assert p[k] == '/';
    } else {
      assert segment == p;
    }
  }

  /** A printed integer at the end. */
  lemma EndsInInt(sd: Strtod, pre: string, n: int)
    requires '<' !in pre
    ensures Caught(sd, pre + "<int>", pre + ToString(n), NO_PARAMS)
      == if -0x8000_0000_0000_0000 <= n < 0x8000_0000_0000_0000 then Some(NO_PARAMS.(ints := [n])) else None
    ensures Caught(sd, pre + "<uint>", pre + ToString(n), NO_PARAMS)
      == if 0 <= n < 0x1_0000_0000_0000_0000 then Some(NO_PARAMS.(uints := [n])) else None
  {
    hide Caught, Digits, Value;
    var text, d, sign := ToString(n), Digits(if n < 0 then -n else n), if n < 0 then "-" else "";
    Literal(sd, pre, "<int>", pre + text, NO_PARAMS);
    Literal(sd, pre, "<uint>", pre + text, NO_PARAMS);
    assert pre <= pre + text && (pre + text)[|pre|..] == text && "<int>" + "" == "<int>" && "<uint>" + "" == "<uint>";
    ValueOfDigits(if n < 0 then -n else n);
    assert text == sign + d + "";
    IntParameter(sd, "", sign, d, "", NO_PARAMS);
    UintParameter(sd, "", sign, d, "", NO_PARAMS);
    assert NO_PARAMS.ints + [n] == [n] && NO_PARAMS.uints + [n] == [n];
    NothingLeft(sd, "", NO_PARAMS.(ints := [n]));
    if n >= 0 {
      NothingLeft(sd, "", NO_PARAMS.(uints := [n]));
    }
  }

  /** A pattern without parameters matches itself only. */
  lemma NoParameters(sd: Strtod, pattern: string, url: string)
    requires '<' !in pattern
    ensures Caught(sd, pattern, url, NO_PARAMS) == if url == pattern then Some(NO_PARAMS) else None
  {
    hide Caught;
    assert pattern + "" == pattern;
    Literal(sd, pattern, "", url, NO_PARAMS);
    if pattern <= url {
      NothingLeft(sd, url[|pattern|..], NO_PARAMS);
    }
  }

  /** A table with one rule: looking a URL up gives that rule and what its
      pattern caught, or nothing. */
  lemma OneRule(sd: Strtod, rule: Rule, url: string)
    requires Valid(rule)
    ensures AllValid([rule]) && Build([rule]).Some?
    ensures
      var found, caught := Cleaned(Find(sd, Optimize(Build([rule]).value), url, 0, NO_PARAMS)), Caught(sd, rule.pattern, url, NO_PARAMS);
      found == if caught.Some? then Found(rule.index, caught.value) else NOTHING
  {
    hide Caught, Find, Optimize, Build, Tokenize;
    assert [rule][0] == rule;
    RoutingIsCorrect(sd, [rule], url);
  }
}
