/** Crow's route trie: adding patterns, path compression, and lookup. */
module Trie {
  import opened Decimal

  datatype ParamType = INT | UINT | DOUBLE | STRING | PATH

  /** A trie node; `param` is `None` for a literal node, and a rule index of 0
      means that no rule ends here. */
  datatype Node = Node(rule: nat, key: string, param: Option<ParamType>, children: seq<Node>)

  datatype Params = Params(ints: seq<int>, uints: seq<int>, doubles: seq<real>, strings: seq<string>)

  const NO_PARAMS := Params([], [], [], [])

  /** `strtod` on a suffix of the URL: the value and how much of it was read. */
  type Strtod = string -> Option<(real, nat)>

  /** A rule index with captured parameters; index 0 stands for no match. */
  datatype Found = Found(rule: nat, params: Params)

  const NOTHING := Found(0, NO_PARAMS)

  // ----- Patterns and the simple matcher -----

  datatype Token = Ch(c: char) | Par(kind: ParamType)

  predicate IsIntSign(c: char) {
    c == '+' || c == '-'
  }

  /** `strtoll` and `strtoull` in base 10: an optional sign, then digits; `None`
      without digits or when the value is out of range. */
  function ReadInteger(s: string, low: int, high: int): (r: Option<(int, nat)>)
    ensures r.Some? ==> 0 < r.value.1 <= |s|
  {
    var sign := if s != [] && IsIntSign(s[0]) then 1 else 0;
    var k := DigitSpan(s[sign..]);
    if k == 0 then None else
    var n: int := Value(s[sign..][..k]);
    var v := if s[0] == '-' then -n else n;
    if low <= v <= high then Some((v, sign + k)) else None
  }

  function SlashAt(s: string): (k: nat)
    ensures k <= |s| && '/' !in s[..k]
    ensures k < |s| ==> s[k] == '/'
  {
    if s == [] || s[0] == '/' then 0 else 1 + SlashAt(s[1..])
  }

  /** What a parameter of the given kind captures at the start of `s`, and how
      many characters it takes; `None` if it does not match there. */
  function Capture(sd: Strtod, kind: ParamType, s: string, ps: Params): (r: Option<(nat, Params)>)
    requires s != []
    ensures r.Some? ==> 0 < r.value.0 <= |s|
  {
    var c := s[0];
    match kind
    case INT =>
      if !(IsDigit(c) || c == '+' || c == '-') then None else
      (match ReadInteger(s, -0x8000_0000_0000_0000, 0x7fff_ffff_ffff_ffff)
       case None => None
       case Some((v, k)) => Some((k, ps.(ints := ps.ints + [v]))))
    case UINT =>
      if !(IsDigit(c) || c == '+') then None else
      (match ReadInteger(s, 0, 0xffff_ffff_ffff_ffff)
       case None => None
       case Some((v, k)) => Some((k, ps.(uints := ps.uints + [v]))))
    case DOUBLE =>
      if !(IsDigit(c) || c == '+' || c == '-' || c == '.') then None else
      (match sd(s)
       case None => None
       case Some((v, k)) => if 0 < k <= |s| then Some((k, ps.(doubles := ps.doubles + [v]))) else None)
    case STRING =>
      var k := SlashAt(s);
      if k == 0 then None else Some((k, ps.(strings := ps.strings + [s[..k]])))
    case PATH => Some((|s|, ps.(strings := ps.strings + [s])))
  }

  lemma {:induction false} SignedReadsBack(sign: string, d: string, rest: string, low: int, high: int)
    requires sign in ["", "+", "-"]
    requires d != [] && AllDigits(d) && (rest == [] || !IsDigit(rest[0]))
    ensures
      var n: int := if sign == "-" then -(Value(d) as int) else Value(d);
      ReadInteger(sign + d + rest, low, high) == if low <= n <= high then Some((n, |sign| + |d|)) else None
  {
    hide Value, DigitSpan;
    var t := sign + d + rest;
    DigitsEnd(d, rest);
    assert IsDigit(d[0]) && t[|sign|] == d[0];
    assert t[|sign|..] == d + rest && (d + rest)[..|d|] == d;
  }

  /** A printed integer in the URL reads back as itself if it is in range. */
  lemma {:induction false} IntegerReadsBack(n: int, rest: string, low: int, high: int)
    requires rest == [] || !IsDigit(rest[0])
    ensures ReadInteger(ToString(n) + rest, low, high) == if low <= n <= high then Some((n, |ToString(n)|)) else None
  {
    hide Value, ReadInteger, Digits;
    var d, sign := Digits(if n < 0 then -n else n), if n < 0 then "-" else "";
    ValueOfDigits(if n < 0 then -n else n);
    SignedReadsBack(sign, d, rest, low, high);
    assert ToString(n) == sign + d;
  }

  lemma {:induction false} SlashAfter(segment: string, rest: string)
    requires '/' !in segment && (rest == [] || rest[0] == '/')
    ensures SlashAt(segment + rest) == |segment|
  {
    if segment == [] {
      assert segment + rest == rest;
    } else {
      assert (segment + rest)[1..] == segment[1..] + rest;
      SlashAfter(segment[1..], rest);
    }
  }

  /** What each kind of parameter captures of a URL that goes on with `rest`:
      integers in their 64-bit range, a segment up to the next slash, or all. */
  lemma {:induction false} CaptureReadsBack(sd: Strtod, n: int, segment: string, rest: string, ps: Params)
    requires rest == [] || rest[0] == '/'
    requires segment != [] && '/' !in segment
    ensures Capture(sd, INT, ToString(n) + rest, ps) ==
      if -0x8000_0000_0000_0000 <= n < 0x8000_0000_0000_0000 then Some((|ToString(n)|, ps.(ints := ps.ints + [n]))) else None
    ensures Capture(sd, UINT, ToString(n) + rest, ps) ==
      if 0 <= n < 0x1_0000_0000_0000_0000 then Some((|ToString(n)|, ps.(uints := ps.uints + [n]))) else None
    ensures Capture(sd, STRING, segment + rest, ps) == Some((|segment|, ps.(strings := ps.strings + [segment])))
    ensures Capture(sd, PATH, segment + rest, ps) == Some((|segment + rest|, ps.(strings := ps.strings + [segment + rest])))
  {
    hide ReadInteger, Digits;
    IntegerReadsBack(n, rest, -0x8000_0000_0000_0000, 0x7fff_ffff_ffff_ffff);
    IntegerReadsBack(n, rest, 0, 0xffff_ffff_ffff_ffff);
    var d := Digits(if n < 0 then -n else n);
    assert IsDigit(d[0]) && (ToString(n) + rest)[0] == if n < 0 then '-' else d[0];
    var t := segment + rest;
    SlashAfter(segment, rest);
    assert t[..|segment|] == segment;
  }

  /** Matching tokens one after the other from `pos` on. */
  function Advance(sd: Strtod, tokens: seq<Token>, url: string, pos: nat, ps: Params): (r: Option<(nat, Params)>)
    requires pos <= |url|
    ensures r.Some? ==> pos + |tokens| <= r.value.0 <= |url|
  {
    if tokens == [] then Some((pos, ps))
    else if pos == |url| then None
    else
      match tokens[0]
      case Ch(c) => if url[pos] == c then Advance(sd, tokens[1..], url, pos + 1, ps) else None
      case Par(kind) =>
        match Capture(sd, kind, url[pos..], ps)
        case None => None
        case Some((k, ps')) => Advance(sd, tokens[1..], url, pos + k, ps')
  }

  /** The specification: a pattern matches a URL when its tokens use up all of
      it; the result is what its parameters captured. */
  function Match(sd: Strtod, tokens: seq<Token>, url: string): Option<Params> {
    match Advance(sd, tokens, url, 0, NO_PARAMS)
    case Some((end, ps)) => if end == |url| then Some(ps) else None
    case None => None
  }

  // ----- Lookup as the trie does it -----

  /** `update_found`: keep the smaller non-zero rule index, the earlier on a tie. */
  function Better(a: Found, b: Found): Found {
    if b.rule != 0 && (a.rule == 0 || a.rule > b.rule) then b else a
  }

  /** The characters of `fragment` compared with the URL at `pos`. */
  predicate Agrees(fragment: string, url: string, pos: nat)
    requires pos <= |url|
  {
    pos + |fragment| <= |url| && url[pos..pos + |fragment|] == fragment
  }

  function Find(sd: Strtod, node: Node, url: string, pos: nat, ps: Params): Found
    requires pos <= |url|
    decreases node, 1
  {
    if pos == |url| then Found(node.rule, ps) else FindIn(sd, node.children, url, pos, ps)
  }

  /** The loop over a node's children. */
  function FindIn(sd: Strtod, children: seq<Node>, url: string, pos: nat, ps: Params): Found
    requires pos < |url|
    decreases children, 0
  {
    if children == [] then NOTHING
    else Better(FindIn(sd, children[..|children| - 1], url, pos, ps), Through(sd, children[|children| - 1], url, pos, ps))
  }

  /** What one child contributes. */
  function Through(sd: Strtod, child: Node, url: string, pos: nat, ps: Params): Found
    requires pos < |url|
    decreases child, 2
  {
    match child.param
    case None => if Agrees(child.key, url, pos) then Find(sd, child, url, pos + |child.key|, ps) else NOTHING
    case Some(kind) =>
      match Capture(sd, kind, url[pos..], ps)
      case None => NOTHING
      case Some((k, captured)) => Find(sd, child, url, pos + k, captured)
  }

  // ----- The routes a trie stands for -----

  datatype Route = Route(tokens: seq<Token>, rule: nat)

  function Chars(s: string): seq<Token> {
    seq(|s|, i requires 0 <= i < |s| => Ch(s[i]))
  }

  function TokensOf(node: Node): seq<Token> {
    match node.param
    case None => Chars(node.key)
    case Some(kind) => [Par(kind)]
  }

  function Prefixed(tokens: seq<Token>, routes: seq<Route>): seq<Route> {
    seq(|routes|, i requires 0 <= i < |routes| => Route(tokens + routes[i].tokens, routes[i].rule))
  }

  /** The rules at and below a node, in lookup order, relative to the node. */
  function Routes(node: Node): seq<Route>
    decreases node, 1
  {
    (if node.rule == 0 then [] else [Route([], node.rule)]) + RoutesIn(node.children)
  }

  function RoutesIn(children: seq<Node>): seq<Route>
    decreases children, 0
  {
    if children == [] then [] else
    var last := children[|children| - 1];
    RoutesIn(children[..|children| - 1]) + Prefixed(TokensOf(last), Routes(last))
  }

  /** The routes through a node, as its parent sees them. */
  function Branch(node: Node): seq<Route> {
    Prefixed(TokensOf(node), Routes(node))
  }

  function Hit(sd: Strtod, route: Route, url: string, pos: nat, ps: Params): Found
    requires pos <= |url|
  {
    match Advance(sd, route.tokens, url, pos, ps)
    case Some((end, ps')) => if end == |url| && route.rule != 0 then Found(route.rule, ps') else NOTHING
    case None => NOTHING
  }

  /** The best hit among routes tried in order. */
  function Pick(sd: Strtod, routes: seq<Route>, url: string, pos: nat, ps: Params): Found
    requires pos <= |url|
  {
    if routes == [] then NOTHING else
    Better(Pick(sd, routes[..|routes| - 1], url, pos, ps), Hit(sd, routes[|routes| - 1], url, pos, ps))
  }

  predicate Clean(f: Found) {
    f.rule == 0 ==> f == NOTHING
  }

  function Cleaned(f: Found): Found {
    if f.rule == 0 then NOTHING else f
  }

  lemma BetterAssociates(a: Found, b: Found, c: Found)
    requires Clean(a) && Clean(b) && Clean(c)
    ensures Better(Better(a, b), c) == Better(a, Better(b, c))
    ensures Better(NOTHING, a) == a && Better(a, NOTHING) == a
  {
  }

  lemma {:induction false} PickIsClean(sd: Strtod, routes: seq<Route>, url: string, pos: nat, ps: Params)
    requires pos <= |url|
    ensures Clean(Pick(sd, routes, url, pos, ps))
  {
    if routes != [] {
      PickIsClean(sd, routes[..|routes| - 1], url, pos, ps);
    }
  }

  lemma {:induction false} PickConcat(sd: Strtod, r1: seq<Route>, r2: seq<Route>, url: string, pos: nat, ps: Params)
    requires pos <= |url|
    ensures Pick(sd, r1 + r2, url, pos, ps) == Better(Pick(sd, r1, url, pos, ps), Pick(sd, r2, url, pos, ps))
  {
    PickIsClean(sd, r1, url, pos, ps);
    PickIsClean(sd, r2, url, pos, ps);
    if r2 == [] {
      assert r1 + r2 == r1;
    } else {
      var front, last := r2[..|r2| - 1], r2[|r2| - 1];
      assert (r1 + r2)[..|r1 + r2| - 1] == r1 + front;
      PickConcat(sd, r1, front, url, pos, ps);
      PickIsClean(sd, front, url, pos, ps);
      BetterAssociates(Pick(sd, r1, url, pos, ps), Pick(sd, front, url, pos, ps), Hit(sd, last, url, pos, ps));
    }
  }

  lemma {:induction false} AdvanceConcat(sd: Strtod, t1: seq<Token>, t2: seq<Token>, url: string, pos: nat, ps: Params)
    requires pos <= |url|
    ensures Advance(sd, t1 + t2, url, pos, ps) ==
      match Advance(sd, t1, url, pos, ps)
      case None => None
      case Some((mid, ps')) => Advance(sd, t2, url, mid, ps')
    decreases |t1|
  {
    hide Capture;
    if t1 == [] {
      assert t1 + t2 == t2;
    } else if pos < |url| {
      assert (t1 + t2)[1..] == t1[1..] + t2;
      match t1[0]
      case Ch(c) =>
        AdvanceConcat(sd, t1[1..], t2, url, pos + 1, ps);
      case Par(kind) =>
        var got := Capture(sd, kind, url[pos..], ps);
        if got.Some? {
          AdvanceConcat(sd, t1[1..], t2, url, pos + got.value.0, got.value.1);
        }
    }
  }

  /** Literal keys advance exactly when they agree with the URL. */
  lemma {:induction false} AdvanceChars(sd: Strtod, key: string, url: string, pos: nat, ps: Params)
    requires pos <= |url|
    ensures Advance(sd, Chars(key), url, pos, ps) ==
      if Agrees(key, url, pos) then Some((pos + |key|, ps)) else None
    decreases |key|
  {
    if key != [] && pos < |url| {
      assert Chars(key)[1..] == Chars(key[1..]);
      AdvanceChars(sd, key[1..], url, pos + 1, ps);
      if pos + |key| <= |url| {
        assert url[pos..pos + |key|] == [url[pos]] + url[pos + 1..pos + |key|];
      }
    }
  }

  lemma {:induction false} PickPrefixed(sd: Strtod, tokens: seq<Token>, routes: seq<Route>, url: string, pos: nat, ps: Params)
    requires pos <= |url|
    ensures Pick(sd, Prefixed(tokens, routes), url, pos, ps) ==
      match Advance(sd, tokens, url, pos, ps)
      case None => NOTHING
      case Some((mid, ps')) => Pick(sd, routes, url, mid, ps')
    decreases |routes|
  {
    if routes != [] {
      var front, last := routes[..|routes| - 1], routes[|routes| - 1];
      assert Prefixed(tokens, routes)[..|routes| - 1] == Prefixed(tokens, front);
      PickPrefixed(sd, tokens, front, url, pos, ps);
      AdvanceConcat(sd, tokens, last.tokens, url, pos, ps);
    }
  }

  /** Every node below this one stands for at least one token. */
  ghost predicate Proper(node: Node)
    decreases node
  {
    forall i :: 0 <= i < |node.children| ==> TokensOf(node.children[i]) != [] && Proper(node.children[i])
  }

  ghost predicate ProperIn(children: seq<Node>) {
    forall i :: 0 <= i < |children| ==> TokensOf(children[i]) != [] && Proper(children[i])
  }

  /** Lookup in a trie picks the best hit among its routes. */
  lemma {:induction false} FindPicks(sd: Strtod, node: Node, url: string, pos: nat, ps: Params)
    requires pos <= |url| && Proper(node)
    ensures Cleaned(Find(sd, node, url, pos, ps)) == Pick(sd, Routes(node), url, pos, ps)
    decreases node, 1
  {
    var own := if node.rule == 0 then [] else [Route([], node.rule)];
    PickConcat(sd, own, RoutesIn(node.children), url, pos, ps);
    PickIsClean(sd, RoutesIn(node.children), url, pos, ps);
    OwnPick(sd, node.rule, url, pos, ps);
    if pos == |url| {
      NothingPastEnd(sd, node.children, url, ps);
    } else {
      FindInPicks(sd, node.children, url, pos, ps);
    }
  }

  /** At the end of the URL no route through a child can match. */
  lemma {:induction false} NothingPastEnd(sd: Strtod, children: seq<Node>, url: string, ps: Params)
    requires ProperIn(children)
    ensures Pick(sd, RoutesIn(children), url, |url|, ps) == NOTHING
    decreases |children|
  {
    if children != [] {
      var front, last := children[..|children| - 1], children[|children| - 1];
      NothingPastEnd(sd, front, url, ps);
      PickConcat(sd, RoutesIn(front), Branch(last), url, |url|, ps);
      PickPrefixed(sd, TokensOf(last), Routes(last), url, |url|, ps);
    }
  }

  lemma OwnPick(sd: Strtod, rule: nat, url: string, pos: nat, ps: Params)
    requires pos <= |url|
    ensures Pick(sd, if rule == 0 then [] else [Route([], rule)], url, pos, ps)
      == if rule == 0 || pos < |url| then NOTHING else Found(rule, ps)
  {
    if rule != 0 {
      assert [Route([], rule)][..0] == [];
    }
  }

  /** Stepping into a child is matching its tokens. */
  lemma ChildAdvance(sd: Strtod, child: Node, url: string, pos: nat, ps: Params)
    requires pos < |url|
    ensures Advance(sd, TokensOf(child), url, pos, ps) ==
      match child.param
      case None => if Agrees(child.key, url, pos) then Some((pos + |child.key|, ps)) else None
      case Some(kind) =>
        match Capture(sd, kind, url[pos..], ps)
        case None => None
        case Some((k, ps')) => Some((pos + k, ps'))
  {
    hide Capture;
    match child.param
    case None => AdvanceChars(sd, child.key, url, pos, ps);
    case Some(kind) => assert [Par(kind)][1..] == [];
  }

  lemma {:induction false} FindInPicks(sd: Strtod, children: seq<Node>, url: string, pos: nat, ps: Params)
    requires pos < |url| && ProperIn(children)
    ensures FindIn(sd, children, url, pos, ps) == Pick(sd, RoutesIn(children), url, pos, ps)
    decreases children, 0
  {
    if children != [] {
      hide Pick, Prefixed, Routes, TokensOf, Through, Proper, Better;
      var front, last := children[..|children| - 1], children[|children| - 1];
      FindInPicks(sd, front, url, pos, ps);
      PickConcat(sd, RoutesIn(front), Branch(last), url, pos, ps);
      ThroughPicks(sd, last, url, pos, ps);
      BetterCleaned(FindIn(sd, front, url, pos, ps), Through(sd, last, url, pos, ps));
    } else {
      NothingToPick(sd, url, pos, ps);
    }
  }

  lemma NothingToPick(sd: Strtod, url: string, pos: nat, ps: Params)
    requires pos <= |url|
    ensures Pick(sd, [], url, pos, ps) == NOTHING
  {
  }

  lemma BetterCleaned(a: Found, b: Found)
    ensures Better(a, Cleaned(b)) == Better(a, b)
  {
  }

  /** What a child contributes is the best hit among the routes through it. */
  lemma {:induction false} ThroughPicks(sd: Strtod, child: Node, url: string, pos: nat, ps: Params)
    requires pos < |url| && Proper(child)
    ensures Cleaned(Through(sd, child, url, pos, ps)) == Pick(sd, Branch(child), url, pos, ps)
    decreases child, 2
  {
    hide Capture, Advance, Pick, Prefixed, Routes, TokensOf, Agrees, Find, Proper;
    PickPrefixed(sd, TokensOf(child), Routes(child), url, pos, ps);
    ChildAdvance(sd, child, url, pos, ps);
    var entry := Advance(sd, TokensOf(child), url, pos, ps);
    if entry.Some? {
      FindPicks(sd, child, url, entry.value.0, entry.value.1);
    }
  }
}
