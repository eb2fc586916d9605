/** The texts that the JSON parser accepts, as syntax trees with their white space,
    and that it accepts exactly these, up to the depth limit. */
module JsonLanguage {
  import opened Memory
  import opened JsonText
  import opened JsonGrammar
  import Decimal

  /** Concrete syntax: values as they are written. */
  datatype Syntax =
    | NullWord
    | BoolWord(b: bool)
    | Numeral(sign: string, whole: string, fraction: string, exponent: string)
    | Text(raw: string)
    | EmptyList(blank: string)
    | Items(items: seq<Item>)
    | EmptyObject(blank: string)
    | Members(members: seq<Pair>)

  /** A value with the white space around it. */
  datatype Item = Item(before: string, value: Syntax, after: string)

  /** A key, a colon and a value with the white space around each. */
  datatype Pair = Pair(before: string, raw: string, middle: string, item: Item)

  predicate IsBlank(s: string) {
    forall i :: 0 <= i < |s| ==> s[i] in " \t\r\n"
  }

  /** Digits without a leading zero; a fraction may lack digits, an exponent may
      be a sign alone, and a lone zero has no exponent. */
  ghost predicate IsNumeral(sign: string, whole: string, fraction: string, exponent: string) {
    && sign in ["", "-"]
    && whole != "" && Decimal.AllDigits(whole) && (whole[0] == '0' ==> whole == "0")
    && (fraction != "" ==> fraction[0] == '.' && Decimal.AllDigits(fraction[1..]))
    && (exponent != "" ==> IsExponent(exponent) && !(whole == "0" && fraction == ""))
  }

  ghost predicate IsExponent(s: string) {
    |s| >= 2 && (s[0] == 'e' || s[0] == 'E') && (s[1] == '+' || s[1] == '-' || Decimal.IsDigit(s[1])) && Decimal.AllDigits(s[2..])
  }

  /** Characters other than quote, backslash and NUL, and escapes. */
  predicate IsRaw(raw: string) {
    raw == [] ||
    if raw[0] == '\\' then
      || (|raw| >= 2 && raw[1] in "\"\\/bfnrt" && IsRaw(raw[2..]))
      || (|raw| >= 6 && raw[1] == 'u' && IsHex(raw[2]) && IsHex(raw[3]) && IsHex(raw[4]) && IsHex(raw[5]) && IsRaw(raw[6..]))
    else raw[0] != '"' && raw[0] != NUL && IsRaw(raw[1..])
  }

  ghost predicate IsSyntax(x: Syntax) {
    match x
    case NullWord => true
    case BoolWord(_) => true
    case Numeral(sign, whole, fraction, exponent) => IsNumeral(sign, whole, fraction, exponent)
    case Text(raw) => IsRaw(raw)
    case EmptyList(blank) => IsBlank(blank)
    case EmptyObject(blank) => IsBlank(blank)
    case Items(items) => items != [] && AllItems(items)
    case Members(members) => members != [] && AllPairs(members)
  }

  ghost predicate AllItems(items: seq<Item>) {
    forall i :: 0 <= i < |items| ==> IsBlank(items[i].before) && IsSyntax(items[i].value) && IsBlank(items[i].after)
  }

  ghost predicate IsPair(m: Pair) {
    && IsBlank(m.before) && IsRaw(m.raw) && IsBlank(m.middle)
    && IsBlank(m.item.before) && IsSyntax(m.item.value) && IsBlank(m.item.after)
  }

  ghost predicate AllPairs(members: seq<Pair>) {
    forall i :: 0 <= i < |members| ==> IsPair(members[i])
  }

  /** How it is written. */
  function Write(x: Syntax): string {
    match x
    case NullWord => "null"
    case BoolWord(b) => if b then "true" else "false"
    case Numeral(sign, whole, fraction, exponent) => sign + whole + fraction + exponent
    case Text(raw) => "\"" + raw + "\""
    case EmptyList(blank) => "[" + blank + "]"
    case EmptyObject(blank) => "{" + blank + "}"
    case Items(items) => "[" + WriteItems(items) + "]"
    case Members(members) => "{" + WriteMembers(members) + "}"
  }

  function WriteItems(items: seq<Item>): string {
    if items == [] then "" else
    var more := if |items| == 1 then "" else "," + WriteItems(items[1..]);
    items[0].before + (Write(items[0].value) + items[0].after + more)
  }

  /** A member from its key on. */
  function WriteMember(m: Pair): string {
    "\"" + m.raw + "\"" + m.middle + ":" + m.item.before + Write(m.item.value)
  }

  function WriteMembers(members: seq<Pair>): string {
    if members == [] then "" else
    var more := if |members| == 1 then "" else "," + WriteMembers(members[1..]);
    members[0].before + (WriteMember(members[0]) + members[0].item.after + more)
  }

  /** The tree it stands for. */
  ghost function TreeOf(x: Syntax): Tree
    requires IsSyntax(x)
  {
    match x
    case NullWord => Null
    case BoolWord(b) => Bool(b)
    case Numeral(sign, whole, fraction, exponent) => Number(sign + whole + fraction + exponent)
    case Text(raw) => RawIsWellFormed(raw); String(Unescaped(raw))
    case EmptyList(_) => List([])
    case EmptyObject(_) => Object([])
    case Items(items) => List(TreesOf(items))
    case Members(members) => Object(MembersOf(members))
  }

  ghost function TreesOf(items: seq<Item>): (trees: seq<Tree>)
    requires AllItems(items)
    ensures |trees| == |items|
  {
    if items == [] then [] else [TreeOf(items[0].value)] + TreesOf(items[1..])
  }

  ghost function MemberOf(m: Pair): Member
    requires IsPair(m)
  {
    RawIsWellFormed(m.raw);
    Member(Unescaped(m.raw), TreeOf(m.item.value))
  }

  ghost function MembersOf(members: seq<Pair>): (ms: seq<Member>)
    requires AllPairs(members)
    ensures |ms| == |members|
  {
    if members == [] then [] else [MemberOf(members[0])] + MembersOf(members[1..])
  }

  /** Levels of lists and objects. */
  function Levels(x: Syntax): nat {
    match x
    case EmptyList(_) => 1
    case EmptyObject(_) => 1
    case Items(items) => 1 + LevelsOfItems(items)
    case Members(members) => 1 + LevelsOfMembers(members)
    case _ => 0
  }

  function Max(a: nat, b: nat): nat {
    if a > b then a else b
  }

  function LevelsOfItems(items: seq<Item>): nat {
    if items == [] then 0 else Max(Levels(items[0].value), LevelsOfItems(items[1..]))
  }

  function LevelsOfMembers(members: seq<Pair>): nat {
    if members == [] then 0 else Max(Levels(members[0].item.value), LevelsOfMembers(members[1..]))
  }

  lemma {:induction false} RawIsWellFormed(raw: string)
    requires IsRaw(raw)
    ensures WellFormed(raw)
  {
    if raw != [] {
      RawStep(raw);
      hide Used;
      RawIsWellFormed(raw[Used(raw)..]);
    }
  }

  lemma RawStep(raw: string)
    requires raw != [] && IsRaw(raw)
    ensures Used(raw) > 0 && IsRaw(raw[Used(raw)..]) && raw[0] != '"' && raw[0] != NUL
  {
  }

  // ----- Blanks and strings -----

  lemma {:induction false} SkipBlank(blank: string, t: string)
    requires IsBlank(blank) && (t == [] || t[0] !in " \t\r\n")
    ensures SkipWs(blank + t) == t
  {
    if blank == [] {
      assert blank + t == t;
    } else {
      assert (blank + t)[0] == blank[0] && (blank + t)[1..] == blank[1..] + t;
      SkipBlank(blank[1..], t);
    }
  }

  lemma {:induction false} ScanRaw(raw: string, rest: string)
    requires IsRaw(raw)
    ensures ScanString(raw + "\"" + rest) == |raw|
  {
    var all := raw + "\"" + rest;
    if raw == [] {
      ScanQuote(all);
    } else {
      RawStep(raw);
      UsedStays(raw, "\"" + rest);
      hide Used, ScanString, IsRaw, Meaning;
      var k := Used(raw);
      assert all == raw + ("\"" + rest) && all[0] == raw[0];
      assert all[k..] == raw[k..] + "\"" + rest;
      ScanRaw(raw[k..], rest);
      ScanStep(all);
    }
  }

  lemma TextAccepted(raw: string, rest: string)
    requires IsRaw(raw)
    ensures WellFormed(raw) && ParseString("\"" + raw + "\"" + rest) == Done(Unescaped(raw), rest)
  {
    hide ScanString, IsRaw, Unescaped, WellFormed;
    RawIsWellFormed(raw);
    ScanRaw(raw, rest);
    var all := "\"" + raw + "\"" + rest;
    assert all[1..] == raw + "\"" + rest && all[1..][..|raw|] == raw && all[|raw| + 2..] == rest;
  }

  // ----- Numbers -----

  predicate EndsNumber(rest: string) {
    rest == [] || !IsNumberChar(rest[0])
  }

  /** The states in which digits change nothing. */
  predicate Loops(st: NumberState) {
    st == Digits || st == DigitsAfterPoints || st == DigitsAfterE
  }

  lemma {:induction false} ScanLoop(d: string, rest: string, st: NumberState)
    requires Decimal.AllDigits(d) && Loops(st)
    ensures
      var k := ScanNumber(rest, st);
      ScanNumber(d + rest, st) == if k == -1 then -1 else |d| + k
  {
    if d == [] {
      assert d + rest == rest;
    } else {
      assert Decimal.IsDigit(d[0]) && (d + rest)[0] == d[0] && (d + rest)[1..] == d[1..] + rest;
      ScanLoop(d[1..], rest, st);
    }
  }

  lemma ScanOne(c: char, rest: string, st: NumberState)
    requires st != Invalid && IsNumberChar(c)
    ensures
      var k := ScanNumber(rest, Shift(st, c));
      ScanNumber([c] + rest, st) == if k == -1 then -1 else 1 + k
  {
    assert ([c] + rest)[1..] == rest;
  }

  lemma ScanEnd(rest: string, st: NumberState)
    requires EndsNumber(rest) && Accepts(st)
    ensures ScanNumber(rest, st) == 0
  {
  }

  lemma ExponentParts(e: char, c: char, d: string, rest: string, st: NumberState)
    requires (e == 'e' || e == 'E') && (c == '+' || c == '-' || Decimal.IsDigit(c)) && (st == Digits || st == DigitsAfterPoints)
    requires Decimal.AllDigits(d) && EndsNumber(rest)
    ensures ScanNumber([e] + ([c] + (d + rest)), st) == 2 + |d|
  {
    hide ScanNumber;
    ScanEnd(rest, DigitsAfterE);
    ScanLoop(d, rest, DigitsAfterE);
    ScanOne(c, d + rest, E);
    ScanOne(e, [c] + (d + rest), st);
  }

  lemma ScanExponent(exponent: string, rest: string, st: NumberState)
    requires EndsNumber(rest) && Accepts(st) && (exponent != "" ==> IsExponent(exponent) && (st == Digits || st == DigitsAfterPoints))
    ensures ScanNumber(exponent + rest, st) == |exponent|
  {
    hide ScanNumber, Shift, IsNumberChar;
    if exponent == "" {
      assert exponent + rest == rest;
      ScanEnd(rest, st);
    } else {
      ExponentParts(exponent[0], exponent[1], exponent[2..], rest, st);
      TwoAndRest(exponent, rest);
    }
  }

  lemma TwoAndRest(s: string, rest: string)
    requires |s| >= 2
    ensures s + rest == [s[0]] + ([s[1]] + (s[2..] + rest))
  {
  }

  lemma ScanFraction(fraction: string, exponent: string, rest: string, st: NumberState)
    requires EndsNumber(rest) && (st == Digits || st == ZeroFirst)
    requires fraction != "" ==> fraction[0] == '.' && Decimal.AllDigits(fraction[1..])
    requires exponent != "" ==> IsExponent(exponent) && !(st == ZeroFirst && fraction == "")
    ensures ScanNumber(fraction + exponent + rest, st) == |fraction| + |exponent|
  {
    hide ScanNumber, IsExponent;
    if fraction == "" {
      assert fraction + exponent + rest == exponent + rest;
      ScanExponent(exponent, rest, st);
    } else {
      var more := exponent + rest;
      ScanExponent(exponent, rest, DigitsAfterPoints);
      ScanLoop(fraction[1..], more, DigitsAfterPoints);
      ScanOne('.', fraction[1..] + more, st);
      assert fraction + exponent + rest == ['.'] + (fraction[1..] + more);
    }
  }

  lemma WholeText(whole: string, fraction: string, exponent: string, rest: string)
    requires whole != []
    ensures whole + fraction + exponent + rest == [whole[0]] + (whole[1..] + (fraction + exponent + rest))
  {
  }

  lemma ScanWhole(whole: string, fraction: string, exponent: string, rest: string, st: NumberState)
    requires EndsNumber(rest) && (st == Minus || st == AfterMinus) && IsNumeral("", whole, fraction, exponent)
    ensures ScanNumber(whole + fraction + exponent + rest, st) == |whole| + |fraction| + |exponent|
  {
    hide ScanNumber, IsExponent, EndsNumber;
    var more := fraction + exponent + rest;
    assert Decimal.IsDigit(whole[0]);
    var next := if whole == "0" then ZeroFirst else Digits;
    assert IsNumberChar(whole[0]) && Shift(st, whole[0]) == next;
    hide Shift, IsNumberChar;
    ScanFraction(fraction, exponent, rest, next);
    if whole != "0" {
      ScanLoop(whole[1..], more, Digits);
    } else {
      assert whole[1..] + more == more;
    }
    ScanOne(whole[0], whole[1..] + more, st);
    WholeText(whole, fraction, exponent, rest);
  }

  lemma MinusStep()
    ensures IsNumberChar('-') && Shift(Minus, '-') == AfterMinus
  {
  }

  lemma NumeralAccepted(x: Syntax, rest: string, d: nat)
    requires x.Numeral? && IsSyntax(x) && EndsNumber(rest)
    ensures ParseValue(Write(x) + rest, d) == Done(TreeOf(x), rest)
  {
    hide ScanNumber, IsExponent, Shift, IsNumberChar;
    MinusStep();
    var digits := x.whole + x.fraction + x.exponent;
    var text := Write(x);
    ScanWhole(x.whole, x.fraction, x.exponent, rest, if x.sign == "" then Minus else AfterMinus);
    assert Decimal.IsDigit(x.whole[0]);
    if x.sign == "-" {
      ScanOne('-', digits + rest, Minus);
      assert text + rest == ['-'] + (digits + rest);
    } else {
      assert text + rest == digits + rest;
    }
    assert (text + rest)[..|text|] == text && (text + rest)[|text|..] == rest;
    assert (text + rest)[0] == if x.sign == "-" then '-' else x.whole[0];
  }

  // ----- Values: what is written is accepted -----

  /** A value of so many levels may stand at depth `d` without passing the limit. */
  predicate Fits(levels: nat, d: nat) {
    levels == 0 || d + 2 * levels - 1 <= MAX_DEPTH
  }

  /** What may follow a value: anything, but a number ends only before something else. */
  predicate Ends(x: Syntax, rest: string) {
    x.Numeral? ==> EndsNumber(rest)
  }

  /** How a written value begins. */
  lemma WriteHead(x: Syntax)
    requires IsSyntax(x)
    ensures Write(x) != [] && Write(x)[0] != ']' && Write(x)[0] != '}' && Write(x)[0] !in " \t\r\n"
  {
    if x.Numeral? {
      assert Decimal.IsDigit(x.whole[0]);
      assert Write(x)[0] == if x.sign == "" then x.whole[0] else '-';
    }
  }

  /** Blanks and what may come behind a value in a list or object end a number. */
  lemma BlankEnds(blank: string, rest: string)
    requires IsBlank(blank) && rest != [] && (rest[0] == ',' || rest[0] == ']' || rest[0] == '}' || rest[0] == NUL)
    ensures EndsNumber(blank + rest) && SkipWs(blank + rest) == rest
  {
    SkipBlank(blank, rest);
    if blank != [] {
      assert (blank + rest)[0] == blank[0];
    } else {
      assert blank + rest == rest;
    }
  }

  /** Every written value is read as the tree it stands for, at any depth and
      whatever follows, exactly up to the depth limit. */
  lemma {:induction false} ValueAccepted(x: Syntax, d: nat, rest: string)
    requires IsSyntax(x) && Ends(x, rest)
    ensures ParseValue(Write(x) + rest, d) == if Fits(Levels(x), d) then Done(TreeOf(x), rest) else Fail
    decreases x, 2
  {
    var all := Write(x) + rest;
    match x {
      case NullWord => assert ("null" + rest)[4..] == rest;
      case BoolWord(b) => WordAccepted(b, d, rest);
      case Numeral(_, _, _, _) => NumeralAccepted(x, rest, d);
      case Text(raw) => TextValueAccepted(raw, d, rest);
      case EmptyList(blank) => EmptyAccepted(x, d, rest);
      case EmptyObject(blank) => EmptyAccepted(x, d, rest);
      case Items(items) => ListAccepted(x, d, rest);
      case Members(members) => ObjectAccepted(x, d, rest);
    }
  }

  lemma WordAccepted(b: bool, d: nat, rest: string)
    ensures ParseValue(Write(BoolWord(b)) + rest, d) == Done(Bool(b), rest)
  {
    if b {
      assert ("true" + rest)[4..] == rest;
    } else {
      assert ("false" + rest)[5..] == rest;
    }
  }

  lemma TextValueAccepted(raw: string, d: nat, rest: string)
    requires IsRaw(raw)
    ensures ParseValue(Write(Text(raw)) + rest, d) == Done(TreeOf(Text(raw)), rest)
  {
    hide ParseString, IsRaw;
    TextAccepted(raw, rest);
    assert ("\"" + raw + "\"" + rest)[0] == '"';
  }

  lemma EmptyAccepted(x: Syntax, d: nat, rest: string)
    requires (x.EmptyList? || x.EmptyObject?) && IsSyntax(x)
    ensures ParseValue(Write(x) + rest, d) == if Fits(1, d) then Done(TreeOf(x), rest) else Fail
  {
    hide ParseItems, ParseMembers;
    var close := if x.EmptyList? then "]" else "}";
    var all := Write(x) + rest;
    assert all[1..] == x.blank + (close + rest);
    SkipBlank(x.blank, close + rest);
    assert (close + rest)[1..] == rest;
  }

  lemma {:induction false} ListAccepted(x: Syntax, d: nat, rest: string)
    requires x.Items? && IsSyntax(x)
    ensures ParseValue(Write(x) + rest, d) == if Fits(Levels(x), d) then Done(TreeOf(x), rest) else Fail
    decreases x, 1
  {
    hide ParseItems, WriteItems, SkipWs, AllItems;
    var all := Write(x) + rest;
    var body := WriteItems(x.items) + "]" + rest;
    assert all[0] == '[' && all[1..] == body;
    assert ParseValue(all, d) == ParseList(all, d + 1);
    ItemsHead(x.items, rest);
    if d + 1 <= MAX_DEPTH {
      ItemsAccepted(x, x.items, d + 1, rest);
    }
  }

  lemma FirstText(before: string, text: string, after: string, tail: string, close: string, rest: string)
    requires text != []
    ensures
      var r := text + after + tail + close + rest;
      before + (text + after + tail) + close + rest == before + r && r[0] == text[0]
  {
  }

  /** Behind the blanks in front of the first item stands its value. */
  lemma {:induction false} ItemsHead(items: seq<Item>, rest: string)
    requires items != [] && AllItems(items)
    ensures
      var r := SkipWs(WriteItems(items) + "]" + rest);
      && r != [] && r[0] != ']'
      && r == Write(items[0].value) + items[0].after + (if |items| == 1 then "" else "," + WriteItems(items[1..])) + "]" + rest
  {
    hide SkipWs, Write, IsSyntax;
    var x := items[0];
    var tail := if |items| == 1 then "" else "," + WriteItems(items[1..]);
    WriteHead(x.value);
    FirstText(x.before, Write(x.value), x.after, tail, "]", rest);
    hide WriteItems;
    SkipBlank(x.before, Write(x.value) + x.after + tail + "]" + rest);
  }

  lemma {:induction false} ItemsAccepted(x: Syntax, items: seq<Item>, d: nat, rest: string)
    requires items != [] && AllItems(items) && forall i :: 0 <= i < |items| ==> items[i].value < x
    ensures ParseItems(SkipWs(WriteItems(items) + "]" + rest), d)
      == if Fits(LevelsOfItems(items), d + 1) then Done(TreesOf(items), rest) else Fail
    decreases x, 0, |items|
  {
    hide ParseValue, Write, IsSyntax, SkipWs, WriteItems, Levels, Ends, TreeOf;
    var it := items[0];
    var v := it.value;
    ItemsHead(items, rest);
    var r := SkipWs(WriteItems(items) + "]" + rest);
    var follows := if |items| == 1 then "]" + rest else "," + (WriteItems(items[1..]) + "]" + rest);
    assert r == Write(v) + (it.after + follows);
    BlankEnds(it.after, follows);
    AnyEnd(v, it.after + follows);
    ValueAccepted(v, d + 1, it.after + follows);
    if |items| == 1 {
      assert follows[1..] == rest && items[1..] == [];
      assert TreesOf(items) == [TreeOf(v)] + [] == [TreeOf(v)] && LevelsOfItems(items) == Levels(v);
    } else {
      assert follows[1..] == WriteItems(items[1..]) + "]" + rest;
      ItemsAccepted(x, items[1..], d, rest);
    }
  }

  lemma AnyEnd(x: Syntax, rest: string)
    requires EndsNumber(rest)
    ensures Ends(x, rest)
  {
  }

  lemma {:induction false} ObjectAccepted(x: Syntax, d: nat, rest: string)
    requires x.Members? && IsSyntax(x)
    ensures ParseValue(Write(x) + rest, d) == if Fits(Levels(x), d) then Done(TreeOf(x), rest) else Fail
    decreases x, 1
  {
    hide ParseMembers, WriteMembers, SkipWs, AllPairs;
    var all := Write(x) + rest;
    var body := WriteMembers(x.members) + "}" + rest;
    assert all[0] == '{' && all[1..] == body;
    assert ParseValue(all, d) == ParseObject(all, d + 1);
    MembersHead(x.members, rest);
    if d + 1 <= MAX_DEPTH {
      MembersAccepted(x, x.members, d + 1, rest);
    }
  }

  lemma KeyFirst(m: Pair)
    ensures WriteMember(m) != [] && WriteMember(m)[0] == '"'
  {
  }

  lemma {:induction false} MembersHead(members: seq<Pair>, rest: string)
    requires members != [] && AllPairs(members)
    ensures
      var r := SkipWs(WriteMembers(members) + "}" + rest);
      && r != [] && r[0] != '}'
      && r == WriteMember(members[0]) + members[0].item.after
              + (if |members| == 1 then "" else "," + WriteMembers(members[1..])) + "}" + rest
  {
    hide SkipWs, WriteMember, IsSyntax, IsRaw;
    var m := members[0];
    var tail := if |members| == 1 then "" else "," + WriteMembers(members[1..]);
    KeyFirst(m);
    FirstText(m.before, WriteMember(m), m.item.after, tail, "}", rest);
    hide WriteMembers;
    SkipBlank(m.before, WriteMember(m) + m.item.after + tail + "}" + rest);
  }

  lemma {:induction false} MemberAccepted(x: Syntax, m: Pair, d: nat, rest: string)
    requires IsPair(m) && m.item.value < x && EndsNumber(rest)
    ensures ParseMember(WriteMember(m) + rest, d)
      == if Fits(Levels(m.item.value), d + 1) then Done(MemberOf(m), rest) else Fail
    decreases x, 0, 0
  {
    hide ParseValue, ParseString, Write, IsSyntax, IsRaw, SkipWs, Levels, Ends, TreeOf, Unescaped, WellFormed;
    var v := m.item.value;
    var value := Write(v) + rest;
    var follows := ":" + (m.item.before + value);
    TextAccepted(m.raw, m.middle + follows);
    MemberText(m, rest);
    SkipBlank(m.middle, follows);
    WriteHead(v);
    assert value[0] == Write(v)[0];
    SkipBlank(m.item.before, value);
    assert follows[1..] == m.item.before + value;
    AnyEnd(v, rest);
    ValueAccepted(v, d + 1, rest);
  }

  lemma MemberText(m: Pair, rest: string)
    ensures WriteMember(m) + rest
      == "\"" + m.raw + "\"" + (m.middle + (":" + (m.item.before + (Write(m.item.value) + rest))))
  {
    hide Write;
    var q := "\"" + m.raw + "\"";
    assert WriteMember(m) == q + m.middle + ":" + m.item.before + Write(m.item.value);
  }

  lemma {:induction false} MembersAccepted(x: Syntax, members: seq<Pair>, d: nat, rest: string)
    requires members != [] && AllPairs(members) && forall i :: 0 <= i < |members| ==> members[i].item.value < x
    ensures ParseMembers(SkipWs(WriteMembers(members) + "}" + rest), d)
      == if Fits(LevelsOfMembers(members), d + 1) then Done(MembersOf(members), rest) else Fail
    decreases x, 0, |members|
  {
    hide ParseMember, IsPair, SkipWs, WriteMembers, WriteMember, Levels, MemberOf;
    var m := members[0];
    MembersHead(members, rest);
    var r := SkipWs(WriteMembers(members) + "}" + rest);
    var follows := if |members| == 1 then "}" + rest else "," + (WriteMembers(members[1..]) + "}" + rest);
    assert r == WriteMember(m) + (m.item.after + follows);
    AfterIsBlank(m);
    BlankEnds(m.item.after, follows);
    MemberAccepted(x, m, d, m.item.after + follows);
    if |members| == 1 {
      assert follows[1..] == rest && members[1..] == [];
      assert MembersOf(members) == [MemberOf(m)] + [] == [MemberOf(m)];
      assert LevelsOfMembers(members) == Levels(m.item.value);
    } else {
      assert follows[1..] == WriteMembers(members[1..]) + "}" + rest;
      MembersAccepted(x, members[1..], d, rest);
    }
  }

  lemma AfterIsBlank(m: Pair)
    requires IsPair(m)
    ensures IsBlank(m.item.after)
  {
  }

  /** A whole text: blanks, a value of at most 5000 levels, and blanks. */
  lemma TextIsAccepted(x: Syntax, before: string, after: string)
    requires IsSyntax(x) && IsBlank(before) && IsBlank(after)
    ensures Parse(before + Write(x) + after + [NUL]) == if Levels(x) <= 5000 then Accepted(TreeOf(x)) else Rejected
  {
    hide ParseValue, Write, IsSyntax, Levels, TreeOf, SkipWs;
    var rest := after + [NUL];
    WriteHead(x);
    assert (Write(x) + rest)[0] == Write(x)[0];
    SkipBlank(before, Write(x) + rest);
    assert before + Write(x) + after + [NUL] == before + (Write(x) + rest);
    BlankEnds(after, [NUL]);
    AnyEnd(x, rest);
    ValueAccepted(x, 0, rest);
  }
}
