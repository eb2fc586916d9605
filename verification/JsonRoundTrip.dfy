/** Parsing a printed tree gives the tree back, exactly up to the parser's depth limit. */
module JsonRoundTrip {
  import opened Memory
  import opened JsonText
  import opened JsonGrammar
  import opened JsonLanguage
  import Decimal

  /** Levels of lists and objects. */
  function Height(t: Tree): nat {
    match t
    case List(items) => 1 + HeightOfItems(items)
    case Object(members) => 1 + HeightOfMembers(members)
    case _ => 0
  }

  function HeightOfItems(items: seq<Tree>): nat {
    if items == [] then 0 else Max(Height(items[0]), HeightOfItems(items[1..]))
  }

  function HeightOfMembers(members: seq<Member>): nat {
    if members == [] then 0 else Max(Height(members[0].value), HeightOfMembers(members[1..]))
  }

  /** The integers a JSON value can hold: signed or unsigned of 64 bits. */
  predicate IsInt64(n: int) {
    -0x8000_0000_0000_0000 <= n < 0x1_0000_0000_0000_0000
  }

  ghost predicate IsInteger(text: string) {
    exists n :: IsInt64(n) && text == Decimal.ToString(n)
  }

  /** A tree whose numbers are 64-bit integers and whose strings are bytes. */
  ghost predicate Dumpable(t: Tree) {
    match t
    case Number(text) => IsInteger(text)
    case String(s) => IsBytes(s)
    case List(items) => forall i :: 0 <= i < |items| ==> Dumpable(items[i])
    case Object(members) => forall i :: 0 <= i < |members| ==> IsBytes(members[i].key) && Dumpable(members[i].value)
    case _ => true
  }

  // ----- Numbers -----

  lemma {:induction false} FirstDigit(n: nat)
    requires n > 0
    ensures Decimal.Digits(n)[0] != '0'
  {
    if n >= 10 {
      FirstDigit(n / 10);
    }
  }

  /** The integer a number's text stands for, when it is one. */
  function ReadInteger(text: string): (n: int) {
    var digits := if text != [] && text[0] == '-' then text[1..] else text;
    var k := Decimal.DigitSpan(digits);
    var n: int := Decimal.Value(digits[..k]);
    if text != [] && text[0] == '-' then -n else n
  }

  lemma {:induction false} IntegerReadsBack(n: int)
    ensures ReadInteger(Decimal.ToString(n)) == n
  {
    var s := Decimal.Digits(if n < 0 then -n else n);
    Decimal.ValueOfDigits(if n < 0 then -n else n);
    Decimal.DigitSpanAll(s);
    assert s[..|s|] == s && Decimal.IsDigit(s[0]);
    assert ("-" + s)[1..] == s;
  }

  /** A printed integer as a numeral. */
  ghost function CompactNumber(text: string): (x: Syntax)
    requires IsInteger(text)
    ensures x.Numeral? && IsSyntax(x) && Write(x) == text && TreeOf(x) == Number(text) && Levels(x) == 0
  {
    var n :| IsInt64(n) && text == Decimal.ToString(n);
    var digits := Decimal.Digits(if n < 0 then -n else n);
    DigitsAreWhole(if n < 0 then -n else n);
    if n < 0 then Numeral("-", digits, "", "") else Numeral("", digits, "", "")
  }

  lemma DigitsAreWhole(n: nat)
    ensures
      var d := Decimal.Digits(n);
      IsNumeral("", d, "", "") && IsNumeral("-", d, "", "") && "" + d + "" + "" == d && "-" + d + "" + "" == "-" + d
  {
    if n > 0 {
      FirstDigit(n);
    }
  }

  // ----- Strings -----

  lemma {:induction false} EscapedIsRaw(s: string)
    requires IsBytes(s)
    ensures IsRaw(Escaped(s))
  {
    if s != [] {
      EscapedIsRaw(s[1..]);
      EscapeIsRaw(s[0], Escaped(s[1..]));
    }
  }

  lemma EscapeIsRaw(c: char, rest: string)
    requires c as int < 256 && IsRaw(rest)
    ensures IsRaw(EscapeChar(c) + rest)
  {
    var e := EscapeChar(c);
    var all := e + rest;
    assert all[|e|..] == rest;
    assert forall i :: 0 <= i < |e| ==> all[i] == e[i];
    if |e| == 6 {
      HexReadsBack(c as int / 16);
      HexReadsBack(c as int % 16);
    }
  }

  // ----- Values -----

  /** The syntax that printing writes: no white space. */
  ghost function Compact(t: Tree): (x: Syntax)
    requires Dumpable(t)
    ensures IsSyntax(x) && Levels(x) == Height(t)
    decreases t, 1
  {
    match t
    case Null => NullWord
    case Bool(b) => BoolWord(b)
    case Number(text) => CompactNumber(text)
    case String(s) => EscapedIsRaw(s); Text(Escaped(s))
    case List(items) => if items == [] then EmptyList("") else Items(CompactItems(items))
    case Object(members) => if members == [] then EmptyObject("") else Members(CompactMembers(members))
  }

  ghost function CompactItems(items: seq<Tree>): (xs: seq<Item>)
    requires forall i :: 0 <= i < |items| ==> Dumpable(items[i])
    ensures |xs| == |items| && AllItems(xs) && LevelsOfItems(xs) == HeightOfItems(items)
    decreases items, 0
  {
    if items == [] then [] else
    var xs := [Item("", Compact(items[0]), "")] + CompactItems(items[1..]);
    assert xs[1..] == CompactItems(items[1..]);
    xs
  }

  ghost function CompactMember(m: Member): (p: Pair)
    requires IsBytes(m.key) && Dumpable(m.value)
    ensures IsPair(p) && Levels(p.item.value) == Height(m.value)
    decreases m, 2
  {
    EscapedIsRaw(m.key);
    Pair("", Escaped(m.key), "", Item("", Compact(m.value), ""))
  }

  ghost function CompactMembers(members: seq<Member>): (ps: seq<Pair>)
    requires forall i :: 0 <= i < |members| ==> IsBytes(members[i].key) && Dumpable(members[i].value)
    ensures |ps| == |members| && AllPairs(ps) && LevelsOfMembers(ps) == HeightOfMembers(members)
    decreases members, 0
  {
    if members == [] then [] else
    var ps := [CompactMember(members[0])] + CompactMembers(members[1..]);
    assert ps[1..] == CompactMembers(members[1..]);
    ps
  }

  /** It is what printing writes, and stands for the tree. */
  lemma {:induction false} DumpIsCompact(t: Tree)
    requires Dumpable(t)
    ensures Write(Compact(t)) == Dump(t) && TreeOf(Compact(t)) == t
    decreases t, 1
  {
    hide WriteItems, WriteMembers, TreesOf, MembersOf, CompactItems, CompactMembers, Escaped, Unescaped;
    match t {
      case String(s) =>
        EscapedIsRaw(s);
        UnescapeUndoesEscape(s);
      case List(items) => ItemsAreCompact(items);
      case Object(members) => MembersAreCompact(members);
      case _ =>
    }
  }

  lemma {:induction false} ItemsAreCompact(items: seq<Tree>)
    requires forall i :: 0 <= i < |items| ==> Dumpable(items[i])
    ensures WriteItems(CompactItems(items)) == DumpItems(items) && TreesOf(CompactItems(items)) == items
    decreases items, 0
  {
    hide Write, Dump, Compact, Dumpable, TreeOf, IsSyntax;
    if items != [] {
      var xs := CompactItems(items);
      DumpIsCompact(items[0]);
      ItemsAreCompact(items[1..]);
      assert xs[0] == Item("", Compact(items[0]), "") && xs[1..] == CompactItems(items[1..]);
      ItemText(Dump(items[0]), DumpItems(items[1..]));
      assert items == [items[0]] + items[1..];
    }
  }

  lemma ItemText(first: string, others: string)
    ensures "" + (first + "" + "") == first
    ensures "" + (first + "" + ("," + others)) == first + "," + others
  {
  }

  lemma {:induction false} MemberIsCompact(m: Member)
    requires IsBytes(m.key) && Dumpable(m.value)
    ensures WriteMember(CompactMember(m)) == DumpMember(m) && MemberOf(CompactMember(m)) == m
    decreases m, 2
  {
    hide Write, Dump, Compact, Dumpable, TreeOf, IsSyntax, Escaped, Unescaped, WellFormed;
    DumpIsCompact(m.value);
    UnescapeUndoesEscape(m.key);
    assert "\"" + Escaped(m.key) + "\"" + "" + ":" + "" + Dump(m.value) == Quoted(m.key) + ":" + Dump(m.value);
  }

  lemma {:induction false} MembersAreCompact(members: seq<Member>)
    requires forall i :: 0 <= i < |members| ==> IsBytes(members[i].key) && Dumpable(members[i].value)
    ensures WriteMembers(CompactMembers(members)) == DumpMembers(members) && MembersOf(CompactMembers(members)) == members
    decreases members, 0
  {
    hide WriteMember, DumpMember, CompactMember, Dumpable, MemberOf, IsPair;
    if members != [] {
      var ps := CompactMembers(members);
      MemberIsCompact(members[0]);
      MembersAreCompact(members[1..]);
      assert ps[0] == CompactMember(members[0]) && ps[1..] == CompactMembers(members[1..]);
      BareMember(members[0]);
      ItemText(DumpMember(members[0]), DumpMembers(members[1..]));
      assert members == [members[0]] + members[1..];
    }
  }

  lemma BareMember(m: Member)
    requires IsBytes(m.key) && Dumpable(m.value)
    ensures CompactMember(m).before == "" && CompactMember(m).item.after == ""
  {
  }

  /** A printed tree, at any depth and before anything that ends a number, reads
      back as itself, or is refused, exactly by the depth limit. */
  lemma ValueReadsBack(t: Tree, d: nat, rest: string)
    requires Dumpable(t) && EndsNumber(rest)
    ensures ParseValue(Dump(t) + rest, d) == if Fits(Height(t), d) then Done(t, rest) else Fail
  {
    hide ParseValue, Write, Dump, Compact, IsSyntax, TreeOf, Dumpable;
    DumpIsCompact(t);
    AnyEnd(Compact(t), rest);
    ValueAccepted(Compact(t), d, rest);
  }

  /** Parsing the printed form of a tree gives the tree back if it nests at
      most 5000 deep, and is refused if it nests deeper. */
  lemma ParseInvertsDump(t: Tree)
    requires Dumpable(t)
    ensures Parse(Dump(t) + [NUL]) == if Height(t) <= 5000 then Accepted(t) else Rejected
  {
    hide Parse, Write, Dump, Compact, IsSyntax, TreeOf, Dumpable;
    DumpIsCompact(t);
    TextIsAccepted(Compact(t), "", "");
    assert "" + Dump(t) + "" + [NUL] == Dump(t) + [NUL];
  }
}
