/** Whatever the JSON parser accepts is written in the language, so that it accepts
    exactly the texts of the language. */
module JsonSound {
  import opened Memory
  import opened JsonText
  import opened JsonGrammar
  import opened JsonLanguage
  import Decimal

  // ----- Blanks and strings -----

  lemma {:induction false} Skipped(t: string) returns (blank: string)
    ensures IsBlank(blank) && t == blank + SkipWs(t)
  {
    if t != [] && IsWs(t[0]) {
      var more := Skipped(t[1..]);
      blank := [t[0]] + more;
      assert t == [t[0]] + t[1..];
    } else {
      blank := "";
    }
  }

  lemma {:induction false} ScannedIsRaw(t: string)
    requires ScanString(t) >= 0
    ensures IsRaw(t[..ScanString(t)])
    decreases |t|
  {
    var k := ScanString(t);
    if t[0] == '"' {
      assert t[..k] == [];
    } else {
      var used := Used(t);
      assert used > 0;
      ScanStep(t);
      ScannedIsRaw(t[used..]);
      RawMore(t, k);
    }
  }

  lemma RawMore(t: string, k: nat)
    requires t != [] && t[0] != NUL && t[0] != '"' && 0 < Used(t) <= k <= |t| && IsRaw(t[Used(t)..][..k - Used(t)])
    ensures IsRaw(t[..k])
  {
    var raw := t[..k];
    assert raw[Used(t)..] == t[Used(t)..][..k - Used(t)];
    assert forall i :: 0 <= i < k ==> raw[i] == t[i];
  }

  lemma StringIsWritten(t: string) returns (raw: string)
    requires ParseString(t).Done?
    ensures IsRaw(raw) && WellFormed(raw) && ParseString(t).value == Unescaped(raw)
    ensures t == "\"" + raw + "\"" + ParseString(t).rest
  {
    hide ScanString, IsRaw, Unescaped, WellFormed;
    var k := ScanString(t[1..]);
    raw := t[1..][..k];
    ScannedIsRaw(t[1..]);
    ScannedIsWellFormed(t[1..]);
    assert t[1..][k] == '"' && t[k + 1] == '"';
    assert t == [t[0]] + t[1..][..k] + [t[k + 1]] + t[k + 2..];
  }

  // ----- Numbers -----

  /** One character of a number. */
  lemma NextShift(t: string, st: NumberState)
    requires ScanNumber(t, st) >= 0 && !EndsNumber(t)
    ensures st != Invalid && ScanNumber(t[1..], Shift(st, t[0])) == ScanNumber(t, st) - 1 >= 0
    ensures Shift(st, t[0]) != Invalid
  {
  }

  lemma AtEnd(t: string, st: NumberState)
    requires ScanNumber(t, st) >= 0 && EndsNumber(t)
    ensures ScanNumber(t, st) == 0 && Accepts(st)
  {
  }

  /** All the digits at the front of a text. */
  lemma DigitRun(t: string, st: NumberState) returns (d: string, u: string)
    requires ScanNumber(t, st) >= 0 && Loops(st)
    ensures t == d + u && Decimal.AllDigits(d) && (u == "" || !Decimal.IsDigit(u[0]))
    ensures ScanNumber(u, st) >= 0 && ScanNumber(t, st) == |d| + ScanNumber(u, st)
  {
    hide ScanNumber;
    var k := Decimal.DigitSpan(t);
    d, u := t[..k], t[k..];
    assert t == d + u;
    ScanLoop(d, u, st);
  }

  /** What may stand behind the digits: nothing, or an exponent. */
  lemma ExponentIsWritten(t: string, st: NumberState) returns (exponent: string, rest: string)
    requires ScanNumber(t, st) >= 0 && (st == Digits || st == DigitsAfterPoints) && (t == "" || (!Decimal.IsDigit(t[0]) && t[0] != '.'))
    ensures t == exponent + rest && EndsNumber(rest) && |exponent| == ScanNumber(t, st)
    ensures exponent != "" ==> IsExponent(exponent)
  {
    hide ScanNumber, Loops;
    if EndsNumber(t) {
      AtEnd(t, st);
      exponent, rest := "", t;
    } else {
      NextShift(t, st);
      assert Shift(st, t[0]) == E;
      var c, d;
      c, d, rest := SignAndDigits(t[1..]);
      exponent := [t[0]] + ([c] + d);
      assert t == [t[0]] + t[1..] == exponent + rest;
      assert exponent[2..] == d;
    }
  }

  lemma SignAndDigits(t: string) returns (c: char, d: string, rest: string)
    requires ScanNumber(t, E) >= 0
    ensures t == [c] + d + rest && EndsNumber(rest) && ScanNumber(t, E) == 1 + |d|
    ensures (c == '+' || c == '-' || Decimal.IsDigit(c)) && Decimal.AllDigits(d)
  {
    hide ScanNumber;
    if EndsNumber(t) {
      AtEnd(t, E);
    }
    NextShift(t, E);
    c := t[0];
    assert Shift(E, c) == DigitsAfterE;
    d, rest := DigitRun(t[1..], DigitsAfterE);
    assert t == [c] + t[1..] == [c] + d + rest;
    if !EndsNumber(rest) {
      NextShift(rest, DigitsAfterE);
    }
    AtEnd(rest, DigitsAfterE);
  }

  /** What may stand behind a whole number: a fraction, an exponent, or both. */
  lemma FractionIsWritten(t: string, st: NumberState) returns (fraction: string, exponent: string, rest: string)
    requires ScanNumber(t, st) >= 0 && (st == Digits || st == ZeroFirst) && (t == "" || !Decimal.IsDigit(t[0]))
    ensures t == fraction + exponent + rest && EndsNumber(rest) && |fraction| + |exponent| == ScanNumber(t, st)
    ensures fraction != "" ==> fraction[0] == '.' && Decimal.AllDigits(fraction[1..])
    ensures exponent != "" ==> IsExponent(exponent) && !(st == ZeroFirst && fraction == "")
  {
    hide ScanNumber, IsExponent;
    if t != "" && t[0] == '.' {
      NextShift(t, st);
      var d, u := DigitRun(t[1..], DigitsAfterPoints);
      if u != "" && u[0] == '.' {
        NextShift(u, DigitsAfterPoints);
      }
      exponent, rest := ExponentIsWritten(u, DigitsAfterPoints);
      fraction := ['.'] + d;
      assert t == ['.'] + t[1..] == ['.'] + (d + u) == fraction + exponent + rest;
      assert fraction[1..] == d;
    } else if st == Digits {
      fraction := "";
      exponent, rest := ExponentIsWritten(t, st);
      assert t == "" + exponent + rest;
    } else {
      if !EndsNumber(t) {
        NextShift(t, st);
      }
      AtEnd(t, st);
      fraction, exponent, rest := "", "", t;
    }
  }

  lemma WholeIsWritten(t: string, st: NumberState) returns (whole: string, fraction: string, exponent: string, rest: string)
    requires ScanNumber(t, st) >= 0 && (st == Minus || st == AfterMinus) && (st == Minus ==> t == "" || t[0] != '-')
    ensures IsNumeral("", whole, fraction, exponent) && EndsNumber(rest)
    ensures t == whole + fraction + exponent + rest && |whole| + |fraction| + |exponent| == ScanNumber(t, st)
  {
    hide ScanNumber, IsExponent;
    if EndsNumber(t) {
      AtEnd(t, st);
    }
    NextShift(t, st);
    assert Decimal.IsDigit(t[0]);
    var d, u := "", t[1..];
    if t[0] == '0' {
      if u != "" && Decimal.IsDigit(u[0]) {
        NextShift(u, ZeroFirst);
      }
      fraction, exponent, rest := FractionIsWritten(u, ZeroFirst);
    } else {
      d, u := DigitRun(t[1..], Digits);
      fraction, exponent, rest := FractionIsWritten(u, Digits);
    }
    whole := [t[0]] + d;
    WholeParts(t, d, u, fraction, exponent, rest);
  }

  lemma WholeParts(t: string, d: string, u: string, fraction: string, exponent: string, rest: string)
    requires t != [] && t[1..] == d + u && u == fraction + exponent + rest
    ensures t == [t[0]] + d + fraction + exponent + rest
  {
    assert t == [t[0]] + t[1..];
  }

  lemma NumberIsWritten(t: string) returns (x: Syntax)
    requires ParseNumber(t).Done?
    ensures x.Numeral? && IsSyntax(x) && TreeOf(x) == ParseNumber(t).value
    ensures t == Write(x) + ParseNumber(t).rest && EndsNumber(ParseNumber(t).rest)
  {
    hide ScanNumber, IsExponent;
    var sign, u, st := "", t, Minus;
    if t != [] && t[0] == '-' {
      NextShift(t, Minus);
      sign, u, st := "-", t[1..], AfterMinus;
      assert t == "-" + u;
    }
    var whole, fraction, exponent, rest := WholeIsWritten(u, st);
    x := Numeral(sign, whole, fraction, exponent);
    var text := sign + whole + fraction + exponent;
    assert t == text + rest;
    assert |text| == ScanNumber(t, Minus) && t[..|text|] == text && t[|text|..] == rest;
  }

  // ----- Values -----

  /** Items, the first with other blanks in front of it. */
  function Behind(blank: string, items: seq<Item>): seq<Item>
    requires items != []
  {
    [items[0].(before := blank)] + items[1..]
  }

  lemma BehindIs(blank: string, items: seq<Item>)
    requires IsBlank(blank) && items != [] && AllItems(items) && items[0].before == ""
    ensures AllItems(Behind(blank, items)) && TreesOf(Behind(blank, items)) == TreesOf(items)
    ensures WriteItems(Behind(blank, items)) == blank + WriteItems(items)
  {
    hide WriteItems, Write, TreeOf, IsSyntax;
    var moved := Behind(blank, items);
    assert moved[0] == items[0].(before := blank) && moved[1..] == items[1..];
    assert forall i :: 1 <= i < |moved| ==> moved[i] == items[i];
    WriteItemsBehind(blank, items);
  }

  lemma WriteItemsBehind(blank: string, items: seq<Item>)
    requires items != [] && items[0].before == ""
    ensures WriteItems(Behind(blank, items)) == blank + WriteItems(items)
  {
    hide Write;
    var x, moved := items[0], Behind(blank, items);
    assert moved[0] == x.(before := blank) && moved[1..] == items[1..] && |moved| == |items|;
    var more := if |items| == 1 then "" else "," + WriteItems(items[1..]);
    var text := Write(x.value) + x.after + more;
    assert WriteItems(items) == "" + text == text;
    assert WriteItems(moved) == blank + text;
  }

  function BehindKeys(blank: string, members: seq<Pair>): seq<Pair>
    requires members != []
  {
    [members[0].(before := blank)] + members[1..]
  }

  lemma BehindKeysIs(blank: string, members: seq<Pair>)
    requires IsBlank(blank) && members != [] && AllPairs(members) && members[0].before == ""
    ensures AllPairs(BehindKeys(blank, members)) && MembersOf(BehindKeys(blank, members)) == MembersOf(members)
    ensures WriteMembers(BehindKeys(blank, members)) == blank + WriteMembers(members)
  {
    hide WriteMembers, WriteMember, IsPair, MemberOf;
    SameKey(members[0], blank);
    var moved := BehindKeys(blank, members);
    assert moved[0] == members[0].(before := blank) && moved[1..] == members[1..];
    assert forall i :: 1 <= i < |moved| ==> moved[i] == members[i];
    WriteBehind(blank, members);
  }

  lemma SameText(m: Pair, blank: string)
    ensures WriteMember(m.(before := blank)) == WriteMember(m)
  {
    hide Write;
  }

  lemma WriteBehind(blank: string, members: seq<Pair>)
    requires members != [] && members[0].before == ""
    ensures WriteMembers(BehindKeys(blank, members)) == blank + WriteMembers(members)
  {
    hide WriteMember;
    var m, moved := members[0], BehindKeys(blank, members);
    assert moved[0] == m.(before := blank) && moved[1..] == members[1..] && |moved| == |members|;
    SameText(m, blank);
    var more := if |members| == 1 then "" else "," + WriteMembers(members[1..]);
    var text := WriteMember(m) + m.item.after + more;
    assert WriteMembers(members) == "" + text == text;
    assert WriteMembers(moved) == blank + text;
  }

  lemma SameKey(m: Pair, blank: string)
    requires IsPair(m) && IsBlank(blank)
    ensures
      var first := m.(before := blank);
      IsPair(first) && MemberOf(first) == MemberOf(m) && WriteMember(first) == WriteMember(m)
  {
    hide IsSyntax, IsRaw, TreeOf, Unescaped, WellFormed, Write;
  }

  /** Whatever is read as a value is the writing of a syntax tree for it. */
  lemma {:induction false} ValueIsWritten(t: string, d: nat) returns (x: Syntax)
    requires ParseValue(t, d).Done?
    ensures IsSyntax(x) && TreeOf(x) == ParseValue(t, d).value
    ensures t == Write(x) + ParseValue(t, d).rest && Ends(x, ParseValue(t, d).rest)
    decreases |t|, 3
  {
    var c := Head(t);
    if c == '[' {
      x := ListIsWritten(t, d + 1);
    } else if c == '{' {
      x := ObjectIsWritten(t, d + 1);
    } else if c == '"' {
      var raw := StringIsWritten(t);
      x := Text(raw);
    } else if c == 't' {
      x := BoolWord(true);
      assert t == "true" + t[4..];
    } else if c == 'f' {
      x := BoolWord(false);
      assert t == "false" + t[5..];
    } else if c == 'n' {
      x := NullWord;
      assert t == "null" + t[4..];
    } else {
      x := NumberIsWritten(t);
    }
  }

  lemma {:induction false} ListIsWritten(t: string, depth: nat) returns (x: Syntax)
    requires ParseList(t, depth).Done?
    ensures (x.Items? || x.EmptyList?) && IsSyntax(x) && TreeOf(x) == ParseList(t, depth).value
    ensures t == Write(x) + ParseList(t, depth).rest
    decreases |t|, 1
  {
    hide ParseItems, SkipWs, WriteItems, TreesOf, AllItems;
    var blank := Skipped(t[1..]);
    var r := SkipWs(t[1..]);
    assert t == "[" + (blank + r);
    if Head(r) == ']' {
      x := EmptyList(blank);
      assert r == "]" + r[1..];
    } else {
      var items := ItemsAreWritten(r, depth);
      var rest := ParseItems(r, depth).rest;
      BehindIs(blank, items);
      x := Items(Behind(blank, items));
      assert "[" + (blank + (WriteItems(items) + "]" + rest)) == ("[" + (blank + WriteItems(items)) + "]") + rest;
    }
  }

  lemma {:induction false} ItemsAreWritten(t: string, depth: nat) returns (items: seq<Item>)
    requires ParseItems(t, depth).Done?
    ensures items != [] && items[0].before == "" && AllItems(items) && TreesOf(items) == ParseItems(t, depth).value
    ensures t == WriteItems(items) + "]" + ParseItems(t, depth).rest
    decreases |t|, 4
  {
    hide ParseValue, SkipWs, Write, IsSyntax, TreeOf, Ends;
    var v := ValueIsWritten(t, depth + 1);
    var after := ParseValue(t, depth + 1).rest;
    var blank := Skipped(after);
    var r := SkipWs(after);
    if Head(r) == ']' {
      items := [Item("", v, blank)];
      assert items[1..] == [];
      assert TreesOf(items) == [TreeOf(v)] + [] == [TreeOf(v)];
      assert r == "]" + r[1..];
      LastText(Write(v), blank, "]", r[1..]);
    } else {
      var more := SkipWs(r[1..]);
      var gap := Skipped(r[1..]);
      var others := ItemsAreWritten(more, depth);
      var rest := ParseItems(more, depth).rest;
      BehindIs(gap, others);
      items := [Item("", v, blank)] + Behind(gap, others);
      assert items[1..] == Behind(gap, others);
      assert r == "," + (gap + more);
      MoreText(Write(v), blank, gap, WriteItems(others), "]", rest);
    }
  }

  lemma LastText(v: string, blank: string, close: string, rest: string)
    ensures v + (blank + (close + rest)) == "" + (v + blank + "") + close + rest
  {
  }

  lemma MoreText(v: string, blank: string, gap: string, others: string, close: string, rest: string)
    ensures v + (blank + ("," + (gap + (others + close + rest)))) == "" + (v + blank + ("," + (gap + others))) + close + rest
  {
  }

  lemma {:induction false} ObjectIsWritten(t: string, depth: nat) returns (x: Syntax)
    requires ParseObject(t, depth).Done?
    ensures (x.Members? || x.EmptyObject?) && IsSyntax(x) && TreeOf(x) == ParseObject(t, depth).value
    ensures t == Write(x) + ParseObject(t, depth).rest
    decreases |t|, 1
  {
    hide ParseMembers, SkipWs, WriteMembers, MembersOf, AllPairs;
    var blank := Skipped(t[1..]);
    var r := SkipWs(t[1..]);
    assert t == "{" + (blank + r);
    if Head(r) == '}' {
      x := EmptyObject(blank);
      assert r == "}" + r[1..];
    } else {
      var members := MembersAreWritten(r, depth);
      var rest := ParseMembers(r, depth).rest;
      BehindKeysIs(blank, members);
      x := Members(BehindKeys(blank, members));
      assert "{" + (blank + (WriteMembers(members) + "}" + rest)) == ("{" + (blank + WriteMembers(members)) + "}") + rest;
    }
  }

  /** A member, without the blanks around it. */
  lemma {:induction false} MemberIsWritten(t: string, depth: nat) returns (m: Pair)
    requires ParseMember(t, depth).Done?
    ensures m.before == "" && m.item.after == "" && IsPair(m) && MemberOf(m) == ParseMember(t, depth).value
    ensures t == WriteMember(m) + ParseMember(t, depth).rest
    decreases |t|, 4
  {
    hide ParseValue, ParseString, SkipWs, Write, IsSyntax, TreeOf, Ends, IsRaw, Unescaped, WellFormed;
    var raw := StringIsWritten(t);
    var after := ParseString(t).rest;
    var middle := Skipped(after);
    var r := SkipWs(after);
    var gap := Skipped(r[1..]);
    var u := SkipWs(r[1..]);
    var v := ValueIsWritten(u, depth + 1);
    var rest := ParseValue(u, depth + 1).rest;
    m := Pair("", raw, middle, Item(gap, v, ""));
    assert r == ":" + (gap + u);
    MemberText(m, rest);
  }

  lemma {:induction false} MembersAreWritten(t: string, depth: nat) returns (members: seq<Pair>)
    requires ParseMembers(t, depth).Done?
    ensures members != [] && members[0].before == "" && AllPairs(members) && MembersOf(members) == ParseMembers(t, depth).value
    ensures t == WriteMembers(members) + "}" + ParseMembers(t, depth).rest
    decreases |t|, 5
  {
    hide ParseMember, SkipWs, WriteMember, TreeOf, IsSyntax, IsRaw, Unescaped, WellFormed;
    var m := MemberIsWritten(t, depth);
    var after := ParseMember(t, depth).rest;
    var blank := Skipped(after);
    var r := SkipWs(after);
    var first := m.(item := m.item.(after := blank));
    SameMember(m, blank);
    if Head(r) == '}' {
      members := [first];
      assert members[1..] == [];
      assert MembersOf(members) == [MemberOf(first)] + [] == [MemberOf(first)];
      assert r == "}" + r[1..];
      LastText(WriteMember(first), blank, "}", r[1..]);
    } else {
      var more := SkipWs(r[1..]);
      var gap := Skipped(r[1..]);
      var others := MembersAreWritten(more, depth);
      var rest := ParseMembers(more, depth).rest;
      BehindKeysIs(gap, others);
      members := [first] + BehindKeys(gap, others);
      assert members[1..] == BehindKeys(gap, others);
      assert r == "," + (gap + more);
      MoreText(WriteMember(first), blank, gap, WriteMembers(others), "}", rest);
    }
  }

  lemma SameMember(m: Pair, blank: string)
    requires IsPair(m) && IsBlank(blank)
    ensures
      var first := m.(item := m.item.(after := blank));
      IsPair(first) && MemberOf(first) == MemberOf(m) && WriteMember(first) == WriteMember(m)
  {
    hide IsSyntax, IsRaw, TreeOf, Unescaped, WellFormed, Write;
  }

  // ----- Whole texts -----

  /** A text without NUL is accepted, as a tree, exactly if it is blanks, the
      writing of a value of at most 5000 levels that stands for the tree, and blanks. */
  lemma AcceptedIff(text: string, tree: Tree)
    requires NUL !in text
    ensures Parse(text + [NUL]) == Accepted(tree) <==>
      exists x, before, after ::
        && IsSyntax(x) && IsBlank(before) && IsBlank(after) && text == before + Write(x) + after
        && Levels(x) <= 5000 && TreeOf(x) == tree
  {
    hide Parse, Write, IsSyntax, TreeOf, Levels;
    if Parse(text + [NUL]) == Accepted(tree) {
      var x, before, after := WholeIsText(text, tree);
      TextIsAccepted(x, before, after);
    }
    forall x, before, after |
      && IsSyntax(x) && IsBlank(before) && IsBlank(after) && text == before + Write(x) + after
      && Levels(x) <= 5000 && TreeOf(x) == tree
      ensures Parse(text + [NUL]) == Accepted(tree)
    {
      TextIsAccepted(x, before, after);
    }
  }

  lemma WholeIsText(text: string, tree: Tree) returns (x: Syntax, before: string, after: string)
    requires NUL !in text && Parse(text + [NUL]) == Accepted(tree)
    ensures IsSyntax(x) && IsBlank(before) && IsBlank(after) && text == before + Write(x) + after && TreeOf(x) == tree
  {
    hide ParseValue, SkipWs, Write, IsSyntax, TreeOf, Ends;
    var m := text + [NUL];
    before := Skipped(m);
    x := ValueIsWritten(SkipWs(m), 0);
    var rest := ParseValue(SkipWs(m), 0).rest;
    after := Skipped(rest);
    var last := SkipWs(rest);
    assert m == before + (Write(x) + (after + last)) == (before + Write(x) + after) + last;
    WriteLast(x);
    var front := before + Write(x) + after;
    assert front[|front| - 1] == if after == [] then Write(x)[|Write(x)| - 1] else after[|after| - 1];
    OnlyNul(text, front, last);
  }

  /** The NUL behind a text is the one that ends it. */
  lemma OnlyNul(text: string, front: string, last: string)
    requires NUL !in text && text + [NUL] == front + last && Head(last) == NUL
    requires front != [] && front[|front| - 1] != NUL
    ensures text == front
  {
    var all := text + [NUL];
    assert all[|all| - 1] == NUL;
    if last != [] {
      assert all[|front|] == NUL;
      assert forall i :: 0 <= i < |text| ==> all[i] == text[i] != NUL;
      assert all[..|text|] == text && (front + last)[..|front|] == front;
    }
  }

  /** A written value does not end with NUL. */
  lemma WriteLast(x: Syntax)
    requires IsSyntax(x)
    ensures Write(x) != [] && Write(x)[|Write(x)| - 1] != NUL
  {
    hide WriteItems, WriteMembers, AllItems, AllPairs, IsRaw;
    if x.Numeral? {
      NumeralLast(x.sign, x.whole, x.fraction, x.exponent);
    }
  }

  lemma NumeralLast(sign: string, whole: string, fraction: string, exponent: string)
    requires IsNumeral(sign, whole, fraction, exponent)
    ensures
      var text := sign + whole + fraction + exponent;
      text != [] && text[|text| - 1] != NUL
  {
    var text := sign + whole + fraction + exponent;
    if exponent != "" {
      assert text[|text| - 1] == exponent[|exponent| - 1];
      assert |exponent| > 2 ==> exponent[|exponent| - 1] == exponent[2..][|exponent| - 3];
    } else if fraction != "" {
      assert text[|text| - 1] == fraction[|fraction| - 1];
      assert |fraction| > 1 ==> fraction[|fraction| - 1] == fraction[1..][|fraction| - 2];
    } else {
      assert text[|text| - 1] == whole[|whole| - 1];
    }
  }

  /** Where the language differs from RFC 8259: a fraction without digits and an
      exponent without digits are numbers, and a zero with an exponent is not. */
  lemma OddNumbers()
    ensures IsSyntax(Numeral("", "1", ".", "")) && IsSyntax(Numeral("", "1", "", "e+"))
    ensures Parse("0e5" + [NUL]) == Rejected
  {
    var t := "0e5" + [NUL];
    assert t[1..][0] == 'e' && ScanNumber(t[1..], ZeroFirst) == -1;
    assert SkipWs(t) == t && ScanNumber(t, Minus) == -1;
  }
}
