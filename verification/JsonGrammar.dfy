/** JSON trees, their printed form, and the language the parser reads. */
module JsonGrammar {
  import opened Memory
  import Decimal
  import opened JsonText

  /** A number is kept as its text, as the parser keeps it. */
  datatype Tree = Null | Bool(b: bool) | Number(text: string) | String(s: string)
    | List(items: seq<Tree>) | Object(members: seq<Member>)

  datatype Member = Member(key: string, value: Tree)

  // ----- Printing -----

  function Quoted(s: string): string {
    "\"" + Escaped(s) + "\""
  }

  function Dump(t: Tree): string {
    match t
    case Null => "null"
    case Bool(b) => if b then "true" else "false"
    case Number(text) => text
    case String(s) => Quoted(s)
    case List(items) => "[" + DumpItems(items) + "]"
    case Object(members) => "{" + DumpMembers(members) + "}"
  }

  function DumpItems(items: seq<Tree>): string {
    if items == [] then ""
    else if |items| == 1 then Dump(items[0])
    else Dump(items[0]) + "," + DumpItems(items[1..])
  }

  function DumpMember(m: Member): string {
    Quoted(m.key) + ":" + Dump(m.value)
  }

  function DumpMembers(members: seq<Member>): string {
    if members == [] then ""
    else if |members| == 1 then DumpMember(members[0])
    else DumpMember(members[0]) + "," + DumpMembers(members[1..])
  }

  /** `dump_internal` appends to the output it is given. */
  method DumpInternal(t: Tree, out: string) returns (r: string)
    ensures r == out + Dump(t)
    decreases t, 1
  {
    match t {
      case Null => r := out + "null";
      case Bool(b) => r := out + if b then "true" else "false";
      case Number(text) => r := out + text;
      case String(s) => r := DumpString(s, out);
      case List(items) =>
        r := out + "[";
        r := DumpListItems(t, r);
        r := r + "]";
      case Object(members) =>
        r := out + "{";
        r := DumpObjectMembers(t, r);
        r := r + "}";
    }
  }

  /** `dump_string`. */
  method DumpString(s: string, out: string) returns (r: string)
    ensures r == out + Quoted(s)
  {
    hide Escaped;
    r := out + "\"";
    r := Escape(s, r);
    r := r + "\"";
  }

  method DumpListItems(t: Tree, out: string) returns (r: string)
    requires t.List?
    ensures r == out + DumpItems(t.items)
    decreases t, 0
  {
    var first := true;
    r := out;
    for i := 0 to |t.items|
      invariant first <==> i == 0
      invariant r == out + DumpItems(t.items[..i])
    {
      if !first {
        r := r + ",";
      }
      first := false;
      r := DumpInternal(t.items[i], r);
      ItemsGrow(t.items[..i], t.items[i]);
      assert t.items[..i] + [t.items[i]] == t.items[..i + 1];
    }
    assert t.items[..|t.items|] == t.items;
  }

  lemma {:induction false} ItemsGrow(items: seq<Tree>, x: Tree)
    ensures DumpItems(items + [x]) == DumpItems(items) + (if items == [] then "" else ",") + Dump(x)
  {
    if |items| > 0 {
      ItemsGrow(items[1..], x);
      assert (items + [x])[1..] == items[1..] + [x];
    }
  }

  method DumpObjectMembers(t: Tree, out: string) returns (r: string)
    requires t.Object?
    ensures r == out + DumpMembers(t.members)
    decreases t, 0
  {
    hide Quoted, Dump;
    var first := true;
    r := out;
    for i := 0 to |t.members|
      invariant first <==> i == 0
      invariant r == out + DumpMembers(t.members[..i])
    {
      if !first {
        r := r + ",";
      }
      first := false;
      ghost var before := r;
      r := DumpString(t.members[i].key, r);
      r := r + ":";
      r := DumpInternal(t.members[i].value, r);
      assert r == before + DumpMember(t.members[i]);
      MembersGrow(t.members[..i], t.members[i]);
      assert t.members[..i] + [t.members[i]] == t.members[..i + 1];
    }
    assert t.members[..|t.members|] == t.members;
  }

  lemma {:induction false} MembersGrow(members: seq<Member>, x: Member)
    ensures DumpMembers(members + [x]) == DumpMembers(members) + (if members == [] then "" else ",") + DumpMember(x)
  {
    hide DumpMember;
    if |members| > 0 {
      MembersGrow(members[1..], x);
      assert (members + [x])[1..] == members[1..] + [x];
    }
  }

  // ----- Reading: numbers -----

  datatype NumberState = Minus | AfterMinus | ZeroFirst | Digits | DigitsAfterPoints | E | DigitsAfterE | Invalid

  predicate IsNumberChar(c: char) {
    Decimal.IsDigit(c) || c == '.' || c == '-' || c == '+' || c == 'e' || c == 'E'
  }

  /** The parser's state table. */
  function Shift(st: NumberState, c: char): NumberState
    requires IsNumberChar(c) && st != Invalid
  {
    if Decimal.IsDigit(c) then
      match st
      case Minus | AfterMinus => if c == '0' then ZeroFirst else Digits
      case ZeroFirst => Invalid
      case E | DigitsAfterE => DigitsAfterE
      case _ => st
    else if c == '.' then if st == ZeroFirst || st == Digits then DigitsAfterPoints else Invalid
    else if c == '-' then if st == Minus then AfterMinus else if st == E then DigitsAfterE else Invalid
    else if c == '+' then if st == E then DigitsAfterE else Invalid
    else if st == Digits || st == DigitsAfterPoints then E
    else Invalid
  }

  predicate Accepts(st: NumberState) {
    st == ZeroFirst || st == Digits || st == DigitsAfterPoints || st == DigitsAfterE
  }

  /** The characters of the number at the front of `t`, read from state `st`, or -1. */
  function ScanNumber(t: string, st: NumberState): (k: int)
    ensures -1 <= k <= |t|
    ensures st == Minus ==> k != 0
  {
    if st == Invalid then -1
    else if t == [] || !IsNumberChar(t[0]) then if Accepts(st) then 0 else -1
    else
      var k := ScanNumber(t[1..], Shift(st, t[0]));
      if k == -1 then -1 else k + 1
  }

  // ----- Reading: values -----

  const MAX_DEPTH := 10000

  datatype Parsed<T> = Fail | Done(value: T, rest: string)

  predicate IsWs(c: char) {
    c == ' ' || c == '\t' || c == '\r' || c == '\n'
  }

  function SkipWs(t: string): (r: string)
    ensures |r| <= |t|
    ensures r != [] ==> !IsWs(r[0])
  {
    if t != [] && IsWs(t[0]) then SkipWs(t[1..]) else t
  }

  /** The character at the front, or the terminator. */
  function Head(t: string): char {
    if t == [] then NUL else t[0]
  }

  function ParseString(t: string): (p: Parsed<string>)
    ensures p.Done? ==> |p.rest| < |t|
  {
    if Head(t) != '"' then Fail
    else
      var k := ScanString(t[1..]);
      if k == -1 then Fail else
      ScannedIsWellFormed(t[1..]);
      Done(Unescaped(t[1..][..k]), t[k + 2..])
  }

  function ParseNumber(t: string): (p: Parsed<Tree>)
    ensures p.Done? ==> |p.rest| < |t|
  {
    var k := ScanNumber(t, Minus);
    if k == -1 then Fail else Done(Number(t[..k]), t[k..])
  }

  function ParseValue(t: string, depth: nat): (p: Parsed<Tree>)
    ensures p.Done? ==> |p.rest| < |t|
    decreases |t|, 1
  {
    var c := Head(t);
    if c == '[' then ParseList(t, depth + 1)
    else if c == '{' then ParseObject(t, depth + 1)
    else if c == '"' then
      (match ParseString(t) case Fail => Fail case Done(s, r) => Done(String(s), r))
    else if c == 't' then if "true" <= t then Done(Bool(true), t[4..]) else Fail
    else if c == 'f' then if "false" <= t then Done(Bool(false), t[5..]) else Fail
    else if c == 'n' then if "null" <= t then Done(Null, t[4..]) else Fail
    else ParseNumber(t)
  }

  function ParseList(t: string, depth: nat): (p: Parsed<Tree>)
    ensures p.Done? ==> |p.rest| < |t|
    decreases |t|, 0
  {
    if Head(t) != '[' || depth > MAX_DEPTH then Fail
    else
      var r := SkipWs(t[1..]);
      if Head(r) == ']' then Done(List([]), r[1..])
      else match ParseItems(r, depth) case Fail => Fail case Done(items, rest) => Done(List(items), rest)
  }

  function ParseItems(t: string, depth: nat): (p: Parsed<seq<Tree>>)
    ensures p.Done? ==> |p.rest| < |t|
    decreases |t|, 2
  {
    match ParseValue(t, depth + 1)
    case Fail => Fail
    case Done(x, after) =>
      var r := SkipWs(after);
      if Head(r) == ']' then Done([x], r[1..])
      else if Head(r) != ',' then Fail
      else Prepend([x], ParseItems(SkipWs(r[1..]), depth))
  }

  function Prepend<T>(front: seq<T>, p: Parsed<seq<T>>): (q: Parsed<seq<T>>) {
    match p case Fail => Fail case Done(xs, rest) => Done(front + xs, rest)
  }

  function ParseObject(t: string, depth: nat): (p: Parsed<Tree>)
    ensures p.Done? ==> |p.rest| < |t|
    decreases |t|, 0
  {
    if Head(t) != '{' || depth > MAX_DEPTH then Fail
    else
      var r := SkipWs(t[1..]);
      if Head(r) == '}' then Done(Object([]), r[1..])
      else match ParseMembers(r, depth) case Fail => Fail case Done(members, rest) => Done(Object(members), rest)
  }

  /** A key, a colon and a value. */
  function ParseMember(t: string, depth: nat): (p: Parsed<Member>)
    ensures p.Done? ==> |p.rest| < |t|
    decreases |t|, 2
  {
    match ParseString(t)
    case Fail => Fail
    case Done(key, after) =>
      var r := SkipWs(after);
      if Head(r) != ':' then Fail
      else match ParseValue(SkipWs(r[1..]), depth + 1) case Fail => Fail case Done(x, rest) => Done(Member(key, x), rest)
  }

  function ParseMembers(t: string, depth: nat): (p: Parsed<seq<Member>>)
    ensures p.Done? ==> |p.rest| < |t|
    decreases |t|, 3
  {
    match ParseMember(t, depth)
    case Fail => Fail
    case Done(m, after) =>
      var r := SkipWs(after);
      if Head(r) == '}' then Done([m], r[1..])
      else if Head(r) != ',' then Fail
      else Prepend([m], ParseMembers(SkipWs(r[1..]), depth))
  }

  datatype Outcome = Rejected | Accepted(tree: Tree)

  /** `parse`, on memory that holds the text and its terminator. */
  function Parse(m: string): Outcome {
    match ParseValue(SkipWs(m), 0)
    case Fail => Rejected
    case Done(t, rest) => if Head(SkipWs(rest)) == NUL then Accepted(t) else Rejected
  }
}
