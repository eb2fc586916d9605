/** What one step of the JSON parser means: how a reading of the text at a place
    in memory follows from the readings behind it. */
module JsonSteps {
  import opened Memory
  import Decimal
  import opened JsonText
  import opened JsonGrammar
  import opened JsonMemory

  function Behind(n: nat, k: int): int {
    if k == -1 then -1 else n + k
  }

  function StringTree(p: Parsed<string>): Parsed<Tree> {
    match p case Fail => Fail case Done(s, rest) => Done(String(s), rest)
  }

  function WordTree(t: string, word: string, found: Tree): Parsed<Tree> {
    if word <= t then Done(found, t[|word|..]) else Fail
  }

  function ListTree(p: Parsed<seq<Tree>>): Parsed<Tree> {
    match p case Fail => Fail case Done(items, rest) => Done(List(items), rest)
  }

  /** Which decoder reads the value, by its first character. */
  lemma ValueKind(m: string, from: nat, depth: nat)
    requires from < |m|
    ensures
      var t, c, p := m[from..], m[from], ParseValue(m[from..], depth);
      && (c == '[' ==> p == ParseList(t, depth + 1))
      && (c == '{' ==> p == ParseObject(t, depth + 1))
      && (c == '"' ==> p == StringTree(ParseString(t)))
      && (c == 't' ==> p == WordTree(t, "true", Bool(true)))
      && (c == 'f' ==> p == WordTree(t, "false", Bool(false)))
      && (c == 'n' ==> p == WordTree(t, "null", Null))
      && (c !in "[{\"tfn" ==> p == ParseNumber(t))
  {
    hide ParseString, ParseNumber, ParseList, ParseObject;
    assert m[from..][0] == m[from];
  }

  lemma WordsShow(m: string, at: nat)
    ensures Named(RBool(true), Bool(true)) && Named(RBool(false), Bool(false)) && Named(RNull, Null)
    ensures NUL !in "true" && NUL !in "false" && NUL !in "null"
  {
  }

  /** The value of a whole text, read behind white space, and what follows it. */
  lemma TextRead(m: string, from: nat, n: string, at: nat, end: nat, v: RValue)
    requires from <= |m| && m[from..] == SkipWs(m)
    requires Decoded(m, from, n, at, ParseValue(m[from..], 0), v)
    requires at <= end < |n| && at <= |n| && n[end..] == SkipWs(n[at..])
    ensures Parse(m) == Rejected <==> v.Bad? || n[end] != NUL
    ensures Parse(m).Accepted? ==> Shows(n, v, Parse(m).tree, 0, |n|)
  {
    hide ParseValue, SkipWs, Shows;
    var p := ParseValue(m[from..], 0);
    assert n[end..][0] == n[end];
    if v.Bad? {
      BadShowsNothing(m, from, n, at, p);
    } else {
      ShowsStays(n, n, v, p.value, from, at, 0, |n|);
    }
  }

  lemma ListRefused(m: string, from: nat, at: nat, depth: nat)
    requires Terminated(m) && from <= at < |m| && (m[from] != '[' || depth > MAX_DEPTH)
    ensures Decoded(m, from, m, at, ParseList(m[from..], depth), Bad)
  {
    hide ParseItems;
    assert m[from..][0] == m[from];
  }

  lemma EmptyList(m: string, from: nat, first: nat, depth: nat)
    requires Terminated(m) && from < first < |m| - 1 && m[from] == '[' && depth <= MAX_DEPTH
    requires SkipWs(m[from + 1..]) == m[first..] && m[first] == ']'
    ensures Decoded(m, from, m, first + 1, ParseList(m[from..], depth), RList([]))
  {
    hide ParseItems, SkipWs;
    assert m[from..][0] == m[from] && m[from..][1..] == m[from + 1..];
    assert m[first..][0] == ']' && m[first..][1..] == m[first + 1..];
  }

  lemma ListDecoded(m: string, from: nat, first: nat, n: string, at: nat, depth: nat, v: RValue)
    requires from < first < |m| && m[from] == '[' && depth <= MAX_DEPTH
    requires SkipWs(m[from + 1..]) == m[first..] && m[first] != ']'
    requires Decoded(m, first, n, at, ListTree(ParseItems(m[first..], depth)), v)
    ensures Decoded(m, from, n, at, ParseList(m[from..], depth), v)
  {
    assert ParseList(m[from..], depth) == ListTree(ParseItems(m[first..], depth)) by {
      hide ParseItems, SkipWs, Decoded;
      assert m[from..][0] == m[from] && m[from..][1..] == m[from + 1..];
      assert m[first..][0] == m[first];
    }
    hide ParseList, ParseItems;
    Widened(m, from, first, n, at, ListTree(ParseItems(m[first..], depth)), v);
  }

  /** The literal names need no memory. */
  ghost predicate Named(v: RValue, t: Tree) {
    (v.RNull? && t.Null?) || (v.RBool? && t == Bool(v.b))
  }

  lemma NoItems(m: string, from: nat)
    requires Terminated(m) && from < |m|
    ensures Decoded(m, from, m, from, Done(List([]), m[from..]), RList([]))
    ensures Decoded(m, from, m, from, Done(Object([]), m[from..]), RObject([]))
  {
  }

  lemma PrependNothing<T>(p: Parsed<seq<T>>)
    ensures Prepend([], p) == p
  {
    if p.Done? {
      assert [] + p.value == p.value;
    }
  }

  lemma PrependTwice<T>(front: seq<T>, x: T, p: Parsed<seq<T>>)
    ensures Prepend(front, Prepend([x], p)) == Prepend(front + [x], p)
  {
    if p.Done? {
      assert front + ([x] + p.value) == front + [x] + p.value;
    }
  }

  lemma FailDecoded(m: string, from: nat, n: string, at: nat, p: Parsed<Tree>)
    requires |n| == |m| && Terminated(n) && from <= at < |n| && p == Fail
    ensures Decoded(m, from, n, at, p, Bad)
  {
  }

  lemma Standing(m: string, from: nat, n: string, at: nat, p: Parsed<Tree>, v: RValue)
    requires Decoded(m, from, n, at, p, v)
    ensures |n| == |m| && Terminated(n) && from <= at < |n|
  {
  }

  /** Memory ahead of the decoder is still the original. */
  lemma StillThere(m: string, from: nat, n: string, at: nat, next: nat, t: Tree, v: RValue)
    requires at <= next < |m| && Decoded(m, from, n, at, Done(t, m[at..]), v)
    ensures n[next..] == m[next..] && n[next] == m[next]
  {
    assert n[next..] == n[at..][next - at..] && m[next..] == m[at..][next - at..];
    assert n[next..][0] == n[next] && m[next..][0] == m[next];
  }

  lemma MovedOn(m: string, from: nat, n: string, at: nat, next: nat, t: Tree, v: RValue)
    requires at <= next < |m| && |n| == |m| && Decoded(m, from, n, at, Done(t, m[at..]), v)
    ensures Decoded(m, from, n, next, Done(t, m[next..]), v) && n[next..] == m[next..]
  {
    hide Decoded;
    Moved(m, from, n, at, next, t, v);
    StillThere(m, from, n, at, next, t, v);
  }

  lemma BadShowsNothing(m: string, from: nat, n: string, at: nat, p: Parsed<Tree>)
    requires Decoded(m, from, n, at, p, Bad)
    ensures p.Fail?
  {
  }

  /** What a list's item leaves behind, read or not. */
  lemma ItemRead(m: string, from: nat, n: string, at: nat, ts: seq<Tree>, vs: seq<RValue>, n1: string, at1: nat, depth: nat, x: RValue)
    requires at < |m| && Decoded(m, from, n, at, Done(List(ts), m[at..]), RList(vs))
    requires at < |n| && Decoded(n, at, n1, at1, ParseValue(n[at..], depth + 1), x)
    requires from <= |m| && ParseItems(m[from..], depth) == Prepend(ts, ParseItems(m[at..], depth))
    ensures n[at..] == m[at..]
    ensures x.Bad? ==> Decoded(m, from, n1, at1, ListTree(ParseItems(m[from..], depth)), Bad)
    ensures !x.Bad? ==>
      var p := ParseValue(m[at..], depth + 1);
      && p.Done? && at1 <= |m| && p.rest == m[at1..]
      && Decoded(m, from, n1, at1, Done(List(ts + [p.value]), m[at1..]), RList(vs + [x]))
  {
    hide ParseItems, ParseValue, Shows;
    StillThere(m, from, n, at, at, List(ts), RList(vs));
    if x.Bad? {
      BadShowsNothing(n, at, n1, at1, ParseValue(n[at..], depth + 1));
      ItemsFail(m, at, depth);
    } else {
      var p := ParseValue(m[at..], depth + 1);
      assert m[at1..] == m[at..][at1 - at..] && n[at1..] == n[at..][at1 - at..];
      ItemDecoded(m, from, n, at, ts, vs, n1, at1, p.value, x);
    }
  }

  /** One turn of the loop over a list's items. */
  lemma ItemTurn(m: string, from: nat, at: nat, ts: seq<Tree>, vs: seq<RValue>, n1: string, at1: nat, at2: nat, depth: nat, x: RValue)
    requires at < |m| && from <= |m| && ParseItems(m[from..], depth) == Prepend(ts, ParseItems(m[at..], depth))
    requires ParseValue(m[at..], depth + 1).Done?
    requires at1 <= at2 < |m| && ParseValue(m[at..], depth + 1).rest == m[at1..]
    requires Decoded(m, from, n1, at1, Done(List(ts + [ParseValue(m[at..], depth + 1).value]), m[at1..]), RList(vs + [x]))
    requires |n1| == |m| && n1[at2..] == SkipWs(n1[at1..])
    ensures
      var more, us := ts + [ParseValue(m[at..], depth + 1).value], vs + [x];
      var p := ParseItems(m[from..], depth);
      && Decoded(m, from, n1, at2, Done(List(more), m[at2..]), RList(us))
      && (n1[at2] == ']' ==> at2 + 1 < |n1| && Decoded(m, from, n1, at2 + 1, ListTree(p), RList(us)))
      && (n1[at2] == ',' ==> p == Prepend(more, ParseItems(SkipWs(n1[at2 + 1..]), depth)))
      && (n1[at2] != ']' && n1[at2] != ',' ==> Decoded(m, from, n1, at2, ListTree(p), Bad))
  {
    hide ParseItems, ParseValue, SkipWs, Decoded;
    Standing(m, from, n1, at1, Done(List(ts + [ParseValue(m[at..], depth + 1).value]), m[at1..]), RList(vs + [x]));
    var t := ParseValue(m[at..], depth + 1).value;
    var more, us := ts + [t], vs + [x];
    StillThere(m, from, n1, at1, at2, List(more), RList(us));
    StillThere(m, from, n1, at1, at1, List(more), RList(us));
    Moved(m, from, n1, at1, at2, List(more), RList(us));
    ItemsStep(m, at, at1, at2, depth);
    if n1[at2] == ']' {
      Moved(m, from, n1, at2, at2 + 1, List(more), RList(us));
    } else if n1[at2] == ',' {
      assert n1[at2 + 1..] == n1[at2..][1..] && m[at2 + 1..] == m[at2..][1..];
      PrependTwice(ts, t, ParseItems(SkipWs(m[at2 + 1..]), depth));
    } else {
      FailDecoded(m, from, n1, at2, ListTree(ParseItems(m[from..], depth)));
    }
  }

  lemma ItemsFail(m: string, at: nat, depth: nat)
    requires at <= |m| && ParseValue(m[at..], depth + 1).Fail?
    ensures ParseItems(m[at..], depth) == Fail
  {
    hide ParseValue;
  }

  /** One turn of the loop over a list's items. */
  lemma ItemsStep(m: string, at: nat, at1: nat, at2: nat, depth: nat)
    requires at <= |m| && at1 <= |m| && at2 < |m|
    requires ParseValue(m[at..], depth + 1).Done? && ParseValue(m[at..], depth + 1).rest == m[at1..]
    requires SkipWs(m[at1..]) == m[at2..]
    ensures
      var x, p := ParseValue(m[at..], depth + 1).value, ParseItems(m[at..], depth);
      && (m[at2] == ']' ==> p == Done([x], m[at2 + 1..]))
      && (m[at2] == ',' ==> p == Prepend([x], ParseItems(SkipWs(m[at2 + 1..]), depth)))
      && (m[at2] != ']' && m[at2] != ',' ==> p == Fail)
  {
    hide ParseValue, SkipWs;
    assert m[at2..][0] == m[at2] && m[at2..][1..] == m[at2 + 1..];
  }

  function ObjectTree(p: Parsed<seq<Member>>): Parsed<Tree> {
    match p case Fail => Fail case Done(members, rest) => Done(Object(members), rest)
  }

  lemma ObjectRefused(m: string, from: nat, at: nat, depth: nat)
    requires Terminated(m) && from <= at < |m| && (m[from] != '{' || depth > MAX_DEPTH)
    ensures Decoded(m, from, m, at, ParseObject(m[from..], depth), Bad)
  {
    hide ParseMembers;
    assert m[from..][0] == m[from];
  }

  lemma EmptyObject(m: string, from: nat, first: nat, depth: nat)
    requires Terminated(m) && from < first < |m| - 1 && m[from] == '{' && depth <= MAX_DEPTH
    requires SkipWs(m[from + 1..]) == m[first..] && m[first] == '}'
    ensures Decoded(m, from, m, first + 1, ParseObject(m[from..], depth), RObject([]))
  {
    hide ParseMembers, SkipWs;
    assert m[from..][0] == m[from] && m[from..][1..] == m[from + 1..];
    assert m[first..][0] == '}' && m[first..][1..] == m[first + 1..];
  }

  lemma ObjectDecoded(m: string, from: nat, first: nat, n: string, at: nat, depth: nat, v: RValue)
    requires from < first < |m| && m[from] == '{' && depth <= MAX_DEPTH
    requires SkipWs(m[from + 1..]) == m[first..] && m[first] != '}'
    requires Decoded(m, first, n, at, ObjectTree(ParseMembers(m[first..], depth)), v)
    ensures Decoded(m, from, n, at, ParseObject(m[from..], depth), v)
  {
    assert ParseObject(m[from..], depth) == ObjectTree(ParseMembers(m[first..], depth)) by {
      hide ParseMembers, SkipWs, Decoded;
      assert m[from..][0] == m[from] && m[from..][1..] == m[from + 1..];
      assert m[first..][0] == m[first];
    }
    hide ParseObject, ParseMembers;
    Widened(m, from, first, n, at, ObjectTree(ParseMembers(m[first..], depth)), v);
  }

  /** What an object's member leaves behind, read or not. */
  lemma MemberRead(m: string, from: nat, n: string, at: nat, ts: seq<Member>, vs: seq<RMember>, n1: string, at1: nat, depth: nat, ok: bool, x: RMember)
    requires at < |m| && Decoded(m, from, n, at, Done(Object(ts), m[at..]), RObject(vs))
    requires at < |n| && MemberDecoded(n, at, n1, at1, ParseMember(n[at..], depth), ok, x)
    requires from <= |m| && ParseMembers(m[from..], depth) == Prepend(ts, ParseMembers(m[at..], depth))
    ensures n[at..] == m[at..]
    ensures !ok ==> Decoded(m, from, n1, at1, ObjectTree(ParseMembers(m[from..], depth)), Bad)
    ensures ok ==>
      var p := ParseMember(m[at..], depth);
      && p.Done? && at1 <= |m| && p.rest == m[at1..]
      && Decoded(m, from, n1, at1, Done(Object(ts + [p.value]), m[at1..]), RObject(vs + [x]))
  {
    hide ParseMembers, ParseMember, Shows, MemberShows;
    StillThere(m, from, n, at, at, Object(ts), RObject(vs));
    if !ok {
      MembersFail(m, at, depth);
    } else {
      var p := ParseMember(m[at..], depth);
      assert m[at1..] == m[at..][at1 - at..] && n[at1..] == n[at..][at1 - at..];
      MemberAppended(m, from, n, at, ts, vs, n1, at1, p.value, x);
    }
  }

  /** One turn of the loop over an object's members. */
  lemma MemberTurn(m: string, from: nat, at: nat, ts: seq<Member>, vs: seq<RMember>, n1: string, at1: nat, at2: nat, depth: nat, x: RMember)
    requires at < |m| && from <= |m| && ParseMembers(m[from..], depth) == Prepend(ts, ParseMembers(m[at..], depth))
    requires ParseMember(m[at..], depth).Done?
    requires at1 <= at2 < |m| && ParseMember(m[at..], depth).rest == m[at1..]
    requires Decoded(m, from, n1, at1, Done(Object(ts + [ParseMember(m[at..], depth).value]), m[at1..]), RObject(vs + [x]))
    requires |n1| == |m| && n1[at2..] == SkipWs(n1[at1..])
    ensures
      var more, us := ts + [ParseMember(m[at..], depth).value], vs + [x];
      var p := ParseMembers(m[from..], depth);
      && Decoded(m, from, n1, at2, Done(Object(more), m[at2..]), RObject(us))
      && (n1[at2] == '}' ==> at2 + 1 < |n1| && Decoded(m, from, n1, at2 + 1, ObjectTree(p), RObject(us)))
      && (n1[at2] == ',' ==> p == Prepend(more, ParseMembers(SkipWs(n1[at2 + 1..]), depth)))
      && (n1[at2] != '}' && n1[at2] != ',' ==> Decoded(m, from, n1, at2, ObjectTree(p), Bad))
  {
    hide ParseMembers, ParseMember, SkipWs, Decoded;
    Standing(m, from, n1, at1, Done(Object(ts + [ParseMember(m[at..], depth).value]), m[at1..]), RObject(vs + [x]));
    var t := ParseMember(m[at..], depth).value;
    var more, us := ts + [t], vs + [x];
    StillThere(m, from, n1, at1, at2, Object(more), RObject(us));
    StillThere(m, from, n1, at1, at1, Object(more), RObject(us));
    Moved(m, from, n1, at1, at2, Object(more), RObject(us));
    MembersStep(m, at, at1, at2, depth);
    if n1[at2] == '}' {
      Moved(m, from, n1, at2, at2 + 1, Object(more), RObject(us));
    } else if n1[at2] == ',' {
      assert n1[at2 + 1..] == n1[at2..][1..] && m[at2 + 1..] == m[at2..][1..];
      PrependTwice(ts, t, ParseMembers(SkipWs(m[at2 + 1..]), depth));
    } else {
      FailDecoded(m, from, n1, at2, ObjectTree(ParseMembers(m[from..], depth)));
    }
  }

  /** A member is its key and the value behind the colon. */
  function MemberOf(key: string, p: Parsed<Tree>): Parsed<Member> {
    match p case Fail => Fail case Done(x, rest) => Done(Member(key, x), rest)
  }

  /** What reading a key leaves behind. */
  lemma KeyRead(m: string, from: nat, n1: string, at1: nat, depth: nat, t: RValue)
    requires from <= |m| && Decoded(m, from, n1, at1, StringTree(ParseString(m[from..])), t)
    requires t.RString? || t.Bad?
    ensures
      var q := ParseString(m[from..]);
      && (t.Bad? ==> ParseMember(m[from..], depth) == Fail)
      && (!t.Bad? ==>
            && q.Done? && q.rest == m[at1..] && StringTree(q) == Done(String(q.value), m[at1..])
            && from < t.start <= t.end < at1 && StringShows(n1, t.start, t.end, q.value))
  {
    hide ParseString, ParseMember, Shows;
    if t.Bad? {
      BadShowsNothing(m, from, n1, at1, StringTree(ParseString(m[from..])));
      MemberFails(m, from, depth);
    } else {
      assert StringTree(ParseString(m[from..])).Done?;
      StringShown(n1, t, ParseString(m[from..]).value, from, at1);
    }
  }

  lemma ColonRead(m: string, from: nat, n1: string, at1: nat, colon: nat, depth: nat, t: RValue)
    requires at1 <= colon < |m| && from <= |m| && t.RString?
    requires ParseString(m[from..]).Done? && ParseString(m[from..]).rest == m[at1..]
    requires Decoded(m, from, n1, at1, Done(String(ParseString(m[from..]).value), m[at1..]), t)
    requires |n1| == |m| && n1[colon..] == SkipWs(n1[at1..])
    ensures n1[colon] != ':' ==> ParseMember(m[from..], depth) == Fail
    ensures n1[colon] == ':' ==>
      ParseMember(m[from..], depth) == MemberOf(ParseString(m[from..]).value, ParseValue(SkipWs(m[colon + 1..]), depth + 1))
  {
    hide ParseString, ParseMember, Shows, SkipWs, ParseValue;
    StillThere(m, from, n1, at1, colon, String(ParseString(m[from..]).value), t);
    StillThere(m, from, n1, at1, at1, String(ParseString(m[from..]).value), t);
    MemberStep(m, from, at1, colon, depth);
  }

  /** Behind an unescaped key the text is as it was. */
  lemma KeyBehind(m: string, from: nat, n1: string, at1: nat, key: string, start: nat, end: nat, n2: string, last: nat, colon: nat, at2: nat)
    requires at1 <= |m| && Decoded(m, from, n1, at1, Done(String(key), m[at1..]), RString(start, end))
    requires start > 0 && Agree(n1, n2, 0, start - 1) && Agree(n1, n2, end + 1, |m|) && Terminated(n2)
    requires start <= last <= end < |n2| && n2[start..last] == key && at1 <= colon < at2 < |m| == |n2|
    requires n2[at2..] == SkipWs(n2[colon + 1..])
    ensures KeyKept(m, from, n2, at2, key, start, last) && SkipWs(m[colon + 1..]) == m[at2..]
  {
    hide Decoded, SkipWs, Agree;
    KeyUnescaped(m, from, n1, at1, key, start, end, n2, last, at2);
    KeyUnescaped(m, from, n1, at1, key, start, end, n2, last, colon);
    assert n2[colon + 1..] == n2[colon..][1..] && m[colon + 1..] == m[colon..][1..];
  }

  lemma ValueRead(m: string, from: nat, n: string, at: nat, key: string, start: nat, last: nat, n1: string, at1: nat, depth: nat, v: RValue, x: RMember)
    requires KeyKept(m, from, n, at, key, start, last)
    requires from <= |m| && ParseMember(m[from..], depth) == MemberOf(key, ParseValue(m[at..], depth + 1))
    requires Decoded(n, at, n1, at1, ParseValue(n[at..], depth + 1), v)
    ensures n[at..] == m[at..]
    ensures
      var p := ParseMember(m[from..], depth);
      && (v.Bad? ==> MemberDecoded(m, from, n1, at1, p, false, x))
      && (!v.Bad? ==> MemberDecoded(m, from, n1, at1, p, true, RMember(start, last, v)))
  {
    hide ParseValue, ParseMember, Decoded, MemberDecoded;
    var p := ParseValue(n[at..], depth + 1);
    Standing(n, at, n1, at1, p, v);
    if v.Bad? {
      BadShowsNothing(n, at, n1, at1, p);
      NoMember(m, from, n1, at1, ParseMember(m[from..], depth), x);
    } else {
      Reading(n, at, n1, at1, p, v);
      KeyAndValue(m, from, n, at, key, start, last, n1, at1, p.value, v);
      assert n[at1..] == n[at..][at1 - at..] && m[at1..] == m[at..][at1 - at..];
    }
  }

  lemma Reading(m: string, from: nat, n: string, at: nat, p: Parsed<Tree>, v: RValue)
    requires Decoded(m, from, n, at, p, v) && !v.Bad?
    ensures p.Done? && p == Done(p.value, m[at..])
  {
  }

  lemma NoMember(m: string, from: nat, n: string, at: nat, p: Parsed<Member>, x: RMember)
    requires |n| == |m| && Terminated(n) && from <= at < |n| && p == Fail
    ensures MemberDecoded(m, from, n, at, p, false, x)
  {
  }

  lemma MembersFail(m: string, at: nat, depth: nat)
    requires at <= |m| && ParseMember(m[at..], depth).Fail?
    ensures ParseMembers(m[at..], depth) == Fail
  {
    hide ParseMember;
  }

  /** One turn of the loop over an object's members. */
  lemma MembersStep(m: string, at: nat, at1: nat, at2: nat, depth: nat)
    requires at <= |m| && at1 <= |m| && at2 < |m|
    requires ParseMember(m[at..], depth).Done? && ParseMember(m[at..], depth).rest == m[at1..]
    requires SkipWs(m[at1..]) == m[at2..]
    ensures
      var x, p := ParseMember(m[at..], depth).value, ParseMembers(m[at..], depth);
      && (m[at2] == '}' ==> p == Done([x], m[at2 + 1..]))
      && (m[at2] == ',' ==> p == Prepend([x], ParseMembers(SkipWs(m[at2 + 1..]), depth)))
      && (m[at2] != '}' && m[at2] != ',' ==> p == Fail)
  {
    hide ParseMember, SkipWs;
    assert m[at2..][0] == m[at2] && m[at2..][1..] == m[at2 + 1..];
  }

  lemma MemberFails(m: string, from: nat, depth: nat)
    requires from <= |m| && ParseString(m[from..]).Fail?
    ensures ParseMember(m[from..], depth) == Fail
  {
    hide ParseString, ParseValue;
  }

  lemma MemberStep(m: string, from: nat, at: nat, colon: nat, depth: nat)
    requires from <= |m| && at <= |m| && colon < |m|
    requires ParseString(m[from..]).Done? && ParseString(m[from..]).rest == m[at..]
    requires SkipWs(m[at..]) == m[colon..]
    ensures
      var p := ParseMember(m[from..], depth);
      && (m[colon] != ':' ==> p == Fail)
      && (m[colon] == ':' ==>
            match ParseValue(SkipWs(m[colon + 1..]), depth + 1)
            case Fail => p == Fail
            case Done(x, rest) => p == Done(Member(ParseString(m[from..]).value, x), rest))
  {
    hide ParseString, ParseValue, SkipWs;
    assert m[colon..][0] == m[colon] && m[colon..][1..] == m[colon + 1..];
  }

  lemma StringShown(n: string, v: RValue, s: string, lo: nat, hi: nat)
    requires v.RString? && Shows(n, v, String(s), lo, hi)
    ensures lo < v.start <= v.end < hi <= |n| && StringShows(n, v.start, v.end, s)
  {
  }

  lemma SkipStep(m: string, at: nat)
    requires at < |m|
    ensures SkipWs(m[at..]) == if IsWs(m[at]) then SkipWs(m[at + 1..]) else m[at..]
  {
    assert m[at..][0] == m[at] && m[at..][1..] == m[at + 1..];
  }

  lemma NumberStep(m: string, at: nat, st: NumberState)
    requires at < |m|
    ensures st == Invalid ==> ScanNumber(m[at..], st) == -1
    ensures st != Invalid && !IsNumberChar(m[at]) ==> ScanNumber(m[at..], st) == if Accepts(st) then 0 else -1
    ensures st != Invalid && IsNumberChar(m[at]) ==>
      ScanNumber(m[at..], st) == Behind(1, ScanNumber(m[at + 1..], Shift(st, m[at])))
    ensures Decimal.IsDigit(m[at]) ==> IsNumberChar(m[at])
    ensures Decimal.IsDigit(m[at]) && TakesDigits(st) ==> st != Invalid && Shift(st, m[at]) == st
    ensures IsNumberChar(m[at]) ==> m[at] != NUL
  {
    assert m[at..][0] == m[at] && m[at..][1..] == m[at + 1..];
  }

  /** The states a further digit leaves as they are. */
  predicate TakesDigits(st: NumberState) {
    st == Digits || st == DigitsAfterPoints || st == DigitsAfterE
  }

  /** After a digit from 1 to 9 a further digit does not change the state. */
  lemma DigitsStay(st: NumberState, c: char)
    requires st != Invalid && IsNumberChar(c)
    ensures '1' <= c <= '9' ==> Shift(st, c) == Invalid || TakesDigits(Shift(st, c))
  {
  }

  lemma NumberDecoded(m: string, from: nat, at: nat)
    requires Terminated(m) && from <= at < |m| && ScanNumber(m[from..], Minus) == at - from
    ensures Decoded(m, from, m, at, ParseNumber(m[from..]), RNumber(from, at))
  {
    hide ScanNumber;
    assert m[from..][..at - from] == m[from..at] && m[from..][at - from..] == m[at..];
  }

  lemma NumberFailed(m: string, from: nat, at: nat)
    requires Terminated(m) && from <= at < |m| && ScanNumber(m[from..], Minus) == -1
    ensures Decoded(m, from, m, at, ParseNumber(m[from..]), Bad)
  {
    hide ScanNumber;
  }

  lemma StringFailed(m: string, from: nat, at: nat)
    requires Terminated(m) && from <= at < |m|
    requires m[from] != '"' || (from + 1 <= |m| && ScanString(m[from + 1..]) == -1)
    ensures Decoded(m, from, m, at, StringTree(ParseString(m[from..])), Bad)
  {
    hide ScanString;
    assert m[from..][0] == m[from] && m[from..][1..] == m[from + 1..];
  }

  /** The quotes give way to the mark in front and the terminator behind. */
  lemma StringDecoded(m: string, from: nat, n: string, at: nat, escaping: bool)
    requires from + 2 <= at < |m| && m[from] == '"' && Terminated(m)
    requires ScanString(m[from + 1..]) == at - 1 - (from + 1)
    requires escaping <==> '\\' in m[from + 1..at - 1]
    requires n == m[at - 1 := NUL][from := if escaping then 1 as char else NUL]
    ensures Decoded(m, from, n, at, StringTree(ParseString(m[from..])), RString(from + 1, at - 1))
  {
    hide ScanString, Unescaped, WellFormed, Used, ParseString;
    var raw := m[from + 1..at - 1];
    StringParsed(m, from, at);
    if !escaping {
      NothingToUnescape(raw);
    }
    assert n[from + 1..at - 1] == raw;
    assert n[at..] == m[at..];
  }

  lemma StringParsed(m: string, from: nat, at: nat)
    requires from + 2 <= at < |m| && m[from] == '"' && ScanString(m[from + 1..]) == at - 1 - (from + 1)
    ensures
      var raw := m[from + 1..at - 1];
      WellFormed(raw) && ParseString(m[from..]) == Done(Unescaped(raw), m[at..])
  {
    hide ScanString, Unescaped, WellFormed;
    var t := m[from..];
    assert t[1..] == m[from + 1..] && t[1..][..at - 1 - (from + 1)] == m[from + 1..at - 1] && t[at - from..] == m[at..];
    ScannedIsWellFormed(t[1..]);
  }

  lemma ScanFails(t: string)
    requires t != [] && (t[0] == NUL || (t[0] != '"' && Used(t) == 0))
    ensures ScanString(t) == -1
  {
  }

  lemma ScanOver(m: string, start: nat, at: nat, used: nat)
    requires start <= at < |m| && m[at] != '"' && m[at] != NUL && used == Used(m[at..]) > 0
    ensures ScanString(m[at..]) == Behind(used, ScanString(m[at + used..]))
    ensures '\\' in m[start..at + used] <==> '\\' in m[start..at] || m[at] == '\\'
  {
    hide ScanString, Used;
    ScanStep(m[at..]);
    EscapesIn(m[at..], used);
    assert m[at..][used..] == m[at + used..];
    assert m[at..][..used] == m[at..at + used];
    assert m[start..at + used] == m[start..at] + m[at..at + used];
  }

  /** A backslash only stands at the front of an escape, or right behind it. */
  lemma EscapesIn(t: string, used: nat)
    requires t != [] && used == Used(t) > 0
    ensures '\\' in t[..used] <==> t[0] == '\\'
  {
    assert t[..used][0] == t[0];
  }
}
