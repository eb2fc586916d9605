/** Reading a loaded JSON value. Strings are unescaped where they stand when they
    are first read; the rest of the value keeps showing the same tree. */
module JsonReader {
  import opened Memory
  import opened JsonText
  import opened JsonGrammar
  import opened JsonMemory
  import opened JsonRoundTrip
  import JsonUnescape
  import JsonParser

  // ----- Places in a value -----

  /** The value below `path`, a list of positions in lists and objects; `Bad` if there is none. */
  function At(v: RValue, path: seq<nat>): RValue
    decreases |path|
  {
    if path == [] then v
    else if v.RList? && path[0] < |v.items| then At(v.items[path[0]], path[1..])
    else if v.RObject? && path[0] < |v.members| then At(v.members[path[0]].value, path[1..])
    else Bad
  }

  /** The string below `path` in a tree. */
  function StringAt(t: Tree, path: seq<nat>): string
    decreases |path|
  {
    if path == [] then if t.String? then t.s else ""
    else if t.List? && path[0] < |t.items| then StringAt(t.items[path[0]], path[1..])
    else if t.Object? && path[0] < |t.members| then StringAt(t.members[path[0]].value, path[1..])
    else ""
  }

  /** The value with the end of the string below `path` moved, as `unescape` moves it. */
  function Ended(v: RValue, path: seq<nat>, last: nat): RValue
    decreases |path|, 0
  {
    if path == [] then if v.RString? then v.(end := last) else v
    else if v.RList? && path[0] < |v.items| then
      v.(items := v.items[path[0] := Ended(v.items[path[0]], path[1..], last)])
    else if v.RObject? && path[0] < |v.members| then
      v.(members := v.members[path[0] := EndedIn(v.members[path[0]], path[1..], last)])
    else v
  }

  function EndedIn(v: RMember, path: seq<nat>, last: nat): RMember
    decreases |path|, 1
  {
    v.(value := Ended(v.value, path, last))
  }

  /** Every string is still found where it was. */
  lemma {:induction false} SamePlaces(v: RValue, path: seq<nat>, last: nat, q: seq<nat>)
    ensures At(Ended(v, path, last), q).RString? <==> At(v, q).RString?
    decreases |path|
  {
    if path != [] && q != [] && path[0] == q[0] {
      if v.RList? && path[0] < |v.items| {
        SamePlaces(v.items[path[0]], path[1..], last, q[1..]);
      } else if v.RObject? && path[0] < |v.members| {
        SamePlaces(v.members[path[0]].value, path[1..], last, q[1..]);
      }
    }
  }

  // ----- Finding one string of a value -----

  /** The string `v` shows `s`, inside the given stretch. */
  ghost predicate Found(m: string, v: RValue, s: string, lo: nat, hi: nat) {
    v.RString? && lo < v.start && v.end < hi <= |m| && StringShows(m, v.start, v.end, s)
  }

  lemma {:induction false} StringFound(m: string, v: RValue, t: Tree, lo: nat, hi: nat, path: seq<nat>)
    requires Shows(m, v, t, lo, hi) && hi <= |m| && At(v, path).RString?
    ensures Found(m, At(v, path), StringAt(t, path), lo, hi)
    decreases |path|, 0
  {
    hide StringShows;
    if path != [] {
      if v.RList? {
        ItemFound(m, v.items, t.items, lo, hi, path[0], path[1..]);
      } else {
        MemberFound(m, v.members, t.members, lo, hi, path[0], path[1..]);
      }
    }
  }

  lemma {:induction false} ItemFound(m: string, vs: seq<RValue>, ts: seq<Tree>, lo: nat, hi: nat, i: nat, path: seq<nat>)
    requires ItemsShow(m, vs, ts, lo, hi) && hi <= |m| && i < |vs| && At(vs[i], path).RString?
    ensures |ts| == |vs| && Found(m, At(vs[i], path), StringAt(ts[i], path), lo, hi)
    decreases |path| + 1, 0, |vs|
  {
    hide Shows, ItemsShow, StringShows, At, StringAt;
    var mid := ItemsSplit(m, vs, ts, lo, hi);
    var k := |vs| - 1;
    if i == k {
      StringFound(m, vs[k], ts[k], mid, hi, path);
    } else {
      ItemFound(m, vs[..k], ts[..k], lo, mid, i, path);
    }
  }

  lemma {:induction false} MemberFound(m: string, vs: seq<RMember>, ts: seq<Member>, lo: nat, hi: nat, i: nat, path: seq<nat>)
    requires MembersShow(m, vs, ts, lo, hi) && hi <= |m| && i < |vs| && At(vs[i].value, path).RString?
    ensures |ts| == |vs| && Found(m, At(vs[i].value, path), StringAt(ts[i].value, path), lo, hi)
    decreases |path| + 1, 0, |vs|
  {
    hide Shows, MembersShow, MemberShows, StringShows, At, StringAt;
    var mid := MembersSplit(m, vs, ts, lo, hi);
    var k := |vs| - 1;
    if i == k {
      ValueFound(m, vs[k], ts[k], mid, hi, path);
    } else {
      MemberFound(m, vs[..k], ts[..k], lo, mid, i, path);
    }
  }

  lemma {:induction false} ValueFound(m: string, v: RMember, t: Member, lo: nat, hi: nat, path: seq<nat>)
    requires MemberShows(m, v, t, lo, hi) && hi <= |m| && At(v.value, path).RString?
    ensures Found(m, At(v.value, path), StringAt(t.value, path), v.end, hi) && lo <= v.end
    decreases |path|, 1
  {
    StringFound(m, v.value, t.value, v.end, hi, path);
  }

  // ----- Unescaping one string of a value -----

  /** The string at `start` to `end` in `m` was unescaped up to `last` in `n`. */
  ghost predicate Rewritten(m: string, n: string, start: nat, end: nat, last: nat) {
    && |n| == |m| && 0 < start <= last <= end < |m|
    && Agree(m, n, 0, start - 1) && Agree(m, n, end + 1, |m|)
    && forall s :: StringShows(m, start, end, s) ==> StringShows(n, start, last, s)
  }

  lemma Unchanged(m: string, n: string, start: nat, end: nat, last: nat, lo: nat, hi: nat)
    requires Rewritten(m, n, start, end, last) && (hi <= start - 1 || end < lo) && hi <= |m|
    ensures Agree(m, n, lo, hi)
  {
    hide StringShows;
  }

  /** Unescaping any one string of a value leaves the tree it shows as it was. */
  lemma {:induction false} RewriteKeeps(m: string, n: string, v: RValue, t: Tree, lo: nat, hi: nat, path: seq<nat>, last: nat)
    requires Shows(m, v, t, lo, hi) && hi <= |m| && At(v, path).RString?
    requires Rewritten(m, n, At(v, path).start, At(v, path).end, last)
    ensures Shows(n, Ended(v, path, last), t, lo, hi)
    decreases |path|, 0
  {
    hide Rewritten, StringShows;
    if path == [] {
      RewriteHere(m, n, v, t, lo, hi, last);
    } else if v.RList? {
      RewriteItem(m, n, v.items, t.items, lo, hi, path[0], path[1..], last);
    } else {
      RewriteMember(m, n, v.members, t.members, lo, hi, path[0], path[1..], last);
    }
  }

  lemma RewriteHere(m: string, n: string, v: RValue, t: Tree, lo: nat, hi: nat, last: nat)
    requires Shows(m, v, t, lo, hi) && v.RString? && Rewritten(m, n, v.start, v.end, last)
    ensures Shows(n, v.(end := last), t, lo, hi)
  {
    hide StringShows;
  }

  lemma {:induction false} RewriteItem(m: string, n: string, vs: seq<RValue>, ts: seq<Tree>, lo: nat, hi: nat, i: nat, path: seq<nat>, last: nat)
    requires ItemsShow(m, vs, ts, lo, hi) && hi <= |m| && i < |vs| && At(vs[i], path).RString?
    requires Rewritten(m, n, At(vs[i], path).start, At(vs[i], path).end, last)
    ensures |ts| == |vs| && ItemsShow(n, vs[i := Ended(vs[i], path, last)], ts, lo, hi)
    decreases |path| + 1, 0, |vs|
  {
    hide Shows, Rewritten, ItemsShow, StringShows, At, Ended, StringAt;
    var mid := ItemsSplit(m, vs, ts, lo, hi);
    var k := |vs| - 1;
    var front, tfront, after := vs[..k], ts[..k], vs[i := Ended(vs[i], path, last)];
    var start, end := At(vs[i], path).start, At(vs[i], path).end;
    if i == k {
      StringFound(m, vs[k], ts[k], mid, hi, path);
      RewriteKeeps(m, n, vs[k], ts[k], mid, hi, path, last);
      Unchanged(m, n, start, end, last, lo, mid);
      ItemsStay(m, n, front, tfront, lo, mid, lo, mid);
      assert after[..k] == front;
    } else {
      ItemFound(m, front, tfront, lo, mid, i, path);
      RewriteItem(m, n, front, tfront, lo, mid, i, path, last);
      Unchanged(m, n, start, end, last, mid, hi);
      ShowsStays(m, n, vs[k], ts[k], mid, hi, mid, hi);
      assert after[..k] == front[i := Ended(vs[i], path, last)];
    }
    ItemsJoin(n, after, ts, lo, mid, hi);
  }

  lemma {:induction false} RewriteMember(m: string, n: string, vs: seq<RMember>, ts: seq<Member>, lo: nat, hi: nat, i: nat, path: seq<nat>, last: nat)
    requires MembersShow(m, vs, ts, lo, hi) && hi <= |m| && i < |vs| && At(vs[i].value, path).RString?
    requires Rewritten(m, n, At(vs[i].value, path).start, At(vs[i].value, path).end, last)
    ensures |ts| == |vs| && MembersShow(n, vs[i := EndedIn(vs[i], path, last)], ts, lo, hi)
    decreases |path| + 1, 0, |vs|
  {
    hide Shows, Rewritten, MembersShow, MemberShows, StringShows, At, Ended, StringAt, EndedIn;
    var mid := MembersSplit(m, vs, ts, lo, hi);
    var k := |vs| - 1;
    var front, tfront, after := vs[..k], ts[..k], vs[i := EndedIn(vs[i], path, last)];
    var start, end := At(vs[i].value, path).start, At(vs[i].value, path).end;
    if i == k {
      ValueFound(m, vs[k], ts[k], mid, hi, path);
      RewriteValue(m, n, vs[k], ts[k], mid, hi, path, last);
      Unchanged(m, n, start, end, last, lo, mid);
      MembersStay(m, n, front, tfront, lo, mid, lo, mid);
      assert after[..k] == front;
    } else {
      MemberFound(m, front, tfront, lo, mid, i, path);
      RewriteMember(m, n, front, tfront, lo, mid, i, path, last);
      Unchanged(m, n, start, end, last, mid, hi);
      MemberStays(m, n, vs[k], ts[k], mid, hi, mid, hi);
      assert after[..k] == front[i := EndedIn(vs[i], path, last)];
    }
    MembersJoin(n, after, ts, lo, mid, hi);
  }

  /** The key in front of the value keeps its text. */
  lemma {:induction false} RewriteValue(m: string, n: string, v: RMember, t: Member, lo: nat, hi: nat, path: seq<nat>, last: nat)
    requires MemberShows(m, v, t, lo, hi) && hi <= |m| && At(v.value, path).RString?
    requires Rewritten(m, n, At(v.value, path).start, At(v.value, path).end, last)
    ensures MemberShows(n, EndedIn(v, path, last), t, lo, hi)
    decreases |path|, 1
  {
    hide Shows, Rewritten, StringShows, At, Ended, StringAt;
    StringFound(m, v.value, t.value, v.end, hi, path);
    RewriteKeeps(m, n, v.value, t.value, v.end, hi, path, last);
    Unchanged(m, n, At(v.value, path).start, At(v.value, path).end, last, 0, v.end);
    AgreeStretch(m, n, 0, v.end, v.start, v.end);
  }

  /** What `Unescape` did to the buffer. */
  lemma UnescapedIsRewritten(m: string, n: string, start: nat, end: nat, last: nat, s: string)
    requires StringShows(m, start, end, s) && |n| == |m|
    requires start <= last <= end < |m| && n[start - 1] == NUL && n[start..last] == s
    requires Agree(m, n, 0, start - 1) && Agree(m, n, end + 1, |m|)
    ensures Rewritten(m, n, start, end, last)
  {
  }

  /** `s()` on the string below `path`: its text comes back, and the value goes on
      showing the same tree. */
  method ReadString(buf: array<char>, v: RValue, path: seq<nat>, ghost t: Tree, ghost lo: nat, ghost hi: nat)
    returns (s: string, after: RValue)
    requires Shows(buf[..], v, t, lo, hi) && hi <= buf.Length && At(v, path).RString?
    modifies buf
    ensures s == StringAt(t, path)
    ensures exists last :: after == Ended(v, path, last)
    ensures Shows(buf[..], after, t, lo, hi)
    ensures Agree(old(buf[..]), buf[..], 0, lo) && Agree(old(buf[..]), buf[..], hi, buf.Length)
  {
    hide Shows, StringShows, Rewritten, At, Ended, StringAt;
    var x := At(v, path);
    ghost var m := buf[..];
    StringFound(m, v, t, lo, hi, path);
    var last := JsonUnescape.Unescape(buf, x.start, x.end, StringAt(t, path));
    UnescapedIsRewritten(m, buf[..], x.start, x.end, last, StringAt(t, path));
    RewriteKeeps(m, buf[..], v, t, lo, hi, path, last);
    Unchanged(m, buf[..], x.start, x.end, last, 0, lo);
    Unchanged(m, buf[..], x.start, x.end, last, hi, buf.Length);
    s := buf[x.start..last];
    after := Ended(v, path, last);
  }

  /** Strings read in any order, and any of them again: each read gives the
      tree's string. */
  method ReadStrings(buf: array<char>, v: RValue, paths: seq<seq<nat>>, ghost t: Tree)
    returns (strings: seq<string>, after: RValue)
    requires Shows(buf[..], v, t, 0, buf.Length)
    requires forall i :: 0 <= i < |paths| ==> At(v, paths[i]).RString?
    modifies buf
    ensures |strings| == |paths| && forall i :: 0 <= i < |paths| ==> strings[i] == StringAt(t, paths[i])
    ensures Shows(buf[..], after, t, 0, buf.Length)
  {
    hide Shows, At, Ended, StringAt;
    strings, after := [], v;
    for k := 0 to |paths|
      invariant |strings| == k && forall i :: 0 <= i < k ==> strings[i] == StringAt(t, paths[i])
      invariant Shows(buf[..], after, t, 0, buf.Length)
      invariant forall i :: 0 <= i < |paths| ==> At(after, paths[i]).RString?
    {
      ghost var before := after;
      var s;
      s, after := ReadString(buf, after, paths[k], t, 0, buf.Length);
      ghost var last :| after == Ended(before, paths[k], last);
      forall i | 0 <= i < |paths| ensures At(after, paths[i]).RString? {
        SamePlaces(before, paths[k], last, paths[i]);
      }
      strings := strings + [s];
    }
  }

  // ----- Reading everything -----

  /** Reading a whole value, string after string, gives back the tree it shows,
      and it can be read again. */
  method ReadTree(buf: array<char>, v: RValue, ghost t: Tree, ghost lo: nat, ghost hi: nat)
    returns (tree: Tree, after: RValue)
    requires Shows(buf[..], v, t, lo, hi) && lo <= hi <= buf.Length
    modifies buf
    ensures tree == t && Shows(buf[..], after, t, lo, hi)
    ensures Agree(old(buf[..]), buf[..], 0, lo) && Agree(old(buf[..]), buf[..], hi, buf.Length)
    decreases v, 1
  {
    hide StringShows, ItemsShow, MembersShow;
    match v {
      case RNull => return Null, v;
      case RBool(b) => return Bool(b), v;
      case RNumber(start, end) => return Number(buf[start..end]), v;
      case RString(start, end) =>
        var s, x := ReadString(buf, v, [], t, lo, hi);
        return String(s), x;
      case RList(items) =>
        var ts, vs := ReadItems(buf, items, t.items, lo, hi);
        return List(ts), RList(vs);
      case RObject(members) =>
        var ts, vs := ReadMembers(buf, members, t.members, lo, hi);
        return Object(ts), RObject(vs);
    }
  }

  method ReadItems(buf: array<char>, items: seq<RValue>, ghost ts: seq<Tree>, ghost lo: nat, ghost hi: nat)
    returns (trees: seq<Tree>, after: seq<RValue>)
    requires ItemsShow(buf[..], items, ts, lo, hi) && lo <= hi <= buf.Length
    modifies buf
    ensures trees == ts && ItemsShow(buf[..], after, ts, lo, hi)
    ensures Agree(old(buf[..]), buf[..], 0, lo) && Agree(old(buf[..]), buf[..], hi, buf.Length)
    decreases items, 0
  {
    if items == [] {
      return [], [];
    }
    hide Shows, ItemsShow;
    var k := |items| - 1;
    ghost var m := buf[..];
    ghost var mid := ItemsSplit(m, items, ts, lo, hi);
    var front, vs := ReadItems(buf, items[..k], ts[..k], lo, mid);
    ghost var n := buf[..];
    assert Agree(m, n, mid, hi);
    ShowsStays(m, n, items[k], ts[k], mid, hi, mid, hi);
    var tree, v := ReadTree(buf, items[k], ts[k], mid, hi);
    ItemsStay(n, buf[..], vs, ts[..k], lo, mid, lo, mid);
    trees, after := front + [tree], vs + [v];
    ItemsLong(n, vs, ts[..k], lo, mid);
    assert after[..k] == vs && trees == ts;
    ItemsJoin(buf[..], after, ts, lo, mid, hi);
  }

  method ReadMembers(buf: array<char>, members: seq<RMember>, ghost ts: seq<Member>, ghost lo: nat, ghost hi: nat)
    returns (trees: seq<Member>, after: seq<RMember>)
    requires MembersShow(buf[..], members, ts, lo, hi) && lo <= hi <= buf.Length
    modifies buf
    ensures trees == ts && MembersShow(buf[..], after, ts, lo, hi)
    ensures Agree(old(buf[..]), buf[..], 0, lo) && Agree(old(buf[..]), buf[..], hi, buf.Length)
    decreases members, 0
  {
    if members == [] {
      return [], [];
    }
    hide Shows, MembersShow, MemberShows;
    var k := |members| - 1;
    ghost var m := buf[..];
    ghost var mid := MembersSplit(m, members, ts, lo, hi);
    var front, vs := ReadMembers(buf, members[..k], ts[..k], lo, mid);
    ghost var n := buf[..];
    assert Agree(m, n, mid, hi);
    MemberStays(m, n, members[k], ts[k], mid, hi, mid, hi);
    var tree, v := ReadMember(buf, members[k], ts[k], mid, hi);
    MembersStay(n, buf[..], vs, ts[..k], lo, mid, lo, mid);
    trees, after := front + [tree], vs + [v];
    MembersLong(n, vs, ts[..k], lo, mid);
    assert after[..k] == vs && trees == ts;
    MembersJoin(buf[..], after, ts, lo, mid, hi);
  }

  /** The key is read as it stands, the value behind it is read in turn. */
  method ReadMember(buf: array<char>, v: RMember, ghost t: Member, ghost lo: nat, ghost hi: nat)
    returns (tree: Member, after: RMember)
    requires MemberShows(buf[..], v, t, lo, hi) && hi <= buf.Length
    modifies buf
    ensures tree == t && MemberShows(buf[..], after, t, lo, hi)
    ensures Agree(old(buf[..]), buf[..], 0, lo) && Agree(old(buf[..]), buf[..], hi, buf.Length)
    decreases v, 2
  {
    hide Shows;
    var key := buf[v.start..v.end];
    ghost var m := buf[..];
    assert key == m[v.start..v.end];
    var x, y := ReadTree(buf, v.value, t.value, v.end, hi);
    AgreeStretch(m, buf[..], 0, v.end, v.start, v.end);
    tree, after := Member(key, x), v.(value := y);
  }

  /** Printing a tree, loading the text and reading all of it gives the tree
      back, up to the depth limit and not beyond it. */
  method DumpAndRead(t: Tree) returns (ok: bool, tree: Tree)
    requires Dumpable(t)
    ensures ok <==> Height(t) <= 5000
    ensures ok ==> tree == t
  {
    hide Shows, Dumpable;
    var buf, v := JsonParser.DumpAndLoad(t);
    ok, tree := !v.Bad?, Null;
    if ok {
      var after;
      tree, after := ReadTree(buf, v, t, 0, buf.Length);
    } else {
      BadShowsNothing(buf[..], t, 0, buf.Length);
    }
  }

  lemma BadShowsNothing(m: string, t: Tree, lo: nat, hi: nat)
    ensures !Shows(m, Bad, t, lo, hi)
  {
  }
}
