/** Parsed JSON values that point into the parser's buffer, and the trees they show. */
module JsonMemory {
  import opened Memory
  import opened JsonText
  import opened JsonGrammar

  /** A parsed value: its strings and numbers are stretches of the buffer, and
      a member's key is one that is already unescaped. */
  datatype RValue = Bad | RNull | RBool(b: bool) | RNumber(start: nat, end: nat) | RString(start: nat, end: nat)
    | RList(items: seq<RValue>) | RObject(members: seq<RMember>)

  datatype RMember = RMember(start: nat, end: nat, value: RValue)

  /** The byte in front of a string says whether it still holds escapes. */
  ghost predicate StringShows(m: string, start: nat, end: nat, s: string) {
    && 0 < start <= end < |m|
    && if m[start - 1] == NUL then m[start..end] == s
       else WellFormed(m[start..end]) && Unescaped(m[start..end]) == s
  }

  /** The value stands for the tree, and lies in the buffer from `lo` to `hi`. */
  ghost predicate Shows(m: string, v: RValue, t: Tree, lo: nat, hi: nat)
    decreases v, 1
  {
    match v
    case Bad => false
    case RNull => t.Null?
    case RBool(b) => t == Bool(b)
    case RNumber(start, end) => lo <= start <= end <= hi <= |m| && t == Number(m[start..end])
    case RString(start, end) => lo < start && end < hi <= |m| && t.String? && StringShows(m, start, end, t.s)
    case RList(items) => t.List? && ItemsShow(m, items, t.items, lo, hi)
    case RObject(members) => t.Object? && MembersShow(m, members, t.members, lo, hi)
  }

  predicate Between(lo: nat, mid: nat, hi: nat) {
    lo <= mid <= hi
  }

  /** Items lie one behind the other, each in a stretch of its own. */
  ghost predicate ItemsShow(m: string, vs: seq<RValue>, ts: seq<Tree>, lo: nat, hi: nat)
    decreases vs, 0
  {
    && |vs| == |ts|
    && (vs != [] ==>
          exists mid :: Between(lo, mid, hi)
            && ItemsShow(m, vs[..|vs| - 1], ts[..|ts| - 1], lo, mid) && Shows(m, vs[|vs| - 1], ts[|ts| - 1], mid, hi))
  }

  ghost predicate MembersShow(m: string, vs: seq<RMember>, ts: seq<Member>, lo: nat, hi: nat)
    decreases vs, 0
  {
    && |vs| == |ts|
    && (vs != [] ==>
          exists mid :: Between(lo, mid, hi)
            && MembersShow(m, vs[..|vs| - 1], ts[..|ts| - 1], lo, mid) && MemberShows(m, vs[|vs| - 1], ts[|ts| - 1], mid, hi))
  }

  /** A key, and its value behind it. */
  ghost predicate MemberShows(m: string, v: RMember, t: Member, lo: nat, hi: nat)
    decreases v, 2
  {
    && lo <= v.start <= v.end <= hi <= |m| && m[v.start..v.end] == t.key
    && Shows(m, v.value, t.value, v.end, hi)
  }

  /** Two memories agree between `lo` and `hi`. */
  ghost predicate Agree(m: string, n: string, lo: nat, hi: nat) {
    |m| == |n| && forall k :: lo <= k < hi && k < |m| ==> m[k] == n[k]
  }

  lemma AgreeStretch(m: string, n: string, lo: nat, hi: nat, start: nat, end: nat)
    requires Agree(m, n, lo, hi) && lo <= start <= end <= hi && end <= |m|
    ensures m[start..end] == n[start..end]
  {
  }

  /** What a value shows depends on its own stretch of memory only. */
  lemma {:induction false} ShowsStays(m: string, n: string, v: RValue, t: Tree, lo: nat, hi: nat, low: nat, high: nat)
    requires Shows(m, v, t, lo, hi) && Agree(m, n, lo, hi) && low <= lo && hi <= high <= |m|
    ensures Shows(n, v, t, low, high)
    decreases v, 1
  {
    match v {
      case Bad =>
      case RNull =>
      case RBool(b) =>
      case RNumber(start, end) => AgreeStretch(m, n, lo, hi, start, end);
      case RString(start, end) => AgreeStretch(m, n, lo, hi, start, end);
      case RList(items) => ItemsStay(m, n, items, t.items, lo, hi, low, high);
      case RObject(members) => MembersStay(m, n, members, t.members, lo, hi, low, high);
    }
  }

  lemma {:induction false} ItemsStay(m: string, n: string, vs: seq<RValue>, ts: seq<Tree>, lo: nat, hi: nat, low: nat, high: nat)
    requires ItemsShow(m, vs, ts, lo, hi) && Agree(m, n, lo, hi) && low <= lo && hi <= high <= |m|
    ensures ItemsShow(n, vs, ts, low, high)
    decreases vs, 0
  {
    if vs != [] {
      hide Shows;
      var mid := ItemsSplit(m, vs, ts, lo, hi);
      ItemsStay(m, n, vs[..|vs| - 1], ts[..|ts| - 1], lo, mid, low, mid);
      ShowsStays(m, n, vs[|vs| - 1], ts[|ts| - 1], mid, hi, mid, high);
      ItemsJoin(n, vs, ts, low, mid, high);
    }
  }

  lemma {:induction false} MembersStay(m: string, n: string, vs: seq<RMember>, ts: seq<Member>, lo: nat, hi: nat, low: nat, high: nat)
    requires MembersShow(m, vs, ts, lo, hi) && Agree(m, n, lo, hi) && low <= lo && hi <= high <= |m|
    ensures MembersShow(n, vs, ts, low, high)
    decreases vs, 0
  {
    if vs != [] {
      hide Shows, MemberShows;
      var mid := MembersSplit(m, vs, ts, lo, hi);
      MembersStay(m, n, vs[..|vs| - 1], ts[..|ts| - 1], lo, mid, low, mid);
      MemberStays(m, n, vs[|vs| - 1], ts[|ts| - 1], mid, hi, mid, high);
      MembersJoin(n, vs, ts, low, mid, high);
    }
  }

  lemma {:induction false} MemberStays(m: string, n: string, v: RMember, t: Member, lo: nat, hi: nat, low: nat, high: nat)
    requires MemberShows(m, v, t, lo, hi) && Agree(m, n, lo, hi) && low <= lo && hi <= high <= |m|
    ensures MemberShows(n, v, t, low, high)
    decreases v, 2
  {
    hide Shows;
    AgreeStretch(m, n, lo, hi, v.start, v.end);
    ShowsStays(m, n, v.value, t.value, v.end, hi, v.end, high);
  }

  /** The stretch of the last item, and that of the others in front of it. */
  lemma ItemsSplit(m: string, vs: seq<RValue>, ts: seq<Tree>, lo: nat, hi: nat) returns (mid: nat)
    requires ItemsShow(m, vs, ts, lo, hi) && vs != []
    ensures |ts| == |vs| && lo <= mid <= hi
    ensures ItemsShow(m, vs[..|vs| - 1], ts[..|ts| - 1], lo, mid) && Shows(m, vs[|vs| - 1], ts[|ts| - 1], mid, hi)
  {
    hide Shows;
    mid :| Between(lo, mid, hi)
      && ItemsShow(m, vs[..|vs| - 1], ts[..|ts| - 1], lo, mid) && Shows(m, vs[|vs| - 1], ts[|ts| - 1], mid, hi);
  }

  lemma ItemsJoin(m: string, vs: seq<RValue>, ts: seq<Tree>, lo: nat, mid: nat, hi: nat)
    requires vs != [] && |vs| == |ts| && lo <= mid <= hi
    requires ItemsShow(m, vs[..|vs| - 1], ts[..|ts| - 1], lo, mid) && Shows(m, vs[|vs| - 1], ts[|ts| - 1], mid, hi)
    ensures ItemsShow(m, vs, ts, lo, hi)
  {
    hide Shows;
    assert Between(lo, mid, hi);
  }

  lemma MembersSplit(m: string, vs: seq<RMember>, ts: seq<Member>, lo: nat, hi: nat) returns (mid: nat)
    requires MembersShow(m, vs, ts, lo, hi) && vs != []
    ensures |ts| == |vs| && lo <= mid <= hi
    ensures MembersShow(m, vs[..|vs| - 1], ts[..|ts| - 1], lo, mid) && MemberShows(m, vs[|vs| - 1], ts[|ts| - 1], mid, hi)
  {
    hide MemberShows;
    mid :| Between(lo, mid, hi)
      && MembersShow(m, vs[..|vs| - 1], ts[..|ts| - 1], lo, mid) && MemberShows(m, vs[|vs| - 1], ts[|ts| - 1], mid, hi);
  }

  lemma MembersJoin(m: string, vs: seq<RMember>, ts: seq<Member>, lo: nat, mid: nat, hi: nat)
    requires vs != [] && |vs| == |ts| && lo <= mid <= hi
    requires MembersShow(m, vs[..|vs| - 1], ts[..|ts| - 1], lo, mid) && MemberShows(m, vs[|vs| - 1], ts[|ts| - 1], mid, hi)
    ensures MembersShow(m, vs, ts, lo, hi)
  {
    hide MemberShows;
    assert Between(lo, mid, hi);
  }

  /** One more item behind the others. */
  lemma ItemAdded(m: string, n: string, vs: seq<RValue>, ts: seq<Tree>, v: RValue, t: Tree, lo: nat, mid: nat, hi: nat)
    requires Shows(m, RList(vs), List(ts), lo, mid) && Agree(m, n, 0, mid) && lo <= mid <= hi <= |m|
    requires Shows(n, v, t, mid, hi)
    ensures Shows(n, RList(vs + [v]), List(ts + [t]), lo, hi)
  {
    ItemsStay(m, n, vs, ts, lo, mid, lo, mid);
    hide ItemsShow;
    var us, xs := vs + [v], ts + [t];
    assert us[..|us| - 1] == vs && xs[..|xs| - 1] == ts;
    ItemsLong(m, vs, ts, lo, mid);
    ItemsJoin(n, us, xs, lo, mid, hi);
  }

  lemma ItemsLong(m: string, vs: seq<RValue>, ts: seq<Tree>, lo: nat, hi: nat)
    requires ItemsShow(m, vs, ts, lo, hi)
    ensures |vs| == |ts|
  {
  }

  lemma MemberAdded(m: string, n: string, vs: seq<RMember>, ts: seq<Member>, v: RMember, t: Member, lo: nat, mid: nat, hi: nat)
    requires Shows(m, RObject(vs), Object(ts), lo, mid) && Agree(m, n, 0, mid) && lo <= mid <= hi <= |m|
    requires MemberShows(n, v, t, mid, hi)
    ensures Shows(n, RObject(vs + [v]), Object(ts + [t]), lo, hi)
  {
    MembersStay(m, n, vs, ts, lo, mid, lo, mid);
    hide MembersShow;
    var us, xs := vs + [v], ts + [t];
    assert us[..|us| - 1] == vs && xs[..|xs| - 1] == ts;
    MembersLong(m, vs, ts, lo, mid);
    MembersJoin(n, us, xs, lo, mid, hi);
  }

  lemma MembersLong(m: string, vs: seq<RMember>, ts: seq<Member>, lo: nat, hi: nat)
    requires MembersShow(m, vs, ts, lo, hi)
    ensures |vs| == |ts|
  {
  }

  /** What a decoder leaves behind, against the reading `p` of the text that
      started at `from` in `m`: it stands at `at` in `n`, where the text is
      still as it was, and it wrote only between the two. */
  ghost predicate Decoded(m: string, from: nat, n: string, at: nat, p: Parsed<Tree>, v: RValue) {
    && |n| == |m| && Terminated(n) && from <= at < |n|
    && (p.Fail? ==> v.Bad?)
    && (p.Done? ==> Shows(n, v, p.value, from, at) && n[at..] == m[at..] == p.rest && Agree(m, n, 0, from))
  }

  /** Characters skipped behind a value. */
  lemma Moved(m: string, from: nat, n: string, at: nat, next: nat, t: Tree, v: RValue)
    requires at <= |m| && Decoded(m, from, n, at, Done(t, m[at..]), v) && at <= next < |n|
    ensures Decoded(m, from, n, next, Done(t, m[next..]), v)
  {
    hide Shows;
    ShowsStays(n, n, v, t, from, at, from, next);
    assert n[next..] == n[at..][next - at..] && m[next..] == m[at..][next - at..];
  }

  /** Characters skipped in front of a value. */
  lemma Widened(m: string, from: nat, next: nat, n: string, at: nat, p: Parsed<Tree>, v: RValue)
    requires Decoded(m, next, n, at, p, v) && from <= next
    ensures Decoded(m, from, n, at, p, v)
  {
    hide Shows;
    if p.Done? {
      ShowsStays(n, n, v, p.value, next, at, from, at);
    }
  }

  /** A further item of a list, decoded behind the others. */
  lemma ItemDecoded(m: string, from: nat, n: string, at: nat, ts: seq<Tree>, vs: seq<RValue>, n1: string, at1: nat, t: Tree, v: RValue)
    requires at <= |m| && Decoded(m, from, n, at, Done(List(ts), m[at..]), RList(vs))
    requires at1 <= |n| && Decoded(n, at, n1, at1, Done(t, n[at1..]), v)
    ensures Decoded(m, from, n1, at1, Done(List(ts + [t]), m[at1..]), RList(vs + [v]))
  {
    hide Shows;
    ItemAdded(n, n1, vs, ts, v, t, from, at, at1);
    assert n[at1..] == n[at..][at1 - at..] && m[at1..] == m[at..][at1 - at..];
  }

  /** The same of a decoder of an object's members. */
  ghost predicate MemberDecoded(m: string, from: nat, n: string, at: nat, p: Parsed<Member>, ok: bool, v: RMember) {
    && |n| == |m| && Terminated(n) && from <= at < |n|
    && (p.Fail? ==> !ok)
    && (p.Done? ==> ok && MemberShows(n, v, p.value, from, at) && n[at..] == m[at..] == p.rest && Agree(m, n, 0, from))
  }

  lemma MemberAppended(m: string, from: nat, n: string, at: nat, ts: seq<Member>, vs: seq<RMember>, n1: string, at1: nat, t: Member, v: RMember)
    requires at <= |m| && Decoded(m, from, n, at, Done(Object(ts), m[at..]), RObject(vs))
    requires at1 <= |n| && MemberDecoded(n, at, n1, at1, Done(t, n[at1..]), true, v)
    ensures Decoded(m, from, n1, at1, Done(Object(ts + [t]), m[at1..]), RObject(vs + [v]))
  {
    hide Shows;
    MemberAdded(n, n1, vs, ts, v, t, from, at, at1);
    assert n[at1..] == n[at..][at1 - at..] && m[at1..] == m[at..][at1 - at..];
  }

  /** A key stands unescaped behind `from`, and nothing from `at` on has changed. */
  ghost predicate KeyKept(m: string, from: nat, n: string, at: nat, key: string, start: nat, last: nat) {
    && |n| == |m| && Terminated(n) && from < start <= last <= at < |n| && n[start..last] == key
    && n[at..] == m[at..] && Agree(m, n, 0, from)
  }

  /** A key read in `n1` and unescaped in place in `n2`. */
  lemma KeyUnescaped(m: string, from: nat, n1: string, at1: nat, key: string, start: nat, end: nat, n2: string, last: nat, at2: nat)
    requires at1 <= |m| && Decoded(m, from, n1, at1, Done(String(key), m[at1..]), RString(start, end))
    requires start > 0 && Agree(n1, n2, 0, start - 1) && Agree(n1, n2, end + 1, |m|) && Terminated(n2)
    requires start <= last <= end < |n2| && n2[start..last] == key && at1 <= at2 < |m|
    ensures KeyKept(m, from, n2, at2, key, start, last)
  {
    assert from < start && end < at1;
    assert forall k :: at1 <= k < |m| ==> n2[k] == n1[k] == n1[at1..][k - at1] == m[at1..][k - at1] == m[k];
  }

  /** A key and the value decoded behind it. */
  lemma KeyAndValue(m: string, from: nat, n: string, at: nat, key: string, start: nat, last: nat, n1: string, at1: nat, t: Tree, v: RValue)
    requires KeyKept(m, from, n, at, key, start, last)
    requires at1 <= |n| && Decoded(n, at, n1, at1, Done(t, n[at1..]), v)
    ensures MemberDecoded(m, from, n1, at1, Done(Member(key, t), m[at1..]), true, RMember(start, last, v))
  {
    hide Shows;
    ShowsStays(n1, n1, v, t, at, at1, last, at1);
    AgreeStretch(n, n1, 0, at, start, last);
    assert n[at1..] == n[at..][at1 - at..] && m[at1..] == m[at..][at1 - at..];
  }
}
