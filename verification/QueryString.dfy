/** Crow's query-string parser: it splits the URL, decodes every value in place
    and looks keys up by comparing them with the text in memory. */
module QueryString {
  import opened Memory
  import opened QueryText

  /** `qs_decode`: the value at `start` is replaced by what it stands for. The
      write position never passes the read position, so nothing else moves. */
  method QsDecode(qs: array<char>, start: nat) returns (i: nat)
    requires Terminated(qs[..]) && start < qs.Length
    modifies qs
    ensures
      var m := old(qs[..]);
      var v := Unescape(m[start..]);
      i == |v| && start + i < qs.Length && qs[..] == Written(m, start, v + [NUL])
  {
    hide Unescape, IsQsChr, Written, Terminated, Decoding;
    ghost var m := qs[..];
    ghost var done: string := [];
    WriteNone(m, start);
    DecodingStarts(m, start);
    i := 0;
    var j := 0;
    while IsQsChr(qs[start + j])
      invariant i == |done| <= j && start + j < qs.Length == |m|
      invariant Decoding(m, start, done, j)
      invariant qs[..] == Written(m, start, done)
      decreases qs.Length - j
    {
      StillAhead(m, start, done, start + j);
      var c, used := QsNext(qs, start + j);
      if used == 0 {
        DecodingEnds(m, start, done, j);
        Store(qs, start + i, NUL, m, start, done);
        return;
      }
      StillAhead(m, start, done, start + j + used);
      DecodingGoesOn(m, start, done, j, c, used);
      Store(qs, start + i, c, m, start, done);
      done := done + [c];
      i, j := i + 1, j + used;
    }
    StillAhead(m, start, done, start + j);
    UnescapeStep(m[start + j..]);
    DecodingEnds(m, start, done, j);
    Store(qs, start + i, NUL, m, start, done);
  }

  /** The value at `start` is `done` and what the text from `j` on stands for. */
  ghost predicate Decoding(m: string, start: nat, done: string, j: nat) {
    start + j <= |m| && Unescape(m[start..]) == done + Unescape(m[start + j..])
  }

  lemma DecodingStarts(m: string, start: nat)
    requires start <= |m|
    ensures Decoding(m, start, [], 0)
  {
    hide Unescape;
    assert [] + Unescape(m[start..]) == Unescape(m[start..]);
  }

  lemma DecodingGoesOn(m: string, start: nat, done: string, j: nat, c: char, used: nat)
    requires Decoding(m, start, done, j) && start + j + used <= |m|
    requires Unescape(m[start + j..]) == [c] + Unescape(m[start + j + used..])
    ensures Decoding(m, start, done + [c], j + used)
  {
    hide Unescape;
    var rest := Unescape(m[start + j + used..]);
    assert done + ([c] + rest) == done + [c] + rest;
  }

  lemma DecodingEnds(m: string, start: nat, done: string, j: nat)
    requires Decoding(m, start, done, j) && Unescape(m[start + j..]) == []
    ensures start <= |m| && Unescape(m[start..]) == done
  {
    hide Unescape;
    assert done + [] == done;
  }

  /** The text ahead of what was written is the original, terminator included. */
  lemma StillAhead(m: string, start: nat, done: string, k: nat)
    requires Terminated(m) && start + |done| <= k < |m|
    ensures Written(m, start, done)[k..] == m[k..] && Terminated(Written(m, start, done)) && Terminated(m[k..])
    ensures Written(m, start, done)[k] == m[k] == m[k..][0]
  {
    WrittenKeeps(m, start, done);
    assert Written(m, start, done)[k..][0] == m[k..][0];
  }

  /** One character of the text at `p`, and how much of the text it takes up;
      nothing for a malformed escape. */
  method QsNext(qs: array<char>, p: nat) returns (c: char, used: nat)
    requires Terminated(qs[..]) && p < qs.Length && IsQsChr(qs[p])
    ensures used == 0 ==> Unescape(qs[..][p..]) == []
    ensures used > 0 ==> p + used < qs.Length && Unescape(qs[..][p..]) == [c] + Unescape(qs[..][p + used..])
  {
    hide Unescape, HexChar, IsHex;
    ghost var rest := qs[..][p..];
    UnescapeStep(rest);
    c, used := qs[p], 1;
    if qs[p] == '+' {
      c := ' ';
    } else if qs[p] == '%' {
      if !IsHex(qs[p + 1]) || !IsHex(qs[p + 2]) {
        used := 0;
      } else {
        c, used := HexChar(qs[p + 1], qs[p + 2]), 3;
      }
    }
    assert used > 0 ==> rest[used..] == qs[..][p + used..];
  }

  lemma UnescapeStep(rest: string)
    requires Terminated(rest)
    ensures !IsQsChr(rest[0]) ==> Unescape(rest) == []
    ensures IsQsChr(rest[0]) ==> |rest| > 1
    ensures rest[0] == '%' && IsHex(rest[1]) ==> |rest| > 2
    ensures rest[0] == '%' && !(IsHex(rest[1]) && IsHex(rest[2])) ==> Unescape(rest) == []
    ensures rest[0] == '%' && IsHex(rest[1]) && IsHex(rest[2]) ==>
      |rest| > 3 && Unescape(rest) == [HexChar(rest[1], rest[2])] + Unescape(rest[3..])
    ensures rest[0] == '+' ==> Unescape(rest) == [' '] + Unescape(rest[1..])
    ensures IsQsChr(rest[0]) && rest[0] != '%' && rest[0] != '+' ==> Unescape(rest) == [rest[0]] + Unescape(rest[1..])
  {
    if rest[0] == '%' && IsHex(rest[1]) && IsHex(rest[2]) {
      assert IsEscape(rest);
    }
  }

  // ----- qs_parse -----

  /** A pair's text holds neither of the characters that end it. */
  predicate IsPiece(w: string) {
    forall i :: 0 <= i < |w| ==> w[i] != '&' && w[i] != NUL
  }

  lemma KeyEnds(w: string, end: char, rest: string)
    requires IsPiece(w) && (end == '&' || end == NUL)
    ensures Span(w + [end] + rest, "=&#") == KeyLength(w)
    ensures KeyLength(w) < |w| ==> w[KeyLength(w)] == '=' || w[KeyLength(w)] == '#'
  {
    SpanIs(w + [end] + rest, "=&#", KeyLength(w));
  }

  /** Memory with `x` between `before` and `after`. */
  ghost function Framed(before: string, x: string, after: string): string {
    before + x + after
  }

  /** Decoding the value of one pair, with any memory around it. */
  method DecodePair(qs: array<char>, p: nat, ghost before: string, ghost w: string, ghost end: char, ghost after: string)
    requires qs[..] == Framed(before, w + [end], after) && |before| == p && Terminated(qs[..])
    requires IsPiece(w) && (end == '&' || end == NUL)
    modifies qs
    ensures qs[..] == Framed(before, Settled(w, end), after)
  {
    hide Unescape, Span, Settled, Written, KeyLength, Terminated, IsPiece, Framed;
    PairParts(before, w, end, after);
    var e := p + Span(qs[..][p..], "=&#");
    if qs[e] == '&' || qs[e] == NUL {
      BlankSettles(before, w, end, after);
      Terminate(qs, e, qs[..]);
    } else {
      ValueSettles(before, w, end, after);
      var _ := QsDecode(qs, e + 1);
    }
  }

  method Terminate(qs: array<char>, e: nat, ghost m: string)
    requires qs[..] == m && e < |m|
    modifies qs
    ensures qs[..] == m[e := NUL]
  {
    qs[e] := NUL;
  }

  /** Where the key of a pair in memory ends, and what follows. */
  lemma PairParts(before: string, w: string, end: char, after: string)
    requires IsPiece(w) && (end == '&' || end == NUL)
    ensures
      var m, e := Framed(before, w + [end], after), |before| + KeyLength(w);
      && e < |m| && Span(m[|before|..], "=&#") == KeyLength(w)
      && (m[e] == '&' || m[e] == NUL <==> KeyLength(w) == |w|)
      && (KeyLength(w) < |w| ==> e + 1 < |m| && Unescape(m[e + 1..]) == Unescape(w[KeyLength(w) + 1..]))
  {
    hide Unescape, Span;
    var m, k := Framed(before, w + [end], after), KeyLength(w);
    assert m[|before|..] == w + [end] + after;
    KeyEnds(w, end, after);
    if k < |w| {
      assert m[|before| + k + 1..] == w[k + 1..] + [end] + after;
      UnescapeStops(w[k + 1..], end, after);
    }
  }

  lemma BlankSettles(before: string, w: string, end: char, after: string)
    requires KeyLength(w) == |w|
    ensures
      var m := Framed(before, w + [end], after);
      |before| + |w| < |m| && m[|before| + |w| := NUL] == Framed(before, Settled(w, end), after)
  {
    SettledBlank(w, end);
    hide Settled, KeyLength;
    var m := Framed(before, w + [end], after);
    assert m[|before| + |w|] == end;
    assert m[..|before| + |w|] == before + w && m[|before| + |w| + 1..] == after;
  }

  lemma SettledBlank(w: string, end: char)
    requires KeyLength(w) == |w|
    ensures Settled(w, end) == w + [NUL]
  {
    hide Unescape, Span;
  }

  lemma ValueSettles(before: string, w: string, end: char, after: string)
    requires KeyLength(w) < |w|
    ensures
      var e, m := KeyLength(w), Framed(before, w + [end], after);
      var v := Unescape(w[e + 1..]);
      && |before| + e + 1 + |v| + 1 <= |m|
      && Written(m, |before| + e + 1, v + [NUL]) == Framed(before, Settled(w, end), after)
  {
    hide Unescape, Span, Written, KeyLength, Settled;
    var e := KeyLength(w);
    var a, tail, u := w[..e + 1], w[e + 1..] + [end], Unescape(w[e + 1..]) + [NUL];
    SettledParts(w, end);
    Overwrite(before, a, tail, u, after);
    assert a + tail == w + [end];
  }

  lemma SettledParts(w: string, end: char)
    requires KeyLength(w) < |w|
    ensures
      var e := KeyLength(w);
      var a, tail, u := w[..e + 1], w[e + 1..] + [end], Unescape(w[e + 1..]) + [NUL];
      |u| <= |tail| && Settled(w, end) == a + u + tail[|u|..]
  {
    ShownParts(w);
    hide Unescape, Span, KeyLength, Shown;
    var e := KeyLength(w);
    var a, tail, u := w[..e + 1], w[e + 1..] + [end], Unescape(w[e + 1..]) + [NUL];
    assert a + tail == w + [end];
    DropBoth(a, tail, |u|);
  }

  lemma ShownParts(w: string)
    requires KeyLength(w) < |w|
    ensures Shown(w) == w[..KeyLength(w) + 1] + (Unescape(w[KeyLength(w) + 1..]) + [NUL])
  {
    hide Unescape, Span, KeyLength;
    var e := KeyLength(w);
    assert w[..e + 1] + Unescape(w[e + 1..]) + [NUL] == w[..e + 1] + (Unescape(w[e + 1..]) + [NUL]);
  }

  lemma DropBoth(a: string, tail: string, k: nat)
    requires k <= |tail|
    ensures (a + tail)[|a| + k..] == tail[k..]
  {
  }

  lemma Overwrite(before: string, a: string, tail: string, u: string, after: string)
    requires |u| <= |tail|
    ensures |before| + |a| + |u| <= |Framed(before, a + tail, after)|
    ensures Written(Framed(before, a + tail, after), |before| + |a|, u) == Framed(before, a + u + tail[|u|..], after)
  {
    var m := Framed(before, a + tail, after);
    assert m[..|before| + |a|] == before + a;
    assert m[|before| + |a| + |u|..] == tail[|u|..] + after;
  }

  /** The first loop of `qs_parse`: where the pairs start. */
  method SplitPairs(qs: array<char>, start: nat, size: nat) returns (kv: seq<nat>)
    requires Terminated(qs[..]) && start < qs.Length
    ensures kv == Starts(qs[start..], size, start)
  {
    hide Starts, Span;
    kv := [];
    var i, p := 0, start;
    ghost var m := qs[..];
    assert m[start..] == qs[start..];
    while i < size
      invariant 0 <= i <= size && start <= p < qs.Length
      invariant kv + Starts(m[p..], size - i, p) == Starts(m[start..], size, start)
    {
      kv := kv + [p];
      NextStart(m, p, size - i);
      var j := Span(qs[..][p..], "&");
      if qs[p + j] == NUL {
        return;
      }
      p := p + j + 1;
      i := i + 1;
    }
    NoPairs(m[p..], p);
  }

  lemma NextStart(m: string, p: nat, n: nat)
    requires Terminated(m) && p < |m| && n > 0
    ensures
      var j := Span(m[p..], "&");
      && p + j < |m|
      && (m[p + j] == NUL ==> Starts(m[p..], n, p) == [p])
      && (m[p + j] != NUL ==>
            && p + j + 1 < |m|
            && Starts(m[p..], n, p) == [p] + Starts(m[p + j + 1..], n - 1, p + j + 1))
  {
    hide Starts, Span, Pieces, ParsedMemory, Settled;
    var k, left := Unfold(m[p..], n, p);
    assert m[p..][k] == m[p + k] && m[p..][k + 1..] == m[p + k + 1..];
    NoPairs(m[p + k + 1..], p + k + 1);
  }

  lemma NoPairs(m: string, base: nat)
    ensures Starts(m, 0, base) == [] && ParsedMemory(m, 0) == m
  {
  }

  /** The second loop of `qs_parse`: every value is decoded where it stands. */
  method DecodePairs(qs: array<char>, kv: seq<nat>, start: nat, size: nat)
    requires Terminated(qs[..]) && start < qs.Length
    requires kv == Starts(qs[start..], size, start)
    modifies qs
    ensures qs[..] == old(qs[..start]) + ParsedMemory(old(qs[start..]), size)
  {
    hide Starts, Span, Pieces, ParsedMemory, Settled, Shown, Framed, IsPiece;
    ghost var done, rest, left := qs[..start], qs[start..], size;
    ghost var goal := done + ParsedMemory(rest, left);
    var j := 0;
    while j < |kv|
      invariant 0 <= j <= |kv|
      invariant qs[..] == done + rest && (left > 0 ==> Terminated(rest))
      invariant Starts(rest, left, |done|) == kv[j..]
      invariant done + ParsedMemory(rest, left) == goal
    {
      SomeStart(rest, left, |done|);
      ghost var k, fewer := Unfold(rest, left, |done|);
      ghost var w, end, after := rest[..k], rest[k], rest[k + 1..];
      assert kv[j] == kv[j..][0] == |done|;
      FramePair(done, rest, k);
      FrontIsPiece(rest, k);
      DecodePair(qs, kv[j], done, w, end, after);
      ghost var was := done;
      done := done + Settled(w, end);
      FramedIs(was, Settled(w, end), after);
      assert was + (Settled(w, end) + ParsedMemory(after, fewer)) == done + ParsedMemory(after, fewer);
      assert kv[j..][1..] == kv[j + 1..] == Starts(after, fewer, |done|);
      rest, left := after, fewer;
      j := j + 1;
    }
    AllPairs(rest, left, |done|);
    NoPairs(rest, |done|);
  }

  lemma FrontIsPiece(rest: string, k: nat)
    requires k == Span(rest, "&") < |rest|
    ensures IsPiece(rest[..k]) && (rest[k] == '&' || rest[k] == NUL)
  {
    hide Span;
  }

  lemma FramedIs(before: string, x: string, after: string)
    ensures Framed(before, x, after) == before + x + after
  {
  }

  lemma FramePair(done: string, rest: string, k: nat)
    requires k < |rest|
    ensures done + rest == Framed(done, rest[..k] + [rest[k]], rest[k + 1..])
  {
    assert rest == rest[..k] + [rest[k]] + rest[k + 1..];
  }

  lemma AllPairs(m: string, n: nat, base: nat)
    requires n > 0 ==> Terminated(m)
    requires Starts(m, n, base) == []
    ensures n == 0
  {
  }

  /** `qs_parse`. */
  method QsParse(qs: array<char>, size: nat) returns (kv: seq<nat>)
    requires Terminated(qs[..])
    modifies qs
    ensures
      var m := old(qs[..]);
      var k := Span(m, "?#");
      && k < |m|
      && (m[k] == NUL ==> kv == [] && qs[..] == m)
      && (m[k] != NUL ==>
            && Terminated(m[k + 1..]) && kv == Starts(m[k + 1..], size, k + 1)
            && qs[..] == m[..k + 1] + ParsedMemory(m[k + 1..], size))
  {
    hide Starts, Pieces, ParsedMemory;
    SpanStops(qs[..], "?#");
    var p := Span(qs[..], "?#");
    if qs[p] == NUL {
      return [];
    }
    p := p + 1;
    kv := SplitPairs(qs, p, size);
    DecodePairs(qs, kv, p, size);
  }
}
