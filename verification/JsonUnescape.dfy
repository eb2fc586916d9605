/** Unescaping a parsed string where it stands. */
module JsonUnescape {
  import opened Memory
  import opened JsonText
  import opened JsonMemory

  /** `unescape`, run when a string is first read. What the value shows stays
      the same and needs no further unescaping; no write goes past the string's end. */
  method Unescape(buf: array<char>, start: nat, end: nat, ghost s: string) returns (last: nat)
    requires StringShows(buf[..], start, end, s)
    modifies buf
    ensures start <= last <= end < buf.Length && buf[start - 1] == NUL && buf[start..last] == s
    ensures Agree(old(buf[..]), buf[..], 0, start - 1) && Agree(old(buf[..]), buf[..], end + 1, buf.Length)
    ensures old(buf[start - 1]) == NUL ==> buf[..] == old(buf[..])
  {
    if buf[start - 1] == NUL {
      return end;
    }
    ghost var m := buf[..];
    assert m[start..end] == buf[start..end];
    last := UnescapeLoop(buf, start, end);
    assert s == Unescaped(m[start..end]);
    WrittenKeeps(m, start, s);
    assert buf[start..last] == s;
    buf[last] := NUL;
    buf[start - 1] := NUL;
  }

  /** The loop: `tail`, where it writes, never passes `head`, where it reads. */
  method UnescapeLoop(buf: array<char>, start: nat, end: nat) returns (tail: nat)
    requires start <= end < buf.Length && WellFormed(buf[..][start..end])
    modifies buf
    ensures
      var s := Unescaped(old(buf[..])[start..end]);
      tail == start + |s| <= end && buf[..] == Written(old(buf[..]), start, s)
  {
    hide Meaning, Used, Written, WellFormed, Unescaped;
    ghost var m := buf[..];
    ghost var done := "";
    WriteNone(m, start);
    var head := start;
    tail := start;
    while head != end
      invariant start <= tail <= head <= end && |done| == tail - start
      invariant WellFormed(m[head..end])
      invariant Unescaped(m[start..end]) == done + Unescaped(m[head..end])
      invariant buf[..] == Written(m, start, done)
    {
      WrittenKeeps(m, start, done);
      ghost var rest := m[head..end];
      assert buf[..][head..end] == m[head..][..end - head] == rest;
      UnescapedStep(rest);
      var piece, used := MeaningAt(buf, head, end);
      assert rest[used..] == m[head + used..end];
      WriteMore(m, start, done, piece);
      tail := Put(buf, tail, piece);
      done := done + piece;
      head := head + used;
    }
    UnescapedStep(m[head..end]);
    assert done == Unescaped(m[start..end]);
  }

  lemma UnescapedStep(raw: string)
    requires WellFormed(raw)
    ensures raw == [] ==> Unescaped(raw) == []
    ensures raw != [] ==>
      && Used(raw) > 0 && WellFormed(raw[Used(raw)..])
      && Unescaped(raw) == Meaning(raw) + Unescaped(raw[Used(raw)..])
  {
    hide Meaning, Used;
  }

  method Put(buf: array<char>, at: nat, piece: string) returns (tail: nat)
    requires at + |piece| <= buf.Length
    modifies buf
    ensures tail == at + |piece| && buf[..] == Written(old(buf[..]), at, piece)
  {
    tail := at;
    ghost var m := buf[..];
    WriteNone(m, at);
    for j := 0 to |piece|
      invariant tail == at + j && buf[..] == Written(m, at, piece[..j])
    {
      Store(buf, tail, piece[j], m, at, piece[..j]);
      assert piece[..j] + [piece[j]] == piece[..j + 1];
      tail := tail + 1;
    }
    assert piece[..|piece|] == piece;
  }

  /** The character or escape at `head`: what to write for it and how far to go on. */
  method MeaningAt(buf: array<char>, head: nat, end: nat) returns (piece: string, used: nat)
    requires head < end <= buf.Length && Used(buf[..][head..end]) > 0
    ensures piece == Meaning(buf[..][head..end]) && used == Used(buf[..][head..end]) > 0
    ensures |piece| <= used <= end - head
  {
    ghost var t := buf[..][head..end];
    assert t[0] == buf[head];
    if buf[head] != '\\' {
      return [buf[head]], 1;
    }
    var c := buf[head + 1];
    assert t[1] == c;
    if c == 'u' {
      assert IsCodeEscape(t);
      assert t[2] == buf[head + 2] && t[3] == buf[head + 3] && t[4] == buf[head + 4] && t[5] == buf[head + 5];
      var code := CodeOf(buf[head + 2], buf[head + 3], buf[head + 4], buf[head + 5]);
      assert code == Code(t);
      return Utf8(code), 6;
    }
    return [SimpleEscape(c)], 2;
  }
}
