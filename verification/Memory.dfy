/** A character buffer as a C program sees it: terminated by NUL, overwritten in place. */
module Memory {
  const NUL: char := '\0'

  predicate IsHex(c: char) {
    '0' <= c <= '9' || 'A' <= c <= 'F' || 'a' <= c <= 'f'
  }

  /** The character for the hexadecimal digit `v`, in either case. */
  predicate IsHexDigit(c: char, v: nat)
    requires v < 16
  {
    c == "0123456789abcdef"[v] || c == "0123456789ABCDEF"[v]
  }

  lemma HexDigits(c: char)
    ensures IsHex(c) <==> exists v :: 0 <= v < 16 && IsHexDigit(c, v)
  {
    if IsHex(c) {
      var v := if c <= '9' then c as int - '0' as int else if c <= 'F' then c as int - 'A' as int + 10 else c as int - 'a' as int + 10;
      assert IsHexDigit(c, v);
    }
  }

  /** Every character stands for a byte. */
  predicate IsBytes(s: string) {
    forall i :: 0 <= i < |s| ==> s[i] as int < 256
  }

  predicate Terminated(m: string) {
    m != [] && m[|m| - 1] == NUL
  }

  /** Memory `m` with `text` written over it at `start`. */
  ghost function Written(m: string, start: nat, text: string): (w: string)
    requires start + |text| <= |m|
    ensures |w| == |m|
  {
    m[..start] + text + m[start + |text|..]
  }

  /** `buf[at] = c` behind what was written so far. */
  method Store(buf: array<char>, at: nat, c: char, ghost m: string, ghost start: nat, ghost text: string)
    requires start + |text| < |m| && at == start + |text| && buf[..] == Written(m, start, text)
    modifies buf
    ensures start + |text + [c]| <= |m| && buf[..] == Written(m, start, text + [c])
  {
    buf[at] := c;
  }

  lemma WriteNone(m: string, start: nat)
    requires start <= |m|
    ensures Written(m, start, []) == m
  {
  }

  lemma WriteMore(m: string, start: nat, text: string, more: string)
    requires start + |text| + |more| <= |m|
    ensures Written(Written(m, start, text), start + |text|, more) == Written(m, start, text + more)
  {
  }

  /** What is left untouched. */
  lemma WrittenKeeps(m: string, start: nat, text: string)
    requires start + |text| <= |m|
    ensures Written(m, start, text)[..start] == m[..start]
    ensures Written(m, start, text)[start..start + |text|] == text
    ensures forall k :: start + |text| <= k <= |m| ==> Written(m, start, text)[k..] == m[k..]
  {
  }
}
