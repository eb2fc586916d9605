/** Crow's JSON parser: it reads a buffer front to back, overwrites the quotes of
    strings as it goes, and unescapes strings where they stand. */
module JsonParser {
  import opened Memory
  import Decimal
  import opened JsonText
  import opened JsonGrammar
  import opened JsonMemory
  import opened JsonSteps
  import opened JsonRoundTrip
  import JsonUnescape

  datatype Sep = Close | Comma | Neither

  class Parser {
    const buf: array<char>
    var data: nat

    constructor (buffer: array<char>)
      ensures buf == buffer && data == 0
    {
      buf := buffer;
      data := 0;
    }

    ghost function Mem(): string
      reads buf
    {
      buf[..]
    }

    ghost predicate Ready()
      reads this, buf
    {
      Terminated(Mem()) && data < |Mem()| == buf.Length
    }

    /** The character at `data`. */
    method Peek() returns (c: char)
      requires Ready()
      ensures c == Mem()[data] && (c != NUL ==> data + 1 < buf.Length)
    {
      c := buf[data];
    }

    method Consume(c: char) returns (ok: bool)
      requires Ready() && c != NUL
      modifies `data
      ensures Ready()
      ensures ok == (Mem()[old(data)] == c) && data == old(data) + if ok then 1 else 0
    {
      if buf[data] != c {
        return false;
      }
      data := data + 1;
      return true;
    }

    method WsSkip()
      requires Ready()
      modifies `data
      ensures Ready() && old(data) <= data
      ensures Mem()[data..] == SkipWs(Mem()[old(data)..])
    {
      hide SkipWs;
      ghost var m := buf[..];
      while IsWs(buf[data])
        invariant Ready() && old(data) <= data
        invariant SkipWs(m[data..]) == SkipWs(m[old(data)..])
        decreases buf.Length - data
      {
        SkipStep(m, data);
        data := data + 1;
      }
      SkipStep(m, data);
    }

    /** What follows an item: white space, then the closing bracket, or a comma
        and white space, or something else. */
    method Separator(close: char) returns (sep: Sep, ghost at: nat)
      requires Ready() && close != NUL && close != ','
      modifies `data
      ensures Ready() && old(data) <= at <= data && at < |Mem()| && Mem()[at..] == SkipWs(Mem()[old(data)..])
      ensures sep == Close ==> Mem()[at] == close && data == at + 1
      ensures sep == Comma ==> Mem()[at] == ',' && at < data && Mem()[data..] == SkipWs(Mem()[at + 1..])
      ensures sep == Neither ==> Mem()[at] != close && Mem()[at] != ',' && data == at
    {
      hide SkipWs, Mem;
      WsSkip();
      at := data;
      var c := Peek();
      if c == close {
        data := data + 1;
        return Close, at;
      }
      var comma := Consume(',');
      if !comma {
        return Neither, at;
      }
      WsSkip();
      return Comma, at;
    }

    // ----- Numbers -----

    /** `decode_number`: it runs over digits without looking the state up again. */
    method DecodeNumber() returns (v: RValue)
      requires Ready()
      modifies `data
      ensures Ready() && old(data) <= data
      ensures Decoded(Mem(), old(data), Mem(), data, ParseNumber(Mem()[old(data)..]), v)
    {
      hide Shift, ScanNumber, ParseNumber, Decoded, IsNumberChar, Accepts;
      var start := data;
      ghost var m := buf[..];
      var state := Minus;
      while state != Invalid
        invariant Ready() && start <= data
        invariant ScanNumber(m[start..], Minus) == Behind(data - start, ScanNumber(m[data..], state))
        decreases buf.Length - data
      {
        var c := buf[data];
        NumberStep(m, data, state);
        if !IsNumberChar(c) {
          if Accepts(state) {
            NumberDecoded(m, start, data);
            v := RNumber(start, data);
          } else {
            NumberFailed(m, start, data);
            v := Bad;
          }
          return;
        }
        DigitsStay(state, c);
        state := Shift(state, c);
        if '1' <= c <= '9' {
          RunOverDigits(state);
        }
        data := data + 1;
      }
      NumberStep(m, data, state);
      NumberFailed(m, start, data);
      v := Bad;
    }

    /** The inner loop: it stops at the last of the digits. */
    method RunOverDigits(state: NumberState)
      requires Ready() && '1' <= Mem()[data] <= '9'
      requires state == Invalid || TakesDigits(state)
      modifies `data
      ensures Ready() && old(data) <= data && data + 1 < buf.Length
      ensures ScanNumber(Mem()[old(data) + 1..], state) == Behind(data - old(data), ScanNumber(Mem()[data + 1..], state))
    {
      hide Shift, ScanNumber, IsNumberChar, Accepts, TakesDigits;
      var first := data;
      ghost var m := buf[..];
      while Decimal.IsDigit(buf[data + 1])
        invariant Ready() && first <= data && data + 1 < buf.Length
        invariant ScanNumber(m[first + 1..], state) == Behind(data - first, ScanNumber(m[data + 1..], state))
        decreases buf.Length - data
      {
        NumberStep(m, data + 1, state);
        NumberStep(m, data + 2, state);
        data := data + 1;
      }
    }

    // ----- Strings -----

    /** `decode_string`. */
    method DecodeString() returns (v: RValue)
      requires Ready()
      modifies `data, buf
      ensures Ready() && old(data) <= data && (v.RString? || v.Bad?)
      ensures Decoded(old(Mem()), old(data), Mem(), data, StringTree(ParseString(old(Mem())[old(data)..])), v)
    {
      hide ParseString, ScanString, Decoded, Used;
      ghost var m, from := buf[..], data;
      var quoted := Consume('"');
      if !quoted {
        StringFailed(m, from, data);
        return Bad;
      }
      var start := data;
      var ok, escaping := FindQuote();
      if !ok {
        StringFailed(m, from, data);
        return Bad;
      }
      buf[data] := NUL;
      buf[start - 1] := if escaping then 1 as char else NUL;
      data := data + 1;
      StringDecoded(m, from, buf[..], data, escaping);
      v := RString(start, data - 1);
    }

    /** The loop of `decode_string`: to the closing quote, over well-formed escapes. */
    method FindQuote() returns (ok: bool, escaping: bool)
      requires Ready()
      modifies `data
      ensures Ready() && old(data) <= data
      ensures ok ==>
        && ScanString(Mem()[old(data)..]) == data - old(data) && data + 1 < |Mem()|
        && (escaping <==> '\\' in Mem()[old(data)..data])
      ensures !ok ==> ScanString(Mem()[old(data)..]) == -1
    {
      hide ScanString, Used;
      var start := data;
      ghost var m := buf[..];
      escaping := false;
      while true
        invariant Ready() && start <= data
        invariant ScanString(m[start..]) == Behind(data - start, ScanString(m[data..]))
        invariant escaping <==> '\\' in m[start..data]
        decreases buf.Length - data
      {
        assert m[data..][0] == buf[data];
        if buf[data] == '"' {
          ScanQuote(m[data..]);
          return true, escaping;
        }
        if buf[data] == NUL {
          ScanFails(m[data..]);
          return false, escaping;
        }
        var used := UsedAt();
        if used == 0 {
          ScanFails(m[data..]);
          return false, escaping;
        }
        if buf[data] == '\\' {
          escaping := true;
        }
        ScanOver(m, start, data, used);
        data := data + used;
      }
    }

    /** The characters of one plain character or escape, none if it is malformed. */
    method UsedAt() returns (used: nat)
      requires Ready() && Mem()[data] != NUL
      ensures used == Used(Mem()[data..]) && data + used < buf.Length
    {
      ghost var rest := Mem()[data..];
      if buf[data] != '\\' {
        return 1;
      }
      var c := buf[data + 1];
      if c == 'u' {
        if IsHex(buf[data + 2]) && IsHex(buf[data + 3]) && IsHex(buf[data + 4]) && IsHex(buf[data + 5]) {
          return 6;
        }
        return 0;
      }
      return if IsSimpleEscape(c) then 2 else 0;
    }

    /** `s()`: unescapes the string where it stands. */
    method ReadKey(start: nat, end: nat, ghost s: string) returns (last: nat)
      requires Ready() && StringShows(Mem(), start, end, s) && end < data
      modifies buf
      ensures Ready() && start <= last <= end && Mem()[start..last] == s
      ensures Agree(old(Mem()), Mem(), 0, start - 1) && Agree(old(Mem()), Mem(), end + 1, |Mem()|)
    {
      hide StringShows;
      last := JsonUnescape.Unescape(buf, start, end, s);
      assert Mem()[|Mem()| - 1] == old(Mem())[|Mem()| - 1];
    }

    // ----- Values -----

    /** `decode_value`. */
    method DecodeValue(depth: nat) returns (v: RValue)
      requires Ready()
      modifies `data, buf
      ensures Ready() && old(data) <= data
      ensures Decoded(old(Mem()), old(data), Mem(), data, ParseValue(old(Mem())[old(data)..], depth), v)
      decreases buf.Length - data, 1
    {
      hide ParseValue, ParseString, ParseNumber, ParseList, ParseObject, Decoded, Mem;
      ValueKind(Mem(), data, depth);
      WordsShow(Mem(), data);
      var c := Peek();
      if c == '[' {
        v := DecodeList(depth + 1);
      } else if c == '{' {
        v := DecodeObject(depth + 1);
      } else if c == '"' {
        v := DecodeString();
      } else if c == 't' {
        v := DecodeWord("true", RBool(true), Bool(true));
      } else if c == 'f' {
        v := DecodeWord("false", RBool(false), Bool(false));
      } else if c == 'n' {
        v := DecodeWord("null", RNull, Null);
      } else {
        v := DecodeNumber();
      }
    }

    /** The literal names. */
    method DecodeWord(word: string, found: RValue, ghost t: Tree) returns (v: RValue)
      requires Ready() && word != "" && NUL !in word
      requires Named(found, t)
      modifies `data
      ensures Ready() && old(data) <= data
      ensures Decoded(Mem(), old(data), Mem(), data, WordTree(Mem()[old(data)..], word, t), v)
    {
      ghost var rest := Mem()[data..];
      var i := 0;
      while i < |word| && buf[data + i] == word[i]
        invariant 0 <= i <= |word| && data + i < buf.Length
        invariant word[..i] <= rest
      {
        assert rest[i] == buf[data + i] != NUL;
        i := i + 1;
      }
      if i == |word| {
        assert word[..i] == word;
        data := data + |word|;
        assert rest[|word|..] == Mem()[data..];
        return found;
      }
      assert rest[i] == buf[data + i];
      return Bad;
    }

    /** `decode_list`. */
    method DecodeList(depth: nat) returns (v: RValue)
      requires Ready()
      modifies `data, buf
      ensures Ready() && old(data) <= data
      ensures Decoded(old(Mem()), old(data), Mem(), data, ParseList(old(Mem())[old(data)..], depth), v)
      decreases buf.Length - data, 0
    {
      hide ParseItems, ParseList, SkipWs, Decoded, Mem;
      ghost var m, from := Mem(), data;
      var ok := Consume('[');
      if !ok || depth > MAX_DEPTH {
        ListRefused(m, from, data, depth);
        return Bad;
      }
      WsSkip();
      ghost var first := data;
      var c := Peek();
      if c == ']' {
        data := data + 1;
        EmptyList(m, from, first, depth);
        return RList([]);
      }
      v := DecodeItems(depth);
      ListDecoded(m, from, first, Mem(), data, depth, v);
    }

    /** The loop of `decode_list`. */
    method DecodeItems(depth: nat) returns (v: RValue)
      requires Ready()
      modifies `data, buf
      ensures Ready() && old(data) <= data
      ensures Decoded(old(Mem()), old(data), Mem(), data, ListTree(ParseItems(old(Mem())[old(data)..], depth)), v)
      decreases buf.Length - data, 2
    {
      hide ParseItems, ParseValue, SkipWs, Decoded, Prepend, Mem, ListTree;
      ghost var m, from := Mem(), data;
      ghost var ts: seq<Tree> := [];
      var ret: seq<RValue> := [];
      NoItems(m, from);
      PrependNothing(ParseItems(m[from..], depth));
      while true
        invariant Ready() && from <= data && |m| == buf.Length
        invariant Decoded(m, from, Mem(), data, Done(List(ts), m[data..]), RList(ret))
        invariant ParseItems(m[from..], depth) == Prepend(ts, ParseItems(m[data..], depth))
        decreases buf.Length - data
      {
        ghost var n, at := Mem(), data;
        var x := DecodeValue(depth + 1);
        ghost var n1, at1 := Mem(), data;
        ItemRead(m, from, n, at, ts, ret, n1, at1, depth, x);
        if x.Bad? {
          return Bad;
        }
        var sep;
        ghost var at2;
        sep, at2 := Separator(']');
        ItemTurn(m, from, at, ts, ret, n1, at1, at2, depth, x);
        ret := ret + [x];
        ts := ts + [ParseValue(m[at..], depth + 1).value];
        assert Mem() == n1;
        if sep == Close {
          return RList(ret);
        } else if sep == Neither {
          return Bad;
        }
        MovedOn(m, from, n1, at2, data, List(ts), RList(ret));
      }
    }

    /** `decode_object`. */
    method DecodeObject(depth: nat) returns (v: RValue)
      requires Ready()
      modifies `data, buf
      ensures Ready() && old(data) <= data
      ensures Decoded(old(Mem()), old(data), Mem(), data, ParseObject(old(Mem())[old(data)..], depth), v)
      decreases buf.Length - data, 0
    {
      hide ParseMembers, ParseObject, SkipWs, Decoded, Mem;
      ghost var m, from := Mem(), data;
      var ok := Consume('{');
      if !ok || depth > MAX_DEPTH {
        ObjectRefused(m, from, data, depth);
        return Bad;
      }
      WsSkip();
      ghost var first := data;
      var c := Peek();
      if c == '}' {
        data := data + 1;
        EmptyObject(m, from, first, depth);
        return RObject([]);
      }
      v := DecodeMembers(depth);
      ObjectDecoded(m, from, first, Mem(), data, depth, v);
    }

    /** The loop of `decode_object`. */
    method DecodeMembers(depth: nat) returns (v: RValue)
      requires Ready()
      modifies `data, buf
      ensures Ready() && old(data) <= data
      ensures Decoded(old(Mem()), old(data), Mem(), data, ObjectTree(ParseMembers(old(Mem())[old(data)..], depth)), v)
      decreases buf.Length - data, 3
    {
      hide ParseMembers, ParseMember, SkipWs, Decoded, MemberDecoded, Prepend, Mem, ObjectTree;
      ghost var m, from := Mem(), data;
      ghost var ts: seq<Member> := [];
      var ret: seq<RMember> := [];
      NoItems(m, from);
      PrependNothing(ParseMembers(m[from..], depth));
      while true
        invariant Ready() && from <= data && |m| == buf.Length
        invariant Decoded(m, from, Mem(), data, Done(Object(ts), m[data..]), RObject(ret))
        invariant ParseMembers(m[from..], depth) == Prepend(ts, ParseMembers(m[data..], depth))
        decreases buf.Length - data
      {
        ghost var n, at := Mem(), data;
        var ok, x := DecodeMember(depth);
        ghost var n1, at1 := Mem(), data;
        MemberRead(m, from, n, at, ts, ret, n1, at1, depth, ok, x);
        if !ok {
          return Bad;
        }
        var sep;
        ghost var at2;
        sep, at2 := Separator('}');
        MemberTurn(m, from, at, ts, ret, n1, at1, at2, depth, x);
        ret := ret + [x];
        ts := ts + [ParseMember(m[at..], depth).value];
        assert Mem() == n1;
        if sep == Close {
          return RObject(ret);
        } else if sep == Neither {
          return Bad;
        }
        MovedOn(m, from, n1, at2, data, Object(ts), RObject(ret));
      }
    }

    /** One member: its key is unescaped at once, its value is left as it is. */
    method DecodeMember(depth: nat) returns (ok: bool, x: RMember)
      requires Ready()
      modifies `data, buf
      ensures Ready() && old(data) <= data
      ensures MemberDecoded(old(Mem()), old(data), Mem(), data, ParseMember(old(Mem())[old(data)..], depth), ok, x)
      decreases buf.Length - data, 2
    {
      hide ParseMember, ParseValue, Decoded, MemberDecoded, KeyKept, Mem, MemberOf;
      ghost var m, from := Mem(), data;
      x := RMember(0, 0, Bad);
      var start, last;
      ghost var key;
      ok, start, last, key := DecodeKey(depth);
      if !ok {
        NoMember(m, from, Mem(), data, ParseMember(m[from..], depth), x);
        return false, x;
      }
      ghost var n, at := Mem(), data;
      var v := DecodeValue(depth + 1);
      ValueRead(m, from, n, at, key, start, last, Mem(), data, depth, v, x);
      if v.Bad? {
        return false, x;
      }
      return true, RMember(start, last, v);
    }

    /** A member up to its value: the key, the colon and the white space around it. */
    method DecodeKey(depth: nat) returns (ok: bool, start: nat, last: nat, ghost key: string)
      requires Ready()
      modifies `data, buf
      ensures Ready() && old(data) <= data
      ensures !ok ==> ParseMember(old(Mem())[old(data)..], depth) == Fail
      ensures ok ==>
        && old(data) < data && KeyKept(old(Mem()), old(data), Mem(), data, key, start, last)
        && ParseMember(old(Mem())[old(data)..], depth) == MemberOf(key, ParseValue(old(Mem())[data..], depth + 1))
    {
      hide ParseMember, ParseString, ParseValue, SkipWs, Decoded, StringShows, Mem, Agree, KeyKept, MemberOf;
      ghost var m, from := Mem(), data;
      var t := DecodeString();
      ghost var n1, at1 := Mem(), data;
      KeyRead(m, from, n1, at1, depth, t);
      if t.Bad? {
        return false, 0, 0, "";
      }
      key := ParseString(m[from..]).value;
      WsSkip();
      ghost var colon := data;
      assert Mem() == n1;
      ColonRead(m, from, n1, at1, colon, depth, t);
      var found := Consume(':');
      assert Mem() == n1;
      if !found {
        return false, 0, 0, "";
      }
      last := FinishKey(t.start, t.end, key, m, from, at1);
      return true, t.start, last, key;
    }

    /** Behind the colon: the key is unescaped and white space skipped. */
    method FinishKey(start: nat, end: nat, ghost key: string, ghost m: string, ghost from: nat, ghost at1: nat) returns (last: nat)
      requires Ready() && at1 < data && |m| == |Mem()|
      requires Decoded(m, from, Mem(), at1, Done(String(key), m[at1..]), RString(start, end))
      requires 0 < start <= end < at1 && StringShows(Mem(), start, end, key)
      modifies `data, buf
      ensures Ready() && old(data) <= data && |m| == |Mem()|
      ensures KeyKept(m, from, Mem(), data, key, start, last) && SkipWs(m[old(data)..]) == m[data..]
    {
      hide SkipWs, Decoded, StringShows, Mem, Agree, KeyKept;
      ghost var n1, behind := Mem(), data;
      last := ReadKey(start, end, key);
      ghost var n2 := Mem();
      WsSkip();
      assert n2[data..] == SkipWs(n2[behind..]);
      KeyBehind(m, from, n1, at1, key, start, end, n2, last, behind - 1, data);
    }

    /** `parse`: a value with white space around it, and nothing behind. */
    method ParseText() returns (v: RValue)
      requires Ready() && data == 0
      modifies `data, buf
      ensures Parse(old(Mem())) == Rejected ==> v.Bad?
      ensures Parse(old(Mem())).Accepted? ==> Shows(Mem(), v, Parse(old(Mem())).tree, 0, |Mem()|)
    {
      hide ParseValue, SkipWs, Decoded, Mem, Shows;
      ghost var m := Mem();
      assert m[0..] == m;
      WsSkip();
      ghost var from := data;
      v := DecodeValue(0);
      ghost var n, at := Mem(), data;
      WsSkip();
      TextRead(m, from, n, at, data, v);
      var c := Peek();
      if !v.Bad? && c != NUL {
        v := Bad;
      }
    }
  }

  /** `load`: the text is copied behind a terminator and parsed there. */
  method Load(text: string) returns (buf: array<char>, v: RValue)
    ensures fresh(buf)
    ensures Parse(text + [NUL]) == Rejected ==> v.Bad?
    ensures Parse(text + [NUL]).Accepted? ==> Shows(buf[..], v, Parse(text + [NUL]).tree, 0, buf.Length)
  {
    hide Parse, Shows;
    buf := new char[|text| + 1](i => if 0 <= i < |text| then text[i] else NUL);
    assert buf[..] == text + [NUL];
    var parser := new Parser(buf);
    v := parser.ParseText();
  }

  /** Printing a tree and loading the text shows the same tree, up to the depth
      limit and not beyond it. */
  method DumpAndLoad(t: Tree) returns (buf: array<char>, v: RValue)
    requires Dumpable(t)
    ensures fresh(buf)
    ensures Height(t) <= 5000 ==> Shows(buf[..], v, t, 0, buf.Length)
    ensures Height(t) > 5000 ==> v.Bad?
  {
    hide Parse, Shows, Height, Dump, Dumpable;
    var text := DumpInternal(t, "");
    assert text == Dump(t);
    ParseInvertsDump(t);
    buf, v := Load(text);
  }
}
