/** Well-formed message bodies, and that the parser delivers them whole however
    their bytes are split over buffers. */
module ChunkedBody {
  import opened Bytes
  import Memory
  import opened BodyMachine
  import opened BodyParser

  /** A chunk as section 4.1 of RFC 7230 writes it: size, extension, data. */
  datatype Chunk = Chunk(digits: seq<Byte>, ext: seq<Byte>, data: seq<Byte>)

  predicate IsHexDigit(ch: Byte, v: nat)
    requires v < 16
  {
    Memory.IsHexDigit(ch as char, v)
  }

  /** The digits are `n` in base 16, in either case, maybe with leading zeros. */
  predicate Writes(digits: seq<Byte>, n: nat) {
    digits != [] && IsHexDigit(digits[|digits| - 1], n % 16)
    && if |digits| == 1 then n < 16 else Writes(digits[..|digits| - 1], n / 16)
  }

  /** The parser's table knows exactly these characters. */
  lemma UnhexIff(ch: Byte)
    ensures forall v :: 0 <= v < 16 ==> (Unhex(ch) == v <==> IsHexDigit(ch, v))
    ensures Unhex(ch) == -1 <==> forall v :: 0 <= v < 16 ==> !IsHexDigit(ch, v)
  {
    if Unhex(ch) != -1 {
      assert IsHexDigit(ch, Unhex(ch));
    }
  }

  /** A chunk extension begins with ';' or with white space before it, and has
      no carriage return. */
  ghost predicate IsExtension(ext: seq<Byte>) {
    ext != [] ==> (ext[0] == SEMICOLON || ext[0] == SPACE) && CR !in ext
  }

  /** A chunk header for `n` bytes that fits the parser's header limit. */
  ghost predicate IsHeader(digits: seq<Byte>, ext: seq<Byte>, n: nat) {
    && Writes(digits, n) && n <= ULLONG_MAX - 16
    && IsExtension(ext)
    && |digits| + |ext| + 2 <= MAX_HEADER_SIZE
  }

  ghost predicate IsChunk(c: Chunk) {
    IsHeader(c.digits, c.ext, |c.data|) && |c.data| > 0
  }

  ghost predicate AllChunks(chunks: seq<Chunk>) {
    forall i :: 0 <= i < |chunks| ==> IsChunk(chunks[i])
  }

  function EncodeHeader(digits: seq<Byte>, ext: seq<Byte>): seq<Byte> {
    digits + ext + [CR, LF]
  }

  function EncodeChunk(c: Chunk): seq<Byte> {
    EncodeHeader(c.digits, c.ext) + c.data + [CR, LF]
  }

  function EncodeChunks(chunks: seq<Chunk>): seq<Byte> {
    if chunks == [] then [] else EncodeChunks(chunks[..|chunks| - 1]) + EncodeChunk(chunks[|chunks| - 1])
  }

  /** A trailer field: name, colon and value, which may have blanks around it. */
  datatype Field = Field(name: seq<Byte>, value: seq<Byte>)

  function LowerAll(name: seq<Byte>): seq<Byte> {
    seq(|name|, i requires 0 <= i < |name| => Lower(name[i]))
  }

  /** The characters of a token (section 3.2.6 of RFC 7230). */
  predicate IsTchar(ch: Byte) {
    var c := ch as char;
    c in "!#$%&'*+-.^_`|~" || '0' <= c <= '9' || 'A' <= c <= 'Z' || 'a' <= c <= 'z'
  }

  /** Tab, the printable characters, and what lies beyond ASCII. */
  predicate IsFieldChar(ch: Byte) {
    ch == '\t' as int || ' ' as int <= ch <= '~' as int || ch >= 128
  }

  /** The parser's tables know exactly these characters, apart from line ends. */
  lemma FieldChars(ch: Byte)
    ensures IsToken(ch) <==> IsTchar(ch)
    ensures IsFieldChar(ch) <==> IsHeaderChar(ch) && ch != CR && ch != LF
  {
  }

  /** A field that may stand in a trailer (sections 3.2 and 4.1.2 of RFC 7230):
      a token that is not Content-Length, and a value on one line. */
  ghost predicate IsField(f: Field) {
    && f.name != [] && (forall i :: 0 <= i < |f.name| ==> IsTchar(f.name[i])) && LowerAll(f.name) != CONTENT_LENGTH
    && forall i :: 0 <= i < |f.value| ==> IsFieldChar(f.value[i])
  }

  ghost predicate AllFields(fields: seq<Field>) {
    forall i :: 0 <= i < |fields| ==> IsField(fields[i])
  }

  function EncodeField(f: Field): seq<Byte> {
    f.name + [COLON] + f.value + [CR, LF]
  }

  function EncodeFields(fields: seq<Field>): seq<Byte> {
    if fields == [] then [] else EncodeFields(fields[..|fields| - 1]) + EncodeField(fields[|fields| - 1])
  }

  /** Trailer fields that fit the parser's header limit with the CRLF behind them. */
  ghost predicate IsTrailer(fields: seq<Field>) {
    AllFields(fields) && |EncodeFields(fields)| + 2 <= MAX_HEADER_SIZE
  }

  /** Chunks, last chunk, trailer fields, and the closing CRLF. */
  function EncodeBody(chunks: seq<Chunk>, digits: seq<Byte>, ext: seq<Byte>, fields: seq<Field>): seq<Byte> {
    EncodeChunks(chunks) + EncodeHeader(digits, ext) + EncodeFields(fields) + [CR, LF]
  }

  function Payload(chunks: seq<Chunk>): seq<Byte> {
    if chunks == [] then [] else Payload(chunks[..|chunks| - 1]) + chunks[|chunks| - 1].data
  }

  /** Where the machine stands between chunks. */
  predicate BetweenChunks(m: Machine) {
    m.state.ChunkSizeStart? && m.nread == 0 && m.errno == Ok
  }

  lemma {:induction false} FeedDigits(m: Machine, digits: seq<Byte>, n: nat)
    requires BetweenChunks(m) && Writes(digits, n) && n <= ULLONG_MAX - 16 && |digits| <= MAX_HEADER_SIZE
    ensures Feed(m, digits) == m.(state := ChunkSize, contentLength := n, nread := |digits|)
  {
    var front, last := digits[..|digits| - 1], digits[|digits| - 1];
    UnhexIff(last);
    assert Unhex(CR) == -1;
    hide Unhex, IsHexDigit;
    if front != [] {
      FeedDigits(m, front, n / 16);
    }
  }

  lemma {:induction false} FeedExtension(m: Machine, ext: seq<Byte>)
    requires m.state.ChunkSize? && m.errno == Ok && IsExtension(ext) && m.nread + |ext| <= MAX_HEADER_SIZE
    ensures Feed(m, ext) == m.(state := if ext == [] then ChunkSize else ChunkParameters, nread := m.nread + |ext|)
  {
    if ext != [] {
      var front := ext[..|ext| - 1];
      assert front != [] ==> front[0] == ext[0];
      FeedExtension(m, front);
      assert Unhex(SEMICOLON) == -1 && Unhex(SPACE) == -1;
    }
  }

  lemma FeedCrLf(m: Machine)
    ensures Feed(m, [CR, LF]) == Step(Step(m, CR), LF)
  {
    assert [CR, LF] == [CR] + [LF];
    FeedConcat(m, [CR], [LF]);
    FeedOne(m, CR);
    FeedOne(Step(m, CR), LF);
  }

  lemma FeedHeader(m: Machine, digits: seq<Byte>, ext: seq<Byte>, n: nat)
    requires BetweenChunks(m) && IsHeader(digits, ext, n)
    ensures Feed(m, EncodeHeader(digits, ext))
      == m.(state := if n == 0 then HeaderFieldStart else ChunkData, contentLength := n, nread := 0)
  {
    hide Feed, Step, Writes, IsExtension, Unhex;
    FeedDigits(m, digits, n);
    FeedExtension(Feed(m, digits), ext);
    FeedConcat(m, digits, ext);
    FeedConcat(m, digits + ext, [CR, LF]);
    FeedCrLf(Feed(m, digits + ext));
    SizeLineEnd(Feed(m, digits + ext));
  }

  lemma SizeLineEnd(m: Machine)
    requires (m.state.ChunkSize? || m.state.ChunkParameters?) && m.errno == Ok && m.nread + 2 <= MAX_HEADER_SIZE
    ensures Step(Step(m, CR), LF) == m.(state := if m.contentLength == 0 then HeaderFieldStart else ChunkData, nread := 0)
  {
    assert Unhex(CR) == -1;
  }

  lemma FeedChunk(m: Machine, c: Chunk)
    requires BetweenChunks(m) && IsChunk(c)
    ensures BetweenChunks(Feed(m, EncodeChunk(c)))
    ensures Feed(m, EncodeChunk(c)).body == m.body + c.data
    ensures Feed(m, EncodeChunk(c)).completions == m.completions
  {
    hide Feed, Step, EncodeHeader, IsHeader;
    var header := EncodeHeader(c.digits, c.ext);
    FeedHeader(m, c.digits, c.ext, |c.data|);
    FeedConcat(m, header, c.data);
    FeedChunkData(Feed(m, header), c.data);
    FeedConcat(m, header + c.data, [CR, LF]);
    FeedCrLf(Feed(m, header + c.data));
    DataLineEnd(Feed(m, header + c.data));
  }

  lemma DataLineEnd(m: Machine)
    requires m.state.ChunkDataAlmostDone? && m.errno == Ok
    ensures Step(Step(m, CR), LF) == m.(state := ChunkSizeStart, nread := 0)
  {
  }

  lemma FeedNothing(m: Machine)
    ensures Feed(m, []) == m
  {
  }

  lemma {:induction false} FeedChunks(m: Machine, chunks: seq<Chunk>)
    requires BetweenChunks(m) && AllChunks(chunks)
    ensures BetweenChunks(Feed(m, EncodeChunks(chunks)))
    ensures Feed(m, EncodeChunks(chunks)).body == m.body + Payload(chunks)
    ensures Feed(m, EncodeChunks(chunks)).completions == m.completions
  {
    hide IsChunk, EncodeChunk, Feed, BetweenChunks, Step;
    if chunks == [] {
      FeedNothing(m);
      assert m.body + [] == m.body;
    } else {
      var front, last := chunks[..|chunks| - 1], chunks[|chunks| - 1];
      FeedChunks(m, front);
      FeedConcat(m, EncodeChunks(front), EncodeChunk(last));
      FeedChunk(Feed(m, EncodeChunks(front)), last);
      assert Payload(chunks) == Payload(front) + last.data;
      assert m.body + Payload(front) + last.data == m.body + (Payload(front) + last.data);
    }
  }

  // ----- Trailer fields -----

  /** Where the next byte begins a field or ends the trailer. */
  predicate AtFieldStart(s: BodyState) {
    s.HeaderFieldStart? || s.DiscardLws? || s.HeaderValueLws?
  }

  /** How much of "content-length" a name matches. */
  function Matched(name: seq<Byte>): nat {
    if name == [] then 0 else Match(Matched(name[..|name| - 1]), name[|name| - 1])
  }

  lemma {:induction false} MatchedIs(name: seq<Byte>)
    ensures Matched(name) == GENERAL || (Matched(name) == |name| <= 14 && LowerAll(name) == CONTENT_LENGTH[..|name|])
  {
    if name != [] {
      var front := name[..|name| - 1];
      MatchedIs(front);
      assert LowerAll(name) == LowerAll(front) + [Lower(name[|name| - 1])];
      if Matched(name) != GENERAL {
        assert CONTENT_LENGTH[..|name|] == CONTENT_LENGTH[..|front|] + [CONTENT_LENGTH[|front|]];
      }
    }
  }

  lemma {:induction false} FeedName(m: Machine, name: seq<Byte>)
    requires AtFieldStart(m.state) && m.errno == Ok && name != [] && m.nread + |name| <= MAX_HEADER_SIZE
    requires forall i :: 0 <= i < |name| ==> IsTchar(name[i])
    ensures Feed(m, name) == m.(state := HeaderField(Matched(name)), nread := m.nread + |name|)
  {
    hide Match, IsTchar;
    var front, last := name[..|name| - 1], name[|name| - 1];
    FieldChars(last);
    if front == [] {
      assert Matched(front) == 0;
      assert Feed(m, front) == m;
    } else {
      FeedName(m, front);
    }
  }

  lemma {:induction false} FeedValue(m: Machine, value: seq<Byte>)
    requires m.state.HeaderValueDiscardWs? && m.errno == Ok && m.nread + |value| <= MAX_HEADER_SIZE
    requires forall i :: 0 <= i < |value| ==> IsFieldChar(value[i])
    ensures
      var s := Feed(m, value).state;
      && (s.HeaderValueDiscardWs? || s.HeaderValue?)
      && Feed(m, value) == m.(state := s, nread := m.nread + |value|)
  {
    hide IsFieldChar;
    if value != [] {
      FieldChars(value[|value| - 1]);
      FeedValue(m, value[..|value| - 1]);
    }
  }

  lemma FeedField(m: Machine, f: Field)
    requires AtFieldStart(m.state) && m.errno == Ok && IsField(f) && m.nread + |EncodeField(f)| <= MAX_HEADER_SIZE
    ensures
      var n := Feed(m, EncodeField(f));
      AtFieldStart(n.state) && n == m.(state := n.state, nread := m.nread + |EncodeField(f)|)
  {
    hide Feed, Step, Matched, AtFieldStart;
    FeedName(m, f.name);
    NotContentLength(f.name);
    var m1 := Feed(m, f.name);
    FeedConcat(m, f.name, [COLON]);
    FeedOne(m1, COLON);
    ColonStep(m1);
    var m2 := Step(m1, COLON);
    FeedValue(m2, f.value);
    FeedConcat(m, f.name + [COLON], f.value);
    FeedConcat(m, f.name + [COLON] + f.value, [CR, LF]);
    FeedCrLf(Feed(m2, f.value));
    LineEnd(Feed(m2, f.value));
  }

  lemma NotContentLength(name: seq<Byte>)
    requires LowerAll(name) != CONTENT_LENGTH
    ensures Matched(name) != 14
  {
    hide Matched;
    MatchedIs(name);
    assert CONTENT_LENGTH[..14] == CONTENT_LENGTH;
  }

  lemma ColonStep(m: Machine)
    requires m.state.HeaderField? && m.state.matched != 14 && m.errno == Ok && m.nread < MAX_HEADER_SIZE
    ensures Step(m, COLON) == m.(state := HeaderValueDiscardWs, nread := m.nread + 1)
  {
  }

  lemma LineEnd(m: Machine)
    requires (m.state.HeaderValueDiscardWs? || m.state.HeaderValue?) && m.errno == Ok && m.nread + 2 <= MAX_HEADER_SIZE
    ensures
      var n := Step(Step(m, CR), LF);
      AtFieldStart(n.state) && n == m.(state := n.state, nread := m.nread + 2)
  {
  }

  lemma {:induction false} FeedFields(m: Machine, fields: seq<Field>)
    requires AtFieldStart(m.state) && m.errno == Ok && AllFields(fields) && m.nread + |EncodeFields(fields)| <= MAX_HEADER_SIZE
    ensures
      var n := Feed(m, EncodeFields(fields));
      AtFieldStart(n.state) && n == m.(state := n.state, nread := m.nread + |EncodeFields(fields)|)
  {
    hide Feed, IsField, EncodeField, AtFieldStart;
    if fields == [] {
      FeedNothing(m);
    } else {
      var front, last := fields[..|fields| - 1], fields[|fields| - 1];
      FeedFields(m, front);
      FeedConcat(m, EncodeFields(front), EncodeField(last));
      FeedField(Feed(m, EncodeFields(front)), last);
    }
  }

  /** A whole chunked body: the payload is delivered and the message completes
      with the very last byte, not before. */
  lemma FeedBody(m: Machine, chunks: seq<Chunk>, digits: seq<Byte>, ext: seq<Byte>, fields: seq<Field>)
    requires BetweenChunks(m) && AllChunks(chunks) && IsHeader(digits, ext, 0) && IsTrailer(fields)
    ensures
      var bytes := EncodeBody(chunks, digits, ext, fields);
      var end := Feed(m, bytes);
      && end.errno == Ok && end.body == m.body + Payload(chunks) && end.completions == m.completions + 1
      && Feed(m, bytes[..|bytes| - 1]).completions == m.completions
  {
    hide Feed, EncodeChunks, EncodeHeader, EncodeFields, Payload, IsHeader;
    var a, b, c := EncodeChunks(chunks), EncodeHeader(digits, ext), EncodeFields(fields);
    var most := a + b + c;
    FeedChunks(m, chunks);
    FeedConcat(m, a, b);
    FeedHeader(Feed(m, a), digits, ext, 0);
    FeedConcat(m, a + b, c);
    FeedFields(Feed(m, a + b), fields);
    FeedConcat(m, most, [CR, LF]);
    FeedCrLf(Feed(m, most));
    var bytes := EncodeBody(chunks, digits, ext, fields);
    assert bytes[..|bytes| - 1] == most + [CR];
    FeedConcat(m, most, [CR]);
    FeedOne(Feed(m, most), CR);
  }

  // ----- Every split into buffers -----

  ghost predicate NoEmptyBuffer(buffers: seq<seq<Byte>>) {
    forall i :: 0 <= i < |buffers| ==> buffers[i] != []
  }

  /** Calling the parser with one buffer after the other. */
  method ExecuteAll(parser: HttpParser, buffers: seq<seq<Byte>>)
    requires parser.errno == Ok && Sound(parser.Now())
    requires NoEmptyBuffer(buffers) && Feed(parser.Now(), Joined(buffers)).errno == Ok
    modifies parser
    ensures parser.Now() == Feed(old(parser.Now()), Joined(buffers))
  {
    hide Feed, Sound;
    ghost var m0 := parser.Now();
    var i := 0;
    assert buffers[..0] == [];
    FeedNothing(m0);
    while i < |buffers|
      invariant 0 <= i <= |buffers|
      invariant Sound(parser.Now()) && parser.Now() == Feed(m0, Joined(buffers[..i]))
    {
      BufferFed(m0, buffers, i);
      var parsed := parser.Execute(buffers[i]);
      i := i + 1;
    }
    assert buffers[..i] == buffers;
  }

  /** One more buffer, without an error. */
  lemma BufferFed(m: Machine, buffers: seq<seq<Byte>>, i: nat)
    requires i < |buffers| && Feed(m, Joined(buffers)).errno == Ok
    ensures Feed(m, Joined(buffers[..i + 1])) == Feed(Feed(m, Joined(buffers[..i])), buffers[i])
    ensures Feed(m, Joined(buffers[..i])).errno == Ok && Feed(m, Joined(buffers[..i + 1])).errno == Ok
  {
    hide Feed;
    assert buffers[..i + 1][..i] == buffers[..i];
    FeedConcat(m, Joined(buffers[..i]), buffers[i]);
    PrefixIsFine(m, buffers, i);
    PrefixIsFine(m, buffers, i + 1);
  }

  lemma {:induction false} PrefixIsFine(m: Machine, buffers: seq<seq<Byte>>, i: nat)
    requires i <= |buffers| && Feed(m, Joined(buffers)).errno == Ok
    ensures Feed(m, Joined(buffers[..i])).errno == Ok
    decreases |buffers| - i
  {
    if i == |buffers| {
      assert buffers[..i] == buffers;
    } else {
      PrefixIsFine(m, buffers, i + 1);
      assert buffers[..i + 1][..i] == buffers[..i];
      FeedConcat(m, Joined(buffers[..i]), buffers[i]);
      if Feed(m, Joined(buffers[..i])).errno != Ok {
        FeedStuck(Feed(m, Joined(buffers[..i])), buffers[i]);
      }
    }
  }

  /** Every well-formed chunked body, with or without trailer fields, cut into
      buffers in any way, is delivered exactly and completes exactly once. */
  method ReceiveChunked(chunks: seq<Chunk>, digits: seq<Byte>, ext: seq<Byte>, fields: seq<Field>, buffers: seq<seq<Byte>>)
    returns (body: seq<Byte>, completions: nat, errno: Errno)
    requires AllChunks(chunks) && IsHeader(digits, ext, 0) && IsTrailer(fields)
    requires NoEmptyBuffer(buffers) && Joined(buffers) == EncodeBody(chunks, digits, ext, fields)
    ensures errno == Ok && body == Payload(chunks) && completions == 1
  {
    hide EncodeBody, IsTrailer, AllChunks, IsHeader, Feed;
    var parser := new HttpParser.Chunked();
    FeedBody(parser.Now(), chunks, digits, ext, fields);
    ExecuteAll(parser, buffers);
    body, completions, errno := parser.body, parser.completions, parser.errno;
    assert [] + Payload(chunks) == Payload(chunks);
  }

  /** Every body of known length, cut into buffers in any way, is delivered
      exactly and completes exactly once. */
  method ReceiveIdentity(data: seq<Byte>, buffers: seq<seq<Byte>>)
    returns (body: seq<Byte>, completions: nat, errno: Errno)
    requires 0 < |data| < ULLONG_MAX && NoEmptyBuffer(buffers) && Joined(buffers) == data
    ensures errno == Ok && body == data && completions == 1
  {
    var parser := new HttpParser.Identity(|data|);
    FeedIdentity(parser.Now(), data);
    ExecuteAll(parser, buffers);
    body, completions, errno := parser.body, parser.completions, parser.errno;
  }

  // ----- A body written out -----

  function Ascii(text: string): (bytes: seq<Byte>)
    ensures |bytes| == |text| && forall i :: 0 <= i < |text| && text[i] as int < 128 ==> bytes[i] == text[i] as int
  {
    seq(|text|, i requires 0 <= i < |text| => text[i] as int % 256)
  }

  lemma AsciiConcat(s: string, t: string)
    ensures Ascii(s + t) == Ascii(s) + Ascii(t)
  {
  }

  lemma KnownChunk()
    ensures
      var c := Chunk(Ascii("0a"), Ascii(";x"), Ascii("0123456789"));
      IsChunk(c) && EncodeChunk(c) == Ascii("0a;x\r\n0123456789\r\n")
  {
    var c := Chunk(Ascii("0a"), Ascii(";x"), Ascii("0123456789"));
    assert c.digits[..1] == Ascii("0") && Writes(Ascii("0"), 0) && Writes(c.digits, 10);
    assert "0a;x\r\n0123456789\r\n" == "0a;x\r\n" + "0123456789" + "\r\n";
    AsciiConcat("0a;x\r\n" + "0123456789", "\r\n");
    AsciiConcat("0a;x\r\n", "0123456789");
    assert Ascii("0a;x\r\n") == EncodeHeader(c.digits, c.ext) && Ascii("\r\n") == [CR, LF];
  }

  lemma KnownTrailer()
    ensures
      var f := Field(Ascii("ETag"), Ascii(" 1"));
      IsTrailer([f]) && EncodeFields([f]) == Ascii("ETag: 1\r\n")
  {
    var f := Field(Ascii("ETag"), Ascii(" 1"));
    assert [f][..0] == [];
    assert EncodeFields([f]) == EncodeField(f) == Ascii("ETag: 1\r\n");
  }

  lemma KnownEnd()
    ensures Ascii("0\r\n") == EncodeHeader(Ascii("0"), []) && Ascii("\r\n") == [CR, LF] && IsHeader(Ascii("0"), [], 0)
  {
  }

  lemma FourParts(a: string, b: string, c: string, d: string)
    ensures Ascii(a + b + c + d) == Ascii(a) + Ascii(b) + Ascii(c) + Ascii(d)
  {
    hide Ascii;
    AsciiConcat(a + b + c, d);
    AsciiConcat(a + b, c);
    AsciiConcat(a, b);
  }

  const KNOWN_BODY := "0a;x\r\n0123456789\r\n" + "0\r\n" + "ETag: 1\r\n" + "\r\n"

  /** A body with an extension, a leading zero and a trailer, written out. */
  lemma BodyWrittenOut()
    ensures
      var end := Feed(Machine(ChunkSizeStart, 0, 0, Ok, [], 0), Ascii(KNOWN_BODY));
      end.errno == Ok && end.body == Ascii("0123456789") && end.completions == 1
  {
    hide Feed, IsChunk, EncodeChunk, EncodeHeader, IsHeader, IsTrailer, EncodeFields, Ascii;
    var c, f := Chunk(Ascii("0a"), Ascii(";x"), Ascii("0123456789")), Field(Ascii("ETag"), Ascii(" 1"));
    KnownChunk();
    KnownTrailer();
    KnownEnd();
    FourParts("0a;x\r\n0123456789\r\n", "0\r\n", "ETag: 1\r\n", "\r\n");
    OneChunk(c);
    FeedBody(Machine(ChunkSizeStart, 0, 0, Ok, [], 0), [c], Ascii("0"), [], [f]);
  }

  lemma OneChunk(c: Chunk)
    ensures EncodeChunks([c]) == EncodeChunk(c) && Payload([c]) == c.data
  {
    assert [c][..0] == [];
  }
}
