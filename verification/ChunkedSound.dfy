/** Whatever bytes the parser is given: as long as it reports no error, what it has
    read is well-formed chunks and the beginning of one more, and what it has
    delivered is their data. */
module ChunkedSound {
  import opened Bytes
  import opened BodyMachine
  import opened ChunkedBody

  /** The part of the current chunk that has been read. */
  datatype Open = Open(digits: seq<Byte>, ext: seq<Byte>, part: seq<Byte>)

  /** The bytes read behind the whole chunks, and what they have to be like, in
      each state. */
  ghost predicate Reading(m: Machine, bytes: seq<Byte>, o: Open) {
    var size := m.contentLength;
    match m.state
    case ChunkSizeStart => bytes == [] && o.part == [] && m.nread == 0
    case ChunkSize =>
      bytes == o.digits && Writes(o.digits, size) && size <= ULLONG_MAX - 16 && m.nread == |o.digits| && o.part == []
    case ChunkParameters =>
      && bytes == o.digits + o.ext && Writes(o.digits, size) && size <= ULLONG_MAX - 16
      && o.ext != [] && IsExtension(o.ext) && m.nread == |o.digits| + |o.ext| && o.part == []
    case ChunkSizeAlmostDone =>
      && bytes == o.digits + o.ext + [CR] && Writes(o.digits, size) && size <= ULLONG_MAX - 16
      && IsExtension(o.ext) && m.nread == |o.digits| + |o.ext| + 1 && o.part == []
    case ChunkData =>
      bytes == EncodeHeader(o.digits, o.ext) + o.part && size > 0 && IsHeader(o.digits, o.ext, |o.part| + size)
    case ChunkDataAlmostDone =>
      bytes == EncodeHeader(o.digits, o.ext) + o.part && o.part != [] && IsHeader(o.digits, o.ext, |o.part|)
    case ChunkDataDone =>
      bytes == EncodeHeader(o.digits, o.ext) + o.part + [CR] && o.part != [] && IsHeader(o.digits, o.ext, |o.part|)
    case _ =>
      && (InField(m.state) || m.state.HeadersAlmostDone?)
      && IsHeader(o.digits, o.ext, 0) && EncodeHeader(o.digits, o.ext) <= bytes && o.part == []
      && (m.state.HeaderFieldStart? && m.nread == 0 ==> bytes == EncodeHeader(o.digits, o.ext))
  }

  /** `data` is whole chunks and an open one, and their data has been delivered. */
  ghost predicate ReadSoFar(m0: Machine, m: Machine, data: seq<Byte>, chunks: seq<Chunk>, o: Open) {
    && AllChunks(chunks) && EncodeChunks(chunks) <= data && Reading(m, data[|EncodeChunks(chunks)|..], o)
    && m.body == m0.body + Payload(chunks) + o.part && m.nread <= MAX_HEADER_SIZE
  }

  // ----- One byte -----

  /** What the machine does with a byte of a size line, when it reports no error. */
  lemma SizeStep(m: Machine, ch: Byte)
    requires m.errno == Ok && Step(m, ch).errno == Ok && m.nread <= MAX_HEADER_SIZE
    ensures
      var n, next := m.nread + 1, Step(m, ch);
      && (m.state.ChunkSizeStart? ==>
            Unhex(ch) != -1 && next == m.(state := ChunkSize, contentLength := Unhex(ch), nread := n))
      && (m.state.ChunkSize? && ch == CR ==> next == m.(state := ChunkSizeAlmostDone, nread := n))
      && (m.state.ChunkSize? && ch != CR && Unhex(ch) == -1 ==>
            (ch == SEMICOLON || ch == SPACE) && next == m.(state := ChunkParameters, nread := n))
      && (m.state.ChunkSize? && ch != CR && Unhex(ch) != -1 ==>
            && 16 * m.contentLength + Unhex(ch) <= ULLONG_MAX - 16
            && next == m.(contentLength := 16 * m.contentLength + Unhex(ch), nread := n))
      && (m.state.ChunkParameters? ==>
            next == m.(state := if ch == CR then ChunkSizeAlmostDone else ChunkParameters, nread := n))
      && (m.state.ChunkSizeAlmostDone? ==>
            && ch == LF && n <= MAX_HEADER_SIZE
            && next == m.(nread := 0, state := if m.contentLength == 0 then HeaderFieldStart else ChunkData))
  {
    hide FieldStep, Unhex;
  }

  /** A line that begins. */
  lemma StartByte(m: Machine, bytes: seq<Byte>, o: Open, ch: Byte) returns (p: Open)
    requires m.errno == Ok && Reading(m, bytes, o) && Step(m, ch).errno == Ok && m.state.ChunkSizeStart?
    ensures Reading(Step(m, ch), bytes + [ch], p) && p.part == o.part && Step(m, ch).body == m.body
  {
    hide Step, Unhex, IsHexDigit;
    SizeStep(m, ch);
    UnhexIff(ch);
    p := Open([ch], [], []);
    assert bytes + [ch] == [ch];
    assert IsHexDigit(ch, Unhex(ch));
  }

  /** A line of digits so far. */
  lemma DigitByte(m: Machine, bytes: seq<Byte>, o: Open, ch: Byte) returns (p: Open)
    requires m.errno == Ok && Reading(m, bytes, o) && Step(m, ch).errno == Ok && m.state.ChunkSize? && m.nread <= MAX_HEADER_SIZE
    ensures Reading(Step(m, ch), bytes + [ch], p) && p.part == o.part && Step(m, ch).body == m.body
  {
    hide Step, Unhex, IsHexDigit, Writes;
    SizeStep(m, ch);
    UnhexIff(ch);
    if ch == CR {
      p := o.(ext := []);
      assert o.digits + [] == o.digits;
    } else if Unhex(ch) != -1 {
      p := o.(digits := o.digits + [ch]);
      DigitMore(o.digits, m.contentLength, ch, Unhex(ch));
    } else {
      p := o.(ext := [ch]);
    }
  }

  lemma {:induction false} DigitMore(digits: seq<Byte>, n: nat, ch: Byte, v: nat)
    requires Writes(digits, n) && v < 16 && IsHexDigit(ch, v)
    ensures Writes(digits + [ch], 16 * n + v)
  {
    hide IsHexDigit, Writes;
    var all, m := digits + [ch], 16 * n + v;
    SplitDigit(n, v);
    assert all[..|digits|] == digits && all[|all| - 1] == ch;
    LastDigit(digits, n);
    LastDigit(all, m);
  }

  lemma SplitDigit(n: nat, v: nat)
    requires v < 16
    ensures (16 * n + v) % 16 == v && (16 * n + v) / 16 == n
  {
  }

  lemma {:induction false} LastDigit(digits: seq<Byte>, n: nat)
    ensures Writes(digits, n) ==> digits != []
    ensures |digits| > 1 ==>
      (Writes(digits, n) <==> IsHexDigit(digits[|digits| - 1], n % 16) && Writes(digits[..|digits| - 1], n / 16))
  {
    hide IsHexDigit;
  }

  /** A line with an extension, or its end. */
  lemma LineByte(m: Machine, bytes: seq<Byte>, o: Open, ch: Byte) returns (p: Open)
    requires m.errno == Ok && Reading(m, bytes, o) && Step(m, ch).errno == Ok && m.nread <= MAX_HEADER_SIZE
    requires m.state.ChunkParameters? || m.state.ChunkSizeAlmostDone?
    ensures Reading(Step(m, ch), bytes + [ch], p) && p.part == o.part && Step(m, ch).body == m.body
  {
    hide Step, Unhex, IsHexDigit, Writes;
    SizeStep(m, ch);
    p := o;
    if m.state.ChunkParameters? {
      if ch != CR {
        p := o.(ext := o.ext + [ch]);
        assert o.digits + o.ext + [ch] == o.digits + (o.ext + [ch]);
      }
    } else {
      assert o.digits + o.ext + [CR] + [LF] == EncodeHeader(o.digits, o.ext);
      assert EncodeHeader(o.digits, o.ext) + [] == EncodeHeader(o.digits, o.ext);
    }
  }

  /** What the machine does with a byte of a chunk's data, or of the line end behind it. */
  lemma DataStep(m: Machine, ch: Byte)
    requires m.errno == Ok && Step(m, ch).errno == Ok && (m.state.ChunkData? ==> m.contentLength > 0)
    ensures
      var next := Step(m, ch);
      && (m.state.ChunkData? ==> next == m.(
            contentLength := m.contentLength - 1, body := m.body + [ch],
            state := if m.contentLength == 1 then ChunkDataAlmostDone else ChunkData))
      && (m.state.ChunkDataAlmostDone? ==> ch == CR && next == m.(state := ChunkDataDone))
      && (m.state.ChunkDataDone? ==> ch == LF && next == m.(nread := 0, state := ChunkSizeStart))
  {
    hide HeaderStep;
  }

  lemma DataByte(m: Machine, bytes: seq<Byte>, o: Open, ch: Byte) returns (p: Open)
    requires m.errno == Ok && Reading(m, bytes, o) && Step(m, ch).errno == Ok
    requires m.state.ChunkData? || m.state.ChunkDataAlmostDone?
    ensures Reading(Step(m, ch), bytes + [ch], p)
    ensures if m.state.ChunkData? then p.part == o.part + [ch] && Step(m, ch).body == m.body + [ch]
      else p.part == o.part && Step(m, ch).body == m.body
  {
    hide Step, EncodeHeader, IsHeader;
    DataStep(m, ch);
    p := o;
    if m.state.ChunkData? {
      p := o.(part := o.part + [ch]);
      assert EncodeHeader(o.digits, o.ext) + o.part + [ch] == EncodeHeader(o.digits, o.ext) + (o.part + [ch]);
    }
  }

  /** The end of a chunk. */
  lemma ChunkEnds(m: Machine, bytes: seq<Byte>, o: Open, ch: Byte, chunks: seq<Chunk>)
    requires m.errno == Ok && Reading(m, bytes, o) && Step(m, ch).errno == Ok && m.state.ChunkDataDone? && AllChunks(chunks)
    ensures
      var all := chunks + [Chunk(o.digits, o.ext, o.part)];
      && AllChunks(all) && EncodeChunks(all) == EncodeChunks(chunks) + (bytes + [ch])
      && Payload(all) == Payload(chunks) + o.part
      && Reading(Step(m, ch), [], Open([], [], [])) && Step(m, ch).body == m.body
  {
    hide Step, EncodeHeader, IsHeader;
    DataStep(m, ch);
    var c := Chunk(o.digits, o.ext, o.part);
    var all := chunks + [c];
    assert all[..|chunks|] == chunks;
    assert EncodeHeader(o.digits, o.ext) + o.part + [CR] + [LF] == EncodeChunk(c);
  }

  /** What the machine does in the trailer. */
  lemma TrailerStep(m: Machine, ch: Byte)
    requires m.errno == Ok && Step(m, ch).errno == Ok && (InField(m.state) || m.state.HeadersAlmostDone?)
    ensures
      var next := Step(m, ch);
      (InField(next.state) || next.state.HeadersAlmostDone?) && next.body == m.body && next.nread == m.nread + 1 <= MAX_HEADER_SIZE
  {
    hide FieldStep;
    if InField(m.state) {
      FieldStepSound(m.(nread := m.nread + 1), ch);
    }
  }

  lemma TrailerByte(m: Machine, bytes: seq<Byte>, o: Open, ch: Byte)
    requires m.errno == Ok && Reading(m, bytes, o) && Step(m, ch).errno == Ok
    requires InField(m.state) || m.state.HeadersAlmostDone?
    ensures Reading(Step(m, ch), bytes + [ch], o) && Step(m, ch).body == m.body
  {
    hide Step, IsHeader;
    TrailerStep(m, ch);
  }

  // ----- Any bytes -----

  lemma Small(m: Machine, ch: Byte)
    requires m.errno == Ok && Step(m, ch).errno == Ok && m.nread <= MAX_HEADER_SIZE
    ensures Step(m, ch).nread <= MAX_HEADER_SIZE
  {
    hide FieldStep;
    if InField(m.state) {
      FieldStepSound(m.(nread := m.nread + 1), ch);
    }
  }

  /** One more byte, inside a chunk or in the trailer. */
  lemma OpenGrows(m0: Machine, m: Machine, data: seq<Byte>, chunks: seq<Chunk>, o: Open, ch: Byte) returns (p: Open)
    requires m.errno == Ok && ReadSoFar(m0, m, data, chunks, o) && Step(m, ch).errno == Ok && !m.state.ChunkDataDone?
    ensures ReadSoFar(m0, Step(m, ch), data + [ch], chunks, p)
  {
    hide Step, Reading, AllChunks, EncodeChunks, Payload;
    var k := |EncodeChunks(chunks)|;
    var bytes := data[k..];
    Small(m, ch);
    StatesRead(m, bytes, o);
    if m.state.ChunkSizeStart? {
      p := StartByte(m, bytes, o, ch);
    } else if m.state.ChunkSize? {
      p := DigitByte(m, bytes, o, ch);
    } else if m.state.ChunkParameters? || m.state.ChunkSizeAlmostDone? {
      p := LineByte(m, bytes, o, ch);
    } else if m.state.ChunkData? || m.state.ChunkDataAlmostDone? {
      p := DataByte(m, bytes, o, ch);
    } else {
      p := o;
      TrailerByte(m, bytes, o, ch);
    }
    assert (data + [ch])[k..] == bytes + [ch] && (data + [ch])[..k] == data[..k];
    assert m.body + [ch] == m0.body + Payload(chunks) + (o.part + [ch]);
  }

  lemma StatesRead(m: Machine, bytes: seq<Byte>, o: Open)
    requires Reading(m, bytes, o)
    ensures !m.state.BodyIdentity? && !m.state.MessageDone?
  {
  }

  lemma ChunkMore(m0: Machine, m: Machine, data: seq<Byte>, chunks: seq<Chunk>, o: Open, ch: Byte)
    requires m.errno == Ok && ReadSoFar(m0, m, data, chunks, o) && Step(m, ch).errno == Ok && m.state.ChunkDataDone?
    ensures ReadSoFar(m0, Step(m, ch), data + [ch], chunks + [Chunk(o.digits, o.ext, o.part)], Open([], [], []))
  {
    hide Step, Reading, AllChunks, EncodeChunks, Payload;
    var k := |EncodeChunks(chunks)|;
    Small(m, ch);
    ChunkEnds(m, data[k..], o, ch, chunks);
    var all := chunks + [Chunk(o.digits, o.ext, o.part)];
    assert data + [ch] == EncodeChunks(chunks) + (data[k..] + [ch]) == EncodeChunks(all);
    assert (data + [ch])[|EncodeChunks(all)|..] == [];
    assert m.body == m0.body + (Payload(chunks) + o.part) + [];
  }

  /** As long as there is no error: the bytes read are well-formed chunks and a
      beginning of one more or of the trailer, and exactly their data has been delivered. */
  lemma {:induction false} WellFormedSoFar(m0: Machine, data: seq<Byte>) returns (chunks: seq<Chunk>, o: Open)
    requires BetweenChunks(m0) && Feed(m0, data).errno == Ok
    ensures ReadSoFar(m0, Feed(m0, data), data, chunks, o)
  {
    hide Step, Reading;
    if data == [] {
      chunks, o := [], Open([], [], []);
      NothingRead(m0);
    } else {
      var front, ch := data[..|data| - 1], data[|data| - 1];
      var m := Feed(m0, front);
      assert data == front + [ch];
      if m.errno != Ok {
        FeedStuck(m, [ch]);
        FeedOne(m, ch);
      }
      var cs, p := WellFormedSoFar(m0, front);
      if m.state.ChunkDataDone? {
        ChunkMore(m0, m, front, cs, p, ch);
        chunks, o := cs + [Chunk(p.digits, p.ext, p.part)], Open([], [], []);
      } else {
        chunks := cs;
        o := OpenGrows(m0, m, front, cs, p, ch);
      }
    }
  }

  lemma NothingRead(m0: Machine)
    requires BetweenChunks(m0)
    ensures ReadSoFar(m0, m0, [], [], Open([], [], []))
  {
    assert m0.body == m0.body + [] + [];
  }

  /** The parser stands behind a last chunk exactly if it has read whole chunks
      and a last one. */
  lemma ChunksIff(m0: Machine, data: seq<Byte>)
    requires BetweenChunks(m0)
    ensures
      var m := Feed(m0, data);
      m.errno == Ok && m.state.HeaderFieldStart? && m.nread == 0 <==>
        exists chunks, digits, ext :: AllChunks(chunks) && IsHeader(digits, ext, 0)
          && data == EncodeChunks(chunks) + EncodeHeader(digits, ext)
  {
    hide Feed, Step, AllChunks, IsHeader, EncodeChunks, EncodeHeader;
    var m := Feed(m0, data);
    if m.errno == Ok && m.state.HeaderFieldStart? && m.nread == 0 {
      var chunks, o := WellFormedSoFar(m0, data);
      assert data == EncodeChunks(chunks) + data[|EncodeChunks(chunks)|..];
    }
    forall chunks, digits, ext | AllChunks(chunks) && IsHeader(digits, ext, 0)
        && data == EncodeChunks(chunks) + EncodeHeader(digits, ext)
      ensures m.errno == Ok && m.state.HeaderFieldStart? && m.nread == 0
    {
      FeedChunks(m0, chunks);
      FeedConcat(m0, EncodeChunks(chunks), EncodeHeader(digits, ext));
      FeedHeader(Feed(m0, EncodeChunks(chunks)), digits, ext, 0);
    }
  }

  /** Whatever the bytes: up to some point they were well formed so far, the next
      byte is an error or there is none, and nothing was delivered behind it. */
  lemma {:induction false} StopsAtError(m0: Machine, data: seq<Byte>) returns (k: nat)
    requires BetweenChunks(m0)
    ensures k <= |data| && Feed(m0, data[..k]).errno == Ok
    ensures k < |data| ==> Feed(m0, data[..k + 1]).errno != Ok
    ensures Feed(m0, data).body == Feed(m0, data[..k]).body
  {
    hide Step;
    var m := Feed(m0, data);
    if m.errno == Ok {
      k := |data|;
      assert data[..k] == data;
    } else {
      assert data != [];
      var front, ch := data[..|data| - 1], data[|data| - 1];
      k := StopsAtError(m0, front);
      assert front[..k] == data[..k];
      if k < |front| {
        assert front[..k + 1] == data[..k + 1];
        FeedConcat(m0, front[..k + 1], front[k + 1..]);
        assert front == front[..k + 1] + front[k + 1..];
        FeedStuck(Feed(m0, front[..k + 1]), front[k + 1..]);
        FeedStuck(Feed(m0, front), [ch]);
        FeedOne(Feed(m0, front), ch);
      } else {
        assert front[..k] == front && data[..k + 1] == data;
        ErrorKeepsBody(Feed(m0, front), ch);
      }
    }
  }

  lemma ErrorKeepsBody(m: Machine, ch: Byte)
    requires m.errno == Ok && Step(m, ch).errno != Ok
    ensures Step(m, ch).body == m.body
  {
    hide FieldStep;
    if InField(m.state) {
      FieldStepSound(m.(nread := m.nread + 1), ch);
    }
  }

  /** In the trailer: the bytes that a field's name, its end and its value may
      not have. */
  lemma TrailerRefuses(m: Machine, ch: Byte)
    requires m.errno == Ok && m.nread < MAX_HEADER_SIZE
    ensures m.state.HeaderFieldStart? && ch != '\r' as int && ch != '\n' as int && !IsTchar(ch) ==>
      Step(m, ch).errno == InvalidHeaderToken
    ensures m.state.HeaderField? && ch != ':' as int && !IsTchar(ch) ==> Step(m, ch).errno == InvalidHeaderToken
    ensures m.state.HeaderValue? && ch != '\r' as int && ch != '\n' as int && !IsFieldChar(ch) ==>
      Step(m, ch).errno == InvalidHeaderToken
    ensures m.state.HeaderAlmostDone? && ch != '\n' as int ==> Step(m, ch).errno == LfExpected
    ensures m.state.HeadersAlmostDone? && ch != '\n' as int ==> Step(m, ch).errno == Strict
  {
    FieldChars(ch);
    hide IsTchar, IsFieldChar;
  }
}
