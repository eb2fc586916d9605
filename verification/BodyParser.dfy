/** `http_parser_execute` over whole buffers, restricted to the body states: it
    consumes runs of data at once and delivers them through a mark. */
module BodyParser {
  import opened Bytes
  import opened BodyMachine

  function Min(a: nat, b: nat): nat {
    if a < b then a else b
  }

  datatype Mark = Unset | At(pos: nat)

  /** Bytes seen and marked, but not yet passed to `on_body`. */
  function Pending(mark: Mark, data: seq<Byte>, p: nat): seq<Byte>
    requires p <= |data| && (mark.At? ==> mark.pos <= p)
  {
    match mark
    case Unset => []
    case At(pos) => data[pos..p]
  }

  class HttpParser {
    var state: BodyState
    var contentLength: nat
    var nread: nat
    var errno: Errno
    var body: seq<Byte>
    var completions: nat

    /** A parser at the start of a chunked body. */
    constructor Chunked()
      ensures Now() == Machine(ChunkSizeStart, 0, 0, Ok, [], 0)
    {
      state, contentLength, nread, errno, body, completions := ChunkSizeStart, 0, 0, Ok, [], 0;
    }

    /** A parser at the start of a body with a non-zero Content-Length. */
    constructor Identity(length: nat)
      requires 0 < length < ULLONG_MAX
      ensures Now() == Machine(BodyIdentity, length, 0, Ok, [], 0)
    {
      state, contentLength, nread, errno, body, completions := BodyIdentity, length, 0, Ok, [], 0;
    }

    function Now(): Machine
      reads this
    {
      Machine(state, contentLength, nread, errno, body, completions)
    }

    /** The states that read a chunk header or end the message. */
    method HeaderByte(ch: Byte)
      requires CountsAsHeader(state) && Sound(Now().(nread := if state.ChunkSizeStart? then 0 else nread))
      requires state.ChunkSizeStart? ==> nread == 1
      modifies this
      ensures Now() == HeaderStep(old(Now()), ch)
    {
      if InField(state) {
        FieldByte(ch);
        return;
      }
      match state
      case ChunkSizeStart =>
        assert nread == 1;
        var unhexVal := Unhex(ch);
        if unhexVal == -1 {
          errno := InvalidChunkSize;
        } else {
          contentLength := unhexVal;
          state := ChunkSize;
        }
      case ChunkSize =>
        if ch == CR {
          state := ChunkSizeAlmostDone;
        } else {
          var unhexVal := Unhex(ch);
          if unhexVal == -1 {
            if ch == SEMICOLON || ch == SPACE {
              state := ChunkParameters;
            } else {
              errno := InvalidChunkSize;
            }
          } else {
            // The product may wrap in the source; it is used only when it does not.
            var t := (contentLength * 16 + unhexVal) % (ULLONG_MAX + 1);
            if (ULLONG_MAX - 16) / 16 < contentLength {
              errno := InvalidContentLength;
            } else {
              contentLength := t;
            }
          }
        }
      case ChunkParameters =>
        if ch == CR {
          state := ChunkSizeAlmostDone;
        }
      case ChunkSizeAlmostDone =>
        if ch != LF {
          errno := Strict;
        } else {
          nread := 0;
          if contentLength == 0 {
            state := HeaderFieldStart;
          } else {
            state := ChunkData;
          }
        }
      case HeadersAlmostDone =>
        if ch != LF {
          errno := Strict;
        } else {
          completions := completions + 1;
        }
    }

    /** The states that read a trailer field. */
    method FieldByte(ch: Byte)
      requires InField(state)
      modifies `state, `errno, `completions
      ensures Now() == FieldStep(old(Now()), ch)
    {
      match state
      case HeaderFieldStart => StartField(ch);
      case HeaderField(k) =>
        if IsToken(ch) {
          state := HeaderField(Match(k, ch));
        } else if ch == COLON {
          if k == 14 {
            errno := TrailerField;
          } else {
            state := HeaderValueDiscardWs;
          }
        } else {
          errno := InvalidHeaderToken;
        }
      case HeaderValueDiscardWs =>
        if !IsBlank(ch) {
          state := if ch == CR then DiscardWsAlmostDone else if ch == LF then DiscardLws else HeaderValue;
        }
      case DiscardWsAlmostDone =>
        if ch != LF {
          errno := Strict;
        } else {
          state := DiscardLws;
        }
      case DiscardLws =>
        if IsBlank(ch) {
          state := HeaderValueDiscardWs;
        } else {
          StartField(ch);
        }
      case HeaderValue =>
        if ch == CR {
          state := HeaderAlmostDone;
        } else if ch == LF {
          state := HeaderValueLws;
        } else if !IsHeaderChar(ch) {
          errno := InvalidHeaderToken;
        }
      case HeaderAlmostDone =>
        if ch != LF {
          errno := LfExpected;
        } else {
          state := HeaderValueLws;
        }
      case HeaderValueLws =>
        if IsBlank(ch) {
          state := HeaderValue;
        } else {
          StartField(ch);
        }
    }

    method StartField(ch: Byte)
      modifies `state, `errno, `completions
      ensures Now() == FieldStart(old(Now()), ch)
    {
      if ch == CR {
        state := HeadersAlmostDone;
      } else if ch == LF {
        state := HeadersAlmostDone;
        completions := completions + 1;
      } else if IsToken(ch) {
        state := HeaderField(Match(0, ch));
      } else {
        errno := InvalidHeaderToken;
      }
    }

    /** After `p` bytes the parser is where the byte-wise machine is, apart
        from marked bytes it has not delivered yet. */
    ghost predicate Tracks(m0: Machine, data: seq<Byte>, p: nat, mark: Mark)
      reads this
    {
      && p <= |data| && (mark.At? ==> mark.pos <= p && (state.ChunkDataAlmostDone? || p == |data|))
      && errno == Ok && Sound(Now())
      && Now().(body := body + Pending(mark, data, p)) == Feed(m0, data[..p])
    }

    /** The parser has stopped with the machine's error. */
    ghost predicate Failed(m0: Machine, data: seq<Byte>)
      reads this
    {
      errno != Ok && errno == Feed(m0, data).errno && body <= Feed(m0, data).body && Sound(Now())
    }

    /** One pass of the parser's loop in a state that counts as header. */
    method HeaderPass(data: seq<Byte>, p: nat, ghost m0: Machine) returns (next: nat)
      requires p < |data| && Tracks(m0, data, p, Unset) && CountsAsHeader(state)
      modifies this
      ensures if errno == Ok then next == p + 1 && Tracks(m0, data, next, Unset) else Failed(m0, data)
    {
      hide HeaderStep;
      var ch := data[p];
      assert data[..p + 1] == data[..p] + [ch] && data[..p + 1][..p] == data[..p];
      ghost var before := Now();
      assert before == Feed(m0, data[..p]) by { assert body + [] == body; }
      StepSound(before, ch);
      next := p;
      nread := nread + 1;
      if nread > MAX_HEADER_SIZE {
        errno := HeaderOverflow;
      } else {
        HeaderByte(ch);
      }
      assert Now() == Step(before, ch) == Feed(m0, data[..p + 1]);
      if errno != Ok {
        StuckAfter(m0, data, p + 1);
        return;
      }
      next := p + 1;
      assert body + [] == body;
    }

    /** One pass over body data: as many bytes as the buffer has. */
    method DataPass(data: seq<Byte>, p: nat, ghost m0: Machine) returns (next: nat, mark: Mark)
      requires p < |data| && Tracks(m0, data, p, Unset) && (state.ChunkData? || state.BodyIdentity?)
      modifies this
      ensures p < next && Tracks(m0, data, next, mark)
    {
      hide Feed;
      var toRead := Min(contentLength, |data| - p);
      assert contentLength != 0 && contentLength != ULLONG_MAX;
      assert Now() == Feed(m0, data[..p]) by { assert body + [] == body; }
      RunOfData(m0, data, p, toRead);
      mark := At(p);
      contentLength := contentLength - toRead;
      next := p + toRead;
      if contentLength == 0 {
        if state.ChunkData? {
          state := ChunkDataAlmostDone;
        } else {
          body, mark := body + data[p..next], Unset;
          state := MessageDone;
          completions := completions + 1;
          assert body + [] == body;
        }
      }
    }

    /** One pass in a state that follows data. */
    method TailPass(data: seq<Byte>, p: nat, mark: Mark, ghost m0: Machine) returns (next: nat)
      requires p < |data| && Tracks(m0, data, p, mark)
      requires state.ChunkDataAlmostDone? || state.ChunkDataDone? || state.MessageDone?
      modifies this
      ensures if errno == Ok then next == p + 1 && Tracks(m0, data, next, Unset) else Failed(m0, data)
    {
      hide Feed;
      var ch := data[p];
      ghost var before := Feed(m0, data[..p]);
      StepSound(before, ch);
      FeedNext(m0, data, p);
      next := p;
      if state.ChunkDataAlmostDone? {
        assert contentLength == 0;
        if ch != CR {
          errno := Strict;
          StuckAfter(m0, data, p + 1);
          return;
        }
        state := ChunkDataDone;
        body := body + Pending(mark, data, p);
      } else if state.ChunkDataDone? {
        assert body + [] == body;
        if ch != LF {
          errno := Strict;
          StuckAfter(m0, data, p + 1);
          return;
        }
        nread := 0;
        state := ChunkSizeStart;
      } else {
        assert body + [] == body;
        completions := completions + 1;
      }
      next := p + 1;
      assert body + [] == body;
    }

    /** One call with one buffer. Without an error, however the bytes are cut,
        the parser ends exactly where the byte-wise machine does and has
        delivered the same body; with an error it stops with the same error,
        having delivered part of that body. */
    method Execute(data: seq<Byte>) returns (parsed: nat)
      requires Sound(Now())
      modifies this
      ensures Sound(Now())
      ensures old(errno) != Ok ==> Now() == old(Now()) && parsed == 0
      ensures old(errno) == Ok && data == [] ==> Now() == old(Now()).(errno := InvalidEofState) && parsed == 1
      ensures old(errno) == Ok && data != [] ==>
        var end := Feed(old(Now()), data);
        && errno == end.errno && body <= end.body
        && (errno == Ok ==> Now() == end && parsed == |data|)
    {
      if errno != Ok {
        return 0;
      }
      if |data| == 0 {
        errno := InvalidEofState;
        return 1;
      }
      ghost var m0 := Now();
      var p, mark := 0, Unset;
      assert data[..0] == [] && body + [] == body;
      while p < |data|
        invariant Tracks(m0, data, p, mark)
      {
        if CountsAsHeader(state) {
          p := HeaderPass(data, p, m0);
        } else if state.ChunkData? || state.BodyIdentity? {
          p, mark := DataPass(data, p, m0);
        } else {
          p := TailPass(data, p, mark, m0);
          mark := Unset;
        }
        if errno != Ok {
          return p;
        }
      }
      assert data[..p] == data;
      body := body + Pending(mark, data, p);
      return |data|;
    }
  }

  lemma FeedNext(m0: Machine, data: seq<Byte>, p: nat)
    requires p < |data|
    ensures Feed(m0, data[..p + 1]) == Step(Feed(m0, data[..p]), data[p])
  {
    hide Step;
    assert data[..p + 1][..p] == data[..p];
  }

  /** The byte-wise machine over a run of body data. */
  lemma RunOfData(m0: Machine, data: seq<Byte>, p: nat, n: nat)
    requires p + n <= |data| && n > 0
    requires Feed(m0, data[..p]).errno == Ok
    requires Feed(m0, data[..p]).state.ChunkData? || Feed(m0, data[..p]).state.BodyIdentity?
    requires n <= Feed(m0, data[..p]).contentLength
    ensures
      var m := Feed(m0, data[..p]);
      Feed(m0, data[..p + n]) ==
        if m.state.ChunkData? then
          m.(contentLength := m.contentLength - n, body := m.body + data[p..p + n],
             state := if n == m.contentLength then ChunkDataAlmostDone else ChunkData)
        else
          m.(contentLength := m.contentLength - n, body := m.body + data[p..p + n],
             state := if n == m.contentLength then MessageDone else BodyIdentity,
             completions := m.completions + if n == m.contentLength then 1 else 0)
  {
    var m := Feed(m0, data[..p]);
    assert data[..p + n] == data[..p] + data[p..p + n];
    FeedConcat(m0, data[..p], data[p..p + n]);
    if m.state.ChunkData? {
      FeedChunkData(m, data[p..p + n]);
    } else {
      FeedIdentity(m, data[p..p + n]);
    }
  }

  lemma StuckAfter(m0: Machine, data: seq<Byte>, p: nat)
    requires p <= |data| && Feed(m0, data[..p]).errno != Ok
    ensures Feed(m0, data) == Feed(m0, data[..p])
  {
    assert data == data[..p] + data[p..];
    FeedConcat(m0, data[..p], data[p..]);
    FeedStuck(Feed(m0, data[..p]), data[p..]);
  }
}
