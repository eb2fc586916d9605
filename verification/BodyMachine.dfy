/** The body states of Crow's HTTP parser, one byte at a time: the specification
    that the buffered parser in `BodyParser` is proved against. */
module BodyMachine {
  import opened Bytes

  const CR: Byte := 13
  const LF: Byte := 10
  const SPACE: Byte := 32
  const SEMICOLON: Byte := 59

  const ULLONG_MAX := 0xffff_ffff_ffff_ffff
  const MAX_HEADER_SIZE := 80 * 1024

  datatype BodyState =
    | ChunkSizeStart | ChunkSize | ChunkParameters | ChunkSizeAlmostDone
    | HeaderFieldStart | HeaderField(matched: nat) | HeaderValueDiscardWs | DiscardWsAlmostDone | DiscardLws
    | HeaderValue | HeaderAlmostDone | HeaderValueLws | HeadersAlmostDone
    | ChunkData | ChunkDataAlmostDone | ChunkDataDone
    | BodyIdentity | MessageDone

  datatype Errno =
    | Ok | InvalidChunkSize | InvalidContentLength | HeaderOverflow | Strict | InvalidEofState
    | InvalidHeaderToken | LfExpected
    | TrailerField // a Content-Length field in the trailer: outside this model

  /** The parser fields the body states use, the bytes passed to `on_body` so
      far and the number of `on_message_complete` calls. */
  datatype Machine = Machine(
    state: BodyState, contentLength: nat, nread: nat, errno: Errno, body: seq<Byte>, completions: nat)

  /** The states `CROW_PARSING_HEADER` counts towards the header size. */
  predicate CountsAsHeader(s: BodyState) {
    s.ChunkSizeStart? || s.ChunkSize? || s.ChunkParameters? || s.ChunkSizeAlmostDone?
    || InField(s) || s.HeadersAlmostDone?
  }

  /** In a trailer field, or where one may begin. */
  predicate InField(s: BodyState) {
    s.HeaderFieldStart? || s.HeaderField? || s.HeaderValueDiscardWs? || s.DiscardWsAlmostDone? || s.DiscardLws?
    || s.HeaderValue? || s.HeaderAlmostDone? || s.HeaderValueLws?
  }

  const TAB: Byte := 9
  const COLON: Byte := 58
  const HYPHEN: Byte := 45

  predicate IsBlank(ch: Byte) {
    ch == SPACE || ch == TAB
  }

  predicate IsLetter(ch: Byte) {
    65 <= ch <= 90 || 97 <= ch <= 122
  }

  /** The `tokens` table: the characters of a field name. */
  predicate IsToken(ch: Byte) {
    IsLetter(ch) || 48 <= ch <= 57 || ch == 33 || 35 <= ch <= 39 || ch == 42 || ch == 43 || ch == HYPHEN || ch == 46
    || 94 <= ch <= 96 || ch == 124 || ch == 126
  }

  function Lower(ch: Byte): Byte {
    if 65 <= ch <= 90 then ch + 32 else ch
  }

  /** `CROW_IS_HEADER_CHAR`. */
  predicate IsHeaderChar(ch: Byte) {
    ch == CR || ch == LF || ch == TAB || (ch > 31 && ch != 127)
  }

  /** "content-length". */
  const CONTENT_LENGTH: seq<Byte> := [99, 111, 110, 116, 101, 110, 116, 45, 108, 101, 110, 103, 116, 104]

  /** No longer a beginning of that name. */
  const GENERAL := 15

  /** How much of it the name matches after one more character. */
  function Match(matched: nat, ch: Byte): nat {
    if matched < 14 && Lower(ch) == CONTENT_LENGTH[matched] then matched + 1 else GENERAL
  }

  /** The first byte of a field or of the end of the trailer. */
  function FieldStart(m: Machine, ch: Byte): Machine {
    if ch == CR then m.(state := HeadersAlmostDone)
    else if ch == LF then m.(state := HeadersAlmostDone, completions := m.completions + 1)
    else if IsToken(ch) then m.(state := HeaderField(Match(0, ch)))
    else m.(errno := InvalidHeaderToken)
  }

  /** One byte of a trailer field. */
  function FieldStep(m: Machine, ch: Byte): Machine
    requires InField(m.state)
  {
    match m.state
    case HeaderFieldStart => FieldStart(m, ch)
    case HeaderField(k) =>
      if IsToken(ch) then m.(state := HeaderField(Match(k, ch)))
      else if ch == COLON then if k == 14 then m.(errno := TrailerField) else m.(state := HeaderValueDiscardWs)
      else m.(errno := InvalidHeaderToken)
    case HeaderValueDiscardWs =>
      if IsBlank(ch) then m
      else if ch == CR then m.(state := DiscardWsAlmostDone)
      else if ch == LF then m.(state := DiscardLws)
      else m.(state := HeaderValue)
    case DiscardWsAlmostDone =>
      if ch != LF then m.(errno := Strict) else m.(state := DiscardLws)
    case DiscardLws =>
      if IsBlank(ch) then m.(state := HeaderValueDiscardWs) else FieldStart(m, ch)
    case HeaderValue =>
      if ch == CR then m.(state := HeaderAlmostDone)
      else if ch == LF then m.(state := HeaderValueLws)
      else if !IsHeaderChar(ch) then m.(errno := InvalidHeaderToken)
      else m
    case HeaderAlmostDone =>
      if ch != LF then m.(errno := LfExpected) else m.(state := HeaderValueLws)
    case HeaderValueLws =>
      if IsBlank(ch) then m.(state := HeaderValue) else FieldStart(m, ch)
  }

  /** The `unhex` table; -1 for anything but a hexadecimal digit. */
  function Unhex(ch: Byte): (v: int)
    ensures -1 <= v < 16
  {
    if 48 <= ch <= 57 then ch - 48
    else if 65 <= ch <= 70 then ch - 55
    else if 97 <= ch <= 102 then ch - 87
    else -1
  }

  /** One byte in a chunk-header state. */
  function HeaderStep(m: Machine, ch: Byte): Machine
    requires CountsAsHeader(m.state)
  {
    if InField(m.state) then FieldStep(m, ch) else
    match m.state
    case ChunkSizeStart =>
      if Unhex(ch) == -1 then m.(errno := InvalidChunkSize)
      else m.(contentLength := Unhex(ch), state := ChunkSize)
    case ChunkSize =>
      if ch == CR then m.(state := ChunkSizeAlmostDone)
      else if Unhex(ch) == -1 then
        if ch == SEMICOLON || ch == SPACE then m.(state := ChunkParameters) else m.(errno := InvalidChunkSize)
      else if (ULLONG_MAX - 16) / 16 < m.contentLength then m.(errno := InvalidContentLength)
      else m.(contentLength := 16 * m.contentLength + Unhex(ch))
    case ChunkParameters =>
      if ch == CR then m.(state := ChunkSizeAlmostDone) else m
    case ChunkSizeAlmostDone =>
      if ch != LF then m.(errno := Strict)
      else m.(nread := 0, state := if m.contentLength == 0 then HeaderFieldStart else ChunkData)
    case HeadersAlmostDone =>
      if ch != LF then m.(errno := Strict) else m.(completions := m.completions + 1)
  }

  /** One byte of input. After an error nothing changes any more. */
  function Step(m: Machine, ch: Byte): Machine {
    if m.errno != Ok then m
    else if CountsAsHeader(m.state) then
      if m.nread + 1 > MAX_HEADER_SIZE then m.(nread := m.nread + 1, errno := HeaderOverflow)
      else HeaderStep(m.(nread := m.nread + 1), ch)
    else
      match m.state
      case ChunkData =>
        var left := if m.contentLength == 0 then 0 else m.contentLength - 1;
        m.(contentLength := left, body := m.body + [ch], state := if left == 0 then ChunkDataAlmostDone else ChunkData)
      case ChunkDataAlmostDone =>
        if ch != CR then m.(errno := Strict) else m.(state := ChunkDataDone)
      case ChunkDataDone =>
        if ch != LF then m.(errno := Strict) else m.(nread := 0, state := ChunkSizeStart)
      case BodyIdentity =>
        var left := if m.contentLength == 0 then 0 else m.contentLength - 1;
        if left == 0 then
          m.(contentLength := 0, body := m.body + [ch], state := MessageDone, completions := m.completions + 1)
        else m.(contentLength := left, body := m.body + [ch])
      case MessageDone => m.(completions := m.completions + 1)
  }

  function Feed(m: Machine, data: seq<Byte>): Machine {
    if data == [] then m else Step(Feed(m, data[..|data| - 1]), data[|data| - 1])
  }

  /** What the parser's internal asserts rely on. */
  ghost predicate Sound(m: Machine) {
    && m.contentLength <= ULLONG_MAX
    && (m.errno == Ok && m.state.ChunkSizeStart? ==> m.nread == 0)
    && (m.state.ChunkData? || m.state.BodyIdentity? ==> 0 < m.contentLength < ULLONG_MAX)
    && (m.state.ChunkDataAlmostDone? ==> m.contentLength == 0)
    && ((m.state.ChunkSize? || m.state.ChunkParameters? || m.state.ChunkSizeAlmostDone?) ==> m.contentLength < ULLONG_MAX)
  }

  lemma StepSound(m: Machine, ch: Byte)
    requires Sound(m)
    ensures Sound(Step(m, ch))
    ensures m.completions <= Step(m, ch).completions && m.body <= Step(m, ch).body
  {
    hide FieldStep;
    if InField(m.state) {
      FieldStepSound(m.(nread := m.nread + 1), ch);
    }
  }

  /** A trailer field touches neither the body nor the chunk size. */
  lemma FieldStepSound(m: Machine, ch: Byte)
    requires InField(m.state)
    ensures
      var n := FieldStep(m, ch);
      && (InField(n.state) || n.state.HeadersAlmostDone?) && m.completions <= n.completions
      && n.body == m.body && n.contentLength == m.contentLength && n.nread == m.nread
  {
  }

  lemma {:induction false} FeedSound(m: Machine, data: seq<Byte>)
    requires Sound(m)
    ensures Sound(Feed(m, data))
    ensures m.completions <= Feed(m, data).completions && m.body <= Feed(m, data).body
  {
    if data != [] {
      FeedSound(m, data[..|data| - 1]);
      StepSound(Feed(m, data[..|data| - 1]), data[|data| - 1]);
    }
  }

  lemma {:induction false} FeedConcat(m: Machine, a: seq<Byte>, b: seq<Byte>)
    ensures Feed(m, a + b) == Feed(Feed(m, a), b)
  {
    hide Step;
    if b == [] {
      assert a + b == a;
    } else {
      FeedConcat(m, a, b[..|b| - 1]);
      assert (a + b)[..|a + b| - 1] == a + b[..|b| - 1];
    }
  }

  lemma FeedOne(m: Machine, ch: Byte)
    ensures Feed(m, [ch]) == Step(m, ch)
  {
    assert [ch][..0] == [];
  }

  lemma {:induction false} FeedStuck(m: Machine, data: seq<Byte>)
    requires m.errno != Ok
    ensures Feed(m, data) == m
  {
    if data != [] {
      FeedStuck(m, data[..|data| - 1]);
    }
  }

  lemma FeedLast(m: Machine, data: seq<Byte>)
    requires data != []
    ensures Feed(m, data) == Step(Feed(m, data[..|data| - 1]), data[|data| - 1])
    ensures |data| == 1 ==> Feed(m, data[..|data| - 1]) == m
  {
    hide Step;
  }

  /** One data byte of a chunk or of a body of known length. */
  lemma DataStep(m: Machine, ch: Byte)
    requires m.errno == Ok && m.contentLength > 0
    ensures m.state.ChunkData? ==> Step(m, ch) == m.(
      contentLength := m.contentLength - 1, body := m.body + [ch],
      state := if m.contentLength == 1 then ChunkDataAlmostDone else ChunkData)
    ensures m.state.BodyIdentity? ==> Step(m, ch) == m.(
      contentLength := m.contentLength - 1, body := m.body + [ch],
      state := if m.contentLength == 1 then MessageDone else BodyIdentity,
      completions := m.completions + if m.contentLength == 1 then 1 else 0)
  {
    hide HeaderStep;
  }

  lemma BodyGrows(body: seq<Byte>, data: seq<Byte>)
    requires data != []
    ensures body + data[..|data| - 1] + [data[|data| - 1]] == body + data
    ensures |data| == 1 ==> body + data[..|data| - 1] == body
  {
  }

  /** A run of data bytes inside one chunk, taken at once. */
  lemma {:induction false} FeedChunkData(m: Machine, data: seq<Byte>)
    requires m.errno == Ok && m.state.ChunkData? && 0 < |data| <= m.contentLength
    ensures Feed(m, data) == m.(
      contentLength := m.contentLength - |data|, body := m.body + data,
      state := if |data| == m.contentLength then ChunkDataAlmostDone else ChunkData)
  {
    hide Feed, Step;
    var front := data[..|data| - 1];
    FeedLast(m, data);
    BodyGrows(m.body, data);
    if |data| > 1 {
      FeedChunkData(m, front);
    }
    DataStep(Feed(m, front), data[|data| - 1]);
  }

  /** The same for a body of known length. */
  lemma {:induction false} FeedIdentity(m: Machine, data: seq<Byte>)
    requires m.errno == Ok && m.state.BodyIdentity? && 0 < |data| <= m.contentLength
    ensures Feed(m, data) == m.(
      contentLength := m.contentLength - |data|, body := m.body + data,
      state := if |data| == m.contentLength then MessageDone else BodyIdentity,
      completions := m.completions + if |data| == m.contentLength then 1 else 0)
  {
    hide Feed, Step;
    var front := data[..|data| - 1];
    FeedLast(m, data);
    BodyGrows(m.body, data);
    if |data| > 1 {
      FeedIdentity(m, front);
    }
    DataStep(Feed(m, front), data[|data| - 1]);
  }
}
