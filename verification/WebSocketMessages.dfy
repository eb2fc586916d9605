/** WebSocket frames and messages as the connection reads them. */
module WebSocketMessages {
  import opened Bytes
  import opened WebSocketFrame
  import opened WebSocketReader

  // ----- Following one frame -----

  /** Between frames. */
  predicate Idle(r: Reader) {
    Sound(r) && r.state.MiniHeader?
  }

  /** The two header bytes of `f` have been read. */
  predicate KnowsHeader(r: Reader, f: Frame) {
    r.Fin() == f.fin && r.Opcode() == f.opcode && r.hasMask == (f.mask != [])
  }

  /** The first `k` bytes of `f` have been read, and more are to come. */
  ghost predicate Midway(r: Reader, f: Frame, k: nat)
    requires IsFrame(f)
  {
    var n, ext := |f.payload|, |ExtendedLength(|f.payload|)|;
    && Sound(r)
    && match r.state
       case MiniHeader => k == 0
       case Len16 => KnowsHeader(r, f) && k == 2 && ext == 2
       case Len64 => KnowsHeader(r, f) && k == 2 && ext == 8
       case Mask => KnowsHeader(r, f) && k == 2 + ext && r.remaining == n
       case Payload =>
         && KnowsHeader(r, f) && PayloadStart(f) <= k < PayloadStart(f) + n
         && (r.hasMask ==> r.mask == f.mask)
         && r.fragment == Wire(f)[PayloadStart(f)..k]
         && r.remaining == n - (k - PayloadStart(f))
  }

  /** The first `k` bytes of the frame `f` have been read, maybe all of them. */
  ghost predicate After(r: Reader, f: Frame, k: nat, before: View)
    requires IsFrame(f)
  {
    if k == |Wire(f)| then Idle(r) && r.view == HandleFrame(before, f) else Midway(r, f, k) && r.view == before
  }

  /** Where the parts of a frame lie on the wire. */
  lemma WireParts(f: Frame)
    requires IsFrame(f)
    ensures
      var w, start := Wire(f), PayloadStart(f);
      && (w[0] >= 128) == f.fin && w[0] % 16 == f.opcode
      && (w[1] >= 128) == (f.mask != []) && w[1] % 128 == LengthCode(|f.payload|)
      && w[2..start - |f.mask|] == ExtendedLength(|f.payload|)
      && w[start - |f.mask|..start] == f.mask
      && w[start..] == XorMask(f.payload, f.mask)
  {
    hide XorMask, ExtendedLength, LengthCode;
    var head := [(if f.fin then 128 else 0) + f.opcode, (if f.mask != [] then 128 else 0) + LengthCode(|f.payload|)];
    var ext, rest := ExtendedLength(|f.payload|), XorMask(f.payload, f.mask);
    assert Wire(f) == head + ext + f.mask + rest;
    WireSplit(head, ext, f.mask, rest);
  }

  lemma WireSplit(head: seq<Byte>, ext: seq<Byte>, mask: seq<Byte>, rest: seq<Byte>)
    ensures
      var w, a, b := head + ext + mask + rest, |head|, |head| + |ext|;
      && w[..a] == head && w[a..b] == ext && w[b..b + |mask|] == mask && w[b + |mask|..] == rest
      && (forall i :: 0 <= i < a ==> w[i] == head[i])
  {
  }

  /** Once the whole payload is there the frame takes effect. */
  lemma HandleFollows(r: Reader, f: Frame)
    requires IsFrame(f) && KnowsHeader(r, f) && |r.mask| == 4 && (r.hasMask ==> r.mask == f.mask) && r.remaining == 0
    requires r.fragment == XorMask(f.payload, f.mask)
    ensures After(Handle(r), f, |Wire(f)|, r.view)
  {
    hide XorMask, Wire, HandlePayload;
    XorMaskTwice(f.payload, f.mask);
  }

  /** Behind the length: to the mask, or without one to the payload. */
  lemma LengthFollows(r: Reader, f: Frame)
    requires IsFrame(f) && KnowsHeader(r, f) && |r.mask| == 4 && r.state.Mask? && r.fragment == [] && r.remaining == |f.payload|
    ensures After(Proceed(r), f, 2 + |ExtendedLength(|f.payload|)|, r.view)
  {
    hide XorMask, Wire, HandlePayload, ExtendedLength;
    if f.mask == [] {
      StartFollows(r, f);
    }
  }

  /** At the start of the payload, which may be empty. */
  lemma StartFollows(r: Reader, f: Frame)
    requires IsFrame(f) && KnowsHeader(r, f) && |r.mask| == 4 && (r.hasMask ==> r.mask == f.mask)
    requires r.fragment == [] && r.remaining == |f.payload| && !(r.state.Mask? && r.hasMask)
    ensures After(Proceed(r), f, PayloadStart(f), r.view)
  {
    hide XorMask, Wire, HandlePayload, ExtendedLength;
    if f.payload == [] {
      assert XorMask(f.payload, f.mask) == [];
      HandleFollows(r, f);
    } else {
      assert Wire(f)[PayloadStart(f)..PayloadStart(f)] == [];
    }
  }

  lemma HeaderFollows(r: Reader, f: Frame)
    requires IsFrame(f) && Idle(r)
    ensures After(HeaderRead(r, Wire(f)[0], Wire(f)[1]), f, 2, r.view)
  {
    WireParts(f);
    var b0, b1 := Wire(f)[0], Wire(f)[1];
    var next := r.(miniHeader := (b0, b1), hasMask := b1 >= 128);
    if b1 % 128 < 126 {
      LengthFollows(next.(remaining := b1 % 128, state := Mask), f);
    }
    hide Wire, Proceed;
  }

  lemma ExtendedFollows(r: Reader, f: Frame)
    requires IsFrame(f) && Midway(r, f, 2) && (r.state.Len16? || r.state.Len64?)
    ensures After(ReadStep(r, ExtendedLength(|f.payload|)), f, 2 + |ExtendedLength(|f.payload|)|, r.view)
  {
    LengthReadsBack(|f.payload|);
    var raw := ExtendedLength(|f.payload|);
    LengthFollows(r.(remaining := |f.payload|, state := Mask), f);
    hide Wire, Proceed, SwapBytes, ReadLength64, FromLe, BeBytes, After;
  }

  lemma PayloadFollows(r: Reader, f: Frame, k: nat, data: seq<Byte>)
    requires IsFrame(f) && Midway(r, f, k) && r.state.Payload? && Accepts(r, |data|)
    requires k + |data| <= |Wire(f)| && data == Wire(f)[k..k + |data|]
    ensures After(ReadStep(r, data), f, k + |data|, r.view)
  {
    hide XorMask, HandlePayload, ExtendedLength, Header;
    WireParts(f);
    var w, start := Wire(f), PayloadStart(f);
    hide Wire;
    var next := r.(fragment := r.fragment + data, remaining := r.remaining - |data|);
    assert next.fragment == w[start..k + |data|];
    if next.remaining == 0 {
      assert w[start..k + |data|] == w[start..];
      HandleFollows(next, f);
    }
  }

  /** One completed read. Whatever part of the frame it brings, the reader stays
      in step with it, and the frame takes effect exactly when its last byte has
      arrived; only a header must come in one read. */
  lemma ReadFollows(r: Reader, f: Frame, k: nat, data: seq<Byte>)
    requires IsFrame(f) && Midway(r, f, k) && Accepts(r, |data|) && (k == 0 ==> |data| == 2)
    requires k + |data| <= |Wire(f)| && data == Wire(f)[k..k + |data|]
    ensures After(ReadStep(r, data), f, k + |data|, r.view)
  {
    hide XorMask, HandlePayload, Header, After, Proceed, HeaderRead;
    WireParts(f);
    var w, start := Wire(f), PayloadStart(f);
    hide Wire;
    match r.state {
      case MiniHeader =>
        assert data[0] == w[0] && data[1] == w[1];
        HeaderFollows(r, f);
      case Len16 => ExtendedFollows(r, f);
      case Len64 => ExtendedFollows(r, f);
      case Mask => StartFollows(r.(mask := data, state := Payload), f);
      case Payload => PayloadFollows(r, f, k, data);
    }
  }

  // ----- Whole frames in any arrivals -----

  /** Reads that can complete one after the other from `r` on, whatever they bring. */
  predicate Legal(r: Reader, arrivals: seq<seq<Byte>>)
    requires Sound(r)
    decreases |arrivals|
  {
    arrivals == [] ||
    (Accepts(r, |arrivals[0]|) && (ReadStepSound(r, arrivals[0]); Legal(ReadStep(r, arrivals[0]), arrivals[1..])))
  }

  function ReadAll(r: Reader, arrivals: seq<seq<Byte>>): (end: Reader)
    requires Sound(r) && Legal(r, arrivals)
    ensures Sound(end)
    decreases |arrivals|
  {
    if arrivals == [] then r else
    ReadStepSound(r, arrivals[0]);
    ReadAll(ReadStep(r, arrivals[0]), arrivals[1..])
  }

  lemma {:induction false} ReadAllGrows(r: Reader, arrivals: seq<seq<Byte>>)
    requires Sound(r) && Legal(r, arrivals)
    ensures r.view.assembly.handled <= ReadAll(r, arrivals).view.assembly.handled
    decreases |arrivals|
  {
    hide ReadStep, Sound, Accepts;
    if arrivals != [] {
      ReadStepSound(r, arrivals[0]);
      ReadAllGrows(ReadStep(r, arrivals[0]), arrivals[1..]);
    }
  }

  /** The rest of a frame, in any reads. */
  lemma {:induction false} RestFollows(r: Reader, f: Frame, k: nat, arrivals: seq<seq<Byte>>)
    requires IsFrame(f) && Midway(r, f, k) && k < |Wire(f)| && Legal(r, arrivals)
    requires Joined(arrivals) == Wire(f)[k..] && (k == 0 ==> arrivals != [] && |arrivals[0]| == 2)
    ensures Idle(ReadAll(r, arrivals)) && ReadAll(r, arrivals).view == HandleFrame(r.view, f)
    decreases |arrivals|
  {
    hide ReadStep, Wire, HandleFrame;
    var w, data := Wire(f), arrivals[0];
    JoinedFront(arrivals);
    assert data == w[k..][..|data|] == w[k..k + |data|];
    assert Joined(arrivals[1..]) == w[k..][|data|..] == w[k + |data|..];
    ReadFollows(r, f, k, data);
    ReadStepSound(r, data);
    var next := ReadStep(r, data);
    if k + |data| == |w| {
      NoMoreReads(next, arrivals[1..]);
    } else {
      RestFollows(next, f, k + |data|, arrivals[1..]);
    }
  }

  lemma NoMoreReads(r: Reader, arrivals: seq<seq<Byte>>)
    requires Sound(r) && Legal(r, arrivals) && Joined(arrivals) == []
    ensures arrivals == []
  {
    if arrivals != [] {
      JoinedFront(arrivals);
    }
  }

  /** A frame whose header arrives in one read takes effect, once, whatever its
      other reads are. */
  lemma FrameFollows(r: Reader, f: Frame, arrivals: seq<seq<Byte>>)
    requires IsFrame(f) && Idle(r) && Legal(r, arrivals) && Joined(arrivals) == Wire(f)
    requires |arrivals[0]| == 2
    ensures Idle(ReadAll(r, arrivals)) && ReadAll(r, arrivals).view == HandleFrame(r.view, f)
  {
    assert Wire(f)[0..] == Wire(f);
    RestFollows(r, f, 0, arrivals);
  }

  /** A header read that brings one byte acts at once, as an empty unmasked frame. */
  lemma ShortHeader(r: Reader, data: seq<Byte>)
    requires Idle(r) && |data| == 1
    ensures ReadStep(r, data) ==
      r.(miniHeader := (data[0], 0), hasMask := false, remaining := 0,
         view := HandlePayload(r.view, data[0] >= 128, data[0] % 16, []))
  {
    hide HandlePayload;
  }

  /** A final data frame with a payload, read by a connection between messages
      in any reads: the message handler is called exactly once, with the original
      bytes and kind, exactly when the first read brings both header bytes. */
  lemma HandledOnceIff(r: Reader, f: Frame, arrivals: seq<seq<Byte>>)
    requires IsFrame(f) && f.fin && f.opcode <= 2 && f.payload != []
    requires Idle(r) && r.view.assembly.message == []
    requires Legal(r, arrivals) && Joined(arrivals) == Wire(f)
    ensures
      var a, after := r.view.assembly, ReadAll(r, arrivals).view.assembly;
      var expected := a.handled + [(f.payload, if f.opcode == 0 then a.isBinary else f.opcode == 2)];
      arrivals != [] && (after.handled == expected <==> |arrivals[0]| == 2)
  {
    hide ReadStep, Legal, ReadAll, Sound, Wire;
    FirstRead(r, f, arrivals);
    if |arrivals[0]| == 2 {
      WholeHeaderHandled(r, f, arrivals);
    } else {
      SplitHeaderSpoils(r, f, arrivals);
    }
  }

  lemma FirstRead(r: Reader, f: Frame, arrivals: seq<seq<Byte>>)
    requires IsFrame(f) && Idle(r) && Legal(r, arrivals) && Joined(arrivals) == Wire(f)
    ensures arrivals != [] && 1 <= |arrivals[0]| <= 2 && arrivals[0][0] == Wire(f)[0]
  {
    hide ReadStep;
    JoinedFront(arrivals);
    assert Wire(f)[0] == (arrivals[0] + Joined(arrivals[1..]))[0];
  }

  lemma WholeHeaderHandled(r: Reader, f: Frame, arrivals: seq<seq<Byte>>)
    requires IsFrame(f) && f.fin && f.opcode <= 2 && Idle(r) && r.view.assembly.message == []
    requires Legal(r, arrivals) && Joined(arrivals) == Wire(f) && arrivals != [] && |arrivals[0]| == 2
    ensures
      var a := r.view.assembly;
      ReadAll(r, arrivals).view.assembly.handled
        == a.handled + [(f.payload, if f.opcode == 0 then a.isBinary else f.opcode == 2)]
  {
    hide ReadAll, Legal, Wire;
    FrameFollows(r, f, arrivals);
    assert r.view.assembly.message + f.payload == f.payload;
  }

  /** The first of two header bytes alone already calls the handler, with nothing. */
  lemma SplitHeaderSpoils(r: Reader, f: Frame, arrivals: seq<seq<Byte>>)
    requires IsFrame(f) && f.fin && f.opcode <= 2 && Idle(r) && r.view.assembly.message == []
    requires Legal(r, arrivals) && arrivals != [] && |arrivals[0]| == 1 && arrivals[0][0] == Wire(f)[0]
    ensures
      var a, b := r.view.assembly.handled, ReadAll(r, arrivals).view.assembly.handled;
      |a| < |b| && b[|a|].0 == []
  {
    hide ReadStep, Sound, Wire;
    var a, data := r.view.assembly, arrivals[0];
    WireParts(f);
    ShortHeader(r, data);
    ReadStepSound(r, data);
    var first := ReadStep(r, data).view.assembly.handled;
    assert a.message + [] == [];
    assert first == a.handled + [([], if f.opcode == 0 then a.isBinary else f.opcode == 2)];
    ReadAllGrows(ReadStep(r, data), arrivals[1..]);
  }

  /** The text frame "hi" whose header arrives one byte at a time: the handler is
      called with an empty text, and the rest is taken for another frame. */
  lemma SplitHeaderRun()
    ensures
      var f, arrivals := Frame(true, 1, [], [104, 105]), [[129], [2, 104], [105]];
      && IsFrame(f) && Joined(arrivals) == Wire(f) && Sound(NEW_READER) && Legal(NEW_READER, arrivals)
      && ReadAll(NEW_READER, arrivals).view.assembly.handled == [([], false)]
      && ReadAll(NEW_READER, arrivals).remaining == 103
  {
    var f := Frame(true, 1, [], [104, 105]);
    var arrivals: seq<seq<Byte>> := [[129], [2, 104], [105]];
    var r1, r2, r3 := SplitHeaderSteps();
    assert arrivals[1..] == [[2, 104], [105]] && arrivals[1..][1..] == [[105]];
    LastRead(r2, [105]);
    assert [[2, 104], [105]][1..] == [[105]];
    assert Legal(r1, [[2, 104], [105]]) && ReadAll(r1, [[2, 104], [105]]) == r3;
    JoinedFront(arrivals);
    JoinedFront(arrivals[1..]);
    JoinedFront([[105]]);
    hide ReadStep;
  }

  lemma LastRead(r: Reader, data: seq<Byte>)
    requires Sound(r) && Accepts(r, |data|)
    ensures Legal(r, [data]) && ReadAll(r, [data]) == ReadStep(r, data)
  {
    hide ReadStep;
    ReadStepSound(r, data);
    assert [data][1..] == [];
  }

  lemma SplitHeaderSteps() returns (r1: Reader, r2: Reader, r3: Reader)
    ensures Sound(NEW_READER) && r1 == ReadStep(NEW_READER, [129]) && Sound(r1) && r1.state.MiniHeader?
    ensures r1.view.assembly.handled == [([], false)]
    ensures r2 == ReadStep(r1, [2, 104]) && Sound(r2) && Accepts(r2, 1)
    ensures r3 == ReadStep(r2, [105]) && r3.view == r1.view && r3.remaining == 103
  {
    ShortHeader(NEW_READER, [129]);
    r1 := ReadStep(NEW_READER, [129]);
    var a := HandlePayload(NEW_VIEW, true, 1, []).assembly;
    var nothing: seq<Byte> := NEW_VIEW.assembly.message + [];
    assert nothing == [] && a.handled == NEW_VIEW.assembly.handled + [(nothing, false)] == [([], false)];
    hide HandlePayload, XorMask;
    r2 := ReadStep(r1, [2, 104]);
    r3 := ReadStep(r2, [105]);
  }

  // ----- Frames in sequence -----

  function HandleAll(v: View, frames: seq<Frame>): View
    requires AllFrames(frames)
  {
    if frames == [] then v else HandleFrame(HandleAll(v, frames[..|frames| - 1]), frames[|frames| - 1])
  }

  predicate AllFrames(frames: seq<Frame>) {
    forall i :: 0 <= i < |frames| ==> IsFrame(frames[i])
  }

  // ----- Reassembly -----

  /** A frame that carries no part of a message: closing, ping, pong, or reserved. */
  predicate IsControl(f: Frame) {
    f.opcode > 2
  }

  /** The frames that carry messages. */
  function Data(frames: seq<Frame>): seq<Frame> {
    if frames == [] then [] else
    var f := frames[|frames| - 1];
    Data(frames[..|frames| - 1]) + if IsControl(f) then [] else [f]
  }

  function Payloads(frames: seq<Frame>): seq<Byte> {
    if frames == [] then [] else Payloads(frames[..|frames| - 1]) + frames[|frames| - 1].payload
  }

  /** Data frames that carry one message (section 5.4 of RFC 6455): the first
      has the opcode, the others continue it, only the last is final. */
  ghost predicate IsMessage(data: seq<Frame>, opcode: nat) {
    && data != [] && (opcode == 1 || opcode == 2)
    && forall i :: 0 <= i < |data| ==>
         data[i].opcode == (if i == 0 then opcode else 0) && (data[i].fin <==> i == |data| - 1)
  }

  predicate SameMessages(v: View, w: View) {
    v.assembly == w.assembly
  }

  lemma {:induction false} DataAllFrames(frames: seq<Frame>)
    requires AllFrames(frames)
    ensures AllFrames(Data(frames))
  {
    if frames != [] {
      DataAllFrames(frames[..|frames| - 1]);
    }
  }

  lemma SameMessagesStep(v: View, w: View, f: Frame)
    requires IsFrame(f) && SameMessages(v, w)
    ensures SameMessages(HandleFrame(v, f), HandleFrame(w, f))
    ensures IsControl(f) ==> SameMessages(HandleFrame(v, f), w)
  {
    hide Wire;
  }

  /** Other frames do not touch the message being assembled. */
  lemma {:induction false} ControlIsTransparent(v: View, frames: seq<Frame>)
    requires AllFrames(frames)
    ensures AllFrames(Data(frames)) && SameMessages(HandleAll(v, frames), HandleAll(v, Data(frames)))
  {
    hide HandleFrame, SameMessages, IsFrame;
    DataAllFrames(frames);
    if frames == [] {
      SameAsItself(v);
    } else {
      var front, f := frames[..|frames| - 1], frames[|frames| - 1];
      ControlIsTransparent(v, front);
      SameMessagesStep(HandleAll(v, front), HandleAll(v, Data(front)), f);
      if IsControl(f) {
        assert Data(frames) == Data(front);
      } else {
        assert Data(frames)[..|Data(front)|] == Data(front);
      }
    }
  }

  lemma SameAsItself(v: View)
    ensures SameMessages(v, v)
  {
  }

  lemma {:induction false} Assembling(v: View, data: seq<Frame>, opcode: nat, i: nat)
    requires AllFrames(data) && IsMessage(data, opcode) && v.assembly.message == [] && 0 < i < |data|
    ensures
      HandleAll(v, data[..i]).assembly == Assembly(Payloads(data[..i]), opcode == 2, v.assembly.handled)
  {
    assert data[..i][..i - 1] == data[..i - 1];
    if i > 1 {
      Assembling(v, data, opcode, i - 1);
    } else {
      assert data[..0] == [];
    }
  }

  /** Reassembly. However a message is cut into frames, masked or not, with
      control frames between them, the message handler is called exactly once,
      with the original bytes and kind. */
  lemma MessageReassembled(v: View, frames: seq<Frame>, opcode: nat)
    requires AllFrames(frames) && IsMessage(Data(frames), opcode) && v.assembly.message == []
    ensures
      var w := HandleAll(v, frames).assembly;
      w.handled == v.assembly.handled + [(Payloads(Data(frames)), opcode == 2)] && w.message == []
  {
    var data := Data(frames);
    ControlIsTransparent(v, frames);
    var n := |data| - 1;
    assert data[..n] + [data[n]] == data;
    if n > 0 {
      Assembling(v, data, opcode, n);
    } else {
      assert data[..n] == [];
      assert Payloads(data) == [] + data[0].payload == data[0].payload;
      assert HandleAll(v, data) == HandleFrame(v, data[0]);
      assert v.assembly.message + data[0].payload == data[0].payload;
    }
  }

  // ----- Through the connection -----

  /** One completed read after the other. */
  method ReadFrom(conn: Connection, arrivals: seq<seq<Byte>>)
    requires Sound(conn.Snap()) && Legal(conn.Snap(), arrivals)
    modifies conn
    ensures conn.Snap() == ReadAll(old(conn.Snap()), arrivals)
  {
    hide ReadStep, Accepts;
    var i := 0;
    assert arrivals[0..] == arrivals;
    while i < |arrivals|
      invariant 0 <= i <= |arrivals| && Sound(conn.Snap()) && Legal(conn.Snap(), arrivals[i..])
      invariant ReadAll(conn.Snap(), arrivals[i..]) == ReadAll(old(conn.Snap()), arrivals)
    {
      assert arrivals[i..][0] == arrivals[i] && arrivals[i..][1..] == arrivals[i + 1..];
      conn.OnRead(arrivals[i]);
      i := i + 1;
    }
  }

  /** The reads of one frame by a connection between frames: they bring its bytes,
      and its header in one read. */
  ghost predicate BringsFrame(r: Reader, f: Frame, arrivals: seq<seq<Byte>>)
    requires IsFrame(f) && Idle(r)
  {
    Legal(r, arrivals) && Joined(arrivals) == Wire(f) && |arrivals[0]| == 2
  }

  /** The reads of several frames, one frame after the other. */
  ghost predicate BringsFrames(r: Reader, frames: seq<Frame>, arrivals: seq<seq<seq<Byte>>>)
    requires AllFrames(frames) && Idle(r)
    decreases |frames|
  {
    && |arrivals| == |frames|
    && (frames != [] ==>
          && BringsFrame(r, frames[0], arrivals[0])
          && (FrameFollows(r, frames[0], arrivals[0]); BringsFrames(ReadAll(r, arrivals[0]), frames[1..], arrivals[1..])))
  }

  lemma {:induction false} HandleAllFront(v: View, frames: seq<Frame>)
    requires AllFrames(frames) && frames != []
    ensures HandleAll(v, frames) == HandleAll(HandleFrame(v, frames[0]), frames[1..])
    decreases |frames|
  {
    hide HandleFrame;
    if |frames| == 1 {
      assert frames[..0] == [];
    } else {
      var front := frames[..|frames| - 1];
      HandleAllFront(v, front);
      assert front[1..] == frames[1..][..|frames| - 2];
    }
  }

  /** A sequence of frames has the effect of handling them in order. */
  method ReceiveFrames(conn: Connection, frames: seq<Frame>, arrivals: seq<seq<seq<Byte>>>)
    requires AllFrames(frames) && Idle(conn.Snap()) && BringsFrames(conn.Snap(), frames, arrivals)
    modifies conn
    ensures Idle(conn.Snap()) && conn.Now() == HandleAll(old(conn.Now()), frames)
  {
    hide HandleFrame, ReadAll, Legal, Wire, HandleAll;
    ghost var v := conn.Now();
    var i := 0;
    assert frames[0..] == frames && arrivals[0..] == arrivals;
    while i < |frames|
      invariant 0 <= i <= |frames| && Idle(conn.Snap()) && BringsFrames(conn.Snap(), frames[i..], arrivals[i..])
      invariant HandleAll(conn.Now(), frames[i..]) == HandleAll(v, frames)
    {
      assert frames[i..][0] == frames[i] && frames[i..][1..] == frames[i + 1..];
      assert arrivals[i..][0] == arrivals[i] && arrivals[i..][1..] == arrivals[i + 1..];
      HandleAllFront(conn.Now(), frames[i..]);
      FrameFollows(conn.Snap(), frames[i], arrivals[i]);
      ReadFrom(conn, arrivals[i]);
      i := i + 1;
    }
    HandleNone(conn.Now());
  }

  lemma HandleNone(v: View)
    ensures HandleAll(v, []) == v
  {
  }

  /** Both together, on a fresh connection. */
  method ReceiveMessage(frames: seq<Frame>, arrivals: seq<seq<seq<Byte>>>, opcode: nat)
    returns (handled: seq<(seq<Byte>, bool)>)
    requires AllFrames(frames) && IsMessage(Data(frames), opcode) && BringsFrames(NEW_READER, frames, arrivals)
    ensures handled == [(Payloads(Data(frames)), opcode == 2)]
  {
    hide HandleAll, BringsFrames, Data, Payloads, IsMessage, AllFrames;
    var conn := new Connection();
    MessageReassembled(conn.Now(), frames, opcode);
    ReceiveFrames(conn, frames, arrivals);
    handled := conn.handled;
  }
}
