/** Pings, pongs and closing, in the bytes that go over the wire. */
module WebSocketControl {
  import opened Bytes
  import opened WebSocketFrame
  import opened WebSocketReader
  import opened WebSocketMessages

  /** A final, unmasked frame with the given first byte (section 5.2 of RFC 6455). */
  function Plain(first: Byte, p: seq<Byte>): seq<Byte> {
    var n := |p|;
    if n < 126 then [first, n] + p
    else if n < 0x1_0000 then [first, 126, n / 256, n % 256] + p
    else [first, 127] + BeBytes(n, 8) + p
  }

  lemma PlainIsWire(opcode: nat, p: seq<Byte>)
    requires opcode < 16 && |p| < TWO32 * TWO32
    ensures Wire(Frame(true, opcode, [], p)) == Plain(0x80 + opcode, p)
  {
    var n := |p|;
    if 126 <= n < 0x1_0000 {
      assert n / 256 < 256;
      assert BeBytes(n / 256, 1) == BeBytes(n / 256 / 256, 0) + [n / 256];
      assert BeBytes(n, 2) == BeBytes(n / 256, 1) + [n % 256] == [n / 256, n % 256];
    }
    hide BeBytes;
    assert Wire(Frame(true, opcode, [], p)) == [0x80 + opcode, LengthCode(n)] + ExtendedLength(n) + [] + p;
  }

  // ----- One control frame -----

  /** A ping, masked or not, is answered by a pong with the same payload, and
      nothing else happens. */
  lemma PingAnswered(r: Reader, fin: bool, mask: seq<Byte>, p: seq<Byte>, arrivals: seq<seq<Byte>>)
    requires IsFrame(Frame(fin, 9, mask, p)) && Idle(r) && BringsFrame(r, Frame(fin, 9, mask, p), arrivals)
    ensures Idle(ReadAll(r, arrivals))
    ensures ReadAll(r, arrivals).view == r.view.(written := r.view.written + [Plain(0x8A, p)])
  {
    hide Wire, ReadAll, Legal, Plain;
    FrameFollows(r, Frame(fin, 9, mask, p), arrivals);
    PlainIsWire(10, p);
  }

  /** The answer read by the other side: a pong is noted, and nothing else happens. */
  lemma PongNoted(r: Reader, p: seq<Byte>, arrivals: seq<seq<Byte>>)
    requires |p| < TWO32 * TWO32 && Idle(r) && Legal(r, arrivals)
    requires Joined(arrivals) == Plain(0x8A, p) && |arrivals[0]| == 2
    ensures Idle(ReadAll(r, arrivals))
    ensures ReadAll(r, arrivals).view == r.view.(pongReceived := true)
  {
    hide Wire, ReadAll, Legal, Plain;
    PlainIsWire(10, p);
    FrameFollows(r, Frame(true, 10, [], p), arrivals);
  }

  /** The first close is answered by the same close, with one call of the close
      handler; a close after one was sent ends the connection unanswered. */
  lemma CloseAnswered(r: Reader, fin: bool, mask: seq<Byte>, p: seq<Byte>, arrivals: seq<seq<Byte>>)
    requires IsFrame(Frame(fin, 8, mask, p)) && Idle(r) && BringsFrame(r, Frame(fin, 8, mask, p), arrivals)
    ensures Idle(ReadAll(r, arrivals))
    ensures
      var v, w := r.view, ReadAll(r, arrivals).view;
      && w.assembly == v.assembly && w.pongReceived == v.pongReceived
      && w.written == (if v.closing.hasSent then v.written else v.written + [Plain(0x88, p)])
      && w.closing == Closing(true, true, v.closing.connectionClosed || v.closing.hasSent,
                              if v.closing.calls == [] then [p] else v.closing.calls)
  {
    hide Wire, ReadAll, Legal, Plain;
    FrameFollows(r, Frame(fin, 8, mask, p), arrivals);
    PlainIsWire(8, p);
  }

  // ----- Any sequence of frames -----

  function Closes(frames: seq<Frame>): seq<seq<Byte>> {
    if frames == [] then [] else
    var f := frames[|frames| - 1];
    Closes(frames[..|frames| - 1]) + if f.opcode == 8 then [f.payload] else []
  }

  predicate HasPong(frames: seq<Frame>) {
    exists i :: 0 <= i < |frames| && frames[i].opcode == 10
  }

  /** What is written in answer to one frame. */
  function Answer(f: Frame, closeSent: bool): seq<seq<Byte>> {
    if f.opcode == 9 then [Plain(0x8A, f.payload)]
    else if f.opcode == 8 && !closeSent then [Plain(0x88, f.payload)]
    else []
  }

  /** What is written in answer to frames: a pong for every ping, and one close. */
  function Answers(frames: seq<Frame>, closeSent: bool): seq<seq<Byte>> {
    if frames == [] then [] else
    var front := frames[..|frames| - 1];
    Answers(front, closeSent) + Answer(frames[|frames| - 1], closeSent || Closes(front) != [])
  }

  /** The pongs for the pings among the frames, in order. */
  function Pongs(frames: seq<Frame>): seq<seq<Byte>> {
    if frames == [] then [] else
    var f := frames[|frames| - 1];
    Pongs(frames[..|frames| - 1]) + if f.opcode == 9 then [Plain(0x8A, f.payload)] else []
  }

  /** The closing flags after the close frames with these payloads. */
  function Closed(c: Closing, closes: seq<seq<Byte>>): Closing {
    if closes == [] then c
    else Closing(true, true, c.connectionClosed || c.hasSent || |closes| > 1,
                 if c.calls == [] then [closes[0]] else c.calls)
  }

  lemma FrameAnswered(v: View, f: Frame)
    requires IsFrame(f)
    ensures
      var w := HandleFrame(v, f);
      && w.written == v.written + Answer(f, v.closing.hasSent)
      && w.pongReceived == (v.pongReceived || f.opcode == 10)
      && w.closing == Closed(v.closing, if f.opcode == 8 then [f.payload] else [])
  {
    hide Wire, Plain;
    PlainIsWire(f.opcode, f.payload);
    PlainIsWire(10, f.payload);
    assert v.written + [] == v.written;
  }

  lemma ClosedMore(c: Closing, closes: seq<seq<Byte>>, more: seq<seq<Byte>>)
    requires |more| <= 1
    ensures Closed(Closed(c, closes), more) == Closed(c, closes + more)
    ensures Closed(c, closes).hasSent == (c.hasSent || closes != [])
  {
    assert more == [] ==> closes + more == closes;
    assert closes == [] ==> closes + more == more;
  }

  /** Whatever frames arrive: every ping is answered, in order, the first close
      is answered and no other, the close handler is called once, and a second
      close ends the connection. */
  lemma {:induction false} FramesAnswered(v: View, frames: seq<Frame>)
    requires AllFrames(frames)
    ensures
      var w := HandleAll(v, frames);
      && w.written == v.written + Answers(frames, v.closing.hasSent)
      && w.pongReceived == (v.pongReceived || HasPong(frames))
      && w.closing == Closed(v.closing, Closes(frames))
  {
    hide HandleFrame, Answer, IsFrame, Plain, Closed, HasPong;
    if frames == [] {
      NoFrames(v);
    } else {
      var front, f := frames[..|frames| - 1], frames[|frames| - 1];
      FramesAnswered(v, front);
      FrameAnswered(HandleAll(v, front), f);
      ClosedMore(v.closing, Closes(front), if f.opcode == 8 then [f.payload] else []);
      PongMore(front, f);
      assert frames == front + [f];
    }
  }

  lemma NoFrames(v: View)
    ensures HandleAll(v, []) == v && v.written + Answers([], v.closing.hasSent) == v.written
    ensures !HasPong([]) && Closed(v.closing, Closes([])) == v.closing
  {
  }

  lemma PongMore(front: seq<Frame>, f: Frame)
    ensures HasPong(front + [f]) <==> HasPong(front) || f.opcode == 10
  {
    var frames := front + [f];
    assert frames[|front|] == f;
    assert forall i :: 0 <= i < |front| ==> frames[i] == front[i];
  }

  /** Without a close frame only the pings are answered. */
  lemma {:induction false} OnlyPongs(frames: seq<Frame>)
    requires Closes(frames) == []
    ensures Answers(frames, false) == Pongs(frames) && Answers(frames, true) == Pongs(frames)
  {
    hide Plain;
    if frames != [] {
      OnlyPongs(frames[..|frames| - 1]);
    }
  }

  // ----- Two connections -----

  /** A ping from one connection to another and back, in any reads that bring
      each header whole: the bytes on both ways, and the pong noted. */
  method PingPong(p: seq<Byte>, there: seq<seq<Byte>>, back: seq<seq<Byte>>)
    returns (ping: seq<Byte>, pong: seq<Byte>, noted: bool)
    requires |p| < TWO32 * TWO32
    requires Legal(NEW_READER, there) && Joined(there) == Plain(0x89, p) && |there[0]| == 2
    requires
      var asking := NEW_READER.(view := NEW_VIEW.(written := [Plain(0x89, p)]));
      Legal(asking, back) && Joined(back) == Plain(0x8A, p) && |back[0]| == 2
    ensures ping == Plain(0x89, p) && pong == Plain(0x8A, p) && noted
  {
    hide Plain, Wire, Legal, ReadAll;
    var a := new Connection();
    var b := new Connection();
    PlainIsWire(9, p);
    a.SendFrame(9, p);
    ping := a.written[0];
    assert a.Snap() == NEW_READER.(view := NEW_VIEW.(written := [Plain(0x89, p)]));
    PingAnswered(NEW_READER, true, [], p, there);
    ReadFrom(b, there);
    pong := b.written[0];
    PongNoted(a.Snap(), p, back);
    ReadFrom(a, back);
    noted := a.pongReceived;
  }

  // ----- Frames written out -----

  const HELLO: seq<Byte> := [0x48, 0x65, 0x6c, 0x6c, 0x6f]

  /** Examples of section 5.7 of RFC 6455: "Hello" in one frame and in two, and
      a ping with its answer. */
  lemma FramesWrittenOut()
    ensures Wire(Frame(true, 1, [], HELLO)) == [0x81, 0x05, 0x48, 0x65, 0x6c, 0x6c, 0x6f]
    ensures Wire(Frame(false, 1, [], HELLO[..3])) == [0x01, 0x03, 0x48, 0x65, 0x6c]
    ensures Wire(Frame(true, 0, [], HELLO[3..])) == [0x80, 0x02, 0x6c, 0x6f]
    ensures Plain(0x89, HELLO) == [0x89, 0x05, 0x48, 0x65, 0x6c, 0x6c, 0x6f]
    ensures Plain(0x8A, HELLO) == [0x8a, 0x05, 0x48, 0x65, 0x6c, 0x6c, 0x6f]
  {
    hide Wire, BeBytes;
    ShortWire(true, 1, HELLO);
    ShortWire(false, 1, HELLO[..3]);
    ShortWire(true, 0, HELLO[3..]);
  }

  lemma ShortWire(fin: bool, opcode: nat, p: seq<Byte>)
    requires opcode < 16 && |p| < 126
    ensures Wire(Frame(fin, opcode, [], p)) == [(if fin then 0x80 else 0) + opcode, |p|] + p
  {
  }

  /** Masking (section 5.3 of RFC 6455): bit by bit, byte `i` of the payload
      against byte `i` modulo 4 of the mask. */
  lemma MaskedBytes(f: Frame, i: nat, b: nat)
    requires IsFrame(f) && |f.mask| == 4 && i < |f.payload| && b < 8
    ensures Wire(f)[PayloadStart(f) - 4..PayloadStart(f)] == f.mask
    ensures Bit(Wire(f)[PayloadStart(f) + i], b) <==> Bit(f.payload[i], b) != Bit(f.mask[i % 4], b)
  {
    hide Wire, Xor, ExtendedLength;
    WireParts(f);
    assert Wire(f)[PayloadStart(f) + i] == Wire(f)[PayloadStart(f)..][i] == Xor(f.payload[i], f.mask[i % 4]);
    XorIsBitwise(f.payload[i], f.mask[i % 4], b);
  }
}
