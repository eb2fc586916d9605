/** Crow's WebSocket connection reading from the socket: header, length, mask and
    payload arrive in separate reads, payload in arbitrary pieces. `ReadStep` says
    what one read of any bytes does; the class is proved to do that. */
module WebSocketReader {
  import opened Bytes
  import opened WebSocketFrame

  datatype ReadState = MiniHeader | Len16 | Len64 | Mask | Payload

  const BUFFER_SIZE := 4096

  /** The message being assembled and those passed to the message handler. */
  datatype Assembly = Assembly(message: seq<Byte>, isBinary: bool, handled: seq<(seq<Byte>, bool)>)

  /** The closing flags and the calls of the close handler. */
  datatype Closing = Closing(hasSent: bool, hasRecv: bool, connectionClosed: bool, calls: seq<seq<Byte>>)

  /** What the rest of the program sees of a connection. */
  datatype View = View(assembly: Assembly, written: seq<seq<Byte>>, pongReceived: bool, closing: Closing)

  function Assemble(a: Assembly, fin: bool, opcode: nat, payload: seq<Byte>): Assembly
    requires opcode <= 2
  {
    var binary := if opcode == 0 then a.isBinary else opcode == 2;
    var message := a.message + payload;
    if fin then Assembly([], binary, a.handled + [(message, binary)]) else Assembly(message, binary, a.handled)
  }

  function CloseWith(v: View, payload: seq<Byte>): View
    requires |payload| < TWO32 * TWO32
  {
    var c := v.closing;
    var calls := if c.calls == [] then [payload] else c.calls;
    if c.hasSent then v.(closing := Closing(true, true, true, calls))
    else v.(closing := Closing(true, true, c.connectionClosed, calls),
            written := v.written + [Wire(Frame(true, 8, [], payload))])
  }

  /** The specification: what a frame's final bit, opcode and unmasked payload do. */
  function HandlePayload(v: View, fin: bool, opcode: nat, payload: seq<Byte>): View
    requires opcode < 16 && |payload| < TWO32 * TWO32
  {
    if opcode <= 2 then v.(assembly := Assemble(v.assembly, fin, opcode, payload))
    else if opcode == 8 then CloseWith(v, payload)
    else if opcode == 9 then v.(written := v.written + [Wire(Frame(true, 10, [], payload))])
    else if opcode == 10 then v.(pongReceived := true)
    else v
  }

  /** What one whole frame does. */
  function HandleFrame(v: View, f: Frame): View
    requires IsFrame(f)
  {
    HandlePayload(v, f.fin, f.opcode, f.payload)
  }

  /** The message handler's calls are never taken back. */
  lemma HandlePayloadGrows(v: View, fin: bool, opcode: nat, payload: seq<Byte>)
    requires opcode < 16 && |payload| < TWO32 * TWO32
    ensures v.assembly.handled <= HandlePayload(v, fin, opcode, payload).assembly.handled
  {
    hide Wire;
  }

  // ----- One read of any bytes -----

  datatype Reader = Reader(
    state: ReadState, miniHeader: (Byte, Byte), remaining: nat, hasMask: bool, mask: seq<Byte>, fragment: seq<Byte>, view: View)
  {
    function Fin(): bool {
      miniHeader.0 >= 128
    }

    function Opcode(): (n: nat)
      ensures n < 16
    {
      miniHeader.0 % 16
    }

    function Key(): seq<Byte> {
      if hasMask then mask else []
    }
  }

  /** What holds of a connection between any two reads. */
  predicate Sound(r: Reader) {
    && |r.mask| == 4 && |r.fragment| + r.remaining < TWO32 * TWO32
    && (!r.state.Payload? ==> r.fragment == [])
    && (r.state.Mask? ==> r.hasMask)
    && (r.state.Payload? ==> r.remaining > 0)
  }

  /** The sizes with which the pending read can complete. The header read asks
      for two bytes but may complete with one. */
  predicate Accepts(r: Reader, n: nat) {
    match r.state
    case MiniHeader => n == 1 || n == 2
    case Len16 => n == 2
    case Len64 => n == 8
    case Mask => n == 4
    case Payload => 0 < n <= BUFFER_SIZE && n <= r.remaining
  }

  /** `handle_fragment`, after which the next header is awaited. */
  function Handle(r: Reader): Reader
    requires |r.mask| == 4 && |r.fragment| < TWO32 * TWO32
  {
    r.(view := HandlePayload(r.view, r.Fin(), r.Opcode(), XorMask(r.fragment, r.Key())), fragment := [], state := MiniHeader)
  }

  /** The part of `do_read` that needs no bytes: an unmasked frame goes straight
      to its payload, and an empty payload is handled at once. */
  function Proceed(r: Reader): Reader
    requires |r.mask| == 4 && |r.fragment| < TWO32 * TWO32
  {
    if r.state.Mask? && r.hasMask then r
    else if r.remaining == 0 then Handle(r)
    else r.(state := Payload)
  }

  function HeaderRead(r: Reader, b0: Byte, b1: Byte): Reader
    requires Sound(r) && r.state.MiniHeader?
  {
    var next := r.(miniHeader := (b0, b1), hasMask := b1 >= 128);
    if b1 % 128 == 127 then next.(state := Len64)
    else if b1 % 128 == 126 then next.(state := Len16)
    else Proceed(next.(remaining := b1 % 128, state := Mask))
  }

  function ReadStep(r: Reader, data: seq<Byte>): Reader
    requires Sound(r) && Accepts(r, |data|)
  {
    match r.state
    case MiniHeader => HeaderRead(r, data[0], if |data| == 2 then data[1] else 0)
    case Len16 => Proceed(r.(remaining := SwapBytes(FromLe(data), 2), state := Mask))
    case Len64 => Proceed(r.(remaining := ReadLength64(data), state := Mask))
    case Mask => Proceed(r.(mask := data, state := Payload))
    case Payload => Proceed(r.(fragment := r.fragment + data, remaining := r.remaining - |data|))
  }

  lemma LengthsFit(raw: seq<Byte>)
    ensures |raw| == 2 ==> SwapBytes(FromLe(raw), 2) < TWO32 * TWO32
    ensures |raw| == 8 ==> ReadLength64(raw) < TWO32 * TWO32
  {
    PowValues();
    hide FromLe, BeBytes, Pow256;
    if |raw| == 2 {
      LeRoundTrip(BeBytes(FromLe(raw), 2));
    } else if |raw| == 8 {
      LeRoundTrip(BeBytes(FromLe(raw) % TWO32, 4));
      LeRoundTrip(BeBytes(FromLe(raw) / TWO32, 4));
    }
  }

  /** Every read, of any bytes, leaves the connection sound and takes no call of
      the message handler back. */
  lemma ReadStepSound(r: Reader, data: seq<Byte>)
    requires Sound(r) && Accepts(r, |data|)
    ensures Sound(ReadStep(r, data))
    ensures r.view.assembly.handled <= ReadStep(r, data).view.assembly.handled
  {
    hide HandlePayload, XorMask, FromLe, SwapBytes, ReadLength64;
    LengthsFit(data);
    ProceedGrows(r);
    var x := if r.state.MiniHeader? && |data| == 2 then data[1] else 0;
    match r.state {
      case MiniHeader => ProceedGrows(r.(miniHeader := (data[0], x), hasMask := x >= 128, remaining := x % 128, state := Mask));
      case Len16 => ProceedGrows(r.(remaining := SwapBytes(FromLe(data), 2), state := Mask));
      case Len64 => ProceedGrows(r.(remaining := ReadLength64(data), state := Mask));
      case Mask => ProceedGrows(r.(mask := data, state := Payload));
      case Payload => ProceedGrows(r.(fragment := r.fragment + data, remaining := r.remaining - |data|));
    }
  }

  lemma ProceedGrows(r: Reader)
    requires |r.mask| == 4 && |r.fragment| < TWO32 * TWO32
    ensures r.view.assembly.handled <= Proceed(r).view.assembly.handled
  {
    hide HandlePayload, XorMask;
    HandlePayloadGrows(r.view, r.Fin(), r.Opcode(), XorMask(r.fragment, r.Key()));
  }

  // ----- The connection -----

  const NEW_VIEW := View(Assembly([], false, []), [], false, Closing(false, false, false, []))

  const NEW_READER := Reader(MiniHeader, (0, 0), 0, false, [0, 0, 0, 0], [], NEW_VIEW)

  class Connection {
    var state: ReadState
    var miniHeader: (Byte, Byte)
    var remainingLength: nat
    var hasMask: bool
    var mask: seq<Byte>
    var fragment: seq<Byte>
    var message: seq<Byte>
    var isBinary: bool
    var handled: seq<(seq<Byte>, bool)>
    var written: seq<seq<Byte>>
    var pongReceived: bool
    var hasSentClose: bool
    var hasRecvClose: bool
    var closeConnection: bool
    var closeCalls: seq<seq<Byte>>

    constructor ()
      ensures Snap() == NEW_READER
    {
      state, miniHeader, remainingLength, hasMask, mask := MiniHeader, (0, 0), 0, false, [0, 0, 0, 0];
      fragment, message, isBinary, handled, written := [], [], false, [], [];
      pongReceived, hasSentClose, hasRecvClose, closeConnection, closeCalls := false, false, false, false, [];
    }

    function Now(): View
      reads this
    {
      View(Assembly(message, isBinary, handled), written, pongReceived,
           Closing(hasSentClose, hasRecvClose, closeConnection, closeCalls))
    }

    function Snap(): Reader
      reads this
    {
      Reader(state, miniHeader, remainingLength, hasMask, mask, fragment, Now())
    }

    method SendFrame(opcode: nat, msg: seq<Byte>)
      requires opcode < 16 && |msg| < TWO32 * TWO32
      modifies `written
      ensures written == old(written) + [Wire(Frame(true, opcode, [], msg))]
    {
      var header := BuildHeader(opcode, |msg|);
      BuildHeaderIsHeader(opcode, |msg|);
      written := written + [header + msg];
      assert header + msg == Wire(Frame(true, opcode, [], msg)) by {
        assert header + [] + msg == header + msg;
      }
    }

    /** Unmasking in place. */
    method Unmask()
      requires |mask| == 4
      modifies `fragment
      ensures fragment == XorMask(old(fragment), if hasMask then mask else [])
    {
      hide Xor;
      if hasMask {
        var i := 0;
        while i < |fragment|
          invariant 0 <= i <= |fragment| == |old(fragment)|
          invariant forall j :: 0 <= j < i ==> fragment[j] == Xor(old(fragment)[j], mask[j % 4])
          invariant forall j :: i <= j < |fragment| ==> fragment[j] == old(fragment)[j]
        {
          fragment := fragment[i := Xor(fragment[i], mask[i % 4])];
          i := i + 1;
        }
      }
    }

    /** A close frame is answered once; a second one ends the connection. */
    method HandleClose()
      requires |fragment| < TWO32 * TWO32
      modifies `hasRecvClose, `hasSentClose, `closeConnection, `closeCalls, `written
      ensures Now() == CloseWith(old(Now()), fragment)
    {
      hide Wire;
      hasRecvClose := true;
      if !hasSentClose {
        hasSentClose := true;
        if closeCalls == [] {
          closeCalls := [fragment];
        }
        SendFrame(8, fragment);
      } else {
        closeConnection := true;
        if closeCalls == [] {
          closeCalls := [fragment];
        }
      }
    }

    /** A frame of a message: its payload is appended, and a final one passes the message on. */
    method HandleData(opcode: nat)
      requires opcode <= 2
      modifies `message, `isBinary, `handled
      ensures Now() == old(Now()).(assembly := Assemble(old(Now()).assembly, miniHeader.0 >= 128, opcode, fragment))
    {
      if opcode != 0 {
        isBinary := opcode == 2;
      }
      message := message + fragment;
      if miniHeader.0 >= 128 {
        handled := handled + [(message, isBinary)];
        message := [];
      }
    }

    /** The switch on the opcode. */
    method Dispatch()
      requires |fragment| < TWO32 * TWO32
      modifies `message, `isBinary, `handled, `pongReceived, `hasRecvClose, `hasSentClose, `closeConnection, `closeCalls, `written
      ensures Now() == HandlePayload(old(Now()), miniHeader.0 >= 128, miniHeader.0 % 16, fragment)
    {
      hide Wire, Assemble, CloseWith;
      var opcode := miniHeader.0 % 16;
      if opcode <= 2 {
        HandleData(opcode);
      } else if opcode == 8 {
        HandleClose();
      } else if opcode == 9 {
        SendFrame(10, fragment);
      } else if opcode == 10 {
        pongReceived := true;
      }
    }

    /** `handle_fragment`: exactly what the specification says a frame does. */
    method HandleFragment()
      requires |mask| == 4 && |fragment| < TWO32 * TWO32
      modifies this
      ensures Snap() == Handle(old(Snap())).(state := old(state))
    {
      hide HandlePayload, XorMask;
      Unmask();
      Dispatch();
      fragment := [];
    }

    /** `do_read` up to the next read that needs bytes. */
    method GoOn()
      requires |mask| == 4 && |fragment| < TWO32 * TWO32
      modifies this
      ensures Snap() == Proceed(old(Snap()))
    {
      hide HandlePayload, XorMask;
      if state.Mask? && hasMask {
        return;
      }
      state := Payload;
      if remainingLength == 0 {
        HandleFragment();
        state := MiniHeader;
      }
    }

    method OnHeader(b0: Byte, b1: Byte)
      requires Sound(Snap()) && state.MiniHeader?
      modifies this
      ensures Snap() == HeaderRead(old(Snap()), b0, b1)
    {
      hide Proceed;
      miniHeader := (b0, b1);
      hasMask := b1 >= 128;
      if b1 % 128 == 127 {
        state := Len64;
      } else if b1 % 128 == 126 {
        state := Len16;
      } else {
        remainingLength := b1 % 128;
        state := Mask;
        GoOn();
      }
    }

    /** One completed read, of any bytes. */
    method OnRead(data: seq<Byte>)
      requires Sound(Snap()) && Accepts(Snap(), |data|)
      modifies this
      ensures Snap() == ReadStep(old(Snap()), data) && Sound(Snap())
    {
      hide Proceed;
      ReadStepSound(Snap(), data);
      LengthsFit(data);
      match state {
        case MiniHeader =>
          OnHeader(data[0], if |data| == 2 then data[1] else 0);
        case Len16 =>
          remainingLength := SwapBytes(FromLe(data), 2);
          state := Mask;
          GoOn();
        case Len64 =>
          remainingLength := ReadLength64(data);
          state := Mask;
          GoOn();
        case Mask =>
          mask := data;
          state := Payload;
          GoOn();
        case Payload =>
          fragment := fragment + data;
          remainingLength := remainingLength - |data|;
          GoOn();
      }
    }
  }
}
