/** WebSocket frames on the wire (sections 5.2 and 5.3 of RFC 6455) and the
    header writer of Crow's connection. */
module WebSocketFrame {
  import opened Bytes

  /** A frame; an empty `mask` means that it is not masked. */
  datatype Frame = Frame(fin: bool, opcode: nat, mask: seq<Byte>, payload: seq<Byte>)

  predicate IsFrame(f: Frame) {
    f.opcode < 16 && (|f.mask| == 0 || |f.mask| == 4) && |f.payload| < TWO32 * TWO32
  }

  function XorMask(data: seq<Byte>, mask: seq<Byte>): (r: seq<Byte>)
    requires |mask| == 0 || |mask| == 4
    ensures |r| == |data|
  {
    if mask == [] then data
    else seq(|data|, i requires 0 <= i < |data| => Xor(data[i], mask[i % 4]))
  }

  lemma XorMaskTwice(data: seq<Byte>, mask: seq<Byte>)
    requires |mask| == 0 || |mask| == 4
    ensures XorMask(XorMask(data, mask), mask) == data
  {
    if mask != [] {
      forall i | 0 <= i < |data| ensures XorMask(XorMask(data, mask), mask)[i] == data[i] {
        XorTwice(data[i], mask[i % 4]);
      }
    }
  }

  /** The length code in the second header byte. */
  function LengthCode(n: nat): (c: nat)
    ensures c < 128
  {
    if n < 126 then n else if n < 0x1_0000 then 126 else 127
  }

  /** The extended length: nothing, two or eight bytes in network order. */
  function ExtendedLength(n: nat): seq<Byte> {
    if n < 126 then [] else if n < 0x1_0000 then BeBytes(n, 2) else BeBytes(n, 8)
  }

  function Header(fin: bool, opcode: nat, masked: bool, n: nat): (h: seq<Byte>)
    requires opcode < 16
    ensures |h| == 2 + |ExtendedLength(n)|
  {
    [(if fin then 128 else 0) + opcode, (if masked then 128 else 0) + LengthCode(n)] + ExtendedLength(n)
  }

  /** The bytes of a frame. */
  function Wire(f: Frame): (w: seq<Byte>)
    requires IsFrame(f)
    ensures |w| == PayloadStart(f) + |f.payload|
  {
    Header(f.fin, f.opcode, f.mask != [], |f.payload|) + f.mask + XorMask(f.payload, f.mask)
  }

  function PayloadStart(f: Frame): nat {
    2 + |ExtendedLength(|f.payload|)| + |f.mask|
  }

  /** `build_header` on a little-endian host: `htons` and `htonl` swap, and the
      results are stored as they lie in memory. */
  function BuildHeader(opcode: nat, size: nat): seq<Byte>
    requires opcode < 16 && size < TWO32 * TWO32
  {
    if size < 126 then [0x80 + opcode, size]
    else if size < 0x1_0000 then [0x80 + opcode, 126] + LeBytes(SwapBytes(size, 2), 2)
    else
      [0x80 + opcode, 127] + LeBytes(SwapBytes(size / TWO32, 4) + TWO32 * SwapBytes(size % TWO32, 4), 8)
  }

  /** All three length forms come out in network order. */
  lemma BuildHeaderIsHeader(opcode: nat, size: nat)
    requires opcode < 16 && size < TWO32 * TWO32
    ensures BuildHeader(opcode, size) == Header(true, opcode, false, size)
  {
    PowValues();
    hide BeBytes, LeBytes, FromLe, Pow256;
    if 126 <= size < 0x1_0000 {
      LeRoundTrip(BeBytes(size, 2));
    } else if size >= 0x1_0000 {
      var low, high := BeBytes(size % TWO32, 4), BeBytes(size / TWO32, 4);
      LeRoundTrip(low);
      LeRoundTrip(high);
      LeSplit(FromLe(high), FromLe(low), 4, 4);
      BeSplit(size % TWO32, size / TWO32, 4, 4);
      assert size == size % TWO32 + TWO32 * (size / TWO32);
    }
  }

  /** Reading the eight length bytes back: raw memory, then `ntohl` on both
      halves. */
  function ReadLength64(raw: seq<Byte>): nat
    requires |raw| == 8
  {
    var n := FromLe(raw);
    TWO32 * SwapBytes(n % TWO32, 4) + SwapBytes(n / TWO32, 4)
  }

  lemma {:induction false} FromLeSplit(a: seq<Byte>, b: seq<Byte>)
    ensures FromLe(a + b) == FromLe(a) + Pow256(|a|) * FromLe(b)
  {
    if a == [] {
      assert a + b == b;
    } else {
      FromLeSplit(a[1..], b);
      assert (a + b)[1..] == a[1..] + b;
      assert 256 * (Pow256(|a| - 1) * FromLe(b)) == Pow256(|a|) * FromLe(b);
    }
  }

  function Reverse(s: seq<Byte>): (r: seq<Byte>)
    ensures |r| == |s|
  {
    if s == [] then [] else Reverse(s[1..]) + [s[0]]
  }

  lemma {:induction false} BeOfLe(s: seq<Byte>)
    ensures BeBytes(FromLe(s), |s|) == Reverse(s)
  {
    if s != [] {
      BeOfLe(s[1..]);
    }
  }

  lemma {:induction false} ReverseFront(s: seq<Byte>)
    ensures FromLe(Reverse(s)) == FromBe(s)
    decreases |s|
  {
    if s != [] {
      ReverseLast(s);
      ReverseFront(s[..|s| - 1]);
      var r := Reverse(s);
      assert r[1..] == Reverse(s[..|s| - 1]);
    }
  }

  lemma {:induction false} ReverseLast(s: seq<Byte>)
    requires s != []
    ensures Reverse(s) == [s[|s| - 1]] + Reverse(s[..|s| - 1])
    decreases |s|
  {
    if |s| > 1 {
      ReverseLast(s[1..]);
      assert s[1..][..|s| - 2] == s[..|s| - 1][1..];
    }
  }

  /** Reading raw bytes and swapping is reading them in network order. */
  lemma SwapIsReverse(s: seq<Byte>)
    ensures SwapBytes(FromLe(s), |s|) == FromBe(s)
  {
    BeOfLe(s);
    ReverseFront(s);
  }

  /** The reader's length conversions invert the extended length. */
  lemma LengthReadsBack(n: nat)
    requires n < TWO32 * TWO32
    ensures n < 0x1_0000 ==> SwapBytes(FromLe(BeBytes(n, 2)), 2) == n
    ensures ReadLength64(BeBytes(n, 8)) == n
  {
    hide BeBytes, FromLe, FromBe, Pow256, SwapBytes;
    if n < 0x1_0000 {
      PowValues();
      SwapIsReverse(BeBytes(n, 2));
      BeRoundTrip(n, 2);
    }
    HalvesReadBack(n % TWO32, n / TWO32);
    assert n == n % TWO32 + TWO32 * (n / TWO32);
  }

  /** The two halves of a 64-bit length come back from their swapped bytes. */
  lemma HalvesReadBack(low: nat, high: nat)
    requires low < TWO32 && high < TWO32
    ensures ReadLength64(BeBytes(low + TWO32 * high, 8)) == low + TWO32 * high
  {
    hide BeBytes, FromLe, FromBe, Pow256, SwapBytes;
    PowValues();
    BeSplit(low, high, 4, 4);
    FromLeSplit(BeBytes(high, 4), BeBytes(low, 4));
    LeRoundTrip(BeBytes(high, 4));
    LeRoundTrip(BeBytes(low, 4));
    var x, y := FromLe(BeBytes(high, 4)), FromLe(BeBytes(low, 4));
    Halves(x, y);
    SwapIsReverse(BeBytes(high, 4));
    SwapIsReverse(BeBytes(low, 4));
    BeRoundTrip(high, 4);
    BeRoundTrip(low, 4);
  }

  lemma Halves(x: nat, y: nat)
    requires x < TWO32
    ensures (x + TWO32 * y) % TWO32 == x && (x + TWO32 * y) / TWO32 == y
  {
  }
}
