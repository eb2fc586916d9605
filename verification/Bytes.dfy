/** Bytes, big- and little-endian numbers, and bitwise exclusive or. */
module Bytes {
  type Byte = n: int | 0 <= n < 256

  function Pow256(k: nat): (p: nat)
    ensures p > 0
  {
    if k == 0 then 1 else 256 * Pow256(k - 1)
  }

  /** `n` in `k` bytes, most significant first. */
  function BeBytes(n: nat, k: nat): (s: seq<Byte>)
    ensures |s| == k
  {
    if k == 0 then [] else BeBytes(n / 256, k - 1) + [n % 256]
  }

  /** `n` in `k` bytes, least significant first. */
  function LeBytes(n: nat, k: nat): (s: seq<Byte>)
    ensures |s| == k
  {
    if k == 0 then [] else [n % 256] + LeBytes(n / 256, k - 1)
  }

  function FromBe(s: seq<Byte>): nat {
    if s == [] then 0 else 256 * FromBe(s[..|s| - 1]) + s[|s| - 1]
  }

  function FromLe(s: seq<Byte>): nat {
    if s == [] then 0 else s[0] + 256 * FromLe(s[1..])
  }

  lemma {:induction false} BeRoundTrip(n: nat, k: nat)
    requires n < Pow256(k)
    ensures FromBe(BeBytes(n, k)) == n
  {
    if k > 0 {
      BeRoundTrip(n / 256, k - 1);
      assert BeBytes(n, k)[..k - 1] == BeBytes(n / 256, k - 1);
    }
  }

  lemma {:induction false} LeRoundTrip(s: seq<Byte>)
    ensures LeBytes(FromLe(s), |s|) == s
    ensures FromLe(s) < Pow256(|s|)
  {
    if s != [] {
      LeRoundTrip(s[1..]);
      assert s == [s[0]] + s[1..];
    }
  }

  lemma LeStep(rest: nat, d: Byte, k: nat)
    ensures LeBytes(d + 256 * rest, k + 1) == [d] + LeBytes(rest, k)
  {
    LastByte(rest, d);
    var n := d + 256 * rest;
    assert LeBytes(n, k + 1) == [n % 256] + LeBytes(n / 256, k);
  }

  lemma LastByte(rest: nat, d: Byte)
    ensures (d + 256 * rest) % 256 == d && (d + 256 * rest) / 256 == rest
  {
  }

  lemma BeStep(rest: nat, d: Byte, k: nat)
    ensures BeBytes(d + 256 * rest, k + 1) == BeBytes(rest, k) + [d]
  {
    LastByte(rest, d);
    var n := d + 256 * rest;
    assert BeBytes(n, k + 1) == BeBytes(n / 256, k) + [n % 256];
  }

  /** The place value of `j` bytes, times `high`, in front of `low`. */
  ghost function Shifted(low: nat, high: nat, j: nat): nat {
    low + Pow256(j) * high
  }

  lemma ShiftedStep(low: nat, high: nat, j: nat)
    requires j > 0
    ensures Shifted(low, high, j) == low % 256 + 256 * Shifted(low / 256, high, j - 1)
  {
    var p := Pow256(j - 1);
    assert Pow256(j) * high == 256 * (p * high) by {
      MulAssociates(256, p, high);
    }
  }

  lemma MulAssociates(a: nat, b: nat, c: nat)
    ensures (a * b) * c == a * (b * c)
  {
  }

  lemma DropByte(low: nat, j: nat)
    requires j > 0 && low < Pow256(j)
    ensures low / 256 < Pow256(j - 1) && low == low % 256 + 256 * (low / 256)
  {
  }

  /** A number split after its `j` lower bytes, little-endian. */
  lemma {:induction false} LeSplit(low: nat, high: nat, j: nat, k: nat)
    requires low < Pow256(j)
    ensures LeBytes(low + Pow256(j) * high, j + k) == LeBytes(low, j) + LeBytes(high, k)
  {
    LeSplitShifted(low, high, j, k);
  }

  lemma {:induction false} LeSplitShifted(low: nat, high: nat, j: nat, k: nat)
    requires low < Pow256(j)
    ensures LeBytes(Shifted(low, high, j), j + k) == LeBytes(low, j) + LeBytes(high, k)
  {
    if j == 0 {
      assert Shifted(low, high, 0) == high && LeBytes(low, 0) == [];
    } else {
      hide LeBytes, Pow256, Shifted;
      DropByte(low, j);
      LeSplitShifted(low / 256, high, j - 1, k);
      ShiftedStep(low, high, j);
      LeStep(Shifted(low / 256, high, j - 1), low % 256, j - 1 + k);
      LeStep(low / 256, low % 256, j - 1);
    }
  }

  /** A number split before its `k` lower bytes, big-endian. */
  lemma {:induction false} BeSplit(low: nat, high: nat, j: nat, k: nat)
    requires low < Pow256(k)
    ensures BeBytes(low + Pow256(k) * high, j + k) == BeBytes(high, j) + BeBytes(low, k)
  {
    BeSplitShifted(low, high, j, k);
  }

  lemma {:induction false} BeSplitShifted(low: nat, high: nat, j: nat, k: nat)
    requires low < Pow256(k)
    ensures BeBytes(Shifted(low, high, k), j + k) == BeBytes(high, j) + BeBytes(low, k)
  {
    if k == 0 {
      assert Shifted(low, high, 0) == high && BeBytes(low, 0) == [];
    } else {
      hide BeBytes, Pow256, Shifted;
      DropByte(low, k);
      BeSplitShifted(low / 256, high, j, k - 1);
      ShiftedStep(low, high, k);
      BeStep(Shifted(low / 256, high, k - 1), low % 256, j + k - 1);
      BeStep(low / 256, low % 256, k - 1);
    }
  }

  const TWO32 := 0x1_0000_0000

  lemma PowValues()
    ensures Pow256(2) == 0x1_0000 && Pow256(4) == TWO32 && Pow256(8) == TWO32 * TWO32
  {
    assert Pow256(1) == 256;
    assert Pow256(3) == 256 * Pow256(2);
    assert Pow256(5) == 256 * Pow256(4) && Pow256(6) == 256 * Pow256(5) && Pow256(7) == 256 * Pow256(6);
  }

  /** `htonl` and `ntohl` on a little-endian host: the number whose bytes in
      memory are those of `n` in network order. */
  function SwapBytes(n: nat, k: nat): nat {
    FromLe(BeBytes(n, k))
  }

  // ----- Exclusive or -----

  function XorBits(a: nat, b: nat, k: nat): nat {
    if k == 0 then 0 else 2 * XorBits(a / 2, b / 2, k - 1) + (a + b) % 2
  }

  function Pow2(k: nat): nat {
    if k == 0 then 1 else 2 * Pow2(k - 1)
  }

  lemma {:induction false} XorFits(a: nat, b: nat, k: nat)
    ensures XorBits(a, b, k) < Pow2(k)
  {
    if k > 0 {
      XorFits(a / 2, b / 2, k - 1);
    }
  }

  lemma {:induction false} XorUndoes(a: nat, b: nat, k: nat)
    requires a < Pow2(k)
    ensures XorBits(XorBits(a, b, k), b, k) == a
  {
    if k > 0 {
      XorUndoes(a / 2, b / 2, k - 1);
      LowBit(a, b, XorBits(a / 2, b / 2, k - 1));
    }
  }

  lemma LowBit(a: nat, b: nat, y: nat)
    ensures
      var x := 2 * y + (a + b) % 2;
      x / 2 == y && (x + b) % 2 == a % 2
  {
  }

  lemma PowTwoEight()
    ensures Pow2(8) == 256
  {
    assert Pow2(4) == 16;
    assert Pow2(6) == 4 * Pow2(4);
  }

  function Xor(a: Byte, b: Byte): (c: Byte) {
    XorFits(a, b, 8);
    PowTwoEight();
    XorBits(a, b, 8)
  }

  /** Bit `i` of a number. */
  predicate Bit(n: nat, i: nat) {
    if i == 0 then n % 2 == 1 else Bit(n / 2, i - 1)
  }

  /** A bit of the result is set exactly when one of the two bits is. */
  lemma XorIsBitwise(a: Byte, b: Byte, i: nat)
    requires i < 8
    ensures Bit(Xor(a, b), i) <==> Bit(a, i) != Bit(b, i)
  {
    XorBitsBitwise(a, b, 8, i);
  }

  lemma {:induction false} XorBitsBitwise(a: nat, b: nat, k: nat, i: nat)
    requires i < k
    ensures Bit(XorBits(a, b, k), i) <==> Bit(a, i) != Bit(b, i)
  {
    LowBit(a, b, XorBits(a / 2, b / 2, k - 1));
    if i > 0 {
      XorBitsBitwise(a / 2, b / 2, k - 1, i - 1);
    }
  }

  lemma XorTwice(a: Byte, b: Byte)
    ensures Xor(Xor(a, b), b) == a
  {
    PowTwoEight();
    XorUndoes(a, b, 8);
  }

  // ----- Bytes in pieces -----

  function Joined(pieces: seq<seq<Byte>>): seq<Byte> {
    if pieces == [] then [] else Joined(pieces[..|pieces| - 1]) + pieces[|pieces| - 1]
  }

  lemma {:induction false} JoinedFront(pieces: seq<seq<Byte>>)
    requires pieces != []
    ensures Joined(pieces) == pieces[0] + Joined(pieces[1..])
    decreases |pieces|
  {
    if |pieces| == 1 {
      assert pieces[..0] == [];
    } else {
      var front := pieces[..|pieces| - 1];
      JoinedFront(front);
      assert front[1..] == pieces[1..][..|pieces| - 2];
      assert pieces[0] + Joined(front[1..]) + pieces[|pieces| - 1] == pieces[0] + (Joined(front[1..]) + pieces[|pieces| - 1]);
    }
  }
}
