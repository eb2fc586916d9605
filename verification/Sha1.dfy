/** Crow's streaming SHA-1, against the definition in FIPS 180-4. */
module Sha1 {
  import opened Bytes

  type Word = bv32

  // ----- FIPS 180-4: functions and constants (sections 4.1.1 and 4.2.1) -----

  function Rotl(x: Word, n: nat): Word
    requires n < 32
  {
    if n == 0 then x else (x << n) | (x >> (32 - n))
  }

  function Choose(x: Word, y: Word, z: Word): Word {
    (x & y) ^ (!x & z)
  }

  function Parity(x: Word, y: Word, z: Word): Word {
    x ^ y ^ z
  }

  function Majority(x: Word, y: Word, z: Word): Word {
    (x & y) ^ (x & z) ^ (y & z)
  }

  function RoundFunction(t: nat, x: Word, y: Word, z: Word): Word {
    if t < 20 then Choose(x, y, z) else if t < 40 then Parity(x, y, z)
    else if t < 60 then Majority(x, y, z) else Parity(x, y, z)
  }

  function RoundConstant(t: nat): Word {
    if t < 20 then 0x5A827999 else if t < 40 then 0x6ED9EBA1 else if t < 60 then 0x8F1BBCDC else 0xCA62C1D6
  }

  /** Addition modulo 2^32. */
  function Add(x: Word, y: Word): Word {
    x + y
  }

  function Xor4(x: Word, y: Word, z: Word, u: Word): Word {
    x ^ y ^ z ^ u
  }

  /** Four bytes, most significant first. */
  function Pack(b0: Byte, b1: Byte, b2: Byte, b3: Byte): Word {
    ((b0 as bv32) << 24) | ((b1 as bv32) << 16) | ((b2 as bv32) << 8) | (b3 as bv32)
  }

  datatype Hash = Hash(a: Word, b: Word, c: Word, d: Word, e: Word)

  const INITIAL := Hash(0x67452301, 0xEFCDAB89, 0x98BADCFE, 0x10325476, 0xC3D2E1F0)

  // ----- FIPS 180-4: the compression of one block (section 6.1.2) -----

  function BlockWord(block: seq<Byte>, t: nat): Word
    requires |block| == 64 && t < 16
  {
    Pack(block[4 * t], block[4 * t + 1], block[4 * t + 2], block[4 * t + 3])
  }

  function Schedule(block: seq<Byte>, t: nat): Word
    requires |block| == 64 && t < 80
  {
    if t < 16 then BlockWord(block, t)
    else
      Rotl(Xor4(Schedule(block, t - 3), Schedule(block, t - 8), Schedule(block, t - 14), Schedule(block, t - 16)), 1)
  }

  function Rounds(h: Hash, block: seq<Byte>, n: nat): Hash
    requires |block| == 64 && n <= 80
  {
    if n == 0 then h else
    OneRound(Rounds(h, block, n - 1), Schedule(block, n - 1), n - 1)
  }

  function OneRound(v: Hash, w: Word, t: nat): Hash {
    var sum := Add(Add(Add(Add(Rotl(v.a, 5), RoundFunction(t, v.b, v.c, v.d)), v.e), RoundConstant(t)), w);
    Hash(sum, v.a, Rotl(v.b, 30), v.c, v.d)
  }

  function Compress(h: Hash, block: seq<Byte>): Hash
    requires |block| == 64
  {
    var v := Rounds(h, block, 80);
    Hash(Add(h.a, v.a), Add(h.b, v.b), Add(h.c, v.c), Add(h.d, v.d), Add(h.e, v.e))
  }

  function FoldBlocks(h: Hash, bytes: seq<Byte>): Hash
    requires |bytes| % 64 == 0
  {
    if bytes == [] then h
    else Compress(FoldBlocks(h, bytes[..|bytes| - 64]), bytes[|bytes| - 64..])
  }

  // ----- FIPS 180-4: padding (section 5.1.1) -----

  function ZeroBytes(k: nat): (s: seq<Byte>)
    ensures |s| == k
  {
    seq(k, _ => 0)
  }

  /** The least number of zero bytes after 0x80 that leaves room for the length. */
  function PadZeros(n: nat): (k: nat)
    ensures (n + 1 + k) % 64 == 56 && k < 64
  {
    (119 - n % 64) % 64
  }

  function Pad(msg: seq<Byte>): (p: seq<Byte>)
    ensures |p| % 64 == 0
  {
    assert (|msg| + 1 + PadZeros(|msg|) + 8) % 64 == 0;
    msg + [0x80] + ZeroBytes(PadZeros(|msg|)) + BeBytes(8 * |msg|, 8)
  }

  function Digest(msg: seq<Byte>): Hash {
    FoldBlocks(INITIAL, Pad(msg))
  }

  // ----- The implementation -----

  /** `LeftRotate` as the source writes it. */
  function LeftRotate(value: Word, count: nat): Word
    requires 0 < count < 32
  {
    (value << count) ^ (value >> (32 - count))
  }

  lemma RotatesAgree(x: Word)
    ensures LeftRotate(x, 1) == Rotl(x, 1)
    ensures LeftRotate(x, 5) == Rotl(x, 5)
    ensures LeftRotate(x, 30) == Rotl(x, 30)
  {
  }

  /** The selections as the source writes them, with "or" for "exclusive or". */
  function ChooseOr(b: Word, c: Word, d: Word): Word {
    (b & c) | (!b & d)
  }

  function MajorityOr(b: Word, c: Word, d: Word): Word {
    (b & c) | (b & d) | (c & d)
  }

  lemma ChooseAgrees(b: Word, c: Word, d: Word)
    ensures ChooseOr(b, c, d) == Choose(b, c, d)
  {
    assert (b & c) & (!b & d) == 0;
    assert (b & c) | (!b & d) == (b & c) ^ (!b & d);
  }

  lemma MajorityAgrees(b: Word, c: Word, d: Word)
    ensures MajorityOr(b, c, d) == Majority(b, c, d)
  {
    assert (b & c) | (b & d) | (c & d) == (b & c) ^ (b & d) ^ (c & d);
  }

  lemma FoldAppend(h: Hash, bytes: seq<Byte>, block: seq<Byte>)
    requires |bytes| % 64 == 0 && |block| == 64
    ensures |bytes + block| % 64 == 0
    ensures FoldBlocks(h, bytes + block) == Compress(FoldBlocks(h, bytes), block)
  {
    var all := bytes + block;
    assert all[..|all| - 64] == bytes && all[|all| - 64..] == block;
  }

  class SHA1 {
    var digest: Hash
    const block: array<Byte>
    var blockByteIndex: nat
    var byteCount: nat

    constructor ()
      ensures fresh(block) && Absorbed([])
    {
      block := new Byte[64](_ => 0);
      digest := INITIAL;
      blockByteIndex := 0;
      byteCount := 0;
    }

    /** The object has taken in exactly `msg`: whole blocks are folded into the
        digest and the rest lies at the front of the block buffer. */
    ghost predicate Absorbed(msg: seq<Byte>)
      reads this, block
    {
      && block.Length == 64
      && byteCount == |msg| && blockByteIndex == |msg| % 64
      && block[..blockByteIndex] == msg[|msg| - blockByteIndex..]
      && digest == FoldBlocks(INITIAL, msg[..|msg| - blockByteIndex])
    }

    method ProcessByte(octet: Byte, ghost msg: seq<Byte>)
      requires Absorbed(msg)
      modifies this, block
      ensures Absorbed(msg + [octet])
    {
      hide FoldBlocks, Compress;
      OneMore(msg, octet);
      ghost var whole := msg[..|msg| - blockByteIndex];
      block[blockByteIndex] := octet;
      blockByteIndex := blockByteIndex + 1;
      byteCount := byteCount + 1;
      assert block[..blockByteIndex] == block[..blockByteIndex - 1] + [octet];
      if blockByteIndex == 64 {
        assert block[..64] == block[..];
        FoldAppend(INITIAL, whole, block[..]);
        blockByteIndex := 0;
        ProcessBlock();
      }
    }

    /** `processBlock()`. */
    method ProcessBlock()
      requires block.Length == 64
      modifies `digest
      ensures digest == Compress(old(digest), block[..])
    {
      hide Rounds, Add;
      var w := MakeSchedule();
      var v := RunRounds(w);
      digest := Hash(Add(digest.a, v.a), Add(digest.b, v.b), Add(digest.c, v.c), Add(digest.d, v.d), Add(digest.e, v.e));
    }

    method MakeSchedule() returns (w: array<Word>)
      requires block.Length == 64
      ensures w.Length == 80 && forall j :: 0 <= j < 80 ==> w[j] == Schedule(block[..], j)
    {
      hide Rotl, LeftRotate, Pack, Xor4;
      ghost var bytes := block[..];
      w := new Word[80](_ => 0);
      var i := 0;
      while i < 16
        invariant 0 <= i <= 16
        invariant forall j :: 0 <= j < i ==> w[j] == Schedule(bytes, j)
      {
        w[i] := Pack(block[i * 4], block[i * 4 + 1], block[i * 4 + 2], block[i * 4 + 3]);
        i := i + 1;
      }
      while i < 80
        invariant 16 <= i <= 80
        invariant forall j :: 0 <= j < i ==> w[j] == Schedule(bytes, j)
      {
        var x := Xor4(w[i - 3], w[i - 8], w[i - 14], w[i - 16]);
        RotatesAgree(x);
        w[i] := LeftRotate(x, 1);
        i := i + 1;
      }
    }

    method RunRounds(w: array<Word>) returns (v: Hash)
      requires block.Length == 64 && w.Length == 80
      requires forall j :: 0 <= j < 80 ==> w[j] == Schedule(block[..], j)
      ensures v == Rounds(digest, block[..], 80)
    {
      hide OneRound, Schedule;
      v := digest;
      var i := 0;
      while i < 80
        invariant 0 <= i <= 80
        invariant v == Rounds(digest, block[..], i)
      {
        v := Round(v, w[i], i);
        i := i + 1;
      }
    }

    /** One pass of the round loop. */
    method Round(v: Hash, w: Word, t: nat) returns (next: Hash)
      requires t < 80
      ensures next == OneRound(v, w, t)
    {
      hide Rotl, LeftRotate, Choose, Majority, Parity, ChooseOr, MajorityOr, Add;
      var f, k;
      ChooseAgrees(v.b, v.c, v.d);
      MajorityAgrees(v.b, v.c, v.d);
      RotatesAgree(v.a);
      RotatesAgree(v.b);
      if t < 20 {
        f := ChooseOr(v.b, v.c, v.d);
        k := 0x5A827999;
      } else if t < 40 {
        f := Parity(v.b, v.c, v.d);
        k := 0x6ED9EBA1;
      } else if t < 60 {
        f := MajorityOr(v.b, v.c, v.d);
        k := 0x8F1BBCDC;
      } else {
        f := Parity(v.b, v.c, v.d);
        k := 0xCA62C1D6;
      }
      var temp := Add(Add(Add(Add(LeftRotate(v.a, 5), f), v.e), k), w);
      var e, d, c, b, a := v.d, v.c, LeftRotate(v.b, 30), v.a, temp;
      next := Hash(a, b, c, d, e);
    }

    /** `processBytes`: whatever was taken in before, it continues with `data`. */
    method ProcessBytes(data: seq<Byte>, ghost msg: seq<Byte>)
      requires Absorbed(msg)
      modifies this, block
      ensures Absorbed(msg + data)
    {
      hide Absorbed;
      var i := 0;
      assert msg + data[..0] == msg;
      while i < |data|
        invariant 0 <= i <= |data|
        invariant Absorbed(msg + data[..i])
      {
        ProcessByte(data[i], msg + data[..i]);
        assert msg + data[..i] + [data[i]] == msg + data[..i + 1];
        i := i + 1;
      }
      assert data[..i] == data;
    }

    /** Zero bytes until the block is full. */
    method ZerosToEnd(ghost msg: seq<Byte>) returns (ghost count: nat)
      requires Absorbed(msg) && blockByteIndex > 0
      modifies this, block
      ensures count == 64 - old(blockByteIndex) && Absorbed(msg + ZeroBytes(count)) && blockByteIndex == 0
    {
      hide FoldBlocks, Absorbed;
      count := 0;
      ghost var start := blockByteIndex;
      IndexIs(msg);
      assert msg + ZeroBytes(0) == msg;
      while blockByteIndex != 0
        invariant Absorbed(msg + ZeroBytes(count))
        invariant count <= 64 - start && blockByteIndex == if count == 64 - start then 0 else start + count
        decreases 64 - count
      {
        IndexIs(msg + ZeroBytes(count));
        ProcessByte(0, msg + ZeroBytes(count));
        ZerosGrow(msg, count);
        count := count + 1;
        IndexIs(msg + ZeroBytes(count));
      }
    }

    /** Zero bytes until only the length is missing in the block. */
    method ZerosToLength(ghost msg: seq<Byte>) returns (ghost count: nat)
      requires Absorbed(msg) && blockByteIndex <= 56
      modifies this, block
      ensures count == 56 - old(blockByteIndex) && Absorbed(msg + ZeroBytes(count))
    {
      hide FoldBlocks, Absorbed;
      count := 0;
      ghost var start := blockByteIndex;
      IndexIs(msg);
      assert msg + ZeroBytes(0) == msg;
      while blockByteIndex < 56
        invariant Absorbed(msg + ZeroBytes(count))
        invariant blockByteIndex == start + count <= 56
        decreases 56 - blockByteIndex
      {
        IndexIs(msg + ZeroBytes(count));
        ProcessByte(0, msg + ZeroBytes(count));
        ZerosGrow(msg, count);
        count := count + 1;
        IndexIs(msg + ZeroBytes(count));
      }
    }

    /** 0x80 and the zeros in front of the length. */
    method ProcessPadding(ghost msg: seq<Byte>)
      requires Absorbed(msg)
      modifies this, block
      ensures Absorbed(msg + [0x80] + ZeroBytes(PadZeros(|msg|)))
    {
      hide Absorbed, FoldBlocks, PadZeros;
      ProcessByte(0x80, msg);
      ghost var so := msg + [0x80];
      IndexIs(so);
      PadZerosAre(|msg|);
      if blockByteIndex > 56 {
        ghost var zeros := ZerosToEnd(so);
        ghost var more := ZerosToLength(so + ZeroBytes(zeros));
        assert so + ZeroBytes(zeros) + ZeroBytes(more) == so + ZeroBytes(zeros + more);
      } else {
        ghost var zeros := ZerosToLength(so);
      }
    }

    /** `getDigest`: the hash of everything taken in, for messages whose length
        in bits fits the four bytes it writes. */
    method GetDigest(ghost msg: seq<Byte>) returns (d: Hash)
      requires Absorbed(msg) && |msg| < 0x2000_0000
      modifies this, block
      ensures d == Digest(msg)
    {
      var bitCount := byteCount * 8;
      assert bitCount == 8 * |msg|;
      hide Absorbed, FoldBlocks, PadZeros, ZeroBytes, BeBytes;
      ProcessPadding(msg);
      ghost var so := msg + [0x80] + ZeroBytes(PadZeros(|msg|));
      var tail := LengthTail(bitCount);
      LengthBytes(bitCount);
      assert so + tail == Pad(msg);
      hide Pad, LengthTail;
      ProcessBytes(tail, so);
      WholeBlocks(Pad(msg));
      d := digest;
    }

    lemma IndexIs(msg: seq<Byte>)
      requires Absorbed(msg)
      ensures blockByteIndex == |msg| % 64
    {
    }

    lemma WholeBlocks(msg: seq<Byte>)
      requires Absorbed(msg) && |msg| % 64 == 0
      ensures digest == FoldBlocks(INITIAL, msg)
    {
      assert msg[..|msg|] == msg;
    }
  }

  lemma ZerosGrow(msg: seq<Byte>, count: nat)
    ensures msg + ZeroBytes(count) + [0] == msg + ZeroBytes(count + 1)
    ensures |msg + ZeroBytes(count)| == |msg| + count
    ensures (|msg| + count + 1) % 64 == if (|msg| + count) % 64 == 63 then 0 else (|msg| + count) % 64 + 1
  {
  }

  /** How the split of a message into blocks moves on by one byte. */
  lemma OneMore(msg: seq<Byte>, octet: Byte)
    ensures
      var rest, next := |msg| % 64, msg + [octet];
      && next[..|next| - rest - 1] == msg[..|msg| - rest]
      && next[|next| - rest - 1..] == msg[|msg| - rest..] + [octet]
      && |next| % 64 == (if rest == 63 then 0 else rest + 1)
      && (rest == 63 ==> next[..|next|] == next == msg[..|msg| - rest] + (msg[|msg| - rest..] + [octet]) && next[|next|..] == [])
  {
  }

  /** The zeros the two branches of `getDigest` write. */
  lemma PadZerosAre(n: nat)
    ensures
      var i := (n + 1) % 64;
      PadZeros(n) == if i > 56 then (64 - i) + 56 else 56 - i
  {
  }

  lemma NestedDivision(n: nat)
    ensures n / 256 / 256 == n / 0x1_0000
    ensures n / 256 / 256 / 256 == n / 0x100_0000
  {
  }

  /** The last eight bytes that `getDigest` writes. */
  function LengthTail(n: nat): seq<Byte> {
    [0, 0, 0, 0, n / 0x100_0000 % 256, n / 0x1_0000 % 256, n / 0x100 % 256, n % 256]
  }

  /** Four zero bytes and the four low bytes are the 64-bit length. */
  lemma LengthBytes(n: nat)
    requires n < TWO32
    ensures BeBytes(n, 8) == LengthTail(n)
  {
    PowValues();
    BeSplit(n, 0, 4, 4);
    FourBytes(0);
    FourBytes(n);
    NestedDivision(n);
  }

  lemma FourBytes(n: nat)
    ensures BeBytes(n, 4) == [n / 256 / 256 / 256 % 256, n / 256 / 256 % 256, n / 256 % 256, n % 256]
  {
    var a, b, c := n / 256, n / 256 / 256, n / 256 / 256 / 256;
    assert BeBytes(c, 1) == BeBytes(c / 256, 0) + [c % 256] == [c % 256];
    assert BeBytes(b, 2) == BeBytes(c, 1) + [b % 256];
    assert BeBytes(a, 3) == BeBytes(b, 2) + [a % 256];
    assert BeBytes(n, 4) == BeBytes(a, 3) + [n % 256];
  }

  /** Hashing a message handed over in any pieces gives its SHA-1. */
  method HashPieces(pieces: seq<seq<Byte>>) returns (d: Hash)
    requires |Joined(pieces)| < 0x2000_0000
    ensures d == Digest(Joined(pieces))
  {
    hide SHA1.Absorbed, Digest;
    var sha := new SHA1();
    var i := 0;
    assert pieces[..0] == [];
    while i < |pieces|
      invariant 0 <= i <= |pieces|
      invariant fresh(sha) && fresh(sha.block)
      invariant sha.Absorbed(Joined(pieces[..i]))
    {
      sha.ProcessBytes(pieces[i], Joined(pieces[..i]));
      assert pieces[..i + 1][..i] == pieces[..i];
      i := i + 1;
    }
    assert pieces[..i] == pieces;
    d := sha.GetDigest(Joined(pieces));
  }
}
