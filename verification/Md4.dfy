/** MD4: the digest as sections 3.1 to 3.5 of RFC 1320 define it. */
module Md4 {
  import opened Ir
  import opened Machine
  import opened Memory
  import opened Script

  const M32: int := 0x1_0000_0000

  type Word32 = w: int | 0 <= w < 0x1_0000_0000

  // ----- words -----

  function Add32(x: Word32, y: Word32): Word32 {
    Modulo32(x as int + y)
  }

  function Modulo32(x: int): Word32 {
    x % M32
  }

  lemma Pow2Is32(n: nat)
    requires n == 32
    ensures Pow2(n) == M32
  {
    assert Pow2(n - 31) == 2 * Pow2(n - 32);
    Doubled(n - 31, n - 30, 2, 4);
    Doubled(n - 30, n - 28, 4, 16);
    Doubled(n - 28, n - 24, 16, 0x100);
    Doubled(n - 24, n - 16, 0x100, 0x1_0000);
    Doubled(n - 16, n, 0x1_0000, M32);
  }

  function Bits32(op: AluOp, x: Word32, y: Word32): Word32 {
    BitwiseBound(op, x, y, 32);
    Pow2Is32(32);
    Bitwise(op, x, y, 32)
  }

  function Not32(x: Word32): Word32 {
    M32 - 1 - x
  }

  function F(x: Word32, y: Word32, z: Word32): Word32 {
    Bits32(Or, Bits32(And, x, y), Bits32(And, Not32(x), z))
  }

  function G(x: Word32, y: Word32, z: Word32): Word32 {
    Bits32(Or, Bits32(Or, Bits32(And, x, y), Bits32(And, x, z)), Bits32(And, y, z))
  }

  function H(x: Word32, y: Word32, z: Word32): Word32 {
    Bits32(Xor, Bits32(Xor, x, y), z)
  }

  /** Rotation to the left by s bits. */
  function Rotate(x: Word32, s: nat): Word32
    decreases s, x
  {
    if s == 0 then x
    else Rotate(if x < 0x8000_0000 then 2 * x else 2 * x - M32 + 1, s - 1)
  }

  // ----- one block: section 3.4 -----

  datatype Chain = Chain(a: Word32, b: Word32, c: Word32, d: Word32)

  function RoundOf(i: nat): nat {
    if i < 16 then 1 else if i < 32 then 2 else 3
  }

  /** One of four values, by position. */
  function Pick(j: nat, w: nat, x: nat, y: nat, z: nat): nat {
    if j == 0 then w else if j == 1 then x else if j == 2 then y else z
  }

  /** The order in which rounds 2 and 3 use the words of a block: by columns,
      and by reversed index bits. */
  function ColumnWord(j: nat): nat {
    if j < 4 then 4 * j else if j < 8 then 4 * (j - 4) + 1 else if j < 12 then 4 * (j - 8) + 2 else 4 * (j - 12) + 3
  }

  function ReversedWord(j: nat): nat {
    if j < 4 then Pick(j, 0, 8, 4, 12)
    else if j < 8 then Pick(j - 4, 2, 10, 6, 14)
    else if j < 12 then Pick(j - 8, 1, 9, 5, 13)
    else Pick(j - 12, 3, 11, 7, 15)
  }

  /** The word operation i uses, and how far it rotates. */
  function WordFor(i: nat): (k: nat)
    requires i < 48
    ensures k < 16
  {
    if i < 16 then i else if i < 32 then ColumnWord(i - 16) else ReversedWord(i - 32)
  }

  function ShiftFor(i: nat): nat {
    if i < 16 then Pick(i % 4, 3, 7, 11, 19) else if i < 32 then Pick(i % 4, 3, 5, 9, 13) else Pick(i % 4, 3, 9, 11, 15)
  }

  /** The word operations MD4 is built from: `stir` gives the new value of the
      first register in round r from a word of the block, a rotation and the
      four registers; `add` is addition. */
  datatype Ops = Ops(
    stir: (nat, Word32, nat, Word32, Word32, Word32, Word32) -> Word32,
    add: (Word32, Word32) -> Word32)

  function Stir(r: nat, w: Word32, s: nat, a: Word32, b: Word32, c: Word32, d: Word32): Word32 {
    if r == 1 then Rotate(Add32(Add32(a, F(b, c, d)), w), s)
    else if r == 2 then Rotate(Add32(Add32(Add32(a, G(b, c, d)), w), 0x5A827999), s)
    else Rotate(Add32(Add32(Add32(a, H(b, c, d)), w), 0x6ED9EBA1), s)
  }

  const MD4_OPS: Ops := Ops(Stir, Add32)

  function Op(f: Ops, i: nat, m: seq<Word32>, a: Word32, b: Word32, c: Word32, d: Word32): Word32
    requires |m| == 16 && i < 48
  {
    f.stir(RoundOf(i), m[WordFor(i)], ShiftFor(i), a, b, c, d)
  }

  /** Operation i; the registers change roles after it, A B C D becoming
      D A B C. */
  function Turn(f: Ops, m: seq<Word32>, i: nat, q: Chain): Chain
    requires |m| == 16 && i < 48
  {
    Chain(q.d, Op(f, i, m, q.a, q.b, q.c, q.d), q.b, q.c)
  }

  /** The first n operations of the three rounds. */
  function Rounds(f: Ops, m: seq<Word32>, n: nat, q: Chain): Chain
    requires |m| == 16 && n <= 48
    decreases n, m
  {
    if n == 0 then q else Turn(f, m, n - 1, Rounds(f, m, n - 1, q))
  }

  /** The rounds, and the sum with the registers before them. */
  function Compress(f: Ops, q: Chain, m: seq<Word32>): Chain
    requires |m| == 16
  {
    Sum(f, Rounds(f, m, 48, q), q)
  }

  function Sum(f: Ops, r: Chain, q: Chain): Chain {
    Chain(f.add(r.a, q.a), f.add(r.b, q.b), f.add(r.c, q.c), f.add(r.d, q.d))
  }

  // ----- bytes -----

  function Little(s: seq<Byte>): Word32
    requires |s| == 4
  {
    s[0] as int + 0x100 * s[1] as int + 0x1_0000 * s[2] as int + 0x100_0000 * s[3] as int
  }

  function WordAt(s: seq<Byte>, i: nat): Word32
    requires |s| == 64 && i < 16
  {
    Little(s[4 * i..4 * i + 4])
  }

  function Words(s: seq<Byte>): (m: seq<Word32>)
    requires |s| == 64
    ensures |m| == 16 && forall i {:trigger m[i]} | 0 <= i < 16 :: m[i] == WordAt(s, i)
  {
    seq(16, i requires 0 <= i < 16 => WordAt(s, i))
  }

  /** The bytes of a word, lowest first. */
  function Bytes4(x: Word32): (s: seq<Byte>)
    ensures |s| == 4 && Little(s) == x
  {
    [x % 0x100, x / 0x100 % 0x100, x / 0x100 / 0x100 % 0x100, x / 0x100 / 0x100 / 0x100]
  }

  // ----- messages -----

  const INIT: Chain := Chain(0x67452301, 0xefcdab89, 0x98badcfe, 0x10325476)

  /** Section 3.1: a one bit, then zeros up to 56 modulo 64. */
  function PadZeros(n: nat): nat {
    if n % 64 <= 55 then 55 - n % 64 else 119 - n % 64
  }

  function LowWord(x: nat): Word32 {
    x % M32
  }

  function HighWord(x: nat): Word32 {
    x / M32 % M32
  }

  /** Sections 3.1 and 3.2: padding, then the length in bits as two words, the
      low-order word first. */
  function Padded(m: seq<Byte>): seq<Byte> {
    m + [0x80] + Zeros(PadZeros(|m|)) + Bytes4(LowWord(8 * |m|)) + Bytes4(HighWord(8 * |m|))
  }

  /** The first n 64-byte blocks, in order, each through `step`. */
  function Fold(step: BlockStep, q: Chain, s: seq<Byte>, n: nat): Chain
    requires 64 * n <= |s|
    decreases n, s
  {
    if n == 0 then q else step(Fold(step, q, s, n - 1), s[64 * (n - 1)..64 * n])
  }

  type BlockStep = (Chain, seq<Byte>) -> Chain

  function StepOf(f: Ops): BlockStep {
    (q: Chain, s: seq<Byte>) => if |s| == 64 then Compress(f, q, Words(s)) else q
  }

  /** Section 3.4, with the operations f. */
  function Blocks(f: Ops, q: Chain, s: seq<Byte>): Chain {
    Fold(StepOf(f), q, s, |s| / 64)
  }

  /** Section 3.5. */
  function Output(q: Chain): seq<Byte> {
    Bytes4(q.a) + Bytes4(q.b) + Bytes4(q.c) + Bytes4(q.d)
  }

  function Digest(m: seq<Byte>): seq<Byte> {
    Output(Blocks(MD4_OPS, INIT, Padded(m)))
  }

  // ----- laws -----

  lemma {:induction false} FoldPrefix(step: BlockStep, q: Chain, s: seq<Byte>, t: seq<Byte>, n: nat)
    requires 64 * n <= |s| && 64 * n <= |t| && s[..64 * n] == t[..64 * n]
    ensures Fold(step, q, s, n) == Fold(step, q, t, n)
    decreases n
  {
    if n > 0 {
      var k := 64 * (n - 1);
      assert s[..k] == s[..64 * n][..k] && t[..k] == t[..64 * n][..k];
      assert s[k..64 * n] == s[..64 * n][k..] && t[k..64 * n] == t[..64 * n][k..];
      FoldPrefix(step, q, s, t, n - 1);
    }
  }

  // ----- what the code pads with -----

  /** mdfour_tail writes the low word of the length only. */
  function CodePadded(m: seq<Byte>): seq<Byte> {
    m + [0x80] + Zeros(PadZeros(|m|)) + Bytes4(LowWord(8 * |m|)) + Zeros(4)
  }

  lemma PadFits(n: nat)
    ensures (n + PadZeros(n) + 9) % 64 == 0
  {
    var q, r := n / 64, n % 64;
    assert n + PadZeros(n) + 9 == 64 * (q + 1) || n + PadZeros(n) + 9 == 64 * (q + 2);
  }

  lemma PaddedBlocks(m: seq<Byte>)
    ensures |Padded(m)| % 64 == 0 && |CodePadded(m)| % 64 == 0 && |CodePadded(m)| == |Padded(m)|
  {
    PadFits(|m|);
    assert |Padded(m)| == |m| + PadZeros(|m|) + 9;
  }

  lemma HighIsZero(n: nat)
    ensures HighWord(8 * n) == 0 <==> n % 0x2000_0000_0000_0000 < 0x2000_0000
  {
    var q, r := n / 0x2000_0000, n % 0x2000_0000;
    assert 8 * n / M32 == q;
    assert n % 0x2000_0000_0000_0000 == 0x2000_0000 * (q % M32) + r by {
      var k := q / M32;
      assert n == 0x2000_0000_0000_0000 * k + (0x2000_0000 * (q % M32) + r);
    }
  }

  /** The padding is the standard one exactly for messages whose length in bits
      has a zero high word: below 2^29 bytes, modulo 2^61. */
  lemma PaddingIff(m: seq<Byte>)
    ensures CodePadded(m) == Padded(m) <==> |m| % 0x2000_0000_0000_0000 < 0x2000_0000
  {
    HighIsZero(|m|);
    var pre, high := m + [0x80] + Zeros(PadZeros(|m|)) + Bytes4(LowWord(8 * |m|)), HighWord(8 * |m|);
    assert Padded(m)[|pre|..] == Bytes4(high) && CodePadded(m)[|pre|..] == Zeros(4);
    if high == 0 {
      assert Bytes4(high) == Zeros(4);
    } else {
      assert Little(Zeros(4)) == 0;
    }
  }
}
