/** The word operations of mdfour.c as its macros write them, with shifts and
    masks, and that they are the operations of RFC 1320. */
module MdfourWords {
  import opened Ir
  import opened Machine
  import opened Script
  import opened Arithmetic
  import opened Bits
  import opened Md4

  const MASK32: Word32 := 0xffff_ffff

  // ----- shifts and masks -----

  function ShiftUp(x: Word32, s: nat): Word32 {
    Modulo32(x * Pow2(s))
  }

  function ShiftDown(x: Word32, s: nat): Word32 {
    Quotient(x, Pow2(s))
  }

  function Quotient(x: Word32, d: nat): Word32
    requires d > 0
  {
    QuotientBound(x, d);
    x / d
  }

  /** The operators of 32-bit words, with the width as a variable. */
  lemma Bits32Is(op: AluOp, x: Word32, y: Word32, n: nat, r: nat)
    requires n == 32 && Bitwise(op, x, y, n) == r
    ensures Bits32(op, x, y) == r
  {
  }

  /** A mask keeps the low bits. */
  lemma {:induction false} MaskIs(x: nat, k: nat, n: nat)
    requires k <= n && x < Pow2(n)
    ensures Bitwise(And, x, Pow2(k) - 1, n) == x % Pow2(k)
    decreases n
  {
    if k == 0 {
      NothingAnd(x, n);
    } else {
      MaskIs(x / 2, k - 1, n - 1);
      assert (Pow2(k) - 1) % 2 == 1 && (Pow2(k) - 1) / 2 == Pow2(k - 1) - 1;
      HalfMod(x, Pow2(k - 1));
    }
  }

  lemma {:induction false} NothingAnd(x: nat, n: nat)
    ensures Bitwise(And, x, 0, n) == 0
    decreases n
  {
    if n > 0 { NothingAnd(x / 2, n - 1); }
  }

  lemma AllOnes(x: Word32, n: nat, m: nat)
    requires n == 32 && m == M32 - 1
    ensures Bitwise(And, x, m, n) == x
  {
    Pow2Is32(n);
    BitUnits(x, n);
    assert m == Pow2(n) - 1;
  }

  lemma Masked(x: Word32)
    ensures Bits32(And, x, MASK32) == x
  {
    AllOnes(x, 32, MASK32);
    Bits32Is(And, x, MASK32, 32, x);
  }

  lemma Doubles(a: nat, p: nat)
    ensures a * (2 * p) == 2 * (a * p)
  {
  }

  /** Words without a common bit: their union is their sum. */
  lemma {:induction false} OrAdds(a: nat, y: nat, k: nat, n: nat)
    requires k <= n && y < Pow2(k) && a < Pow2(n - k)
    ensures Bitwise(Or, a * Pow2(k), y, n) == a * Pow2(k) + y
    decreases k
  {
    if k == 0 {
      BitUnits(a, n);
    } else {
      var h := a * Pow2(k - 1);
      Doubles(a, Pow2(k - 1));
      OrAdds(a, y / 2, k - 1, n - 1);
      OrStep(h, y, n);
    }
  }

  lemma OrStep(h: nat, y: nat, n: nat)
    requires n > 0 && Bitwise(Or, h, y / 2, n - 1) == h + y / 2
    ensures Bitwise(Or, 2 * h, y, n) == 2 * h + y
  {
    assert 2 * h % 2 == 0 && 2 * h / 2 == h;
  }

  /** Two parts joined: a from bit k on, y below. */
  lemma JoinParts(a: nat, k: nat, x: Word32, y: Word32, n: nat)
    requires n == 32 && k <= n && y < Pow2(k) && a < Pow2(n - k) && x == a * Pow2(k)
    ensures Bits32(Or, x, y) == x + y
  {
    OrAdds(a, y, k, n);
    Bits32Is(Or, x, y, n, x + y);
  }

  // ----- rotation -----

  /** The bits shifted out come back at the low end. */
  lemma {:induction false} RotateIs(x: Word32, s: nat, t: nat)
    requires s + t == 32
    ensures Rotate(x, s) == x % Pow2(t) * Pow2(s) + x / Pow2(t)
    decreases s
  {
    if s == 0 {
      Pow2Is32(t);
    } else {
      var x' := if x < 0x8000_0000 then 2 * x else 2 * x - M32 + 1;
      Pow2Add(t, s - 1);
      Pow2Is31(t + (s - 1));
      RotateIs(x', s - 1, t + 1);
      RotateStep(x, x', Pow2(t), Pow2(s - 1));
    }
  }

  lemma Pow2Is31(n: nat)
    requires n == 31
    ensures Pow2(n) == 0x8000_0000
  {
    Pow2Is32(n + 1);
  }

  lemma RotateStep(x: Word32, x': Word32, p: nat, q: nat)
    requires p > 0 && q > 0 && p * q == 0x8000_0000 && x' == if x < 0x8000_0000 then 2 * x else 2 * x - M32 + 1
    ensures x' % (2 * p) * q + x' / (2 * p) == x % p * (2 * q) + x / p
  {
    var a, b, hi := x / p, x % p, if x < 0x8000_0000 then 0 else 1;
    assert x == p * a + b;
    TopBit(x, p, q, a, b, hi);
    TurnedOnce(x, x', p, q, a, b, hi);
  }

  /** The top bit of x is the top bit of its high part. */
  lemma TopBit(x: nat, p: nat, q: nat, a: nat, b: nat, hi: nat)
    requires p > 0 && q > 0 && p * q == 0x8000_0000 && x == p * a + b && b < p && x < M32
    requires hi == if x < 0x8000_0000 then 0 else 1
    ensures 0 <= a - hi * q < q
  {
    assert p * (a + 1) == p * a + p && p * (2 * q) == 2 * (p * q);
    if a >= q { Monotone(p, q, a); }
    if a < q { Monotone(p, a + 1, q); }
    if a >= 2 * q { Monotone(p, 2 * q, a); }
  }

  lemma TurnedOnce(x: nat, x': nat, p: nat, q: nat, a: nat, b: nat, hi: nat)
    requires p > 0 && q > 0 && p * q == 0x8000_0000 && x == p * a + b && b < p && 0 <= hi <= 1 && 0 <= a - hi * q < q
    requires x' == 2 * x - hi * (M32 - 1)
    ensures x' % (2 * p) * q + x' / (2 * p) == b * (2 * q) + a
  {
    var c := a - hi * q;
    SplitHigh(p, q, a, c, hi);
    Regrouped(x', p, c, b, hi);
    ModIs(x', 2 * p, c, 2 * b + hi);
    Spread(b, hi, q);
  }

  lemma SplitHigh(p: nat, q: nat, a: nat, c: int, hi: nat)
    requires 0 <= hi <= 1 && a == c + hi * q && p * q == 0x8000_0000
    ensures p * a == p * c + hi * 0x8000_0000
  {
    if hi == 1 { assert p * (c + q) == p * c + p * q; }
  }

  lemma Regrouped(x': int, p: nat, c: int, b: nat, hi: nat)
    requires x' == 2 * (p * c + hi * 0x8000_0000 + b) - hi * (M32 - 1) && 0 <= hi <= 1
    ensures x' == 2 * p * c + (2 * b + hi)
  {
    assert 2 * (p * c) == 2 * p * c;
  }

  lemma Spread(b: nat, hi: nat, q: nat)
    requires 0 <= hi <= 1
    ensures (2 * b + hi) * q == b * (2 * q) + hi * q
  {
    assert (2 * b) * q == b * (2 * q);
  }

  /** lshift. */
  function Lshift(x: Word32, s: nat): Word32
    requires s <= 32
  {
    Bits32(Or, Bits32(And, ShiftUp(x, s), MASK32), Bits32(And, ShiftDown(x, 32 - s), MASK32))
  }

  lemma LshiftRotates(x: Word32, s: nat)
    requires 0 < s < 32
    ensures Lshift(x, s) == Rotate(x, s)
  {
    var t := 32 - s;
    RotateIs(x, s, t);
    Pow2Add(t, s);
    Pow2Is32(t + s);
    SplitShift(x, Pow2(t), Pow2(s));
    Masked(ShiftUp(x, s));
    Masked(ShiftDown(x, t));
    JoinParts(x % Pow2(t), s, ShiftUp(x, s), ShiftDown(x, t), 32);
  }

  lemma SplitShift(x: Word32, p: nat, q: nat)
    requires p > 0 && q > 0 && p * q == M32
    ensures Modulo32(x * q) == x % p * q && x / p < q && 0 <= x % p < p
  {
    ShiftSplit(x, p, q, x / p, x % p);
  }

  lemma ShiftSplit(x: nat, p: nat, q: nat, a: nat, b: nat)
    requires p > 0 && q > 0 && p * q == M32 && x == p * a + b && b < p && x < M32
    ensures x * q % M32 == b * q && a < q
  {
    if a >= q { Monotone(p, q, a); }
    assert x * q == M32 * a + b * q by { assert p * a * q == p * q * a; }
    Monotone(q, b + 1, p);
    assert q * (b + 1) == b * q + q;
    ModIs(x * q, M32, a, b * q);
  }

  // ----- the rounds -----

  /** ROUND1, ROUND2 and ROUND3: the new value of the first register. */
  function CodeStir(r: nat, w: Word32, s: nat, a: Word32, b: Word32, c: Word32, d: Word32): Word32 {
    var sum := if r == 1 then Add32(Add32(a, F(b, c, d)), w)
               else if r == 2 then Add32(Add32(Add32(a, G(b, c, d)), w), 0x5A827999)
               else Add32(Add32(Add32(a, H(b, c, d)), w), 0x6ED9EBA1);
    Lshift(Bits32(And, sum, MASK32), if s <= 32 then s else 32)
  }

  function CodeAdd(x: Word32, y: Word32): Word32 {
    Bits32(And, Add32(x, y), MASK32)
  }

  /** The operations mdfour.c is made of. */
  const CODE_OPS: Ops := Ops(CodeStir, CodeAdd)

  lemma StirsAlike(r: nat, w: Word32, s: nat, a: Word32, b: Word32, c: Word32, d: Word32)
    requires 0 < s < 32
    ensures CodeStir(r, w, s, a, b, c, d) == Stir(r, w, s, a, b, c, d)
  {
    var sum := if r == 1 then Add32(Add32(a, F(b, c, d)), w)
               else if r == 2 then Add32(Add32(Add32(a, G(b, c, d)), w), 0x5A827999)
               else Add32(Add32(Add32(a, H(b, c, d)), w), 0x6ED9EBA1);
    Masked(sum);
    LshiftRotates(sum, s);
  }

  /** Operations that agree on the rotations a word allows. */
  ghost predicate OpsAlike(f: Ops, g: Ops) {
    (forall r, w, s: nat, a, b, c, d {:trigger f.stir(r, w, s, a, b, c, d)} | 0 < s < 32 ::
         f.stir(r, w, s, a, b, c, d) == g.stir(r, w, s, a, b, c, d))
    && forall x, y :: f.add(x, y) == g.add(x, y)
  }

  /** With shifts and masks, or as the standard has it. */
  lemma CodeOpsAlike()
    ensures OpsAlike(CODE_OPS, MD4_OPS)
  {
    forall r, w: Word32, s: nat, a: Word32, b: Word32, c: Word32, d: Word32 | 0 < s < 32
      ensures CODE_OPS.stir(r, w, s, a, b, c, d) == MD4_OPS.stir(r, w, s, a, b, c, d)
    {
      StirsAlike(r, w, s, a, b, c, d);
    }
    forall x: Word32, y: Word32 ensures CODE_OPS.add(x, y) == MD4_OPS.add(x, y) { Masked(Add32(x, y)); }
  }

  lemma {:induction false} RoundsAlike(f: Ops, g: Ops, m: seq<Word32>, n: nat, q: Chain)
    requires OpsAlike(f, g) && |m| == 16 && n <= 48
    ensures Rounds(f, m, n, q) == Rounds(g, m, n, q)
    decreases n
  {
    if n > 0 { RoundsAlike(f, g, m, n - 1, q); }
  }

  lemma StepsAlike(f: Ops, g: Ops, q: Chain, s: seq<Byte>)
    requires OpsAlike(f, g) && |s| == 64
    ensures StepOf(f)(q, s) == StepOf(g)(q, s)
  {
    RoundsAlike(f, g, Words(s), 48, q);
  }

  /** Such operations make the same of every message. */
  lemma {:induction false} FoldsAlike(f: Ops, g: Ops, q: Chain, s: seq<Byte>, n: nat)
    requires OpsAlike(f, g) && 64 * n <= |s|
    ensures Fold(StepOf(f), q, s, n) == Fold(StepOf(g), q, s, n)
    decreases n
  {
    if n > 0 {
      FoldsAlike(f, g, q, s, n - 1);
      StepsAlike(f, g, Fold(StepOf(g), q, s, n - 1), s[64 * (n - 1)..64 * n]);
    }
  }

  // ----- bytes -----

  /** copy64: the bytes of a word shifted into place and joined. */
  function Joined(s: seq<Byte>): Word32
    requires |s| == 4
  {
    Bits32(Or, Bits32(Or, Bits32(Or, ShiftUp(s[3], 24), ShiftUp(s[2], 16)), ShiftUp(s[1], 8)), ShiftUp(s[0], 0))
  }

  lemma Powers(z: nat)
    requires z == 0
    ensures Pow2(z) == 1 && Pow2(z + 8) == 0x100 && Pow2(z + 16) == 0x1_0000 && Pow2(z + 24) == 0x100_0000
  {
    assert Pow2(z + 1) == 2;
    Doubled(z + 1, z + 2, 2, 4);
    Doubled(z + 2, z + 4, 4, 16);
    Doubled(z + 4, z + 8, 16, 0x100);
    Doubled(z + 8, z + 16, 0x100, 0x1_0000);
    Pow2Add(z + 16, z + 8);
  }

  lemma ShiftedByte(b: Byte)
    ensures ShiftUp(b, 24) == b * 0x100_0000 && ShiftUp(b, 16) == b * 0x1_0000 && ShiftUp(b, 8) == b * 0x100
    ensures ShiftUp(b, 0) == b
  {
    Powers(0);
  }

  lemma JoinAt(a: nat, k: nat, p: nat, x: Word32, y: Word32)
    requires (k == 24 && p == 0x100_0000 && a < 0x100) || (k == 16 && p == 0x1_0000 && a < 0x1_0000)
      || (k == 8 && p == 0x100 && a < 0x100_0000)
    requires y < p && x == a * p
    ensures Bits32(Or, x, y) == x + y
  {
    Powers(0);
    JoinParts(a, k, x, y, 32);
  }

  lemma JoinedIsLittle(s: seq<Byte>)
    requires |s| == 4
    ensures Joined(s) == Little(s)
  {
    var a, b, c, d := s[3] as int, s[2] as int, s[1] as int, s[0] as int;
    ShiftedByte(s[3]);
    ShiftedByte(s[2]);
    ShiftedByte(s[1]);
    ShiftedByte(s[0]);
    JoinAt(a, 24, 0x100_0000, a * 0x100_0000, b * 0x1_0000);
    JoinAt(a * 0x100 + b, 16, 0x1_0000, a * 0x100_0000 + b * 0x1_0000, c * 0x100);
    JoinAt(a * 0x1_0000 + b * 0x100 + c, 8, 0x100, a * 0x100_0000 + b * 0x1_0000 + c * 0x100, d);
  }

  /** copy4: byte i of a word. */
  function ByteOfWord(x: Word32, i: nat): Word32
    requires i < 4
  {
    Bits32(And, ShiftDown(x, 8 * i), 0xff)
  }

  lemma ByteMask(y: Word32, k: nat, n: nat, m: Word32)
    requires n == 32 && k == 8 && m == 0xff
    ensures Bits32(And, y, m) == y % 0x100
  {
    Powers(k - 8);
    Pow2Is32(n);
    MaskIs(y, k, n);
    assert m == Pow2(k) - 1;
    Bits32Is(And, y, m, n, y % 0x100);
  }

  lemma ByteAfter(x: Word32, i: nat, d: nat)
    requires (i == 0 && d == 1) || (i == 1 && d == 0x100) || (i == 2 && d == 0x1_0000) || (i == 3 && d == 0x100_0000)
    ensures x / d % 0x100 == Bytes4(x)[i]
  {
    var a := x / 0x100;
    var b := a / 0x100;
    ModIs(x, 0x1_0000, b, 0x100 * (a % 0x100) + x % 0x100);
    ModIs(x, 0x100_0000, b / 0x100, 0x1_0000 * (b % 0x100) + 0x100 * (a % 0x100) + x % 0x100);
  }

  lemma BytesAreCopied(x: Word32, i: nat)
    requires i < 4
    ensures ByteOfWord(x, i) == Bytes4(x)[i]
  {
    Powers(0);
    ByteAfter(x, i, Pow2(8 * i));
    ByteMask(ShiftDown(x, 8 * i), 8, 32, 0xff);
  }
}
