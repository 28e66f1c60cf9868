/** mdfour.c: the streaming implementation of MD4. */
module Mdfour {
  import opened Machine
  import opened Memory
  import opened Md4
  import opened MdfourWords

  // ----- one block -----

  /** Four operations return the registers to their places. */
  lemma FourTurns(f: Ops, m: seq<Word32>, n: nat, q: Chain)
    requires |m| == 16 && n + 4 <= 48
    ensures var x := Rounds(f, m, n, q);
      var a := Op(f, n, m, x.a, x.b, x.c, x.d);
      var d := Op(f, n + 1, m, x.d, a, x.b, x.c);
      var c := Op(f, n + 2, m, x.c, d, a, x.b);
      var b := Op(f, n + 3, m, x.b, c, d, a);
      Rounds(f, m, n + 4, q) == Chain(a, b, c, d)
  {
    var x := Rounds(f, m, n, q);
    assert Rounds(f, m, n + 1, q) == Turn(f, m, n, x);
    assert Rounds(f, m, n + 2, q) == Turn(f, m, n + 1, Turn(f, m, n, x));
    assert Rounds(f, m, n + 3, q) == Turn(f, m, n + 2, Turn(f, m, n + 1, Turn(f, m, n, x)));
  }

  /** The word and rotation are those of operation i, of round r. */
  predicate Scheduled(i: nat, r: nat, k: nat, s: nat)
    requires i < 48
  {
    RoundOf(i) == r && WordFor(i) == k && ShiftFor(i) == s
  }

  predicate QuadPlan(n: nat, r: nat, k: seq<nat>, s: seq<nat>) {
    n + 4 <= 48 && |k| == |s| == 4 && k[0] < 16 && k[1] < 16 && k[2] < 16 && k[3] < 16
    && Scheduled(n, r, k[0], s[0]) && Scheduled(n + 1, r, k[1], s[1]) && Scheduled(n + 2, r, k[2], s[2])
       && Scheduled(n + 3, r, k[3], s[3])
  }

  /** Four operations of round r, on words k with rotations s. */
  method Quad(f: Ops, r: nat, M: seq<Word32>, k: seq<nat>, s: seq<nat>, q: Chain, ghost n: nat, ghost q0: Chain)
    returns (out: Chain)
    requires |M| == 16 && QuadPlan(n, r, k, s) && q == Rounds(f, M, n, q0)
    ensures out == Rounds(f, M, n + 4, q0)
  {
    var A, B, C, D := q.a, q.b, q.c, q.d;
    A := f.stir(r, M[k[0]], s[0], A, B, C, D);
    D := f.stir(r, M[k[1]], s[1], D, A, B, C);
    C := f.stir(r, M[k[2]], s[2], C, D, A, B);
    B := f.stir(r, M[k[3]], s[3], B, C, D, A);
    FourTurns(f, M, n, q0);
    out := Chain(A, B, C, D);
  }

  /** The sixteen operations of round r. */
  method Round(f: Ops, r: nat, M: seq<Word32>, k: seq<seq<nat>>, s: seq<nat>, q: Chain, ghost n: nat, ghost q0: Chain)
    returns (out: Chain)
    requires |M| == 16 && |k| == 4
    requires QuadPlan(n, r, k[0], s) && QuadPlan(n + 4, r, k[1], s) && QuadPlan(n + 8, r, k[2], s)
    requires QuadPlan(n + 12, r, k[3], s)
    requires q == Rounds(f, M, n, q0)
    ensures out == Rounds(f, M, n + 16, q0)
  {
    out := Quad(f, r, M, k[0], s, q, n, q0);
    out := Quad(f, r, M, k[1], s, out, n + 4, q0);
    out := Quad(f, r, M, k[2], s, out, n + 8, q0);
    out := Quad(f, r, M, k[3], s, out, n + 12, q0);
  }

  // The words each round uses, four operations at a time, and its rotations.
  const WORDS1: seq<seq<nat>> := [[0, 1, 2, 3], [4, 5, 6, 7], [8, 9, 10, 11], [12, 13, 14, 15]]
  const WORDS2: seq<seq<nat>> := [[0, 4, 8, 12], [1, 5, 9, 13], [2, 6, 10, 14], [3, 7, 11, 15]]
  const WORDS3: seq<seq<nat>> := [[0, 8, 4, 12], [2, 10, 6, 14], [1, 9, 5, 13], [3, 11, 7, 15]]
  const SHIFTS1: seq<nat> := [3, 7, 11, 19]
  const SHIFTS2: seq<nat> := [3, 5, 9, 13]
  const SHIFTS3: seq<nat> := [3, 9, 11, 15]

  lemma Plan1()
    ensures QuadPlan(0, 1, WORDS1[0], SHIFTS1) && QuadPlan(4, 1, WORDS1[1], SHIFTS1)
    ensures QuadPlan(8, 1, WORDS1[2], SHIFTS1) && QuadPlan(12, 1, WORDS1[3], SHIFTS1)
  {
  }

  lemma Plan2()
    ensures QuadPlan(16, 2, WORDS2[0], SHIFTS2) && QuadPlan(20, 2, WORDS2[1], SHIFTS2)
    ensures QuadPlan(24, 2, WORDS2[2], SHIFTS2) && QuadPlan(28, 2, WORDS2[3], SHIFTS2)
  {
  }

  lemma Plan3()
    ensures QuadPlan(32, 3, WORDS3[0], SHIFTS3) && QuadPlan(36, 3, WORDS3[1], SHIFTS3)
    ensures QuadPlan(40, 3, WORDS3[2], SHIFTS3) && QuadPlan(44, 3, WORDS3[3], SHIFTS3)
  {
  }

  /** mdfour64: the three rounds, and the sum with the registers before. */
  method Mdfour64(f: Ops, M: seq<Word32>, q: Chain) returns (r: Chain)
    requires |M| == 16
    ensures r == Compress(f, q, M)
  {
    Plan1();
    r := Round(f, 1, M, WORDS1, SHIFTS1, q, 0, q);
    Plan2();
    r := Round(f, 2, M, WORDS2, SHIFTS2, r, 16, q);
    Plan3();
    r := Round(f, 3, M, WORDS3, SHIFTS3, r, 32, q);
    r := Sum(f, r, q);
  }

  function FourBytes(s: seq<Byte>, i: nat): (r: seq<Byte>)
    requires 4 * i + 4 <= |s|
    ensures r == s[4 * i..4 * i + 4]
  {
    [s[4 * i], s[4 * i + 1], s[4 * i + 2], s[4 * i + 3]]
  }

  /** copy64: sixteen little-endian words. */
  method Copy64(s: seq<Byte>) returns (M: seq<Word32>)
    requires |s| == 64
    ensures M == Words(s)
  {
    M := [];
    for i := 0 to 16
      invariant |M| == i && forall j | 0 <= j < i :: M[j] == WordAt(s, j)
    {
      JoinedIsLittle(FourBytes(s, i));
      M := M + [Joined(FourBytes(s, i))];
    }
  }

  /** copy4: the bytes of a word, lowest first. */
  method Copy4(x: Word32) returns (s: seq<Byte>)
    ensures s == Bytes4(x)
  {
    s := [];
    for i := 0 to 4
      invariant s == Bytes4(x)[..i]
    {
      BytesAreCopied(x, i);
      s := s + [ByteOfWord(x, i)];
    }
  }

  // ----- the message so far -----

  /** What is left over after the whole blocks of a message. */
  function Rest(m: seq<Byte>): seq<Byte> {
    m[64 * (|m| / 64)..]
  }

  /** How many bytes the whole blocks have. */
  function Whole(m: seq<Byte>): nat {
    64 * (|m| / 64)
  }

  /** More bytes, but no whole block. */
  lemma MoreRest(step: BlockStep, q: Chain, m: seq<Byte>, s: seq<Byte>)
    requires |Rest(m)| + |s| < 64
    ensures |m + s| / 64 == |m| / 64 && Rest(m + s) == Rest(m) + s
    ensures Fold(step, q, m + s, |m + s| / 64) == Fold(step, q, m, |m| / 64)
  {
    var n := |m| / 64;
    assert |m + s| / 64 == n;
    assert (m + s)[..64 * n] == m[..64 * n];
    FoldPrefix(step, q, m + s, m, n);
  }

  /** A block completed by s. */
  lemma MoreBlock(step: BlockStep, q: Chain, m: seq<Byte>, s: seq<Byte>)
    requires |Rest(m)| + |s| == 64
    ensures |m + s| / 64 == |m| / 64 + 1 && Rest(m + s) == []
    ensures Fold(step, q, m + s, |m + s| / 64) == step(Fold(step, q, m, |m| / 64), Rest(m) + s)
  {
    var n := |m| / 64;
    assert |m + s| == 64 * (n + 1);
    assert (m + s)[..64 * n] == m[..64 * n];
    FoldPrefix(step, q, m + s, m, n);
    assert (m + s)[64 * n..64 * (n + 1)] == Rest(m) + s;
  }

  lemma CountBlock(n: nat)
    ensures LowWord(LowWord(n) + 64) == LowWord(n + 64)
  {
  }

  /** The step is the one the operations f make. */
  ghost predicate Implements(step: BlockStep, f: Ops) {
    forall q, s {:trigger StepIs(step, f, q, s)} :: StepIs(step, f, q, s)
  }

  ghost predicate StepIs(step: BlockStep, f: Ops, q: Chain, s: seq<Byte>) {
    |s| == 64 ==> step(q, s) == Compress(f, q, Words(s))
  }

  lemma StepOfImplements(f: Ops)
    ensures Implements(StepOf(f), f)
  {
  }

  // ----- the end of a message -----

  /** The last one or two blocks: the rest, a one bit, zeros, and the low word
      of the length in bits. */
  function LastBytes(r: seq<Byte>, b: Word32): seq<Byte> {
    r + [0x80] + Zeros(PadZeros(|r|)) + Bytes4(b) + Zeros(4)
  }

  lemma LastSize(r: seq<Byte>, b: Word32)
    requires |r| < 64
    ensures |LastBytes(r, b)| == if |r| <= 55 then 64 else 128
  {
  }

  lemma PaddedEnd(m: seq<Byte>)
    ensures CodePadded(m) == m[..Whole(m)] + LastBytes(Rest(m), LowWord(8 * |m|)) && |Rest(m)| < 64
    ensures |Rest(m)| == |m| % 64
  {
    assert PadZeros(|m|) == PadZeros(|Rest(m)|);
    assert m == m[..Whole(m)] + Rest(m);
  }

  /** Processing the padded message is processing what came before and then the
      last blocks. */
  lemma PaddedFold(step: BlockStep, q: Chain, m: seq<Byte>)
    ensures var p, t, x := CodePadded(m), LastBytes(Rest(m), LowWord(8 * |m|)), Fold(step, q, m, |m| / 64);
      (|t| == 64 ==> Fold(step, q, p, |p| / 64) == step(x, t))
      && (|t| == 128 ==> Fold(step, q, p, |p| / 64) == step(step(x, t[..64]), t[64..]))
  {
    var p, t, n := CodePadded(m), LastBytes(Rest(m), LowWord(8 * |m|)), |m| / 64;
    PaddedEnd(m);
    assert p[..64 * n] == m[..64 * n];
    FoldPrefix(step, q, p, m, n);
    if |t| == 64 {
      assert |p| / 64 == n + 1 && p[64 * n..64 * (n + 1)] == t;
    }
    if |t| == 128 {
      assert |p| / 64 == n + 2 && p[64 * n..64 * (n + 1)] == t[..64] && p[64 * (n + 1)..64 * (n + 2)] == t[64..];
      assert Fold(step, q, p, n + 1) == step(Fold(step, q, p, n), t[..64]);
    }
  }

  lemma CountBits(m: seq<Byte>)
    ensures LowWord(LowWord(Whole(m)) + |Rest(m)|) == LowWord(|m|)
    ensures LowWord(8 * LowWord(|m|)) == LowWord(8 * |m|)
  {
    assert |m| == Whole(m) + |Rest(m)|;
  }

  /** The 128-byte buffer mdfour_tail fills. */
  method FillBuffer(r: seq<Byte>, b: Word32) returns (buf: array<Byte>)
    requires |r| < 64
    ensures fresh(buf) && buf.Length == 128
    ensures |r| <= 55 ==> buf[..64] == LastBytes(r, b)
    ensures |r| > 55 ==> buf[..64] + buf[64..] == LastBytes(r, b)
  {
    buf := new Byte[128](_ => 0);
    var n := |r|;
    for i := 0 to n
      invariant forall j | 0 <= j < 128 :: buf[j] == if j < i then r[j] else 0
    {
      buf[i] := r[i];
    }
    buf[n] := 0x80;
    var at := if n <= 55 then 56 else 120;
    var word := Copy4(b);
    for i := 0 to 4
      invariant forall j | 0 <= j < 128 ::
        buf[j] == if j < n then r[j] else if j == n then 0x80 else if at <= j < at + i then word[j - at] else 0
    {
      buf[at + i] := word[i];
    }
    LastSize(r, b);
    var t := LastBytes(r, b);
    assert forall j | 0 <= j < |t| :: t[j] == buf[j];
  }

  class Hasher {
    const ops: Ops             // the word operations
    ghost const step: BlockStep // what they do to one block
    var q: Chain               // A, B, C, D
    var totalN: Word32         // bytes processed, modulo 2^32
    const tail: array<Byte>    // bytes waiting for a whole block
    var tailLen: nat

    /** The hasher has taken in exactly the message m. */
    ghost predicate Holds(m: seq<Byte>)
      reads this, tail
    {
      Implements(step, ops) && tail.Length == 64 && tailLen < 64 && tail[..tailLen] == Rest(m)
      && q == Fold(step, INIT, m, |m| / 64) && totalN == LowWord(Whole(m))
    }

    /** mdfour_begin. */
    constructor (ops: Ops)
      ensures Holds([]) && fresh(tail) && this.ops == ops && step == StepOf(ops)
    {
      this.ops := ops;
      step := StepOf(ops);
      q, totalN, tailLen := INIT, 0, 0;
      tail := new Byte[64];
      StepOfImplements(ops);
    }

    /** A struct copy: the same message, in memory of its own. */
    constructor Copy(base: Hasher)
      ensures forall m :: base.Holds(m) ==> Holds(m)
      ensures fresh(tail) && ops == base.ops && step == base.step
    {
      step := base.step;
      ops, q, totalN, tailLen := base.ops, base.q, base.totalN, base.tailLen;
      var t := new Byte[base.tail.Length](i requires 0 <= i < base.tail.Length reads base.tail => base.tail[i]);
      tail := t;
      new;
      assert forall k | 0 <= k <= base.tail.Length :: tail[..k] == base.tail[..k];
    }

    /** copy64 and mdfour64 on one block. */
    method Absorb(block: seq<Byte>)
      requires |block| == 64 && Implements(step, ops)
      modifies `q
      ensures q == step(old(q), block)
    {
      assert StepIs(step, ops, q, block);
      var M := Copy64(block);
      q := Mdfour64(ops, M, q);
    }

    /** memcpy into the tail. */
    method Keep(s: seq<Byte>)
      requires tail.Length == 64 && tailLen + |s| <= 64
      modifies `tailLen, tail
      ensures tailLen == old(tailLen) + |s| && tail[..tailLen] == old(tail[..tailLen]) + s
    {
      for i := 0 to |s|
        invariant tailLen == old(tailLen) && tail[..tailLen] == old(tail[..tailLen])
        invariant tail[tailLen..tailLen + i] == s[..i]
      {
        tail[tailLen + i] := s[i];
        assert tail[tailLen..tailLen + i + 1] == tail[tailLen..tailLen + i] + [s[i]];
      }
      tailLen := tailLen + |s|;
      assert tail[..tailLen] == tail[..tailLen - |s|] + tail[tailLen - |s|..tailLen];
    }

    /** mdfour_update: whatever the division into calls, the hasher holds the
        concatenation. */
    method Update(s: seq<Byte>, ghost m: seq<Byte>)
      requires Holds(m)
      modifies this, tail
      ensures Holds(m + s)
    {
      var n := 0;
      assert m + s[..0] == m;
      if tailLen != 0 {
        n := FillTail(s, m);
      }
      while |s| - n >= 64
        invariant 0 <= n <= |s| && Holds(m + s[..n]) && (n < |s| ==> tailLen == 0)
      {
        TakeBlock(s[n..n + 64], m + s[..n]);
        assert m + s[..n] + s[n..n + 64] == m + s[..n + 64];
        n := n + 64;
      }
      assert m + s == (m + s[..n]) + s[n..];
      if n < |s| {
        KeepRest(s[n..], m + s[..n]);
      } else {
        assert s[..n] == s;
      }
    }

    method KeepRest(rest: seq<Byte>, ghost m: seq<Byte>)
      requires Holds(m) && tailLen == 0 && |rest| < 64
      modifies `tailLen, tail
      ensures Holds(m + rest)
    {
      MoreRest(step, INIT, m, rest);
      Keep(rest);
    }

    /** A block straight from the input. */
    method TakeBlock(block: seq<Byte>, ghost m: seq<Byte>)
      requires Holds(m) && tailLen == 0 && |block| == 64
      modifies `q, `totalN
      ensures Holds(m + block)
    {
      MoreBlock(step, INIT, m, block);
      assert Rest(m) == [] && Rest(m) + block == block;
      Absorb(block);
      CountBlock(Whole(m));
      totalN := LowWord(totalN + 64);
    }

    /** The first part of an update: fill up a tail already begun. */
    method FillTail(s: seq<Byte>, ghost m: seq<Byte>) returns (n: nat)
      requires Holds(m)
      modifies this, tail
      ensures n <= |s| && Holds(m + s[..n]) && (n < |s| ==> tailLen == 0)
    {
      n := 64 - tailLen;
      if n > |s| { n := |s|; }
      var part := s[..n];
      Keep(part);
      if tailLen == 64 {
        MoreBlock(step, INIT, m, part);
        assert tail[..] == tail[..tailLen] == Rest(m) + part;
        Absorb(tail[..]);
        CountBlock(Whole(m));
        totalN := LowWord(totalN + 64);
        tailLen := 0;
        assert tail[..0] == [];
      } else {
        MoreRest(step, INIT, m, part);
      }
    }

    /** mdfour_tail: pad what is left and process it. */
    method Tail(ghost m: seq<Byte>)
      requires Holds(m)
      modifies `q, `totalN
      ensures q == Fold(step, INIT, CodePadded(m), |CodePadded(m)| / 64) && totalN == LowWord(|m|)
    {
      CountBits(m);
      PaddedFold(step, INIT, m);
      PaddedEnd(m);
      totalN := LowWord(totalN + tailLen);
      var b := LowWord(8 * totalN);
      LastSize(Rest(m), b);
      var buf := FillBuffer(tail[..tailLen], b);
      if tailLen <= 55 {
        Absorb(buf[..64]);
      } else {
        assert LastBytes(Rest(m), b)[..64] == buf[..64] && LastBytes(Rest(m), b)[64..] == buf[64..];
        Absorb(buf[..64]);
        Absorb(buf[64..]);
      }
    }

    /** mdfour_result. */
    method Registers() returns (sum: seq<Byte>)
      ensures sum == Output(q)
    {
      var a := Copy4(q.a);
      var b := Copy4(q.b);
      var c := Copy4(q.c);
      var d := Copy4(q.d);
      sum := a + b + c + d;
    }

    /** The end of stap_hash::result: digest and length. It is the digest of
        RFC 1320 when the padding is. */
    method Result(ghost m: seq<Byte>) returns (sum: seq<Byte>, n: nat)
      requires Holds(m)
      modifies `q, `totalN
      ensures n == LowWord(|m|) && sum == Output(Fold(step, INIT, CodePadded(m), |CodePadded(m)| / 64))
      ensures step == StepOf(CODE_OPS) && |m| % 0x2000_0000_0000_0000 < 0x2000_0000 ==> sum == Digest(m)
    {
      Tail(m);
      PaddingIff(m);
      CodeOpsAlike();
      FoldsAlike(CODE_OPS, MD4_OPS, INIT, CodePadded(m), |CodePadded(m)| / 64);
      sum := Registers();
      n := totalN;
    }
  }

  /** Hashing a suffix onto a copy of a prefix hash: the digest is that of the
      whole, and the prefix hash can be used again. */
  method ForkedDigest(base: Hasher, suffix: seq<Byte>, ghost m: seq<Byte>) returns (sum: seq<Byte>, n: nat)
    requires base.Holds(m) && base.step == StepOf(CODE_OPS)
    ensures base.Holds(m) && n == LowWord(|m + suffix|)
    ensures |m + suffix| % 0x2000_0000_0000_0000 < 0x2000_0000 ==> sum == Digest(m + suffix)
  {
    var h := new Hasher.Copy(base);
    h.Update(suffix, m);
    sum, n := h.Result(m + suffix);
  }

  /** Any division of a message into updates gives the digest of the message. */
  method ChunkedDigest(chunks: seq<seq<Byte>>) returns (sum: seq<Byte>, n: nat)
    ensures var m := Concat(chunks);
      n == LowWord(|m|) && (|m| % 0x2000_0000_0000_0000 < 0x2000_0000 ==> sum == Digest(m))
  {
    var h := new Hasher(CODE_OPS);
    for i := 0 to |chunks|
      invariant h.Holds(Concat(chunks[..i])) && h.step == StepOf(CODE_OPS) && fresh(h) && fresh(h.tail)
    {
      h.Update(chunks[i], Concat(chunks[..i]));
      assert chunks[..i + 1][..i] == chunks[..i];
    }
    assert chunks[..|chunks|] == chunks;
    sum, n := h.Result(Concat(chunks));
  }

  function Concat(chunks: seq<seq<Byte>>): seq<Byte> {
    if chunks == [] then [] else Concat(chunks[..|chunks| - 1]) + chunks[|chunks| - 1]
  }

  // ----- the key -----

  function Digit(d: nat): char
    requires d < 16
  {
    "0123456789abcdef"[d]
  }

  /** Two digits for each byte. */
  function Hex(s: seq<Byte>): (h: string)
    ensures |h| == 2 * |s|
  {
    if s == [] then "" else [Digit(s[0] / 16), Digit(s[0] % 16)] + Hex(s[1..])
  }

  function Decimal(n: nat): string {
    (if n < 10 then "" else Decimal(n / 10)) + [Digit(n % 10)]
  }

  /** What stap_hash::result returns. */
  function Key(sum: seq<Byte>, n: nat): string {
    Hex(sum) + "_" + Decimal(n)
  }

  lemma DigitsDiffer(c: nat, d: nat)
    requires c < 16 && d < 16 && Digit(c) == Digit(d)
    ensures c == d
  {
  }

  lemma {:induction false} HexInjective(s: seq<Byte>, t: seq<Byte>)
    requires Hex(s) == Hex(t)
    ensures s == t
    decreases |s|
  {
    if s != [] {
      assert Hex(s)[0] == Digit(s[0] / 16) && Hex(s)[1] == Digit(s[0] % 16);
      assert Hex(t)[0] == Digit(t[0] / 16) && Hex(t)[1] == Digit(t[0] % 16);
      DigitsDiffer(s[0] / 16, t[0] / 16);
      DigitsDiffer(s[0] % 16, t[0] % 16);
      assert Hex(s[1..]) == Hex(s)[2..] && Hex(t[1..]) == Hex(t)[2..];
      HexInjective(s[1..], t[1..]);
      assert s == [s[0]] + s[1..] && t == [t[0]] + t[1..];
    }
  }

  lemma {:induction false} DecimalInjective(m: nat, n: nat)
    requires Decimal(m) == Decimal(n)
    ensures m == n
    decreases m
  {
    var k := |Decimal(m)| - 1;
    assert Decimal(m)[k] == Digit(m % 10) && Decimal(n)[k] == Digit(n % 10);
    DigitsDiffer(m % 10, n % 10);
    DecimalLong(m);
    DecimalLong(n);
    if m >= 10 {
      assert Decimal(m / 10) == Decimal(m)[..k] && Decimal(n / 10) == Decimal(n)[..k];
      DecimalInjective(m / 10, n / 10);
    }
  }

  lemma DecimalLong(n: nat)
    ensures |Decimal(n)| > 0 && (|Decimal(n)| > 1 <==> n >= 10)
  {
    if n >= 10 { assert |Decimal(n / 10)| > 0; }
  }

  /** Keys are equal only for equal digests and lengths. */
  lemma KeyInjective(s: seq<Byte>, t: seq<Byte>, m: nat, n: nat)
    requires |s| == |t| && Key(s, m) == Key(t, n)
    ensures s == t && m == n
  {
    var k := 2 * |s|;
    assert Hex(s) == Key(s, m)[..k] && Hex(t) == Key(t, n)[..k];
    HexInjective(s, t);
    assert Decimal(m) == Key(s, m)[k + 1..] && Decimal(n) == Key(t, n)[k + 1..];
    DecimalInjective(m, n);
  }

  /** The loop that prints the sum. */
  method PrintKey(sum: seq<Byte>, n: nat) returns (r: string)
    ensures r == Key(sum, n)
  {
    r := "";
    for i := 0 to |sum|
      invariant r + Hex(sum[i..]) == Hex(sum)
    {
      assert sum[i..][1..] == sum[i + 1..];
      r := r + [Digit(sum[i] / 16), Digit(sum[i] % 16)];
    }
    assert r + "" == r;
    r := r + "_" + Decimal(n);
  }
}
