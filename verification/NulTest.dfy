/** The test for a zero byte in a word, without a branch. */
module NulTest {
  import opened Ir
  import opened Machine
  import opened Memory
  import opened Script
  import opened Fixup

  // ----- the arithmetic of the trick -----

  function LowBits(x: nat, k: nat): nat
    decreases k, x
  {
    if k == 0 then 0 else x % 2 + 2 * LowBits(x / 2, k - 1)
  }

  lemma {:induction false} MaskLow(x: nat, k: nat, n: nat)
    requires k <= n
    ensures Bitwise(And, x, Pow2(k) - 1, n) == LowBits(x, k)
    decreases n
  {
    if n > 0 {
      if k == 0 {
        MaskZero(x, n);
      } else {
        assert (Pow2(k) - 1) % 2 == 1 && (Pow2(k) - 1) / 2 == Pow2(k - 1) - 1;
        MaskLow(x / 2, k - 1, n - 1);
      }
    }
  }

  lemma LowByte(x: nat, k: nat)
    requires k == 8
    ensures LowBits(x, k) == x % 256
  {
    LowFour(x / 2 / 2 / 2 / 2, k - 4);
    Nibble(x);
    assert LowBits(x, k) == x % 2 + 2 * LowBits(x / 2, k - 1);
    assert LowBits(x / 2, k - 1) == x / 2 % 2 + 2 * LowBits(x / 2 / 2, k - 2);
    assert LowBits(x / 2 / 2, k - 2) == x / 2 / 2 % 2 + 2 * LowBits(x / 2 / 2 / 2, k - 3);
    assert LowBits(x / 2 / 2 / 2, k - 3) == x / 2 / 2 / 2 % 2 + 2 * LowBits(x / 2 / 2 / 2 / 2, k - 4);
  }

  lemma Nibble(x: nat)
    ensures x / 2 / 2 / 2 / 2 == x / 16 && x % 256 == x % 16 + 16 * (x / 16 % 16)
    ensures x % 2 + 2 * (x / 2 % 2 + 2 * (x / 2 / 2 % 2 + 2 * (x / 2 / 2 / 2 % 2))) == x % 16
  {
  }

  lemma LowFour(x: nat, k: nat)
    requires k == 4
    ensures LowBits(x, k) == x % 16
  {
    assert LowBits(x, k) == x % 2 + 2 * LowBits(x / 2, k - 1);
    assert LowBits(x / 2, k - 1) == x / 2 % 2 + 2 * LowBits(x / 2 / 2, k - 2);
    assert LowBits(x / 2 / 2, k - 2) == x / 2 / 2 % 2 + 2 * LowBits(x / 2 / 2 / 2, k - 3);
    assert LowBits(x / 2 / 2 / 2, k - 3) == x / 2 / 2 / 2 % 2 + 2 * LowBits(x / 2 / 2 / 2 / 2, k - 4);
  }

  lemma {:induction false} MaskZero(x: nat, n: nat)
    ensures Bitwise(And, x, 0, n) == 0 && Bitwise(And, 0, x, n) == 0 && Bitwise(Or, 0, 0, n) == 0
    decreases n
  {
    if n > 0 { MaskZero(x / 2, n - 1); }
  }

  /** The top bit of a conjunction and of a disjunction. */
  lemma {:induction false} TopBit(x: nat, y: nat, n: nat)
    requires n > 0 && x < Pow2(n) && y < Pow2(n)
    ensures Bitwise(And, x, y, n) >= Pow2(n - 1) <==> x >= Pow2(n - 1) && y >= Pow2(n - 1)
    ensures Bitwise(Or, x, y, n) >= Pow2(n - 1) <==> x >= Pow2(n - 1) || y >= Pow2(n - 1)
    decreases n
  {
    if n > 1 {
      TopBit(x / 2, y / 2, n - 1);
    } else {
      assert Pow2(1) == 2 * Pow2(0) == 2;
    }
  }

  /** (-b)|b, which is zero only for zero and else has its top bit set. */
  function Nz(b: Word): Word {
    AluMeaning(Or, AluMeaning(Sub, 0, b), b)
  }

  const TOP: int := 0x8000_0000_0000_0000

  lemma TopIs(n: nat)
    requires n == 64
    ensures Pow2(n) == M64 && Pow2(n - 1) == TOP
  {
    Pow2Is64(n);
    assert Pow2(n) == 2 * Pow2(n - 1);
  }

  lemma OrTop(x: Word, y: Word)
    ensures x >= TOP ==> AluMeaning(Or, x, y) >= TOP
    ensures x == 0 && y == 0 ==> AluMeaning(Or, x, y) == 0
  {
    TopIs(64);
    MaskZero(0, 64);
    TopBit(x, y, 64);
  }

  lemma WrapNeg(b: int)
    requires 0 <= b < 256
    ensures Wrap(0 - b) == if b == 0 then 0 else M64 - b
  {
  }

  lemma NzAt(x: Word, b: Word)
    requires if b == 0 then x == 0 else x >= TOP
    ensures if b == 0 then AluMeaning(Or, x, b) == 0 else AluMeaning(Or, x, b) >= TOP
  {
    OrTop(x, b);
  }

  lemma NzIs(b: Word)
    requires b < 256
    ensures if b == 0 then Nz(b) == 0 else Nz(b) >= TOP
  {
    WrapNeg(b);
    NzAt(Wrap(0 - b as int), b);
  }

  lemma AndNz(x: Word, y: Word)
    requires (x == 0 || x >= TOP) && (y == 0 || y >= TOP)
    ensures var z := AluMeaning(And, x, y); (z == 0 || z >= TOP) && (z == 0 <==> x == 0 || y == 0)
  {
    TopIs(64);
    MaskZero(x, 64);
    MaskZero(y, 64);
    TopBit(x, y, 64);
  }

  lemma ByteMask(w: Word)
    ensures AluMeaning(And, w, 255) == w % 256
  {
    Pow2Is256(8);
    MaskLow(w, 8, 64);
    LowByte(w, 8);
  }

  lemma Pow2Is256(n: nat)
    requires n == 8
    ensures Pow2(n) == 256
  {
    assert Pow2(n - 7) == 2 * Pow2(n - 8);
    Doubled(n - 7, n - 6, 2, 4);
    Doubled(n - 6, n - 4, 4, 16);
    Doubled(n - 4, n, 16, 256);
  }

  lemma PowBytes(j: nat, n: nat)
    requires j < 4 && n == 8 * j
    ensures Pow2(n) == if j == 0 then 1 else if j == 1 then 0x100 else if j == 2 then 0x1_0000 else 0x100_0000
  {
    if j == 1 { Pow2Is256(n); }
    if j == 2 {
      Pow2Is256(n - 8);
      Doubled(n - 8, n, 0x100, 0x1_0000);
    }
    if j == 3 {
      Pow2Is256(n - 16);
      Doubled(n - 16, n - 8, 0x100, 0x1_0000);
      Pow2Add(n - 8, n - 16);
    }
  }

  lemma ByteOfIs(w: nat, j: nat)
    requires j < 4
    ensures ByteOf(w, j) ==
      if j == 0 then w % 256
      else if j == 1 then w / 0x100 % 256 else if j == 2 then w / 0x1_0000 % 256 else w / 0x100_0000 % 256
  {
    if j > 0 { assert ByteOf(w, j) == ByteOf(w / 256, j - 1); }
    if j > 1 { assert ByteOf(w / 256, j - 1) == ByteOf(w / 256 / 256, j - 2); }
    if j > 2 { assert ByteOf(w / 256 / 256, j - 2) == ByteOf(w / 256 / 256 / 256, j - 3); }
  }

  lemma ShiftByte(w: Word, j: nat)
    requires j < 4
    ensures AluMeaning(Rsh, w, Wrap(8 * j)) % 256 == ByteOf(w, j)
  {
    PowBytes(j, 8 * j);
    ByteOfIs(w, j);
    ShiftIs(w, 8 * j, Pow2(8 * j));
  }

  lemma ShiftIs(w: Word, n: nat, p: nat)
    requires n < 64 && p == Pow2(n) && (p == 1 || p == 0x100 || p == 0x1_0000 || p == 0x100_0000)
    ensures AluMeaning(Rsh, w, Wrap(n)) == w / p
  {
    assert Wrap(n) == n && n % 64 == n;
    Quotient(w, p);
  }

  lemma Quotient(w: Word, p: nat)
    requires p == 1 || p == 0x100 || p == 0x1_0000 || p == 0x100_0000
    ensures Wrap(w / p) == w / p
  {
    if p == 1 {
    } else if p == 0x100 {
    } else if p == 0x1_0000 {
    } else {
    }
  }

  // ----- the code -----

  /** The registers in use: the word, the running conjunction, a byte and its
      non-zero mark. */
  datatype Scratch = Scratch(w: nat, all: nat, b: nat, nz: nat)

  predicate Distinct(r: Scratch) {
    r.w != r.all && r.w != r.b && r.w != r.nz && r.all != r.b && r.all != r.nz && r.b != r.nz
  }

  function AluK(op: AluOp, d: nat, x: nat, i: int): Insn {
    Insn(Alu(op, false), 0, Some(d), Some(Reg(x)), Some(Imm(i)))
  }

  function AluX(op: AluOp, d: nat, x: nat, y: nat): Insn {
    Insn(Alu(op, true), 0, Some(d), Some(Reg(x)), Some(Reg(y)))
  }

  function NegInsn(d: nat): Insn {
    Insn(Neg, 0, Some(d), Some(Reg(d)), None)
  }

  /** Byte j of the word in register b. */
  function PickInsns(r: Scratch, j: nat): seq<Insn> {
    [if j == 0 then Mov(r.b, Reg(r.w)) else AluK(Rsh, r.b, r.w, 8 * j)] + [AluK(And, r.b, r.b, 0xff)]
  }

  /** Its mark, and the conjunction of the marks so far. */
  function MarkInsns(r: Scratch, j: nat): seq<Insn> {
    [Mov(r.nz, Reg(r.b))] + ([NegInsn(r.nz)] + ([AluX(Or, r.nz, r.nz, r.b)]
    + [if j == 0 then Mov(r.all, Reg(r.nz)) else AluX(And, r.all, r.all, r.nz)]))
  }

  function TestInsns(r: Scratch, j: nat): seq<Insn>
    decreases 4 - j
  {
    if j >= 4 then [] else (PickInsns(r, j) + MarkInsns(r, j)) + TestInsns(r, j + 1)
  }

  function SetReg(s: State, r: nat, v: Word): State {
    s.(regs := s.regs[r := v])
  }

  lemma MovSets(sem: Sem, d: nat, x: nat, s: State)
    ensures Run(sem, [Mov(d, Reg(x))], s) == Fall(SetReg(s, d, Get(s.regs, x)))
  {
    RunOne(sem, Mov(d, Reg(x)), s);
  }

  lemma AluKSets(sem: Sem, op: AluOp, d: nat, x: nat, i: int, s: State)
    ensures Run(sem, [AluK(op, d, x, i)], s) == Fall(SetReg(s, d, sem.alu(op, Get(s.regs, x), Wrap(i))))
  {
    RunOne(sem, AluK(op, d, x, i), s);
  }

  lemma AluXSets(sem: Sem, op: AluOp, d: nat, x: nat, y: nat, s: State)
    ensures Run(sem, [AluX(op, d, x, y)], s) == Fall(SetReg(s, d, sem.alu(op, Get(s.regs, x), Get(s.regs, y))))
  {
    RunOne(sem, AluX(op, d, x, y), s);
  }

  lemma NegSets(sem: Sem, d: nat, s: State)
    ensures Run(sem, [NegInsn(d)], s) == Fall(SetReg(s, d, sem.alu(Sub, 0, Get(s.regs, d))))
  {
    RunOne(sem, NegInsn(d), s);
  }

  /** Memory, calls and all registers but the scratch ones stay. */
  ghost predicate Scratched(r: Scratch, s: State, s': State) {
    s'.mem == s.mem && s'.trace == s.trace
    && forall x: nat | x != r.all && x != r.b && x != r.nz :: Get(s'.regs, x) == Get(s.regs, x)
  }

  lemma PickRuns(sem: Sem, r: Scratch, j: nat, s: State) returns (s': State)
    requires Standard(sem) && Distinct(r) && j < 4
    ensures Run(sem, PickInsns(r, j), s) == Fall(s') && Scratched(r, s, s')
    ensures Get(s'.regs, r.b) == ByteOf(Get(s.regs, r.w), j) && Get(s'.regs, r.all) == Get(s.regs, r.all)
  {
    var first, last, w := if j == 0 then Mov(r.b, Reg(r.w))
        else AluK(Rsh, r.b, r.w, 8 * j), AluK(And, r.b, r.b, 0xff), Get(s.regs, r.w);
    var v := if j == 0 then w else sem.alu(Rsh, w, Wrap(8 * j));
    var s1 := SetReg(s, r.b, v);
    s' := SetReg(s1, r.b, sem.alu(And, v, Wrap(0xff)));
    RunAppend(sem, [first], [last], s);
    if j == 0 { MovSets(sem, r.b, r.w, s); } else { AluKSets(sem, Rsh, r.b, r.w, 8 * j, s); }
    AluKSets(sem, And, r.b, r.b, 0xff, s1);
    PickIs(sem, w, j, v);
  }

  lemma PickIs(sem: Sem, w: Word, j: nat, v: Word)
    requires Standard(sem) && j < 4 && v == if j == 0 then w else sem.alu(Rsh, w, Wrap(8 * j))
    ensures sem.alu(And, v, Wrap(0xff)) == ByteOf(w, j)
  {
    assert Wrap(0xff) == 0xff;
    ByteMask(v);
    if j > 0 { ShiftByte(w, j); }
  }

  /** The mark of register b, as the machine computes it. */
  function MarkOf(sem: Sem, b: Word): Word {
    sem.alu(Or, sem.alu(Sub, 0, b), b)
  }

  lemma MarkRuns(sem: Sem, r: Scratch, j: nat, s: State) returns (s': State)
    requires Distinct(r)
    ensures Run(sem, MarkInsns(r, j), s) == Fall(s') && Scratched(r, s, s')
    ensures var z := MarkOf(sem, Get(s.regs, r.b));
      Get(s'.regs, r.all) == if j == 0 then z else sem.alu(And, Get(s.regs, r.all), z)
  {
    var b, last := Get(s.regs, r.b), if j == 0 then Mov(r.all, Reg(r.nz)) else AluX(And, r.all, r.all, r.nz);
    var z := MarkOf(sem, b);
    var s1 := SetReg(s, r.nz, b);
    var s2 := SetReg(s1, r.nz, sem.alu(Sub, 0, b));
    var s3 := SetReg(s2, r.nz, z);
    s' := SetReg(s3, r.all, if j == 0 then z else sem.alu(And, Get(s.regs, r.all), z));
    MovSets(sem, r.nz, r.b, s);
    NegSets(sem, r.nz, s1);
    AluXSets(sem, Or, r.nz, r.nz, r.b, s2);
    if j == 0 { MovSets(sem, r.all, r.nz, s3); } else { AluXSets(sem, And, r.all, r.all, r.nz, s3); }
    RunAppend(sem, [AluX(Or, r.nz, r.nz, r.b)], [last], s2);
    RunAppend(sem, [NegInsn(r.nz)], [AluX(Or, r.nz, r.nz, r.b)] + [last], s1);
    RunAppend(sem, [Mov(r.nz, Reg(r.b))], [NegInsn(r.nz)] + ([AluX(Or, r.nz, r.nz, r.b)] + [last]), s);
  }

  /** The marks of bytes j to 3 joined to what was found before: zero exactly
      when one of the bytes is. */
  ghost predicate Found(w: nat, j: nat, all: Word) {
    (all == 0 || all >= TOP) && (all == 0 <==> exists k: nat :: k < j && ByteOf(w, k) == 0)
  }

  lemma MarkIs(sem: Sem, b: Word)
    requires Standard(sem) && b < 256
    ensures if b == 0 then MarkOf(sem, b) == 0 else MarkOf(sem, b) >= TOP
  {
    NzIs(b);
  }

  lemma MarksJoin(sem: Sem, x: Word, y: Word)
    requires Standard(sem) && (x == 0 || x >= TOP) && (y == 0 || y >= TOP)
    ensures var z := sem.alu(And, x, y); (z == 0 || z >= TOP) && (z == 0 <==> x == 0 || y == 0)
  {
    AndNz(x, y);
  }

  lemma FoundNext(sem: Sem, w: nat, j: nat, all: Word, all': Word)
    requires Standard(sem) && (j > 0 ==> Found(w, j, all))
    requires var z := MarkOf(sem, ByteOf(w, j)); all' == if j == 0 then z else sem.alu(And, all, z)
    ensures Found(w, j + 1, all')
  {
    MarkIs(sem, ByteOf(w, j));
    if j > 0 { MarksJoin(sem, all, MarkOf(sem, ByteOf(w, j))); }
  }

  /** One byte: picked, marked, joined. */
  lemma ByteRuns(sem: Sem, r: Scratch, j: nat, s: State) returns (s': State)
    requires Standard(sem) && Distinct(r) && j < 4 && (j > 0 ==> Found(Get(s.regs, r.w), j, Get(s.regs, r.all)))
    ensures Run(sem, PickInsns(r, j) + MarkInsns(r, j), s) == Fall(s') && Scratched(r, s, s')
    ensures Found(Get(s.regs, r.w), j + 1, Get(s'.regs, r.all))
  {
    var s1 := PickRuns(sem, r, j, s);
    s' := MarkRuns(sem, r, j, s1);
    RunAppend(sem, PickInsns(r, j), MarkInsns(r, j), s);
    FoundNext(sem, Get(s.regs, r.w), j, Get(s.regs, r.all), Get(s'.regs, r.all));
  }

  lemma {:induction false} TestRuns(sem: Sem, r: Scratch, j: nat, s: State) returns (s': State)
    requires Standard(sem) && Distinct(r) && j <= 4 && (j > 0 ==> Found(Get(s.regs, r.w), j, Get(s.regs, r.all)))
    ensures Run(sem, TestInsns(r, j), s) == Fall(s') && Scratched(r, s, s')
    ensures Found(Get(s.regs, r.w), 4, Get(s'.regs, r.all))
    decreases 4 - j
  {
    if j == 4 {
      s' := s;
    } else {
      var s1 := ByteRuns(sem, r, j, s);
      s' := TestRuns(sem, r, j + 1, s1);
      RunAppend(sem, PickInsns(r, j) + MarkInsns(r, j), TestInsns(r, j + 1), s);
    }
  }
}
