/** Lowering operands on the machine as it is, with the arithmetic of RFC 9669:
    exactly which instructions keep their meaning there. */
module FixupStandard {
  import opened Ir
  import opened Machine
  import opened Script
  import opened Bits
  import opened Fixup

  const ONES: Word := 0xffff_ffff_ffff_ffff

  lemma WordUnits(x: Word, zero: Word, ones: Word)
    requires zero == 0 && ones == ONES
    ensures WordBits(And, x, ones) == WordBits(And, ones, x) == WordBits(And, x, x) == x
    ensures WordBits(Or, x, zero) == WordBits(Or, zero, x) == WordBits(Or, x, x) == x
    ensures WordBits(Xor, x, zero) == WordBits(Xor, zero, x) == x && WordBits(Xor, x, x) == zero
  {
    Pow2Is64(64);
    BitUnits(x, 64);
  }

  /** One for a product, all ones for a conjunction, zero for the others. */
  function Unit(op: AluOp): Word {
    match op
    case Mul => 1
    case And => ONES
    case _ => 0
  }

  lemma UnitIs(op: AluOp, x: Word, u: Word)
    requires IsCommutative(Alu(op, true)) && u == Unit(op)
    ensures AluMeaning(op, x, u) == AluMeaning(op, u, x) == x
  {
    match op
    case Add =>
    case Mul =>
    case And => WordUnits(x, 0, u);
    case _ => WordUnits(x, u, ONES);
  }

  /** The commutative operators for which op(x, x) == op(c, x) for all x. */
  predicate Absorbs(op: AluOp, c: Word) {
    (op.Or? && c == 0) || (op.And? && c == ONES)
  }

  lemma AbsorbsAll(op: AluOp, c: Word, x: Word)
    requires Absorbs(op, c)
    ensures AluMeaning(op, c, x) == AluMeaning(op, x, x)
  {
    if op.Or? { WordUnits(x, c, ONES); } else { WordUnits(x, 0, c); }
  }

  /** A value that tells op(c, x) from op(x, x). */
  lemma NotAbsorbed(op: AluOp, c: Word) returns (x: Word)
    requires IsCommutative(Alu(op, true)) && !Absorbs(op, c)
    ensures AluMeaning(op, c, x) != AluMeaning(op, x, x)
  {
    if op.Add? {
      x := Wrap(c as int + 1);
    } else if op.Mul? {
      x := if c == 1 then 2 else 1;
    } else {
      x := BitsExposed(op, c, 0, 1, ONES);
    }
  }

  lemma BitsExposed(op: AluOp, c: Word, zero: Word, one: Word, ones: Word) returns (x: Word)
    requires (op.And? || op.Or? || op.Xor?) && !Absorbs(op, c) && zero == 0 && one == 1 && ones == ONES
    ensures WordBits(op, c, x) != WordBits(op, x, x)
  {
    x := if op.And? then ones else if op.Xor? && c == 0 then one else zero;
    WordUnits(c, zero, ones);
    WordUnits(x, zero, ones);
  }

  /** The exchanged immediate reads R0 for the immediate, and R0 is the other
      operand as well. */
  predicate Absorbed(i: Insn) {
    CaseOf(i) == Swap && i.code.Alu? && i.src0.value.Imm? && i.dest.value == 0
    && Absorbs(i.code.op, Wrap(i.src0.value.i))
  }

  /** R0 is the other operand as well: a value in it that tells. */
  lemma SwapHereDiffers(sem: Sem, i: Insn, n: nat, c: Word, op: AluOp)
    requires Standard(sem) && WfInsn(i, n) && CaseOf(i) == Swap && i.src0.value.Imm? && i.dest.value == 0
    requires op == i.code.op && c == Wrap(i.src0.value.i) && !Absorbs(op, c)
    ensures !FaithfulOn(sem, i, n)
  {
    var x := NotAbsorbed(op, c);
    SwapDiffers(sem, i, n, State(map[0 := x], map[], []));
  }

  /** It is not: the other operand is the operator's unit. */
  lemma SwapThereDiffers(sem: Sem, i: Insn, n: nat, c: Word, d: nat, op: AluOp, u: Word, y: Word)
    requires Standard(sem) && WfInsn(i, n) && CaseOf(i) == Swap && i.src0.value.Imm? && i.dest.value == d && d != 0
    requires op == i.code.op && c == Wrap(i.src0.value.i) && u == Unit(op) && y != c
    ensures !FaithfulOn(sem, i, n)
  {
    UnitIs(op, c, u);
    UnitIs(op, y, u);
    SwapDiffers(sem, i, n, State(map[0 := y, d := u], map[], []));
  }

  lemma SwapExposed(sem: Sem, i: Insn, n: nat)
    requires Standard(sem) && WfInsn(i, n) && CaseOf(i) == Swap && i.src0.value.Imm? && !Absorbed(i)
    ensures !FaithfulOn(sem, i, n)
  {
    var c, d, op := Wrap(i.src0.value.i), i.dest.value, i.code.op;
    if d == 0 {
      SwapHereDiffers(sem, i, n, c, op);
    } else {
      SwapThereDiffers(sem, i, n, c, d, op, Unit(op), Wrap(c as int + 1));
    }
  }

  lemma AbsorbedFaithful(sem: Sem, i: Insn, n: nat)
    requires Standard(sem) && WfInsn(i, n) && Absorbed(i)
    ensures FaithfulOn(sem, i, n)
  {
    forall s ensures SameResult(n, Run(sem, [i], s), Run(sem, FixupInsn(i, n), s)) {
      SwapReads(sem, i, n, s);
      AbsorbsAll(i.code.op, Wrap(i.src0.value.i), Get(s.regs, 0));
    }
  }

  lemma StandardCommutes(sem: Sem)
    requires Standard(sem)
    ensures Commutes(sem)
  {
    forall op, x: Word, y: Word | IsCommutative(Alu(op, true)) ensures sem.alu(op, x, y) == sem.alu(op, y, x) {
      MulCommutes(x, y);
      BitwiseCommutes(op, x, y, 64);
    }
  }

  /** On the standard machine lowering keeps the meaning of an instruction in every
      state exactly when it meets the hypothesis, or is one of R0 = 0 | R0 and
      R0 = -1 & R0. */
  lemma StandardFaithfulIff(sem: Sem, i: Insn, n: nat)
    requires Standard(sem) && sem.guard == {} && WfInsn(i, n) && MAX_BPF_REG <= n
    ensures FaithfulOn(sem, i, n) <==> FixReady(i) || Absorbed(i)
  {
    if FixReady(i) {
      StandardCommutes(sem);
      forall s
        ensures SameResult(n, Run(sem, [i], s), Run(sem, FixupInsn(i, n), s))
      {
        FixupOneRuns(sem, i, n, n, s, s);
      }
    } else if Absorbed(i) {
      AbsorbedFaithful(sem, i, n);
    } else if Widened(i) {
      WideUnfaithful(sem, i, n);
    } else {
      SwapExposed(sem, i, n);
    }
  }
}
