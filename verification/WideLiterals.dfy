/** What becomes of a literal wider than 32 bits that an operator carries. */
module WideLiterals {
  import opened Ir
  import opened Machine
  import opened Script
  import opened IdleOperators
  import opened Fixup
  import opened Codegen
  import opened CodegenForm
  import opened Returning

  /** The code of r op k, from register n on. */
  function WideInsns(op: AluOp, r: nat, k: int, n: nat): seq<Insn> {
    [Mov(n, Reg(r)), Insn(Alu(op, false), 0, Some(n + 1), Some(Reg(n)), Some(Imm(k))), Mov(0, Reg(n + 1)), EXIT]
  }

  lemma EmitAlone(ins: seq<Insn>, m: nat, i: Insn)
    ensures Emit(Gen([Block(ins, None, None)], m, Some(0)), i) == Gen([Block(ins + [i], None, None)], m, Some(0))
  {
  }

  lemma WideCode(op: BinOp, r: nat, k: int, n: nat)
    requires r < n
    ensures ReturnGen(Skip, Bin(op, Local(r), Lit(k)), n) ==
      Gen([Block(WideInsns(CodeOf(op), r, k, n), None, None)], n + 2, Some(0))
  {
    var g0, e := FirstGen(n), Bin(op, Local(r), Lit(k));
    var a, i := Mov(n, Reg(r)), Insn(Alu(CodeOf(op), false), 0, Some(n + 1), Some(Reg(n)), Some(Imm(k)));
    EmitAlone([], n + 1, a);
    EmitAlone([a], n + 2, i);
    EmitAlone([a] + [i], n + 2, Mov(0, Reg(n + 1)));
    EmitAlone([a] + [i] + [Mov(0, Reg(n + 1))], n + 2, EXIT);
    var g1 := Gen([Block([a], None, None)], n + 1, Some(0));
    assert [] + [a] == [a];
    assert LeftGen(e, g0) == g1 && GenExpr(Lit(k), g1) == (g1, Imm(k));
    NeverExchanged(WithReg(g1), CodeOf(op), n + 1, Reg(n), Imm(k));
    assert GenExpr(e, g0) == (Emit(WithReg(g1), i), Reg(n + 1));
    assert [a] + [i] + [Mov(0, Reg(n + 1))] + [EXIT] == WideInsns(CodeOf(op), r, k, n);
  }

  /** A word store through the register that holds the left operand. */
  function WordStore(n: nat): Insn {
    Insn(Stx(SW), 0, Some(n + 1), Some(Reg(n + 1)), Some(Reg(n + 2)))
  }

  /** Lowering leaves the end of the code alone. */
  lemma {:induction false} EndLowered(r: nat, n: nat)
    ensures FixupInsns([Mov(0, Reg(r)), EXIT], n) == [Mov(0, Reg(r)), EXIT]
  {
    assert [Mov(0, Reg(r)), EXIT][1..] == [EXIT];
    assert FixupInsns([EXIT], n) == [EXIT];
  }

  /** It puts a word store in the operator's place. */
  lemma {:induction false} WideLowered(op: AluOp, r: nat, k: int, n: nat)
    requires !FitsInt32(k)
    ensures FixupInsns(WideInsns(op, r, k, n), n + 2)
         == [Mov(n, Reg(r)), Mov(n + 2, Imm(k)), Mov(n + 1, Reg(n))] + [WordStore(n)] + [Mov(0, Reg(n + 1)), EXIT]
  {
    assert WideInsns(op, r, k, n)[1..][1..] == [Mov(0, Reg(n + 1)), EXIT];
    EndLowered(n + 1, n + 3);
  }

  lemma ThreeMoves(sem: Sem, r: nat, k: int, n: nat, s: State) returns (t: State)
    requires r < n
    ensures Run(sem, [Mov(n, Reg(r)), Mov(n + 2, Imm(k)), Mov(n + 1, Reg(n))], s) == Fall(t)
    ensures t.mem == s.mem && t.trace == s.trace && Get(t.regs, n + 1) == Get(s.regs, r)
    ensures Get(t.regs, n + 2) == Wrap(k)
  {
    var x := Get(s.regs, r);
    var s1 := s.(regs := s.regs[n := x]);
    var s2 := s1.(regs := s1.regs[n + 2 := Wrap(k)]);
    t := s2.(regs := s2.regs[n + 1 := x]);
    MovMeans(sem, n, Reg(r), [Mov(n + 2, Imm(k)), Mov(n + 1, Reg(n))], s);
    MovMeans(sem, n + 2, Imm(k), [Mov(n + 1, Reg(n))], s1);
    MovMeans(sem, n + 1, Reg(n), [], s2);
    assert [Mov(n + 1, Reg(n))] + [] == [Mov(n + 1, Reg(n))];
    assert [Mov(n + 2, Imm(k))] + [Mov(n + 1, Reg(n))] == [Mov(n + 2, Imm(k)), Mov(n + 1, Reg(n))];
    assert [Mov(n, Reg(r))] + [Mov(n + 2, Imm(k)), Mov(n + 1, Reg(n))] ==
      [Mov(n, Reg(r)), Mov(n + 2, Imm(k)), Mov(n + 1, Reg(n))];
  }

  lemma AddrHere(a: Word)
    ensures Addr(a, 0) == a
  {
  }

  lemma StoreStep(sem: Sem, n: nat, t: State)
    requires sem.guard == {}
    ensures Run(sem, [WordStore(n)], t) == Fall(t.(mem := Store(t.mem, Get(t.regs, n + 1), 4, Get(t.regs, n + 2))))
  {
    StxRuns(sem, WordStore(n), t);
    AddrHere(Get(t.regs, n + 1));
  }

  lemma MoveAndExit(sem: Sem, n: nat, u: State)
    ensures Run(sem, [Mov(0, Reg(n + 1)), EXIT], u) == Exited(u.(regs := u.regs[0 := Get(u.regs, n + 1)]))
  {
    MovMeans(sem, 0, Reg(n + 1), [EXIT], u);
    RunOne(sem, EXIT, u.(regs := u.regs[0 := Get(u.regs, n + 1)]));
    assert [Mov(0, Reg(n + 1))] + [EXIT] == [Mov(0, Reg(n + 1)), EXIT];
  }

  lemma StoreAndReturn(sem: Sem, n: nat, t: State) returns (o: State)
    requires sem.guard == {}
    ensures Run(sem, [WordStore(n)] + [Mov(0, Reg(n + 1)), EXIT], t) == Exited(o) && o.trace == t.trace
    ensures Get(o.regs, 0) == Get(t.regs, n + 1) && o.mem == Store(t.mem, Get(t.regs, n + 1), 4, Get(t.regs, n + 2))
  {
    var u := t.(mem := Store(t.mem, Get(t.regs, n + 1), 4, Get(t.regs, n + 2)));
    o := u.(regs := u.regs[0 := Get(u.regs, n + 1)]);
    StoreStep(sem, n, t);
    MoveAndExit(sem, n, u);
    RunAppend(sem, [WordStore(n)], [Mov(0, Reg(n + 1)), EXIT], t);
  }

  lemma WideRuns(sem: Sem, op: AluOp, r: nat, k: int, n: nat, s: State) returns (o: State)
    requires sem.guard == {} && r < n && !FitsInt32(k)
    ensures Run(sem, FixupInsns(WideInsns(op, r, k, n), n + 2), s) == Exited(o)
    ensures Get(o.regs, 0) == Get(s.regs, r) && o.trace == s.trace && o.mem == Store(s.mem, Get(s.regs, r), 4, Wrap(k))
  {
    var a, b := [Mov(n, Reg(r)), Mov(n + 2, Imm(k)), Mov(n + 1, Reg(n))], [WordStore(n)] + [Mov(0, Reg(n + 1)), EXIT];
    WideLowered(op, r, k, n);
    assert FixupInsns(WideInsns(op, r, k, n), n + 2) == a + b;
    var t := ThreeMoves(sem, r, k, n, s);
    o := StoreAndReturn(sem, n, t);
    RunAppend(sem, a, b, s);
  }

  /** What fixup_operands makes of the code of r op k. */
  function WideLowering(op: BinOp, r: nat, k: int, n: nat): seq<Block> {
    FixupBlocks(ReturnGen(Skip, Bin(op, Local(r), Lit(k)), n).blocks, n + 2)
  }

  /** A script that is not slim, r op k with a literal wider than 32 bits: after
      lowering it returns its left operand, and stores the literal where that
      points, on every machine without protected bytes, from every state. */
  lemma WideLiteralLost(sem: Sem, op: BinOp, r: nat, k: int, n: nat, s: State) returns (o: State)
    requires sem.guard == {} && r < n && !FitsInt32(k)
    ensures !Slim(Bin(op, Local(r), Lit(k))) && Halts(Stepping(sem, WideLowering(op, r, k, n)), Goto(0, s), o)
    ensures Get(o.regs, 0) == Get(s.regs, r) && o.trace == s.trace && o.mem == Store(s.mem, Get(s.regs, r), 4, Wrap(k))
  {
    var q := WideLowering(op, r, k, n);
    WideCode(op, r, k, n);
    o := WideRuns(sem, CodeOf(op), r, k, n, s);
    assert q[0].insns == FixupInsns(WideInsns(CodeOf(op), r, k, n), n + 2);
    assert Stepping(sem, q)(0, s) == Halt(o);
    assert Steps(Stepping(sem, q), Halt(o), 0) == Halt(o);
    HaltsLater(Stepping(sem, q), 0, s, o);
  }

  lemma OperandValues(r: nat, k: int, m: RegFile)
    requires FitsInt64(k)
    ensures Eval(Local(r), m) == Signed(Get(m, r)) && Eval(Lit(k), m) == k
  {
  }

  lemma LiteralValue(op: BinOp, l: Expr, r: Expr, m: RegFile, x: Int64, y: Int64)
    requires Eval(l, m) == x && Eval(r, m) == y
    ensures ValueOf(Skip, Bin(op, l, r), m) == Wrap(Apply(op, x, y))
  {
  }

  lemma WideValue(op: BinOp, r: nat, k: int, m: RegFile, w: Word)
    requires FitsInt64(k) && w == Get(m, r)
    ensures ValueOf(Skip, Bin(op, Local(r), Lit(k)), m) == AluMeaning(CodeOf(op), w, Wrap(k))
  {
    OperandValues(r, k, m);
    LiteralValue(op, Local(r), Lit(k), m, Signed(w), k);
    SignedWraps(0, w, 0);
    OperatorsAgree(op, Signed(w), k);
  }

  /** So the lowered code of r op k, with a literal wider than 32 bits, halts with
      the value of the script exactly from the states in which the operator leaves
      its left operand as it is: never for +, - and ^, and for the others as `Idle`
      has it. */
  lemma WideLiteralIff(sem: Sem, op: BinOp, r: nat, k: int, n: nat, s: State) returns (o: State)
    requires sem.guard == {} && r < n && FitsInt64(k) && !FitsInt32(k)
    ensures Halts(Stepping(sem, WideLowering(op, r, k, n)), Goto(0, s), o)
    ensures Get(o.regs, 0) == ValueOf(Skip, Bin(op, Local(r), Lit(k)), s.regs) <==> Idle(op, Get(s.regs, r), k)
  {
    o := WideLiteralLost(sem, op, r, k, n, s);
    WideValue(op, r, k, s.regs, Get(s.regs, r));
    IdleIff(op, Get(s.regs, r), k);
  }
}
