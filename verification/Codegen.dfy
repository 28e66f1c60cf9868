/** Code generation for expressions and conditions: what bpf_unparser and the
    mk_* builders append to the program. */
module Codegen {
  import opened Ir
  import opened Script
  import opened Fixup

  /** The program under construction and the block code is appended to. */
  datatype Gen = Gen(blocks: seq<Block>, nregs: nat, cur: Option<nat>)

  const EMPTY: Block := Block([], None, None)

  predicate InBlock(g: Gen) {
    g.cur.Some? && g.cur.value < |g.blocks|
  }

  /** The current block has not been ended. */
  predicate Open(g: Gen) {
    InBlock(g) && g.blocks[g.cur.value].taken.None? && g.blocks[g.cur.value].fallthru.None?
  }

  // ----- builders -----

  function WithReg(g: Gen): Gen {
    g.(nregs := g.nregs + 1)
  }

  function WithBlock(g: Gen): Gen {
    g.(blocks := g.blocks + [EMPTY])
  }

  function Into(g: Gen, b: nat): Gen {
    g.(cur := Some(b))
  }

  function Emit(g: Gen, i: Insn): Gen {
    if InBlock(g) then
      var b := g.blocks[g.cur.value];
      g.(blocks := g.blocks[g.cur.value := b.(insns := b.insns + [i])])
    else g
  }

  /** emit_jmp: end the block; its target is hoped to come next. */
  function EmitJmp(g: Gen, t: nat): Gen {
    if InBlock(g) then
      Gen(g.blocks[g.cur.value := g.blocks[g.cur.value].(fallthru := Some(t))], g.nregs, None)
    else g
  }

  function MkMov(g: Gen, d: nat, v: Value): Gen {
    if v == Reg(d) then g else Emit(g, Mov(d, v))
  }

  function MkNeg(g: Gen, d: nat, v: Value): Gen {
    Emit(MkMov(g, d, v), Insn(Neg, 0, Some(d), Some(Reg(d)), None))
  }

  /** The operator's bits in an opcode. */
  function OpBits(op: AluOp): nat {
    match op
    case Add => 0x00
    case Sub => 0x10
    case Mul => 0x20
    case Div => 0x30
    case Or => 0x40
    case And => 0x50
    case Lsh => 0x60
    case Rsh => 0x70
    case Mod => 0x90
    case Xor => 0xa0
    case Arsh => 0xc0
  }

  const BPF_ALU64: nat := 0x07

  /** is_commutative looks at the class bits of the opcode it is given. */
  predicate CountsAsCommutative(op: AluOp, code: nat) {
    code % 8 == BPF_ALU64 && IsCommutative(Alu(op, true))
  }

  /** mk_binary gives it the bare operator. */
  function MkBinary(g: Gen, op: AluOp, d: nat, s0: Value, s1: Value): Gen {
    if op.Sub? && s0 == Imm(0) then MkNeg(g, d, s1)
    else if !op.Sub? && CountsAsCommutative(op, OpBits(op)) && ((s1.Reg? && !s0.Reg?) || s1 == Reg(d)) then
      Emit(g, Insn(Alu(op, s0.Reg?), 0, Some(d), Some(s1), Some(s0)))
    else Emit(g, Insn(Alu(op, s1.Reg?), 0, Some(d), Some(s0), Some(s1)))
  }

  /** So the operands are never exchanged, though with the class bits they would
      be, for exactly the commutative operators. */
  lemma NeverExchanged(g: Gen, op: AluOp, d: nat, s0: Value, s1: Value)
    ensures CountsAsCommutative(op, OpBits(op) + BPF_ALU64) <==> IsCommutative(Alu(op, true))
    ensures !(op.Sub? && s0 == Imm(0)) ==>
      MkBinary(g, op, d, s0, s1) == Emit(g, Insn(Alu(op, s1.Reg?), 0, Some(d), Some(s0), Some(s1)))
  {
  }

  datatype Cond = EQ | NE | LT | LE | GT | GE | LTU | LEU | GTU | GEU | TEST

  /** The condition with its operands exchanged. */
  function Mirror(c: Cond): Cond {
    match c
    case LT => GT
    case LE => GE
    case GT => LT
    case GE => LE
    case LTU => GTU
    case LEU => GEU
    case GTU => LTU
    case GEU => LEU
    case _ => c
  }

  /** The jump for a condition, and whether it tests the opposite. */
  function JumpFor(c: Cond): (CondOp, bool) {
    match c
    case EQ => (JEQ, false)
    case NE => (JNE, false)
    case LE => (JSGT, true)
    case GT => (JSGT, false)
    case LT => (JSGE, true)
    case GE => (JSGE, false)
    case LEU => (JGT, true)
    case GTU => (JGT, false)
    case LTU => (JGE, true)
    case GEU => (JGE, false)
    case TEST => (JSET, false)
  }

  function Swaps(s0: Value, s1: Value): bool {
    s1.Reg? && !s0.Reg?
  }

  /** mk_jcond, and the end of the block. */
  function MkJcond(g: Gen, c: Cond, s0: Value, s1: Value, t: nat, f: nat): Gen {
    var (a, b) := if Swaps(s0, s1) then (s1, s0) else (s0, s1);
    var (code, inv) := JumpFor(if Swaps(s0, s1) then Mirror(c) else c);
    if InBlock(g) then
      var i := Insn(Jcond(code, b.Reg?), 0, None, Some(a), Some(b));
      var blk := g.blocks[g.cur.value];
      Gen(g.blocks[g.cur.value := Block(blk.insns + [i], Some(if inv then f else t), Some(if inv then t else f))],
          g.nregs, None)
    else g
  }

  // ----- expressions and conditions -----

  function CondOf(c: Comparison): Cond {
    match c
    case Equal => EQ
    case NotEqual => NE
    case Less => LT
    case LessEqual => LE
    case Greater => GT
    case GreaterEqual => GE
  }

  predicate IsLogical(e: Expr) {
    e.Not? || e.LogicalOr? || e.LogicalAnd? || e.Compare?
  }

  /** emit_expr. */
  function GenExpr(e: Expr, g: Gen): (Gen, Value)
    decreases e, if IsLogical(e) then 3 else 0
  {
    match e
    case Lit(i) => (g, Imm(i))
    case Local(r) => (g, Reg(r))
    case UnaryPlus(a) => GenExpr(a, g)
    case Bin(op, l, r) =>
      var s0 := g.nregs;
      var (g1, v0) := GenExpr(l, WithReg(g));
      var (g2, v1) := GenExpr(r, MkMov(g1, s0, v0));
      (MkBinary(WithReg(g2), CodeOf(op), g2.nregs, Reg(s0), v1), Reg(g2.nregs))
    case Negate(a) =>
      var (g1, v) := GenExpr(a, g);
      (MkNeg(WithReg(g1), g1.nregs, v), Reg(g1.nregs))
    case Complement(a) =>
      var (g1, v) := GenExpr(a, g);
      (MkBinary(WithReg(g1), Xor, g1.nregs, v, Imm(-1)), Reg(g1.nregs))
    case Ternary(c, y, n) =>
      var join, r, other := |g.blocks|, g.nregs, |g.blocks| + 1;
      var (g1, v1) := GenExpr(y, WithBlock(WithReg(WithBlock(g))));
      var g2 := GenCond(c, join, other, MkMov(g1, r, v1));
      var (g3, v2) := GenExpr(n, Into(g2, other));
      (Into(EmitJmp(MkMov(g3, r, v2), join), join), Reg(r))
    case _ => GenBool(e, g)
  }

  /** The literal case of a unary minus is never taken: a negated literal becomes
      a move and a negation. */
  lemma NegatedLiteral(i: int, g: Gen)
    requires Open(g)
    ensures var (g', v) := GenExpr(Negate(Lit(i)), g);
      v == Reg(g.nregs) && g'.cur == g.cur && |g'.blocks| == |g.blocks|
      && g'.blocks[g.cur.value].insns ==
         g.blocks[g.cur.value].insns + [Mov(g.nregs, Imm(i)), Insn(Neg, 0, Some(g.nregs), Some(Reg(g.nregs)), None)]
  {
  }

  /** emit_bool. */
  function GenBool(e: Expr, g: Gen): (Gen, Value)
    requires IsLogical(e)
    decreases e, 2
  {
    var other, join, r := |g.blocks|, |g.blocks| + 1, g.nregs;
    var g1 := GenCond(e, join, other, MkMov(WithReg(WithBlock(WithBlock(g))), r, Imm(1)));
    (Into(EmitJmp(MkMov(Into(g1, other), r, Imm(0)), join), join), Reg(r))
  }

  /** emit_cond. */
  function GenCond(e: Expr, t: nat, f: nat, g: Gen): Gen
    decreases e, 1
  {
    match e
    case LogicalOr(l, r) =>
      var next := |g.blocks|;
      GenCond(r, t, f, Into(GenCond(l, t, next, WithBlock(g)), next))
    case LogicalAnd(l, r) =>
      var next := |g.blocks|;
      GenCond(r, t, f, Into(GenCond(l, next, f, WithBlock(g)), next))
    case Not(a) => GenCond(a, f, t, g)
    case Compare(c, l, r) =>
      var (g1, v0) := GenExpr(l, g);
      var (g2, v1) := GenExpr(r, g1);
      MkJcond(g2, CondOf(c), v0, v1, t, f)
    case Bin(BitAnd, l, r) =>
      var (g1, v0) := GenExpr(l, g);
      var (g2, v1) := GenExpr(r, g1);
      MkJcond(g2, TEST, v0, v1, t, f)
    case _ =>
      var (g1, v) := GenExpr(e, g);
      MkJcond(g1, NE, v, Imm(0), t, f)
  }

  // ----- what generation leaves alone -----

  ghost predicate SameBlock(a: Gen, b: Gen, x: nat) {
    x < |a.blocks| && x < |b.blocks| && b.blocks[x] == a.blocks[x]
  }

  /** Of the blocks below lim only block c changed, by instructions added at its
      end; registers and blocks were only added. */
  ghost predicate Grows(c: nat, lim: nat, a: Gen, b: Gen) {
    lim <= |a.blocks| <= |b.blocks| && a.nregs <= b.nregs
    && (forall x: nat {:trigger SameBlock(a, b, x)} | x < lim && x != c :: SameBlock(a, b, x))
    && (c < lim ==> a.blocks[c].insns <= b.blocks[c].insns)
  }

  lemma GrowsTrans(c: nat, lim: nat, a: Gen, b: Gen, d: Gen)
    requires Grows(c, lim, a, b) && Grows(c, lim, b, d)
    ensures Grows(c, lim, a, d)
  {
    forall x: nat | x < lim && x != c ensures SameBlock(a, d, x) {
      assert SameBlock(a, b, x) && SameBlock(b, d, x);
    }
  }

  /** A call that appends to a block outside this range, or to c itself. */
  lemma GrowsInner(c: nat, lim: nat, c2: nat, lim2: nat, a: Gen, b: Gen)
    requires Grows(c2, lim2, a, b) && lim <= lim2 && (c2 == c || c2 >= lim)
    ensures Grows(c, lim, a, b)
  {
    if c < lim && c2 != c { assert SameBlock(a, b, c); }
  }

  /** Where code generation may continue: in the block it was in, or a new one. */
  ghost predicate Continues(g: Gen, g': Gen) {
    Open(g) && Open(g') && Grows(g.cur.value, |g.blocks|, g, g')
    && (g'.cur == g.cur || g'.cur.value >= |g.blocks|)
  }

  lemma ContinuesTrans(a: Gen, b: Gen, c: Gen)
    requires Continues(a, b) && Continues(b, c)
    ensures Continues(a, c)
  {
    GrowsInner(a.cur.value, |a.blocks|, b.cur.value, |b.blocks|, b, c);
    GrowsTrans(a.cur.value, |a.blocks|, a, b, c);
  }

  /** Generation has ended the block it was in; every old block but that one is
      as it was. */
  ghost predicate Ends(g: Gen, g': Gen) {
    Open(g) && Grows(g.cur.value, |g.blocks|, g, g')
  }

  lemma EndsTrans(a: Gen, b: Gen, c: Gen)
    requires Continues(a, b) && Ends(b, c)
    ensures Ends(a, c)
  {
    GrowsInner(a.cur.value, |a.blocks|, b.cur.value, |b.blocks|, b, c);
    GrowsTrans(a.cur.value, |a.blocks|, a, b, c);
  }

  lemma EmitContinues(g: Gen, i: Insn)
    requires Open(g)
    ensures Continues(g, Emit(g, i))
  {
  }

  lemma NewContinues(g: Gen)
    requires Open(g)
    ensures Continues(g, g) && Continues(g, WithReg(g)) && Continues(g, WithBlock(g))
  {
  }

  lemma MovContinues(g: Gen, d: nat, v: Value)
    requires Open(g)
    ensures Continues(g, MkMov(g, d, v))
  {
    EmitContinues(g, Mov(d, v));
  }

  lemma NegContinues(g: Gen, d: nat, v: Value)
    requires Open(g)
    ensures Continues(g, MkNeg(g, d, v))
  {
    MovContinues(g, d, v);
    EmitContinues(MkMov(g, d, v), Insn(Neg, 0, Some(d), Some(Reg(d)), None));
    ContinuesTrans(g, MkMov(g, d, v), MkNeg(g, d, v));
  }

  lemma BinaryContinues(g: Gen, op: AluOp, d: nat, s0: Value, s1: Value)
    requires Open(g)
    ensures Continues(g, MkBinary(g, op, d, s0, s1))
  {
    NegContinues(g, d, s1);
    EmitContinues(g, Insn(Alu(op, s1.Reg?), 0, Some(d), Some(s0), Some(s1)));
  }

  lemma EndersEnd(g: Gen, c: Cond, s0: Value, s1: Value, t: nat, f: nat)
    requires Open(g)
    ensures Ends(g, EmitJmp(g, t)) && Ends(g, MkJcond(g, c, s0, s1, t, f))
  {
  }

  /** A result register is allocated. */
  predicate Has(g: Gen, v: Value) {
    v.Reg? ==> v.r < g.nregs
  }

  /** After a branch, generation resumes in a block that was new and empty. */
  lemma Resume(g: Gen, mid: Gen, done: Gen, b: nat)
    requires Continues(g, mid) && Ends(mid, done) && |g.blocks| <= b < |mid.blocks| && mid.cur != Some(b)
    requires mid.blocks[b] == EMPTY
    ensures Open(Into(done, b)) && done.blocks[b] == EMPTY
    ensures Continues(g, Into(done, b))
  {
    EndsTrans(g, mid, done);
    assert SameBlock(mid, done, b);
    forall x: nat | x < |g.blocks| && Some(x) != g.cur ensures SameBlock(g, Into(done, b), x) {
      assert SameBlock(g, done, x);
    }
  }

  lemma {:induction false} WfMore(e: Expr, n: nat, m: nat)
    requires WfExpr(e, n) && n <= m
    ensures WfExpr(e, m)
    decreases e
  {
    match e
    case Lit(_) =>
    case Local(_) =>
    case Bin(_, l, r) => WfMore(l, n, m); WfMore(r, n, m);
    case Negate(a) => WfMore(a, n, m);
    case Complement(a) => WfMore(a, n, m);
    case Not(a) => WfMore(a, n, m);
    case UnaryPlus(a) => WfMore(a, n, m);
    case LogicalOr(l, r) => WfMore(l, n, m); WfMore(r, n, m);
    case LogicalAnd(l, r) => WfMore(l, n, m); WfMore(r, n, m);
    case Compare(_, l, r) => WfMore(l, n, m); WfMore(r, n, m);
    case Ternary(c, y, x) => WfMore(c, n, m); WfMore(y, n, m); WfMore(x, n, m);
  }

  /** emit_expr goes on from where it was, or from a new block. */
  lemma {:induction false} ExprContinues(e: Expr, g: Gen)
    requires Open(g) && WfExpr(e, g.nregs)
    ensures Continues(g, GenExpr(e, g).0) && Has(GenExpr(e, g).0, GenExpr(e, g).1)
    decreases e, if IsLogical(e) then 3 else 0, 2
  {
    match e
    case Lit(_) => NewContinues(g);
    case Local(_) => NewContinues(g);
    case UnaryPlus(a) => ExprContinues(a, g);
    case Bin(op, l, r) =>
      LeftContinues(e, g);
      ExprContinues(r, LeftGen(e, g));
      OperatorContinues(e, g);
    case Negate(a) => ExprContinues(a, g); NegateContinues(a, g);
    case Complement(a) => ExprContinues(a, g); FlipContinues(a, g);
    case Ternary(c, y, n) => ChoiceContinues(e, g);
    case _ => BoolContinues(e, g);
  }

  lemma OperatorContinues(e: Expr, g: Gen)
    requires Open(g) && e.Bin? && Continues(g, LeftGen(e, g))
    requires Continues(LeftGen(e, g), GenExpr(e.right, LeftGen(e, g)).0)
    ensures Continues(g, GenExpr(e, g).0) && Has(GenExpr(e, g).0, GenExpr(e, g).1)
  {
    var g1 := LeftGen(e, g);
    var (g2, v) := GenExpr(e.right, g1);
    ContinuesTrans(g, g1, g2);
    NewContinues(g2);
    BinaryContinues(WithReg(g2), CodeOf(e.op), g2.nregs, Reg(g.nregs), v);
    ContinuesTrans(g, g2, WithReg(g2));
    ContinuesTrans(g, WithReg(g2), GenExpr(e, g).0);
  }

  lemma NegateContinues(a: Expr, g: Gen)
    requires Open(g) && Continues(g, GenExpr(a, g).0)
    ensures Continues(g, GenExpr(Negate(a), g).0) && Has(GenExpr(Negate(a), g).0, GenExpr(Negate(a), g).1)
  {
    var (g1, v) := GenExpr(a, g);
    NewContinues(g1);
    NegContinues(WithReg(g1), g1.nregs, v);
    ContinuesTrans(g, g1, WithReg(g1));
    ContinuesTrans(g, WithReg(g1), GenExpr(Negate(a), g).0);
  }

  lemma FlipContinues(a: Expr, g: Gen)
    requires Open(g) && Continues(g, GenExpr(a, g).0)
    ensures Continues(g, GenExpr(Complement(a), g).0) && Has(GenExpr(Complement(a), g).0, GenExpr(Complement(a), g).1)
  {
    var (g1, v) := GenExpr(a, g);
    NewContinues(g1);
    BinaryContinues(WithReg(g1), Xor, g1.nregs, v, Imm(-1));
    ContinuesTrans(g, g1, WithReg(g1));
    ContinuesTrans(g, WithReg(g1), GenExpr(Complement(a), g).0);
  }

  lemma {:induction false} ChoiceContinues(e: Expr, g: Gen)
    requires Open(g) && WfExpr(e, g.nregs) && e.Ternary?
    ensures Continues(g, GenExpr(e, g).0) && Has(GenExpr(e, g).0, GenExpr(e, g).1)
    decreases e, 0, 1
  {
    YesContinues(e, g);
    var g1, join, r := YesGen(e, g), |g.blocks|, g.nregs;
    CondEnds(e.cond, join, join + 1, g1);
    var g2 := GenCond(e.cond, join, join + 1, g1);
    Resume(g, g1, g2, join + 1);
    Resume(g, g1, g2, join);
    WfMore(e.no, g.nregs, g2.nregs);
    ExprContinues(e.no, Into(g2, join + 1));
    var (g3, v) := GenExpr(e.no, Into(g2, join + 1));
    JoinContinues(g, Into(g2, join + 1), g3, r, v, join);
  }

  /** A binary operator up to the copy of its left operand. */
  function LeftGen(e: Expr, g: Gen): Gen
    requires e.Bin?
  {
    var (g1, v) := GenExpr(e.left, WithReg(g));
    MkMov(g1, g.nregs, v)
  }

  lemma {:induction false} LeftContinues(e: Expr, g: Gen)
    requires e.Bin? && Open(g) && WfExpr(e, g.nregs)
    ensures Continues(g, LeftGen(e, g)) && g.nregs < LeftGen(e, g).nregs && WfExpr(e.right, LeftGen(e, g).nregs)
    ensures Continues(WithReg(g), GenExpr(e.left, WithReg(g)).0)
    ensures Has(GenExpr(e.left, WithReg(g)).0, GenExpr(e.left, WithReg(g)).1)
    decreases e, 0, 0
  {
    NewContinues(g);
    WfMore(e.left, g.nregs, g.nregs + 1);
    ExprContinues(e.left, WithReg(g));
    var (g1, v) := GenExpr(e.left, WithReg(g));
    ContinuesTrans(g, WithReg(g), g1);
    MovContinues(g1, g.nregs, v);
    ContinuesTrans(g, g1, LeftGen(e, g));
    WfMore(e.right, g.nregs, LeftGen(e, g).nregs);
  }

  /** A conditional expression up to the copy of its first value. */
  function YesGen(e: Expr, g: Gen): Gen
    requires e.Ternary?
  {
    var (g1, v) := GenExpr(e.yes, WithBlock(WithReg(WithBlock(g))));
    MkMov(g1, g.nregs, v)
  }

  lemma {:induction false} YesContinues(e: Expr, g: Gen)
    requires e.Ternary? && Open(g) && WfExpr(e, g.nregs)
    ensures var g0, g1, join := WithBlock(WithReg(WithBlock(g))), YesGen(e, g), |g.blocks|;
      Continues(g, g0) && Continues(g0, GenExpr(e.yes, g0).0) && Has(GenExpr(e.yes, g0).0, GenExpr(e.yes, g0).1)
      && Continues(g, g1) && g.nregs < g1.nregs && WfExpr(e.cond, g1.nregs)
      && join + 1 < |g1.blocks| && g1.blocks[join] == g1.blocks[join + 1] == EMPTY && g1.cur != Some(join)
         && g1.cur != Some(join + 1)
    decreases e, 0, 0
  {
    var g0, join := WithBlock(WithReg(WithBlock(g))), |g.blocks|;
    NewContinues(g);
    NewContinues(WithBlock(g));
    NewContinues(WithReg(WithBlock(g)));
    ContinuesTrans(g, WithBlock(g), WithReg(WithBlock(g)));
    ContinuesTrans(g, WithReg(WithBlock(g)), g0);
    WfMore(e.yes, g.nregs, g0.nregs);
    ExprContinues(e.yes, g0);
    var (g1, v) := GenExpr(e.yes, g0);
    MovContinues(g1, g.nregs, v);
    var g1' := MkMov(g1, g.nregs, v);
    ContinuesTrans(g0, g1, g1');
    ContinuesTrans(g, g0, g1');
    WfMore(e.cond, g.nregs, g1'.nregs);
    assert SameBlock(g0, g1', join) && SameBlock(g0, g1', join + 1);
  }

  /** The end of the second branch: move, jump to the join block, go on there. */
  lemma JoinContinues(g: Gen, g2: Gen, g3: Gen, r: nat, v: Value, join: nat)
    requires Continues(g, g2) && Continues(g2, g3)
    requires |g.blocks| <= join < |g2.blocks| && g2.cur != Some(join) && g2.blocks[join] == EMPTY
    ensures var g4 := MkMov(g3, r, v);
      Continues(g2, g4) && Ends(g2, EmitJmp(g4, join)) && Continues(g, Into(EmitJmp(g4, join), join))
  {
    var g4 := MkMov(g3, r, v);
    MovContinues(g3, r, v);
    ContinuesTrans(g2, g3, g4);
    EndersEnd(g4, EQ, v, v, join, join);
    EndsTrans(g2, g4, EmitJmp(g4, join));
    Resume(g, g2, EmitJmp(g4, join), join);
  }

  /** emit_bool up to the first move. */
  function OneGen(g: Gen): Gen {
    MkMov(WithReg(WithBlock(WithBlock(g))), g.nregs, Imm(1))
  }

  lemma OneContinues(g: Gen)
    requires Open(g)
    ensures var g1, b := OneGen(g), |g.blocks|;
      Continues(g, g1) && g1.nregs == g.nregs + 1 && b + 1 < |g1.blocks| && g1.blocks[b] == g1.blocks[b + 1] == EMPTY
      && g1.cur == g.cur
  {
    var g0 := WithReg(WithBlock(WithBlock(g)));
    NewContinues(g);
    NewContinues(WithBlock(g));
    NewContinues(WithBlock(WithBlock(g)));
    ContinuesTrans(g, WithBlock(g), WithBlock(WithBlock(g)));
    ContinuesTrans(g, WithBlock(WithBlock(g)), g0);
    MovContinues(g0, g.nregs, Imm(1));
    ContinuesTrans(g, g0, OneGen(g));
  }

  lemma {:induction false} BoolContinues(e: Expr, g: Gen)
    requires IsLogical(e) && Open(g) && WfExpr(e, g.nregs)
    ensures Continues(g, GenBool(e, g).0) && Has(GenBool(e, g).0, GenBool(e, g).1)
    decreases e, 2
  {
    var other, join, r := |g.blocks|, |g.blocks| + 1, g.nregs;
    OneContinues(g);
    WfMore(e, g.nregs, g.nregs + 1);
    CondEnds(e, join, other, OneGen(g));
    var g2 := GenCond(e, join, other, OneGen(g));
    Resume(g, OneGen(g), g2, other);
    Resume(g, OneGen(g), g2, join);
    NewContinues(Into(g2, other));
    JoinContinues(g, Into(g2, other), Into(g2, other), r, Imm(0), join);
  }

  /** emit_cond ends the block it was in and touches no other old block. */
  lemma {:induction false} CondEnds(e: Expr, t: nat, f: nat, g: Gen)
    requires Open(g) && WfExpr(e, g.nregs)
    ensures Ends(g, GenCond(e, t, f, g))
    decreases e, 1
  {
    match e
    case LogicalOr(l, r) => PairEnds(e, t, |g.blocks|, t, f, g);
    case LogicalAnd(l, r) => PairEnds(e, |g.blocks|, f, t, f, g);
    case Not(a) => CondEnds(a, f, t, g);
    case Compare(c, l, r) => TestEnds(e, CondOf(c), t, f, g);
    case Bin(BitAnd, l, r) => TestEnds(e, TEST, t, f, g);
    case _ => PlainEnds(e, t, f, g);
  }

  /** Conditions without a form of their own. */
  predicate IsPlain(e: Expr) {
    !IsLogical(e) && !(e.Bin? && e.op.BitAnd?)
  }

  lemma PlainCond(e: Expr, t: nat, f: nat, g: Gen)
    requires IsPlain(e)
    ensures GenCond(e, t, f, g) == MkJcond(GenExpr(e, g).0, NE, GenExpr(e, g).1, Imm(0), t, f)
  {
  }

  lemma {:induction false} PlainEnds(e: Expr, t: nat, f: nat, g: Gen)
    requires IsPlain(e) && Open(g) && WfExpr(e, g.nregs)
    ensures Ends(g, GenCond(e, t, f, g))
    decreases e, 0, 3
  {
    PlainCond(e, t, f, g);
    ExprContinues(e, g);
    var (g1, v) := GenExpr(e, g);
    EndersEnd(g1, NE, v, Imm(0), t, f);
    EndsTrans(g, g1, MkJcond(g1, NE, v, Imm(0), t, f));
  }

  /** The second operand of && or || is compiled in a block of its own. */
  lemma {:induction false} PairEnds(e: Expr, lt: nat, lf: nat, t: nat, f: nat, g: Gen)
    requires (e.LogicalOr? || e.LogicalAnd?) && Open(g) && WfExpr(e, g.nregs)
    ensures var next := |g.blocks|;
      var g1 := GenCond(e.left, lt, lf, WithBlock(g));
      Ends(WithBlock(g), g1) && Continues(g, Into(g1, next)) && g1.blocks[next] == EMPTY
      && WfExpr(e.right, g1.nregs) && Ends(g, GenCond(e.right, t, f, Into(g1, next)))
    decreases e, 0
  {
    var next, g0 := |g.blocks|, WithBlock(g);
    NewContinues(g);
    CondEnds(e.left, lt, lf, g0);
    var g1 := GenCond(e.left, lt, lf, g0);
    Resume(g, g0, g1, next);
    WfMore(e.right, g.nregs, g1.nregs);
    CondEnds(e.right, t, f, Into(g1, next));
    EndsTrans(g, Into(g1, next), GenCond(e.right, t, f, Into(g1, next)));
  }

  lemma {:induction false} TestEnds(e: Expr, c: Cond, t: nat, f: nat, g: Gen)
    requires (e.Bin? || e.Compare?) && Open(g) && WfExpr(e, g.nregs)
    ensures var (g1, v0) := GenExpr(e.left, g);
      var (g2, v1) := GenExpr(e.right, g1);
      Continues(g, g1) && Continues(g1, g2) && Has(g1, v0) && Has(g2, v1) && WfExpr(e.right, g1.nregs)
      && Ends(g, MkJcond(g2, c, v0, v1, t, f))
    decreases e, 0
  {
    ExprContinues(e.left, g);
    var (g1, v0) := GenExpr(e.left, g);
    WfMore(e.right, g.nregs, g1.nregs);
    ExprContinues(e.right, g1);
    var (g2, v1) := GenExpr(e.right, g1);
    ContinuesTrans(g, g1, g2);
    EndersEnd(g2, c, v0, v1, t, f);
    EndsTrans(g, g2, MkJcond(g2, c, v0, v1, t, f));
  }

  /** A conditional expression up to the start of its second branch. */
  function ElseGen(e: Expr, g: Gen): Gen
    requires e.Ternary?
  {
    Into(GenCond(e.cond, |g.blocks|, |g.blocks| + 1, YesGen(e, g)), |g.blocks| + 1)
  }

  /** What generation has made when it reaches the join block. */
  function JoinGen(e: Expr, g: Gen): Gen
    requires e.Ternary?
  {
    var (g4, v) := GenExpr(e.no, ElseGen(e, g));
    EmitJmp(MkMov(g4, g.nregs, v), |g.blocks|)
  }

  lemma ElseOpens(e: Expr, g: Gen)
    requires Open(g) && e.Ternary? && WfExpr(e, g.nregs)
    ensures var join, g3 := |g.blocks|, ElseGen(e, g);
      Ends(YesGen(e, g), GenCond(e.cond, join, join + 1, YesGen(e, g))) && Continues(g, g3) && g.nregs < g3.nregs
      && join + 1 < |g3.blocks| && g3.blocks[join] == g3.blocks[join + 1] == EMPTY && WfExpr(e.no, g3.nregs)
  {
    var join, g1 := |g.blocks|, YesGen(e, g);
    YesContinues(e, g);
    CondEnds(e.cond, join, join + 1, g1);
    var g2 := GenCond(e.cond, join, join + 1, g1);
    Resume(g, g1, g2, join + 1);
    Resume(g, g1, g2, join);
    WfMore(e.no, g.nregs, g2.nregs);
  }

  lemma BinForm(e: Expr, g: Gen)
    requires e.Bin?
    ensures var (g1, v) := GenExpr(e.right, LeftGen(e, g));
      GenExpr(e, g) == (MkBinary(WithReg(g1), CodeOf(e.op), g1.nregs, Reg(g.nregs), v), Reg(g1.nregs))
  {
  }

  lemma TernaryForm(e: Expr, g: Gen)
    requires e.Ternary?
    ensures GenExpr(e, g) == (Into(JoinGen(e, g), |g.blocks|), Reg(g.nregs))
  {
  }

  // ----- no block is left empty by a condition -----

  /** When generation goes on elsewhere, the block it was in is not empty. */
  ghost predicate Leaves(g: Gen, g': Gen) {
    InBlock(g) && |g.blocks| <= |g'.blocks| && (g'.cur == g.cur || g'.blocks[g.cur.value].insns != [])
  }

  lemma StaysNonempty(g: Gen, mid: Gen, done: Gen)
    requires Continues(g, mid) && Ends(mid, done) && mid.blocks[g.cur.value].insns != []
    ensures done.blocks[g.cur.value].insns != []
  {
    if mid.cur != g.cur { assert SameBlock(mid, done, g.cur.value); }
  }

  lemma LeavesTrans(a: Gen, b: Gen, c: Gen)
    requires Continues(a, b) && Ends(b, c) && Leaves(a, b) && Leaves(b, c)
    ensures Leaves(a, c)
  {
    if b.cur != a.cur { StaysNonempty(a, b, c); }
  }

  lemma {:induction false} ExprLeaves(e: Expr, g: Gen)
    requires Open(g) && WfExpr(e, g.nregs)
    ensures Leaves(g, GenExpr(e, g).0)
    decreases e, if IsLogical(e) then 3 else 0, 2
  {
    match e
    case Lit(_) =>
    case Local(_) =>
    case UnaryPlus(a) => ExprLeaves(a, g);
    case Negate(a) => UnaryLeaves(e, g);
    case Complement(a) => UnaryLeaves(e, g);
    case Bin(_, _, _) => BinLeaves(e, g);
    case Ternary(_, _, _) => TernaryLeaves(e, g);
    case _ => BoolLeaves(e, g);
  }

  lemma {:induction false} UnaryLeaves(e: Expr, g: Gen)
    requires (e.Negate? || e.Complement?) && Open(g) && WfExpr(e, g.nregs)
    ensures Leaves(g, GenExpr(e, g).0)
    decreases e, 0, 0
  {
    var (g1, v) := GenExpr(e.arg, g);
    ExprContinues(e.arg, g);
    ExprLeaves(e.arg, g);
    NegContinues(WithReg(g1), g1.nregs, v);
    BinaryContinues(WithReg(g1), Xor, g1.nregs, v, Imm(-1));
    if g1.cur != g.cur { assert SameBlock(WithReg(g1), GenExpr(e, g).0, g.cur.value); }
  }

  lemma {:induction false} BinLeaves(e: Expr, g: Gen)
    requires e.Bin? && Open(g) && WfExpr(e, g.nregs)
    ensures Leaves(g, GenExpr(e, g).0)
    decreases e, 0, 1
  {
    LeftContinues(e, g);
    var g1 := LeftGen(e, g);
    LeftLeaves(e, g);
    ExprContinues(e.right, g1);
    ExprLeaves(e.right, g1);
    var (g2, v) := GenExpr(e.right, g1);
    LeavesTrans(g, g1, g2);
    ContinuesTrans(g, g1, g2);
    BinaryContinues(WithReg(g2), CodeOf(e.op), g2.nregs, Reg(g.nregs), v);
    if g2.cur != g.cur { assert SameBlock(WithReg(g2), GenExpr(e, g).0, g.cur.value); }
  }

  lemma {:induction false} LeftLeaves(e: Expr, g: Gen)
    requires e.Bin? && Open(g) && WfExpr(e, g.nregs)
    ensures Leaves(g, LeftGen(e, g))
    decreases e, 0, 0
  {
    WfMore(e.left, g.nregs, g.nregs + 1);
    ExprContinues(e.left, WithReg(g));
    ExprLeaves(e.left, WithReg(g));
  }

  /** emit_bool begins with a move. */
  lemma BoolLeaves(e: Expr, g: Gen)
    requires IsLogical(e) && Open(g) && WfExpr(e, g.nregs)
    ensures Leaves(g, GenBool(e, g).0)
  {
    var other, join, g1 := |g.blocks|, |g.blocks| + 1, OneGen(g);
    OneContinues(g);
    WfMore(e, g.nregs, g.nregs + 1);
    CondEnds(e, join, other, g1);
    var g2 := GenCond(e, join, other, g1);
    StaysNonempty(g, g1, g2);
    Resume(g, g1, g2, other);
    var g3 := Into(g2, other);
    NewContinues(g3);
    JoinLeaves(g, g3, g3, g.nregs, Imm(0), join);
  }

  /** The end of a branch leaves the other blocks as they are. */
  lemma JoinLeaves(g: Gen, g2: Gen, g3: Gen, r: nat, v: Value, join: nat)
    requires Continues(g, g2) && Continues(g2, g3) && g2.blocks[g.cur.value].insns != []
    ensures var g4 := EmitJmp(MkMov(g3, r, v), join); |g.blocks| <= |g4.blocks| && g4.blocks[g.cur.value].insns != []
  {
    var g4 := MkMov(g3, r, v);
    MovContinues(g3, r, v);
    ContinuesTrans(g2, g3, g4);
    EndersEnd(g4, EQ, v, v, join, join);
    EndsTrans(g2, g4, EmitJmp(g4, join));
    StaysNonempty(g, g2, EmitJmp(g4, join));
  }

  /** A conditional expression moves its first value before it branches. */
  lemma {:induction false} TernaryLeaves(e: Expr, g: Gen)
    requires e.Ternary? && Open(g) && WfExpr(e, g.nregs)
    ensures Leaves(g, GenExpr(e, g).0)
    decreases e, 0, 1
  {
    var join, g1 := |g.blocks|, YesGen(e, g);
    YesContinues(e, g);
    YesLeaves(e, g);
    CondEnds(e.cond, join, join + 1, g1);
    var g2 := GenCond(e.cond, join, join + 1, g1);
    StaysNonempty(g, g1, g2);
    Resume(g, g1, g2, join + 1);
    WfMore(e.no, g.nregs, g2.nregs);
    ExprContinues(e.no, Into(g2, join + 1));
    var (g3, v) := GenExpr(e.no, Into(g2, join + 1));
    JoinLeaves(g, Into(g2, join + 1), g3, g.nregs, v, join);
  }

  lemma {:induction false} YesLeaves(e: Expr, g: Gen)
    requires e.Ternary? && Open(g) && WfExpr(e, g.nregs)
    ensures Continues(g, YesGen(e, g)) && YesGen(e, g).blocks[g.cur.value].insns != []
    decreases e, 0, 0
  {
    var g0 := WithBlock(WithReg(WithBlock(g)));
    YesContinues(e, g);
    WfMore(e.yes, g.nregs, g0.nregs);
    ExprLeaves(e.yes, g0);
    WfResult(e.yes, g.nregs, g0);
    var (g1, v) := GenExpr(e.yes, g0);
    MovContinues(g1, g.nregs, v);
    if g1.cur != g.cur { StaysNonempty(g0, g1, YesGen(e, g)); }
  }

  /** A result is a register the expression reads or one made for it. */
  lemma {:induction false} WfResult(e: Expr, n: nat, g: Gen)
    requires WfExpr(e, n) && n <= g.nregs && Open(g)
    ensures var v := GenExpr(e, g).1; v.Reg? ==> v.r < n || v.r >= g.nregs
    decreases e
  {
    WfMore(e, n, g.nregs);
    match e
    case UnaryPlus(a) => WfResult(a, n, g);
    case Bin(_, l, r) =>
      LeftContinues(e, g);
      ExprContinues(r, LeftGen(e, g));
    case Negate(a) => ExprContinues(a, g);
    case Complement(a) => ExprContinues(a, g);
    case _ =>
  }

  /** emit_cond leaves no empty block behind. */
  lemma {:induction false} CondLeaves(e: Expr, t: nat, f: nat, g: Gen)
    requires Open(g) && WfExpr(e, g.nregs)
    ensures var g' := GenCond(e, t, f, g); Ends(g, g') && g'.blocks[g.cur.value].insns != []
    decreases e, 1
  {
    CondEnds(e, t, f, g);
    match e
    case LogicalOr(l, r) => PairLeaves(e, t, |g.blocks|, t, f, g);
    case LogicalAnd(l, r) => PairLeaves(e, |g.blocks|, f, t, f, g);
    case Not(a) => CondLeaves(a, f, t, g);
    case Compare(c, l, r) => TestLeaves(e, CondOf(c), t, f, g);
    case Bin(BitAnd, l, r) => TestLeaves(e, TEST, t, f, g);
    case _ =>
      PlainCond(e, t, f, g);
      ExprContinues(e, g);
      ExprLeaves(e, g);
      JcondLeaves(g, GenExpr(e, g).0, NE, GenExpr(e, g).1, Imm(0), t, f);
  }

  lemma JcondLeaves(g: Gen, g1: Gen, c: Cond, s0: Value, s1: Value, t: nat, f: nat)
    requires Continues(g, g1) && Leaves(g, g1)
    ensures var g' := MkJcond(g1, c, s0, s1, t, f); |g.blocks| <= |g'.blocks| && g'.blocks[g.cur.value].insns != []
  {
  }

  lemma {:induction false} PairLeaves(e: Expr, lt: nat, lf: nat, t: nat, f: nat, g: Gen)
    requires (e.LogicalOr? || e.LogicalAnd?) && Open(g) && WfExpr(e, g.nregs)
    ensures var g' := GenCond(e.right, t, f, Into(GenCond(e.left, lt, lf, WithBlock(g)), |g.blocks|));
      |g.blocks| <= |g'.blocks| && g'.blocks[g.cur.value].insns != []
    decreases e, 0
  {
    PairEnds(e, lt, lf, t, f, g);
    CondLeaves(e.left, lt, lf, WithBlock(g));
    var g1 := Into(GenCond(e.left, lt, lf, WithBlock(g)), |g.blocks|);
    CondEnds(e.right, t, f, g1);
    StaysNonempty(g, g1, GenCond(e.right, t, f, g1));
  }

  lemma {:induction false} TestLeaves(e: Expr, c: Cond, t: nat, f: nat, g: Gen)
    requires (e.Bin? || e.Compare?) && Open(g) && WfExpr(e, g.nregs)
    ensures var (g1, v0) := GenExpr(e.left, g);
      var (g2, v1) := GenExpr(e.right, g1);
      var g' := MkJcond(g2, c, v0, v1, t, f);
      |g.blocks| <= |g'.blocks| && g'.blocks[g.cur.value].insns != []
    decreases e, 0
  {
    TestEnds(e, c, t, f, g);
    ExprLeaves(e.left, g);
    var (g1, v0) := GenExpr(e.left, g);
    ExprLeaves(e.right, g1);
    var (g2, v1) := GenExpr(e.right, g1);
    LeavesTrans(g, g1, g2);
    ContinuesTrans(g, g1, g2);
    JcondLeaves(g, g2, c, v0, v1, t, f);
  }

  // ----- straight-line code -----

  /** Instructions appended to the current block. */
  function EmitAll(g: Gen, ins: seq<Insn>): Gen {
    if InBlock(g) then
      var b := g.blocks[g.cur.value];
      g.(blocks := g.blocks[g.cur.value := b.(insns := b.insns + ins)])
    else g
  }

  lemma EmitAllMore(g: Gen, ins: seq<Insn>, more: seq<Insn>)
    requires Open(g)
    ensures Open(EmitAll(g, ins)) && EmitAll(EmitAll(g, ins), more) == EmitAll(g, ins + more)
  {
    var b := g.blocks[g.cur.value];
    assert (b.insns + ins) + more == b.insns + (ins + more);
  }

  lemma EmitIsAll(g: Gen, i: Insn)
    ensures Emit(g, i) == EmitAll(g, [i])
  {
  }

  lemma EmitNothing(g: Gen)
    requires InBlock(g)
    ensures EmitAll(g, []) == g
  {
    assert g.blocks[g.cur.value].insns + [] == g.blocks[g.cur.value].insns;
  }
}
