/** Compiled expressions compute their value, and compiled conditions branch on
    it, in every program that the generated blocks end up in. */
module CodegenMeaning {
  import opened Ir
  import opened Machine
  import opened Script
  import opened Fixup
  import opened Codegen

  // ----- running from the middle of a block -----

  datatype Point = At(b: nat, k: nat, s: State) | Gone

  type Mover = Point -> Point

  /** One instruction, or the passage along the fall-through edge. */
  function Move(sem: Sem, p: seq<Block>, x: Point): Point {
    if x.Gone? || x.b >= |p| || x.k > |p[x.b].insns| then Gone
    else if x.k == |p[x.b].insns| then
      if p[x.b].fallthru.Some? then At(p[x.b].fallthru.value, 0, x.s) else Gone
    else
      var i := p[x.b].insns[x.k];
      if i.code.Exit? then Gone
      else if i.code.Ja? || (i.code.Jcond? && TestInsn(sem, i, x.s.regs)) then
        if p[x.b].taken.Some? then At(p[x.b].taken.value, 0, x.s) else Gone
      else if i.code.Jcond? then At(x.b, x.k + 1, x.s)
      else if Exec(sem, i, x.s).Some? then At(x.b, x.k + 1, Exec(sem, i, x.s).value) else Gone
  }

  function Moving(sem: Sem, p: seq<Block>): Mover {
    (x: Point) => Move(sem, p, x)
  }

  function Moves(m: Mover, x: Point, n: nat): Point
    decreases n
  {
    if n == 0 then x else Moves(m, m(x), n - 1)
  }

  ghost predicate Reaches(m: Mover, x: Point, y: Point) {
    exists n: nat :: Moves(m, x, n) == y
  }

  lemma {:induction false} MovesAdd(m: Mover, x: Point, a: nat, b: nat)
    ensures Moves(m, x, a + b) == Moves(m, Moves(m, x, a), b)
    decreases a
  {
    if a > 0 { MovesAdd(m, m(x), a - 1, b); }
  }

  lemma ReachesTrans(m: Mover, x: Point, y: Point, z: Point)
    requires Reaches(m, x, y) && Reaches(m, y, z)
    ensures Reaches(m, x, z)
  {
    var a: nat :| Moves(m, x, a) == y;
    var b: nat :| Moves(m, y, b) == z;
    MovesAdd(m, x, a, b);
  }

  lemma ReachesHere(m: Mover, x: Point)
    ensures Reaches(m, x, x) && Reaches(m, x, m(x))
  {
    assert Moves(m, x, 0) == x;
    assert Moves(m, m(x), 0) == m(x);
    assert Moves(m, x, 1) == m(x);
  }

  // ----- the finished program -----

  /** A program that keeps what has been generated: ended blocks as they are,
      open ones with what they already hold at their start. */
  ghost predicate Embeds(p: seq<Block>, g: Gen) {
    |g.blocks| <= |p| && forall b: nat {:trigger EmbedsBlock(p, g, b)} | b < |g.blocks| :: EmbedsBlock(p, g, b)
  }

  ghost predicate EmbedsBlock(p: seq<Block>, g: Gen, b: nat)
    requires b < |g.blocks| <= |p|
  {
    g.blocks[b].insns <= p[b].insns && (g.blocks[b].fallthru.Some? ==> p[b] == g.blocks[b])
  }

  /** What holds the later state holds the earlier one. */
  lemma EmbedsBefore(p: seq<Block>, g: Gen, g': Gen)
    requires Ends(g, g') && Embeds(p, g')
    ensures Embeds(p, g)
  {
    forall b: nat | b < |g.blocks| ensures EmbedsBlock(p, g, b) {
      assert EmbedsBlock(p, g', b);
      if Some(b) != g.cur { assert SameBlock(g, g', b); }
    }
  }

  /** The point where code generation stands. */
  function EndOf(g: Gen, s: State): Point
    requires InBlock(g)
  {
    At(g.cur.value, |g.blocks[g.cur.value].insns|, s)
  }

  function Val(v: Value, s: State): Word {
    First(Some(v), s.regs)
  }

  lemma EmitRuns(sem: Sem, p: seq<Block>, g: Gen, i: Insn, s: State)
    requires Open(g) && Embeds(p, Emit(g, i)) && !IsControl(i.code) && Exec(sem, i, s).Some?
    ensures Reaches(Moving(sem, p), EndOf(g, s), EndOf(Emit(g, i), Exec(sem, i, s).value))
  {
    var m := Moving(sem, p);
    assert EmbedsBlock(p, Emit(g, i), g.cur.value);
    assert m(EndOf(g, s)) == EndOf(Emit(g, i), Exec(sem, i, s).value);
    ReachesHere(m, EndOf(g, s));
  }

  lemma MovRuns(sem: Sem, p: seq<Block>, g: Gen, d: nat, v: Value, n: nat, s: State) returns (s': State)
    requires Open(g) && Embeds(p, MkMov(g, d, v)) && n <= d
    ensures Reaches(Moving(sem, p), EndOf(g, s), EndOf(MkMov(g, d, v), s'))
    ensures SameBelow(n, s, s') && Get(s'.regs, d) == Val(v, s)
    ensures forall r: nat | r != d :: Get(s'.regs, r) == Get(s.regs, r)
  {
    if v == Reg(d) {
      s' := s;
      ReachesHere(Moving(sem, p), EndOf(g, s));
    } else {
      s' := Exec(sem, Mov(d, v), s).value;
      GetUpdate(s.regs, d, Val(v, s));
      EmitRuns(sem, p, g, Mov(d, v), s);
    }
  }

  lemma AluRuns(sem: Sem, p: seq<Block>, g: Gen, op: AluOp, d: nat, s0: Value, s1: Value, n: nat, s: State)
    returns (s': State)
    requires Open(g) && Embeds(p, MkBinary(g, op, d, s0, s1)) && n <= d && !(op.Sub? && s0 == Imm(0))
    ensures Reaches(Moving(sem, p), EndOf(g, s), EndOf(MkBinary(g, op, d, s0, s1), s'))
    ensures SameBelow(n, s, s') && Get(s'.regs, d) == sem.alu(op, Val(s0, s), Val(s1, s))
    ensures forall r: nat | r != d :: Get(s'.regs, r) == Get(s.regs, r)
  {
    var i := Insn(Alu(op, s1.Reg?), 0, Some(d), Some(s0), Some(s1));
    s' := Exec(sem, i, s).value;
    GetUpdate(s.regs, d, sem.alu(op, Val(s0, s), Val(s1, s)));
    EmitRuns(sem, p, g, i, s);
  }

  lemma NegRuns(sem: Sem, p: seq<Block>, g: Gen, d: nat, v: Value, n: nat, s: State) returns (s': State)
    requires Open(g) && Embeds(p, MkNeg(g, d, v)) && n <= d
    ensures Reaches(Moving(sem, p), EndOf(g, s), EndOf(MkNeg(g, d, v), s'))
    ensures SameBelow(n, s, s') && Get(s'.regs, d) == sem.alu(Sub, 0, Val(v, s))
  {
    var g1, i := MkMov(g, d, v), Insn(Neg, 0, Some(d), Some(Reg(d)), None);
    MovContinues(g, d, v);
    EmitContinues(g1, i);
    EmbedsBefore(p, g1, Emit(g1, i));
    var s1 := MovRuns(sem, p, g, d, v, n, s);
    EmitRuns(sem, p, g1, i, s1);
    s' := Exec(sem, i, s1).value;
    GetUpdate(s1.regs, d, sem.alu(Sub, 0, Val(v, s)));
    ReachesTrans(Moving(sem, p), EndOf(g, s), EndOf(g1, s1), EndOf(MkNeg(g, d, v), s'));
  }

  // ----- branches -----

  /** What the eleven conditions mean. */
  predicate CondHolds(sem: Sem, c: Cond, x: Word, y: Word) {
    match c
    case EQ => x == y
    case NE => x != y
    case LT => Signed(x) < Signed(y)
    case LE => Signed(x) <= Signed(y)
    case GT => Signed(x) > Signed(y)
    case GE => Signed(x) >= Signed(y)
    case LTU => x < y
    case LEU => x <= y
    case GTU => x > y
    case GEU => x >= y
    case TEST => sem.alu(And, x, y) != 0
  }

  lemma MirrorHolds(sem: Sem, c: Cond, x: Word, y: Word)
    requires sem.alu(And, x, y) == sem.alu(And, y, x)
    ensures CondHolds(sem, Mirror(c), y, x) <==> CondHolds(sem, c, x, y)
  {
  }

  lemma JumpTests(sem: Sem, c: Cond, x: Word, y: Word)
    ensures Test(sem, JumpFor(c).0, x, y) == (CondHolds(sem, c, x, y) != JumpFor(c).1)
  {
  }

  /** mk_jcond goes to t exactly when the condition holds of the operands as
      they were given, and to f otherwise. */
  lemma JcondRuns(sem: Sem, p: seq<Block>, g: Gen, c: Cond, s0: Value, s1: Value, t: nat, f: nat, s: State)
    requires Open(g) && Embeds(p, MkJcond(g, c, s0, s1, t, f))
    requires sem.alu(And, Val(s0, s), Val(s1, s)) == sem.alu(And, Val(s1, s), Val(s0, s))
    ensures Reaches(Moving(sem, p), EndOf(g, s), At(if CondHolds(sem, c, Val(s0, s), Val(s1, s)) then t else f, 0, s))
  {
    var (a, b) := if Swaps(s0, s1) then (s1, s0) else (s0, s1);
    var c' := if Swaps(s0, s1) then Mirror(c) else c;
    MirrorHolds(sem, c, Val(s0, s), Val(s1, s));
    JumpTests(sem, c', Val(a, s), Val(b, s));
    var m, x := Moving(sem, p), EndOf(g, s);
    assert EmbedsBlock(p, MkJcond(g, c, s0, s1, t, f), g.cur.value);
    var y := m(x);
    ReachesHere(m, x);
    if y.At? && y.b == g.cur.value && y.k == x.k + 1 {
      ReachesHere(m, y);
      ReachesTrans(m, x, y, m(y));
    }
  }

  /** emit_jmp passes to the start of its target. */
  lemma JmpRuns(sem: Sem, p: seq<Block>, g: Gen, t: nat, s: State)
    requires Open(g) && Embeds(p, EmitJmp(g, t))
    ensures Reaches(Moving(sem, p), EndOf(g, s), At(t, 0, s))
  {
    assert EmbedsBlock(p, EmitJmp(g, t), g.cur.value);
    ReachesHere(Moving(sem, p), EndOf(g, s));
  }

  // ----- expressions and conditions -----

  lemma {:induction false} EvalSame(e: Expr, n: nat, m: RegFile, m': RegFile)
    requires WfExpr(e, n) && forall r: nat | r < n :: Get(m, r) == Get(m', r)
    ensures Eval(e, m) == Eval(e, m')
    decreases e
  {
    match e
    case Lit(_) =>
    case Local(_) =>
    case Bin(_, l, r) => EvalSame(l, n, m, m'); EvalSame(r, n, m, m');
    case Negate(a) => EvalSame(a, n, m, m');
    case Complement(a) => EvalSame(a, n, m, m');
    case Not(a) => EvalSame(a, n, m, m');
    case UnaryPlus(a) => EvalSame(a, n, m, m');
    case LogicalOr(l, r) => EvalSame(l, n, m, m'); EvalSame(r, n, m, m');
    case LogicalAnd(l, r) => EvalSame(l, n, m, m'); EvalSame(r, n, m, m');
    case Compare(_, l, r) => EvalSame(l, n, m, m'); EvalSame(r, n, m, m');
    case Ternary(c, y, x) => EvalSame(c, n, m, m'); EvalSame(y, n, m, m'); EvalSame(x, n, m, m');
  }

  lemma BelowTrans(n: nat, n': nat, a: State, b: State, c: State)
    requires n <= n' && SameBelow(n, a, b) && SameBelow(n', b, c)
    ensures SameBelow(n, a, c)
  {
  }

  /** From where generation stood at g, the code ends where it stands now, the
      old registers and memory are untouched, and the result is the value. */
  ghost predicate Computes(sem: Sem, p: seq<Block>, e: Expr, g: Gen, s: State, s': State)
    requires Open(g)
  {
    var (g', v) := GenExpr(e, g);
    InBlock(g') && Reaches(Moving(sem, p), EndOf(g, s), EndOf(g', s'))
    && SameBelow(g.nregs, s, s') && Val(v, s') == Wrap(Eval(e, s.regs))
  }

  /** From where generation stood at g, the code reaches t exactly when the
      expression is not zero, and f otherwise. */
  ghost predicate Branches(sem: Sem, p: seq<Block>, e: Expr, t: nat, f: nat, g: Gen, s: State, s': State)
    requires Open(g)
  {
    Reaches(Moving(sem, p), EndOf(g, s), At(if Eval(e, s.regs) != 0 then t else f, 0, s')) && SameBelow(g.nregs, s, s')
  }

  /** emit_expr computes the value of the expression. */
  lemma {:induction false} ExprRuns(sem: Sem, p: seq<Block>, e: Expr, g: Gen, s: State) returns (s': State)
    requires Standard(sem) && Open(g) && WfExpr(e, g.nregs) && Embeds(p, GenExpr(e, g).0)
    ensures Computes(sem, p, e, g, s, s')
    decreases e, if IsLogical(e) then 3 else 0, 3
  {
    ExprContinues(e, g);
    match e
    case Lit(i) => s' := s; ReachesHere(Moving(sem, p), EndOf(g, s)); SignedWraps(0, 0, i);
    case Local(r) => s' := s; ReachesHere(Moving(sem, p), EndOf(g, s)); SignedWraps(0, Get(s.regs, r), 0);
    case UnaryPlus(a) => s' := ExprRuns(sem, p, a, g, s);
    case Bin(_, _, _) => s' := BinRuns(sem, p, e, g, s);
    case Negate(a) => s' := MinusRuns(sem, p, e, g, s);
    case Complement(a) => s' := ComplementRuns(sem, p, e, g, s);
    case Ternary(_, _, _) => s' := TernaryRuns(sem, p, e, g, s);
    case _ => s' := BoolRuns(sem, p, e, g, s);
  }

  lemma UnaryHolds(p: seq<Block>, e: Expr, g: Gen)
    requires Open(g) && (e.Negate? || e.Complement?) && WfExpr(e, g.nregs) && Embeds(p, GenExpr(e, g).0)
    ensures Continues(g, GenExpr(e.arg, g).0) && Embeds(p, GenExpr(e.arg, g).0)
  {
    var (g1, v) := GenExpr(e.arg, g);
    ExprContinues(e.arg, g);
    NegContinues(WithReg(g1), g1.nregs, v);
    BinaryContinues(WithReg(g1), Xor, g1.nregs, v, Imm(-1));
    EmbedsBefore(p, WithReg(g1), GenExpr(e, g).0);
    EmbedsBlocks(p, WithReg(g1), g1);
  }

  lemma {:induction false} MinusRuns(sem: Sem, p: seq<Block>, e: Expr, g: Gen, s: State) returns (s': State)
    requires Standard(sem) && Open(g) && WfExpr(e, g.nregs) && Embeds(p, GenExpr(e, g).0) && e.Negate?
    ensures Computes(sem, p, e, g, s, s')
    decreases e, 0, 0
  {
    var (g1, v) := GenExpr(e.arg, g);
    UnaryHolds(p, e, g);
    var s1 := ExprRuns(sem, p, e.arg, g, s);
    s' := NegRuns(sem, p, WithReg(g1), g1.nregs, v, g1.nregs, s1);
    NegContinues(WithReg(g1), g1.nregs, v);
    NegationAgrees(Eval(e.arg, s.regs));
    BelowTrans(g.nregs, g1.nregs, s, s1, s');
    ReachesTrans(Moving(sem, p), EndOf(g, s), EndOf(g1, s1), EndOf(GenExpr(e, g).0, s'));
  }

  lemma {:induction false} ComplementRuns(sem: Sem, p: seq<Block>, e: Expr, g: Gen, s: State) returns (s': State)
    requires Standard(sem) && Open(g) && WfExpr(e, g.nregs) && Embeds(p, GenExpr(e, g).0) && e.Complement?
    ensures Computes(sem, p, e, g, s, s')
    decreases e, 0, 0
  {
    var (g1, v) := GenExpr(e.arg, g);
    UnaryHolds(p, e, g);
    var s1 := ExprRuns(sem, p, e.arg, g, s);
    s' := AluRuns(sem, p, WithReg(g1), Xor, g1.nregs, v, Imm(-1), g1.nregs, s1);
    BinaryContinues(WithReg(g1), Xor, g1.nregs, v, Imm(-1));
    FlipsAgree(sem, Eval(e.arg, s.regs));
    BelowTrans(g.nregs, g1.nregs, s, s1, s');
    ReachesTrans(Moving(sem, p), EndOf(g, s), EndOf(g1, s1), EndOf(GenExpr(e, g).0, s'));
  }

  lemma FlipsAgree(sem: Sem, x: Int64)
    requires Standard(sem)
    ensures sem.alu(Xor, Wrap(x), Wrap(-1)) == Wrap(ToInt64(-(x as int) - 1))
  {
    ComplementAgrees(x);
  }

  /** The left operand survives in its copy while the right one is computed. */
  lemma {:induction false} LeftRuns(sem: Sem, p: seq<Block>, e: Expr, g: Gen, s: State) returns (s': State)
    requires Standard(sem) && Open(g) && e.Bin? && WfExpr(e, g.nregs) && Embeds(p, LeftGen(e, g))
    ensures InBlock(LeftGen(e, g)) && Reaches(Moving(sem, p), EndOf(g, s), EndOf(LeftGen(e, g), s'))
    ensures SameBelow(g.nregs, s, s') && Get(s'.regs, g.nregs) == Wrap(Eval(e.left, s.regs))
    decreases e, 0, 0
  {
    var g0 := WithReg(g);
    LeftContinues(e, g);
    WfMore(e.left, g.nregs, g0.nregs);
    var (g1, v) := GenExpr(e.left, g0);
    MovContinues(g1, g.nregs, v);
    EmbedsBefore(p, g1, LeftGen(e, g));
    var s1 := ExprRuns(sem, p, e.left, g0, s);
    s' := MovRuns(sem, p, g1, g.nregs, v, g.nregs, s1);
    BelowTrans(g.nregs, g.nregs, s, s1, s');
    ReachesTrans(Moving(sem, p), EndOf(g, s), EndOf(g1, s1), EndOf(LeftGen(e, g), s'));
  }

  lemma BinHolds(p: seq<Block>, e: Expr, g: Gen)
    requires Open(g) && e.Bin? && WfExpr(e, g.nregs) && Embeds(p, GenExpr(e, g).0)
    ensures var g1 := LeftGen(e, g);
      var g2 := GenExpr(e.right, g1).0;
      Continues(g, g1) && Continues(g1, g2) && g.nregs < g1.nregs && WfExpr(e.right, g1.nregs) && Embeds(p, g1)
      && Embeds(p, g2)
  {
    LeftContinues(e, g);
    var g1 := LeftGen(e, g);
    ExprContinues(e.right, g1);
    var (g2, v) := GenExpr(e.right, g1);
    BinaryContinues(WithReg(g2), CodeOf(e.op), g2.nregs, Reg(g.nregs), v);
    EmbedsBefore(p, WithReg(g2), GenExpr(e, g).0);
    EmbedsBlocks(p, WithReg(g2), g2);
    EmbedsBefore(p, g1, g2);
  }

  lemma {:induction false} BinRuns(sem: Sem, p: seq<Block>, e: Expr, g: Gen, s: State) returns (s': State)
    requires Standard(sem) && Open(g) && e.Bin? && WfExpr(e, g.nregs) && Embeds(p, GenExpr(e, g).0)
    ensures Computes(sem, p, e, g, s, s')
    decreases e, 0, 1
  {
    BinHolds(p, e, g);
    var g1, m := LeftGen(e, g), Moving(sem, p);
    var (g2, v) := GenExpr(e.right, g1);
    var s1 := LeftRuns(sem, p, e, g, s);
    var s2 := ExprRuns(sem, p, e.right, g1, s1);
    EvalSame(e.right, g.nregs, s.regs, s1.regs);
    BelowTrans(g.nregs, g1.nregs, s, s1, s2);
    ReachesTrans(m, EndOf(g, s), EndOf(g1, s1), EndOf(g2, s2));
    s' := ApplyRuns(sem, p, e, g, g2, v, s2, Eval(e.left, s.regs), Eval(e.right, s.regs));
    BelowTrans(g.nregs, g2.nregs, s, s2, s');
    ReachesTrans(m, EndOf(g, s), EndOf(g2, s2), EndOf(GenExpr(e, g).0, s'));
  }

  lemma ApplyRuns(sem: Sem, p: seq<Block>, e: Expr, g: Gen, g2: Gen, v: Value, s: State, x: Int64, y: Int64)
    returns (s': State)
    requires Standard(sem) && Open(g2) && e.Bin? && Get(s.regs, g.nregs) == Wrap(x) && Val(v, s) == Wrap(y)
    requires Embeds(p, MkBinary(WithReg(g2), CodeOf(e.op), g2.nregs, Reg(g.nregs), v))
    ensures var g3 := MkBinary(WithReg(g2), CodeOf(e.op), g2.nregs, Reg(g.nregs), v);
      InBlock(g3) && Reaches(Moving(sem, p), EndOf(g2, s), EndOf(g3, s'))
    ensures SameBelow(g2.nregs, s, s') && Get(s'.regs, g2.nregs) == Wrap(Apply(e.op, x, y))
  {
    BinaryContinues(WithReg(g2), CodeOf(e.op), g2.nregs, Reg(g.nregs), v);
    s' := AluRuns(sem, p, WithReg(g2), CodeOf(e.op), g2.nregs, Reg(g.nregs), v, g2.nregs, s);
    OperatorsAgree(e.op, x, y);
  }

  /** The end of the second branch: move, then jump to the join block. */
  lemma JoinRuns(sem: Sem, p: seq<Block>, g: Gen, r: nat, v: Value, join: nat, n: nat, s: State) returns (s': State)
    requires Open(g) && Embeds(p, EmitJmp(MkMov(g, r, v), join)) && n <= r
    ensures Reaches(Moving(sem, p), EndOf(g, s), At(join, 0, s'))
    ensures SameBelow(n, s, s') && Get(s'.regs, r) == Val(v, s)
  {
    var g1 := MkMov(g, r, v);
    MovContinues(g, r, v);
    EndersEnd(g1, EQ, v, v, join, join);
    EmbedsBefore(p, g1, EmitJmp(g1, join));
    s' := MovRuns(sem, p, g, r, v, n, s);
    JmpRuns(sem, p, g1, join, s');
    ReachesTrans(Moving(sem, p), EndOf(g, s), EndOf(g1, s'), At(join, 0, s'));
  }

  lemma BoolHolds(p: seq<Block>, e: Expr, g: Gen)
    requires Open(g) && IsLogical(e) && WfExpr(e, g.nregs) && Embeds(p, GenExpr(e, g).0)
    ensures var other, join, r, g1 := |g.blocks|, |g.blocks| + 1, g.nregs, OneGen(g);
      var g2 := GenCond(e, join, other, g1);
      var g4 := EmitJmp(MkMov(Into(g2, other), r, Imm(0)), join);
      Continues(g, g1) && WfExpr(e, g1.nregs) && Embeds(p, g1) && Embeds(p, g2) && Embeds(p, g4)
      && Open(Into(g2, other)) && g2.blocks[other] == EMPTY
      && GenExpr(e, g) == (Into(g4, join), Reg(r)) && join < |g4.blocks| && g4.blocks[join] == EMPTY
  {
    var other, join, r, g1 := |g.blocks|, |g.blocks| + 1, g.nregs, OneGen(g);
    OneContinues(g);
    WfMore(e, g.nregs, g1.nregs);
    CondEnds(e, join, other, g1);
    var g2 := GenCond(e, join, other, g1);
    var g3 := Into(g2, other);
    Resume(g, g1, g2, other);
    Resume(g, g1, g2, join);
    NewContinues(g3);
    JoinContinues(g, g3, g3, r, Imm(0), join);
    var g4 := EmitJmp(MkMov(g3, r, Imm(0)), join);
    assert GenExpr(e, g) == GenBool(e, g);
    assert SameBlock(g3, g4, join);
    EmbedsBlocks(p, Into(g4, join), g4);
    EmbedsBefore(p, g3, g4);
    EmbedsBlocks(p, g3, g2);
    EmbedsBefore(p, g1, g2);
  }

  /** emit_bool leaves exactly 0 or 1. */
  lemma {:induction false} BoolRuns(sem: Sem, p: seq<Block>, e: Expr, g: Gen, s: State) returns (s': State)
    requires Standard(sem) && Open(g) && IsLogical(e) && WfExpr(e, g.nregs) && Embeds(p, GenExpr(e, g).0)
    ensures Computes(sem, p, e, g, s, s')
    decreases e, 2
  {
    var other, join, r := |g.blocks|, |g.blocks| + 1, g.nregs;
    var m, g1 := Moving(sem, p), OneGen(g);
    BoolHolds(p, e, g);
    var s1 := OneRuns(sem, p, g, s);
    var s2 := CondRuns(sem, p, e, join, other, g1, s1);
    EvalSame(e, g.nregs, s.regs, s1.regs);
    BelowTrans(g.nregs, g1.nregs, s, s1, s2);
    TruthEval(e, s.regs);
    ReachesTrans(m, EndOf(g, s), EndOf(g1, s1), At(if Eval(e, s.regs) != 0 then join else other, 0, s2));
    if Eval(e, s.regs) != 0 {
      s' := s2;
    } else {
      s' := JoinRuns(sem, p, Into(GenCond(e, join, other, g1), other), r, Imm(0), join, g.nregs, s2);
      BelowTrans(g.nregs, g.nregs, s, s2, s');
      ReachesTrans(m, EndOf(g, s), At(other, 0, s2), At(join, 0, s'));
    }
  }

  lemma EmbedsBlocks(p: seq<Block>, g: Gen, g': Gen)
    requires Embeds(p, g) && g'.blocks == g.blocks
    ensures Embeds(p, g')
  {
    forall b: nat | b < |g'.blocks| ensures EmbedsBlock(p, g', b) { assert EmbedsBlock(p, g, b); }
  }

  lemma TruthEval(e: Expr, m: RegFile)
    requires IsLogical(e)
    ensures Eval(e, m) == 0 || Eval(e, m) == 1
  {
  }

  lemma OneRuns(sem: Sem, p: seq<Block>, g: Gen, s: State) returns (s': State)
    requires Open(g) && Embeds(p, OneGen(g))
    ensures InBlock(OneGen(g)) && Reaches(Moving(sem, p), EndOf(g, s), EndOf(OneGen(g), s'))
    ensures SameBelow(g.nregs, s, s') && Get(s'.regs, g.nregs) == 1
  {
    OneContinues(g);
    var g0 := WithReg(WithBlock(WithBlock(g)));
    s' := MovRuns(sem, p, g0, g.nregs, Imm(1), g.nregs, s);
  }

  // ----- conditional expressions -----

  lemma {:induction false} YesRuns(sem: Sem, p: seq<Block>, e: Expr, g: Gen, s: State) returns (s': State)
    requires Standard(sem) && Open(g) && e.Ternary? && WfExpr(e, g.nregs) && Embeds(p, YesGen(e, g))
    ensures InBlock(YesGen(e, g)) && Reaches(Moving(sem, p), EndOf(g, s), EndOf(YesGen(e, g), s'))
    ensures SameBelow(g.nregs, s, s') && Get(s'.regs, g.nregs) == Wrap(Eval(e.yes, s.regs))
    decreases e, 0, 0
  {
    var g0 := WithBlock(WithReg(WithBlock(g)));
    YesContinues(e, g);
    WfMore(e.yes, g.nregs, g0.nregs);
    var (g1, v) := GenExpr(e.yes, g0);
    MovContinues(g1, g.nregs, v);
    EmbedsBefore(p, g1, YesGen(e, g));
    var s1 := ExprRuns(sem, p, e.yes, g0, s);
    s' := MovRuns(sem, p, g1, g.nregs, v, g.nregs, s1);
    BelowTrans(g.nregs, g.nregs, s, s1, s');
    ReachesTrans(Moving(sem, p), EndOf(g, s), EndOf(g1, s1), EndOf(YesGen(e, g), s'));
  }

  lemma TernaryHolds(p: seq<Block>, e: Expr, g: Gen)
    requires Open(g) && e.Ternary? && WfExpr(e, g.nregs) && Embeds(p, GenExpr(e, g).0)
    ensures Embeds(p, YesGen(e, g)) && Embeds(p, ElseGen(e, g)) && Embeds(p, JoinGen(e, g))
    ensures Open(GenExpr(e.no, ElseGen(e, g)).0)
    ensures GenExpr(e, g) == (Into(JoinGen(e, g), |g.blocks|), Reg(g.nregs))
    ensures |g.blocks| < |JoinGen(e, g).blocks| && JoinGen(e, g).blocks[|g.blocks|] == EMPTY
  {
    var join, g1, g3 := |g.blocks|, YesGen(e, g), ElseGen(e, g);
    YesContinues(e, g);
    ElseOpens(e, g);
    ExprContinues(e.no, g3);
    var (g4, v) := GenExpr(e.no, g3);
    JoinContinues(g, g3, g4, g.nregs, v, join);
    assert SameBlock(g3, JoinGen(e, g), join);
    EmbedsBlocks(p, Into(JoinGen(e, g), join), JoinGen(e, g));
    EmbedsBefore(p, g3, JoinGen(e, g));
    var g2 := GenCond(e.cond, join, join + 1, g1);
    EmbedsBlocks(p, g3, g2);
    EmbedsBefore(p, g1, g2);
  }

  /** The first value in the result register, then the branch. */
  lemma {:induction false} ChoiceRuns(sem: Sem, p: seq<Block>, e: Expr, g: Gen, s: State) returns (s': State)
    requires Standard(sem) && Open(g) && e.Ternary? && WfExpr(e, g.nregs) && Embeds(p, YesGen(e, g))
    requires Embeds(p, ElseGen(e, g))
    ensures Reaches(Moving(sem, p), EndOf(g, s),
                    At(if Eval(e.cond, s.regs) != 0 then |g.blocks| else |g.blocks| + 1, 0, s'))
    ensures SameBelow(g.nregs, s, s') && Get(s'.regs, g.nregs) == Wrap(Eval(e.yes, s.regs))
    decreases e, 0, 1
  {
    var join, m, g1 := |g.blocks|, Moving(sem, p), YesGen(e, g);
    YesContinues(e, g);
    var s1 := YesRuns(sem, p, e, g, s);
    EmbedsBlocks(p, ElseGen(e, g), GenCond(e.cond, join, join + 1, g1));
    s' := CondRuns(sem, p, e.cond, join, join + 1, g1, s1);
    EvalSame(e.cond, g.nregs, s.regs, s1.regs);
    BelowTrans(g.nregs, g1.nregs, s, s1, s');
    ReachesTrans(m, EndOf(g, s), EndOf(g1, s1), At(if Eval(e.cond, s.regs) != 0 then join else join + 1, 0, s'));
  }

  lemma {:induction false} TernaryRuns(sem: Sem, p: seq<Block>, e: Expr, g: Gen, s: State) returns (s': State)
    requires Standard(sem) && Open(g) && e.Ternary? && WfExpr(e, g.nregs) && Embeds(p, GenExpr(e, g).0)
    ensures Computes(sem, p, e, g, s, s')
    decreases e, 0, 2
  {
    var join, m := |g.blocks|, Moving(sem, p);
    TernaryHolds(p, e, g);
    s' := ChoiceRuns(sem, p, e, g, s);
    if Eval(e.cond, s.regs) == 0 {
      var s2 := s';
      ElseOpens(e, g);
      EvalSame(e.no, g.nregs, s.regs, s2.regs);
      s' := NoRuns(sem, p, e, ElseGen(e, g), g.nregs, join, s2);
      BelowTrans(g.nregs, g.nregs, s, s2, s');
      ReachesTrans(m, EndOf(g, s), At(join + 1, 0, s2), At(join, 0, s'));
    }
  }

  lemma {:induction false} NoRuns(sem: Sem, p: seq<Block>, e: Expr, g: Gen, r: nat, join: nat, s: State)
    returns (s': State)
    requires Standard(sem) && Open(g) && e.Ternary? && WfExpr(e.no, g.nregs) && r <= g.nregs
    requires var (g1, v) := GenExpr(e.no, g); Open(g1) && Embeds(p, EmitJmp(MkMov(g1, r, v), join))
    ensures Reaches(Moving(sem, p), EndOf(g, s), At(join, 0, s'))
    ensures SameBelow(r, s, s') && Get(s'.regs, r) == Wrap(Eval(e.no, s.regs))
    decreases e, 0, 0
  {
    var (g1, v) := GenExpr(e.no, g);
    MovContinues(g1, r, v);
    var g2 := MkMov(g1, r, v);
    EndersEnd(g2, EQ, v, v, join, join);
    EndsTrans(g1, g2, EmitJmp(g2, join));
    EmbedsBefore(p, g1, EmitJmp(g2, join));
    var s1 := ExprRuns(sem, p, e.no, g, s);
    s' := JoinRuns(sem, p, g1, r, v, join, r, s1);
    ReachesTrans(Moving(sem, p), EndOf(g, s), EndOf(g1, s1), At(join, 0, s'));
  }

  // ----- conditions -----

  /** emit_cond reaches the true block exactly when the expression is nonzero. */
  lemma {:induction false} CondRuns(sem: Sem, p: seq<Block>, e: Expr, t: nat, f: nat, g: Gen, s: State)
    returns (s': State)
    requires Standard(sem) && Open(g) && WfExpr(e, g.nregs) && Embeds(p, GenCond(e, t, f, g))
    ensures Branches(sem, p, e, t, f, g, s, s')
    decreases e, 1
  {
    match e
    case LogicalOr(l, r) => s' := OrRuns(sem, p, e, t, f, g, s);
    case LogicalAnd(l, r) => s' := AndRuns(sem, p, e, t, f, g, s);
    case Not(a) => s' := CondRuns(sem, p, a, f, t, g, s);
    case Compare(c, l, r) => s' := CompareRuns(sem, p, e, t, f, g, s);
    case Bin(BitAnd, l, r) => s' := TestRuns(sem, p, e, t, f, g, s);
    case _ => s' := NonzeroRuns(sem, p, e, t, f, g, s);
  }

  /** The fallback: compare the value with zero. */
  lemma {:induction false} NonzeroRuns(sem: Sem, p: seq<Block>, e: Expr, t: nat, f: nat, g: Gen, s: State)
    returns (s': State)
    requires Standard(sem) && Open(g) && WfExpr(e, g.nregs) && !IsLogical(e)
    requires Embeds(p, MkJcond(GenExpr(e, g).0, NE, GenExpr(e, g).1, Imm(0), t, f))
    ensures Branches(sem, p, e, t, f, g, s, s')
    decreases e, 0, 4
  {
    ExprContinues(e, g);
    var (g1, v) := GenExpr(e, g);
    EndersEnd(g1, NE, v, Imm(0), t, f);
    EmbedsBefore(p, g1, MkJcond(g1, NE, v, Imm(0), t, f));
    s' := ExprRuns(sem, p, e, g, s);
    AndCommutes(sem, Val(v, s'), 0);
    JcondRuns(sem, p, g1, NE, v, Imm(0), t, f, s');
    NonzeroWraps(Eval(e, s.regs));
    ReachesTrans(Moving(sem, p), EndOf(g, s), EndOf(g1, s'), At(if Eval(e, s.regs) != 0 then t else f, 0, s'));
  }

  lemma AndCommutes(sem: Sem, x: Word, y: Word)
    requires Standard(sem)
    ensures sem.alu(And, x, y) == sem.alu(And, y, x)
  {
    BitwiseCommutes(And, x, y, 64);
  }

  lemma NonzeroWraps(x: Int64)
    ensures x != 0 <==> Wrap(x) != 0
  {
  }

  lemma {:induction false} OrRuns(sem: Sem, p: seq<Block>, e: Expr, t: nat, f: nat, g: Gen, s: State)
    returns (s': State)
    requires Standard(sem) && Open(g) && e.LogicalOr? && WfExpr(e, g.nregs) && Embeds(p, GenCond(e, t, f, g))
    ensures Branches(sem, p, e, t, f, g, s, s')
    decreases e, 0
  {
    var next, g0, m := |g.blocks|, WithBlock(g), Moving(sem, p);
    PairEnds(e, t, next, t, f, g);
    NewContinues(g);
    var g1 := GenCond(e.left, t, next, g0);
    CondEnds(e.right, t, f, Into(g1, next));
    EmbedsBefore(p, Into(g1, next), GenCond(e, t, f, g));
    EmbedsBlocks(p, Into(g1, next), g1);
    var s1 := CondRuns(sem, p, e.left, t, next, g0, s);
    if Eval(e.left, s.regs) != 0 {
      s' := s1;
    } else {
      EvalSame(e.right, g.nregs, s.regs, s1.regs);
      s' := CondRuns(sem, p, e.right, t, f, Into(g1, next), s1);
      BelowTrans(g.nregs, g1.nregs, s, s1, s');
      ReachesTrans(m, EndOf(g, s), At(next, 0, s1), At(if Eval(e.right, s.regs) != 0 then t else f, 0, s'));
    }
  }

  lemma {:induction false} AndRuns(sem: Sem, p: seq<Block>, e: Expr, t: nat, f: nat, g: Gen, s: State)
    returns (s': State)
    requires Standard(sem) && Open(g) && e.LogicalAnd? && WfExpr(e, g.nregs) && Embeds(p, GenCond(e, t, f, g))
    ensures Branches(sem, p, e, t, f, g, s, s')
    decreases e, 0
  {
    var next, g0, m := |g.blocks|, WithBlock(g), Moving(sem, p);
    PairEnds(e, next, f, t, f, g);
    NewContinues(g);
    var g1 := GenCond(e.left, next, f, g0);
    CondEnds(e.right, t, f, Into(g1, next));
    EmbedsBefore(p, Into(g1, next), GenCond(e, t, f, g));
    EmbedsBlocks(p, Into(g1, next), g1);
    var s1 := CondRuns(sem, p, e.left, next, f, g0, s);
    if Eval(e.left, s.regs) == 0 {
      s' := s1;
    } else {
      EvalSame(e.right, g.nregs, s.regs, s1.regs);
      s' := CondRuns(sem, p, e.right, t, f, Into(g1, next), s1);
      BelowTrans(g.nregs, g1.nregs, s, s1, s');
      ReachesTrans(m, EndOf(g, s), At(next, 0, s1), At(if Eval(e.right, s.regs) != 0 then t else f, 0, s'));
    }
  }

  /** Both operands computed, the left one still in place. */
  lemma {:induction false} OperandsRun(sem: Sem, p: seq<Block>, e: Expr, g: Gen, s: State) returns (s': State)
    requires Standard(sem) && Open(g) && (e.Bin? || e.Compare?) && WfExpr(e, g.nregs)
    requires Embeds(p, GenExpr(e.right, GenExpr(e.left, g).0).0)
    ensures var (g1, v0) := GenExpr(e.left, g);
      var (g2, v1) := GenExpr(e.right, g1);
      InBlock(g2) && Reaches(Moving(sem, p), EndOf(g, s), EndOf(g2, s')) && SameBelow(g.nregs, s, s')
      && Val(v0, s') == Wrap(Eval(e.left, s.regs)) && Val(v1, s') == Wrap(Eval(e.right, s.regs))
    decreases e, 0, 0
  {
    var (g1, v0) := GenExpr(e.left, g);
    TestEnds(e, TEST, 0, 0, g);
    var (g2, v1) := GenExpr(e.right, g1);
    EmbedsBefore(p, g1, g2);
    var s1 := ExprRuns(sem, p, e.left, g, s);
    s' := ExprRuns(sem, p, e.right, g1, s1);
    EvalSame(e.right, g.nregs, s.regs, s1.regs);
    BelowTrans(g.nregs, g1.nregs, s, s1, s');
    ReachesTrans(Moving(sem, p), EndOf(g, s), EndOf(g1, s1), EndOf(g2, s'));
  }

  lemma ComparisonsAgree(sem: Sem, c: Comparison, x: Int64, y: Int64)
    ensures CondHolds(sem, CondOf(c), Wrap(x), Wrap(y)) <==> Compares(c, x, y)
  {
    SignedWraps(x, 0, 0);
    SignedWraps(y, 0, 0);
  }

  lemma {:induction false} CompareRuns(sem: Sem, p: seq<Block>, e: Expr, t: nat, f: nat, g: Gen, s: State)
    returns (s': State)
    requires Standard(sem) && Open(g) && e.Compare? && WfExpr(e, g.nregs) && Embeds(p, GenCond(e, t, f, g))
    ensures Branches(sem, p, e, t, f, g, s, s')
    decreases e, 0, 1
  {
    var (g1, v0) := GenExpr(e.left, g);
    var (g2, v1) := GenExpr(e.right, g1);
    var c := CondOf(e.cmp);
    TestEnds(e, c, t, f, g);
    EndersEnd(g2, c, v0, v1, t, f);
    EmbedsBefore(p, g2, GenCond(e, t, f, g));
    s' := OperandsRun(sem, p, e, g, s);
    AndCommutes(sem, Val(v0, s'), Val(v1, s'));
    JcondRuns(sem, p, g2, c, v0, v1, t, f, s');
    ComparisonsAgree(sem, e.cmp, Eval(e.left, s.regs), Eval(e.right, s.regs));
    ReachesTrans(Moving(sem, p), EndOf(g, s), EndOf(g2, s'), At(if Eval(e, s.regs) != 0 then t else f, 0, s'));
  }

  lemma {:induction false} TestRuns(sem: Sem, p: seq<Block>, e: Expr, t: nat, f: nat, g: Gen, s: State)
    returns (s': State)
    requires Standard(sem) && Open(g) && e.Bin? && e.op.BitAnd? && WfExpr(e, g.nregs) && Embeds(p, GenCond(e, t, f, g))
    ensures Branches(sem, p, e, t, f, g, s, s')
    decreases e, 0, 1
  {
    var (g1, v0) := GenExpr(e.left, g);
    var (g2, v1) := GenExpr(e.right, g1);
    TestEnds(e, TEST, t, f, g);
    EndersEnd(g2, TEST, v0, v1, t, f);
    EmbedsBefore(p, g2, GenCond(e, t, f, g));
    s' := OperandsRun(sem, p, e, g, s);
    AndCommutes(sem, Val(v0, s'), Val(v1, s'));
    JcondRuns(sem, p, g2, TEST, v0, v1, t, f, s');
    OperatorsAgree(BitAnd, Eval(e.left, s.regs), Eval(e.right, s.regs));
    NonzeroWraps(Eval(e, s.regs));
    ReachesTrans(Moving(sem, p), EndOf(g, s), EndOf(g2, s'), At(if Eval(e, s.regs) != 0 then t else f, 0, s'));
  }
}
