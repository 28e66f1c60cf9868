/** The unparser at work: emit_expr, emit_bool, emit_cond and emit_stmt append to
    the program in place. */
module Unparser {
  import opened Ir
  import opened Script
  import opened Fixup
  import opened Programs
  import opened Threading
  import opened Codegen
  import opened Statements

  class Unparser {
    const prog: Program
    var cur: Option<nat> // the block code is appended to

    constructor (prog: Program)
      ensures this.prog == prog && cur == None
    {
      this.prog := prog;
      cur := None;
    }

    function Now(): Gen
      reads this, prog
    {
      Gen(prog.blocks, prog.nregs, cur)
    }

    /** The back-links agree with the edges. */
    ghost predicate Valid()
      reads this, prog
    {
      BackLinked(prog.blocks, prog.prevs) && EdgesInside(prog.blocks)
    }

    /** insn_append_inserter::new_insn. */
    method Append(i: Insn)
      requires Valid() && Open(Now())
      modifies prog`blocks
      ensures Valid() && Now() == Emit(old(Now()), i)
    {
      var b := cur.value;
      RecodeKeeps(prog.blocks, prog.prevs, b, prog.blocks[b].insns + [i]);
      prog.blocks := prog.blocks[b := prog.blocks[b].(insns := prog.blocks[b].insns + [i])];
    }

    method EmitMov(d: nat, v: Value)
      requires Valid() && Open(Now())
      modifies prog`blocks
      ensures Valid() && Now() == MkMov(old(Now()), d, v)
    {
      if v != Reg(d) { Append(Mov(d, v)); }
    }

    method EmitNeg(d: nat, v: Value)
      requires Valid() && Open(Now())
      modifies prog`blocks
      ensures Valid() && Now() == MkNeg(old(Now()), d, v)
    {
      MovContinues(Now(), d, v);
      EmitMov(d, v);
      Append(Insn(Neg, 0, Some(d), Some(Reg(d)), None));
    }

    /** mk_binary. */
    method EmitBinary(op: AluOp, d: nat, s0: Value, s1: Value)
      requires Valid() && Open(Now())
      modifies prog`blocks
      ensures Valid() && Now() == MkBinary(old(Now()), op, d, s0, s1)
    {
      var a, b := s0, s1;
      if op == Sub {
        if s0 == Imm(0) {
          EmitNeg(d, s1);
          return;
        }
      } else if CountsAsCommutative(op, OpBits(op)) && ((s1.Reg? && !s0.Reg?) || s1 == Reg(d)) {
        a, b := s1, s0;
      }
      Append(Insn(Alu(op, b.Reg?), 0, Some(d), Some(a), Some(b)));
    }

    /** emit_jmp. */
    method JumpTo(t: nat)
      requires Valid() && Open(Now()) && t < |prog.blocks|
      modifies this`cur, prog`blocks, prog`prevs
      ensures Valid() && Now() == EmitJmp(old(Now()), t)
    {
      prog.NewEdge(Edge(cur.value, false), t);
      cur := None;
    }

    /** A block ended by a conditional jump. */
    method EndBlock(i: Insn, t: nat, f: nat)
      requires Valid() && Open(Now()) && t < |prog.blocks| && f < |prog.blocks|
      modifies this`cur, prog`blocks, prog`prevs
      ensures Valid() && cur == None && prog.nregs == old(prog.nregs)
      ensures var b := old(cur).value;
        prog.blocks == old(prog.blocks)[b := Block(old(prog.blocks)[b].insns + [i], Some(t), Some(f))]
    {
      var b := cur.value;
      prog.NewEdge(Edge(b, true), t);
      prog.NewEdge(Edge(b, false), f);
      var ins := prog.blocks[b].insns + [i];
      RecodeKeeps(prog.blocks, prog.prevs, b, ins);
      prog.blocks := prog.blocks[b := prog.blocks[b].(insns := ins)];
      cur := None;
    }

    /** mk_jcond and clear_block. */
    method JumpIf(c: Cond, s0: Value, s1: Value, t: nat, f: nat)
      requires Valid() && Open(Now()) && t < |prog.blocks| && f < |prog.blocks|
      modifies this`cur, prog`blocks, prog`prevs
      ensures Valid() && Now() == MkJcond(old(Now()), c, s0, s1, t, f)
    {
      var a, b, c' := s0, s1, c;
      if s1.Reg? && !s0.Reg? {
        a, b, c' := s1, s0, Mirror(c);
      }
      var (code, inv) := JumpFor(c');
      EndBlock(Insn(Jcond(code, b.Reg?), 0, None, Some(a), Some(b)), if inv then f else t, if inv then t else f);
    }

    method EmitExpr(e: Expr) returns (v: Value)
      requires Valid() && Open(Now()) && WfExpr(e, prog.nregs)
      modifies this`cur, prog`blocks, prog`prevs, prog`nregs
      ensures Valid() && (Now(), v) == GenExpr(e, old(Now()))
      ensures Continues(old(Now()), Now())
      decreases e, if IsLogical(e) then 3 else 0
    {
      ExprContinues(e, Now());
      match e
      case Lit(i) => v := Imm(i);
      case Local(r) => v := Reg(r);
      case UnaryPlus(a) => v := EmitExpr(a);
      case Bin(_, _, _) => v := VisitBinary(e);
      case Negate(_) => v := VisitUnary(e);
      case Complement(_) => v := VisitUnary(e);
      case Ternary(_, _, _) => v := VisitTernary(e);
      case _ => v := EmitBool(e);
    }

    /** - and ~. */
    method VisitUnary(e: Expr) returns (v: Value)
      requires Valid() && Open(Now()) && (e.Negate? || e.Complement?) && WfExpr(e, prog.nregs)
      modifies this`cur, prog`blocks, prog`prevs, prog`nregs
      ensures Valid() && (Now(), v) == GenExpr(e, old(Now()))
      decreases e, 0, 0
    {
      var x := EmitExpr(e.arg);
      var d := prog.NewReg();
      if e.Negate? {
        EmitNeg(d, x);
      } else {
        EmitBinary(Xor, d, x, Imm(-1));
      }
      v := Reg(d);
    }

    method VisitBinary(e: Expr) returns (v: Value)
      requires Valid() && Open(Now()) && e.Bin? && WfExpr(e, prog.nregs)
      modifies this`cur, prog`blocks, prog`prevs, prog`nregs
      ensures Valid() && (Now(), v) == GenExpr(e, old(Now()))
      decreases e, 0, 1
    {
      BinForm(e, Now());
      LeftContinues(e, Now());
      var s0 := EmitLeft(e);
      var s1 := EmitExpr(e.right);
      var d := prog.NewReg();
      EmitBinary(CodeOf(e.op), d, Reg(s0), s1);
      v := Reg(d);
    }

    /** The left operand is copied before the right one is computed. */
    method EmitLeft(e: Expr) returns (s0: nat)
      requires Valid() && Open(Now()) && e.Bin? && WfExpr(e, prog.nregs)
      modifies this`cur, prog`blocks, prog`prevs, prog`nregs
      ensures Valid() && s0 == old(prog.nregs) && Now() == LeftGen(e, old(Now()))
      decreases e, 0, 0
    {
      LeftContinues(e, Now());
      s0 := prog.NewReg();
      WfMore(e.left, old(prog.nregs), prog.nregs);
      var x := EmitExpr(e.left);
      EmitMov(s0, x);
    }

    /** The end of a second branch, and the block both branches meet in. */
    method JoinAt(r: nat, x: Value, join: nat)
      requires Valid() && Open(Now()) && join < |prog.blocks|
      modifies this`cur, prog`blocks, prog`prevs
      ensures Valid() && Now() == Into(EmitJmp(MkMov(old(Now()), r, x), join), join)
    {
      MovContinues(Now(), r, x);
      EmitMov(r, x);
      JumpTo(join);
      cur := Some(join);
    }

    method EmitYes(e: Expr) returns (join: nat, r: nat, other: nat)
      requires Valid() && Open(Now()) && e.Ternary? && WfExpr(e, prog.nregs)
      modifies this`cur, prog`blocks, prog`prevs, prog`nregs
      ensures Valid() && Now() == YesGen(e, old(Now()))
      ensures join == old(|prog.blocks|) && r == old(prog.nregs) && other == join + 1
      decreases e, 0, 0
    {
      ghost var g := Now();
      YesContinues(e, g);
      join := prog.NewBlock();
      r := prog.NewReg();
      other := prog.NewBlock();
      WfMore(e.yes, g.nregs, prog.nregs);
      var x := EmitExpr(e.yes);
      EmitMov(r, x);
    }

    /** visit_ternary_expression, for a value without side effects. */
    method VisitTernary(e: Expr) returns (v: Value)
      requires Valid() && Open(Now()) && e.Ternary? && WfExpr(e, prog.nregs)
      modifies this`cur, prog`blocks, prog`prevs, prog`nregs
      ensures Valid() && (Now(), v) == GenExpr(e, old(Now()))
      decreases e, 0, 2
    {
      TernaryForm(e, Now());
      var join, r := EmitChoice(e);
      EmitNo(e, r, join);
      v := Reg(r);
    }

    /** Up to the start of the second branch. */
    method EmitChoice(e: Expr) returns (join: nat, r: nat)
      requires Valid() && Open(Now()) && e.Ternary? && WfExpr(e, prog.nregs)
      modifies this`cur, prog`blocks, prog`prevs, prog`nregs
      ensures Valid() && Open(Now()) && join == old(|prog.blocks|) < |prog.blocks| && r == old(prog.nregs)
      ensures WfExpr(e.no, prog.nregs)
      ensures Now() == ElseGen(e, old(Now()))
      decreases e, 0, 1
    {
      ghost var g := Now();
      var other;
      join, r, other := EmitYes(e);
      YesContinues(e, g);
      EmitCond(e.cond, join, other);
      Resume(g, YesGen(e, g), Now(), other);
      cur := Some(other);
      WfMore(e.no, g.nregs, prog.nregs);
    }

    method EmitNo(e: Expr, r: nat, join: nat)
      requires Valid() && Open(Now()) && e.Ternary? && WfExpr(e.no, prog.nregs) && join < |prog.blocks|
      modifies this`cur, prog`blocks, prog`prevs, prog`nregs
      ensures Valid()
      ensures var (g1, y) := GenExpr(e.no, old(Now())); Now() == Into(EmitJmp(MkMov(g1, r, y), join), join)
      decreases e, 0, 0
    {
      var y := EmitExpr(e.no);
      JoinAt(r, y, join);
    }

    method EmitBool(e: Expr) returns (v: Value)
      requires Valid() && Open(Now()) && IsLogical(e) && WfExpr(e, prog.nregs)
      modifies this`cur, prog`blocks, prog`prevs, prog`nregs
      ensures Valid() && (Now(), v) == GenBool(e, old(Now()))
      decreases e, 2
    {
      ghost var g := Now();
      OneContinues(g);
      var other := prog.NewBlock();
      var join := prog.NewBlock();
      var r := prog.NewReg();
      EmitMov(r, Imm(1));
      WfMore(e, g.nregs, prog.nregs);
      EmitCond(e, join, other);
      Resume(g, OneGen(g), Now(), other);
      cur := Some(other);
      JoinAt(r, Imm(0), join);
      v := Reg(r);
    }

    method EmitCond(e: Expr, t: nat, f: nat)
      requires Valid() && Open(Now()) && WfExpr(e, prog.nregs) && t < |prog.blocks| && f < |prog.blocks|
      modifies this`cur, prog`blocks, prog`prevs, prog`nregs
      ensures Valid() && Now() == GenCond(e, t, f, old(Now()))
      ensures Ends(old(Now()), Now())
      decreases e, 1
    {
      CondEnds(e, t, f, Now());
      if e.LogicalOr? || e.LogicalAnd? {
        EmitPair(e, t, f);
      } else if e.Not? {
        EmitCond(e.arg, f, t);
      } else if e.Compare? {
        EmitTest(e, CondOf(e.cmp), t, f);
      } else if e.Bin? && e.op.BitAnd? {
        EmitTest(e, TEST, t, f);
      } else {
        PlainCond(e, t, f, Now());
        var v := EmitExpr(e);
        JumpIf(NE, v, Imm(0), t, f);
      }
    }

    /** && and ||: the second operand has a block of its own. */
    method EmitPair(e: Expr, t: nat, f: nat)
      requires Valid() && Open(Now()) && (e.LogicalOr? || e.LogicalAnd?) && WfExpr(e, prog.nregs) && t < |prog.blocks|
      requires f < |prog.blocks|
      modifies this`cur, prog`blocks, prog`prevs, prog`nregs
      ensures Valid() && Now() == GenCond(e, t, f, old(Now()))
      decreases e, 0
    {
      var next := |prog.blocks|;
      var lt, lf := if e.LogicalOr? then t else next, if e.LogicalOr? then next else f;
      PairEnds(e, lt, lf, t, f, Now());
      NewContinues(Now());
      next := prog.NewBlock();
      EmitCond(e.left, lt, lf);
      cur := Some(next);
      EmitCond(e.right, t, f);
    }

    /** Both operands, then the jump. */
    method EmitTest(e: Expr, c: Cond, t: nat, f: nat)
      requires Valid() && Open(Now()) && (e.Bin? || e.Compare?) && WfExpr(e, prog.nregs) && t < |prog.blocks|
      requires f < |prog.blocks|
      modifies this`cur, prog`blocks, prog`prevs, prog`nregs
      ensures Valid()
      ensures var (g1, v0) := GenExpr(e.left, old(Now()));
        var (g2, v1) := GenExpr(e.right, g1); Now() == MkJcond(g2, c, v0, v1, t, f)
      decreases e, 0
    {
      TestEnds(e, c, t, f, Now());
      var s0 := EmitExpr(e.left);
      var s1 := EmitExpr(e.right);
      JumpIf(c, s0, s1, t, f);
    }

    method EmitStmt(st: Stmt)
      requires Valid() && Open(Now()) && WfStmt(st, prog.nregs)
      modifies this`cur, prog`blocks, prog`prevs, prog`nregs
      ensures Valid() && Now() == GenStmt(st, old(Now()))
      decreases st, 1
    {
      match st
      case Skip =>
      case Assign(r, e) => VisitAssignment(st);
      case Update(_, _, _) => VisitAssignment(st);
      case Seq(a, b) =>
        ghost var g := Now();
        StmtContinues(a, g);
        EmitStmt(a);
        StmtMore(b, g.nregs, prog.nregs);
        EmitStmt(b);
      case _ => VisitIf(st);
    }

    /** visit_assignment, to a local variable. */
    method VisitAssignment(st: Stmt)
      requires Valid() && Open(Now()) && (st.Assign? || st.Update?) && WfStmt(st, prog.nregs)
      modifies this`cur, prog`blocks, prog`prevs, prog`nregs
      ensures Valid() && Now() == GenStmt(st, old(Now()))
    {
      var v := EmitExpr(st.e);
      if st.Update? {
        EmitBinary(CodeOf(st.op), st.r, Reg(st.r), v);
      } else {
        EmitMov(st.r, v);
      }
    }

    /** visit_if_statement. */
    method VisitIf(st: Stmt)
      requires Valid() && Open(Now()) && (st.If? || st.When?) && WfStmt(st, prog.nregs)
      modifies this`cur, prog`blocks, prog`prevs, prog`nregs
      ensures Valid() && Now() == GenStmt(st, old(Now()))
      decreases st, 0, 1
    {
      ghost var g := Now();
      var join, other := EmitThen(st);
      if st.If? {
        ElseContinues(st, g);
        EmitBranch(st.no, other, join);
      }
      cur := Some(join);
    }

    /** A branch in block b, on to the join block. */
    method EmitBranch(st: Stmt, b: nat, join: nat)
      requires Valid() && Open(Into(Now(), b)) && WfStmt(st, prog.nregs) && join < |prog.blocks|
      modifies this`cur, prog`blocks, prog`prevs, prog`nregs
      ensures Valid() && Now() == Branch(st, b, join, old(Now()))
      decreases st, 2
    {
      StmtContinues(st, Into(Now(), b));
      cur := Some(b);
      EmitStmt(st);
      JumpTo(join);
    }

    /** The test and the first branch. */
    method EmitThen(st: Stmt) returns (join: nat, other: nat)
      requires Valid() && Open(Now()) && (st.If? || st.When?) && WfStmt(st, prog.nregs)
      modifies this`cur, prog`blocks, prog`prevs, prog`nregs
      ensures Valid() && Now() == ThenGen(st, old(Now()))
      ensures var n := old(|prog.blocks|); join == n + 1 < |prog.blocks| && other == Other(st, n)
      decreases st, 0, 0
    {
      ghost var g := Now();
      BlocksContinue(st, g);
      TestContinues(st, g);
      var first;
      first, join, other := MakeBlocks(st);
      EmitCond(st.cond, first, other);
      StmtMore(st.yes, g.nregs, prog.nregs);
      StmtContinues(st.yes, Into(Now(), first));
      EmitBranch(st.yes, first, join);
    }

    method MakeBlocks(st: Stmt) returns (first: nat, join: nat, other: nat)
      requires Valid() && (st.If? || st.When?)
      modifies prog`blocks, prog`prevs
      ensures Valid() && Now() == BlocksFor(st, old(Now()))
      ensures first == old(|prog.blocks|) && join == first + 1 && other == Other(st, first)
    {
      first := prog.NewBlock();
      join := prog.NewBlock();
      other := join;
      if st.If? { other := prog.NewBlock(); }
    }
  }
}
