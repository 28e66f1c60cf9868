/** Code generation for statements: what is emitted, that it runs as the
    statement does, and the form of the program it leaves. */
module Statements {
  import opened Ir
  import opened Machine
  import opened Script
  import opened Fixup
  import opened Codegen
  import opened CodegenMeaning

  // ----- what is emitted -----

  /** emit_stmt. */
  function GenStmt(st: Stmt, g: Gen): Gen
    decreases st, 0
  {
    match st
    case Skip => g
    case Assign(r, e) => var (g1, v) := GenExpr(e, g); MkMov(g1, r, v)
    case Update(op, r, e) => var (g1, v) := GenExpr(e, g); MkBinary(g1, CodeOf(op), r, Reg(r), v)
    case Seq(a, b) => GenStmt(b, GenStmt(a, g))
    case If(c, y, n) =>
      var join, other := |g.blocks| + 1, |g.blocks| + 2;
      Branch(n, other, join, Branch(y, |g.blocks|, join, TestGen(st, g))).(cur := Some(join))
    case When(c, y) =>
      var join := |g.blocks| + 1;
      Branch(y, |g.blocks|, join, TestGen(st, g)).(cur := Some(join))
  }

  /** A branch in block b, on to the join block. */
  function Branch(st: Stmt, b: nat, join: nat, g: Gen): Gen
    decreases st, 1
  {
    EmitJmp(GenStmt(st, Into(g, b)), join)
  }

  /** The blocks a conditional statement makes first. */
  function BlocksFor(st: Stmt, g: Gen): Gen {
    if st.If? then WithBlock(WithBlock(WithBlock(g))) else WithBlock(WithBlock(g))
  }

  /** The block for a condition that fails. */
  function Other(st: Stmt, n: nat): nat {
    if st.If? then n + 2 else n + 1
  }

  function TestGen(st: Stmt, g: Gen): Gen
    requires st.If? || st.When?
  {
    GenCond(st.cond, |g.blocks|, Other(st, |g.blocks|), BlocksFor(st, g))
  }

  /** Up to the end of the first branch. */
  function ThenGen(st: Stmt, g: Gen): Gen
    requires st.If? || st.When?
  {
    Branch(st.yes, |g.blocks|, |g.blocks| + 1, TestGen(st, g))
  }

  lemma {:induction false} StmtMore(st: Stmt, n: nat, m: nat)
    requires WfStmt(st, n) && n <= m
    ensures WfStmt(st, m)
    decreases st
  {
    match st
    case Skip =>
    case Assign(_, e) => WfMore(e, n, m);
    case Update(_, _, e) => WfMore(e, n, m);
    case Seq(a, b) => StmtMore(a, n, m); StmtMore(b, n, m);
    case If(c, y, x) => WfMore(c, n, m); StmtMore(y, n, m); StmtMore(x, n, m);
    case When(c, y) => WfMore(c, n, m); StmtMore(y, n, m);
  }

  /** A block made for later. */
  predicate Waits(g: Gen, b: nat) {
    b < |g.blocks| && g.blocks[b] == EMPTY && g.cur != Some(b)
  }

  /** The test is generated; its blocks wait, and generation can go on in the
      first of them. */
  lemma TestContinues(st: Stmt, g: Gen)
    requires (st.If? || st.When?) && Open(g) && WfStmt(st, g.nregs)
    ensures var g1, n := TestGen(st, g), |g.blocks|;
      Ends(BlocksFor(st, g), g1) && g1.blocks[g.cur.value].insns != [] && g.nregs <= g1.nregs
      && WfExpr(st.cond, g.nregs)
      && Open(Into(g1, n)) && Continues(g, Into(g1, n)) && Waits(Into(g1, n), n + 1) && Waits(Into(g1, n), Other(st, n))
         && g1.blocks[n] == EMPTY
  {
    var g0, n := BlocksFor(st, g), |g.blocks|;
    BlocksContinue(st, g);
    CondLeaves(st.cond, n, Other(st, n), g0);
    var g1 := TestGen(st, g);
    Resume(g, g0, g1, n);
    assert SameBlock(g0, g1, n + 1) && SameBlock(g0, g1, Other(st, n));
  }

  lemma BlocksContinue(st: Stmt, g: Gen)
    requires Open(g)
    ensures var g0, n := BlocksFor(st, g), |g.blocks|;
      Continues(g, g0) && g0.cur == g.cur && Waits(g0, n) && Waits(g0, n + 1) && Waits(g0, Other(st, n))
      && g0.nregs == g.nregs
  {
    NewContinues(g);
    NewContinues(WithBlock(g));
    NewContinues(WithBlock(WithBlock(g)));
    ContinuesTrans(g, WithBlock(g), WithBlock(WithBlock(g)));
    if st.If? { ContinuesTrans(g, WithBlock(WithBlock(g)), BlocksFor(st, g)); }
  }

  /** After a branch, generation can go on in a block that waits. */
  lemma BranchContinues(g: Gen, mid: Gen, g2: Gen, join: nat, b: nat)
    requires Continues(g, mid) && Continues(mid, g2) && |g.blocks| <= b && Waits(mid, b)
    ensures var g3 := EmitJmp(g2, join);
      Ends(mid, g3) && Ends(g2, g3) && Open(Into(g3, b)) && Continues(g, Into(g3, b)) && g3.blocks[b] == EMPTY
      && g3.cur.None? && g3.nregs == g2.nregs
  {
    EndersEnd(g2, EQ, Imm(0), Imm(0), join, join);
    EndsTrans(mid, g2, EmitJmp(g2, join));
    Resume(g, mid, EmitJmp(g2, join), b);
  }

  /** emit_stmt goes on from where it was, or from a new block. */
  lemma {:induction false} StmtContinues(st: Stmt, g: Gen)
    requires Open(g) && WfStmt(st, g.nregs)
    ensures Continues(g, GenStmt(st, g))
    decreases st, 2
  {
    match st
    case Skip => NewContinues(g);
    case Assign(r, e) =>
      ExprContinues(e, g);
      var (g1, v) := GenExpr(e, g);
      MovContinues(g1, r, v);
      ContinuesTrans(g, g1, MkMov(g1, r, v));
    case Update(op, r, e) =>
      ExprContinues(e, g);
      var (g1, v) := GenExpr(e, g);
      BinaryContinues(g1, CodeOf(op), r, Reg(r), v);
      ContinuesTrans(g, g1, GenStmt(st, g));
    case Seq(a, b) =>
      StmtContinues(a, g);
      var g1 := GenStmt(a, g);
      StmtMore(b, g.nregs, g1.nregs);
      StmtContinues(b, g1);
      ContinuesTrans(g, g1, GenStmt(st, g));
    case If(_, _, _) => ElseContinues(st, g);
    case When(_, _) => ThenContinues(st, g);
  }

  /** The first branch: the other blocks still wait. */
  lemma {:induction false} ThenContinues(st: Stmt, g: Gen)
    requires (st.If? || st.When?) && Open(g) && WfStmt(st, g.nregs)
    ensures var g1, n := TestGen(st, g), |g.blocks|;
      var g2 := GenStmt(st.yes, Into(g1, n));
      var g3 := EmitJmp(g2, n + 1);
      Open(Into(g1, n)) && WfStmt(st.yes, g1.nregs) && Continues(Into(g1, n), g2) && Ends(Into(g1, n), g3)
      && Ends(g2, g3) && g3.cur.None? && g1.nregs <= g3.nregs
      && Continues(g, Into(g3, n + 1)) && g3.blocks[n + 1] == EMPTY && Continues(g, Into(g3, Other(st, n)))
         && g3.blocks[Other(st, n)] == EMPTY
    decreases st, 0
  {
    var g1, n := TestGen(st, g), |g.blocks|;
    TestContinues(st, g);
    StmtMore(st.yes, g.nregs, g1.nregs);
    StmtContinues(st.yes, Into(g1, n));
    var g2 := GenStmt(st.yes, Into(g1, n));
    BranchContinues(g, Into(g1, n), g2, n + 1, n + 1);
    BranchContinues(g, Into(g1, n), g2, n + 1, Other(st, n));
  }

  lemma {:induction false} ElseContinues(st: Stmt, g: Gen)
    requires st.If? && Open(g) && WfStmt(st, g.nregs)
    ensures var n := |g.blocks|;
      var g3 := Into(ThenGen(st, g), n + 2);
      var g4 := GenStmt(st.no, g3);
      var g5 := EmitJmp(g4, n + 1);
      Open(g3) && g3.blocks[n + 2] == EMPTY && g.nregs <= g3.nregs && WfStmt(st.no, g3.nregs) && Continues(g3, g4)
      && Ends(g3, g5) && Ends(g4, g5) && g5.cur.None?
      && g5.blocks[n + 1] == EMPTY && Continues(g, Into(g5, n + 1)) && GenStmt(st, g) == Into(g5, n + 1)
    decreases st, 1
  {
    var n := |g.blocks|;
    ThenContinues(st, g);
    TestContinues(st, g);
    var g3 := Into(ThenGen(st, g), n + 2);
    StmtMore(st.no, g.nregs, g3.nregs);
    StmtContinues(st.no, g3);
    BranchContinues(g, g3, GenStmt(st.no, g3), n + 1, n + 1);
  }

  // ----- that it runs as the statement does -----

  /** The variables below n after a statement depend only on those before it. */
  lemma {:induction false} PerformSame(st: Stmt, n: nat, m: RegFile, m': RegFile)
    requires WfStmt(st, n) && forall r: nat | r < n :: Get(m, r) == Get(m', r)
    ensures forall r: nat | r < n :: Get(Perform(st, m), r) == Get(Perform(st, m'), r)
    decreases st
  {
    match st
    case Skip =>
    case Assign(d, e) => EvalSame(e, n, m, m'); GetUpdate(m, d, Wrap(Eval(e, m))); GetUpdate(m', d, Wrap(Eval(e, m)));
    case Update(op, d, e) =>
      EvalSame(e, n, m, m');
      var w := Wrap(Apply(op, Signed(Get(m, d)), Eval(e, m)));
      GetUpdate(m, d, w);
      GetUpdate(m', d, w);
    case Seq(a, b) => PerformSame(a, n, m, m'); PerformSame(b, n, Perform(a, m), Perform(a, m'));
    case If(c, y, x) => EvalSame(c, n, m, m'); PerformSame(y, n, m, m'); PerformSame(x, n, m, m');
    case When(c, y) => EvalSame(c, n, m, m'); PerformSame(y, n, m, m');
  }

  /** The state after a statement. */
  function Done(st: Stmt, s: State): State {
    s.(regs := Perform(st, s.regs))
  }

  lemma DoneSame(st: Stmt, n: nat, s: State, s': State)
    requires WfStmt(st, n) && SameBelow(n, s, s')
    ensures SameBelow(n, Done(st, s), Done(st, s'))
  {
    PerformSame(st, n, s.regs, s'.regs);
  }

  /** From where generation stood at g, the code ends where it stands now, and
      has done what the statement does. */
  ghost predicate Performs(sem: Sem, p: seq<Block>, st: Stmt, g: Gen, s: State, s': State)
    requires Open(g)
  {
    InBlock(GenStmt(st, g)) && Reaches(Moving(sem, p), EndOf(g, s), EndOf(GenStmt(st, g), s'))
    && SameBelow(g.nregs, Done(st, s), s')
  }

  /** emit_stmt performs the statement. */
  lemma {:induction false} StmtRuns(sem: Sem, p: seq<Block>, st: Stmt, g: Gen, s: State) returns (s': State)
    requires Standard(sem) && Open(g) && WfStmt(st, g.nregs) && Embeds(p, GenStmt(st, g))
    ensures Performs(sem, p, st, g, s, s')
    decreases st, 2
  {
    match st
    case Skip => s' := s; ReachesHere(Moving(sem, p), EndOf(g, s));
    case Assign(_, _) => s' := AssignRuns(sem, p, st, g, s);
    case Update(_, _, _) => s' := UpdateRuns(sem, p, st, g, s);
    case Seq(_, _) => s' := SeqRuns(sem, p, st, g, s);
    case If(_, _, _) => s' := IfRuns(sem, p, st, g, s);
    case When(_, _) => s' := WhenRuns(sem, p, st, g, s);
  }

  lemma AssignRuns(sem: Sem, p: seq<Block>, st: Stmt, g: Gen, s: State) returns (s': State)
    requires st.Assign? && Standard(sem) && Open(g) && WfStmt(st, g.nregs) && Embeds(p, GenStmt(st, g))
    ensures Performs(sem, p, st, g, s, s')
  {
    var (g1, v) := GenExpr(st.e, g);
    ExprContinues(st.e, g);
    MovContinues(g1, st.r, v);
    EmbedsBefore(p, g1, GenStmt(st, g));
    var s1 := ExprRuns(sem, p, st.e, g, s);
    s' := MovRuns(sem, p, g1, st.r, v, 0, s1);
    GetUpdate(s.regs, st.r, Wrap(Eval(st.e, s.regs)));
    ReachesTrans(Moving(sem, p), EndOf(g, s), EndOf(g1, s1), EndOf(GenStmt(st, g), s'));
  }

  lemma UpdateRuns(sem: Sem, p: seq<Block>, st: Stmt, g: Gen, s: State) returns (s': State)
    requires st.Update? && Standard(sem) && Open(g) && WfStmt(st, g.nregs) && Embeds(p, GenStmt(st, g))
    ensures Performs(sem, p, st, g, s, s')
  {
    var (g1, v) := GenExpr(st.e, g);
    ExprContinues(st.e, g);
    BinaryContinues(g1, CodeOf(st.op), st.r, Reg(st.r), v);
    EmbedsBefore(p, g1, GenStmt(st, g));
    var s1 := ExprRuns(sem, p, st.e, g, s);
    s' := AluRuns(sem, p, g1, CodeOf(st.op), st.r, Reg(st.r), v, 0, s1);
    var x, y := Signed(Get(s.regs, st.r)), Eval(st.e, s.regs);
    SignedWraps(0, Get(s.regs, st.r), 0);
    OperatorsAgree(st.op, x, y);
    GetUpdate(s.regs, st.r, Wrap(Apply(st.op, x, y)));
    ReachesTrans(Moving(sem, p), EndOf(g, s), EndOf(g1, s1), EndOf(GenStmt(st, g), s'));
  }

  lemma {:induction false} SeqRuns(sem: Sem, p: seq<Block>, st: Stmt, g: Gen, s: State) returns (s': State)
    requires st.Seq? && Standard(sem) && Open(g) && WfStmt(st, g.nregs) && Embeds(p, GenStmt(st, g))
    ensures Performs(sem, p, st, g, s, s')
    decreases st, 0
  {
    var g1 := GenStmt(st.first, g);
    StmtContinues(st.first, g);
    StmtMore(st.second, g.nregs, g1.nregs);
    StmtContinues(st.second, g1);
    EmbedsBefore(p, g1, GenStmt(st, g));
    var s1 := StmtRuns(sem, p, st.first, g, s);
    s' := StmtRuns(sem, p, st.second, g1, s1);
    DoneSame(st.second, g.nregs, Done(st.first, s), s1);
    ReachesTrans(Moving(sem, p), EndOf(g, s), EndOf(g1, s1), EndOf(GenStmt(st, g), s'));
  }

  /** The test of a conditional statement. */
  lemma TestStmtRuns(sem: Sem, p: seq<Block>, st: Stmt, g: Gen, s: State) returns (s': State)
    requires (st.If? || st.When?) && Standard(sem) && Open(g) && WfStmt(st, g.nregs) && Embeds(p, TestGen(st, g))
    ensures var n := |g.blocks|;
      Reaches(Moving(sem, p), EndOf(g, s), At(if Eval(st.cond, s.regs) != 0 then n else Other(st, n), 0, s'))
    ensures SameBelow(g.nregs, s, s')
  {
    BlocksContinue(st, g);
    s' := CondRuns(sem, p, st.cond, |g.blocks|, Other(st, |g.blocks|), BlocksFor(st, g), s);
  }

  /** A branch, from the start of its block to the join block. */
  lemma {:induction false} BranchRuns(sem: Sem, p: seq<Block>, st: Stmt, g: Gen, join: nat, s: State)
    returns (s': State)
    requires Standard(sem) && Open(g) && WfStmt(st, g.nregs) && Embeds(p, EmitJmp(GenStmt(st, g), join))
    ensures Reaches(Moving(sem, p), EndOf(g, s), At(join, 0, s')) && SameBelow(g.nregs, Done(st, s), s')
    decreases st, 3
  {
    var g1 := GenStmt(st, g);
    StmtContinues(st, g);
    EndersEnd(g1, EQ, Imm(0), Imm(0), join, join);
    EmbedsBefore(p, g1, EmitJmp(g1, join));
    s' := StmtRuns(sem, p, st, g, s);
    JmpRuns(sem, p, g1, join, s');
    ReachesTrans(Moving(sem, p), EndOf(g, s), EndOf(g1, s'), At(join, 0, s'));
  }

  lemma {:induction false} TestEmbeds(p: seq<Block>, st: Stmt, g: Gen)
    requires (st.If? || st.When?) && Open(g) && WfStmt(st, g.nregs) && Embeds(p, ThenGen(st, g))
    ensures Embeds(p, TestGen(st, g))
  {
    var n, g1 := |g.blocks|, TestGen(st, g);
    ThenContinues(st, g);
    EmbedsBefore(p, Into(g1, n), ThenGen(st, g));
    EmbedsBlocks(p, Into(g1, n), g1);
  }

  lemma {:induction false} ThenEmbeds(p: seq<Block>, st: Stmt, g: Gen)
    requires st.If? && Open(g) && WfStmt(st, g.nregs) && Embeds(p, GenStmt(st, g))
    ensures var n, g3 := |g.blocks|, ThenGen(st, g); Embeds(p, g3) && Embeds(p, Branch(st.no, n + 2, n + 1, g3))
  {
    var n, g3 := |g.blocks|, ThenGen(st, g);
    var g4 := Branch(st.no, n + 2, n + 1, g3);
    ElseContinues(st, g);
    EmbedsBlocks(p, GenStmt(st, g), g4);
    EmbedsInto(p, g3, n + 2, g4);
  }

  lemma EmbedsInto(p: seq<Block>, g: Gen, b: nat, g': Gen)
    requires Ends(Into(g, b), g') && Embeds(p, g')
    ensures Embeds(p, g)
  {
    EmbedsBefore(p, Into(g, b), g');
    EmbedsBlocks(p, Into(g, b), g);
  }

  /** A condition that holds, and the first branch. */
  lemma {:induction false} ThenRuns(sem: Sem, p: seq<Block>, st: Stmt, g: Gen, s: State, s1: State) returns (s': State)
    requires (st.If? || st.When?) && Standard(sem) && Open(g) && WfStmt(st, g.nregs) && Embeds(p, ThenGen(st, g))
    requires Reaches(Moving(sem, p), EndOf(g, s), At(|g.blocks|, 0, s1)) && SameBelow(g.nregs, s, s1)
    ensures Reaches(Moving(sem, p), EndOf(g, s), At(|g.blocks| + 1, 0, s')) && SameBelow(g.nregs, Done(st.yes, s), s')
    decreases st, 0
  {
    var n, g1 := |g.blocks|, TestGen(st, g);
    ThenContinues(st, g);
    TestContinues(st, g);
    s' := BranchRuns(sem, p, st.yes, Into(g1, n), n + 1, s1);
    DoneSame(st.yes, g.nregs, s, s1);
    ReachesTrans(Moving(sem, p), EndOf(g, s), At(n, 0, s1), At(n + 1, 0, s'));
  }

  /** A condition that fails, and the second branch. */
  lemma {:induction false} ElseRuns(sem: Sem, p: seq<Block>, st: Stmt, g: Gen, s: State, s1: State) returns (s': State)
    requires st.If? && Standard(sem) && Open(g) && WfStmt(st, g.nregs) && Embeds(p, GenStmt(st, g))
    requires Reaches(Moving(sem, p), EndOf(g, s), At(|g.blocks| + 2, 0, s1)) && SameBelow(g.nregs, s, s1)
    ensures Reaches(Moving(sem, p), EndOf(g, s), At(|g.blocks| + 1, 0, s')) && SameBelow(g.nregs, Done(st.no, s), s')
    decreases st, 0
  {
    var n, g3 := |g.blocks|, ThenGen(st, g);
    ElseContinues(st, g);
    ThenEmbeds(p, st, g);
    s' := BranchRuns(sem, p, st.no, Into(g3, n + 2), n + 1, s1);
    DoneSame(st.no, g.nregs, s, s1);
    ReachesTrans(Moving(sem, p), EndOf(g, s), At(n + 2, 0, s1), At(n + 1, 0, s'));
  }

  lemma {:induction false} WhenRuns(sem: Sem, p: seq<Block>, st: Stmt, g: Gen, s: State) returns (s': State)
    requires st.When? && Standard(sem) && Open(g) && WfStmt(st, g.nregs) && Embeds(p, GenStmt(st, g))
    ensures Performs(sem, p, st, g, s, s')
    decreases st, 1
  {
    ThenContinues(st, g);
    EmbedsBlocks(p, GenStmt(st, g), ThenGen(st, g));
    TestEmbeds(p, st, g);
    s' := TestStmtRuns(sem, p, st, g, s);
    if Eval(st.cond, s.regs) != 0 { s' := ThenRuns(sem, p, st, g, s, s'); }
  }

  lemma {:induction false} IfRuns(sem: Sem, p: seq<Block>, st: Stmt, g: Gen, s: State) returns (s': State)
    requires st.If? && Standard(sem) && Open(g) && WfStmt(st, g.nregs) && Embeds(p, GenStmt(st, g))
    ensures Performs(sem, p, st, g, s, s')
    decreases st, 1
  {
    ElseContinues(st, g);
    ThenEmbeds(p, st, g);
    TestEmbeds(p, st, g);
    s' := TestStmtRuns(sem, p, st, g, s);
    if Eval(st.cond, s.regs) != 0 {
      s' := ThenRuns(sem, p, st, g, s, s');
    } else {
      s' := ElseRuns(sem, p, st, g, s, s');
    }
  }
}
