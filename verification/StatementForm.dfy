/** The form of the program statements leave, and which variables they read
    before they set them. */
module StatementForm {
  import opened Ir
  import opened Machine
  import opened Jumps
  import opened Script
  import opened Fixup
  import opened Codegen
  import opened CodegenForm
  import opened Statements

  // ----- variables set before they are read -----

  /** The registers set after a statement, whichever way it went. */
  function SetAfter(st: Stmt, have: set<nat>): set<nat> {
    match st
    case Skip => have
    case Assign(r, _) => have + {r}
    case Update(_, _, _) => have
    case Seq(a, b) => SetAfter(b, SetAfter(a, have))
    case If(_, y, n) => SetAfter(y, have) * SetAfter(n, have)
    case When(_, _) => have
  }

  /** With these set, the statement reads nothing that is not. */
  predicate SetFirst(st: Stmt, have: set<nat>) {
    match st
    case Skip => true
    case Assign(_, e) => Locals(e) <= have
    case Update(_, r, e) => Locals(e) <= have && r in have
    case Seq(a, b) => SetFirst(a, have) && SetFirst(b, SetAfter(a, have))
    case If(c, y, n) => Locals(c) <= have && SetFirst(y, have) && SetFirst(n, have)
    case When(c, y) => Locals(c) <= have && SetFirst(y, have)
  }

  lemma {:induction false} SetAfterMore(st: Stmt, a: set<nat>, b: set<nat>)
    requires a <= b
    ensures a <= SetAfter(st, a) <= SetAfter(st, b) && (SetFirst(st, a) ==> SetFirst(st, b))
    decreases st
  {
    match st
    case Skip =>
    case Assign(_, _) =>
    case Update(_, _, _) =>
    case Seq(x, y) => SetAfterMore(x, a, b); SetAfterMore(y, SetAfter(x, a), SetAfter(x, b));
    case If(_, x, y) => SetAfterMore(x, a, b); SetAfterMore(y, a, b);
    case When(_, x) => SetAfterMore(x, a, b);
  }

  ghost predicate Agree(have: set<nat>, m: RegFile, m': RegFile) {
    forall r | r in have :: Get(m, r) == Get(m', r)
  }

  lemma {:induction false} EvalAgrees(e: Expr, have: set<nat>, m: RegFile, m': RegFile)
    requires Locals(e) <= have && Agree(have, m, m')
    ensures Eval(e, m) == Eval(e, m')
    decreases e
  {
    match e
    case Lit(_) =>
    case Local(_) =>
    case Bin(_, l, r) => EvalAgrees(l, have, m, m'); EvalAgrees(r, have, m, m');
    case Negate(a) => EvalAgrees(a, have, m, m');
    case Complement(a) => EvalAgrees(a, have, m, m');
    case Not(a) => EvalAgrees(a, have, m, m');
    case UnaryPlus(a) => EvalAgrees(a, have, m, m');
    case LogicalOr(l, r) => EvalAgrees(l, have, m, m'); EvalAgrees(r, have, m, m');
    case LogicalAnd(l, r) => EvalAgrees(l, have, m, m'); EvalAgrees(r, have, m, m');
    case Compare(_, l, r) => EvalAgrees(l, have, m, m'); EvalAgrees(r, have, m, m');
    case Ternary(c, y, n) => EvalAgrees(c, have, m, m'); EvalAgrees(y, have, m, m'); EvalAgrees(n, have, m, m');
  }

  /** A statement that sets its variables first does the same from any values of
      the others. */
  lemma {:induction false} PerformAgrees(st: Stmt, have: set<nat>, m: RegFile, m': RegFile)
    requires SetFirst(st, have) && Agree(have, m, m')
    ensures Agree(SetAfter(st, have), Perform(st, m), Perform(st, m'))
    decreases st
  {
    match st
    case Skip =>
    case Assign(d, e) =>
      EvalAgrees(e, have, m, m');
      GetUpdate(m, d, Wrap(Eval(e, m)));
      GetUpdate(m', d, Wrap(Eval(e, m)));
    case Update(op, d, e) =>
      EvalAgrees(e, have, m, m');
      var w := Wrap(Apply(op, Signed(Get(m, d)), Eval(e, m)));
      GetUpdate(m, d, w);
      GetUpdate(m', d, w);
    case Seq(a, b) => PerformAgrees(a, have, m, m'); PerformAgrees(b, SetAfter(a, have), Perform(a, m), Perform(a, m'));
    case If(c, y, n) => EvalAgrees(c, have, m, m'); PerformAgrees(y, have, m, m'); PerformAgrees(n, have, m, m');
    case When(c, y) =>
      EvalAgrees(c, have, m, m');
      PerformAgrees(y, have, m, m');
      SetAfterMore(y, have, have);
  }

  // ----- the form -----

  /** emit_stmt keeps the program fit, and has what the statement sets. */
  lemma {:induction false} StmtFits(st: Stmt, g: Gen, todo: set<nat>, defs: seq<set<nat>>, have: set<nat>)
    returns (defs': seq<set<nat>>, have': set<nat>)
    requires Open(g) && Fits(g, todo, defs, have) && WfStmt(st, g.nregs) && SetFirst(st, have)
    ensures Fits(GenStmt(st, g), todo, defs', have') && Gains(defs, SetAfter(st, have), defs', have')
    decreases st, 3
  {
    match st
    case Skip => defs', have' := defs, have;
    case Assign(r, e) =>
      defs', have' := ExprFits(e, g, todo, defs, have);
      ExprContinues(e, g);
      MovFits(GenExpr(e, g).0, todo, defs', have', r, GenExpr(e, g).1);
      have' := have' + {r};
    case Update(op, r, e) =>
      defs', have' := ExprFits(e, g, todo, defs, have);
      ExprContinues(e, g);
      BinaryFits(GenExpr(e, g).0, todo, defs', have', CodeOf(op), r, Reg(r), GenExpr(e, g).1);
      have' := have' + {r};
    case Seq(a, b) =>
      var defs1, have1 := StmtFits(a, g, todo, defs, have);
      StmtContinues(a, g);
      StmtMore(b, g.nregs, GenStmt(a, g).nregs);
      SetAfterMore(b, SetAfter(a, have), have1);
      defs', have' := StmtFits(b, GenStmt(a, g), todo, defs1, have1);
    case If(_, _, _) => defs', have' := IfFits(st, g, todo, defs, have);
    case When(_, _) => defs', have' := WhenFits(st, g, todo, defs, have);
  }

  /** What the blocks of a conditional statement have at their entries. */
  function DefsFor(st: Stmt, have: set<nat>): seq<set<nat>> {
    [have, SetAfter(st, have)] + if st.If? then [have] else []
  }

  function TodoFor(st: Stmt, n: nat): set<nat> {
    {n + 1, Other(st, n)}
  }

  lemma BlocksFit(st: Stmt, g: Gen, todo: set<nat>, defs: seq<set<nat>>, have: set<nat>)
    requires (st.If? || st.When?) && Fits(g, todo, defs, have)
    ensures Fits(BlocksFor(st, g), todo + TodoFor(st, |g.blocks|) + {|g.blocks|}, defs + DefsFor(st, have), have)
  {
    var n, j := |g.blocks|, SetAfter(st, have);
    NewBlockFits(g, todo, defs, have, have);
    NewBlockFits(WithBlock(g), todo + {n}, defs + [have], have, j);
    if st.If? {
      NewBlockFits(WithBlock(WithBlock(g)), todo + {n} + {n + 1}, defs + [have] + [j], have, have);
      assert defs + [have] + [j] + [have] == defs + DefsFor(st, have);
      assert todo + {n} + {n + 1} + {n + 2} == todo + TodoFor(st, n) + {n};
    } else {
      assert defs + [have] + [j] == defs + DefsFor(st, have);
      assert todo + {n} + {n + 1} == todo + TodoFor(st, n) + {n};
    }
  }

  /** The test, up to the start of the first branch. */
  lemma TestStmtFits(st: Stmt, g: Gen, todo: set<nat>, defs: seq<set<nat>>, have: set<nat>)
    returns (defs': seq<set<nat>>)
    requires (st.If? || st.When?) && Open(g) && Fits(g, todo, defs, have) && WfStmt(st, g.nregs) && SetFirst(st, have)
    ensures Fits(Into(TestGen(st, g), |g.blocks|), todo + TodoFor(st, |g.blocks|), defs', have)
    ensures defs + DefsFor(st, have) <= defs'
  {
    var n, g0, defs0, todo0 := |g.blocks|, BlocksFor(st, g), defs + DefsFor(st, have), todo +
        TodoFor(st, |g.blocks|) + {|g.blocks|};
    BlocksContinue(st, g);
    BlocksFit(st, g, todo, defs, have);
    TestContinues(st, g);
    assert defs0[n] == have && defs0[Other(st, n)] == have;
    defs' := CondFits(st.cond, n, Other(st, n), g0, todo0, defs0, have);
    IntoFits(TestGen(st, g), todo0, defs', {}, n);
    assert n !in todo;
    assert todo0 - {n} == todo + TodoFor(st, n);
  }

  /** No empty block leads to the first block of a conditional statement. */
  lemma NoneLeads(st: Stmt, g: Gen, todo: set<nat>, defs: seq<set<nat>>, have: set<nat>)
    requires (st.If? || st.When?) && Open(g) && Fits(g, todo, defs, have) && WfStmt(st, g.nregs)
    ensures |g.blocks| <= |TestGen(st, g).blocks| && !LeadsTo(TestGen(st, g).blocks[|g.blocks| - 1], |g.blocks|)
  {
    var n, b, g1 := |g.blocks|, |g.blocks| - 1, TestGen(st, g);
    TestContinues(st, g);
    assert BlockFits(g, todo, defs, have, b);
    if g.cur != Some(b) { assert SameBlock(g, Into(g1, n), b); }
  }

  /** A branch begun in a block made for it, on to the join block. */
  lemma {:induction false} BranchFits(st: Stmt, g: Gen, join: nat, todo: set<nat>, defs: seq<set<nat>>, have: set<nat>)
    returns (defs': seq<set<nat>>)
    requires Open(g) && Fits(g, todo, defs, have) && WfStmt(st, g.nregs) && SetFirst(st, have)
    requires join in todo && MayJumpTo(defs, SetAfter(st, have), join) && 0 < g.cur.value
    requires join < g.cur.value || (join == g.cur.value + 1 && !LeadsTo(g.blocks[g.cur.value - 1], g.cur.value))
    ensures var g' := EmitJmp(GenStmt(st, g), join); Fits(g', todo, defs', {}) && defs <= defs' && g'.cur.None?
    decreases st, 4
  {
    var have';
    defs', have' := StmtFits(st, g, todo, defs, have);
    StmtContinues(st, g);
    assert SameBlock(g, GenStmt(st, g), g.cur.value - 1);
    JmpFits(GenStmt(st, g), todo, defs', have', join);
  }

  /** The first branch: the join block and the other one are left. */
  lemma {:induction false} ThenFits(st: Stmt, g: Gen, todo: set<nat>, defs: seq<set<nat>>, have: set<nat>)
    returns (defs': seq<set<nat>>)
    requires (st.If? || st.When?) && Open(g) && Fits(g, todo, defs, have) && WfStmt(st, g.nregs) && SetFirst(st, have)
    ensures Fits(ThenGen(st, g), todo + TodoFor(st, |g.blocks|), defs', {}) && defs + DefsFor(st, have) <= defs'
    ensures ThenGen(st, g).cur.None?
    decreases st, 0
  {
    var n := |g.blocks|;
    TestContinues(st, g);
    NoneLeads(st, g, todo, defs, have);
    var defs1 := TestStmtFits(st, g, todo, defs, have);
    SetAfterMore(st.yes, have, have);
    assert defs1[n + 1] == SetAfter(st, have);
    StmtMore(st.yes, g.nregs, TestGen(st, g).nregs);
    defs' := BranchFits(st.yes, Into(TestGen(st, g), n), n + 1, todo + TodoFor(st, n), defs1, have);
  }

  lemma {:induction false} WhenFits(st: Stmt, g: Gen, todo: set<nat>, defs: seq<set<nat>>, have: set<nat>)
    returns (defs': seq<set<nat>>, have': set<nat>)
    requires st.When? && Open(g) && Fits(g, todo, defs, have) && WfStmt(st, g.nregs) && SetFirst(st, have)
    ensures Fits(GenStmt(st, g), todo, defs', have') && Gains(defs, SetAfter(st, have), defs', have')
    decreases st, 1
  {
    var n := |g.blocks|;
    defs' := ThenFits(st, g, todo, defs, have);
    have' := have;
    ThenContinues(st, g);
    IntoFits(ThenGen(st, g), todo + TodoFor(st, n), defs', {}, n + 1);
    assert n + 1 !in todo;
    assert todo + TodoFor(st, n) - {n + 1} == todo;
  }

  /** On to the second branch. */
  lemma {:induction false} ElseStmtFits(st: Stmt, g: Gen, todo: set<nat>, defs: seq<set<nat>>, have: set<nat>)
    returns (defs': seq<set<nat>>)
    requires st.If? && Open(g) && Fits(g, todo, defs, have) && WfStmt(st, g.nregs) && SetFirst(st, have)
    ensures var n := |g.blocks|;
      n + 1 !in todo && Fits(Into(ThenGen(st, g), n + 2), todo + {n + 1}, defs', have) && n + 1 < |defs'|
      && defs'[n + 1] == SetAfter(st, have) && defs <= defs'
    decreases st, 1
  {
    var n := |g.blocks|;
    defs' := ThenFits(st, g, todo, defs, have);
    assert defs'[n + 2] == have && defs'[n + 1] == SetAfter(st, have) && n + 1 !in todo && n + 2 !in todo;
    IntoFits(ThenGen(st, g), todo + TodoFor(st, n), defs', {}, n + 2);
    assert todo + TodoFor(st, n) - {n + 2} == todo + {n + 1};
  }

  lemma {:induction false} IfFits(st: Stmt, g: Gen, todo: set<nat>, defs: seq<set<nat>>, have: set<nat>)
    returns (defs': seq<set<nat>>, have': set<nat>)
    requires st.If? && Open(g) && Fits(g, todo, defs, have) && WfStmt(st, g.nregs) && SetFirst(st, have)
    ensures Fits(GenStmt(st, g), todo, defs', have') && Gains(defs, SetAfter(st, have), defs', have')
    decreases st, 2
  {
    var n, g3 := |g.blocks|, Into(ThenGen(st, g), |g.blocks| + 2);
    ElseContinues(st, g);
    var defs1 := ElseStmtFits(st, g, todo, defs, have);
    defs' := BranchFits(st.no, g3, n + 1, todo + {n + 1}, defs1, have);
    IntoFits(EmitJmp(GenStmt(st.no, g3), n + 1), todo + {n + 1}, defs', {}, n + 1);
    assert todo + {n + 1} - {n + 1} == todo;
    have' := SetAfter(st, have);
  }

  // ----- which literals lowering can treat -----

  /** No literal wider than 32 bits stands where an instruction other than a
      move would carry it. */
  predicate SlimStmt(st: Stmt) {
    match st
    case Skip => true
    case Assign(_, e) => Slim(e)
    case Update(_, _, e) => Slim(e) && !TooWide(e)
    case Seq(a, b) => SlimStmt(a) && SlimStmt(b)
    case If(c, y, n) => SlimCond(c) && SlimStmt(y) && SlimStmt(n)
    case When(c, y) => SlimCond(c) && SlimStmt(y)
  }

  /** emit_stmt keeps the program ready for lowering exactly on slim statements. */
  lemma {:induction false} StmtReady(st: Stmt, g: Gen)
    requires Open(g) && WfStmt(st, g.nregs)
    ensures AllReady(GenStmt(st, g).blocks) <==> AllReady(g.blocks) && SlimStmt(st)
    decreases st, 1
  {
    match st
    case Skip =>
    case Assign(r, e) =>
      ExprReady(e, g);
      ExprContinues(e, g);
      ReadyMov(GenExpr(e, g).0, r, GenExpr(e, g).1);
    case Update(op, r, e) =>
      ExprReady(e, g);
      ExprContinues(e, g);
      ResultLit(e, g);
      ReadyBinary(GenExpr(e, g).0, CodeOf(op), r, Reg(r), GenExpr(e, g).1);
    case Seq(a, b) =>
      StmtReady(a, g);
      StmtContinues(a, g);
      StmtMore(b, g.nregs, GenStmt(a, g).nregs);
      StmtReady(b, GenStmt(a, g));
    case If(_, _, n) =>
      ThenReady(st, g);
      ElseContinues(st, g);
      StmtReady(n, Into(ThenGen(st, g), |g.blocks| + 2));
      ReadyJmp(GenStmt(n, Into(ThenGen(st, g), |g.blocks| + 2)), |g.blocks| + 1);
    case When(_, _) => ThenReady(st, g);
  }

  lemma BlocksReady(st: Stmt, g: Gen)
    ensures AllReady(BlocksFor(st, g).blocks) <==> AllReady(g.blocks)
  {
    ReadyBlock(g);
    ReadyBlock(WithBlock(g));
    ReadyBlock(WithBlock(WithBlock(g)));
  }

  lemma {:induction false} ThenReady(st: Stmt, g: Gen)
    requires (st.If? || st.When?) && Open(g) && WfStmt(st, g.nregs)
    ensures AllReady(ThenGen(st, g).blocks) <==> AllReady(g.blocks) && SlimCond(st.cond) && SlimStmt(st.yes)
    decreases st, 0
  {
    var n, g1 := |g.blocks|, TestGen(st, g);
    BlocksReady(st, g);
    BlocksContinue(st, g);
    CondReady(st.cond, n, Other(st, n), BlocksFor(st, g));
    ThenContinues(st, g);
    StmtReady(st.yes, Into(g1, n));
    ReadyJmp(GenStmt(st.yes, Into(g1, n)), n + 1);
  }

  // ----- chains of empty blocks end -----

  lemma {:induction false} DescendsEnds(p: seq<Block>, f: Fwds, i: nat) returns (k: nat)
    requires InBounds(f) && |f| == |p| && i < |p| && (forall b: nat | b < |p| :: Descends(p, b))
    requires forall b: nat | b < |p| :: f[b] == if p[b].insns == [] then p[b].fallthru else None
    ensures Chain(f, i, k).None?
    decreases i
  {
    assert Descends(p, i);
    if f[i].None? {
      k := 1;
    } else if f[i].value < i {
      var j := DescendsEnds(p, f, f[i].value);
      k := j + 1;
    } else if f[i + 1].None? {
      k := 2;
    } else {
      var j := DescendsEnds(p, f, f[i + 1].value);
      k := j + 2;
      assert Chain(f, i + 1, j + 1) == Chain(f, f[i + 1].value, j);
    }
  }
}
