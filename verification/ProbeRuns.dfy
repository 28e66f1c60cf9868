/** What the code of translate_probe does: prologue, statement and epilogue are one
    handler of `Errors`, up to the bytecode. */
module ProbeRuns {
  import opened Ir
  import opened Machine
  import opened Script
  import opened Codegen
  import opened CodegenMeaning
  import opened Statements
  import opened StatementForm
  import opened Returning
  import opened Errors
  import opened Handlers
  import opened HandlerRuns
  import opened Probes

  // ----- the statement -----

  /** The variables a statement may set. */
  function Assigned(st: Stmt): set<nat> {
    match st
    case Skip => {}
    case Assign(r, _) => {r}
    case Update(_, r, _) => {r}
    case Seq(a, b) => Assigned(a) + Assigned(b)
    case If(_, y, n) => Assigned(y) + Assigned(n)
    case When(_, y) => Assigned(y)
  }

  /** It leaves the others alone. */
  lemma {:induction false} PerformKeeps(st: Stmt, m: RegFile, r: nat)
    requires r !in Assigned(st)
    ensures Get(Perform(st, m), r) == Get(m, r)
    decreases st
  {
    match st
    case Skip =>
    case Assign(d, e) => GetUpdate(m, d, Wrap(Eval(e, m)));
    case Update(op, d, e) => GetUpdate(m, d, Wrap(Apply(op, Signed(Get(m, d)), Eval(e, m))));
    case Seq(a, b) => PerformKeeps(a, m, r); PerformKeeps(b, Perform(a, m), r);
    case If(c, y, n) => if Eval(c, m) != 0 { PerformKeeps(y, m, r); } else { PerformKeeps(n, m, r); }
    case When(c, y) => if Eval(c, m) != 0 { PerformKeeps(y, m, r); }
  }

  lemma {:induction false} AssignedTemps(st: Stmt, n: nat, r: nat)
    requires WfStmt(st, n) && r in Assigned(st)
    ensures MAX_BPF_REG <= r < n
    decreases st
  {
    match st
    case Assign(_, _) =>
    case Update(_, _, _) =>
    case Seq(a, b) => if r in Assigned(a) { AssignedTemps(a, n, r); } else { AssignedTemps(b, n, r); }
    case If(_, y, x) => if r in Assigned(y) { AssignedTemps(y, n, r); } else { AssignedTemps(x, n, r); }
    case When(_, y) => AssignedTemps(y, n, r);
  }

  lemma ProbeEmbeds(st: Stmt, n: nat, limit: int)
    requires WfStmt(st, n + 4)
    ensures var g, p := GenStmt(st, StartGen(n, limit)), ProbeGen(st, n, limit).blocks;
      Open(g) && Embeds(p, g) && Embeds(p, EmitJmp(WithRet(g), |g.blocks|)) && |p| == |g.blocks| + 1
      && p[|g.blocks|] == RET0 && BODY < |g.blocks|
  {
    var g0, g := StartGen(n, limit), GenStmt(st, StartGen(n, limit));
    var p := ProbeGen(st, n, limit).blocks;
    StartIs(n, limit);
    StmtContinues(st, g0);
    EmbedsItself(ProbeGen(st, n, limit));
    EndersEnd(WithRet(g), EQ, Imm(0), Imm(0), |g.blocks|, |g.blocks|);
    EmbedsBefore(p, WithRet(g), ProbeGen(st, n, limit));
    RetEmbeds(p, g);
  }

  lemma RetEmbeds(p: seq<Block>, g: Gen)
    requires Embeds(p, WithRet(g))
    ensures Embeds(p, g)
  {
    forall b: nat | b < |g.blocks| ensures EmbedsBlock(p, g, b) { assert EmbedsBlock(p, WithRet(g), b); }
  }

  /** ret0: R0 is cleared, and on to the epilogue. */
  lemma RetRuns(sem: Sem, p: seq<Block>, b: nat, s: State)
    requires b < |p| && p[b] == RET0
    ensures Reaches(Moving(sem, p), At(b, 0, s), At(EPILOGUE, 0, s.(regs := s.regs[0 := 0])))
  {
    var m, x := Moving(sem, p), At(b, 0, s);
    Moved(sem, 0, Imm(0), s);
    assert m(x) == At(b, 1, s.(regs := s.regs[0 := 0]));
    ReachesHere(m, x);
    ReachesHere(m, m(x));
    ReachesTrans(m, x, m(x), m(m(x)));
  }

  /** The statement, from the body's block to the epilogue. */
  lemma StatementReaches(sem: Sem, st: Stmt, n: nat, limit: int, s: State) returns (s': State)
    requires Standard(sem) && WfStmt(st, n + 4)
    ensures Reaches(Moving(sem, ProbeGen(st, n, limit).blocks), At(BODY, 0, s), At(EPILOGUE, 0, s'))
    ensures s'.mem == s.mem && s'.trace == s.trace
    ensures forall r: nat | 0 < r < n + 4 :: Get(s'.regs, r) == Get(Perform(st, s.regs), r)
  {
    var g0, g := StartGen(n, limit), GenStmt(st, StartGen(n, limit));
    var p, b := ProbeGen(st, n, limit).blocks, |g.blocks|;
    var m := Moving(sem, p);
    StartIs(n, limit);
    ProbeEmbeds(st, n, limit);
    var s1 := StmtRuns(sem, p, st, g0, s);
    JmpRuns(sem, p, WithRet(g), b, s1);
    RetRuns(sem, p, b, s1);
    s' := s1.(regs := s1.regs[0 := 0]);
    ReachesTrans(m, At(BODY, 0, s), EndOf(g, s1), At(b, 0, s1));
    ReachesTrans(m, At(BODY, 0, s), At(b, 0, s1), At(EPILOGUE, 0, s'));
  }

  lemma StatementSteps(sem: Sem, st: Stmt, n: nat, limit: int, s: State) returns (k: nat, s': State)
    requires Standard(sem) && WfStmt(st, n + 4)
    ensures Steps(Stepping(sem, ProbeGen(st, n, limit).blocks), Goto(BODY, s), k) == Goto(EPILOGUE, s')
    ensures s'.mem == s.mem && s'.trace == s.trace
    ensures forall r: nat | 0 < r < n + 4 :: Get(s'.regs, r) == Get(Perform(st, s.regs), r)
  {
    var p := ProbeGen(st, n, limit).blocks;
    s' := StatementReaches(sem, st, n, limit, s);
    ProbeEmbeds(st, n, limit);
    k := ReachSteps(sem, p, BODY, s, EPILOGUE, s');
  }

  lemma ReachSteps(sem: Sem, p: seq<Block>, b: nat, s: State, b': nat, s': State) returns (k: nat)
    requires b < |p| && b' < |p| && b != b' && Reaches(Moving(sem, p), At(b, 0, s), At(b', 0, s'))
    ensures Steps(Stepping(sem, p), Goto(b, s), k) == Goto(b', s')
  {
    var m: nat :| Moves(Moving(sem, p), At(b, 0, s), m) == At(b', 0, s');
    k := MovesStep(sem, p, At(b, 0, s), m, b', s');
    StartFinish(sem, p, b, s);
    k := k + 1;
  }

  /** The outcome of the statement from s: it never calls exit, and it fails where
      it leaves the status set. */
  function OutcomeFrom(st: Stmt, es: nat, s: State): Body {
    Body(false, Get(Perform(st, s.regs), es) != 0)
  }

  /** The outcomes a probe may have: those of the statement with the status clear and
      any values of the other variables. */
  ghost predicate MayEnd(st: Stmt, es: nat, b: Body) {
    exists s: State :: Get(s.regs, es) == 0 && b == OutcomeFrom(st, es, s)
  }

  ghost function EndsOf(st: Stmt, es: nat): Outcomes {
    b => MayEnd(st, es, b)
  }

  lemma SomeOutcome(st: Stmt, es: nat)
    ensures MayEnd(st, es, OutcomeFrom(st, es, State(map[], map[], [])))
  {
    assert Get(State(map[], map[], []).regs, es) == 0;
  }

  /** A statement that does not touch the status has no other. */
  lemma QuietEnds(st: Stmt, es: nat)
    requires es !in Assigned(st)
    ensures Quiet(EndsOf(st, es))
  {
    forall b | MayEnd(st, es, b) ensures !b.fails {
      var s: State :| Get(s.regs, es) == 0 && b == OutcomeFrom(st, es, s);
      PerformKeeps(st, s.regs, es);
    }
  }

  /** A statement that sets its variables before it reads them has one outcome. */
  lemma OutcomeFixed(st: Stmt, es: nat, s: State, b: Body)
    requires SetFirst(st, {es}) && Get(s.regs, es) == 0
    ensures MayEnd(st, es, b) <==> b == OutcomeFrom(st, es, s)
  {
    if MayEnd(st, es, b) {
      var s': State :| Get(s'.regs, es) == 0 && b == OutcomeFrom(st, es, s');
      PerformAgrees(st, {es}, s.regs, s'.regs);
      SetAfterMore(st, {es}, {es});
    }
  }

  lemma StandsOn(mp: Maps, fp: Word, s: State, s': State, w: World, k: nat, fails: bool)
    requires Stands(mp, fp, s, w) && s'.mem == s.mem && s'.trace == s.trace && Get(s'.regs, FRAME) == fp
    ensures Stands(mp, fp, s', RunBody(w, k, Body(false, fails)))
  {
  }

  lemma StatementRuns(sem: Sem, mp: Maps, st: Stmt, n: nat, limit: int, fp: Word, s: State, w: World, k: nat)
    requires Standard(sem) && MAX_BPF_REG <= n && WfStmt(st, n + 4) && Stands(mp, fp, s, w)
    ensures BodyRuns(Stepping(sem, ProbeGen(st, n, limit).blocks), mp, n, fp, s, w, k, OutcomeFrom(st, n, s))
  {
    var c, s' := StatementSteps(sem, st, n, limit, s);
    if FRAME in Assigned(st) { AssignedTemps(st, n + 4, FRAME); }
    PerformKeeps(st, s.regs, FRAME);
    StandsOn(mp, fp, s, s', w, k, Get(s'.regs, n) != 0);
  }

  /** translate_probe's code is a handler with the outcomes of its statement; one
      that does not touch the status needs only the first four bytes of the frame. */
  lemma ProbeServes(sem: Sem, mp: Maps, st: Stmt, n: nat, limit: nat, fp: Word, k: nat)
    requires HasHelpers(sem, mp) && Apart(sem, mp, fp) && MAX_BPF_REG <= n && WfStmt(st, n + 4) && limit < 0x8000_0000
    requires Free(sem, fp, -4, 4) && (n !in Assigned(st) || Free(sem, fp, -12, 12))
    ensures Serves(Stepping(sem, ProbeGen(st, n, limit).blocks), mp, n, limit, fp, k, EndsOf(st, n))
  {
    var p, q, may := ProbeGen(st, n, limit).blocks, RegsFrom(n), EndsOf(st, n);
    var step := Stepping(sem, p);
    ProbeHandler(st, n, limit);
    BlocksPrologue(sem, mp, p, q, limit, fp);
    BlocksLeave(sem, p, q, limit);
    if n in Assigned(st) { BlocksEpilogue(sem, mp, p, q, limit, fp); } else { QuietEnds(st, n); }
    SomeOutcome(st, n);
    assert may(OutcomeFrom(st, n, State(map[], map[], [])));
    forall s, ctx, w | Prologued(mp, n, fp, ctx, s, w) && Admits(w, limit)
      ensures BodyEnds(step, mp, n, fp, s, w, k, may)
    {
      StatementRuns(sem, mp, st, n, limit, fp, s, w, k);
      assert may(OutcomeFrom(st, n, s));
    }
  }
}
