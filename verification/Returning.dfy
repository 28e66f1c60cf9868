/** From script to bytecode: a program that performs a statement and returns the
    value of an expression, through code generation, all passes and the encoder. */
module Returning {
  import opened Ir
  import opened Machine
  import opened Simulation
  import opened Script
  import opened Fixup
  import opened FixupStandard
  import opened Codegen
  import opened CodegenMeaning
  import opened Linear
  import opened Flattening
  import opened Zeroing
  import opened Generation
  import opened Liveness
  import opened Jumps
  import opened Spilling
  import opened RegAlloc
  import opened AllocationMeaning
  import opened Programs
  import opened Emission
  import opened CodegenForm
  import opened Statements
  import opened StatementForm
  import opened Division
  import Renaming
  import Unparser

  // ----- instructions and blocks -----

  /** What is left of the block at a point. */
  function Finish(sem: Sem, p: seq<Block>, x: Point): Step
    requires x.At? && x.b < |p| && x.k <= |p[x.b].insns|
  {
    StepBlock(sem, p[x.b].(insns := p[x.b].insns[x.k..]), x.s)
  }

  predicate Inside(p: seq<Block>, x: Point) {
    x.At? && x.b < |p| && x.k <= |p[x.b].insns|
  }

  /** One move stays in the block, or ends it. */
  lemma FinishMove(sem: Sem, p: seq<Block>, x: Point, y: Point)
    requires Inside(p, x) && y == Move(sem, p, x) && Inside(p, y)
    ensures Finish(sem, p, x) == if y.k == 0 then Goto(y.b, y.s) else Finish(sem, p, y)
  {
    var ins := p[x.b].insns;
    if x.k < |ins| {
      assert ins[x.k..][0] == ins[x.k] && ins[x.k..][1..] == ins[x.k + 1..];
      RunAdvance(sem, ins[x.k..], x.s);
    }
  }

  lemma StartFinish(sem: Sem, p: seq<Block>, b: nat, s: State)
    requires b < |p|
    ensures Finish(sem, p, At(b, 0, s)) == Stepping(sem, p)(b, s)
  {
    assert p[b].insns[0..] == p[b].insns;
  }

  lemma HaltsLater(step: Stepper, b: nat, s: State, o: State)
    requires Halts(step, step(b, s), o)
    ensures Halts(step, Goto(b, s), o)
  {
    var n: nat :| Steps(step, step(b, s), n) == Halt(o);
    assert Steps(step, Goto(b, s), n + 1) == Halt(o);
  }

  /** Where the moves come to the start of a block, so do the blocks. */
  lemma {:induction false} MovesStep(sem: Sem, p: seq<Block>, x: Point, n: nat, b: nat, s: State) returns (k: nat)
    requires Inside(p, x) && n > 0 && b < |p| && Moves(Moving(sem, p), x, n) == At(b, 0, s)
    ensures Steps(Stepping(sem, p), Finish(sem, p, x), k) == Goto(b, s)
    decreases n
  {
    var y := Move(sem, p, x);
    if !Inside(p, y) { GoneStays(sem, p, y, n - 1); }
    FinishMove(sem, p, x, y);
    if n == 1 {
      k := 0;
    } else {
      k := MovesStep(sem, p, y, n - 1, b, s);
      if y.k == 0 {
        StartFinish(sem, p, y.b, y.s);
        k := k + 1;
      }
    }
  }

  /** Where the moves halt, so do the blocks. */
  lemma {:induction false} MovesHalt(sem: Sem, p: seq<Block>, x: Point, n: nat, o: State)
    requires Inside(p, x) && Inside(p, Moves(Moving(sem, p), x, n))
    requires Halts(Stepping(sem, p), Finish(sem, p, Moves(Moving(sem, p), x, n)), o)
    ensures Halts(Stepping(sem, p), Finish(sem, p, x), o)
    decreases n
  {
    if n > 0 {
      var y := Move(sem, p, x);
      if !Inside(p, y) {
        GoneStays(sem, p, y, n - 1);
      } else {
        MovesHalt(sem, p, y, n - 1, o);
        FinishMove(sem, p, x, y);
        if Finish(sem, p, x) != Finish(sem, p, y) {
          StartFinish(sem, p, y.b, y.s);
          HaltsLater(Stepping(sem, p), y.b, y.s, o);
        }
      }
    }
  }

  lemma {:induction false} GoneStays(sem: Sem, p: seq<Block>, y: Point, n: nat)
    requires !Inside(p, y)
    ensures !Inside(p, Moves(Moving(sem, p), y, n))
    decreases n
  {
    if n > 0 { GoneStays(sem, p, Move(sem, p, y), n - 1); }
  }

  // ----- returning a value -----

  const EXIT: Insn := Insn(Exit, 0, None, None, None)

  function FirstGen(nregs: nat): Gen {
    Gen([EMPTY], nregs, Some(0))
  }

  /** The value of e after st. */
  function ValueOf(st: Stmt, e: Expr, m: RegFile): Word {
    Wrap(Eval(e, Perform(st, m)))
  }

  /** The program that performs st, moves the value of e to R0 and exits. */
  function ReturnGen(st: Stmt, e: Expr, nregs: nat): Gen {
    var (g, v) := GenExpr(e, GenStmt(st, FirstGen(nregs)));
    Emit(MkMov(g, 0, v), EXIT)
  }

  lemma ReturnContinues(st: Stmt, e: Expr, nregs: nat)
    requires WfStmt(st, nregs) && WfExpr(e, nregs)
    ensures var g1 := GenStmt(st, FirstGen(nregs));
      var (g2, v) := GenExpr(e, g1);
      Continues(FirstGen(nregs), g1) && WfExpr(e, g1.nregs) && Continues(g1, g2) && Has(g2, v)
      && Continues(g2, MkMov(g2, 0, v))
      && Continues(MkMov(g2, 0, v), ReturnGen(st, e, nregs))
  {
    var g1 := GenStmt(st, FirstGen(nregs));
    StmtContinues(st, FirstGen(nregs));
    WfMore(e, nregs, g1.nregs);
    ExprContinues(e, g1);
    var (g2, v) := GenExpr(e, g1);
    MovContinues(g2, 0, v);
    EmitContinues(MkMov(g2, 0, v), EXIT);
  }

  lemma ReturnEmbeds(st: Stmt, e: Expr, nregs: nat)
    requires WfStmt(st, nregs) && WfExpr(e, nregs)
    ensures var p, g1 := ReturnGen(st, e, nregs).blocks, GenStmt(st, FirstGen(nregs));
      var (g2, v) := GenExpr(e, g1);
      Embeds(p, g1) && Embeds(p, g2) && Embeds(p, MkMov(g2, 0, v))
  {
    var p, g1 := ReturnGen(st, e, nregs).blocks, GenStmt(st, FirstGen(nregs));
    var (g2, v) := GenExpr(e, g1);
    ReturnContinues(st, e, nregs);
    EmbedsItself(ReturnGen(st, e, nregs));
    EmbedsBefore(p, MkMov(g2, 0, v), ReturnGen(st, e, nregs));
    EmbedsBefore(p, g2, MkMov(g2, 0, v));
    EmbedsBefore(p, g1, g2);
  }

  /** It halts with the value the expression has after the statement in R0,
      memory and calls untouched. */
  lemma ReturnHalts(sem: Sem, st: Stmt, e: Expr, nregs: nat, s: State) returns (o: State)
    requires Standard(sem) && WfStmt(st, nregs) && WfExpr(e, nregs)
    ensures Halts(Stepping(sem, ReturnGen(st, e, nregs).blocks), Goto(0, s), o)
    ensures Get(o.regs, 0) == ValueOf(st, e, s.regs) && o.mem == s.mem && o.trace == s.trace
  {
    var g0, g1 := FirstGen(nregs), GenStmt(st, FirstGen(nregs));
    var (g2, v) := GenExpr(e, g1);
    var p, m := ReturnGen(st, e, nregs).blocks, Moving(sem, ReturnGen(st, e, nregs).blocks);
    ReturnContinues(st, e, nregs);
    ReturnEmbeds(st, e, nregs);
    var s1 := StmtRuns(sem, p, st, g0, s);
    var s2 := ExprRuns(sem, p, e, g1, s1);
    EvalSame(e, nregs, Perform(st, s.regs), s1.regs);
    o := MovRuns(sem, p, g2, 0, v, 0, s2);
    ReachesTrans(m, At(0, 0, s), EndOf(g1, s1), EndOf(g2, s2));
    ReachesTrans(m, At(0, 0, s), EndOf(g2, s2), EndOf(MkMov(g2, 0, v), o));
    ExitReached(sem, p, MkMov(g2, 0, v), s, o);
  }

  lemma ExitReached(sem: Sem, p: seq<Block>, g: Gen, s: State, o: State)
    requires Open(g) && p == Emit(g, EXIT).blocks && Reaches(Moving(sem, p), At(0, 0, s), EndOf(g, o))
    ensures Halts(Stepping(sem, p), Goto(0, s), o)
  {
    var n: nat :| Moves(Moving(sem, p), At(0, 0, s), n) == EndOf(g, o);
    ExitHalts(sem, p, g, o);
    MovesHalt(sem, p, At(0, 0, s), n, o);
    StartFinish(sem, p, 0, s);
    HaltsLater(Stepping(sem, p), 0, s, o);
  }

  lemma EmbedsItself(g: Gen)
    ensures Embeds(g.blocks, g)
  {
    forall b: nat | b < |g.blocks| ensures EmbedsBlock(g.blocks, g, b) {}
  }

  lemma ExitHalts(sem: Sem, p: seq<Block>, g: Gen, o: State)
    requires Open(g) && p == Emit(g, EXIT).blocks
    ensures Inside(p, EndOf(g, o)) && Halts(Stepping(sem, p), Finish(sem, p, EndOf(g, o)), o)
  {
    var x := EndOf(g, o);
    assert p[x.b].insns[x.k..] == [EXIT];
    RunOne(sem, EXIT, o);
    assert Steps(Stepping(sem, p), Halt(o), 0) == Halt(o);
  }

  lemma HaltsAlike(step: Stepper, c: Step, step': Stepper, c': Step, g: set<Word>, o: State) returns (o': State)
    requires SameBehaviour(step, c, step', c', g) && Halts(step, c, o)
    ensures Halts(step', c', o') && SameView(o, o', g)
  {
    o' :| Halts(step', c', o') && SameView(o, o', g);
  }

  // ----- what generate asks for -----

  /** A straight block, and the exit. */
  lemma LastBlock(b: Block, nregs: nat, have: set<nat>, d: set<nat>)
    requires Straight(b.insns, nregs) && b.taken.None? && b.fallthru.None? && LiveBefore(b.insns, have) <= d
    requires MAX_BPF_REG <= nregs && 0 in have
    ensures var x := b.(insns := b.insns + [EXIT]);
      WfBlock(x, nregs, 1) && Forwards(x).None? && LiveBefore(x.insns, {}) <= d
      && forall k | 0 <= k < |x.insns| :: FitsInt16(x.insns[k].off)
  {
    LiveAfterOne(b.insns, EXIT, have, {}, d);
  }

  lemma DoneBlock(b: Block, nregs: nat, n: nat)
    requires Finished(b, nregs, n)
    ensures WfBlock(b, nregs, n) && (b.insns != [] ==> Forwards(b).None?) && b.taken != Some(0) && b.fallthru != Some(0)
    ensures forall k | 0 <= k < |b.insns| :: FitsInt16(b.insns[k].off)
  {
    if b.taken.Some? {
      var last := |b.insns| - 1;
      forall k | 0 <= k < last
        ensures WfInsn(b.insns[k], nregs) && !IsControl(b.insns[k].code) && FitsInt16(b.insns[k].off)
      {
        assert b.insns[..last][k] == b.insns[k];
      }
    }
  }

  ghost predicate Handed(p: seq<Block>, nregs: nat, defs: seq<set<nat>>, b: nat) {
    b < |p| == |defs| && WfBlock(p[b], nregs, |p|) && (p[b].insns != [] ==> Forwards(p[b]).None?) && Descends(p, b)
    && p[b].taken != Some(0) && p[b].fallthru != Some(0)
    && LiveBefore(p[b].insns, AtSuccs(p[b], defs)) <= defs[b]
       && forall k | 0 <= k < |p[b].insns| :: FitsInt16(p[b].insns[k].off)
  }

  ghost predicate AllHanded(p: seq<Block>, nregs: nat, defs: seq<set<nat>>) {
    |defs| == |p| && MAX_BPF_REG <= nregs && 0 < |p| && p[0].insns != []
    && forall b: nat {:trigger Handed(p, nregs, defs, b)} | b < |p| :: Handed(p, nregs, defs, b)
  }

  /** Ending the last block makes every block one that generate can take. */
  lemma ExitHands(g: Gen, defs: seq<set<nat>>, have: set<nat>)
    requires Fits(g, {}, defs, have) && Open(g) && 0 in have
    ensures AllHanded(Emit(g, EXIT).blocks, g.nregs, defs)
  {
    var p, c := Emit(g, EXIT).blocks, g.cur.value;
    assert BlockFits(g, {}, defs, have, 0);
    forall b: nat | b < |p| ensures Handed(p, g.nregs, defs, b) {
      assert BlockFits(g, {}, defs, have, b);
      if b == c {
        LastBlock(g.blocks[c], g.nregs, have, defs[c]);
        assert AtSuccs(p[c], defs) == {};
      } else {
        DoneBlock(p[b], g.nregs, |p|);
      }
    }
  }

  /** `have`: the registers the program may read before it sets them. */
  lemma ReturnHands(st: Stmt, e: Expr, nregs: nat, have: set<nat>) returns (defs: seq<set<nat>>)
    requires MAX_BPF_REG <= nregs && WfStmt(st, nregs) && WfExpr(e, nregs) && SetFirst(st, have)
    requires Locals(e) <= SetAfter(st, have)
    ensures var g := ReturnGen(st, e, nregs); AllHanded(g.blocks, g.nregs, defs) && defs[0] == have
  {
    var g0 := FirstGen(nregs);
    var g1 := GenStmt(st, g0);
    var (g2, v) := GenExpr(e, g1);
    assert BlockFits(g0, {}, [have], have, 0);
    ReturnContinues(st, e, nregs);
    var defs1, have1 := StmtFits(st, g0, {}, [have], have);
    var have2;
    defs, have2 := ExprFits(e, g1, {}, defs1, have1);
    MovFits(g2, {}, defs, have2, 0, v);
    ExitHands(MkMov(g2, 0, v), defs, have2 + {0});
  }

  lemma HandedWf(p: seq<Block>, nregs: nat, defs: seq<set<nat>>)
    requires AllHanded(p, nregs, defs)
    ensures WfBlocks(p, nregs)
  {
    forall b | 0 <= b < |p| ensures WfBlock(p[b], nregs, |p|) { assert Handed(p, nregs, defs, b); }
  }

  lemma HandedClosed(p: seq<Block>, nregs: nat, defs: seq<set<nat>>)
    requires AllHanded(p, nregs, defs)
    ensures Closed(p, defs) && EntryFirst(p)
  {
    forall b | 0 <= b < |p|
      ensures p[b].taken != Some(0) && p[b].fallthru != Some(0)
    {
      assert Handed(p, nregs, defs, b);
    }
    forall b | 0 <= b < |p|
      ensures LiveBefore(p[b].insns, AtSuccs(p[b], defs)) <= defs[b]
    {
      assert Handed(p, nregs, defs, b);
    }
  }

  lemma HandedPlain(p: seq<Block>, nregs: nat, defs: seq<set<nat>>)
    requires AllHanded(p, nregs, defs)
    ensures OffsetsFit(p) && (InBounds(ForwardsOf(p)) ==> Threadable(ForwardsOf(p)))
  {
    forall b | 0 <= b < |p|
      ensures forall k | 0 <= k < |p[b].insns| :: FitsInt16(p[b].insns[k].off)
    {
      assert Handed(p, nregs, defs, b);
    }
    if InBounds(ForwardsOf(p)) {
      forall b: nat | b < |p|
        ensures Descends(p, b) && ForwardsOf(p)[b] == if p[b].insns == [] then p[b].fallthru else None
      {
        assert Handed(p, nregs, defs, b);
      }
      forall i: nat | i < |p| ensures !Endless(ForwardsOf(p), i) {
        var k := DescendsEnds(p, ForwardsOf(p), i);
      }
    }
  }

  /** Such a program is all that generate asks for but ready operands. */
  lemma HandedSource(p: seq<Block>, nregs: nat, defs: seq<set<nat>>)
    requires AllHanded(p, nregs, defs)
    ensures Source(p, nregs) <==> AllReady(p)
  {
    HandedWf(p, nregs, defs);
    HandedClosed(p, nregs, defs);
    HandedPlain(p, nregs, defs);
  }

  lemma {:induction false} LocalsBelow(e: Expr, n: nat)
    requires WfExpr(e, n)
    ensures Locals(e) <= Below(n)
    decreases e
  {
    match e
    case Lit(_) =>
    case Local(r) => InBelow(n, r);
    case Negate(a) => LocalsBelow(a, n);
    case Complement(a) => LocalsBelow(a, n);
    case Not(a) => LocalsBelow(a, n);
    case UnaryPlus(a) => LocalsBelow(a, n);
    case Bin(_, x, y) => LocalsBelow(x, n); LocalsBelow(y, n);
    case LogicalOr(x, y) => LocalsBelow(x, n); LocalsBelow(y, n);
    case LogicalAnd(x, y) => LocalsBelow(x, n); LocalsBelow(y, n);
    case Compare(_, x, y) => LocalsBelow(x, n); LocalsBelow(y, n);
    case Ternary(c, x, y) => LocalsBelow(c, n); LocalsBelow(x, n); LocalsBelow(y, n);
  }

  lemma {:induction false} StmtBelow(st: Stmt, n: nat)
    requires WfStmt(st, n)
    ensures SetFirst(st, Below(n)) && SetAfter(st, Below(n)) == Below(n)
    decreases st
  {
    match st
    case Skip =>
    case Assign(r, e) => LocalsBelow(e, n); InBelow(n, r);
    case Update(_, r, e) => LocalsBelow(e, n); InBelow(n, r);
    case Seq(a, b) => StmtBelow(a, n); StmtBelow(b, n);
    case If(c, a, b) => LocalsBelow(c, n); StmtBelow(a, n); StmtBelow(b, n);
    case When(c, a) => LocalsBelow(c, n); StmtBelow(a, n);
  }

  /** The generated program meets what generate asks of its input exactly when
      the script is slim. */
  lemma ReturnSource(st: Stmt, e: Expr, nregs: nat)
    requires MAX_BPF_REG <= nregs && WfStmt(st, nregs) && WfExpr(e, nregs)
    ensures var g := ReturnGen(st, e, nregs); Source(g.blocks, g.nregs) <==> SlimStmt(st) && Slim(e)
  {
    StmtBelow(st, nregs);
    LocalsBelow(e, nregs);
    var defs := ReturnHands(st, e, nregs, Below(nregs));
    HandedSource(ReturnGen(st, e, nregs).blocks, ReturnGen(st, e, nregs).nregs, defs);
    ReturnReady(st, e, nregs);
  }

  lemma ReturnReady(st: Stmt, e: Expr, nregs: nat)
    requires WfStmt(st, nregs) && WfExpr(e, nregs)
    ensures AllReady(ReturnGen(st, e, nregs).blocks) <==> SlimStmt(st) && Slim(e)
  {
    var g1 := GenStmt(st, FirstGen(nregs));
    var (g2, v) := GenExpr(e, g1);
    ReturnContinues(st, e, nregs);
    StmtReady(st, FirstGen(nregs));
    ExprReady(e, g1);
    ReadyMov(g2, 0, v);
    ReadyEmit(MkMov(g2, 0, v), EXIT);
  }

  /** What is live where the generated program starts, the script reads before it
      sets it; a script that sets every variable first leaves a clean entry. */
  lemma ReturnLives(st: Stmt, e: Expr, nregs: nat, have: set<nat>, r: nat)
    requires MAX_BPF_REG <= nregs && WfStmt(st, nregs) && WfExpr(e, nregs) && SetFirst(st, have)
    requires Locals(e) <= SetAfter(st, have)
    requires LiveAt(ReturnGen(st, e, nregs).blocks, 0, r)
    ensures r in have
  {
    var p := ReturnGen(st, e, nregs).blocks;
    var defs := ReturnHands(st, e, nregs, have);
    HandedClosed(p, ReturnGen(st, e, nregs).nregs, defs);
    var path :| PathFrom(p, path, 0, r);
    ClosedIsComplete(p, defs, path, r);
  }

  // ----- through every pass -----

  /** The values the registers of the script start with: hard registers as they
      are, a spilled variable zero, any other variable what its hard register
      happens to hold. */
  ghost predicate StartsWith(m: RegFile, s: State, h: Homes) {
    forall r: nat {:trigger Get(m, r)} ::
      (r < MAX_BPF_REG ==> Get(m, r) == Get(s.regs, r))
      && Get(m, r) == if r in h.spilled then 0 else Get(s.regs, Renaming.At(h.colors, r))
  }

  /** From s the flat code of q returns the value of e after st, from these
      starting values, and calls nothing. */
  ghost predicate ReturnsFrom(sem: Sem, args: nat -> nat, st: Stmt, e: Expr, q: seq<Block>, h: Homes, s: State) {
    exists o, m :: Halts(FlatStepping(sem, args, Code(q)), Goto(0, s), o) && StartsWith(m, s, h)
      && Get(o.regs, 0) == ValueOf(st, e, m) && o.trace == s.trace
  }

  lemma GenStarts(s: State, h: Homes, maxReg: nat)
    requires Placed(h) && maxReg == 8 * |h.spilled| < 0x1_0000_0000
    ensures StartsWith(GenStart(s, h, 0, maxReg).regs, s, h)
  {
    var m := GenStart(s, h, 0, maxReg).regs;
    forall r: nat
      ensures (r < MAX_BPF_REG ==> Get(m, r) == Get(s.regs, r))
      ensures Get(m, r) == if r in h.spilled then 0 else Get(s.regs, Renaming.At(h.colors, r))
    {
      GenStartIs(s, h, 0, maxReg, r);
      if r in h.spilled {
        var k :| 0 <= k < |h.spilled| && h.spilled[k] == r;
        SpilledStartAtZero(s, h, 0, maxReg, k);
      }
    }
  }

  /** The machine with the n slots in use protected. */
  lemma GuardedRuns(sem: Sem, s: State, n: nat, maxTmp: nat) returns (m: Sem)
    requires Standard(sem) && Framed(sem) && sem.guard == {} && maxTmp < 0x1_0000_0000
    requires n > 0 ==> SlotOff(n - 1, maxTmp) < 0x1_0000_0000
    ensures Standard(m) && RunsOn(m, s, n, maxTmp) && m.(guard := {}) == sem
    ensures m.guard == SlotBytes(Get(s.regs, FRAME), n, maxTmp)
  {
    var fp, limit := Get(s.regs, FRAME), if n == 0 then maxTmp else SlotOff(n - 1, maxTmp);
    m := sem.(guard := SlotBytes(fp, n, maxTmp));
    StandardCommutes(m);
    FramedGuard(sem, m.guard);
    SlotBytesProtect(fp, n, maxTmp);
    SlotBytesIn(fp, n, maxTmp, limit);
    StackUnguarded(m.guard, fp, maxTmp, limit);
  }

  /** A halt of the original program is one of the flat code. */
  lemma FlatHalts(m: Sem, s: State, args: nat -> nat, p: seq<Block>, q: seq<Block>, h: Homes, maxTmp: nat, maxReg: nat,
                  o: State)
    returns (o': State)
    requires Generated(p, q, h, maxTmp, maxReg) && RunsOn(m, s, |h.spilled|, maxTmp) && Small(q, args)
    requires Halts(Stepping(m, p), Goto(0, GenStart(s, h, maxTmp, maxReg)), o)
    ensures Halts(FlatStepping(m.(guard := {}), args, Code(q)), Goto(0, s), o')
    ensures SameView(o, o', m.guard)
  {
    var s0 := GenStart(s, h, maxTmp, maxReg);
    HaltsSafe(Stepping(m, p), Goto(0, s0), o);
    FlatGenerated(m, s, args, p, q, h, maxTmp, maxReg);
    o' := HaltsAlike(Stepping(m, p), Goto(0, s0), FlatStepping(m.(guard := {}), args, Code(q)), Goto(0, s), m.guard, o);
  }

  lemma BytecodeHalts(sem: Sem, st: Stmt, e: Expr, nregs: nat, s: State, args: nat -> nat, q: seq<Block>, h: Homes,
                      maxReg: nat)
    returns (o: State)
    requires Standard(sem) && Framed(sem) && sem.guard == {} && WfStmt(st, nregs) && WfExpr(e, nregs)
    requires 8 * |h.spilled| < 0x1_0000_0000
    requires Generated(ReturnGen(st, e, nregs).blocks, q, h, 0, maxReg) && Small(q, args)
    ensures Halts(FlatStepping(sem, args, Code(q)), Goto(0, s), o)
    ensures Get(o.regs, 0) == ValueOf(st, e, GenStart(s, h, 0, maxReg).regs)
    ensures o.trace == GenStart(s, h, 0, maxReg).trace
  {
    var m := GuardedRuns(sem, s, |h.spilled|, 0);
    var o1 := ReturnHalts(m, st, e, nregs, GenStart(s, h, 0, maxReg));
    o := FlatHalts(m, s, args, ReturnGen(st, e, nregs).blocks, q, h, 0, maxReg, o1);
  }

  /** Through every pass: the bytecode, run by program counter on any machine
      with the standard operators, from any state, returns the value the script
      does, and calls nothing. */
  lemma BytecodeReturns(sem: Sem, st: Stmt, e: Expr, nregs: nat, s: State, args: nat -> nat, q: seq<Block>, h: Homes,
                        maxReg: nat)
    requires Standard(sem) && Framed(sem) && sem.guard == {} && WfStmt(st, nregs) && WfExpr(e, nregs)
    requires Placed(h) && maxReg == 8 * |h.spilled| < 0x1_0000_0000
    requires Generated(ReturnGen(st, e, nregs).blocks, q, h, 0, maxReg) && Small(q, args)
    ensures ReturnsFrom(sem, args, st, e, q, h, s)
  {
    var o := BytecodeHalts(sem, st, e, nregs, s, args, q, h, maxReg);
    GenStarts(s, h, maxReg);
    GenStartIs(s, h, 0, maxReg, 0);
  }

  const HARD: set<nat> := set r: nat | r < MAX_BPF_REG

  /** When the script sets every variable before it reads it, the value does not
      depend on where the variables live. */
  lemma ReturnsAlike(st: Stmt, e: Expr, s: State, h: Homes, m: RegFile)
    requires StartsWith(m, s, h) && SetFirst(st, HARD) && Locals(e) <= SetAfter(st, HARD)
    ensures ValueOf(st, e, m) == ValueOf(st, e, s.regs)
  {
    assert Agree(HARD, m, s.regs);
    PerformAgrees(st, HARD, m, s.regs);
    EvalAgrees(e, SetAfter(st, HARD), Perform(st, m), Perform(st, s.regs));
  }

  // ----- the compiler -----

  /** What the flat code of q returns, from every state, on every machine. */
  ghost predicate Returns(st: Stmt, e: Expr, q: seq<Block>, h: Homes) {
    forall sem, args, s {:trigger ReturnsFrom(sem, args, st, e, q, h, s)} |
      Standard(sem) && Framed(sem) && sem.guard == {} && Small(q, args) :: ReturnsFrom(sem, args, st, e, q, h, s)
  }

  /** Code generation of the whole program: registers for the local variables, the
      statement, the value. */
  method Build(st: Stmt, e: Expr, locals: nat, limit: nat) returns (p: Program)
    requires WfStmt(st, MAX_BPF_REG + locals) && WfExpr(e, MAX_BPF_REG + locals)
    ensures fresh(p) && p.blocks == ReturnGen(st, e, MAX_BPF_REG + locals).blocks
    ensures p.nregs == ReturnGen(st, e, MAX_BPF_REG + locals).nregs
    ensures |p.prevs| == |p.blocks| && p.maxTmpSpace == p.maxRegSpace == 0 && p.stackLimit == limit
  {
    p := new Program(limit);
    var u := new Unparser.Unparser(p);
    var b := p.NewBlock();
    u.cur := Some(b);
    for k := 0 to locals
      invariant u.Valid() && u.Now() == FirstGen(MAX_BPF_REG + k)
      invariant u.prog == p && p.maxTmpSpace == p.maxRegSpace == 0 && p.stackLimit == limit
    {
      var r := p.NewReg();
    }
    ReturnContinues(st, e, MAX_BPF_REG + locals);
    u.EmitStmt(st);
    var v := u.EmitExpr(e);
    u.EmitMov(0, v);
    u.Append(EXIT);
  }

  /** What a buffer holds after relocation: the code of a program that returns
      the value of e after st, in the encoder's form if the stack allows it. */
  ghost predicate HoldsReturn(st: Stmt, e: Expr, buf: array<Raw>, rel: map<nat, int>, h: Homes, limit: nat)
    reads buf
  {
    exists q :: Emitted(buf, rel, buf.Length, Code(q)) && Returns(st, e, q, h) && (limit <= 0x8000 ==> Encodable(q))
  }

  /** Code generation and generate. */
  method BuildAll(st: Stmt, e: Expr, locals: nat, limit: nat)
    returns (p: Program, ids: Result<seq<seq<nat>>>, ghost h: Homes, ghost front: seq<Block>)
    requires WfStmt(st, MAX_BPF_REG + locals) && WfExpr(e, MAX_BPF_REG + locals) && SlimStmt(st) && Slim(e)
    requires limit < 0x1_0000_0000
    ensures fresh(p)
    ensures var g := ReturnGen(st, e, MAX_BPF_REG + locals);
      Reported(g.blocks, g.nregs, 0, front, h.spilled, limit, ids.Err?)
    ensures ids.Ok? ==> Numbered(p.blocks, ids.value) && Deliverable(p.blocks, 0, p.maxRegSpace)
    ensures ids.Ok? ==> Placed(h) && MAX_BPF_REG + locals <= |h.colors| && p.maxRegSpace == 8 * |h.spilled| <= limit
    ensures ids.Ok? ==> Generated(ReturnGen(st, e, MAX_BPF_REG + locals).blocks, p.blocks, h, 0, p.maxRegSpace)
  {
    p := Build(st, e, locals, limit);
    SlimIsSource(st, e, MAX_BPF_REG + locals);
    ids, h, front := Generate(p);
  }

  lemma SlimIsSource(st: Stmt, e: Expr, nregs: nat)
    requires MAX_BPF_REG <= nregs && WfStmt(st, nregs) && WfExpr(e, nregs) && SlimStmt(st) && Slim(e)
    ensures var g := ReturnGen(st, e, nregs); Source(g.blocks, g.nregs) && nregs <= g.nregs
  {
    ReturnSource(st, e, nregs);
    ReturnContinues(st, e, nregs);
  }

  /** From a script over local variables to its bytecode: code generation,
      generate, output_probe. */
  method Compile(st: Stmt, e: Expr, locals: nat, limit: nat)
    returns (res: Result<(array<Raw>, map<nat, int>)>, ghost h: Homes, ghost front: seq<Block>)
    requires WfStmt(st, MAX_BPF_REG + locals) && WfExpr(e, MAX_BPF_REG + locals) && SlimStmt(st) && Slim(e)
    requires limit < 0x1_0000_0000
    ensures res.Ok? ==>
      Placed(h) && MAX_BPF_REG + locals <= |h.colors| && HoldsReturn(st, e, res.value.0, res.value.1, h, limit)
    ensures var g := ReturnGen(st, e, MAX_BPF_REG + locals);
      Reported(g.blocks, g.nregs, 0, front, h.spilled, limit, res.Err?)
  {
    var p, ids;
    p, ids, h, front := BuildAll(st, e, locals, limit);
    if ids.Err? { return Err(ids.error), h, front; }
    ghost var q := p.blocks;
    AlwaysReturns(st, e, MAX_BPF_REG + locals, q, h, p.maxRegSpace);
    var buf, rel := OutputProbe(p, ids.value);
    res := Ok((buf, rel));
    assert Emitted(buf, rel, buf.Length, Code(q)) && Returns(st, e, q, h) && (limit <= 0x8000 ==> Encodable(q));
  }

  lemma AlwaysReturns(st: Stmt, e: Expr, nregs: nat, q: seq<Block>, h: Homes, maxReg: nat)
    requires WfStmt(st, nregs) && WfExpr(e, nregs) && Placed(h) && maxReg == 8 * |h.spilled| < 0x1_0000_0000
    requires Generated(ReturnGen(st, e, nregs).blocks, q, h, 0, maxReg)
    ensures Returns(st, e, q, h)
  {
    forall sem, args, s | Standard(sem) && Framed(sem) && sem.guard == {} && Small(q, args)
      ensures ReturnsFrom(sem, args, st, e, q, h, s)
    {
      BytecodeReturns(sem, st, e, nregs, s, args, q, h, maxReg);
    }
  }

  /** Where every division come to is one the machine gets right, the value is
      the one the script means. */
  lemma ReturnsMeant(st: Stmt, e: Expr, m: RegFile)
    requires DividesStmt(st, m) && Divides(e, Perform(st, m))
    ensures var m' := MeantAfter(st, m);
      m'.Some? && MeantValue(e, m'.value).Some? && ValueOf(st, e, m) == Wrap(MeantValue(e, m'.value).value)
  {
    AfterIs(st, m);
    ValueIs(e, Perform(st, m));
  }
}
