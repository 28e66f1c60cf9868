/** What the prologue and the epilogue of a handler do: the body is reached, and
    errors are counted, exactly as `Errors` has it. */
module HandlerRuns {
  import opened Ir
  import opened Machine
  import opened Simulation
  import opened Script
  import opened Fixup
  import opened Errors
  import opened Handlers

  // ----- blocks -----

  lemma BranchStep(sem: Sem, pre: seq<Insn>, test: Insn, t: nat, f: nat, s: State, s1: State)
    requires test.code.Jcond? && Run(sem, pre, s) == Fall(s1)
    ensures StepBlock(sem, Block(pre + [test], Some(t), Some(f)), s) ==
      Goto(if TestInsn(sem, test, s1.regs) then t else f, s1)
  {
    RunAppend(sem, pre, [test], s);
    RunOne(sem, test, s1);
  }

  lemma TestsAre(sem: Sem, r: nat, limit: nat, m: RegFile)
    requires limit < 0x8000_0000
    ensures TestInsn(sem, ZeroTest(r), m) == (Get(m, r) == 0) && TestInsn(sem, OneTest(r), m) == (Get(m, r) == 1)
    ensures TestInsn(sem, OverTest(r, limit), m) == (Signed(Get(m, r)) > limit)
  {
    assert Wrap(0) == 0 && Wrap(1) == 1 && Wrap(limit) == limit;
  }

  /** The frame pointer is fp, and memory holds w. */
  ghost predicate Stands(mp: Maps, fp: Word, s: State, w: World) {
    Get(s.regs, FRAME) == fp && Shows(mp, s.mem, Sent(s.trace), w)
  }

  ghost predicate SameAbove(s: State, s': State) {
    forall r: nat | r > 5 :: Get(s'.regs, r) == Get(s.regs, r)
  }

  lemma CalledSent(s: State, s': State, id: int, r0: Word, m: Mem)
    requires Called(s, s', id, r0, m)
    ensures Sent(s'.trace) == Sent(s.trace) + if id == OUTPUT then 1 else 0
  {
    assert s'.trace == s.trace + [s'.trace[|s.trace|]];
    SentMore(s.trace, s'.trace[|s.trace|]);
  }

  /** A lookup and the test of its result. */
  lemma LookupShows(sem: Sem, mp: Maps, key: nat, fp: Word, s: State, w: World) returns (s': State)
    requires HasHelpers(sem, mp) && Apart(sem, mp, fp) && Free(sem, fp, -4, 4) && key < 2 && Stands(mp, fp, s, w)
    ensures Run(sem, LookupInsns(key), s) == Fall(s') && Stands(mp, fp, s', w) && SameAbove(s, s')
    ensures Get(s'.regs, 0) == if key in mp.slots then mp.slots[key] else 0
  {
    s' := LookupRuns(sem, mp, key, s);
    FrameShows(sem, mp, fp, s.mem, Sent(s.trace), w, -4, 4, key);
    CalledSent(s, s', LOOKUP, Get(s'.regs, 0), s'.mem);
  }

  lemma LookupStep(sem: Sem, mp: Maps, pre: seq<Insn>, key: nat, t: nat, f: nat, fp: Word, s0: State, s: State,
                   w: World)
    returns (s': State)
    requires HasHelpers(sem, mp) && Apart(sem, mp, fp) && Free(sem, fp, -4, 4) && key < 2 && Stands(mp, fp, s, w)
    requires Run(sem, pre, s0) == Fall(s)
    ensures StepBlock(sem, Block(pre + (LookupInsns(key) + [ZeroTest(0)]), Some(t), Some(f)), s0) ==
      Goto(if key in mp.slots then f else t, s')
    ensures Stands(mp, fp, s', w) && SameAbove(s, s') && (key in mp.slots ==> Get(s'.regs, 0) == mp.slots[key])
  {
    s' := LookupShows(sem, mp, key, fp, s, w);
    RunAppend(sem, pre, LookupInsns(key), s0);
    assert pre + (LookupInsns(key) + [ZeroTest(0)]) == (pre + LookupInsns(key)) + [ZeroTest(0)];
    BranchStep(sem, pre + LookupInsns(key), ZeroTest(0), t, f, s0, s');
    TestsAre(sem, 0, 0, s'.regs);
  }

  lemma AddrZero(a: Word)
    ensures Addr(a, 0) == a
  {
  }

  /** The value R0 points to. */
  lemma ValueLoaded(sem: Sem, d: nat, a: Word, v: Word, s: State)
    requires Get(s.regs, 0) == a && Range(a, 8) !! sem.guard && v == ValueAt(s.mem, a)
    ensures Run(sem, [LoadValue(d)], s) == Fall(s.(regs := s.regs[d := v]))
  {
    AddrZero(a);
    RunOne(sem, LoadValue(d), s);
    assert Exec(sem, LoadValue(d), s) == DoLoad(sem, a, SDW, Some(d), s);
  }

  lemma ValueStep(sem: Sem, d: nat, a: Word, v: Word, test: Insn, t: nat, f: nat, s: State) returns (s': State)
    requires Get(s.regs, 0) == a && Range(a, 8) !! sem.guard && test.code.Jcond? && v == ValueAt(s.mem, a)
    ensures s' == s.(regs := s.regs[d := v])
    ensures StepBlock(sem, Block([LoadValue(d), test], Some(t), Some(f)), s) ==
      Goto(if TestInsn(sem, test, s'.regs) then t else f, s')
  {
    s' := s.(regs := s.regs[d := v]);
    ValueLoaded(sem, d, a, v, s);
    BranchStep(sem, [LoadValue(d)], test, t, f, s, s');
    assert [LoadValue(d)] + [test] == [LoadValue(d), test];
  }

  /** What R0 points to after a lookup. */
  lemma Looked(mp: Maps, fp: Word, key: nat, s: State, w: World) returns (v: Word)
    requires Stands(mp, fp, s, w) && key in mp.slots
    ensures v == ValueAt(s.mem, mp.slots[key]) && key in w.entries && w.entries[key] == Signed(v)
  {
    v := ValueAt(s.mem, mp.slots[key]);
    assert key in w.entries.Keys;
  }

  // ----- the prologue -----

  lemma EntryMoves(sem: Sem, es: nat, s: State)
    ensures Run(sem, [Mov(6, Reg(1)), Mov(es, Imm(0))], s) == Fall(s.(regs := s.regs[6 := Get(s.regs, 1)][es := 0]))
  {
    var s1 := s.(regs := s.regs[6 := Get(s.regs, 1)]);
    Moved(sem, 6, Reg(1), s);
    Then(sem, Mov(6, Reg(1)), [Mov(es, Imm(0))], s, s1);
    Moved(sem, es, Imm(0), s1);
    RunOne(sem, Mov(es, Imm(0)), s1);
    assert [Mov(6, Reg(1))] + [Mov(es, Imm(0))] == [Mov(6, Reg(1)), Mov(es, Imm(0))];
  }

  /** Between the blocks of the prologue: the error status is clear, the context
      is in R6. */
  ghost predicate Prologued(mp: Maps, es: nat, fp: Word, ctx: Word, s: State, w: World) {
    Stands(mp, fp, s, w) && Get(s.regs, es) == 0 && Get(s.regs, 6) == ctx
  }

  /** From block 0: a lookup of the exit flag. */
  ghost predicate EntryActs(mp: Maps, es: nat, fp: Word, s: State, w: World, x: Step) {
    x.Goto? && x.b == (if Errors.EXIT in mp.slots then 6 else EPILOGUE)
    && Prologued(mp, es, fp, Get(s.regs, 1), x.s, w)
       && (Errors.EXIT in mp.slots ==> Get(x.s.regs, 0) == mp.slots[Errors.EXIT])
  }

  /** From block 6: the flag itself. */
  ghost predicate ExitActs(mp: Maps, es: nat, fp: Word, s: State, w: World, x: Step) {
    Errors.EXIT in w.entries && x.Goto? && x.b == (if w.entries[Errors.EXIT] == 1 then EPILOGUE else 7)
    && Prologued(mp, es, fp, Get(s.regs, 6), x.s, w)
  }

  /** From block 7: a lookup of the error count. */
  ghost predicate CountActs(mp: Maps, es: nat, fp: Word, s: State, w: World, x: Step) {
    x.Goto? && x.b == (if ERRORS in mp.slots then 8 else EPILOGUE)
    && Prologued(mp, es, fp, Get(s.regs, 6), x.s, w) && (ERRORS in mp.slots ==> Get(x.s.regs, 0) == mp.slots[ERRORS])
  }

  /** From block 8: the count itself. */
  ghost predicate LimitActs(mp: Maps, es: nat, limit: nat, fp: Word, s: State, w: World, x: Step) {
    ERRORS in w.entries && x.Goto? && x.b == (if w.entries[ERRORS] > limit then EPILOGUE else BODY)
    && Prologued(mp, es, fp, Get(s.regs, 6), x.s, w)
  }

  ghost predicate Points(mp: Maps, key: nat, s: State) {
    key in mp.slots && Get(s.regs, 0) == mp.slots[key]
  }

  /** A machine on which the blocks of the prologue act as they should. */
  ghost predicate Prologues(step: Stepper, mp: Maps, es: nat, limit: nat, fp: Word) {
    (forall s: State, w: World {:trigger EntryActs(mp, es, fp, s, w, step(0, s))} | Stands(mp, fp, s, w) ::
         EntryActs(mp, es, fp, s, w, step(0, s)))
    && (forall s: State, w: World {:trigger ExitActs(mp, es, fp, s, w, step(6, s))} |
          Prologued(mp, es, fp, Get(s.regs, 6), s, w) && Points(mp, Errors.EXIT, s) ::
          ExitActs(mp, es, fp, s, w, step(6, s)))
    && (forall s: State, w: World {:trigger CountActs(mp, es, fp, s, w, step(7, s))} |
         Prologued(mp, es, fp, Get(s.regs, 6), s, w) :: CountActs(mp, es, fp, s, w, step(7, s)))
    && (forall s: State, w: World {:trigger LimitActs(mp, es, limit, fp, s, w, step(8, s))} |
          Prologued(mp, es, fp, Get(s.regs, 6), s, w) && Points(mp, ERRORS, s) ::
          LimitActs(mp, es, limit, fp, s, w, step(8, s)))
  }

  lemma RegisterKeeps(mp: Maps, es: nat, fp: Word, ctx: Word, s: State, w: World, d: nat, v: Word)
    requires Prologued(mp, es, fp, ctx, s, w) && d > FRAME && d != es
    ensures Prologued(mp, es, fp, ctx, s.(regs := s.regs[d := v]), w)
  {
  }

  lemma EntryStep(sem: Sem, mp: Maps, es: nat, fp: Word, s: State, w: World, x: Step)
    requires HasHelpers(sem, mp) && Apart(sem, mp, fp) && Free(sem, fp, -4, 4) && Stands(mp, fp, s, w)
    requires MAX_BPF_REG <= es
    requires x ==
      StepBlock(sem,
                Block([Mov(6, Reg(1)), Mov(es, Imm(0))] + (LookupInsns(Errors.EXIT) + [ZeroTest(0)]), Some(1), Some(6)),
                s)
    ensures EntryActs(mp, es, fp, s, w, x)
  {
    var s1 := s.(regs := s.regs[6 := Get(s.regs, 1)][es := 0]);
    EntryMoves(sem, es, s);
    var s' := LookupStep(sem, mp, [Mov(6, Reg(1)), Mov(es, Imm(0))], Errors.EXIT, 1, 6, fp, s, s1, w);
  }

  lemma CountLooked(sem: Sem, mp: Maps, es: nat, fp: Word, s: State, w: World, x: Step)
    requires HasHelpers(sem, mp) && Apart(sem, mp, fp) && Free(sem, fp, -4, 4)
    requires Prologued(mp, es, fp, Get(s.regs, 6), s, w) && MAX_BPF_REG <= es
    requires x == StepBlock(sem, Block(LookupInsns(ERRORS) + [ZeroTest(0)], Some(1), Some(8)), s)
    ensures CountActs(mp, es, fp, s, w, x)
  {
    RunOne(sem, LEAVE, s);
    var s' := LookupStep(sem, mp, [], ERRORS, 1, 8, fp, s, s, w);
    assert [] + (LookupInsns(ERRORS) + [ZeroTest(0)]) == LookupInsns(ERRORS) + [ZeroTest(0)];
  }

  lemma ExitTested(sem: Sem, d: nat, a: Word, v: Word, s: State) returns (s': State)
    requires Get(s.regs, 0) == a && Range(a, 8) !! sem.guard && v == ValueAt(s.mem, a)
    ensures s' == s.(regs := s.regs[d := v])
    ensures StepBlock(sem, Block([LoadValue(d), OneTest(d)], Some(1), Some(7)), s) ==
      Goto(if Signed(v) == 1 then EPILOGUE else 7, s')
  {
    s' := ValueStep(sem, d, a, v, OneTest(d), 1, 7, s);
    TestsAre(sem, d, 0, s'.regs);
  }

  lemma LimitTested(sem: Sem, d: nat, limit: nat, a: Word, v: Word, s: State) returns (s': State)
    requires Get(s.regs, 0) == a && Range(a, 8) !! sem.guard && v == ValueAt(s.mem, a) && limit < 0x8000_0000
    ensures s' == s.(regs := s.regs[d := v])
    ensures StepBlock(sem, Block([LoadValue(d), OverTest(d, limit)], Some(1), Some(9)), s) ==
      Goto(if Signed(v) > limit then EPILOGUE else BODY, s')
  {
    s' := ValueStep(sem, d, a, v, OverTest(d, limit), 1, 9, s);
    TestsAre(sem, d, limit, s'.regs);
  }

  lemma ExitDecides(mp: Maps, es: nat, d: nat, fp: Word, s: State, w: World, v: Word, x: Step)
    requires Prologued(mp, es, fp, Get(s.regs, 6), s, w) && MAX_BPF_REG <= es < d && Errors.EXIT in w.entries
    requires w.entries[Errors.EXIT] == Signed(v)
    requires x == Goto(if Signed(v) == 1 then EPILOGUE else 7, s.(regs := s.regs[d := v]))
    ensures ExitActs(mp, es, fp, s, w, x)
  {
    RegisterKeeps(mp, es, fp, Get(s.regs, 6), s, w, d, v);
  }

  lemma LimitDecides(mp: Maps, es: nat, d: nat, limit: nat, fp: Word, s: State, w: World, v: Word, x: Step)
    requires Prologued(mp, es, fp, Get(s.regs, 6), s, w) && MAX_BPF_REG <= es < d && ERRORS in w.entries
    requires w.entries[ERRORS] == Signed(v)
    requires x == Goto(if Signed(v) > limit then EPILOGUE else BODY, s.(regs := s.regs[d := v]))
    ensures LimitActs(mp, es, limit, fp, s, w, x)
  {
    RegisterKeeps(mp, es, fp, Get(s.regs, 6), s, w, d, v);
  }

  lemma ExitStep(sem: Sem, mp: Maps, es: nat, d: nat, fp: Word, s: State, w: World, x: Step)
    requires Prologued(mp, es, fp, Get(s.regs, 6), s, w) && MAX_BPF_REG <= es < d && Points(mp, Errors.EXIT, s)
    requires Range(mp.slots[Errors.EXIT], 8) !! sem.guard
    requires x == StepBlock(sem, Block([LoadValue(d), OneTest(d)], Some(1), Some(7)), s)
    ensures ExitActs(mp, es, fp, s, w, x)
  {
    var v := Looked(mp, fp, Errors.EXIT, s, w);
    var s' := ExitTested(sem, d, mp.slots[Errors.EXIT], v, s);
    ExitDecides(mp, es, d, fp, s, w, v, x);
  }

  lemma LimitStep(sem: Sem, mp: Maps, es: nat, d: nat, limit: nat, fp: Word, s: State, w: World, x: Step)
    requires Prologued(mp, es, fp, Get(s.regs, 6), s, w) && MAX_BPF_REG <= es < d && limit < 0x8000_0000
    requires Points(mp, ERRORS, s) && Range(mp.slots[ERRORS], 8) !! sem.guard
    requires x == StepBlock(sem, Block([LoadValue(d), OverTest(d, limit)], Some(1), Some(9)), s)
    ensures LimitActs(mp, es, limit, fp, s, w, x)
  {
    var v := Looked(mp, fp, ERRORS, s, w);
    var s' := LimitTested(sem, d, limit, mp.slots[ERRORS], v, s);
    LimitDecides(mp, es, d, limit, fp, s, w, v, x);
  }

  lemma BlockIs(sem: Sem, p: seq<Block>, q: HandlerRegs, limit: int, b: nat, s: State)
    requires HasHandler(p, q, limit) && b < BODY
    ensures Stepping(sem, p)(b, s) == StepBlock(sem, HandlerBlock(q, limit, b), s)
  {
  }

  /** The emitted blocks do, one by one. */
  lemma EntryBlock(sem: Sem, mp: Maps, p: seq<Block>, q: HandlerRegs, limit: nat, fp: Word, s: State, w: World)
    requires HasHelpers(sem, mp) && Apart(sem, mp, fp) && Free(sem, fp, -4, 4) && HasHandler(p, q, limit)
    requires Stands(mp, fp, s, w)
    ensures EntryActs(mp, q.status, fp, s, w, Stepping(sem, p)(0, s))
  {
    BlockIs(sem, p, q, limit, 0, s);
    EntryStep(sem, mp, q.status, fp, s, w, Stepping(sem, p)(0, s));
  }

  lemma ExitAt(sem: Sem, mp: Maps, p: seq<Block>, es: nat, d: nat, fp: Word, s: State, w: World)
    requires Prologued(mp, es, fp, Get(s.regs, 6), s, w) && MAX_BPF_REG <= es < d && Points(mp, Errors.EXIT, s)
    requires Range(mp.slots[Errors.EXIT], 8) !! sem.guard
    requires |p| > 6 && p[6] == Block([LoadValue(d), OneTest(d)], Some(1), Some(7))
    ensures ExitActs(mp, es, fp, s, w, Stepping(sem, p)(6, s))
  {
    ExitStep(sem, mp, es, d, fp, s, w, Stepping(sem, p)(6, s));
  }

  lemma LimitAt(sem: Sem, mp: Maps, p: seq<Block>, es: nat, d: nat, limit: nat, fp: Word, s: State, w: World)
    requires Prologued(mp, es, fp, Get(s.regs, 6), s, w) && MAX_BPF_REG <= es < d && limit < 0x8000_0000
    requires Points(mp, ERRORS, s) && Range(mp.slots[ERRORS], 8) !! sem.guard
    requires |p| > 8 && p[8] == Block([LoadValue(d), OverTest(d, limit)], Some(1), Some(9))
    ensures LimitActs(mp, es, limit, fp, s, w, Stepping(sem, p)(8, s))
  {
    LimitStep(sem, mp, es, d, limit, fp, s, w, Stepping(sem, p)(8, s));
  }

  lemma BlocksAre(p: seq<Block>, q: HandlerRegs, limit: int)
    requires HasHandler(p, q, limit)
    ensures p[6] == HandlerBlock(q, limit, 6) && p[8] == HandlerBlock(q, limit, 8)
    ensures p[2] == HandlerBlock(q, limit, 2) && p[4] == HandlerBlock(q, limit, 4) && p[5] == HandlerBlock(q, limit, 5)
  {
  }

  lemma CountBlock(sem: Sem, mp: Maps, p: seq<Block>, q: HandlerRegs, limit: nat, fp: Word, s: State, w: World)
    requires HasHelpers(sem, mp) && Apart(sem, mp, fp) && Free(sem, fp, -4, 4) && HasHandler(p, q, limit)
    requires Prologued(mp, q.status, fp, Get(s.regs, 6), s, w)
    ensures CountActs(mp, q.status, fp, s, w, Stepping(sem, p)(7, s))
  {
    BlockIs(sem, p, q, limit, 7, s);
    CountLooked(sem, mp, q.status, fp, s, w, Stepping(sem, p)(7, s));
  }

  /** The values both lookups point to may be read. */
  ghost predicate SlotsUsable(sem: Sem, mp: Maps) {
    (Errors.EXIT in mp.slots ==> Range(mp.slots[Errors.EXIT], 8) !! sem.guard)
    && (ERRORS in mp.slots ==> Range(mp.slots[ERRORS], 8) !! sem.guard)
  }

  lemma FlagBlock(sem: Sem, mp: Maps, p: seq<Block>, es: nat, d: nat, fp: Word)
    requires SlotsUsable(sem, mp) && MAX_BPF_REG <= es < d && |p| > BODY
    requires p[6] == Block([LoadValue(d), OneTest(d)], Some(1), Some(7))
    ensures forall s: State, w: World {:trigger ExitActs(mp, es, fp, s, w, Stepping(sem, p)(6, s))} |
      Prologued(mp, es, fp, Get(s.regs, 6), s, w) && Points(mp, Errors.EXIT, s) ::
      ExitActs(mp, es, fp, s, w, Stepping(sem, p)(6, s))
  {
    forall s: State, w: World | Prologued(mp, es, fp, Get(s.regs, 6), s, w) && Points(mp, Errors.EXIT, s)
      ensures ExitActs(mp, es, fp, s, w, Stepping(sem, p)(6, s))
    {
      ExitAt(sem, mp, p, es, d, fp, s, w);
    }
  }

  lemma LimitBlock(sem: Sem, mp: Maps, p: seq<Block>, es: nat, d: nat, limit: nat, fp: Word)
    requires SlotsUsable(sem, mp) && MAX_BPF_REG <= es < d && limit < 0x8000_0000 && |p| > BODY
    requires p[8] == Block([LoadValue(d), OverTest(d, limit)], Some(1), Some(9))
    ensures forall s: State, w: World {:trigger LimitActs(mp, es, limit, fp, s, w, Stepping(sem, p)(8, s))} |
      Prologued(mp, es, fp, Get(s.regs, 6), s, w) && Points(mp, ERRORS, s) ::
      LimitActs(mp, es, limit, fp, s, w, Stepping(sem, p)(8, s))
  {
    forall s: State, w: World | Prologued(mp, es, fp, Get(s.regs, 6), s, w) && Points(mp, ERRORS, s)
      ensures LimitActs(mp, es, limit, fp, s, w, Stepping(sem, p)(8, s))
    {
      LimitAt(sem, mp, p, es, d, limit, fp, s, w);
    }
  }

  lemma BlocksPrologue(sem: Sem, mp: Maps, p: seq<Block>, q: HandlerRegs, limit: nat, fp: Word)
    requires HasHelpers(sem, mp) && Apart(sem, mp, fp) && Free(sem, fp, -4, 4) && HasHandler(p, q, limit)
    ensures Prologues(Stepping(sem, p), mp, q.status, limit, fp)
  {
    var step := Stepping(sem, p);
    BlocksAre(p, q, limit);
    FlagBlock(sem, mp, p, q.status, q.flag, fp);
    LimitBlock(sem, mp, p, q.status, q.errors, limit, fp);
    forall s: State, w: World | Stands(mp, fp, s, w)
      ensures EntryActs(mp, q.status, fp, s, w, step(0, s))
    {
      EntryBlock(sem, mp, p, q, limit, fp, s, w);
    }
    forall s: State, w: World | Prologued(mp, q.status, fp, Get(s.regs, 6), s, w)
      ensures CountActs(mp, q.status, fp, s, w, step(7, s))
    {
      CountBlock(sem, mp, p, q, limit, fp, s, w);
    }
  }

  /** add_prologue: the body is reached exactly when the world admits it, otherwise
      the epilogue, with a clear error status; the world is as it was. */
  lemma PrologueRuns(step: Stepper, mp: Maps, es: nat, limit: nat, fp: Word, s: State, w: World)
    returns (n: nat, s': State)
    requires Prologues(step, mp, es, limit, fp) && Stands(mp, fp, s, w)
    ensures Steps(step, Goto(0, s), n) == Goto(if Admits(w, limit) then BODY else EPILOGUE, s')
    ensures Prologued(mp, es, fp, Get(s.regs, 1), s', w)
  {
    var x := step(0, s);
    assert EntryActs(mp, es, fp, s, w, step(0, s));
    n, s' := 1, x.s;
    assert Steps(step, Goto(0, s), 1) == Steps(step, x, 0) == x;
    if x.b == 6 {
      var y := step(6, x.s);
      assert ExitActs(mp, es, fp, x.s, w, step(6, x.s));
      n, s' := 2, y.s;
      assert Steps(step, x, 1) == Steps(step, y, 0) == y;
      if y.b == 7 {
        var k;
        k, s' := PrologueEnds(step, mp, es, limit, fp, y.s, w);
        n := k + 2;
        assert Steps(step, Goto(0, s), n) == Steps(step, x, k + 1) == Steps(step, y, k);
      }
    }
  }

  lemma PrologueEnds(step: Stepper, mp: Maps, es: nat, limit: nat, fp: Word, s: State, w: World)
    returns (n: nat, s': State)
    requires Prologues(step, mp, es, limit, fp) && Prologued(mp, es, fp, Get(s.regs, 6), s, w)
    ensures Steps(step, Goto(7, s), n) ==
      Goto(if ERRORS in w.entries && w.entries[ERRORS] <= limit then BODY else EPILOGUE, s')
    ensures Prologued(mp, es, fp, Get(s.regs, 6), s', w)
  {
    var x := step(7, s);
    assert CountActs(mp, es, fp, s, w, step(7, s));
    n, s' := 1, x.s;
    assert Steps(step, Goto(7, s), 1) == Steps(step, x, 0) == x;
    if x.b == 8 {
      var y := step(8, x.s);
      assert LimitActs(mp, es, limit, fp, x.s, w, step(8, x.s));
      n, s' := 2, y.s;
      assert Steps(step, x, 1) == Steps(step, y, 0) == y;
    } else {
      assert w.entries.Keys == mp.slots.Keys;
    }
  }

  // ----- the epilogue -----

  /** From block 2: the message, and a lookup of the error count. */
  ghost predicate ReportActs(mp: Maps, fp: Word, w: World, x: Step) {
    x.Goto? && x.b == (if ERRORS in mp.slots then 4 else 3)
    && Stands(mp, fp, x.s, w.(sent := w.sent + [PrintError])) && (ERRORS in mp.slots ==> Points(mp, ERRORS, x.s))
  }

  function Counted(w: World): int
    requires ERRORS in w.entries
  {
    ToInt64(w.entries[ERRORS] + 1)
  }

  /** From block 4: one more error. */
  ghost predicate AddActs(mp: Maps, limit: nat, fp: Word, w: World, x: Step) {
    ERRORS in w.entries && x.Goto? && x.b == (if Counted(w) > limit then 5 else 3)
    && Stands(mp, fp, x.s, w.(entries := w.entries[ERRORS := Counted(w)]))
  }

  /** From block 5: the hard error. */
  ghost predicate HardActs(mp: Maps, fp: Word, w: World, x: Step) {
    x.Goto? && x.b == 3 && Stands(mp, fp, x.s, w.(sent := w.sent + [HardError]))
  }

  ghost predicate Room(mp: Maps, w: World, n: nat) {
    |w.sent| + n <= |mp.cells|
  }

  /** A machine on which the first and the last block of the epilogue do. */
  ghost predicate QuietEpilogue(step: Stepper, es: nat) {
    (forall s {:trigger step(1, s)} :: step(1, s) == Goto(if Get(s.regs, es) == 0 then 3 else 2, s))
    && (forall s {:trigger step(3, s)} :: step(3, s) == Halt(s))
  }

  /** A machine on which the blocks of the epilogue act as they should. */
  ghost predicate Epilogues(step: Stepper, mp: Maps, es: nat, limit: nat, fp: Word) {
    QuietEpilogue(step, es)
    && (forall s, w {:trigger ReportActs(mp, fp, w, step(2, s))} | Stands(mp, fp, s, w) && Room(mp, w, 1) ::
         ReportActs(mp, fp, w, step(2, s)))
    && (forall s, w {:trigger AddActs(mp, limit, fp, w, step(4, s))} | Stands(mp, fp, s, w) && Points(mp, ERRORS, s) ::
         AddActs(mp, limit, fp, w, step(4, s)))
    && (forall s, w {:trigger HardActs(mp, fp, w, step(5, s))} | Stands(mp, fp, s, w) && Room(mp, w, 1) ::
         HardActs(mp, fp, w, step(5, s)))
  }

  /** Without an error the epilogue only leaves. */
  lemma QuietRuns(step: Stepper, es: nat, s: State)
    requires QuietEpilogue(step, es) && Get(s.regs, es) == 0
    ensures Steps(step, Goto(EPILOGUE, s), 2) == Halt(s)
  {
    assert Steps(step, Goto(1, s), 2) == Steps(step, Goto(3, s), 1) == Steps(step, Halt(s), 0);
  }

  /** add_epilogue: a handler that left with a set error status is counted and
      reported as `Errors.CountError` has it, any other leaves the world alone. */
  lemma EpilogueRuns(step: Stepper, mp: Maps, es: nat, limit: nat, fp: Word, s: State, w: World)
    returns (n: nat, o: State)
    requires Epilogues(step, mp, es, limit, fp) && Stands(mp, fp, s, w) && Room(mp, w, 2)
    ensures Steps(step, Goto(EPILOGUE, s), n) == Halt(o)
    ensures Stands(mp, fp, o, if Get(s.regs, es) != 0 then CountError(w, limit) else w)
  {
    if Get(s.regs, es) == 0 {
      n, o := 2, s;
      QuietRuns(step, es, s);
    } else {
      var k;
      k, o := ErrorRuns(step, mp, es, limit, fp, s, w);
      n := k + 1;
      assert Steps(step, Goto(1, s), n) == Steps(step, Goto(2, s), k);
    }
  }

  lemma LeaveRuns(step: Stepper, mp: Maps, es: nat, limit: nat, fp: Word, s: State)
    requires Epilogues(step, mp, es, limit, fp)
    ensures Steps(step, Goto(3, s), 1) == Halt(s)
  {
    assert Steps(step, Goto(3, s), 1) == Steps(step, Halt(s), 0);
  }

  lemma ErrorRuns(step: Stepper, mp: Maps, es: nat, limit: nat, fp: Word, s: State, w: World) returns (n: nat, o: State)
    requires Epilogues(step, mp, es, limit, fp) && Stands(mp, fp, s, w) && Room(mp, w, 2)
    ensures Steps(step, Goto(2, s), n) == Halt(o) && Stands(mp, fp, o, CountError(w, limit))
  {
    var x, told := step(2, s), w.(sent := w.sent + [PrintError]);
    assert ReportActs(mp, fp, w, step(2, s));
    assert w.entries.Keys == mp.slots.Keys;
    if x.b == 3 {
      LeaveRuns(step, mp, es, limit, fp, x.s);
      n, o := 2, x.s;
      assert Steps(step, Goto(2, s), 2) == Steps(step, x, 1);
    } else {
      var k;
      k, o := AddRuns(step, mp, es, limit, fp, x.s, told);
      n := k + 1;
      assert Steps(step, Goto(2, s), n) == Steps(step, x, k);
    }
  }

  lemma AddRuns(step: Stepper, mp: Maps, es: nat, limit: nat, fp: Word, s: State, w: World) returns (n: nat, o: State)
    requires Epilogues(step, mp, es, limit, fp) && Stands(mp, fp, s, w) && Room(mp, w, 1) && Points(mp, ERRORS, s)
    ensures ERRORS in w.entries && Steps(step, Goto(4, s), n) == Halt(o)
    ensures Stands(mp, fp, o,
                   w.(entries := w.entries[ERRORS := Counted(w)],
                      sent := w.sent + if Counted(w) <= limit then [] else [HardError]))
  {
    var y := step(4, s);
    assert AddActs(mp, limit, fp, w, step(4, s));
    var w' := w.(entries := w.entries[ERRORS := Counted(w)]);
    if y.b == 3 {
      LeaveRuns(step, mp, es, limit, fp, y.s);
      n, o := 2, y.s;
      assert w.sent + [] == w.sent;
      assert Steps(step, Goto(4, s), 2) == Steps(step, y, 1);
    } else {
      var z := step(5, y.s);
      assert HardActs(mp, fp, w', step(5, y.s));
      LeaveRuns(step, mp, es, limit, fp, z.s);
      n, o := 3, z.s;
      assert Steps(step, Goto(4, s), 3) == Steps(step, y, 2) == Steps(step, z, 1);
    }
  }

  // ----- its blocks -----

  lemma MessageStands(sem: Sem, mp: Maps, msg: Message, fp: Word, s: State, w: World) returns (s': State)
    requires HasHelpers(sem, mp) && Apart(sem, mp, fp) && Free(sem, fp, -8, 8) && Stands(mp, fp, s, w) && Room(mp, w, 1)
    ensures Run(sem, MessageInsns(MessageCode(msg)), s) == Fall(s') && Stands(mp, fp, s', w.(sent := w.sent + [msg]))
    ensures SameAbove(s, s')
  {
    var m, n := Store(s.mem, Addr(fp, -8), 8, MessageCode(msg)), Sent(s.trace);
    var r0;
    s', r0 := MessageRuns(sem, mp, MessageCode(msg), s, m);
    FrameShows(sem, mp, fp, s.mem, n, w, -8, 8, MessageCode(msg));
    MessageShows(sem, mp, fp, m, n, w, msg);
    CalledSent(s, s', OUTPUT, r0, s'.mem);
  }

  lemma ReportStep(sem: Sem, mp: Maps, fp: Word, s: State, w: World, x: Step)
    requires HasHelpers(sem, mp) && Apart(sem, mp, fp) && Free(sem, fp, -8, 8) && Free(sem, fp, -4, 4)
    requires Stands(mp, fp, s, w) && Room(mp, w, 1)
    requires x ==
      StepBlock(sem, Block(MessageInsns(STP_PRINT_ERROR_MSG) + (LookupInsns(ERRORS) + [ZeroTest(0)]), Some(3), Some(4)),
                s)
    ensures ReportActs(mp, fp, w, x)
  {
    var s1 := MessageStands(sem, mp, PrintError, fp, s, w);
    var s' := LookupStep(sem, mp, MessageInsns(STP_PRINT_ERROR_MSG), ERRORS, 3, 4, fp, s, s1,
                          w.(sent := w.sent + [PrintError]));
  }

  lemma HardStep(sem: Sem, mp: Maps, fp: Word, s: State, w: World, x: Step)
    requires HasHelpers(sem, mp) && Apart(sem, mp, fp) && Free(sem, fp, -8, 8) && Stands(mp, fp, s, w) && Room(mp, w, 1)
    requires x == StepBlock(sem, Block(MessageInsns(STP_ERROR), None, Some(3)), s)
    ensures HardActs(mp, fp, w, x)
  {
    var s1 := MessageStands(sem, mp, HardError, fp, s, w);
  }

  lemma Incremented(sem: Sem, d: nat, v: Word, c: Word, s: State)
    requires Standard(sem) && Get(s.regs, d) == v && c == Wrap(v as int + 1)
    ensures Run(sem, [Increment(d)], s) == Fall(s.(regs := s.regs[d := c]))
  {
    RunOne(sem, Increment(d), s);
    assert Wrap(1) == 1;
  }

  lemma TwoForm(a: Insn, b: Insn)
    ensures [a] + [b] == [a, b]
  {
  }

  lemma TwoSteps(sem: Sem, a: Insn, b: Insn, s: State, s1: State, s2: State)
    requires Run(sem, [a], s) == Fall(s1) && Run(sem, [b], s1) == Fall(s2)
    ensures Run(sem, [a, b], s) == Fall(s2)
  {
    RunAppend(sem, [a], [b], s);
    TwoForm(a, b);
  }

  lemma CountLoaded(sem: Sem, d: nat, a: Word, v: Word, c: Word, s: State) returns (s': State)
    requires Standard(sem) && Get(s.regs, 0) == a && Range(a, 8) !! sem.guard && v == ValueAt(s.mem, a)
    requires c == Wrap(v as int + 1)
    ensures Run(sem, [LoadValue(d), Increment(d)], s) == Fall(s')
    ensures s'.mem == s.mem && s'.trace == s.trace && Get(s'.regs, d) == c
    ensures forall r: nat | r != d :: Get(s'.regs, r) == Get(s.regs, r)
  {
    var s1 := s.(regs := s.regs[d := v]);
    s' := s1.(regs := s1.regs[d := c]);
    ValueLoaded(sem, d, a, v, s);
    Incremented(sem, d, v, c, s1);
    TwoSteps(sem, LoadValue(d), Increment(d), s, s1, s');
  }

  /** One more, as a signed integer. */
  lemma OneMoreSigned(v: Word, c: Word)
    requires c == Wrap(v as int + 1)
    ensures Signed(c) == ToInt64(Signed(v) + 1)
  {
  }

  lemma TwoThenBranch(sem: Sem, a: seq<Insn>, b: seq<Insn>, test: Insn, t: nat, f: nat, s: State, s1: State, s': State)
    requires test.code.Jcond? && Run(sem, a, s) == Fall(s1) && Run(sem, b, s1) == Fall(s')
    ensures StepBlock(sem, Block(a + (b + [test]), Some(t), Some(f)), s) ==
      Goto(if TestInsn(sem, test, s'.regs) then t else f, s')
  {
    RunAppend(sem, a, b, s);
    BranchStep(sem, a + b, test, t, f, s, s');
    assert a + (b + [test]) == (a + b) + [test];
  }

  /** The count stored: in the frame, and in its slot. */
  lemma CountStands(sem: Sem, mp: Maps, d: nat, fp: Word, x: Word, s: State, w: World) returns (s': State)
    requires HasHelpers(sem, mp) && Apart(sem, mp, fp) && Free(sem, fp, -8, 8) && Free(sem, fp, -12, 4)
    requires Stands(mp, fp, s, w) && ERRORS in mp.slots
    requires Get(s.regs, d) == x && d > FRAME
    ensures Run(sem, UpdateInsns(d), s) == Fall(s') && Stands(mp, fp, s', w.(entries := w.entries[ERRORS := Signed(x)]))
    ensures Get(s'.regs, d) == x
  {
    var m, n := Store(s.mem, Addr(fp, -8), 8, x), Sent(s.trace);
    var out := Store(Staged(s.mem, fp, x), mp.slots[ERRORS], 8, x);
    SlotUsable(sem, mp, fp);
    var r0;
    s', r0 := UpdateRuns(sem, mp, d, s, fp, x, out);
    FrameShows(sem, mp, fp, s.mem, n, w, -8, 8, x);
    FrameShows(sem, mp, fp, m, n, w, -12, 4, ERRORS);
    CountShows(sem, mp, fp, Staged(s.mem, fp, x), n, w, x);
    CalledSent(s, s', UPDATE, r0, out);
  }

  lemma SlotUsable(sem: Sem, mp: Maps, fp: Word)
    requires Apart(sem, mp, fp) && ERRORS in mp.slots
    ensures Range(mp.slots[ERRORS], 8) !! sem.guard
  {
  }

  lemma CountRuns(sem: Sem, mp: Maps, d: nat, fp: Word, v: Word, c: Word, s: State, w: World)
    returns (s1: State, s': State)
    requires HasHelpers(sem, mp) && Apart(sem, mp, fp) && Free(sem, fp, -8, 8) && Free(sem, fp, -12, 4)
    requires Stands(mp, fp, s, w) && Points(mp, ERRORS, s)
    requires d > FRAME && v == ValueAt(s.mem, mp.slots[ERRORS]) && c == Wrap(v as int + 1)
    ensures Run(sem, [LoadValue(d), Increment(d)], s) == Fall(s1) && Run(sem, UpdateInsns(d), s1) == Fall(s')
    ensures Stands(mp, fp, s', w.(entries := w.entries[ERRORS := Signed(c)])) && Get(s'.regs, d) == c
  {
    SlotUsable(sem, mp, fp);
    s1 := CountLoaded(sem, d, mp.slots[ERRORS], v, c, s);
    s' := CountStands(sem, mp, d, fp, c, s1, w);
  }

  lemma AddStep(sem: Sem, mp: Maps, d: nat, limit: nat, fp: Word, s: State, w: World, x: Step)
    requires HasHelpers(sem, mp) && Apart(sem, mp, fp) && Free(sem, fp, -8, 8) && Free(sem, fp, -12, 4)
    requires Stands(mp, fp, s, w) && Points(mp, ERRORS, s)
    requires d > FRAME && limit < 0x8000_0000
    requires x ==
      StepBlock(sem, Block([LoadValue(d), Increment(d)] + (UpdateInsns(d) + [OverTest(d, limit)]), Some(5), Some(3)), s)
    ensures AddActs(mp, limit, fp, w, x)
  {
    var v := Looked(mp, fp, ERRORS, s, w);
    var c := Wrap(v as int + 1);
    var s1, s' := CountRuns(sem, mp, d, fp, v, c, s, w);
    TwoThenBranch(sem, [LoadValue(d), Increment(d)], UpdateInsns(d), OverTest(d, limit), 5, 3, s, s1, s');
    TestsAre(sem, d, limit, s'.regs);
    AddDecides(mp, limit, fp, w, v, c, s', x);
  }

  lemma AddDecides(mp: Maps, limit: nat, fp: Word, w: World, v: Word, c: Word, s: State, x: Step)
    requires ERRORS in w.entries && w.entries[ERRORS] == Signed(v) && c == Wrap(v as int + 1)
    requires Stands(mp, fp, s, w.(entries := w.entries[ERRORS := Signed(c)]))
    requires x == Goto(if Signed(c) > limit then 5 else 3, s)
    ensures AddActs(mp, limit, fp, w, x)
  {
    OneMoreSigned(v, c);
  }

  lemma FrameFree(sem: Sem, fp: Word)
    requires Free(sem, fp, -12, 12)
    ensures Free(sem, fp, -4, 4) && Free(sem, fp, -8, 8) && Free(sem, fp, -12, 4)
  {
    FrameInside(fp, -4, 4);
    FrameInside(fp, -8, 8);
    FrameInside(fp, -12, 4);
  }

  /** The three places of the frame the epilogue uses. */
  ghost predicate FrameParts(sem: Sem, fp: Word) {
    Free(sem, fp, -4, 4) && Free(sem, fp, -8, 8) && Free(sem, fp, -12, 4)
  }

  lemma ReportAt(sem: Sem, mp: Maps, p: seq<Block>, fp: Word, s: State, w: World)
    requires HasHelpers(sem, mp) && Apart(sem, mp, fp) && Free(sem, fp, -8, 8) && Free(sem, fp, -4, 4)
    requires Stands(mp, fp, s, w) && Room(mp, w, 1)
    requires |p| > 2
    requires p[2] == Block(MessageInsns(STP_PRINT_ERROR_MSG) + (LookupInsns(ERRORS) + [ZeroTest(0)]), Some(3), Some(4))
    ensures ReportActs(mp, fp, w, Stepping(sem, p)(2, s))
  {
    ReportStep(sem, mp, fp, s, w, Stepping(sem, p)(2, s));
  }

  lemma HardAt(sem: Sem, mp: Maps, p: seq<Block>, fp: Word, s: State, w: World)
    requires HasHelpers(sem, mp) && Apart(sem, mp, fp) && Free(sem, fp, -8, 8) && Free(sem, fp, -4, 4)
    requires Stands(mp, fp, s, w) && Room(mp, w, 1)
    requires |p| > 5 && p[5] == Block(MessageInsns(STP_ERROR), None, Some(3))
    ensures HardActs(mp, fp, w, Stepping(sem, p)(5, s))
  {
    HardStep(sem, mp, fp, s, w, Stepping(sem, p)(5, s));
  }

  lemma AddAt(sem: Sem, mp: Maps, p: seq<Block>, d: nat, limit: nat, fp: Word, s: State, w: World)
    requires HasHelpers(sem, mp) && Apart(sem, mp, fp) && FrameParts(sem, fp) && Stands(mp, fp, s, w)
    requires Points(mp, ERRORS, s) && d > FRAME && limit < 0x8000_0000
    requires |p| > 4
    requires p[4] == Block([LoadValue(d), Increment(d)] + (UpdateInsns(d) + [OverTest(d, limit)]), Some(5), Some(3))
    ensures AddActs(mp, limit, fp, w, Stepping(sem, p)(4, s))
  {
    AddStep(sem, mp, d, limit, fp, s, w, Stepping(sem, p)(4, s));
  }

  lemma MessageBlocks(sem: Sem, mp: Maps, p: seq<Block>, q: HandlerRegs, limit: nat, fp: Word)
    requires HasHelpers(sem, mp) && Apart(sem, mp, fp) && FrameParts(sem, fp) && |p| > BODY
    requires p[2] == HandlerBlock(q, limit, 2) && p[5] == HandlerBlock(q, limit, 5)
    ensures forall s, w {:trigger ReportActs(mp, fp, w, Stepping(sem, p)(2, s))} |
        Stands(mp, fp, s, w) && Room(mp, w, 1) ::
      ReportActs(mp, fp, w, Stepping(sem, p)(2, s))
    ensures forall s, w {:trigger HardActs(mp, fp, w, Stepping(sem, p)(5, s))} |
        Stands(mp, fp, s, w) && Room(mp, w, 1) ::
      HardActs(mp, fp, w, Stepping(sem, p)(5, s))
  {
    forall s, w | Stands(mp, fp, s, w) && Room(mp, w, 1)
      ensures ReportActs(mp, fp, w, Stepping(sem, p)(2, s))
    {
      ReportAt(sem, mp, p, fp, s, w);
    }
    forall s, w | Stands(mp, fp, s, w) && Room(mp, w, 1)
      ensures HardActs(mp, fp, w, Stepping(sem, p)(5, s))
    {
      HardAt(sem, mp, p, fp, s, w);
    }
  }

  lemma AddBlock(sem: Sem, mp: Maps, p: seq<Block>, q: HandlerRegs, limit: nat, fp: Word)
    requires HasHelpers(sem, mp) && Apart(sem, mp, fp) && FrameParts(sem, fp) && |p| > BODY && WfRegs(q)
    requires limit < 0x8000_0000 && p[4] == HandlerBlock(q, limit, 4)
    ensures forall s, w {:trigger AddActs(mp, limit, fp, w, Stepping(sem, p)(4, s))} |
        Stands(mp, fp, s, w) && Points(mp, ERRORS, s) ::
      AddActs(mp, limit, fp, w, Stepping(sem, p)(4, s))
  {
    forall s, w | Stands(mp, fp, s, w) && Points(mp, ERRORS, s)
      ensures AddActs(mp, limit, fp, w, Stepping(sem, p)(4, s))
    {
      AddAt(sem, mp, p, q.count, limit, fp, s, w);
    }
  }

  lemma StatusBlock(sem: Sem, p: seq<Block>, q: HandlerRegs, limit: nat, s: State)
    requires HasHandler(p, q, limit)
    ensures Stepping(sem, p)(1, s) == Goto(if Get(s.regs, q.status) == 0 then 3 else 2, s)
    ensures Stepping(sem, p)(3, s) == Halt(s)
  {
    BlockIs(sem, p, q, limit, 1, s);
    BlockIs(sem, p, q, limit, 3, s);
    RunOne(sem, LEAVE, s);
    BranchStep(sem, [], ZeroTest(q.status), 3, 2, s, s);
    TestsAre(sem, q.status, limit, s.regs);
    assert [] + [ZeroTest(q.status)] == [ZeroTest(q.status)];
  }

  lemma BlocksLeave(sem: Sem, p: seq<Block>, q: HandlerRegs, limit: nat)
    requires HasHandler(p, q, limit)
    ensures QuietEpilogue(Stepping(sem, p), q.status)
  {
    var step := Stepping(sem, p);
    forall s
      ensures step(1, s) == Goto(if Get(s.regs, q.status) == 0 then 3 else 2, s) && step(3, s) == Halt(s)
    {
      StatusBlock(sem, p, q, limit, s);
    }
  }

  lemma BlocksEpilogue(sem: Sem, mp: Maps, p: seq<Block>, q: HandlerRegs, limit: nat, fp: Word)
    requires HasHelpers(sem, mp) && Apart(sem, mp, fp) && Free(sem, fp, -12, 12) && HasHandler(p, q, limit)
    ensures Epilogues(Stepping(sem, p), mp, q.status, limit, fp)
  {
    var step := Stepping(sem, p);
    FrameFree(sem, fp);
    BlocksAre(p, q, limit);
    MessageBlocks(sem, mp, p, q, limit, fp);
    AddBlock(sem, mp, p, q, limit, fp);
    BlocksLeave(sem, p, q, limit);
  }

  // ----- a whole handler -----

  /** The body of a handler, from block BODY: it reaches the epilogue with the error
      status it leaves, the frame pointer kept, and the world as RunBody has it. */
  ghost predicate BodyRuns(step: Stepper, mp: Maps, es: nat, fp: Word, s: State, w: World, k: nat, b: Body) {
    exists n: nat, s' ::
    Steps(step, Goto(BODY, s), n) == Goto(EPILOGUE, s') && Stands(mp, fp, s', RunBody(w, k, b))
    && (Get(s'.regs, es) != 0 <==> b.fails)
  }

  /** The outcomes a body may have. */
  type Outcomes = Body -> bool

  ghost predicate CanEnd(may: Outcomes) {
    exists b :: may(b)
  }

  ghost predicate Quiet(may: Outcomes) {
    forall b | may(b) :: !b.fails
  }

  /** From s the body ends in one of the ways it may. */
  ghost predicate BodyEnds(step: Stepper, mp: Maps, es: nat, fp: Word, s: State, w: World, k: nat, may: Outcomes) {
    exists b :: BodyRuns(step, mp, es, fp, s, w, k, b) && may(b)
  }

  /** The outcome b is that of the body, from the state the prologue reaches. */
  ghost predicate OutcomeOf(step: Stepper, mp: Maps, es: nat, fp: Word, s: State, w: World, k: nat, b: Body) {
    exists n: nat, s1 :: Steps(step, Goto(0, s), n) == Goto(BODY, s1) && BodyRuns(step, mp, es, fp, s1, w, k, b)
  }

  /** The world when the epilogue is reached. */
  function Entered(w: World, limit: int, k: nat, b: Body): World {
    if Admits(w, limit) then RunBody(w, k, b) else w
  }

  /** Prologue and body: the epilogue is reached with the status the body leaves. */
  lemma ToEpilogue(step: Stepper, mp: Maps, es: nat, limit: nat, fp: Word, s: State, w: World, k: nat, may: Outcomes)
    returns (n: nat, s': State, b: Body)
    requires Prologues(step, mp, es, limit, fp) && Stands(mp, fp, s, w) && CanEnd(may)
    requires forall s1 | Prologued(mp, es, fp, Get(s.regs, 1), s1, w) && Admits(w, limit) ::
      BodyEnds(step, mp, es, fp, s1, w, k, may)
    ensures Steps(step, Goto(0, s), n) == Goto(EPILOGUE, s') && Stands(mp, fp, s', Entered(w, limit, k, b))
    ensures (Get(s'.regs, es) != 0 <==> Admits(w, limit) && b.fails) && may(b)
    ensures Admits(w, limit) ==> OutcomeOf(step, mp, es, fp, s, w, k, b)
  {
    b :| may(b);
    n, s' := PrologueRuns(step, mp, es, limit, fp, s, w);
    if Admits(w, limit) {
      assert BodyEnds(step, mp, es, fp, s', w, k, may);
      n, s', b := ThroughBody(step, mp, es, fp, s, n, s', w, k, may);
    }
  }

  lemma ThroughBody(step: Stepper, mp: Maps, es: nat, fp: Word, s: State, n: nat, s1: State, w: World, k: nat,
                    may: Outcomes)
    returns (n': nat, s': State, b: Body)
    requires Steps(step, Goto(0, s), n) == Goto(BODY, s1) && BodyEnds(step, mp, es, fp, s1, w, k, may)
    ensures Steps(step, Goto(0, s), n') == Goto(EPILOGUE, s') && Stands(mp, fp, s', RunBody(w, k, b))
    ensures (Get(s'.regs, es) != 0 <==> b.fails) && may(b) && OutcomeOf(step, mp, es, fp, s, w, k, b)
  {
    b :| BodyRuns(step, mp, es, fp, s1, w, k, b) && may(b);
    var m: nat;
    m, s' :|
      Steps(step, Goto(BODY, s1), m) == Goto(EPILOGUE, s') && Stands(mp, fp, s', RunBody(w, k, b))
      && (Get(s'.regs, es) != 0 <==> b.fails);
    StepsAdd(step, Goto(0, s), n, m);
    n' := n + m;
  }

  lemma HandleIs(w: World, limit: int, k: nat, b: Body)
    ensures Handle(w, limit, k, b) ==
      if Admits(w, limit) && b.fails then CountError(Entered(w, limit, k, b), limit) else Entered(w, limit, k, b)
  {
  }

  /** Prologue, body and epilogue together are one handler of `Errors`: the code
      halts with the world Handle makes, for the outcome the body has there. A
      body that never fails needs no more of the epilogue than its way out. */
  lemma WholeHandler(step: Stepper, mp: Maps, es: nat, limit: nat, fp: Word, s: State, w: World, k: nat, may: Outcomes)
    returns (o: State, b: Body)
    requires Prologues(step, mp, es, limit, fp) && QuietEpilogue(step, es)
    requires Quiet(may) || Epilogues(step, mp, es, limit, fp)
    requires Stands(mp, fp, s, w) && Room(mp, w, 2) && CanEnd(may)
    requires forall s1 | Prologued(mp, es, fp, Get(s.regs, 1), s1, w) && Admits(w, limit) ::
      BodyEnds(step, mp, es, fp, s1, w, k, may)
    ensures Halts(step, Goto(0, s), o) && Stands(mp, fp, o, Handle(w, limit, k, b)) && may(b)
    ensures Admits(w, limit) ==> OutcomeOf(step, mp, es, fp, s, w, k, b)
  {
    var n, s1, e;
    n, s1, b := ToEpilogue(step, mp, es, limit, fp, s, w, k, may);
    HandleIs(w, limit, k, b);
    if Quiet(may) {
      e, o := 2, s1;
      QuietRuns(step, es, s1);
    } else {
      e, o := EpilogueRuns(step, mp, es, limit, fp, s1, Entered(w, limit, k, b));
    }
    StepsAdd(step, Goto(0, s), n, e);
  }

  // ----- handlers one after the other -----

  /** From s, with the world w, the code halts with the world one handler makes, for
      an outcome its body may have. */
  ghost predicate HandlesFrom(step: Stepper, mp: Maps, limit: nat, s: State, w: World, k: nat, may: Outcomes) {
    exists b, o ::
      may(b) && Halts(step, Goto(0, s), o) && Shows(mp, o.mem, Sent(o.trace), Handle(w, limit, k, b))
  }

  /** Code that is handler k of a session. */
  ghost predicate Handles(step: Stepper, mp: Maps, limit: nat, fp: Word, k: nat, may: Outcomes) {
    forall s, w {:trigger HandlesFrom(step, mp, limit, s, w, k, may)} | Stands(mp, fp, s, w) && Room(mp, w, 2) ::
      HandlesFrom(step, mp, limit, s, w, k, may)
  }

  /** A handler whose body ends as it may, from every state the prologue reaches. */
  ghost predicate Serves(step: Stepper, mp: Maps, es: nat, limit: nat, fp: Word, k: nat, may: Outcomes) {
    Prologues(step, mp, es, limit, fp) && QuietEpilogue(step, es)
    && (Quiet(may) || Epilogues(step, mp, es, limit, fp)) && CanEnd(may)
    && forall s, ctx, w {:trigger Prologued(mp, es, fp, ctx, s, w)} |
         Prologued(mp, es, fp, ctx, s, w) && Admits(w, limit) :: BodyEnds(step, mp, es, fp, s, w, k, may)
  }

  lemma ServesHandles(step: Stepper, mp: Maps, es: nat, limit: nat, fp: Word, k: nat, may: Outcomes)
    requires Serves(step, mp, es, limit, fp, k, may)
    ensures Handles(step, mp, limit, fp, k, may)
  {
    forall s, w | Stands(mp, fp, s, w) && Room(mp, w, 2) ensures HandlesFrom(step, mp, limit, s, w, k, may) {
      var o, b := WholeHandler(step, mp, es, limit, fp, s, w, k, may);
    }
  }

  /** From memory m and calls t, handlers k to the last halt in turn, each started
      with registers of its own, and leave m' and t'. */
  ghost predicate RunsTo(steps: seq<Stepper>, starts: seq<RegFile>, k: nat, m: Mem, t: seq<Event>, m': Mem,
                         t': seq<Event>)
    requires k <= |steps| == |starts|
    decreases |steps| - k
  {
    if k == |steps| then m' == m && t' == t
    else exists o ::
      Halts(steps[k], Goto(0, State(starts[k], m, t)), o) && RunsTo(steps, starts, k + 1, o.mem, o.trace, m', t')
  }

  lemma HandleRoom(mp: Maps, w: World, limit: nat, k: nat, b: Body, n: nat)
    requires Room(mp, w, n + 2)
    ensures Room(mp, Handle(w, limit, k, b), n)
  {
  }

  /** Each body ended as it may. */
  ghost predicate EndAs(mays: seq<Outcomes>, bodies: seq<Body>) {
    |bodies| == |mays| && forall i | 0 <= i < |mays| :: mays[i](bodies[i])
  }

  /** Steppers that are the handlers of a session, each with registers to start from. */
  ghost predicate AllHandle(steps: seq<Stepper>, starts: seq<RegFile>, mays: seq<Outcomes>, mp: Maps, limit: nat,
                            fp: Word)
  {
    |steps| == |starts| == |mays|
    && forall i | 0 <= i < |steps| ::
         Handles(steps[i], mp, limit, fp, i, mays[i]) && Get(starts[i], FRAME) == fp && CanEnd(mays[i])
  }

  lemma {:induction false} SomeEnd(mays: seq<Outcomes>, k: nat) returns (bodies: seq<Body>)
    requires k <= |mays| && forall i | 0 <= i < |mays| :: CanEnd(mays[i])
    ensures EndAs(mays[..k], bodies)
  {
    if k == 0 {
      bodies := [];
    } else {
      bodies := SomeEnd(mays, k - 1);
      assert CanEnd(mays[k - 1]);
      var b :| mays[k - 1](b);
      bodies := bodies + [b];
      assert mays[..k - 1] == mays[..k][..k - 1];
    }
  }

  lemma NextHandler(steps: seq<Stepper>, starts: seq<RegFile>, mays: seq<Outcomes>, mp: Maps, limit: nat, fp: Word,
                    k: nat, m: Mem, t: seq<Event>, w: World)
    returns (b: Body, o: State)
    requires AllHandle(steps, starts, mays, mp, limit, fp)
    requires k < |steps| && Shows(mp, m, Sent(t), w) && Room(mp, w, 2 * (|steps| - k))
    ensures mays[k](b) && Halts(steps[k], Goto(0, State(starts[k], m, t)), o)
    ensures Shows(mp, o.mem, Sent(o.trace), Handle(w, limit, k, b))
    ensures Room(mp, Handle(w, limit, k, b), 2 * (|steps| - k - 1))
  {
    var s := State(starts[k], m, t);
    assert HandlesFrom(steps[k], mp, limit, s, w, k, mays[k]);
    b, o :| mays[k](b) && Halts(steps[k], Goto(0, s), o) && Shows(mp, o.mem, Sent(o.trace), Handle(w, limit, k, b));
    HandleRoom(mp, w, limit, k, b, 2 * (|steps| - k - 1));
  }

  /** Any serial run of handlers leaves the world HandleAll makes, for some sequence
      of outcomes their bodies may have, so all that `Errors.SerialRun` says holds
      of it. */
  lemma {:induction false} SerialHandlers(steps: seq<Stepper>, starts: seq<RegFile>, mays: seq<Outcomes>, mp: Maps,
                                          limit: nat, fp: Word, k: nat, m: Mem, t: seq<Event>, w: World)
    returns (m': Mem, t': seq<Event>, bodies: seq<Body>)
    requires AllHandle(steps, starts, mays, mp, limit, fp)
    requires k <= |steps| && Shows(mp, m, Sent(t), w) && Room(mp, w, 2 * (|steps| - k))
    ensures EndAs(mays, bodies) && RunsTo(steps, starts, k, m, t, m', t')
    ensures Shows(mp, m', Sent(t'), HandleAll(w, limit, bodies, k))
    decreases |steps| - k
  {
    if k == |steps| {
      m', t' := m, t;
      bodies := SomeEnd(mays, k);
      assert mays[..k] == mays;
    } else {
      var b, o := NextHandler(steps, starts, mays, mp, limit, fp, k, m, t, w);
      var rest;
      m', t', rest := SerialHandlers(steps, starts, mays, mp, limit, fp, k + 1, o.mem, o.trace, Handle(w, limit, k, b));
      bodies := rest[k := b];
      HandleAllSame(Handle(w, limit, k, b), limit, rest, bodies, k + 1);
    }
  }

  /** A session of handlers, from fresh entries: exactly a first part of the bodies
      run, the count in the map is the number of those that failed, and the hard
      error is sent once, exactly when the limit is passed. */
  lemma Session(steps: seq<Stepper>, starts: seq<RegFile>, mays: seq<Outcomes>, mp: Maps, limit: nat, fp: Word, m: Mem,
                t: seq<Event>)
    returns (m': Mem, t': seq<Event>, bodies: seq<Body>, n: nat)
    requires AllHandle(steps, starts, mays, mp, limit, fp)
    requires limit < 0x8000_0000 && Shows(mp, m, Sent(t), FRESH) && 2 * |steps| <= |mp.cells|
    ensures EndAs(mays, bodies) && RunsTo(steps, starts, 0, m, t, m', t')
    ensures n <= |bodies| && (n == |bodies| || Over(bodies, limit, n))
    ensures var w := HandleAll(FRESH, limit, bodies, 0); Shows(mp, m', Sent(t'), w) && Kept(w, bodies, limit, n)
  {
    m', t', bodies := SerialHandlers(steps, starts, mays, mp, limit, fp, 0, m, t, FRESH);
    n := SerialRun(bodies, limit);
  }
}
