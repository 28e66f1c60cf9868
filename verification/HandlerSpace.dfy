/** How much of the frame the epilogue uses: twelve bytes, though it asks for
    eight. */
module HandlerSpace {
  import opened Ir
  import opened Machine
  import opened Memory
  import opened Simulation
  import opened Script
  import opened RegAlloc
  import opened Errors
  import opened Handlers
  import opened HandlerRuns

  lemma FreeAbove(sem: Sem, fp: Word, off: int, n: nat, maxTmp: nat, limit: nat)
    requires -12 <= off && off + n <= 0 && 0 <= maxTmp + off && maxTmp <= limit < 0x1_0000_0000
    requires sem.guard == Area(fp, maxTmp, limit)
    ensures Free(sem, fp, off, n)
  {
    forall x | x in Range(Addr(fp, off), n) ensures x !in sem.guard {
      InRange(fp, off, n, x);
      var j :| off <= j < off + n && x == Addr(fp, j);
      OutsideArea(fp, maxTmp, limit, j);
    }
  }

  /** The key the epilogue stores last lies in the spill area. */
  lemma KeyInArea(fp: Word, maxTmp: nat, limit: nat)
    requires maxTmp < 12 <= limit
    ensures Addr(fp, -12) in Area(fp, maxTmp, limit) && Addr(fp, -12) in Range(Addr(fp, -12), 4)
  {
    InArea(fp, maxTmp, limit, Addr(fp, -12));
    InRange(fp, -12, 4, Addr(fp, -12));
  }

  /** Storing it faults where one of its bytes is protected. */
  lemma KeyFaults(sem: Sem, fp: Word, rest: seq<Insn>, s: State)
    requires Get(s.regs, FRAME) == fp && !Free(sem, fp, -12, 4)
    ensures Run(sem, [FrameStore(SW, -12, ERRORS)] + rest, s) == Fault
  {
    var i := FrameStore(SW, -12, ERRORS);
    assert Exec(sem, i, s) == DoStore(sem, Addr(fp, -12), SW, ERRORS, s) == None;
    RunCons(sem, [i] + rest, s);
  }

  lemma UpdateFaults(sem: Sem, d: nat, fp: Word, s: State)
    requires Get(s.regs, FRAME) == fp && Free(sem, fp, -8, 8) && !Free(sem, fp, -12, 4)
    ensures Run(sem, UpdateInsns(d), s) == Fault
  {
    var rest := UPDATE_ARGS + [CallTo(UPDATE, 4)];
    var s0 := Handlers.CountStep(sem, d, s);
    KeyFaults(sem, fp, rest, s0);
    RunAppend(sem, [CountStore(d)], [FrameStore(SW, -12, ERRORS)] + rest, s);
    UpdateForm(d);
  }

  lemma FaultStays(sem: Sem, a: seq<Insn>, b: seq<Insn>, c: seq<Insn>, t: nat, f: nat, s: State, s1: State)
    requires Run(sem, a, s) == Fall(s1) && Run(sem, b, s1) == Fault
    ensures StepBlock(sem, Block(a + (b + c), Some(t), Some(f)), s) == Crash
  {
    RunAppend(sem, a, b + c, s);
    RunAppend(sem, b, c, s1);
  }

  /** The block that counts an error. */
  function CountBlockOf(d: nat, limit: nat): Block {
    Block([LoadValue(d), Increment(d)] + (UpdateInsns(d) + [OverTest(d, limit)]), Some(5), Some(3))
  }

  /** It crashes. */
  lemma AddCrashes(sem: Sem, mp: Maps, d: nat, limit: nat, fp: Word, s: State, w: World, x: Step)
    requires Standard(sem) && Stands(mp, fp, s, w) && Points(mp, ERRORS, s) && Range(mp.slots[ERRORS], 8) !! sem.guard
    requires d > FRAME
    requires Free(sem, fp, -8, 8) && !Free(sem, fp, -12, 4) && x == StepBlock(sem, CountBlockOf(d, limit), s)
    ensures x == Crash
  {
    var v := Looked(mp, fp, ERRORS, s, w);
    var s1 := CountLoaded(sem, d, mp.slots[ERRORS], v, Wrap(v as int + 1), s);
    UpdateFaults(sem, d, fp, s1);
    FaultStays(sem, [LoadValue(d), Increment(d)], UpdateInsns(d), [OverTest(d, limit)], 5, 3, s, s1);
  }

  lemma CrashesAt(sem: Sem, mp: Maps, p: seq<Block>, d: nat, limit: nat, fp: Word, s: State, w: World)
    requires Standard(sem) && Stands(mp, fp, s, w) && Points(mp, ERRORS, s) && Range(mp.slots[ERRORS], 8) !! sem.guard
    requires d > FRAME
    requires Free(sem, fp, -8, 8) && !Free(sem, fp, -12, 4) && |p| > 4 && p[4] == CountBlockOf(d, limit)
    ensures Stepping(sem, p)(4, s) == Crash
  {
    AddCrashes(sem, mp, d, limit, fp, s, w, Stepping(sem, p)(4, s));
  }

  /** The block that counts crashes wherever it is reached. */
  ghost predicate Breaks(step: Stepper, mp: Maps, fp: Word) {
    forall s, w {:trigger Stands(mp, fp, s, w), step(4, s)} | Stands(mp, fp, s, w) && Points(mp, ERRORS, s) ::
    step(4, s) == Crash
  }

  lemma BlockBreaks(sem: Sem, mp: Maps, p: seq<Block>, d: nat, l: nat, fp: Word)
    requires Standard(sem) && SlotsUsable(sem, mp) && d > FRAME && |p| > BODY && p[4] == CountBlockOf(d, l)
    requires Free(sem, fp, -8, 8) && !Free(sem, fp, -12, 4)
    ensures Breaks(Stepping(sem, p), mp, fp)
  {
    forall s, w | Stands(mp, fp, s, w) && Points(mp, ERRORS, s) ensures Stepping(sem, p)(4, s) == Crash {
      CrashesAt(sem, mp, p, d, l, fp, s, w);
    }
  }

  /** A run that reports an error and then crashes. */
  lemma CrashRuns(step: Stepper, mp: Maps, fp: Word, s: State, w: World)
    requires step(1, s) == Goto(2, s) && ReportActs(mp, fp, w, step(2, s)) && ERRORS in mp.slots && Breaks(step, mp, fp)
    ensures !Safe(step, Goto(1, s))
  {
    var y := step(2, s).s;
    assert Stands(mp, fp, y, w.(sent := w.sent + [PrintError])) && step(4, y) == Crash;
    assert Steps(step, Goto(1, s), 3) == Steps(step, Goto(2, s), 2) == Steps(step, Goto(4, y), 1) ==
      Steps(step, Crash, 0);
  }

  lemma EpilogueBlocks(p: seq<Block>, q: HandlerRegs, l: nat)
    requires HasHandler(p, q, l)
    ensures p[2] == Block(MessageInsns(STP_PRINT_ERROR_MSG) + (LookupInsns(ERRORS) + [ZeroTest(0)]), Some(3), Some(4))
    ensures p[4] == CountBlockOf(q.count, l)
  {
    BlocksAre(p, q, l);
  }

  lemma EpilogueCrashes(sem: Sem, mp: Maps, p: seq<Block>, q: HandlerRegs, l: nat, fp: Word, s: State, w: World)
    requires HasHelpers(sem, mp) && Apart(sem, mp, fp) && HasHandler(p, q, l) && Stands(mp, fp, s, w) && Room(mp, w, 2)
    requires Get(s.regs, q.status) != 0 && ERRORS in mp.slots && Free(sem, fp, -8, 8) && Free(sem, fp, -4, 4)
    requires !Free(sem, fp, -12, 4)
    ensures !Safe(Stepping(sem, p), Goto(EPILOGUE, s))
  {
    EpilogueBlocks(p, q, l);
    StatusBlock(sem, p, q, l, s);
    ReportAt(sem, mp, p, fp, s, w);
    BlockBreaks(sem, mp, p, q.count, l, fp);
    CrashRuns(Stepping(sem, p), mp, fp, s, w);
  }

  lemma Joins(sem: Sem, fp: Word)
    requires Free(sem, fp, -8, 8) && Free(sem, fp, -12, 4)
    ensures Free(sem, fp, -12, 12)
  {
    forall x | x in Range(Addr(fp, -12), 12) ensures x !in sem.guard {
      InRange(fp, -12, 12, x);
      InRange(fp, -12, 4, x);
      InRange(fp, -8, 8, x);
    }
  }

  /** Whatever bytes are protected, as long as the eight the handler asked for are
      not: the epilogue of a failed handler runs without a fault exactly when the
      four below them are not either. */
  lemma EpilogueSafeIff(sem: Sem, mp: Maps, p: seq<Block>, q: HandlerRegs, l: nat, fp: Word, s: State, w: World)
    requires HasHelpers(sem, mp) && Apart(sem, mp, fp) && HasHandler(p, q, l) && Stands(mp, fp, s, w) && Room(mp, w, 2)
    requires Get(s.regs, q.status) != 0 && ERRORS in mp.slots && Free(sem, fp, -8, 8) && Free(sem, fp, -4, 4)
    ensures Safe(Stepping(sem, p), Goto(EPILOGUE, s)) <==> Free(sem, fp, -12, 4)
  {
    if Free(sem, fp, -12, 4) {
      Joins(sem, fp);
      BlocksEpilogue(sem, mp, p, q, l, fp);
      var n, o := EpilogueRuns(Stepping(sem, p), mp, q.status, l, fp, s, w);
      HaltsSafe(Stepping(sem, p), Goto(EPILOGUE, s), o);
    } else {
      EpilogueCrashes(sem, mp, p, q, l, fp, s, w);
    }
  }

  /** With the whole spill area protected that is when max_tmp_space is at least
      twelve; add_epilogue asks for eight. */
  lemma EpilogueKeepsOffIff(sem: Sem, mp: Maps, p: seq<Block>, q: HandlerRegs, l: nat, fp: Word, maxTmp: nat,
                            limit: nat, s: State, w: World)
    requires HasHelpers(sem, mp) && Apart(sem, mp, fp) && HasHandler(p, q, l) && Stands(mp, fp, s, w) && Room(mp, w, 2)
    requires Get(s.regs, q.status) != 0 && ERRORS in mp.slots && 8 <= maxTmp <= limit < 0x1_0000_0000 && 12 <= limit
    requires sem.guard == Area(fp, maxTmp, limit)
    ensures Safe(Stepping(sem, p), Goto(EPILOGUE, s)) <==> maxTmp >= 12
  {
    FreeAbove(sem, fp, -8, 8, maxTmp, limit);
    FreeAbove(sem, fp, -4, 4, maxTmp, limit);
    if maxTmp >= 12 { FreeAbove(sem, fp, -12, 4, maxTmp, limit); } else { KeyInArea(fp, maxTmp, limit); }
    EpilogueSafeIff(sem, mp, p, q, l, fp, s, w);
  }

  /** The key shares a byte with the eight bytes at this offset. */
  ghost predicate Meets(fp: Word, off: int) {
    exists a :: a in Range(Addr(fp, -12), 4) && a in Range(Addr(fp, off), 8)
  }

  lemma MeetsIff(fp: Word, off: int)
    requires -0x1000_0000 < off < 0
    ensures Meets(fp, off) <==> -20 < off < -8
  {
    if -20 < off < -8 {
      var i := if off < -12 then -12 else off;
      InRange(fp, -12, 4, Addr(fp, i));
      InRange(fp, off, 8, Addr(fp, i));
    }
    if Meets(fp, off) {
      var a :| a in Range(Addr(fp, -12), 4) && a in Range(Addr(fp, off), 8);
      InRange(fp, -12, 4, a);
      InRange(fp, off, 8, a);
      var i :| -12 <= i < -8 && a == Addr(fp, i);
      var j :| off <= j < off + 8 && a == Addr(fp, j);
      AddrInjective(fp, i, j);
    }
  }

  lemma FirstSlot(k: nat, maxTmp: nat, off: int)
    requires 8 <= maxTmp && off == 0 - SlotOff(k, maxTmp)
    ensures -20 < off < -8 <==> k == 0 && maxTmp == 8
  {
  }

  /** The key is written into a spill slot exactly when the slot is the first and
      no other code of the handler asked for more than the epilogue did. */
  lemma KeyMeetsSlotIff(fp: Word, maxTmp: nat, k: nat)
    requires 8 <= maxTmp && 8 * k + maxTmp < 0x0800_0000
    ensures Meets(fp, 0 - SlotOff(k, maxTmp)) <==> k == 0 && maxTmp == 8
  {
    MeetsIff(fp, 0 - SlotOff(k, maxTmp));
    FirstSlot(k, maxTmp, 0 - SlotOff(k, maxTmp));
  }
}
