/** Probes as bytecode: through every pass and the encoder, the error count, the
    limit and the messages are as `Errors` has them. */
module ProbeBytecode {
  import opened Ir
  import opened Machine
  import opened Memory
  import opened Script
  import opened Spilling
  import opened RegAlloc
  import opened AllocationMeaning
  import opened Zeroing
  import opened Linear
  import opened Flattening
  import opened Generation
  import opened Returning
  import opened Errors
  import opened Handlers
  import opened HandlerRuns
  import opened HandlerSpace
  import opened Probes
  import opened ProbeRuns

  // ----- memory the clearing of the stack leaves alone -----

  lemma NotStored(fp: Word, lo: int, a: Word)
    requires forall j | lo <= j < lo + 4 :: a != Addr(fp, j)
    ensures a !in Range(Addr(fp, lo), 4)
  {
    InRange(fp, lo, 4, a);
  }

  lemma {:induction false} ZeroKeeps(m: Mem, fp: Word, lo: int, hi: int, a: Word)
    requires forall j | lo <= j < ZeroEnd(lo, hi) :: a != Addr(fp, j)
    ensures ByteAt(ZeroMem(m, fp, lo, hi), a) == ByteAt(m, a)
    decreases hi - lo
  {
    if lo < hi {
      ZeroEndIs(lo + 4, hi);
      assert ZeroEnd(lo, hi) == ZeroEnd(lo + 4, hi) >= lo + 4;
      NotStored(fp, lo, a);
      StoreFrame(m, Addr(fp, lo), 4, 0, a);
      ZeroKeeps(Store(m, Addr(fp, lo), 4, 0), fp, lo + 4, hi, a);
    }
  }

  /** The bytes of the stack, and the three above it the last store may reach. */
  ghost function StackBytes(fp: Word, size: nat): set<Word> {
    Area(fp, -4, size)
  }

  lemma ZeroInStack(m: Mem, fp: Word, lo: nat, hi: nat, size: nat)
    requires lo <= size
    ensures AgreeOff(m, ZeroMem(m, fp, Down(lo), Down(hi)), StackBytes(fp, size))
  {
    ZeroEndIs(Down(lo), Down(hi));
    forall a: Word | a !in StackBytes(fp, size) ensures ByteAt(ZeroMem(m, fp, Down(lo), Down(hi)), a) == ByteAt(m, a) {
      InArea(fp, -4, size, a);
      ZeroKeeps(m, fp, Down(lo), Down(hi), a);
    }
  }

  /** The start of the original program differs in the stack alone. */
  lemma StartAgrees(s: State, h: Homes, maxTmp: nat, maxReg: nat, size: nat)
    requires Placed(h) && maxTmp <= size && maxReg <= size
    ensures AgreeOff(s.mem, GenStart(s, h, maxTmp, maxReg).mem, StackBytes(Get(s.regs, FRAME), size))
  {
    var fp := Get(s.regs, FRAME);
    GenStartIs(s, h, maxTmp, maxReg, FRAME);
    ZeroInStack(s.mem, fp, maxReg, maxTmp, size);
    ZeroInStack(SpillsCleared(s, maxTmp, maxReg).mem, fp, maxTmp, 0, size);
  }

  lemma ValueAgrees(m: Mem, m': Mem, g: set<Word>, a: Word)
    requires AgreeOff(m, m', g) && Range(a, 8) !! g
    ensures ValueAt(m, a) == ValueAt(m', a)
  {
    LoadAgree(m, m', a, 8);
  }

  /** Maps and cells lie outside these bytes. */
  ghost predicate Outside(mp: Maps, g: set<Word>) {
    (forall k | k in mp.slots :: Range(mp.slots[k], 8) !! g)
    && forall i | 0 <= i < |mp.cells| :: Range(mp.cells[i], 8) !! g
  }

  lemma ShowsAgree(mp: Maps, m: Mem, m': Mem, g: set<Word>, n: nat, w: World)
    requires Shows(mp, m, n, w) && AgreeOff(m, m', g) && Outside(mp, g)
    ensures Shows(mp, m', n, w)
  {
    forall k | k in mp.slots
      ensures ValueAt(m', mp.slots[k]) == ValueAt(m, mp.slots[k])
    {
      ValueAgrees(m, m', g, mp.slots[k]);
    }
    forall i | 0 <= i < n
      ensures ValueAt(m', mp.cells[i]) == ValueAt(m, mp.cells[i])
    {
      ValueAgrees(m, m', g, mp.cells[i]);
    }
  }

  // ----- the machine with the slots protected -----

  lemma HelpersStay(sem: Sem, mp: Maps, guard: set<Word>)
    requires HasHelpers(sem, mp)
    ensures HasHelpers(sem.(guard := guard), mp)
  {
    var m := sem.(guard := guard);
    forall args, mem, t
      ensures Looks(m, mp, args, mem, t) && Updates(m, mp, args, mem, t) && Outputs(m, mp, args, mem, t)
    {
      assert Looks(sem, mp, args, mem, t) && Updates(sem, mp, args, mem, t) && Outputs(sem, mp, args, mem, t);
    }
  }

  lemma ApartLess(sem: Sem, mp: Maps, fp: Word, big: set<Word>, small: set<Word>)
    requires Apart(sem.(guard := big), mp, fp) && small <= big
    ensures Apart(sem.(guard := small), mp, fp) && Outside(mp, small)
  {
    forall k | k in mp.slots ensures Range(mp.slots[k], 8) !! small {}
    forall i | 0 <= i < |mp.cells| ensures Range(mp.cells[i], 8) !! small {}
  }

  lemma AreaInStack(fp: Word, maxTmp: nat, size: nat)
    requires maxTmp <= size
    ensures Area(fp, maxTmp, size) <= StackBytes(fp, size)
  {
    forall a | a in Area(fp, maxTmp, size) ensures a in StackBytes(fp, size) {
      InArea(fp, maxTmp, size, a);
      InArea(fp, -4, size, a);
    }
  }

  /** The first n slots all start below this offset. */
  predicate SlotsFit(n: nat, maxTmp: nat, size: nat) {
    n > 0 ==> SlotOff(n - 1, maxTmp) <= size
  }

  lemma {:induction false} SlotsBelow(fp: Word, n: nat, maxTmp: nat, j: int)
    requires -12 <= j < 0 && (n > 0 ==> SlotOff(n - 1, maxTmp) < 0x1_0000_0000) && (j < -8 ==> n == 0 || maxTmp > 8)
    requires maxTmp >= 8
    ensures Addr(fp, j) !in SlotBytes(fp, n, maxTmp)
    decreases n
  {
    if n > 0 {
      if n > 1 { OffsGrow(n - 2, n - 1, maxTmp); }
      SlotsBelow(fp, n - 1, maxTmp, j);
      OutsideSlot(fp, SlotOff(n - 1, maxTmp), j);
    }
  }

  lemma BytesSpared(sem: Sem, fp: Word, n: nat, maxTmp: nat, size: nat, off: int, k: nat)
    requires sem.guard == SlotBytes(fp, n, maxTmp) && 8 <= maxTmp && SlotsFit(n, maxTmp, size) && size < 0x1_0000_0000
    requires -12 <= off && off + k <= 0 && (off < -8 ==> n == 0 || maxTmp != 8)
    ensures Free(sem, fp, off, k)
  {
    forall a | a in Range(Addr(fp, off), k) ensures a !in sem.guard {
      InRange(fp, off, k, a);
      var j :| off <= j < off + k && a == Addr(fp, j);
      SlotsBelow(fp, n, maxTmp, j);
    }
  }

  lemma {:induction false} FirstSlotIn(fp: Word, n: nat)
    requires n > 0
    ensures Addr(fp, -12) in SlotBytes(fp, n, 8) && Addr(fp, -12) in Range(Addr(fp, -12), 4)
    decreases n
  {
    InRange(fp, -12, 4, Addr(fp, -12));
    if n > 1 { FirstSlotIn(fp, n - 1); } else { InRange(fp, -16, 8, Addr(fp, -12)); }
  }

  /** What the handler uses of the frame is free of slots: the eight bytes it asked
      for always, the four below them unless the first slot is there, which it is
      when something was spilled and no more than eight bytes were asked for. */
  lemma FrameSpared(sem: Sem, fp: Word, n: nat, maxTmp: nat, size: nat)
    requires sem.guard == SlotBytes(fp, n, maxTmp) && 8 <= maxTmp && SlotsFit(n, maxTmp, size) && size < 0x1_0000_0000
    ensures Free(sem, fp, -4, 4) && Free(sem, fp, -8, 8) && (Free(sem, fp, -12, 4) <==> n == 0 || maxTmp != 8)
    ensures n == 0 || maxTmp != 8 ==> Free(sem, fp, -12, 12)
  {
    BytesSpared(sem, fp, n, maxTmp, size, -4, 4);
    BytesSpared(sem, fp, n, maxTmp, size, -8, 8);
    if n == 0 || maxTmp != 8 {
      BytesSpared(sem, fp, n, maxTmp, size, -12, 4);
      BytesSpared(sem, fp, n, maxTmp, size, -12, 12);
    } else {
      FirstSlotIn(fp, n);
    }
  }

  /** With the slots in use protected, the epilogue of a failed handler runs without
      a fault exactly when nothing was spilled or more than eight bytes of the frame
      were asked for. */
  lemma EpilogueSparesIff(sem: Sem, mp: Maps, p: seq<Block>, q: HandlerRegs, l: nat, fp: Word, n: nat, maxTmp: nat,
                          size: nat, s: State, w: World)
    requires HasHelpers(sem, mp) && Apart(sem, mp, fp) && HasHandler(p, q, l) && Stands(mp, fp, s, w) && Room(mp, w, 2)
    requires Get(s.regs, q.status) != 0 && ERRORS in mp.slots
    requires sem.guard == SlotBytes(fp, n, maxTmp) && 8 <= maxTmp && SlotsFit(n, maxTmp, size) && size < 0x1_0000_0000
    ensures Safe(Stepping(sem, p), Goto(EPILOGUE, s)) <==> n == 0 || maxTmp != 8
  {
    FrameSpared(sem, fp, n, maxTmp, size);
    EpilogueSafeIff(sem, mp, p, q, l, fp, s, w);
  }

  // ----- one probe -----

  /** The machines the theorem speaks about: the arithmetic of RFC 9669, the map
      helpers, framed, with the maps and the cells off the stack. */
  ghost predicate RunsProbes(sem: Sem, mp: Maps, fp: Word, size: nat) {
    HasHelpers(sem, mp) && Framed(sem) && sem.guard == {} && Apart(sem.(guard := StackBytes(fp, size)), mp, fp)
  }

  /** The size of the stack covers what generate used of it. */
  predicate StackCovers(h: Homes, maxTmp: nat, maxReg: nat, size: nat) {
    8 <= maxTmp <= size && maxReg <= size < 0x1_0000_0000 && SlotsFit(|h.spilled|, maxTmp, size)
  }

  /** No slot is in the way of the epilogue, or it has nothing to count: nothing was
      spilled, or more than the eight bytes were asked for, or the statement never
      sets the status. */
  predicate Accounts(st: Stmt, es: nat, h: Homes, maxTmp: nat) {
    h.spilled == [] || maxTmp != 8 || es !in Assigned(st)
  }

  lemma ProbeMachine(sem: Sem, mp: Maps, fp: Word, s: State, h: Homes, maxTmp: nat, maxReg: nat, size: nat)
    returns (m: Sem)
    requires RunsProbes(sem, mp, fp, size) && Get(s.regs, FRAME) == fp && StackCovers(h, maxTmp, maxReg, size)
    ensures HasHelpers(m, mp) && Apart(m, mp, fp) && RunsOn(m, s, |h.spilled|, maxTmp) && m.(guard := {}) == sem
    ensures Outside(mp, m.guard)
    ensures Free(m, fp, -4, 4) && (h.spilled == [] || maxTmp != 8 ==> Free(m, fp, -12, 12))
  {
    var n := |h.spilled|;
    m := GuardedRuns(sem, s, n, maxTmp);
    HelpersStay(sem, mp, m.guard);
    SlotBytesIn(fp, n, maxTmp, size);
    AreaInStack(fp, maxTmp, size);
    ApartLess(sem, mp, fp, StackBytes(fp, size), m.guard);
    FrameSpared(m, fp, n, maxTmp, size);
  }

  lemma StartStands(s: State, h: Homes, maxTmp: nat, maxReg: nat, size: nat, sem: Sem, mp: Maps, fp: Word, w: World)
    requires Placed(h) && maxTmp <= size && maxReg <= size && Stands(mp, fp, s, w)
    requires Apart(sem.(guard := StackBytes(fp, size)), mp, fp)
    ensures Stands(mp, fp, GenStart(s, h, maxTmp, maxReg), w)
  {
    StartAgrees(s, h, maxTmp, maxReg, size);
    GenStartIs(s, h, maxTmp, maxReg, FRAME);
    ApartLess(sem, mp, fp, StackBytes(fp, size), StackBytes(fp, size));
    ShowsAgree(mp, s.mem, GenStart(s, h, maxTmp, maxReg).mem, StackBytes(fp, size), Sent(s.trace), w);
  }

  /** From one start. */
  lemma ProbeHandlesFrom(sem: Sem, args: nat -> nat, st: Stmt, n: nat, limit: nat, q: seq<Block>, h: Homes, maxTmp: nat,
                         maxReg: nat, size: nat, mp: Maps, fp: Word, k: nat, s: State, w: World)
    requires RunsProbes(sem, mp, fp, size) && MAX_BPF_REG <= n && WfStmt(st, n + 4) && limit < 0x8000_0000
    requires Small(q, args)
    requires Generated(ProbeGen(st, n, limit).blocks, q, h, maxTmp, maxReg) && Placed(h)
    requires StackCovers(h, maxTmp, maxReg, size)
    requires Accounts(st, n, h, maxTmp) && Stands(mp, fp, s, w) && Room(mp, w, 2)
    ensures HandlesFrom(FlatStepping(sem, args, Code(q)), mp, limit, s, w, k, EndsOf(st, n))
  {
    var p, s0 := ProbeGen(st, n, limit).blocks, GenStart(s, h, maxTmp, maxReg);
    var m := ProbeMachine(sem, mp, fp, s, h, maxTmp, maxReg, size);
    ProbeServes(m, mp, st, n, limit, fp, k);
    StartStands(s, h, maxTmp, maxReg, size, sem, mp, fp, w);
    var o, b := WholeHandler(Stepping(m, p), mp, n, limit, fp, s0, w, k, EndsOf(st, n));
    var o' := FlatHalts(m, s, args, p, q, h, maxTmp, maxReg, o);
    ShowsAgree(mp, o.mem, o'.mem, m.guard, Sent(o.trace), Handle(w, limit, k, b));
  }

  /** The bytecode of a probe is a handler with the outcomes of its statement, on
      every such machine. */
  lemma ProbeHandles(sem: Sem, args: nat -> nat, st: Stmt, n: nat, limit: nat, q: seq<Block>, h: Homes, maxTmp: nat,
                     maxReg: nat, size: nat, mp: Maps, fp: Word, k: nat)
    requires RunsProbes(sem, mp, fp, size) && MAX_BPF_REG <= n && WfStmt(st, n + 4) && limit < 0x8000_0000
    requires Small(q, args)
    requires Generated(ProbeGen(st, n, limit).blocks, q, h, maxTmp, maxReg) && Placed(h)
    requires StackCovers(h, maxTmp, maxReg, size)
    requires Accounts(st, n, h, maxTmp)
    ensures Handles(FlatStepping(sem, args, Code(q)), mp, limit, fp, k, EndsOf(st, n))
  {
    forall s, w | Stands(mp, fp, s, w) && Room(mp, w, 2)
      ensures HandlesFrom(FlatStepping(sem, args, Code(q)), mp, limit, s, w, k, EndsOf(st, n))
    {
      ProbeHandlesFrom(sem, args, st, n, limit, q, h, maxTmp, maxReg, size, mp, fp, k, s, w);
    }
  }

  // ----- a session of probes -----

  /** The flat code of q is a handler with these outcomes, on every such machine. */
  ghost predicate IsHandler(q: seq<Block>, limit: nat, size: nat, may: Outcomes) {
    forall sem, args, mp, fp, k
      {:trigger RunsProbes(sem, mp, fp, size), Small(q, args),
                 Handles(FlatStepping(sem, args, Code(q)), mp, limit, fp, k, may)} |
      RunsProbes(sem, mp, fp, size) && Small(q, args) ::
      Handles(FlatStepping(sem, args, Code(q)), mp, limit, fp, k, may)
  }

  /** The bytecode of the probes, each run by program counter. */
  function FlatSteps(sem: Sem, args: nat -> nat, qs: seq<seq<Block>>): (steps: seq<Stepper>)
    ensures |steps| == |qs| && forall i | 0 <= i < |qs| :: steps[i] == FlatStepping(sem, args, Code(qs[i]))
  {
    seq(|qs|, i requires 0 <= i < |qs| => FlatStepping(sem, args, Code(qs[i])))
  }

  /** Probes in a session: their code, and the outcomes their bodies may have. */
  ghost predicate AreHandlers(qs: seq<seq<Block>>, mays: seq<Outcomes>, limit: nat, size: nat) {
    |qs| == |mays| && forall i | 0 <= i < |qs| :: IsHandler(qs[i], limit, size, mays[i]) && CanEnd(mays[i])
  }

  /** Any session of probes as bytecode, from fresh entries: exactly a first part
      of the bodies run, the count in the map is the number of those that failed,
      and the hard error is sent once, exactly when the limit is passed. */
  lemma BytecodeSession(sem: Sem, args: nat -> nat, qs: seq<seq<Block>>, mays: seq<Outcomes>, starts: seq<RegFile>,
                        mp: Maps, limit: nat, fp: Word, size: nat, m: Mem, t: seq<Event>)
    returns (m': Mem, t': seq<Event>, bodies: seq<Body>, n: nat)
    requires RunsProbes(sem, mp, fp, size) && AreHandlers(qs, mays, limit, size) && limit < 0x8000_0000
    requires |starts| == |qs| && forall i | 0 <= i < |qs| :: Small(qs[i], args) && Get(starts[i], FRAME) == fp
    requires Shows(mp, m, Sent(t), FRESH) && 2 * |qs| <= |mp.cells|
    ensures EndAs(mays, bodies) && RunsTo(FlatSteps(sem, args, qs), starts, 0, m, t, m', t')
    ensures n <= |bodies| && (n == |bodies| || Errors.Over(bodies, limit, n))
    ensures var w := HandleAll(FRESH, limit, bodies, 0); Shows(mp, m', Sent(t'), w) && Kept(w, bodies, limit, n)
  {
    var steps := FlatSteps(sem, args, qs);
    forall i | 0 <= i < |qs| ensures Handles(steps[i], mp, limit, fp, i, mays[i]) {
      assert RunsProbes(sem, mp, fp, size) && Small(qs[i], args);
    }
    m', t', bodies, n := Session(steps, starts, mays, mp, limit, fp, m, t);
  }
}
