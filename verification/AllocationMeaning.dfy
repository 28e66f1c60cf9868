/** What register allocation keeps: every run of the allocated program is a run
    of the original one, started with each spilled temporary holding what its
    slot holds and each other register what its colour holds. */
module AllocationMeaning {
  import opened Ir
  import opened Machine
  import opened Liveness
  import opened Renaming
  import opened Simulation
  import opened Spilling
  import opened RegAlloc

  // ----- dropping the guard -----

  lemma ExecGuard(sem: Sem, i: Insn, s: State)
    requires Exec(sem, i, s).Some?
    ensures Exec(sem.(guard := {}), i, s) == Exec(sem, i, s)
  {
  }

  lemma {:induction false} RunGuard(sem: Sem, ins: seq<Insn>, s: State)
    requires !Run(sem, ins, s).Fault?
    ensures Run(sem.(guard := {}), ins, s) == Run(sem, ins, s)
  {
    if ins != [] {
      if IsControl(ins[0].code) {
        if ins[0].code.Jcond? && !TestInsn(sem, ins[0], s.regs) { RunGuard(sem, ins[1..], s); }
      } else {
        RunCons(sem, ins, s);
        RunCons(sem.(guard := {}), ins, s);
        ExecGuard(sem, ins[0], s);
        RunGuard(sem, ins[1..], Exec(sem, ins[0], s).value);
      }
    }
  }

  lemma StepGuard(sem: Sem, p: seq<Block>, b: nat, s: State)
    requires !Stepping(sem, p)(b, s).Crash?
    ensures Stepping(sem.(guard := {}), p)(b, s) == Stepping(sem, p)(b, s)
  {
    if b < |p| { RunGuard(sem, p[b].insns, s); }
  }

  /** A run that never touches the protected bytes is a run of the plain machine. */
  lemma GuardDrop(sem: Sem, p: seq<Block>, s: State, g: set<Word>)
    requires Safe(Stepping(sem, p), Goto(0, s))
    ensures SameBehaviour(Stepping(sem, p), Goto(0, s), Stepping(sem.(guard := {}), p), Goto(0, s), g)
  {
    var step, step' := Stepping(sem, p), Stepping(sem.(guard := {}), p);
    var rel := (x: Step, x': Step) => x.Crash? || x == x';
    forall x, x' | rel(x, x') && x.Goto? ensures StepKept(step, step', rel, x, x') {
      if !step(x.b, x.s).Crash? { StepGuard(sem, p, x.b, x.s); }
    }
    LockBehaviour(step, step', rel, Goto(0, s), Goto(0, s), g);
  }

  // ----- where the original program starts -----

  /** Where the registers of the original program went: the temporaries given a
      slot, in order, and the hard register of every other one. */
  datatype Homes = Homes(spilled: seq<nat>, colors: seq<nat>)

  /** Every register holds what its colour holds. */
  function Pull(m: RegFile, f: seq<nat>): RegFile {
    map r: nat | r in m.Keys + (set x: nat {:trigger At(f, x)} | x < |f|) :: if r < |f| then Get(m, f[r]) else m[r]
  }

  lemma GetPull(m: RegFile, f: seq<nat>)
    ensures forall r: nat {:trigger Get(Pull(m, f), r)} :: Get(Pull(m, f), r) == Get(m, At(f, r))
  {
  }

  /** What the slot at this offset holds. */
  function SlotWord(s: State, off: int): Word {
    LoadWord(s.mem, Addr(Get(s.regs, FRAME), -off), SDW)
  }

  /** The registers given slots hold what their slots hold. */
  function Unspill(s: State, spilled: seq<nat>, maxTmp: nat): State
    decreases |spilled|
  {
    if spilled == [] then s
    else
      var k := |spilled| - 1;
      Unspill(s.(regs := s.regs[spilled[k] := SlotWord(s, SlotOff(k, maxTmp))]), spilled[..k], maxTmp)
  }

  /** The start of the original program that a start of the allocated one stands for. */
  function HomeStart(s: State, h: Homes, maxTmp: nat): State {
    Unspill(s.(regs := Pull(s.regs, h.colors)), h.spilled, maxTmp)
  }

  predicate AllTemps(rs: seq<nat>) {
    forall k | 0 <= k < |rs| :: MAX_BPF_REG <= rs[k]
  }

  predicate Distinct(rs: seq<nat>) {
    forall i, j | 0 <= i < j < |rs| :: rs[i] != rs[j]
  }

  lemma {:induction false} UnspillOthers(s: State, spilled: seq<nat>, maxTmp: nat, r: nat)
    requires r !in spilled
    ensures var s0 := Unspill(s, spilled, maxTmp);
      s0.mem == s.mem && s0.trace == s.trace && Get(s0.regs, r) == Get(s.regs, r)
    decreases |spilled|
  {
    if spilled != [] {
      var k := |spilled| - 1;
      var v := SlotWord(s, SlotOff(k, maxTmp));
      assert r !in spilled[..k];
      GetUpdate(s.regs, spilled[k], v);
      UnspillOthers(s.(regs := s.regs[spilled[k] := v]), spilled[..k], maxTmp, r);
    }
  }

  lemma {:induction false} UnspillSlots(s: State, spilled: seq<nat>, maxTmp: nat, k: nat)
    requires AllTemps(spilled) && Distinct(spilled) && k < |spilled|
    ensures Get(Unspill(s, spilled, maxTmp).regs, spilled[k]) == SlotWord(s, SlotOff(k, maxTmp))
    decreases |spilled|
  {
    var n := |spilled| - 1;
    var v := SlotWord(s, SlotOff(n, maxTmp));
    var s1 := s.(regs := s.regs[spilled[n] := v]);
    GetUpdate(s.regs, spilled[n], v);
    if k == n {
      UnspillOthers(s1, spilled[..n], maxTmp, spilled[n]);
    } else {
      UnspillSlots(s1, spilled[..n], maxTmp, k);
    }
  }

  /** Well-placed homes: hard registers stay, slots go to different temporaries. */
  ghost predicate Placed(h: Homes) {
    Fixed(h.colors) && AllTemps(h.spilled) && Distinct(h.spilled)
  }

  /** Memory, calls and hard registers are those of the allocated program's
      start; a spilled temporary starts with its slot, any other register with
      its colour. */
  lemma EntryIs(s: State, h: Homes, maxTmp: nat, r: nat)
    requires Placed(h)
    ensures var s0 := HomeStart(s, h, maxTmp);
      s0.mem == s.mem && s0.trace == s.trace && (r < MAX_BPF_REG ==> Get(s0.regs, r) == Get(s.regs, r))
      && (r !in h.spilled ==> Get(s0.regs, r) == Get(s.regs, At(h.colors, r)))
      && (forall k | 0 <= k < |h.spilled| && h.spilled[k] == r :: Get(s0.regs, r) == SlotWord(s, SlotOff(k, maxTmp)))
  {
    var s1 := s.(regs := Pull(s.regs, h.colors));
    GetPull(s.regs, h.colors);
    UnspillOthers(s1, h.spilled, maxTmp, 0);
    if r !in h.spilled { UnspillOthers(s1, h.spilled, maxTmp, r); }
    forall k | 0 <= k < |h.spilled| && h.spilled[k] == r
      ensures Get(HomeStart(s, h, maxTmp).regs, r) == SlotWord(s, SlotOff(k, maxTmp))
    {
      UnspillSlots(s1, h.spilled, maxTmp, k);
      assert Get(s1.regs, FRAME) == Get(s.regs, FRAME);
    }
  }

  // ----- one link of the chain -----

  /** The machine protects the bytes of the first n slots. */
  ghost predicate Protects(guard: set<Word>, fp: Word, n: nat, maxTmp: nat) {
    forall j: nat {:trigger SlotOff(j, maxTmp)} | j < n :: Slot(fp, SlotOff(j, maxTmp)) <= guard
  }

  /** The bytes of the first n slots. */
  ghost function SlotBytes(fp: Word, n: nat, maxTmp: nat): set<Word> {
    if n == 0 then {} else SlotBytes(fp, n - 1, maxTmp) + Slot(fp, SlotOff(n - 1, maxTmp))
  }

  lemma {:induction false} SlotBytesProtect(fp: Word, n: nat, maxTmp: nat)
    ensures Protects(SlotBytes(fp, n, maxTmp), fp, n, maxTmp)
    decreases n
  {
    if n > 0 { SlotBytesProtect(fp, n - 1, maxTmp); }
  }

  lemma {:induction false} SlotBytesIn(fp: Word, n: nat, maxTmp: nat, limit: nat)
    requires maxTmp <= limit && (n > 0 ==> SlotOff(n - 1, maxTmp) <= limit)
    ensures SlotBytes(fp, n, maxTmp) <= Area(fp, maxTmp, limit)
    decreases n
  {
    if n > 0 {
      if n > 1 { OffsGrow(n - 2, n - 1, maxTmp); }
      SlotBytesIn(fp, n - 1, maxTmp, limit);
      SlotInArea(fp, SlotOff(n - 1, maxTmp), maxTmp, limit);
    }
  }

  /** Helpers are framed, and the slots are protected; other bytes may be, too. */
  ghost predicate Guarded(sem: Sem, s: State, n: nat, maxTmp: nat) {
    Framed(sem) && Protects(sem.guard, Get(s.regs, FRAME), n, maxTmp)
  }

  /** The current program from s behaves as the original one from s0, outside
      the spill area, and stays off the bytes still protected. */
  ghost predicate Linked(sem: Sem, s0: State, p0: seq<Block>, s: State, p: seq<Block>, guard: set<Word>) {
    SameBehaviour(Stepping(sem, p0), Goto(0, s0), Stepping(sem.(guard := guard), p), Goto(0, s), sem.guard)
    && Safe(Stepping(sem.(guard := guard), p), Goto(0, s))
  }

  lemma FramedGuard(sem: Sem, guard: set<Word>)
    requires Framed(sem)
    ensures Framed(sem.(guard := guard))
  {
    var sem' := sem.(guard := guard);
    forall id, args, m, m', t, g: set<Word> | sem'.touch(id, args, m, t) !! g && AgreeOff(m, m', g)
      ensures CallFramed(sem', id, args, m, m', t, g)
    {
      assert CallFramed(sem, id, args, m, m', t, g);
    }
  }

  /** A spill keeps the link, whatever its slot holds at the start. */
  lemma SpillLinks(sem: Sem, s0: State, p0: seq<Block>, s: State, p: seq<Block>, n0: nat, reg: nat, off: int,
                   guard: set<Word>)
    requires Framed(sem) && WfBlocks(p, n0) && MAX_BPF_REG <= reg < n0
    requires Linked(sem, s0, p0, s.(regs := s.regs[reg := SlotWord(s, off)]), p, guard)
    requires Slot(Get(s.regs, FRAME), off) <= guard && guard <= sem.guard
    ensures Linked(sem, s0, p0, s, SpillBlocks(p, reg, off, n0), guard - Slot(Get(s.regs, FRAME), off))
  {
    var fp, area := Get(s.regs, FRAME), sem.guard;
    var sem1, sem2 := sem.(guard := guard), sem.(guard := guard - Slot(fp, off));
    var p' := SpillBlocks(p, reg, off, n0);
    var s1 := s.(regs := s.regs[reg := SlotWord(s, off)]);
    FramedGuard(sem, guard);
    GetUpdate(s.regs, reg, SlotWord(s, off));
    SpillBehaviour(sem1, sem2, p, reg, off, n0, fp, s1, s, area);
    BehaviourTrans(Stepping(sem, p0), Goto(0, s0), Stepping(sem1, p), Goto(0, s1), Stepping(sem2, p'), Goto(0, s),
                   area);
  }

  /** The final renaming keeps the link, and the guard can go. */
  lemma RenameLinks(sem: Sem, s0: State, p0: seq<Block>, s: State, p: seq<Block>, nregs: nat, liveIn: seq<set<nat>>,
                    f: seq<nat>, guard: set<Word>)
    requires Linked(sem, s0, p0, s.(regs := Pull(s.regs, f)), p, guard) && WfBlocks(p, nregs) && Closed(p, liveIn)
    requires ProgramOk(f, p, liveIn)
    ensures SameBehaviour(Stepping(sem, p0), Goto(0, s0), Stepping(sem.(guard := {}), RenameBlocks(f, p)), Goto(0, s),
                          sem.guard)
  {
    var sem1, p', area := sem.(guard := guard), RenameBlocks(f, p), sem.guard;
    var s1 := s.(regs := Pull(s.regs, f));
    GetPull(s.regs, f);
    RenameBehaviour(sem1, f, p, nregs, liveIn, s1, s, area);
    GuardDrop(sem1, p', s, area);
    BehaviourTrans(Stepping(sem, p0), Goto(0, s0), Stepping(sem1, p), Goto(0, s1), Stepping(sem1, p'), Goto(0, s),
                   area);
    BehaviourTrans(Stepping(sem, p0), Goto(0, s0), Stepping(sem1, p'), Goto(0, s), Stepping(sem1.(guard := {}), p'),
                   Goto(0, s), area);
  }

  lemma SelfLinked(sem: Sem, s: State, p: seq<Block>)
    requires Safe(Stepping(sem, p), Goto(0, s))
    ensures Linked(sem, s, p, s, p, sem.guard)
  {
    assert sem.(guard := sem.guard) == sem;
  }

  // ----- the chain -----

  /** The bytes still protected when k slots have been given out. */
  ghost function GuardAt(guard: set<Word>, fp: Word, k: nat, maxTmp: nat): set<Word> {
    if k == 0 then guard else GuardAt(guard, fp, k - 1, maxTmp) - Slot(fp, SlotOff(k - 1, maxTmp))
  }

  lemma {:induction false} GuardShrinks(guard: set<Word>, fp: Word, k: nat, maxTmp: nat)
    ensures GuardAt(guard, fp, k, maxTmp) <= guard
    decreases k
  {
    if k > 0 { GuardShrinks(guard, fp, k - 1, maxTmp); }
  }

  /** A slot is protected until it is given out. */
  lemma {:induction false} SlotStays(guard: set<Word>, fp: Word, k: nat, j: nat, maxTmp: nat)
    requires k <= j && Slot(fp, SlotOff(j, maxTmp)) <= guard && SlotOff(j, maxTmp) < 0x1_0000_0000
    ensures Slot(fp, SlotOff(j, maxTmp)) <= GuardAt(guard, fp, k, maxTmp)
    decreases k
  {
    if k > 0 {
      SlotStays(guard, fp, k - 1, j, maxTmp);
      SlotsDisjoint(fp, k - 1, j, maxTmp);
    }
  }

  /** The program after these spills against the original one, on one machine. */
  ghost predicate RoundLinked(sem: Sem, s: State, p0: seq<Block>, p: seq<Block>, spilled: seq<nat>, maxTmp: nat) {
    Linked(sem, Unspill(s, spilled, maxTmp), p0, s, p, GuardAt(sem.guard, Get(s.regs, FRAME), |spilled|, maxTmp))
  }

  /** On every such machine, from every start for which the original keeps off
      the protected bytes. */
  ghost predicate ChainHolds(p0: seq<Block>, p: seq<Block>, spilled: seq<nat>, maxTmp: nat) {
    forall sem, s {:trigger Guarded(sem, s, |spilled|, maxTmp)} |
      Guarded(sem, s, |spilled|, maxTmp) && Safe(Stepping(sem, p0), Goto(0, Unspill(s, spilled, maxTmp))) ::
      RoundLinked(sem, s, p0, p, spilled, maxTmp)
  }

  lemma ChainStarts(p: seq<Block>, maxTmp: nat)
    ensures ChainHolds(p, p, [], maxTmp)
  {
    forall sem, s | Safe(Stepping(sem, p), Goto(0, Unspill(s, [], maxTmp)))
      ensures RoundLinked(sem, s, p, p, [], maxTmp)
    {
      SelfLinked(sem, s, p);
    }
  }

  lemma ChainSpills(p0: seq<Block>, p: seq<Block>, nregs: nat, spilled: seq<nat>, maxTmp: nat, reg: nat)
    requires WfBlocks(p, nregs) && ChainHolds(p0, p, spilled, maxTmp)
    requires MAX_BPF_REG <= reg < nregs && SlotOff(|spilled|, maxTmp) < 0x1_0000_0000
    ensures ChainHolds(p0, SpillBlocks(p, reg, SlotOff(|spilled|, maxTmp), nregs), spilled + [reg], maxTmp)
  {
    var k, all := |spilled|, spilled + [reg];
    forall sem, s | Guarded(sem, s, |all|, maxTmp) && Safe(Stepping(sem, p0), Goto(0, Unspill(s, all, maxTmp)))
      ensures RoundLinked(sem, s, p0, SpillBlocks(p, reg, SlotOff(k, maxTmp), nregs), all, maxTmp)
    {
      LinkSpills(sem, s, p0, p, nregs, spilled, maxTmp, reg);
    }
  }

  lemma LinkSpills(sem: Sem, s: State, p0: seq<Block>, p: seq<Block>, nregs: nat, spilled: seq<nat>, maxTmp: nat,
                   reg: nat)
    requires WfBlocks(p, nregs) && Guarded(sem, s, |spilled| + 1, maxTmp) && ChainHolds(p0, p, spilled, maxTmp)
    requires MAX_BPF_REG <= reg < nregs && SlotOff(|spilled|, maxTmp) < 0x1_0000_0000
    requires Safe(Stepping(sem, p0), Goto(0, Unspill(s, spilled + [reg], maxTmp)))
    ensures RoundLinked(sem, s, p0, SpillBlocks(p, reg, SlotOff(|spilled|, maxTmp), nregs), spilled + [reg], maxTmp)
  {
    var k, fp := |spilled|, Get(s.regs, FRAME);
    var guard := GuardAt(sem.guard, fp, k, maxTmp);
    var s1 := s.(regs := s.regs[reg := SlotWord(s, SlotOff(k, maxTmp))]);
    assert (spilled + [reg])[..k] == spilled;
    GetUpdate(s.regs, reg, SlotWord(s, SlotOff(k, maxTmp)));
    assert Guarded(sem, s1, k, maxTmp);
    assert RoundLinked(sem, s1, p0, p, spilled, maxTmp);
    GuardShrinks(sem.guard, fp, k, maxTmp);
    SlotStays(sem.guard, fp, k, k, maxTmp);
    SpillLinks(sem, Unspill(s1, spilled, maxTmp), p0, s, p, nregs, reg, SlotOff(k, maxTmp), guard);
  }

  /** On every machine that protects the slots in use, from every start: if the
      original program keeps off the protected bytes from the start this one
      stands for, the two behave alike outside them. */
  ghost predicate KeepsBehaviour(p0: seq<Block>, p: seq<Block>, h: Homes, maxTmp: nat) {
    forall sem, s {:trigger Guarded(sem, s, |h.spilled|, maxTmp)} |
      Guarded(sem, s, |h.spilled|, maxTmp) && Safe(Stepping(sem, p0), Goto(0, HomeStart(s, h, maxTmp))) ::
      SameBehaviour(Stepping(sem, p0), Goto(0, HomeStart(s, h, maxTmp)), Stepping(sem.(guard := {}), p), Goto(0, s),
                    sem.guard)
  }

  lemma ChainEnds(p0: seq<Block>, p: seq<Block>, nregs: nat, h: Homes, maxTmp: nat, liveIn: seq<set<nat>>)
    requires WfBlocks(p, nregs) && Closed(p, liveIn) && ProgramOk(h.colors, p, liveIn)
    requires ChainHolds(p0, p, h.spilled, maxTmp)
    ensures KeepsBehaviour(p0, RenameBlocks(h.colors, p), h, maxTmp)
  {
    var n, q := |h.spilled|, RenameBlocks(h.colors, p);
    forall sem, s | Guarded(sem, s, n, maxTmp) && Safe(Stepping(sem, p0), Goto(0, HomeStart(s, h, maxTmp)))
      ensures SameBehaviour(Stepping(sem, p0), Goto(0, HomeStart(s, h, maxTmp)), Stepping(sem.(guard := {}), q),
                            Goto(0, s), sem.guard)
    {
      var s1 := s.(regs := Pull(s.regs, h.colors));
      GetPull(s.regs, h.colors);
      assert Guarded(sem, s1, n, maxTmp);
      assert RoundLinked(sem, s1, p0, p, h.spilled, maxTmp);
      var guard := GuardAt(sem.guard, Get(s1.regs, FRAME), n, maxTmp);
      RenameLinks(sem, HomeStart(s, h, maxTmp), p0, s, p, nregs, liveIn, h.colors, guard);
    }
  }

  // ----- a clean entry -----

  /** No temporary is read before it is set on any path from the entry. */
  ghost predicate EntryClean(p: seq<Block>) {
    forall r: nat | MAX_BPF_REG <= r :: !LiveAt(p, 0, r)
  }

  /** The registers live at each block. */
  ghost function LiveSets(p: seq<Block>, nregs: nat): (live: seq<set<nat>>)
    ensures |live| == |p| && forall b: nat | b < |p| :: forall r: nat :: r in live[b] <==> r < nregs && LiveAt(p, b, r)
  {
    seq(|p|, b requires 0 <= b < |p| => set r: nat | r < nregs && LiveAt(p, b, r))
  }

  lemma {:induction false} LiveBelow(ins: seq<Insn>, nregs: nat, live: set<nat>, r: nat)
    requires WfInsns(ins, nregs) && MAX_BPF_REG <= nregs && (forall x | x in live :: x < nregs)
    requires r in LiveBefore(ins, live)
    ensures r < nregs
  {
    if ins != [] && r in LiveBefore(ins[1..], live) { LiveBelow(ins[1..], nregs, live, r); }
  }

  lemma LiveSetsClosed(p: seq<Block>, nregs: nat)
    requires WfBlocks(p, nregs)
    ensures Closed(p, LiveSets(p, nregs))
  {
    var live := LiveSets(p, nregs);
    forall b | 0 <= b < |p| ensures LiveBefore(p[b].insns, AtSuccs(p[b], live)) <= live[b] {
      forall r | r in LiveBefore(p[b].insns, AtSuccs(p[b], live)) ensures r in live[b] {
        assert WfBlock(p[b], nregs, |p|);
        TransferSound(p, live, b, r);
        LiveBelow(p[b].insns, nregs, AtSuccs(p[b], live), r);
      }
    }
  }

  /** Starts that agree on memory, calls and the registers live at the entry
      give the same behaviour. */
  lemma SameEntry(sem: Sem, p: seq<Block>, nregs: nat, s: State, s': State, g: set<Word>)
    requires WfBlocks(p, nregs) && Safe(Stepping(sem, p), Goto(0, s)) && s.mem == s'.mem && s.trace == s'.trace
    requires forall r: nat | LiveAt(p, 0, r) :: Get(s.regs, r) == Get(s'.regs, r)
    ensures SameBehaviour(Stepping(sem, p), Goto(0, s), Stepping(sem, p), Goto(0, s'), g)
    ensures Safe(Stepping(sem, p), Goto(0, s'))
  {
    LiveSetsClosed(p, nregs);
    DeadDoesNotMatter(sem, p, nregs, LiveSets(p, nregs), s, s', g);
  }

  /** When no temporary is live at the entry, the program keeps its behaviour
      from the very start it is given. */
  lemma CleanEntryKept(p0: seq<Block>, nregs: nat, p: seq<Block>, h: Homes, maxTmp: nat, sem: Sem, s: State)
    requires WfBlocks(p0, nregs) && EntryClean(p0) && Placed(h) && KeepsBehaviour(p0, p, h, maxTmp)
    requires Guarded(sem, s, |h.spilled|, maxTmp) && Safe(Stepping(sem, p0), Goto(0, s))
    ensures SameBehaviour(Stepping(sem, p0), Goto(0, s), Stepping(sem.(guard := {}), p), Goto(0, s), sem.guard)
  {
    var s0 := HomeStart(s, h, maxTmp);
    forall r: nat | LiveAt(p0, 0, r) ensures Get(s.regs, r) == Get(s0.regs, r) { EntryIs(s, h, maxTmp, r); }
    EntryIs(s, h, maxTmp, 0);
    SameEntry(sem, p0, nregs, s, s0, sem.guard);
    BehaviourTrans(Stepping(sem, p0), Goto(0, s), Stepping(sem, p0), Goto(0, s0), Stepping(sem.(guard := {}), p),
                   Goto(0, s), sem.guard);
  }
}
