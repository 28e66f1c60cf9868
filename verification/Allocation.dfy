/** Register allocation end to end: the loop of reg_alloc, the rounds it goes
    through, its termination, and why it can fail. */
module Allocation {
  import opened Ir
  import opened Liveness
  import opened Renaming
  import opened Coloring
  import opened Spilling
  import opened Programs
  import opened RegAlloc
  import opened AllocationMeaning

  // ----- form of the result -----

  lemma RenameWfInsn(f: seq<nat>, i: Insn, nregs: nat)
    requires WfInsn(i, nregs) && |f| == nregs && Fixed(f) && forall r | MAX_BPF_REG <= r < nregs :: f[r] < FRAME
    ensures WfInsn(RenameInsn(f, i), MAX_BPF_REG)
  {
  }

  lemma RenameWf(f: seq<nat>, p: seq<Block>, nregs: nat)
    requires WfBlocks(p, nregs) && |f| == nregs && Fixed(f) && forall r | MAX_BPF_REG <= r < nregs :: f[r] < FRAME
    ensures WfBlocks(RenameBlocks(f, p), MAX_BPF_REG)
  {
    forall b | 0 <= b < |p| ensures WfBlock(RenameBlocks(f, p)[b], MAX_BPF_REG, |p|) {
      assert WfBlock(p[b], nregs, |p|);
      var out := RenameInsns(f, p[b].insns);
      forall k | 0 <= k < |out| ensures WfInsn(out[k], MAX_BPF_REG) {
        RenameWfInsn(f, p[b].insns[k], nregs);
      }
      EdgesKept(p[b], out);
    }
  }

  lemma RenameLowered(f: seq<nat>, p: seq<Block>)
    requires AllLowered(p)
    ensures AllLowered(RenameBlocks(f, p))
  {
    forall b | 0 <= b < |p| ensures LoweredInsns(RenameBlocks(f, p)[b].insns) {
      assert LoweredInsns(p[b].insns);
    }
  }

  lemma SpillInsnLowered(i: Insn, reg: nat, off: int, tmp: nat)
    requires FitsInt16(-off) && Lowered(i)
    ensures LoweredInsns(SpillInsn(i, reg, off, tmp))
  {
  }

  lemma {:induction false} SpillInsnsLowered(ins: seq<Insn>, reg: nat, off: int, tmp: nat)
    requires FitsInt16(-off) && LoweredInsns(ins)
    ensures LoweredInsns(SpillInsns(ins, reg, off, tmp))
  {
    if ins != [] {
      SpillInsnsLowered(ins[1..], reg, off, tmp);
      SpillInsnLowered(ins[0], reg, off, TmpAfter(ins[1..], reg, tmp));
    }
  }

  lemma SpillLowered(p: seq<Block>, reg: nat, off: int, n0: nat)
    requires FitsInt16(-off) && AllLowered(p)
    ensures AllLowered(SpillBlocks(p, reg, off, n0))
  {
    forall b | 0 <= b < |p| ensures LoweredInsns(SpillBlocks(p, reg, off, n0)[b].insns) {
      SpillInsnsLowered(p[b].insns, reg, off, TmpAt(p, reg, n0, b));
    }
  }

  lemma SpillEntry(p: seq<Block>, reg: nat, off: int, n0: nat)
    requires p != [] && p[0].insns != []
    ensures SpillBlocks(p, reg, off, n0)[0].insns != []
  {
  }

  /** Spilling makes nothing live at the entry but the frame pointer. */
  lemma SpillEntryLive(p: seq<Block>, n0: nat, reg: nat, off: int, r: nat)
    requires WfBlocks(p, n0) && MAX_BPF_REG <= reg < n0 && LiveAt(SpillBlocks(p, reg, off, n0), 0, r)
    ensures r == FRAME || (r != reg && LiveAt(p, 0, r))
  {
    var p', live := SpillBlocks(p, reg, off, n0), LiveSets(p, n0);
    LiveSetsClosed(p, n0);
    SpillClosed(p, reg, off, n0, live);
    var path :| PathFrom(p', path, 0, r);
    ClosedIsComplete(p', LiveAfterSpill(reg, live), path, r);
  }

  // ----- the rounds -----

  /** The program and its register count after these spills, each to the next
      slot. */
  ghost function SpillsTo(p: seq<Block>, nregs: nat, spilled: seq<nat>, maxTmp: nat): (seq<Block>, nat)
    decreases |spilled|
  {
    if spilled == [] then (p, nregs)
    else
      var k := |spilled| - 1;
      var (q, n) := SpillsTo(p, nregs, spilled[..k], maxTmp);
      (SpillBlocks(q, spilled[k], SlotOff(k, maxTmp), n), TmpAt(q, spilled[k], n, |q|))
  }

  /** A register the allocator may still spill: an original one, not yet spilled. */
  predicate Free(n0: nat, spilled: seq<nat>, r: nat) {
    r < n0 && r !in spilled
  }

  /** r is the last register before reg in the order that may be spilled. */
  ghost predicate Picks(ordered: seq<nat>, reg: nat, n0: nat, spilled: seq<nat>, r: nat) {
    Free(n0, spilled, r)
    && exists k | 0 <= k < IndexOf(ordered, reg) ::
       ordered[k] == r && forall j | k < j < IndexOf(ordered, reg) :: !Free(n0, spilled, ordered[j])
  }

  /** Why round k happened: after the spills before it some register could not be
      coloured, and the one spilled was the last one before it that could be. */
  ghost predicate RoundNeeded(p0: seq<Block>, n0: nat, spilled: seq<nat>, k: nat, maxTmp: nat, limit: nat)
    requires k < |spilled|
  {
    var (p, n) := SpillsTo(p0, n0, spilled[..k], maxTmp);
    SlotOff(k, maxTmp) <= limit
    && exists ordered, reg {:trigger Uncolorable(p, n, ordered, reg)} ::
       Uncolorable(p, n, ordered, reg) && Picks(ordered, reg, n0, spilled[..k], spilled[k])
  }

  /** The spills reg_alloc has made, each for a reason. */
  ghost predicate History(p0: seq<Block>, n0: nat, spilled: seq<nat>, maxTmp: nat, limit: nat) {
    AllTemps(spilled) && Distinct(spilled) && (forall k | 0 <= k < |spilled| :: spilled[k] < n0)
    && forall k: nat {:trigger RoundNeeded(p0, n0, spilled, k, maxTmp, limit)} | k < |spilled| ::
       RoundNeeded(p0, n0, spilled, k, maxTmp, limit)
  }

  /** Nothing is left to spill for reg: the next slot is beyond the stack, or
      every register before it in the order is one made by a spill or one already
      spilled. */
  predicate Stalled(ordered: seq<nat>, reg: nat, n0: nat, spilled: seq<nat>, maxTmp: nat, limit: nat) {
    SlotOff(|spilled|, maxTmp) > limit || forall k | 0 <= k < IndexOf(ordered, reg) :: !Free(n0, spilled, ordered[k])
  }

  /** Why reg_alloc fails: after its spills some register cannot be coloured,
      and nothing is left to spill for it. */
  ghost predicate Exhausted(p0: seq<Block>, n0: nat, spilled: seq<nat>, maxTmp: nat, limit: nat) {
    var (p, n) := SpillsTo(p0, n0, spilled, maxTmp);
    exists ordered, reg {:trigger Uncolorable(p, n, ordered, reg)} ::
      Uncolorable(p, n, ordered, reg) && Stalled(ordered, reg, n0, spilled, maxTmp, limit)
  }

  lemma RoundStays(p0: seq<Block>, n0: nat, spilled: seq<nat>, all: seq<nat>, k: nat, maxTmp: nat, limit: nat)
    requires k < |spilled| && k < |all| && all[..k] == spilled[..k] && all[k] == spilled[k]
    requires RoundNeeded(p0, n0, spilled, k, maxTmp, limit)
    ensures RoundNeeded(p0, n0, all, k, maxTmp, limit)
  {
  }

  lemma RoundAdds(p0: seq<Block>, n0: nat, p: seq<Block>, n: nat, spilled: seq<nat>, maxTmp: nat, limit: nat,
                  ordered: seq<nat>, reg: nat, r: nat)
    requires (p, n) == SpillsTo(p0, n0, spilled, maxTmp) && SlotOff(|spilled|, maxTmp) <= limit
    requires Uncolorable(p, n, ordered, reg) && Picks(ordered, reg, n0, spilled, r)
    ensures RoundNeeded(p0, n0, spilled + [r], |spilled|, maxTmp, limit)
  {
    assert (spilled + [r])[..|spilled|] == spilled;
  }

  lemma HistoryGrows(p0: seq<Block>, n0: nat, p: seq<Block>, n: nat, spilled: seq<nat>, maxTmp: nat, limit: nat,
                     ordered: seq<nat>, reg: nat, r: nat)
    requires History(p0, n0, spilled, maxTmp, limit) && SlotOff(|spilled|, maxTmp) <= limit && MAX_BPF_REG <= r
    requires (p, n) == SpillsTo(p0, n0, spilled, maxTmp) && Uncolorable(p, n, ordered, reg)
    requires Picks(ordered, reg, n0, spilled, r)
    ensures History(p0, n0, spilled + [r], maxTmp, limit)
  {
    var all := spilled + [r];
    RoundAdds(p0, n0, p, n, spilled, maxTmp, limit, ordered, reg, r);
    RoundsStay(p0, n0, spilled, all, r, maxTmp, limit);
    OneMore(spilled, n0, r);
    HistoryIs(p0, n0, all, maxTmp, limit);
  }

  lemma HistoryIs(p0: seq<Block>, n0: nat, all: seq<nat>, maxTmp: nat, limit: nat)
    requires all != [] && AllTemps(all) && Distinct(all) && (forall k | 0 <= k < |all| :: all[k] < n0)
    requires RoundNeeded(p0, n0, all, |all| - 1, maxTmp, limit) && RoundsBefore(p0, n0, all, |all| - 1, maxTmp, limit)
    ensures History(p0, n0, all, maxTmp, limit)
  {
  }

  ghost predicate RoundsBefore(p0: seq<Block>, n0: nat, all: seq<nat>, n: nat, maxTmp: nat, limit: nat) {
    n <= |all|
    && forall k: nat {:trigger RoundNeeded(p0, n0, all, k, maxTmp, limit)} | k < n ::
       RoundNeeded(p0, n0, all, k, maxTmp, limit)
  }

  lemma RoundsStay(p0: seq<Block>, n0: nat, spilled: seq<nat>, all: seq<nat>, r: nat, maxTmp: nat, limit: nat)
    requires History(p0, n0, spilled, maxTmp, limit) && all == spilled + [r]
    ensures RoundsBefore(p0, n0, all, |spilled|, maxTmp, limit)
  {
    forall k: nat | k < |spilled| ensures RoundNeeded(p0, n0, all, k, maxTmp, limit) {
      assert all[..k] == spilled[..k];
      RoundStays(p0, n0, spilled, all, k, maxTmp, limit);
    }
  }

  lemma OneMore(spilled: seq<nat>, n0: nat, r: nat)
    requires AllTemps(spilled) && Distinct(spilled) && (forall k | 0 <= k < |spilled| :: spilled[k] < n0)
    requires MAX_BPF_REG <= r && Free(n0, spilled, r)
    ensures var all := spilled + [r]; AllTemps(all) && Distinct(all) && (forall k | 0 <= k < |all| :: all[k] < n0)
  {
  }

  lemma SpillsNext(p0: seq<Block>, n0: nat, p: seq<Block>, n: nat, spilled: seq<nat>, maxTmp: nat, r: nat)
    requires (p, n) == SpillsTo(p0, n0, spilled, maxTmp)
    ensures SpillsTo(p0, n0, spilled + [r], maxTmp) ==
      (SpillBlocks(p, r, SlotOff(|spilled|, maxTmp), n), TmpAt(p, r, n, |p|))
  {
    assert (spilled + [r])[..|spilled|] == spilled;
  }

  lemma NothingLeft(p0: seq<Block>, n0: nat, p: seq<Block>, n: nat, spilled: seq<nat>, maxTmp: nat, limit: nat,
                    ordered: seq<nat>, reg: nat)
    requires (p, n) == SpillsTo(p0, n0, spilled, maxTmp) && Uncolorable(p, n, ordered, reg)
    requires Stalled(ordered, reg, n0, spilled, maxTmp, limit)
    ensures Exhausted(p0, n0, spilled, maxTmp, limit)
  {
  }

  /** The k slots given out are within reach of a 16-bit offset. */
  predicate InReach(k: nat, maxTmp: nat) {
    k == 0 || 8 * k + maxTmp <= 0x8000
  }

  /** What holds after these spills. */
  ghost predicate RoundInv(p0: seq<Block>, n0: nat, p: seq<Block>, nregs: nat, spilled: seq<nat>, maxTmp: nat,
                           limit: nat)
  {
    WfBlocks(p, nregs) && SameEdges(p0, p) && (p[0].insns == [] ==> p0[0].insns == [])
    && (p, nregs) == SpillsTo(p0, n0, spilled, maxTmp) && n0 <= nregs && History(p0, n0, spilled, maxTmp, limit)
    && ChainHolds(p0, p, spilled, maxTmp)
    && (AllLowered(p0) && InReach(|spilled|, maxTmp) ==> AllLowered(p))
  }

  lemma RoundStarts(p: seq<Block>, nregs: nat, maxTmp: nat, limit: nat)
    requires WfBlocks(p, nregs)
    ensures RoundInv(p, nregs, p, nregs, [], maxTmp, limit)
  {
    ChainStarts(p, maxTmp);
  }

  lemma ReachFits(k: nat, maxTmp: nat, off: int)
    requires InReach(k + 1, maxTmp) && off == SlotOff(k, maxTmp)
    ensures InReach(k, maxTmp) && FitsInt16(-off)
  {
  }

  lemma RoundSpills(p0: seq<Block>, n0: nat, p: seq<Block>, nregs: nat, spilled: seq<nat>, maxTmp: nat, limit: nat,
                    ordered: seq<nat>, reg: nat, r: nat)
    requires RoundInv(p0, n0, p, nregs, spilled, maxTmp, limit) && Uncolorable(p, nregs, ordered, reg)
    requires Picks(ordered, reg, n0, spilled, r)
    requires MAX_BPF_REG <= r < nregs && SlotOff(|spilled|, maxTmp) <= limit < 0x1_0000_0000
    ensures RoundInv(p0, n0, SpillBlocks(p, r, SlotOff(|spilled|, maxTmp), nregs), TmpAt(p, r, nregs, |p|),
                     spilled + [r], maxTmp, limit)
  {
    SpillsNext(p0, n0, p, nregs, spilled, maxTmp, r);
    HistoryGrows(p0, n0, p, nregs, spilled, maxTmp, limit, ordered, reg, r);
    ChainSpills(p0, p, nregs, spilled, maxTmp, r);
    TmpAtGrows(p, r, nregs, 0, |p|);
    SpillForm(p0, p, nregs, |spilled|, maxTmp, r);
  }

  lemma SpillForm(p0: seq<Block>, p: seq<Block>, nregs: nat, k: nat, maxTmp: nat, reg: nat)
    requires WfBlocks(p, nregs) && SameEdges(p0, p) && (AllLowered(p0) && InReach(k, maxTmp) ==> AllLowered(p))
    requires MAX_BPF_REG <= reg < nregs
    ensures var p' := SpillBlocks(p, reg, SlotOff(k, maxTmp), nregs);
      WfBlocks(p', TmpAt(p, reg, nregs, |p|)) && SameEdges(p0, p') && (p'[0].insns == [] ==> p[0].insns == [])
      && (AllLowered(p0) && InReach(k + 1, maxTmp) ==> AllLowered(p'))
  {
    var off := SlotOff(k, maxTmp);
    SpillWf(p, reg, off, nregs);
    if p[0].insns != [] { SpillEntry(p, reg, off, nregs); }
    if AllLowered(p0) && InReach(k + 1, maxTmp) {
      ReachFits(k, maxTmp, off);
      SpillLowered(p, reg, off, nregs);
    }
  }

  /** What reg_alloc has achieved when it succeeds. */
  ghost predicate Allocates(p0: seq<Block>, n0: nat, p: seq<Block>, h: Homes, maxTmp: nat) {
    WfBlocks(p, MAX_BPF_REG) && SameEdges(p0, p) && (p[0].insns == [] ==> p0[0].insns == [])
    && Placed(h) && n0 <= |h.colors| && (forall r | MAX_BPF_REG <= r < |h.colors| :: h.colors[r] < FRAME)
    && p == RenameBlocks(h.colors, SpillsTo(p0, n0, h.spilled, maxTmp).0)
    && KeepsBehaviour(p0, p, h, maxTmp)
    && (AllLowered(p0) && InReach(|h.spilled|, maxTmp) ==> AllLowered(p))
  }

  lemma RenameForm(p0: seq<Block>, p: seq<Block>, nregs: nat, f: seq<nat>)
    requires WfBlocks(p, nregs) && SameEdges(p0, p) && (p[0].insns == [] ==> p0[0].insns == [])
    requires Fixed(f) && |f| == nregs && forall r | MAX_BPF_REG <= r < nregs :: f[r] < FRAME
    ensures var p' := RenameBlocks(f, p);
      WfBlocks(p', MAX_BPF_REG) && SameEdges(p0, p') && (p'[0].insns == [] ==> p0[0].insns == [])
      && (AllLowered(p) ==> AllLowered(p'))
  {
    RenameWf(f, p, nregs);
    if AllLowered(p) { RenameLowered(f, p); }
  }

  lemma RoundEnds(p0: seq<Block>, n0: nat, p: seq<Block>, nregs: nat, h: Homes, maxTmp: nat, limit: nat,
                  liveIn: seq<set<nat>>)
    requires RoundInv(p0, n0, p, nregs, h.spilled, maxTmp, limit) && Closed(p, liveIn)
    requires ProgramOk(h.colors, p, liveIn) && |h.colors| == nregs
    requires forall r | MAX_BPF_REG <= r < nregs :: h.colors[r] < FRAME
    ensures Allocates(p0, n0, RenameBlocks(h.colors, p), h, maxTmp)
  {
    ChainEnds(p0, p, nregs, h, maxTmp, liveIn);
    RenameForm(p0, p, nregs, h.colors);
  }

  // ----- marks and space -----

  /** Marked are the registers made by spills and the ones spilled. */
  predicate Marked(marks: seq<bool>, nregs: nat, n0: nat, spilled: seq<nat>) {
    |marks| == nregs && forall r | 0 <= r < nregs :: marks[r] <==> !Free(n0, spilled, r)
  }

  lemma MarkOne(marks: seq<bool>, nregs: nat, n0: nat, spilled: seq<nat>, r: nat, extra: nat)
    requires Marked(marks, nregs, n0, spilled) && r < nregs && !marks[r] && n0 <= nregs
    ensures var now := marks[r := true] + seq(extra, _ => true);
      Marked(now, nregs + extra, n0, spilled + [r]) && CountFalse(now) < CountFalse(marks)
  {
    UnspilledFalls(marks, r, extra);
  }

  /** max_reg_space once n slots have been reserved. */
  function RegSpace(n: nat, maxTmp: nat, was: nat): nat {
    if n == 0 then was else MaxOf(8 * n + maxTmp, was)
  }

  /** What n slots take: max_reg_space, within the stack limit. */
  predicate SpaceUsed(now: nat, n: nat, maxTmp: nat, was: nat, limit: nat) {
    now == RegSpace(n, maxTmp, was) && (n > 0 ==> 8 * n + maxTmp <= limit)
  }

  lemma SpaceNext(n: nat, maxTmp: nat, was: nat, now: nat, next: nat, limit: nat)
    requires SpaceUsed(now, n, maxTmp, was, limit)
    requires next == MaxOf(8 * (n + 1) + maxTmp, now) && 8 * (n + 1) + maxTmp <= limit
    ensures SpaceUsed(next, n + 1, maxTmp, was, limit)
  {
  }

  // ----- reg_alloc -----

  /** What reg_alloc is given: the program, its registers, max_reg_space and
      max_tmp_space, and the size of the stack. */
  datatype Job = Job(blocks: seq<Block>, nregs: nat, space: nat, maxTmp: nat, limit: nat)

  /** What a round starts from: the program, its registers, max_reg_space, and
      the marks. */
  datatype Stage = Stage(blocks: seq<Block>, nregs: nat, space: nat, marks: seq<bool>)

  /** One more register spilled, the right one, to the next slot, and marked along
      with the new registers. */
  ghost predicate SpillMade(j: Job, x: Stage, spilled: seq<nat>, ordered: seq<nat>, reg: nat, r: nat, y: Stage) {
    var off := SlotOff(|spilled|, j.maxTmp);
    Picks(ordered, reg, j.nregs, spilled, r) && MAX_BPF_REG <= r < x.nregs && off <= j.limit
    && y.blocks == SpillBlocks(x.blocks, r, off, x.nregs) && y.nregs == TmpAt(x.blocks, r, x.nregs, |x.blocks|)
    && y.space == MaxOf(8 * (|spilled| + 1) + j.maxTmp, x.space)
    && Marked(y.marks, y.nregs, j.nregs, spilled + [r]) && CountFalse(y.marks) < CountFalse(x.marks)
  }

  lemma MarksMade(j: Job, x: Stage, spilled: seq<nat>, r: nat, y: Stage)
    requires Marked(x.marks, x.nregs, j.nregs, spilled) && j.nregs <= x.nregs <= y.nregs && r < x.nregs && !x.marks[r]
    requires y.marks == x.marks[r := true] + seq(y.nregs - x.nregs, _ => true)
    ensures Marked(y.marks, y.nregs, j.nregs, spilled + [r]) && CountFalse(y.marks) < CountFalse(x.marks)
  {
    MarkOne(x.marks, x.nregs, j.nregs, spilled, r, y.nregs - x.nregs);
  }

  /** The last unspilled register before reg, given the next slot. */
  lemma SpillDone(j: Job, x: Stage, spilled: seq<nat>, ordered: seq<nat>, reg: nat, r: nat, y: Stage)
    requires Marked(x.marks, x.nregs, j.nregs, spilled) && ListsTemps(ordered, x.nregs) && j.nregs <= x.nregs
    requires LastUnspilled(ordered[..IndexOf(ordered, reg)], x.marks) == Some(r)
    requires SlotOff(|spilled|, j.maxTmp) <= j.limit
    requires y.blocks == SpillBlocks(x.blocks, r, SlotOff(|spilled|, j.maxTmp), x.nregs)
    requires y.nregs == TmpAt(x.blocks, r, x.nregs, |x.blocks|) >= x.nregs
    requires y.space == MaxOf(8 * (|spilled| + 1) + j.maxTmp, x.space)
    requires r < |x.marks| && y.marks == x.marks[r := true] + seq(y.nregs - x.nregs, _ => true)
    ensures SpillMade(j, x, spilled, ordered, reg, r, y)
  {
    PickIsLast(ordered, reg, x.marks, x.nregs, j.nregs, spilled);
    MarksMade(j, x, spilled, r, y);
  }

  /** The second half of a failed round: pick the last register before the failed
      one that may be spilled, give it the next slot, and mark it and the new
      registers; or find that there is none, or no room. */
  method SpillRound(p: Program, reg: nat, ordered: seq<nat>, marks: seq<bool>, numSpills: nat, ghost j: Job,
                    ghost spilled: seq<nat>)
    returns (res: Result<seq<bool>>, ghost chosen: nat)
    requires Marked(marks, p.nregs, j.nregs, spilled) && ListsTemps(ordered, p.nregs) && j.nregs <= p.nregs
    requires numSpills == |spilled| && j.maxTmp == p.maxTmpSpace && j.limit == p.stackLimit
    modifies p
    ensures p.maxTmpSpace == old(p.maxTmpSpace)
    ensures res.Ok? ==> var x := Stage(old(p.blocks), old(p.nregs), old(p.maxRegSpace), marks);
      SpillMade(j, x, spilled, ordered, reg, chosen, Stage(p.blocks, p.nregs, p.maxRegSpace, res.value))
    ensures res.Err? ==> p.blocks == old(p.blocks) && p.nregs == old(p.nregs)
    ensures res.Err? ==> Stalled(ordered, reg, j.nregs, spilled, j.maxTmp, j.limit)
  {
    ghost var x := Stage(p.blocks, p.nregs, p.maxRegSpace, marks);
    chosen := 0;
    var pick := ChooseSpillReg(reg, ordered, marks);
    if pick.Err? {
      NoneToPick(ordered, reg, marks, p.nregs, j, spilled);
      return Err(pick.error), 0;
    }
    chosen := pick.value;
    LastIsTemp(ordered, reg, marks, p.nregs);
    var slot := Spill(pick.value, numSpills, p);
    if slot.Err? { return Err(slot.error), 0; }
    TmpAtGrows(x.blocks, chosen, x.nregs, 0, |x.blocks|);
    var now := marks[pick.value := true] + seq(p.nregs - |marks|, _ => true);
    SpillDone(j, x, spilled, ordered, reg, chosen, Stage(p.blocks, p.nregs, p.maxRegSpace, now));
    res := Ok(now);
  }

  lemma NoneToPick(ordered: seq<nat>, reg: nat, marks: seq<bool>, nregs: nat, j: Job, spilled: seq<nat>)
    requires Marked(marks, nregs, j.nregs, spilled) && ListsTemps(ordered, nregs)
    requires LastUnspilled(ordered[..IndexOf(ordered, reg)], marks).None?
    ensures Stalled(ordered, reg, j.nregs, spilled, j.maxTmp, j.limit)
  {
    var list := ordered[..IndexOf(ordered, reg)];
    forall k | 0 <= k < |list| ensures !Free(j.nregs, spilled, ordered[k]) { assert marks[list[k]]; }
  }

  lemma LastIsTemp(ordered: seq<nat>, reg: nat, marks: seq<bool>, nregs: nat)
    requires |marks| == nregs && ListsTemps(ordered, nregs)
    requires LastUnspilled(ordered[..IndexOf(ordered, reg)], marks).Some?
    ensures MAX_BPF_REG <= LastUnspilled(ordered[..IndexOf(ordered, reg)], marks).value < nregs
  {
  }

  lemma PickIsLast(ordered: seq<nat>, reg: nat, marks: seq<bool>, nregs: nat, n0: nat, spilled: seq<nat>)
    requires Marked(marks, nregs, n0, spilled) && ListsTemps(ordered, nregs)
    requires LastUnspilled(ordered[..IndexOf(ordered, reg)], marks).Some?
    ensures var r := LastUnspilled(ordered[..IndexOf(ordered, reg)], marks).value;
      MAX_BPF_REG <= r < nregs && !marks[r] && Picks(ordered, reg, n0, spilled, r)
  {
    var n := IndexOf(ordered, reg);
    var list := ordered[..n];
    var r := LastUnspilled(list, marks).value;
    var k :| 0 <= k < |list| && list[k] == r && forall j | k < j < |list| :: marks[list[j]];
    forall j | k < j < n ensures !Free(n0, spilled, ordered[j]) { assert marks[list[j]]; }
    assert ordered[k] == r;
  }

  /** The program after these spills. */
  ghost predicate Reached(j: Job, x: Stage, spilled: seq<nat>) {
    RoundInv(j.blocks, j.nregs, x.blocks, x.nregs, spilled, j.maxTmp, j.limit)
  }

  /** The marks and the space after them. */
  predicate Tallied(j: Job, x: Stage, spilled: seq<nat>) {
    Marked(x.marks, x.nregs, j.nregs, spilled) && SpaceUsed(x.space, |spilled|, j.maxTmp, j.space, j.limit)
  }

  lemma SpillReaches(j: Job, x: Stage, spilled: seq<nat>, ordered: seq<nat>, reg: nat, r: nat, y: Stage)
    requires Reached(j, x, spilled) && Uncolorable(x.blocks, x.nregs, ordered, reg) && j.limit < 0x1_0000_0000
    requires SpillMade(j, x, spilled, ordered, reg, r, y)
    ensures Reached(j, y, spilled + [r])
  {
    RoundSpills(j.blocks, j.nregs, x.blocks, x.nregs, spilled, j.maxTmp, j.limit, ordered, reg, r);
  }

  lemma SpillTallies(j: Job, x: Stage, spilled: seq<nat>, ordered: seq<nat>, reg: nat, r: nat, y: Stage)
    requires Tallied(j, x, spilled) && SpillMade(j, x, spilled, ordered, reg, r, y)
    ensures Tallied(j, y, spilled + [r]) && CountFalse(y.marks) < CountFalse(x.marks)
  {
    SpaceNext(|spilled|, j.maxTmp, j.space, x.space, y.space, j.limit);
  }

  lemma StallExhausts(j: Job, x: Stage, spilled: seq<nat>, ordered: seq<nat>, reg: nat)
    requires Reached(j, x, spilled) && Uncolorable(x.blocks, x.nregs, ordered, reg)
    requires Stalled(ordered, reg, j.nregs, spilled, j.maxTmp, j.limit)
    ensures (x.blocks, x.nregs) == SpillsTo(j.blocks, j.nregs, spilled, j.maxTmp)
    ensures Exhausted(j.blocks, j.nregs, spilled, j.maxTmp, j.limit)
  {
    NothingLeft(j.blocks, j.nregs, x.blocks, x.nregs, spilled, j.maxTmp, j.limit, ordered, reg);
  }

  /** reg_alloc. It always ends, since every failed round marks one more of the
      original registers and never picks a new one; each spill was needed. On
      success every register is hard and, for every machine and every start, the
      program behaves like the original one from the start this one stands for,
      outside the spill area. On failure some register is shut out of every hard
      register and there is nothing left to spill for it. */
  method RegisterAllocate(p: Program) returns (res: Result<nat>, ghost h: Homes)
    requires WfBlocks(p.blocks, p.nregs) && p.stackLimit < 0x1_0000_0000
    modifies p
    ensures p.maxTmpSpace == old(p.maxTmpSpace)
    ensures History(old(p.blocks), old(p.nregs), h.spilled, p.maxTmpSpace, p.stackLimit)
    ensures res.Ok? ==>
      res.value == |h.spilled| && SpaceUsed(p.maxRegSpace, res.value, p.maxTmpSpace, old(p.maxRegSpace), p.stackLimit)
    ensures res.Ok? ==> Allocates(old(p.blocks), old(p.nregs), p.blocks, h, p.maxTmpSpace)
    ensures res.Err? ==> (p.blocks, p.nregs) == SpillsTo(old(p.blocks), old(p.nregs), h.spilled, p.maxTmpSpace)
    ensures res.Err? ==> Exhausted(old(p.blocks), old(p.nregs), h.spilled, p.maxTmpSpace, p.stackLimit)
  {
    ghost var j := Job(p.blocks, p.nregs, p.maxRegSpace, p.maxTmpSpace, p.stackLimit);
    RoundStarts(p.blocks, p.nregs, p.maxTmpSpace, p.stackLimit);
    var marks := seq(p.nregs, _ => false);
    var numSpills := 0;
    ghost var spilled: seq<nat> := [];
    while true
      invariant p.maxTmpSpace == old(p.maxTmpSpace) && numSpills == |spilled|
      invariant Reached(j, Stage(p.blocks, p.nregs, p.maxRegSpace, marks), spilled)
      invariant Tallied(j, Stage(p.blocks, p.nregs, p.maxRegSpace, marks), spilled)
      decreases CountFalse(marks)
    {
      ghost var x := Stage(p.blocks, p.nregs, p.maxRegSpace, marks);
      var reg, ordered, f, liveIn := ColorRound(p);
      if reg == 0 {
        RoundEnds(j.blocks, j.nregs, x.blocks, x.nregs, Homes(spilled, f), j.maxTmp, j.limit, liveIn);
        p.blocks := RenameBlocks(f, p.blocks);
        return Ok(numSpills), Homes(spilled, f);
      }
      var next, chosen := SpillRound(p, reg, ordered, marks, numSpills, j, spilled);
      if next.Err? {
        StallExhausts(j, x, spilled, ordered, reg);
        return Err(next.error), Homes(spilled, []);
      }
      ghost var y := Stage(p.blocks, p.nregs, p.maxRegSpace, next.value);
      SpillReaches(j, x, spilled, ordered, reg, chosen, y);
      SpillTallies(j, x, spilled, ordered, reg, chosen, y);
      marks := next.value;
      numSpills := numSpills + 1;
      spilled := spilled + [chosen];
    }
  }
}
