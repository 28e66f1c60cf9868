/** program::generate: all passes in order, and the end-to-end theorem. */
module Generation {
  import opened Ir
  import opened Machine
  import opened Simulation
  import opened Liveness
  import opened Memory
  import opened Programs
  import opened Fixup
  import opened Jumps
  import opened Threading
  import opened Reorder
  import opened ReorderMeaning
  import opened RegAlloc
  import opened Allocation
  import opened AllocationMeaning
  import opened Zeroing
  import opened Linear
  import opened Emission
  import opened Renaming
  import opened Flattening

  // ----- what every pass keeps -----

  /** Well formed, with an entry that has an instruction and that nothing leads
      back to; `live` solves the data-flow inequations. */
  ghost predicate Staged(p: seq<Block>, nregs: nat, live: seq<set<nat>>) {
    WfBlocks(p, nregs) && EntryFirst(p) && p[0].insns != [] && Closed(p, live)
  }

  lemma StageStarts(p: seq<Block>, nregs: nat)
    requires WfBlocks(p, nregs) && EntryFirst(p) && p[0].insns != []
    ensures Staged(p, nregs, LiveSets(p, nregs))
  {
    LiveSetsClosed(p, nregs);
  }

  /** A solution names every register live at the entry. */
  lemma StageLives(p: seq<Block>, nregs: nat, live: seq<set<nat>>)
    requires Staged(p, nregs, live)
    ensures forall r: nat | LiveAt(p, 0, r) :: r in live[0]
  {
    forall r: nat | LiveAt(p, 0, r) ensures r in live[0] {
      var path :| PathFrom(p, path, 0, r);
      ClosedIsComplete(p, live, path, r);
    }
  }

  // ----- the passes before allocation -----

  lemma FixupStage(p: seq<Block>, n0: nat, live: seq<set<nat>>)
    requires Staged(p, n0, live) && AllReady(p)
    ensures Staged(FixupBlocks(p, n0), NextAt(p, n0, |p|), live)
  {
    FixupForm(p, n0);
    FixupClosed(p, n0, live);
    FixupEntry(p, n0);
  }

  lemma FixupEntry(p: seq<Block>, n0: nat)
    requires p != [] && p[0].insns != []
    ensures FixupBlocks(p, n0)[0].insns != []
  {
  }

  lemma {:induction false} ChainAvoids(p: seq<Block>, i: nat, k: nat)
    requires EntryFirst(p) && InBounds(ForwardsOf(p)) && 0 < i < |p|
    ensures Chain(ForwardsOf(p), i, k) != Some(0)
    decreases k
  {
    if k > 0 && Forwards(p[i]).Some? { ChainAvoids(p, Forwards(p[i]).value, k - 1); }
  }

  lemma RedirectAvoids(p: seq<Block>, g: Fwds, e: Option<nat>)
    requires EntryFirst(p) && InBounds(ForwardsOf(p)) && Settled(ForwardsOf(p), g)
    requires e != Some(0) && (e.Some? ==> e.value < |p|)
    ensures Redirect(e, g) != Some(0)
  {
    if e.Some? {
      EdgesReachEnds(p, g, e);
      var t := Redirect(e, g).value;
      if OnChain(ForwardsOf(p), e.value, t) {
        var k: nat :| k >= 1 && Chain(ForwardsOf(p), e.value, k) == Some(t);
        ChainAvoids(p, e.value, k);
      }
    }
  }

  lemma ThreadStage(p: seq<Block>, nregs: nat, live: seq<set<nat>>, g: Fwds)
    requires Staged(p, nregs, live) && InBounds(ForwardsOf(p)) && Settled(ForwardsOf(p), g)
    ensures Staged(ThreadBlocks(p, g), nregs, live)
  {
    var q := ThreadBlocks(p, g);
    ThreadWf(p, nregs, g);
    ThreadClosed(p, nregs, live, g);
    forall b | 0 <= b < |q| ensures q[b].taken != Some(0) && q[b].fallthru != Some(0) {
      assert WfBlock(p[b], nregs, |p|);
      RedirectAvoids(p, g, p[b].taken);
      RedirectAvoids(p, g, p[b].fallthru);
    }
  }

  lemma FoldStage(p: seq<Block>, nregs: nat, live: seq<set<nat>>)
    requires Staged(p, nregs, live)
    ensures Staged(FoldBlocks(p), nregs, live)
  {
    FoldWf(p, nregs);
    FoldClosed(p, nregs, live);
  }

  /** A jump made by fold_jumps is encoded with the operands of the comparison in
      fields it does not use; they are clear only for a comparison of R0 with
      itself or with zero. */
  lemma FoldedFields(b: Block, off: int)
    requires Foldable(b) && b.insns[|b.insns| - 1].code.Jcond? && b.insns[|b.insns| - 1].dest.None?
    ensures var k := |b.insns| - 1;
      var i, r := b.insns[k], Encode(FoldBlock(b).insns[k], off);
      r == [Raw(Ja, RegOf(i.src0), RegOf(i.src1), Signed16(off), Signed32(ImmOf(i.src1)))]
      && (FitsInt32(ImmOf(i.src1)) ==>
            (r[0].dst == r[0].src == r[0].imm == 0 <==> RegOf(i.src0) == RegOf(i.src1) == ImmOf(i.src1) == 0))
  {
  }

  lemma ReorderAvoids(p: seq<Block>, l: Layout, k: nat)
    requires EntryFirst(p) && LoopInv(p, l) && l.worklist == [] && k < |l.ordered| && p != []
    ensures Renumbered(l)[k].taken != Some(0) && Renumbered(l)[k].fallthru != Some(0)
  {
    PlacesReachable(p, l, 0);
    var b := l.ordered[k];
    var cur := l.blocks[b];
    assert cur.taken != Some(0) && cur.fallthru != Some(0) by {
      if b < |p| {
        assert Became(p[b], cur, l.blocks, |p|);
      } else {
        assert IsJumpTo(p, l.visited, cur);
      }
    }
  }

  lemma ReorderEntry(p: seq<Block>, l: Layout)
    requires EntryFirst(p) && p != [] && p[0].insns != [] && LoopInv(p, l) && l.worklist == []
    ensures Renumbered(l) != [] && Renumbered(l)[0].insns != [] && EntryFirst(Renumbered(l))
  {
    PlacesReachable(p, l, 0);
    assert Became(p[0], l.blocks[0], l.blocks, |p|) && Renumbered(l)[0].insns == l.blocks[0].insns != [];
    forall k | 0 <= k < |l.ordered| ensures Renumbered(l)[k].taken != Some(0) && Renumbered(l)[k].fallthru != Some(0) {
      ReorderAvoids(p, l, k);
    }
  }

  lemma ReorderStage(p: seq<Block>, nregs: nat, live: seq<set<nat>>, l: Layout)
    requires Staged(p, nregs, live) && LoopInv(p, l) && l.worklist == []
    ensures Staged(Renumbered(l), nregs, LiveLaidOut(p, l, live)) && LaidOut(Renumbered(l))
    ensures LiveLaidOut(p, l, live)[0] == live[0]
  {
    ReorderEntry(p, l);
    PlacesReachable(p, l, 0);
    ResultWf(p, nregs, l);
    ResultLaidOut(p, l);
    ReorderClosed(p, nregs, l, live);
  }

  /** On the machine, the second program does what the first does, and keeps
      off the protected bytes. */
  ghost predicate Refines(sem: Sem, p: seq<Block>, q: seq<Block>, s: State, g: set<Word>) {
    Safe(Stepping(sem, q), Goto(0, s)) && SameBehaviour(Stepping(sem, p), Goto(0, s), Stepping(sem, q), Goto(0, s), g)
  }

  lemma RefinesTrans(sem: Sem, p: seq<Block>, q: seq<Block>, r: seq<Block>, s: State, g: set<Word>)
    requires Refines(sem, p, q, s, g) && Refines(sem, q, r, s, g)
    ensures Refines(sem, p, r, s, g)
  {
    BehaviourTrans(Stepping(sem, p), Goto(0, s), Stepping(sem, q), Goto(0, s), Stepping(sem, r), Goto(0, s), g);
  }

  /** On every machine with the usual commutative operators, from every start
      from which the first program is safe. */
  ghost predicate Optimised(p: seq<Block>, q: seq<Block>) {
    forall sem, s, g: set<Word> {:trigger Refines(sem, p, q, s, g)} |
      Commutes(sem) && Safe(Stepping(sem, p), Goto(0, s)) :: Refines(sem, p, q, s, g)
  }

  /** g is where the forwarders of the lowered program lead. */
  ghost predicate Threaded(p0: seq<Block>, n0: nat, g: Fwds) {
    var f := ForwardsOf(FixupBlocks(p0, n0));
    InBounds(f) && Settled(f, g)
  }

  lemma OptimisedAll(p0: seq<Block>, n0: nat, live: seq<set<nat>>, g: Fwds, l: Layout)
    requires Staged(p0, n0, live) && AllReady(p0)
    requires Threaded(p0, n0, g) && LoopInv(FoldBlocks(ThreadBlocks(FixupBlocks(p0, n0), g)), l) && l.worklist == []
    ensures Optimised(p0, Renumbered(l))
  {
    var p1 := FixupBlocks(p0, n0);
    var n1 := NextAt(p0, n0, |p0|);
    FixupStage(p0, n0, live);
    ThreadStage(p1, n1, live, g);
    var p2 := ThreadBlocks(p1, g);
    FoldStage(p2, n1, live);
    var p3, p4 := FoldBlocks(p2), Renumbered(l);
    forall sem, s, v: set<Word> | Commutes(sem) && Safe(Stepping(sem, p0), Goto(0, s))
      ensures Refines(sem, p0, p4, s, v)
    {
      FixupBehaviour(sem, p0, n0, s, v);
      ThreadBehaviour(sem, p1, n1, g, s, v);
      FoldBehaviour(sem, p2, n1, s, v);
      ReorderBehaviour(sem, p3, n1, l, s, v);
      RefinesTrans(sem, p0, p1, p2, s, v);
      RefinesTrans(sem, p0, p2, p3, s, v);
      RefinesTrans(sem, p0, p3, p4, s, v);
    }
  }

  /** If the offsets fit, the result is in the form the encoder needs. */
  lemma LoweredAll(p0: seq<Block>, n0: nat, live: seq<set<nat>>, g: Fwds, l: Layout)
    requires Staged(p0, n0, live) && AllReady(p0) && OffsetsFit(p0)
    requires Threaded(p0, n0, g) && LoopInv(FoldBlocks(ThreadBlocks(FixupBlocks(p0, n0), g)), l) && l.worklist == []
    ensures AllLowered(Renumbered(l))
  {
    var p1, n1 := FixupBlocks(p0, n0), NextAt(p0, n0, |p0|);
    FixupStage(p0, n0, live);
    FixupLowers(p0, n0);
    ThreadStage(p1, n1, live, g);
    ThreadLowered(p1, g);
    FoldStage(ThreadBlocks(p1, g), n1, live);
    FoldLowered(ThreadBlocks(p1, g), n1);
    ResultWf(FoldBlocks(ThreadBlocks(p1, g)), n1, l);
  }

  /** The form in which the passes before allocation leave a program, with
      registers n and these live at the entry. */
  ghost predicate FrontFormed(q: seq<Block>, n: nat, live: set<nat>, fit: bool) {
    WfBlocks(q, n) && EntryFirst(q) && q[0].insns != [] && LaidOut(q) && (fit ==> AllLowered(q))
    && forall r: nat | LiveAt(q, 0, r) :: r in live
  }

  lemma FrontForm(p0: seq<Block>, n0: nat, live: seq<set<nat>>, g: Fwds, l: Layout)
    requires Staged(p0, n0, live) && AllReady(p0)
    requires Threaded(p0, n0, g) && LoopInv(FoldBlocks(ThreadBlocks(FixupBlocks(p0, n0), g)), l) && l.worklist == []
    ensures FrontFormed(Renumbered(l), NextAt(p0, n0, |p0|), live[0], OffsetsFit(p0))
  {
    var p1, n1 := FixupBlocks(p0, n0), NextAt(p0, n0, |p0|);
    var p3 := FoldBlocks(ThreadBlocks(p1, g));
    FixupStage(p0, n0, live);
    ThreadStage(p1, n1, live, g);
    FoldStage(ThreadBlocks(p1, g), n1, live);
    ReorderStage(p3, n1, live, l);
    StageLives(Renumbered(l), n1, LiveLaidOut(p3, l, live));
    if OffsetsFit(p0) { LoweredAll(p0, n0, live, g, l); }
  }

  // ----- thread_jumps can be called -----

  lemma {:induction false} ShorterChain(f: Fwds, f': Fwds, i: nat, k: nat)
    requires InBounds(f) && InBounds(f') && |f| == |f'| && i < |f|
    requires forall j: nat | j < |f| && f'[j].Some? :: f'[j] == f[j]
    requires Chain(f', i, k).Some?
    ensures Chain(f, i, k) == Chain(f', i, k)
    decreases k
  {
    if k > 0 { ShorterChain(f, f', f[i].value, k - 1); }
  }

  /** With fewer forwarders there are no more endless chains. */
  lemma StillThreadable(f: Fwds, f': Fwds)
    requires InBounds(f) && InBounds(f') && |f| == |f'| && Threadable(f)
    requires forall j: nat | j < |f| && f'[j].Some? :: f'[j] == f[j]
    ensures Threadable(f')
  {
    forall i: nat | i < |f'| && Endless(f', i) ensures f'[i] == Some(i) {
      forall k: nat ensures Chain(f, i, k).Some? {
        ShorterChain(f, f', i, k);
      }
      assert Endless(f, i);
      assert Chain(f', i, 1).Some?;
    }
  }

  lemma FixupForwards(b: Block, n0: nat, n: nat, nblocks: nat)
    requires WfBlock(b, n0, nblocks) && MAX_BPF_REG <= n0 <= n && ReadyInsns(b.insns)
    ensures var b' := b.(insns := FixupInsns(b.insns, n)); Forwards(b').Some? ==> Forwards(b') == Forwards(b)
  {
    var ins := b.insns;
    FixupInsnsForm(ins, n0, n, InsnsNext(ins, n));
    if |ins| >= 2 {
      var rest, n' := ins[1..], FixupNext(ins[0], n);
      InsnsNextGrows(rest, n');
      FixupInsnForm(ins[0], n0, n, InsnsNext(ins, n));
      assert forall k | 0 <= k < |rest| :: rest[k] == ins[k + 1];
      FixupInsnsForm(rest, n0, n', InsnsNext(ins, n));
      assert |FixupInsns(ins, n)| >= 2;
    }
  }

  /** Clearing the stack and lowering operands make no new forwarders. */
  lemma LoweredThreadable(p: seq<Block>, n0: nat, lo: int, hi: int)
    requires WfBlocks(p, n0) && InBounds(ForwardsOf(p)) && Threadable(ForwardsOf(p))
    requires WfBlocks(ZeroBlocks(p, lo, hi), n0) && AllReady(ZeroBlocks(p, lo, hi))
    ensures var q := FixupBlocks(ZeroBlocks(p, lo, hi), n0); InBounds(ForwardsOf(q)) ==> Threadable(ForwardsOf(q))
  {
    var p0 := ZeroBlocks(p, lo, hi);
    var q := FixupBlocks(p0, n0);
    if InBounds(ForwardsOf(q)) {
      forall j: nat | j < |p| && ForwardsOf(q)[j].Some? ensures ForwardsOf(q)[j] == ForwardsOf(p)[j] {
        assert WfBlock(p0[j], n0, |p0|);
        NextAtGrows(p0, n0, 0, j);
        FixupForwards(p0[j], n0, NextAt(p0, n0, j), |p0|);
      }
      StillThreadable(ForwardsOf(p), ForwardsOf(q));
    }
  }

  lemma ZeroReady(p: seq<Block>, nregs: nat, lo: int, hi: int)
    requires p != [] && AllReady(p) && OffsetsFit(p) && MAX_BPF_REG <= nregs
    ensures AllReady(ZeroBlocks(p, lo, hi)) && (-0x8000 <= lo && hi <= 0x8000 ==> OffsetsFit(ZeroBlocks(p, lo, hi)))
  {
    ZeroStoresForm(lo, hi, nregs);
    ZeroStoresReady(lo, hi);
    var q := ZeroBlocks(p, lo, hi);
    forall b | 0 <= b < |q| ensures ReadyInsns(q[b].insns) && (-0x8000 <= lo && hi <= 0x8000 ==> InsnsFit(q[b].insns)) {
      assert ReadyInsns(p[b].insns) && InsnsFit(p[b].insns);
    }
  }

  lemma ZeroStage(p: seq<Block>, nregs: nat, live: seq<set<nat>>, lo: int, hi: int)
    requires Staged(p, nregs, live)
    ensures Staged(ZeroBlocks(p, lo, hi), nregs, WithFrame(live))
  {
    ZeroForm(p, nregs, lo, hi);
    ZeroClosed(p, lo, hi, live);
  }

  lemma {:induction false} ZeroStoresReady(lo: int, hi: int)
    ensures ReadyInsns(ZeroStores(lo, hi))
    decreases hi - lo
  {
    if lo < hi { ZeroStoresReady(lo + 4, hi); }
  }

  // ----- the whole of generate -----

  /** fixup_operands and thread_jumps. */
  method LowerAndThread(p: Program, ghost live: seq<set<nat>>) returns (ghost g: Fwds)
    requires Staged(p.blocks, p.nregs, live) && AllReady(p.blocks) && |p.prevs| == |p.blocks|
    requires var f := ForwardsOf(FixupBlocks(p.blocks, p.nregs)); InBounds(f) ==> Threadable(f)
    modifies p`blocks, p`nregs, p`prevs
    ensures Threaded(old(p.blocks), old(p.nregs), g)
    ensures p.blocks == ThreadBlocks(FixupBlocks(old(p.blocks), old(p.nregs)), g)
    ensures p.nregs == NextAt(old(p.blocks), old(p.nregs), old(|p.blocks|)) && |p.prevs| == |p.blocks|
    ensures Staged(p.blocks, p.nregs, live)
  {
    ghost var p0, n0 := p.blocks, p.nregs;
    FixupOperands(p);
    FixupStage(p0, n0, live);
    ghost var p1 := p.blocks;
    g := ThreadJumps(p);
    ThreadStage(p1, p.nregs, live, g);
  }

  /** These two, fold_jumps and reorder_blocks. */
  method Optimise(p: Program, ghost live: seq<set<nat>>)
    requires Staged(p.blocks, p.nregs, live) && AllReady(p.blocks) && |p.prevs| == |p.blocks|
    requires var f := ForwardsOf(FixupBlocks(p.blocks, p.nregs)); InBounds(f) ==> Threadable(f)
    modifies p`blocks, p`nregs, p`prevs
    ensures p.nregs == NextAt(old(p.blocks), old(p.nregs), old(|p.blocks|))
    ensures FrontFormed(p.blocks, p.nregs, live[0], OffsetsFit(old(p.blocks)))
    ensures Optimised(old(p.blocks), p.blocks)
  {
    ghost var p0, n0 := p.blocks, p.nregs;
    ghost var g := LowerAndThread(p, live);
    ghost var p2 := p.blocks;
    FoldJumps(p);
    FoldStage(p2, p.nregs, live);
    ghost var l := ReorderBlocks(p);
    FrontForm(p0, n0, live, g, l);
    OptimisedAll(p0, n0, live, g, l);
  }

  // ----- where the original program starts -----

  /** The bytes of the spill space that zero_spilled clears. */
  function SpillsCleared(s: State, maxTmp: nat, maxReg: nat): State {
    s.(mem := ZeroMem(s.mem, Get(s.regs, FRAME), Down(maxReg), Down(maxTmp)))
  }

  function StackCleared(s: State, maxTmp: nat): State {
    s.(mem := ZeroMem(s.mem, Get(s.regs, FRAME), Down(maxTmp), 0))
  }

  /** The start of the original program for a start of the generated code: the
      spill space and the temporary area cleared, and every register from its
      home. */
  function GenStart(s: State, h: Homes, maxTmp: nat, maxReg: nat): State {
    StackCleared(HomeStart(SpillsCleared(s, maxTmp, maxReg), h, maxTmp), maxTmp)
  }

  /** The same with all registers as they are. */
  function Start(s: State, maxTmp: nat, maxReg: nat): State {
    StackCleared(SpillsCleared(s, maxTmp, maxReg), maxTmp)
  }

  /** Memory, calls and hard registers start as they are, but for the cleared
      stack; a spilled temporary starts with what its slot holds once cleared,
      any other register with what its hard register holds. */
  lemma GenStartIs(s: State, h: Homes, maxTmp: nat, maxReg: nat, r: nat)
    requires Placed(h)
    ensures var s0 := GenStart(s, h, maxTmp, maxReg);
      s0.mem == Start(s, maxTmp, maxReg).mem && s0.trace == s.trace
      && (r < MAX_BPF_REG ==> Get(s0.regs, r) == Get(s.regs, r))
      && (r !in h.spilled ==> Get(s0.regs, r) == Get(s.regs, At(h.colors, r)))
      && (forall k | 0 <= k < |h.spilled| && h.spilled[k] == r ::
           Get(s0.regs, r) == SlotWord(SpillsCleared(s, maxTmp, maxReg), SlotOff(k, maxTmp)))
  {
    EntryIs(SpillsCleared(s, maxTmp, maxReg), h, maxTmp, r);
    EntryIs(SpillsCleared(s, maxTmp, maxReg), h, maxTmp, FRAME);
  }

  lemma SlotCleared(m: Mem, fp: Word, n: nat, maxTmp: nat, k: nat)
    requires k < n && maxTmp % 8 == 0 && 8 * n + maxTmp < 0x1_0000_0000
    ensures LoadWord(ZeroMem(m, fp, Down(8 * n + maxTmp), Down(maxTmp)), Addr(fp, Down(SlotOff(k, maxTmp))), SDW) == 0
  {
    var m', o := ZeroMem(m, fp, Down(8 * n + maxTmp), Down(maxTmp)), Down(SlotOff(k, maxTmp));
    ZeroSpilledCovers(fp, n, maxTmp);
    forall j | o <= j < o + 8 ensures ByteAt(m', Addr(fp, j)) == 0 {
      assert SlotByte(m, fp, n, maxTmp, k, j - o) == 0;
    }
    LoadZeros(m', fp, o, 8);
  }

  /** When max_tmp_space is a multiple of 8, every spilled temporary that is
      live at the entry starts at zero. */
  lemma SpilledStartAtZero(s: State, h: Homes, maxTmp: nat, maxReg: nat, k: nat)
    requires Placed(h) && k < |h.spilled| && maxTmp % 8 == 0 && maxReg == 8 * |h.spilled| + maxTmp < 0x1_0000_0000
    ensures Get(GenStart(s, h, maxTmp, maxReg).regs, h.spilled[k]) == 0
  {
    GenStartIs(s, h, maxTmp, maxReg, h.spilled[k]);
    SlotCleared(s.mem, Get(s.regs, FRAME), |h.spilled|, maxTmp, k);
  }

  // ----- the runs -----

  /** The machines the theorem speaks about: usual operators, helpers that
      neither see nor change bytes they do not touch, the n slots in use protected,
      the temporary area not. */
  ghost predicate RunsOn(sem: Sem, s: State, n: nat, maxTmp: nat) {
    Commutes(sem) && Guarded(sem, s, n, maxTmp) && Unguarded(sem.guard, Get(s.regs, FRAME), Down(maxTmp), 0)
  }

  /** On every such machine, from every start: if p keeps off the protected bytes
      from the start q's start stands for, q behaves like p outside them. */
  ghost predicate Generated(p: seq<Block>, q: seq<Block>, h: Homes, maxTmp: nat, maxReg: nat) {
    forall sem, s {:trigger RunsOn(sem, s, |h.spilled|, maxTmp)} |
      RunsOn(sem, s, |h.spilled|, maxTmp) && Safe(Stepping(sem, p), Goto(0, GenStart(s, h, maxTmp, maxReg))) ::
      SameBehaviour(Stepping(sem, p), Goto(0, GenStart(s, h, maxTmp, maxReg)), Stepping(sem.(guard := {}), q),
                    Goto(0, s), sem.guard)
  }

  /** A machine that protects bytes of the spill area alone lets the temporary
      area be cleared. */
  lemma StackUnguarded(guard: set<Word>, fp: Word, maxTmp: nat, limit: nat)
    requires maxTmp <= limit < 0x1_0000_0000 && guard <= Area(fp, maxTmp, limit)
    ensures Unguarded(guard, fp, Down(maxTmp), 0)
  {
    ZeroEndIs(Down(maxTmp), 0);
    forall j | Down(maxTmp) <= j < ZeroEnd(Down(maxTmp), 0) ensures Addr(fp, j) !in guard {
      OutsideArea(fp, maxTmp, limit, j);
    }
  }

  lemma PlainRun(sem: Sem, ins: seq<Insn>, s: State)
    requires sem.guard == {}
    ensures !Run(sem, ins, s).Fault?
    decreases |ins|
  {
  }

  lemma {:induction false} PlainSteps(sem: Sem, p: seq<Block>, c: Step, n: nat)
    requires sem.guard == {} && c != Crash
    ensures Steps(Stepping(sem, p), c, n) != Crash
    decreases n
  {
    if n > 0 && c.Goto? {
      if c.b < |p| { PlainRun(sem, p[c.b].insns, c.s); }
      PlainSteps(sem, p, Stepping(sem, p)(c.b, c.s), n - 1);
    }
  }

  /** Without protected bytes nothing faults. */
  lemma PlainSafe(sem: Sem, p: seq<Block>, s: State)
    requires sem.guard == {}
    ensures Safe(Stepping(sem, p), Goto(0, s))
  {
    forall n: nat ensures Steps(Stepping(sem, p), Goto(0, s), n) != Crash { PlainSteps(sem, p, Goto(0, s), n); }
  }

  /** The passes before allocation, from the original program on. */
  lemma FrontRuns(sem: Sem, x: State, p: seq<Block>, q: seq<Block>, n: nat, maxTmp: nat)
    requires p != [] && EntryFirst(p) && RunsOn(sem, x, n, maxTmp)
    requires Safe(Stepping(sem, p), Goto(0, StackCleared(x, maxTmp))) && Optimised(ZeroBlocks(p, Down(maxTmp), 0), q)
    ensures SameBehaviour(Stepping(sem, p), Goto(0, StackCleared(x, maxTmp)), Stepping(sem, q), Goto(0, x), sem.guard)
      && Safe(Stepping(sem, q), Goto(0, x))
  {
    var g, p0 := sem.guard, ZeroBlocks(p, Down(maxTmp), 0);
    ZeroBehaviour(sem, p, Down(maxTmp), 0, x, g);
    assert Refines(sem, p0, q, x, g);
    BehaviourTrans(Stepping(sem, p), Goto(0, StackCleared(x, maxTmp)), Stepping(sem, p0), Goto(0, x), Stepping(sem, q),
                   Goto(0, x), g);
  }

  /** The passes after allocation. */
  lemma BackRuns(sem: Sem, s: State, q: seq<Block>, nregs: nat, lo: int, hi: int, g: set<Word>)
    requires sem.guard == {} && WfBlocks(q, nregs) && EntryFirst(q)
    ensures var s1 := s.(mem := ZeroMem(s.mem, Get(s.regs, FRAME), lo, hi));
      SameBehaviour(Stepping(sem, q), Goto(0, s1), Stepping(sem, CleanBlocks(ZeroBlocks(q, lo, hi))), Goto(0, s), g)
  {
    var s1, r := s.(mem := ZeroMem(s.mem, Get(s.regs, FRAME), lo, hi)), ZeroBlocks(q, lo, hi);
    ZeroBehaviour(sem, q, lo, hi, s, g);
    ZeroForm(q, nregs, lo, hi);
    PlainSafe(sem, r, s);
    CleanBehaviour(sem, r, nregs, s, g);
    BehaviourTrans(Stepping(sem, q), Goto(0, s1), Stepping(sem, r), Goto(0, s), Stepping(sem, CleanBlocks(r)),
                   Goto(0, s), g);
  }

  lemma OneRun(p: seq<Block>, q: seq<Block>, r: seq<Block>, h: Homes, maxTmp: nat, maxReg: nat, sem: Sem, s: State)
    requires p != [] && EntryFirst(p) && Optimised(ZeroBlocks(p, Down(maxTmp), 0), q)
    requires KeepsBehaviour(q, r, h, maxTmp) && Placed(h) && WfBlocks(r, MAX_BPF_REG) && EntryFirst(r)
    requires RunsOn(sem, s, |h.spilled|, maxTmp) && Safe(Stepping(sem, p), Goto(0, GenStart(s, h, maxTmp, maxReg)))
    ensures var t := CleanBlocks(ZeroBlocks(r, Down(maxReg), Down(maxTmp)));
      SameBehaviour(Stepping(sem, p), Goto(0, GenStart(s, h, maxTmp, maxReg)), Stepping(sem.(guard := {}), t),
                    Goto(0, s), sem.guard)
  {
    var t := CleanBlocks(ZeroBlocks(r, Down(maxReg), Down(maxTmp)));
    var s0, plain, g := GenStart(s, h, maxTmp, maxReg), sem.(guard := {}), sem.guard;
    var s1 := SpillsCleared(s, maxTmp, maxReg);
    var x := HomeStart(s1, h, maxTmp);
    EntryIs(s1, h, maxTmp, FRAME);
    assert RunsOn(sem, x, |h.spilled|, maxTmp);
    FrontRuns(sem, x, p, q, |h.spilled|, maxTmp);
    assert Guarded(sem, s1, |h.spilled|, maxTmp);
    BackRuns(plain, s, r, MAX_BPF_REG, Down(maxReg), Down(maxTmp), g);
    PlainSafe(plain, r, s1);
    BehaviourTrans(Stepping(sem, p), Goto(0, s0), Stepping(sem, q), Goto(0, x), Stepping(plain, r), Goto(0, s1), g);
    BehaviourTrans(Stepping(sem, p), Goto(0, s0), Stepping(plain, r), Goto(0, s1), Stepping(plain, t), Goto(0, s), g);
  }

  lemma AllRuns(p: seq<Block>, q: seq<Block>, r: seq<Block>, h: Homes, maxTmp: nat, maxReg: nat)
    requires p != [] && EntryFirst(p) && Optimised(ZeroBlocks(p, Down(maxTmp), 0), q)
    requires KeepsBehaviour(q, r, h, maxTmp) && Placed(h) && WfBlocks(r, MAX_BPF_REG) && EntryFirst(r)
    ensures Generated(p, CleanBlocks(ZeroBlocks(r, Down(maxReg), Down(maxTmp))), h, maxTmp, maxReg)
  {
    forall sem, s | RunsOn(sem, s, |h.spilled|, maxTmp) && Safe(Stepping(sem, p),
    Goto(0, GenStart(s, h, maxTmp, maxReg)))
      ensures SameBehaviour(Stepping(sem, p), Goto(0, GenStart(s, h, maxTmp, maxReg)),
                            Stepping(sem.(guard := {}), CleanBlocks(ZeroBlocks(r, Down(maxReg), Down(maxTmp)))), Goto(0,
                            s), sem.guard)
    {
      OneRun(p, q, r, h, maxTmp, maxReg, sem, s);
    }
  }

  // ----- the method -----

  /** What the code generator hands to generate: well-formed instructions that
      lowering can treat, an entry that has an instruction and that nothing leads
      back to, no endless chain of forwarders. Temporaries may be read before
      they are set. */
  ghost predicate Source(p: seq<Block>, nregs: nat) {
    WfBlocks(p, nregs) && EntryFirst(p) && p[0].insns != [] && AllReady(p) && OffsetsFit(p)
    && (InBounds(ForwardsOf(p)) ==> Threadable(ForwardsOf(p)))
  }

  /** The registers a program has once its operands are lowered. */
  ghost function LoweredRegs(p: seq<Block>, nregs: nat, maxTmp: nat): nat
    requires p != []
  {
    NextAt(ZeroBlocks(p, Down(maxTmp), 0), nregs, |p|)
  }

  /** What the passes before allocation make of p: laid out, lowered, with every
      run kept, and with nothing more live at the entry but the frame pointer. */
  ghost predicate IsFront(p: seq<Block>, nregs: nat, maxTmp: nat, front: seq<Block>)
    requires p != []
  {
    WfBlocks(front, LoweredRegs(p, nregs, maxTmp)) && EntryFirst(front) && front[0].insns != [] && LaidOut(front)
    && (maxTmp <= 0x8000 ==> AllLowered(front))
    && Optimised(ZeroBlocks(p, Down(maxTmp), 0), front)
    && forall r: nat | LiveAt(front, 0, r) :: r == FRAME || LiveAt(p, 0, r)
  }

  /** With the stack cleared the program is still what the passes ask for. */
  lemma FrontStarts(p: seq<Block>, nregs: nat, lo: int)
    requires Source(p, nregs)
    ensures var p1 := ZeroBlocks(p, lo, 0);
      Staged(p1, nregs, WithFrame(LiveSets(p, nregs))) && AllReady(p1) && (-0x8000 <= lo ==> OffsetsFit(p1))
      && var f := ForwardsOf(FixupBlocks(p1, nregs)); InBounds(f) ==> Threadable(f)
  {
    StageStarts(p, nregs);
    ZeroStage(p, nregs, LiveSets(p, nregs), lo, 0);
    ZeroReady(p, nregs, lo, 0);
    ForwardsBounded(p, nregs);
    LoweredThreadable(p, nregs, lo, 0);
  }

  /** The front half: zero_stack and the passes up to reorder_blocks. */
  method Front(p: Program)
    requires Source(p.blocks, p.nregs) && |p.prevs| == |p.blocks|
    modifies p`blocks, p`nregs, p`prevs
    ensures IsFront(old(p.blocks), old(p.nregs), p.maxTmpSpace, p.blocks)
    ensures p.nregs == LoweredRegs(old(p.blocks), old(p.nregs), p.maxTmpSpace)
  {
    ghost var p0, nregs, lo := p.blocks, p.nregs, Down(p.maxTmpSpace);
    FrontStarts(p0, nregs, lo);
    ZeroStack(p);
    Optimise(p, WithFrame(LiveSets(p0, nregs)));
    FrontLives(p0, nregs);
  }

  /** What the live sets name at the entry, is live there. */
  lemma FrontLives(p: seq<Block>, nregs: nat)
    requires WfBlocks(p, nregs)
    ensures forall r | r in WithFrame(LiveSets(p, nregs))[0] :: r == FRAME || LiveAt(p, 0, r)
  {
  }

  /** The program handed to register allocation, and why that failed if it did. */
  ghost predicate Reported(p: seq<Block>, nregs: nat, maxTmp: nat, front: seq<Block>, spilled: seq<nat>, size: nat,
                           failed: bool)
  {
    p != [] && IsFront(p, nregs, maxTmp, front)
    && (failed ==> Exhausted(front, LoweredRegs(p, nregs, maxTmp), spilled, maxTmp, size))
  }

  /** What the passes after allocation leave, when they start from r. */
  function Final(r: seq<Block>, maxTmp: nat, maxReg: nat): seq<Block>
    requires r != []
  {
    CleanBlocks(ZeroBlocks(r, Down(maxReg), Down(maxTmp)))
  }

  /** Well formed and laid out, and ready for the encoder if both areas of the
      stack are within reach of a 16-bit offset. */
  ghost predicate Deliverable(q: seq<Block>, maxTmp: nat, maxReg: nat) {
    WfBlocks(q, MAX_BPF_REG) && LaidOut(q) && (maxTmp <= 0x8000 && maxReg <= 0x8000 ==> Encodable(q))
  }

  lemma FinalForm(front: seq<Block>, n0: nat, r: seq<Block>, h: Homes, maxTmp: nat, maxReg: nat)
    requires LaidOut(front) && Allocates(front, n0, r, h, maxTmp) && maxReg == RegSpace(|h.spilled|, maxTmp, 0)
    requires maxTmp <= 0x8000 ==> AllLowered(front)
    ensures Deliverable(Final(r, maxTmp, maxReg), maxTmp, maxReg)
  {
    var lo, hi := Down(maxReg), Down(maxTmp);
    ZeroForm(r, MAX_BPF_REG, lo, hi);
    if maxTmp <= 0x8000 && maxReg <= 0x8000 { ZeroLowered(r, lo, hi); }
    CleanKeeps(ZeroBlocks(r, lo, hi));
  }

  /** The last step: all passes together. */
  lemma FinalRuns(p: seq<Block>, nregs: nat, front: seq<Block>, n0: nat, r: seq<Block>, h: Homes, maxTmp: nat,
                  maxReg: nat)
    requires p != [] && EntryFirst(p) && IsFront(p, nregs, maxTmp, front) && Allocates(front, n0, r, h, maxTmp)
    ensures Placed(h) && Generated(p, Final(r, maxTmp, maxReg), h, maxTmp, maxReg)
  {
    AllRuns(p, front, r, h, maxTmp, maxReg);
  }

  /** program::generate. On success the result, on every machine and from every
      start for which the original program keeps off the slots in use, behaves
      like the original outside them, started with its registers taken from
      their homes; and it is ready for the encoder unless the temporary area or
      the spill slots reach further down than a 16-bit offset. It fails only when
      register allocation does. */
  method Generate(p: Program) returns (res: Result<seq<seq<nat>>>, ghost h: Homes, ghost front: seq<Block>)
    requires Source(p.blocks, p.nregs) && |p.prevs| == |p.blocks|
    requires p.stackLimit < 0x1_0000_0000 && p.maxRegSpace == 0
    modifies p
    ensures p.maxTmpSpace == old(p.maxTmpSpace) && IsFront(old(p.blocks), old(p.nregs), p.maxTmpSpace, front)
    ensures History(front, LoweredRegs(old(p.blocks), old(p.nregs), p.maxTmpSpace), h.spilled, p.maxTmpSpace,
                    p.stackLimit)
    ensures res.Ok? ==> Numbered(p.blocks, res.value) && Deliverable(p.blocks, p.maxTmpSpace, p.maxRegSpace)
    ensures res.Ok? ==> SpaceUsed(p.maxRegSpace, |h.spilled|, p.maxTmpSpace, 0, p.stackLimit)
    ensures res.Ok? ==> Placed(h) && old(p.nregs) <= |h.colors|
    ensures res.Ok? ==> Generated(old(p.blocks), p.blocks, h, p.maxTmpSpace, p.maxRegSpace)
    ensures res.Err? ==>
      Exhausted(front, LoweredRegs(old(p.blocks), old(p.nregs), p.maxTmpSpace), h.spilled, p.maxTmpSpace, p.stackLimit)
  {
    ghost var p0, nregs := p.blocks, p.nregs;
    Front(p);
    front := p.blocks;
    ghost var n0 := p.nregs;
    var spills;
    spills, h := RegisterAllocate(p);
    if spills.Err? { return Err(spills.error), h, front; }
    ghost var r := p.blocks;
    FinalForm(front, n0, r, h, p.maxTmpSpace, p.maxRegSpace);
    FinalRuns(p0, nregs, front, n0, r, h, p.maxTmpSpace, p.maxRegSpace);
    ZeroSpilled(p);
    var ids := PostAllocCleanup(p);
    NextAtGrows(ZeroBlocks(p0, Down(p.maxTmpSpace), 0), nregs, 0, |p0|);
    return Ok(ids), h, front;
  }

  /** generate and output_probe together: the flat code of the result, run by
      program counter from s, does what the original program does from the start
      s stands for. */
  lemma FlatGenerated(sem: Sem, s: State, args: nat -> nat, p: seq<Block>, q: seq<Block>, h: Homes, maxTmp: nat,
                      maxReg: nat)
    requires Generated(p, q, h, maxTmp, maxReg) && RunsOn(sem, s, |h.spilled|, maxTmp) && Small(q, args)
    requires Safe(Stepping(sem, p), Goto(0, GenStart(s, h, maxTmp, maxReg)))
    ensures SameBehaviour(Stepping(sem, p), Goto(0, GenStart(s, h, maxTmp, maxReg)),
                          FlatStepping(sem.(guard := {}), args, Code(q)), Goto(0, s), sem.guard)
  {
    var plain, g := sem.(guard := {}), sem.guard;
    var s0, flat := GenStart(s, h, maxTmp, maxReg), FlatStepping(plain, args, Code(q));
    FlatBehaviour(plain, args, q, s, g);
    PlainSafe(plain, q, s);
    BehaviourTrans(Stepping(sem, p), Goto(0, s0), Stepping(plain, q), Goto(0, s), flat, Goto(0, s), g);
  }

  /** When no temporary is live at the entry, only the cleared stack tells the
      two starts apart. */
  lemma CleanGenerated(sem: Sem, s: State, p: seq<Block>, nregs: nat, q: seq<Block>, h: Homes, maxTmp: nat, maxReg: nat)
    requires WfBlocks(p, nregs) && EntryClean(p) && Placed(h) && Generated(p, q, h, maxTmp, maxReg)
    requires RunsOn(sem, s, |h.spilled|, maxTmp)
    requires Safe(Stepping(sem, p), Goto(0, Start(s, maxTmp, maxReg)))
    ensures SameBehaviour(Stepping(sem, p), Goto(0, Start(s, maxTmp, maxReg)), Stepping(sem.(guard := {}), q),
                          Goto(0, s), sem.guard)
  {
    var s0, s1 := Start(s, maxTmp, maxReg), GenStart(s, h, maxTmp, maxReg);
    forall r: nat | LiveAt(p, 0, r) ensures Get(s0.regs, r) == Get(s1.regs, r) { GenStartIs(s, h, maxTmp, maxReg, r); }
    GenStartIs(s, h, maxTmp, maxReg, 0);
    SameEntry(sem, p, nregs, s0, s1, sem.guard);
    BehaviourTrans(Stepping(sem, p), Goto(0, s0), Stepping(sem, p), Goto(0, s1), Stepping(sem.(guard := {}), q),
                   Goto(0, s), sem.guard);
  }
}
