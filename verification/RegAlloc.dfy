/** The register allocator as a whole: rounds of liveness, interference,
    merging and colouring, with a spill after each failure. */
module RegAlloc {
  import opened Ir
  import opened Machine
  import opened Liveness
  import opened Renaming
  import opened Coloring
  import opened Memory
  import opened Spilling
  import opened Programs

  // ----- stack slots -----

  /** The offset of the slot of spill number k: below the temporary area, rounded up. */
  function SlotOff(k: nat, maxTmp: nat): (off: nat)
    ensures off % BPF_REG_SIZE == 0 && 8 * (k + 1) + maxTmp <= off < 8 * (k + 1) + maxTmp + 8
  {
    var raw := BPF_REG_SIZE * (k + 1) + maxTmp;
    if raw % BPF_REG_SIZE == 0 then raw else raw + BPF_REG_SIZE - raw % BPF_REG_SIZE
  }

  /** The bytes from lo+1 to hi below the frame pointer. */
  ghost function Area(fp: Word, lo: int, hi: int): set<Word>
    requires lo <= hi
  {
    Range(Addr(fp, -hi), hi - lo)
  }

  lemma InArea(fp: Word, lo: int, hi: int, a: Word)
    requires lo <= hi
    ensures a in Area(fp, lo, hi) <==> exists j :: -hi <= j < -lo && a == Addr(fp, j)
  {
    InRange(fp, -hi, hi - lo, a);
  }

  lemma OutsideArea(fp: Word, lo: int, hi: int, j: int)
    requires 0 <= lo <= hi < 0x1_0000_0000 && -lo <= j < 0x8000
    ensures Addr(fp, j) !in Area(fp, lo, hi)
  {
    InArea(fp, lo, hi, Addr(fp, j));
    if Addr(fp, j) in Area(fp, lo, hi) {
      var i :| -hi <= i < -lo && Addr(fp, j) == Addr(fp, i);
      AddrInjective(fp, i, j);
    }
  }

  /** Slots lie below the temporary area and within the stack limit. */
  lemma SlotInArea(fp: Word, off: int, lo: int, hi: int)
    requires lo + 8 <= off <= hi
    ensures Slot(fp, off) <= Area(fp, lo, hi)
  {
    forall a | a in Slot(fp, off) ensures a in Area(fp, lo, hi) {
      InRange(fp, -off, 8, a);
      InArea(fp, lo, hi, a);
    }
  }

  lemma OutsideSlot(fp: Word, off: int, j: int)
    requires (j < -off || -off + 8 <= j) && -0x1_0000_0000 < j < 1 && 0 <= off < 0x1_0000_0000
    ensures Addr(fp, j) !in Slot(fp, off)
  {
    var a := Addr(fp, j);
    InRange(fp, -off, 8, a);
    if a in Slot(fp, off) {
      var i :| -off <= i < -off + 8 && a == Addr(fp, i);
      AddrInjective(fp, i, j);
    }
  }

  lemma ApartDisjoint(fp: Word, x: int, y: int)
    requires x + 8 <= y && 8 <= x && y < 0x1_0000_0000
    ensures Slot(fp, x) !! Slot(fp, y)
  {
    forall a | a in Slot(fp, x) ensures a !in Slot(fp, y) {
      InRange(fp, -x, 8, a);
      var i :| -x <= i < -x + 8 && a == Addr(fp, i);
      OutsideSlot(fp, y, i);
    }
  }

  /** Slots of different spills have no byte in common. */
  lemma SlotsDisjoint(fp: Word, j: nat, k: nat, maxTmp: nat)
    requires j < k && SlotOff(k, maxTmp) < 0x1_0000_0000
    ensures Slot(fp, SlotOff(j, maxTmp)) !! Slot(fp, SlotOff(k, maxTmp))
  {
    assert SlotOff(j, maxTmp) + 8 <= SlotOff(k, maxTmp) by { OffsGrow(j, k, maxTmp); }
    ApartDisjoint(fp, SlotOff(j, maxTmp), SlotOff(k, maxTmp));
  }

  lemma OffsGrow(j: nat, k: nat, maxTmp: nat)
    requires j < k
    ensures SlotOff(j, maxTmp) + 8 <= SlotOff(k, maxTmp)
  {
  }

  // ----- priorities -----

  function Occurs(i: Insn, r: nat): nat {
    (if i.src0 == Some(Reg(r)) then 1 else 0) + (if i.src1 == Some(Reg(r)) then 1 else 0)
  }

  function UsesIn(ins: seq<Insn>, r: nat): nat {
    if ins == [] then 0 else Occurs(ins[0], r) + UsesIn(ins[1..], r)
  }

  function UsesOf(p: seq<Block>, r: nat): nat {
    if p == [] then 0 else UsesIn(p[0].insns, r) + UsesOf(p[1..], r)
  }

  /** find_uses counts in an unsigned short. */
  function UseCount(p: seq<Block>, r: nat): nat {
    Short(UsesOf(p, r))
  }

  /** pref_sort_reg: call-crossing registers first, then the most used. */
  predicate Before(cross: set<nat>, p: seq<Block>, a: nat, b: nat) {
    if (a in cross) != (b in cross) then a in cross
    else if UseCount(p, a) != UseCount(p, b) then UseCount(p, a) > UseCount(p, b)
    else a < b
  }

  function InsertReg(cross: set<nat>, p: seq<Block>, r: nat, sorted: seq<nat>): (out: seq<nat>)
    ensures multiset(out) == multiset(sorted) + multiset{r}
  {
    if sorted == [] then [r]
    else if Before(cross, p, r, sorted[0]) then [r] + sorted
    else
      assert sorted == [sorted[0]] + sorted[1..];
      [sorted[0]] + InsertReg(cross, p, r, sorted[1..])
  }

  function SortRegs(cross: set<nat>, p: seq<Block>, regs: seq<nat>): (out: seq<nat>)
    ensures multiset(out) == multiset(regs)
  {
    if regs == [] then []
    else
      assert regs == [regs[0]] + regs[1..];
      InsertReg(cross, p, regs[0], SortRegs(cross, p, regs[1..]))
  }

  /** No register stands after one it comes before. */
  predicate Preferred(cross: set<nat>, p: seq<Block>, s: seq<nat>) {
    forall i, j | 0 <= i < j < |s| :: !Before(cross, p, s[j], s[i])
  }

  lemma {:induction false} InsertHolds(cross: set<nat>, p: seq<Block>, r: nat, sorted: seq<nat>)
    ensures forall x | x in InsertReg(cross, p, r, sorted) :: x == r || x in sorted
  {
    if sorted != [] && !Before(cross, p, r, sorted[0]) { InsertHolds(cross, p, r, sorted[1..]); }
  }

  /** A register in front of ones it may stand before. */
  lemma FrontPreferred(cross: set<nat>, p: seq<Block>, r: nat, s: seq<nat>)
    requires Preferred(cross, p, s) && forall j | 0 <= j < |s| :: !Before(cross, p, s[j], r)
    ensures Preferred(cross, p, [r] + s)
  {
  }

  lemma TailPreferred(cross: set<nat>, p: seq<Block>, s: seq<nat>)
    requires s != [] && Preferred(cross, p, s)
    ensures Preferred(cross, p, s[1..]) && forall x | x in s[1..] :: !Before(cross, p, x, s[0])
  {
  }

  lemma {:induction false} InsertPreferred(cross: set<nat>, p: seq<Block>, r: nat, sorted: seq<nat>)
    requires Preferred(cross, p, sorted)
    ensures Preferred(cross, p, InsertReg(cross, p, r, sorted))
  {
    if sorted != [] {
      var first, rest := sorted[0], sorted[1..];
      TailPreferred(cross, p, sorted);
      if Before(cross, p, r, first) {
        forall j | 0 <= j < |sorted| ensures !Before(cross, p, sorted[j], r) {
          if j > 0 { assert sorted[j] in rest; }
        }
        FrontPreferred(cross, p, r, sorted);
      } else {
        var out := InsertReg(cross, p, r, rest);
        InsertPreferred(cross, p, r, rest);
        InsertHolds(cross, p, r, rest);
        forall j | 0 <= j < |out| ensures !Before(cross, p, out[j], first) { assert out[j] in out; }
        FrontPreferred(cross, p, first, out);
      }
    }
  }

  /** The sort puts the registers in order of preference. */
  lemma {:induction false} SortPreferred(cross: set<nat>, p: seq<Block>, regs: seq<nat>)
    ensures Preferred(cross, p, SortRegs(cross, p, regs))
  {
    if regs != [] {
      SortPreferred(cross, p, regs[1..]);
      InsertPreferred(cross, p, regs[0], SortRegs(cross, p, regs[1..]));
    }
  }

  lemma SortedLists(cross: set<nat>, p: seq<Block>, regs: seq<nat>, n: nat)
    requires ListsTemps(regs, n)
    ensures ListsTemps(SortRegs(cross, p, regs), n)
  {
    var out := SortRegs(cross, p, regs);
    forall t | MAX_BPF_REG <= t < n ensures t in out {
      assert t in regs;
      assert multiset(regs)[t] > 0;
    }
    forall k | 0 <= k < |out| ensures MAX_BPF_REG <= out[k] < n {
      assert out[k] in multiset(out);
      assert out[k] in regs;
    }
  }

  // ----- choosing what to spill -----

  /** The last register of the list not yet spilled. */
  function LastUnspilled(list: seq<nat>, spilled: seq<bool>): (res: Option<nat>)
    requires forall k | 0 <= k < |list| :: list[k] < |spilled|
    ensures res.Some? ==> res.value in list && res.value < |spilled| && !spilled[res.value]
    ensures res.Some? ==>
      exists k | 0 <= k < |list| :: list[k] == res.value && forall j | k < j < |list| :: spilled[list[j]]
    ensures res.None? ==> forall k | 0 <= k < |list| :: spilled[list[k]]
  {
    if list == [] then None
    else if !spilled[list[|list| - 1]] then Some(list[|list| - 1])
    else LastUnspilled(list[..|list| - 1], spilled)
  }

  /** choose_spill_reg: the last register before tmpreg that is not yet
      spilled, or an error when there is none. */
  method ChooseSpillReg(tmpreg: nat, ordered: seq<nat>, spilled: seq<bool>) returns (res: Result<nat>)
    requires forall k | 0 <= k < |ordered| :: 0 < ordered[k] < |spilled|
    ensures var last := LastUnspilled(ordered[..IndexOf(ordered, tmpreg)], spilled);
            if last.Some? then res == Ok(last.value) else res.Err?
  {
    var ret := 0;
    var i := 0;
    while i < |ordered| && ordered[i] != tmpreg
      invariant 0 <= i <= |ordered| && forall k | 0 <= k < i :: ordered[k] != tmpreg
      invariant LastUnspilled(ordered[..i], spilled) == if ret == 0 then None else Some(ret)
    {
      var reg := ordered[i];
      assert ordered[..i + 1][..i] == ordered[..i];
      if !spilled[reg] {
        ret := reg;
      }
      i := i + 1;
    }
    assert i == IndexOf(ordered, tmpreg);
    if ret == 0 {
      return Err("unable to register allocate");
    }
    return Ok(ret);
  }

  lemma {:induction false} UnspilledFalls(spilled: seq<bool>, r: nat, extra: nat)
    requires r < |spilled| && !spilled[r]
    ensures CountFalse(spilled[r := true] + seq(extra, _ => true)) == CountFalse(spilled) - 1
  {
    var more := seq(extra, _ => true);
    var all := spilled[r := true] + more;
    if r == 0 {
      assert all[1..] == spilled[1..] + more;
      NoneAdded(spilled[1..], more);
    } else {
      assert all[1..] == spilled[1..][r - 1 := true] + more;
      UnspilledFalls(spilled[1..], r - 1, extra);
    }
  }

  lemma {:induction false} NoneAdded(spilled: seq<bool>, more: seq<bool>)
    requires forall k | 0 <= k < |more| :: more[k]
    ensures CountFalse(spilled + more) == CountFalse(spilled)
  {
    if spilled == [] {
      assert spilled + more == more;
      if more != [] { NoneAdded([], more[1..]); assert [] + more[1..] == more[1..]; }
    } else {
      assert (spilled + more)[1..] == spilled[1..] + more;
      NoneAdded(spilled[1..], more);
    }
  }

  // ----- spill -----

  /** One instruction: a load before it when it reads reg, a store after it
      when it sets reg, both through one new temporary. */
  method SpillInsnIn(p: Program, insn: Insn, reg: nat, off: nat) returns (out: seq<Insn>)
    modifies p`nregs
    ensures out == SpillInsn(insn, reg, off, old(p.nregs)) && p.nregs == NextTmp(insn, reg, old(p.nregs))
  {
    var newTmp: Option<nat> := None;
    var load, store, next := [], [], insn;
    if insn.src0 == Some(Reg(reg)) || insn.src1 == Some(Reg(reg)) {
      var t := p.NewReg();
      newTmp := Some(t);
      load := [LoadSlot(t, off)];
      next := next.(src0 := Replace(insn.src0, reg, t), src1 := Replace(insn.src1, reg, t));
    }
    if insn.dest == Some(reg) {
      if newTmp.None? {
        var t := p.NewReg();
        newTmp := Some(t);
      }
      store := [StoreSlot(newTmp.value, off)];
      next := next.(dest := newTmp);
    }
    out := load + [next] + store;
  }

  /** The instructions of one block, last to first. */
  method SpillBlock(p: Program, i: nat, reg: nat, off: nat)
    requires i < |p.blocks|
    modifies p`blocks, p`nregs
    ensures p.blocks ==
      old(p.blocks)[i := old(p.blocks)[i].(insns := SpillInsns(old(p.blocks)[i].insns, reg, off, old(p.nregs)))]
    ensures p.nregs == TmpAfter(old(p.blocks)[i].insns, reg, old(p.nregs))
  {
    ghost var ins0, tmp0 := p.blocks[i].insns, p.nregs;
    var ins := p.blocks[i].insns;
    var j := |ins|;
    assert ins0[j..] == [] && ins0[..j] + [] == ins0;
    while j > 0
      invariant 0 <= j <= |ins0| && p.blocks == old(p.blocks)
      invariant ins == ins0[..j] + SpillInsns(ins0[j..], reg, off, tmp0)
      invariant p.nregs == TmpAfter(ins0[j..], reg, tmp0)
    {
      j := j - 1;
      assert ins[j] == ins0[j] && ins[..j] == ins0[..j] && ins[j + 1..] == SpillInsns(ins0[j + 1..], reg, off, tmp0);
      assert ins0[j..][0] == ins0[j] && ins0[j..][1..] == ins0[j + 1..];
      var out := SpillInsnIn(p, ins[j], reg, off);
      ins := ins[..j] + (out + ins[j + 1..]);
    }
    assert ins0[0..] == ins0 && ins == SpillInsns(ins0, reg, off, tmp0);
    p.blocks := p.blocks[i := p.blocks[i].(insns := ins)];
  }

  /** spill: reserve the slot, then rewrite every block. */
  method Spill(reg: nat, numSpills: nat, p: Program) returns (res: Result<nat>)
    modifies p`blocks, p`nregs, p`maxRegSpace
    ensures res.Ok? <==> SlotOff(numSpills, p.maxTmpSpace) <= p.stackLimit
    ensures res.Ok? ==> res.value == SlotOff(numSpills, p.maxTmpSpace)
    ensures res.Ok? ==> p.blocks == SpillBlocks(old(p.blocks), reg, res.value, old(p.nregs))
    ensures res.Ok? ==> p.nregs == TmpAt(old(p.blocks), reg, old(p.nregs), |old(p.blocks)|)
    ensures res.Err? ==> p.blocks == old(p.blocks) && p.nregs == old(p.nregs)
    ensures p.maxRegSpace == MaxOf(8 * (numSpills + 1) + p.maxTmpSpace, old(p.maxRegSpace))
  {
    var off := ReserveSlot(numSpills, p);
    if off > p.stackLimit {
      return Err("register allocation failed due to insufficent BPF stack size");
    }
    SpillAll(reg, off, p);
    return Ok(off);
  }

  /** The slot's offset; max_reg_space is raised before the rounding. */
  method ReserveSlot(numSpills: nat, p: Program) returns (off: nat)
    modifies p`maxRegSpace
    ensures off == SlotOff(numSpills, p.maxTmpSpace)
    ensures p.maxRegSpace == MaxOf(8 * (numSpills + 1) + p.maxTmpSpace, old(p.maxRegSpace))
  {
    off := BPF_REG_SIZE * (numSpills + 1) + p.maxTmpSpace;
    if off > p.maxRegSpace {
      p.maxRegSpace := off;
    }
    if off % BPF_REG_SIZE != 0 {
      off := off + (BPF_REG_SIZE - off % BPF_REG_SIZE);
    }
  }

  method SpillAll(reg: nat, off: nat, p: Program)
    modifies p`blocks, p`nregs
    ensures p.blocks == SpillBlocks(old(p.blocks), reg, off, old(p.nregs))
    ensures p.nregs == TmpAt(old(p.blocks), reg, old(p.nregs), |old(p.blocks)|)
  {
    ghost var blocks0, n0 := p.blocks, p.nregs;
    ghost var goal := SpillBlocks(blocks0, reg, off, n0);
    var i := 0;
    while i < |p.blocks|
      invariant 0 <= i <= |p.blocks| == |blocks0|
      invariant forall b {:trigger goal[b]} | 0 <= b < i :: p.blocks[b] == goal[b]
      invariant p.blocks[i..] == blocks0[i..]
      invariant p.nregs == TmpAt(blocks0, reg, n0, i)
    {
      assert p.blocks[i] == blocks0[i..][0];
      ghost var before := p.blocks;
      SpillBlock(p, i, reg, off);
      assert p.blocks[i + 1..] == before[i..][1..];
      i := i + 1;
    }
    assert p.blocks == goal;
  }

  function MaxOf(a: nat, b: nat): nat {
    if a > b then a else b
  }

  // ----- one round -----

  lemma InterfereIsGraph(p: seq<Block>, nregs: nat, liveOut: seq<set<nat>>, g: seq<set<nat>>)
    requires WfBlocks(p, nregs) && |liveOut| == |p| && Bounded(liveOut, nregs) && |g| == nregs
    requires forall a: nat, b: nat | a < nregs :: b in g[a] <==> Interfere(p, liveOut, a, b)
    ensures Graph(g)
  {
    forall a, b | 0 <= a < |g| && b in g[a] ensures b < |g| && a != b && a in g[b] {
      var blk: nat, k: nat :| MeetAt(p, liveOut, blk, k, a, b);
      CliqueBounded(p, nregs, liveOut, blk, k);
      assert MeetAt(p, liveOut, blk, k, b, a);
    }
  }

  lemma CopyRecorded(p: seq<Block>, nregs: nat, liveOut: seq<set<nat>>, g: seq<set<nat>>, e: Entry)
    requires WfBlocks(p, nregs) && |liveOut| == |p| && |g| == nregs && Copied(p, e)
    requires forall a: nat, b: nat | a < nregs :: b in g[a] <==> Interfere(p, liveOut, a, b)
    ensures e.i < nregs && e.j < nregs && e.j in g[e.i]
  {
    var blk: nat, k: nat :| CopiedAt(p, e.i, e.j, blk, k);
    assert WfBlock(p[blk], nregs, |p|);
    assert WfInsn(p[blk].insns[k], nregs);
    var d, s := CopyPair(p[blk].insns[k]).value.0, CopyPair(p[blk].insns[k]).value.1;
    CopiesInterfere(p, liveOut, blk, k, d, s);
  }

  /** The sets of live registers, the interference graph and the registers live
      across calls, all exact. */
  ghost predicate Analysed(p: seq<Block>, nregs: nat, liveIn: seq<set<nat>>, liveOut: seq<set<nat>>, g: seq<set<nat>>,
                           cross: set<nat>)
  {
    |liveIn| == |liveOut| == |p| && |g| == nregs
    && (forall b, r: nat | 0 <= b < |p| :: r in liveIn[b] <==> LiveAt(p, b, r))
    && (forall b | 0 <= b < |p| :: liveOut[b] == AtSuccs(p[b], liveIn))
    && (forall a: nat, b: nat | a < nregs :: b in g[a] <==> Interfere(p, liveOut, a, b))
    && (forall r: nat :: r in cross <==> CrossesCall(p, liveOut, r))
  }

  /** The partition merge and first fit make: every register alone at first, then
      classes without a conflict joined, then the first k registers of the order
      given the first hard register each can have. */
  ghost predicate RunsInto(nregs: nat, ordered: seq<nat>, k: nat, g: seq<set<nat>>, cross: set<nat>, x: Classes) {
    MAX_BPF_REG <= nregs == |g| && k <= |ordered| && (forall i | 0 <= i < k :: ordered[i] < nregs)
    && x == FitUpTo(MergedUpTo(Classes(seq(nregs, r => r), g, cross), nregs, nregs), nregs, ordered, k)
  }

  /** Colouring the temporaries in order of preference has come to a register
      whose class is shut out of every hard register it may have, each by a
      member that interferes with the hard register or with a temporary already
      there. Everything before it in the order has joined a class, classes hold
      no two interfering registers, and any two classes still without a hard
      register interfere. */
  ghost predicate GotStuck(p: seq<Block>, nregs: nat, ordered: seq<nat>, reg: nat, x: Classes, g: seq<set<nat>>,
                           cross: set<nat>)
  {
    |x.part| == nregs && RunsInto(nregs, ordered, IndexOf(ordered, reg), g, cross, x)
    && Good(x.part, x.rows, x.cross, g, cross) && Blocked(x.part, g, cross, reg) && AllMeet(x.part, g)
    && ListsTemps(ordered, nregs) && Preferred(x.cross, p, ordered) && reg in ordered
    && forall k | 0 <= k < IndexOf(ordered, reg) :: ordered[k] < nregs && x.part[ordered[k]] != ordered[k]
  }

  ghost predicate Uncolorable(p: seq<Block>, nregs: nat, ordered: seq<nat>, reg: nat) {
    exists liveIn, liveOut, x, g, cross ::
      Analysed(p, nregs, liveIn, liveOut, g, cross) && GotStuck(p, nregs, ordered, reg, x, g, cross)
  }

  /** find_lifetimes and find_igraph. */
  method Analyse(p: Program) returns (al: Allocator, ghost liveIn: seq<set<nat>>, ghost liveOut: seq<set<nat>>)
    requires WfBlocks(p.blocks, p.nregs)
    ensures fresh(al) && |al.part| == p.nregs && (forall r | 0 <= r < p.nregs :: al.part[r] == r)
    ensures Analysed(p.blocks, p.nregs, liveIn, liveOut, al.rows, al.cross) && Graph(al.rows)
    ensures Closed(p.blocks, liveIn) && Bounded(liveOut, p.nregs)
  {
    var life := new LifeData(|p.blocks|);
    life.FindLifetimes(p.blocks, p.nregs);
    al := new Allocator(p.nregs);
    al.FindIgraph(p.blocks, p.nregs, life.liveOut);
    liveIn, liveOut := life.liveIn, life.liveOut;
    InterfereIsGraph(p.blocks, p.nregs, liveOut, al.rows);
  }

  /** Every pair is one some instruction copies. */
  predicate AllCopied(copies: seq<Entry>, p: seq<Block>) {
    forall k | 0 <= k < |copies| :: CopiesOf(p, |p|, (copies[k].i, copies[k].j)) > 0
  }

  /** For every program: what find_cgraph records, merge_copies leaves alone. */
  lemma CopiesIdle(p: seq<Block>, nregs: nat, liveIn: seq<set<nat>>, liveOut: seq<set<nat>>, copies: seq<Entry>,
                   x: Classes)
    requires WfBlocks(p, nregs) && Analysed(p, nregs, liveIn, liveOut, x.rows, x.cross)
    requires |x.part| == nregs && forall r | 0 <= r < nregs :: x.part[r] == r
    requires AllCopied(copies, p)
    ensures CopiesMerged(copies, |copies|, x) == x
    ensures forall k | 0 <= k < |copies| :: copies[k].i < nregs && copies[k].j < nregs
  {
    forall k | 0 <= k < |copies|
      ensures copies[k].i < nregs && copies[k].j < nregs && copies[k].j in x.rows[copies[k].i]
    {
      CountedIsCopied(p, |p|, copies[k]);
      CopyRecorded(p, nregs, liveOut, x.rows, copies[k]);
    }
    CopiesStay(copies, |copies|, x);
  }

  /** find_cgraph and sort. */
  method SortedCgraph(p: seq<Block>) returns (copies: seq<Entry>)
    ensures AllCopied(copies, p) && Ascending(copies)
  {
    var data := FindCgraph(p);
    copies := SortEntries(data);
    EntriesSorted(data);
    forall k | 0 <= k < |copies| ensures CopiesOf(p, |p|, (copies[k].i, copies[k].j)) > 0 {
      assert copies[k] in multiset(copies);
      assert copies[k] in data;
    }
  }

  /** merge_copies and merge. */
  method MergeAll(p: Program, al: Allocator, ghost liveIn: seq<set<nat>>, ghost liveOut: seq<set<nat>>)
    returns (ordered: seq<nat>)
    requires WfBlocks(p.blocks, p.nregs) && |al.part| == p.nregs && (forall r | 0 <= r < p.nregs :: al.part[r] == r)
    requires Analysed(p.blocks, p.nregs, liveIn, liveOut, al.rows, al.cross) && Graph(al.rows)
    modifies al
    ensures ListsTemps(ordered, p.nregs)
    ensures |al.part| == p.nregs && Good(al.part, al.rows, al.cross, old(al.rows), old(al.cross))
    ensures Merged(al.part, al.rows, p.nregs)
    ensures al.Now() == MergedUpTo(old(al.Now()), p.nregs, p.nregs)
  {
    ghost var g := al.rows;
    var copies := SortedCgraph(p.blocks);
    CopiesIdle(p.blocks, p.nregs, liveIn, liveOut, copies, al.Now());
    al.MergeCopies(copies);
    ordered := seq(p.nregs - MAX_BPF_REG, k => k + MAX_BPF_REG);
    forall t | MAX_BPF_REG <= t < p.nregs ensures t in ordered { assert ordered[t - MAX_BPF_REG] == t; }
    al.Merge(ordered, g, al.cross);
  }

  lemma IdentityIs(x: Classes, n: nat)
    requires |x.part| == n && forall r | 0 <= r < n :: x.part[r] == r
    ensures x == Classes(seq(n, r => r), x.rows, x.cross)
  {
  }

  /** One attempt at a colouring, leaving the program as it is. On success
      (reg == 0) f assigns every temporary a hard register below R10 so that no
      write destroys a live register; otherwise colouring got stuck at reg. */
  method ColorRound(p: Program) returns (reg: nat, ordered: seq<nat>, f: seq<nat>, ghost liveIn: seq<set<nat>>)
    requires WfBlocks(p.blocks, p.nregs)
    ensures Closed(p.blocks, liveIn) && forall r: nat :: r in liveIn[0] <==> LiveAt(p.blocks, 0, r)
    ensures ListsTemps(ordered, p.nregs)
    ensures reg != 0 ==> reg in ordered && Uncolorable(p.blocks, p.nregs, ordered, reg)
    ensures reg == 0 ==> |f| == p.nregs && ProgramOk(f, p.blocks, liveIn)
    ensures reg == 0 ==> forall r | MAX_BPF_REG <= r < p.nregs :: f[r] < FRAME
  {
    ghost var liveOut;
    var al;
    al, liveIn, liveOut := Analyse(p);
    ghost var g, cross0, x := al.rows, al.cross, al.Now();
    ordered := MergeAll(p, al, liveIn, liveOut);
    SortedLists(al.cross, p.blocks, ordered, p.nregs);
    SortPreferred(al.cross, p.blocks, ordered);
    ordered := SortRegs(al.cross, p.blocks, ordered);
    reg := al.Allocate(ordered, g, cross0);
    f := [];
    if reg == 0 {
      f := al.Finalize();
      ColoringIsSafe(f, p.blocks, p.nregs, liveIn, liveOut, al.part, al.rows, al.cross, g, cross0);
    } else {
      IdentityIs(x, p.nregs);
      assert GotStuck(p.blocks, p.nregs, ordered, reg, al.Now(), g, cross0);
    }
  }
}
