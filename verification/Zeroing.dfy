/** zero_stack and zero_spilled: stores put in front of the entry block. */
module Zeroing {
  import opened Ir
  import opened Machine
  import opened Memory
  import opened Simulation
  import opened Liveness
  import opened Programs
  import opened RegAlloc

  /** The offset n bytes below the frame pointer. */
  function Down(n: int): int {
    -n
  }

  function ZeroStore(off: int): Insn {
    Insn(St(SW), off, None, Some(Reg(FRAME)), Some(Imm(0)))
  }

  /** Word stores of zero from lo in steps of four, while below hi. */
  function ZeroStores(lo: int, hi: int): seq<Insn>
    decreases hi - lo
  {
    if lo >= hi then [] else [ZeroStore(lo)] + ZeroStores(lo + 4, hi)
  }

  /** Where the last of these stores ends. */
  function ZeroEnd(lo: int, hi: int): int
    decreases hi - lo
  {
    if lo >= hi then lo else ZeroEnd(lo + 4, hi)
  }

  function ZeroMem(m: Mem, fp: Word, lo: int, hi: int): Mem
    decreases hi - lo
  {
    if lo >= hi then m else ZeroMem(Store(m, Addr(fp, lo), 4, 0), fp, lo + 4, hi)
  }

  lemma {:induction false} ZeroEndIs(lo: int, hi: int)
    ensures lo < hi ==> hi <= ZeroEnd(lo, hi) < hi + 4 && (ZeroEnd(lo, hi) - lo) % 4 == 0
    decreases hi - lo
  {
    if lo < hi { ZeroEndIs(lo + 4, hi); }
  }

  lemma StoredZeros(m: Mem, fp: Word, lo: int, j: int)
    requires lo <= j < lo + 4
    ensures ByteAt(Store(m, Addr(fp, lo), 4, 0), Addr(fp, j)) == 0
  {
    InRange(fp, lo, 4, Addr(fp, j));
    StoreZero(m, Addr(fp, lo), 4, Addr(fp, j));
  }

  lemma {:induction false} StoreZero(m: Mem, a: Word, n: nat, x: Word)
    requires x in Range(a, n)
    ensures ByteAt(Store(m, a, n, 0), x) == 0
    decreases n
  {
    if x in Range(Next(a), n - 1) {
      StoreZero(m[a := 0], Next(a), n - 1, x);
    } else {
      StoreFrame(m[a := 0], Next(a), n - 1, 0, x);
    }
  }

  lemma OutsideStore(m: Mem, fp: Word, lo: int, j: int)
    requires !(lo <= j < lo + 4) && -0x10_0000_0000 < lo - j < 0x10_0000_0000
    ensures ByteAt(Store(m, Addr(fp, lo), 4, 0), Addr(fp, j)) == ByteAt(m, Addr(fp, j))
  {
    InRange(fp, lo, 4, Addr(fp, j));
    if Addr(fp, j) in Range(Addr(fp, lo), 4) {
      var i :| lo <= i < lo + 4 && Addr(fp, j) == Addr(fp, i);
      AddrInjective(fp, i, j);
    }
    StoreFrame(m, Addr(fp, lo), 4, 0, Addr(fp, j));
  }

  /** The stores clear the bytes from lo to their end, and no others. */
  lemma {:induction false} ZeroMemIs(m: Mem, fp: Word, lo: int, hi: int, j: int)
    requires -0x2_0000_0000 < lo && hi < 0x2_0000_0000 && -0x2_0000_0000 < j < 0x2_0000_0000
    ensures ByteAt(ZeroMem(m, fp, lo, hi), Addr(fp, j)) ==
      if lo <= j < ZeroEnd(lo, hi) then 0 else ByteAt(m, Addr(fp, j))
    decreases hi - lo
  {
    if lo < hi {
      ZeroMemIs(Store(m, Addr(fp, lo), 4, 0), fp, lo + 4, hi, j);
      ZeroEndIs(lo + 4, hi);
      if lo <= j < lo + 4 { StoredZeros(m, fp, lo, j); } else { OutsideStore(m, fp, lo, j); }
    }
  }

  // ----- running the stores -----

  /** The stores touch no protected byte. */
  ghost predicate Unguarded(guard: set<Word>, fp: Word, lo: int, hi: int) {
    forall j | lo <= j < ZeroEnd(lo, hi) :: Addr(fp, j) !in guard
  }

  lemma {:induction false} RunZero(sem: Sem, lo: int, hi: int, s: State)
    requires Unguarded(sem.guard, Get(s.regs, FRAME), lo, hi)
    ensures Run(sem, ZeroStores(lo, hi), s) == Fall(s.(mem := ZeroMem(s.mem, Get(s.regs, FRAME), lo, hi)))
    decreases hi - lo
  {
    if lo < hi {
      var fp, i := Get(s.regs, FRAME), ZeroStore(lo);
      ZeroEndIs(lo, hi);
      assert Range(Addr(fp, lo), 4) !! sem.guard by {
        forall a | a in Range(Addr(fp, lo), 4) ensures a !in sem.guard {
          InRange(fp, lo, 4, a);
        }
      }
      RunCons(sem, ZeroStores(lo, hi), s);
      assert ZeroStores(lo, hi)[1..] == ZeroStores(lo + 4, hi);
      assert Wrap(0) == 0;
      RunZero(sem, lo + 4, hi, s.(mem := Store(s.mem, Addr(fp, lo), 4, 0)));
    }
  }

  // ----- in front of the entry block -----

  function ZeroBlocks(p: seq<Block>, lo: int, hi: int): seq<Block>
    requires p != []
  {
    p[0 := p[0].(insns := ZeroStores(lo, hi) + p[0].insns)]
  }

  /** Nothing leads back to the entry block. */
  ghost predicate EntryFirst(p: seq<Block>) {
    forall b | 0 <= b < |p| :: p[b].taken != Some(0) && p[b].fallthru != Some(0)
  }

  ghost predicate AfterEntry(c: Step, c': Step, from: Step, from': Step) {
    (c == from && c' == from') || (c == c' && (c.Goto? ==> c.b != 0))
  }

  lemma ZeroStep(sem: Sem, p: seq<Block>, lo: int, hi: int, b: nat, s: State)
    requires p != [] && EntryFirst(p)
    ensures var step := Stepping(sem, p)(b, s); step.Goto? ==> step.b != 0
    ensures b != 0 ==> Stepping(sem, ZeroBlocks(p, lo, hi))(b, s) == Stepping(sem, p)(b, s)
    ensures Unguarded(sem.guard, Get(s.regs, FRAME), lo, hi) ==>
      Stepping(sem, ZeroBlocks(p, lo, hi))(0, s) ==
      Stepping(sem, p)(0, s.(mem := ZeroMem(s.mem, Get(s.regs, FRAME), lo, hi)))
  {
    if Unguarded(sem.guard, Get(s.regs, FRAME), lo, hi) {
      RunZero(sem, lo, hi, s);
      RunAppend(sem, ZeroStores(lo, hi), p[0].insns, s);
    }
  }

  /** The stores in front of an entry block nothing leads back to are the same
      as starting in a memory where these bytes are zero. */
  lemma ZeroBehaviour(sem: Sem, p: seq<Block>, lo: int, hi: int, s: State, g: set<Word>)
    requires p != [] && EntryFirst(p) && Unguarded(sem.guard, Get(s.regs, FRAME), lo, hi)
    ensures var s0 := s.(mem := ZeroMem(s.mem, Get(s.regs, FRAME), lo, hi));
      SameBehaviour(Stepping(sem, p), Goto(0, s0), Stepping(sem, ZeroBlocks(p, lo, hi)), Goto(0, s), g)
      && (Safe(Stepping(sem, p), Goto(0, s0)) <==> Safe(Stepping(sem, ZeroBlocks(p, lo, hi)), Goto(0, s)))
  {
    var s0 := s.(mem := ZeroMem(s.mem, Get(s.regs, FRAME), lo, hi));
    var step, step' := Stepping(sem, p), Stepping(sem, ZeroBlocks(p, lo, hi));
    var rel := (c: Step, c': Step) => AfterEntry(c, c', Goto(0, s0), Goto(0, s));
    var rank := (c: Step) => 0 as nat;
    forall c, c' | rel(c, c') && c'.Goto? ensures CanMatch(step, step', rel, rank, c, c') {
      ZeroStep(sem, p, lo, hi, c'.b, c'.s);
      ZeroStep(sem, p, lo, hi, c.b, c.s);
      assert Steps(step, step(c.b, c.s), 0) == step(c.b, c.s);
      assert Steps(step, c, 1) == step(c.b, c.s);
      assert Matched(step, step', rel, rank, c, c', 1);
    }
    StutterBehaviour(step, step', rel, rank, Goto(0, s0), Goto(0, s), g);
  }

  // ----- form and liveness -----

  lemma {:induction false} ZeroStoresForm(lo: int, hi: int, nregs: nat)
    requires MAX_BPF_REG <= nregs
    ensures WfInsns(ZeroStores(lo, hi), nregs)
    ensures forall k | 0 <= k < |ZeroStores(lo, hi)| :: !IsControl(ZeroStores(lo, hi)[k].code)
    ensures -0x8000 <= lo && hi <= 0x8000 ==> LoweredInsns(ZeroStores(lo, hi))
    decreases hi - lo
  {
    if lo < hi { ZeroStoresForm(lo + 4, hi, nregs); }
  }

  lemma ZeroForm(p: seq<Block>, nregs: nat, lo: int, hi: int)
    requires WfBlocks(p, nregs)
    ensures WfBlocks(ZeroBlocks(p, lo, hi), nregs) && SameEdges(p, ZeroBlocks(p, lo, hi))
  {
    var q, zs := ZeroBlocks(p, lo, hi), ZeroStores(lo, hi);
    ZeroStoresForm(lo, hi, nregs);
    forall b | 0 <= b < |q| ensures WfBlock(q[b], nregs, |q|) {
      assert WfBlock(p[b], nregs, |p|);
    }
  }

  lemma ZeroLowered(p: seq<Block>, lo: int, hi: int)
    requires p != [] && AllLowered(p) && -0x8000 <= lo && hi <= 0x8000
    ensures AllLowered(ZeroBlocks(p, lo, hi))
  {
    var q := ZeroBlocks(p, lo, hi);
    ZeroStoresForm(lo, hi, MAX_BPF_REG);
    forall b | 0 <= b < |q| ensures LoweredInsns(q[b].insns) { assert LoweredInsns(p[b].insns); }
  }

  lemma {:induction false} ZeroStoresLive(lo: int, hi: int, live: set<nat>)
    ensures LiveBefore(ZeroStores(lo, hi), live) <= live + {FRAME}
    decreases hi - lo
  {
    if lo < hi {
      assert ZeroStores(lo, hi)[1..] == ZeroStores(lo + 4, hi);
      ZeroStoresLive(lo + 4, hi, live);
    }
  }

  function WithFrame(live: seq<set<nat>>): (out: seq<set<nat>>)
    ensures |out| == |live| && forall b {:trigger out[b]} | 0 <= b < |live| :: out[b] == live[b] + {FRAME}
  {
    seq(|live|, b requires 0 <= b < |live| => live[b] + {FRAME})
  }

  /** The stores read the frame pointer and nothing else. */
  lemma ZeroClosed(p: seq<Block>, lo: int, hi: int, live: seq<set<nat>>)
    requires p != [] && Closed(p, live)
    ensures Closed(ZeroBlocks(p, lo, hi), WithFrame(live))
  {
    var q, live' := ZeroBlocks(p, lo, hi), WithFrame(live);
    forall b | 0 <= b < |q| ensures LiveBefore(q[b].insns, AtSuccs(q[b], live')) <= live'[b] {
      var ins, out := p[b].insns, AtSuccs(p[b], live);
      assert AtSuccs(q[b], live') <= out + {FRAME};
      LiveBeforeSplit(ins, out);
      LiveBeforeSplit(ins, out + {FRAME});
      LiveBeforeMono(ins, AtSuccs(q[b], live'), out + {FRAME});
      assert LiveBefore(ins, out) <= live[b];
      if b == 0 {
        LiveBeforeAppend(ZeroStores(lo, hi), ins, AtSuccs(q[b], live'));
        ZeroStoresLive(lo, hi, LiveBefore(ins, AtSuccs(q[b], live')));
      }
    }
  }

  // ----- the passes -----

  /** The inserter puts instructions before one that must be there. */
  method InsertZeros(p: Program, lo: int, hi: int)
    requires p.blocks != [] && (lo < hi ==> p.blocks[0].insns != [])
    modifies p`blocks
    ensures p.blocks == ZeroBlocks(old(p.blocks), lo, hi)
  {
    var out, ofs := [], lo;
    while ofs < hi
      invariant out + ZeroStores(ofs, hi) == ZeroStores(lo, hi)
    {
      out := out + [ZeroStore(ofs)];
      ofs := ofs + 4;
    }
    assert out == ZeroStores(lo, hi);
    p.blocks := p.blocks[0 := p.blocks[0].(insns := out + p.blocks[0].insns)];
  }

  /** zero_stack: the temporary area is cleared on entry. */
  method ZeroStack(p: Program)
    requires p.blocks != [] && (p.maxTmpSpace > 0 ==> p.blocks[0].insns != [])
    modifies p`blocks
    ensures p.blocks == ZeroBlocks(old(p.blocks), Down(p.maxTmpSpace), 0)
  {
    InsertZeros(p, Down(p.maxTmpSpace), 0);
  }

  /** zero_spilled: so are the spill slots. */
  method ZeroSpilled(p: Program)
    requires p.blocks != [] && (p.maxRegSpace > p.maxTmpSpace ==> p.blocks[0].insns != [])
    modifies p`blocks
    ensures p.blocks == ZeroBlocks(old(p.blocks), Down(p.maxRegSpace), Down(p.maxTmpSpace))
  {
    InsertZeros(p, Down(p.maxRegSpace), Down(p.maxTmpSpace));
  }

  // ----- what zero_spilled reaches -----

  /** Byte j of slot k, after zero_spilled cleared the space of n slots. */
  function SlotByte(m: Mem, fp: Word, n: nat, maxTmp: nat, k: nat, j: int): Byte {
    ByteAt(ZeroMem(m, fp, Down(8 * n + maxTmp), Down(maxTmp)), Addr(fp, Down(SlotOff(k, maxTmp)) + j))
  }

  /** All bytes of the n spill slots are zero, whatever was there before. */
  ghost predicate ClearsSlots(fp: Word, n: nat, maxTmp: nat) {
    forall m: Mem, k: nat, j | k < n && 0 <= j < 8 :: SlotByte(m, fp, n, maxTmp, k, j) == 0
  }

  /** Where a slot lies against the space that is cleared. */
  lemma SlotLies(n: nat, maxTmp: nat, k: nat)
    requires k < n
    ensures maxTmp % 8 == 0 ==>
      Down(8 * n + maxTmp) <= Down(SlotOff(k, maxTmp)) && Down(SlotOff(k, maxTmp)) + 8 <= Down(maxTmp)
    ensures maxTmp % 8 != 0 && k == n - 1 ==> Down(SlotOff(k, maxTmp)) < Down(8 * n + maxTmp)
    ensures -8 - 8 * n - maxTmp < Down(SlotOff(k, maxTmp)) < 0
  {
  }

  lemma CoveredByte(m: Mem, fp: Word, n: nat, maxTmp: nat, k: nat, j: int)
    requires 8 * n + maxTmp < 0x1_0000_0000 && k < n && 0 <= j < 8 && maxTmp % 8 == 0
    ensures SlotByte(m, fp, n, maxTmp, k, j) == 0
  {
    SlotLies(n, maxTmp, k);
    ZeroEndIs(Down(8 * n + maxTmp), Down(maxTmp));
    ZeroMemIs(m, fp, Down(8 * n + maxTmp), Down(maxTmp), Down(SlotOff(k, maxTmp)) + j);
  }

  lemma MissedByte(fp: Word, n: nat, maxTmp: nat) returns (m: Mem)
    requires 8 * n + maxTmp < 0x1_0000_0000 && 0 < n && maxTmp % 8 != 0
    ensures SlotByte(m, fp, n, maxTmp, n - 1, 0) != 0
  {
    var o := Down(SlotOff(n - 1, maxTmp));
    m := map[Addr(fp, o) := 1];
    SlotLies(n, maxTmp, n - 1);
    ZeroMemIs(m, fp, Down(8 * n + maxTmp), Down(maxTmp), o);
  }

  /** max_reg_space is recorded before a slot's offset is rounded up, so the
      last slots are cleared in full only when no rounding takes place. */
  lemma ZeroSpilledCovers(fp: Word, n: nat, maxTmp: nat)
    requires 8 * n + maxTmp < 0x1_0000_0000
    ensures ClearsSlots(fp, n, maxTmp) <==> n == 0 || maxTmp % 8 == 0
  {
    if n > 0 && maxTmp % 8 == 0 {
      forall m: Mem, k: nat, j | k < n && 0 <= j < 8 ensures SlotByte(m, fp, n, maxTmp, k, j) == 0 {
        CoveredByte(m, fp, n, maxTmp, k, j);
      }
    }
    if n > 0 && maxTmp % 8 != 0 {
      var m := MissedByte(fp, n, maxTmp);
    }
  }
}
