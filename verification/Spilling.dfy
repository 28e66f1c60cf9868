/** Keeping a temporary in a stack slot: spill and the layout of the slots. */
module Spilling {
  import opened Ir
  import opened Machine
  import opened Memory
  import opened Simulation
  import opened Liveness

  const BPF_REG_SIZE: nat := 8

  // ----- the rewriting -----

  function LoadSlot(tmp: nat, off: int): Insn {
    Insn(Ldx(SDW), -off, Some(tmp), None, Some(Reg(FRAME)))
  }

  function StoreSlot(tmp: nat, off: int): Insn {
    Insn(Stx(SDW), -off, None, Some(Reg(FRAME)), Some(Reg(tmp)))
  }

  function Replace(v: Option<Value>, reg: nat, tmp: nat): Option<Value> {
    if v == Some(Reg(reg)) then Some(Reg(tmp)) else v
  }

  predicate Reads(i: Insn, reg: nat) {
    i.src0 == Some(Reg(reg)) || i.src1 == Some(Reg(reg))
  }

  /** i over a temporary of its own instead of reg. */
  function Rewritten(i: Insn, reg: nat, tmp: nat): Insn {
    i.(src0 := Replace(i.src0, reg, tmp), src1 := Replace(i.src1, reg, tmp),
       dest := if i.dest == Some(reg) then Some(tmp) else i.dest)
  }

  function Reload(i: Insn, reg: nat, off: int, tmp: nat): seq<Insn> {
    if Reads(i, reg) then [LoadSlot(tmp, off)] else []
  }

  function Save(i: Insn, reg: nat, off: int, tmp: nat): seq<Insn> {
    if i.dest == Some(reg) then [StoreSlot(tmp, off)] else []
  }

  /** A load before i when it reads reg, a store after it when it sets reg. */
  function SpillInsn(i: Insn, reg: nat, off: int, tmp: nat): seq<Insn> {
    Reload(i, reg, off, tmp) + [Rewritten(i, reg, tmp)] + Save(i, reg, off, tmp)
  }

  predicate Mentions(i: Insn, reg: nat) {
    Reads(i, reg) || i.dest == Some(reg)
  }

  function NextTmp(i: Insn, reg: nat, tmp: nat): nat {
    if Mentions(i, reg) then tmp + 1 else tmp
  }

  /** The next free temporary once these instructions, last to first, are done. */
  function TmpAfter(ins: seq<Insn>, reg: nat, tmp: nat): nat {
    if ins == [] then tmp else NextTmp(ins[0], reg, TmpAfter(ins[1..], reg, tmp))
  }

  function SpillInsns(ins: seq<Insn>, reg: nat, off: int, tmp: nat): seq<Insn> {
    if ins == [] then []
    else SpillInsn(ins[0], reg, off, TmpAfter(ins[1..], reg, tmp)) + SpillInsns(ins[1..], reg, off, tmp)
  }

  // ----- why it keeps the meaning -----

  ghost predicate CallFramed(sem: Sem, id: int, args: seq<Word>, m: Mem, m': Mem, t: seq<Event>, g: set<Word>) {
    sem.touch(id, args, m', t) == sem.touch(id, args, m, t)
    && sem.call(id, args, m, t).r0 == sem.call(id, args, m', t).r0
    && sem.call(id, args, m, t).scratch == sem.call(id, args, m', t).scratch
    && AgreeOff(sem.call(id, args, m, t).mem, sem.call(id, args, m', t).mem, g)
    && (forall a: Word | a in g :: ByteAt(sem.call(id, args, m, t).mem, a) == ByteAt(m, a))
    && (forall a: Word | a in g :: ByteAt(sem.call(id, args, m', t).mem, a) == ByteAt(m', a))
  }

  /** Helpers neither read nor write bytes outside those they touch. */
  ghost predicate Framed(sem: Sem) {
    forall id, args, m, m', t, g: set<Word> {:trigger CallFramed(sem, id, args, m, m', t, g)} |
      sem.touch(id, args, m, t) !! g && AgreeOff(m, m', g) :: CallFramed(sem, id, args, m, m', t, g)
  }

  ghost function Slot(fp: Word, off: int): set<Word> {
    Range(Addr(fp, -off), 8)
  }

  /** The spilled program's state: reg lives in its slot, every other register
      and every byte outside the slot is the same. */
  ghost predicate Spilled(reg: nat, off: int, n0: nat, fp: Word, s: State, s': State) {
    Get(s.regs, FRAME) == fp
    && (forall r: nat | r < n0 && r != reg :: Get(s.regs, r) == Get(s'.regs, r))
    && Load(s'.mem, Addr(fp, -off), 8) == Get(s.regs, reg)
    && AgreeOff(s.mem, s'.mem, Slot(fp, off)) && s.trace == s'.trace
  }

  ghost predicate SameSpill(reg: nat, off: int, n0: nat, fp: Word, x: Res, x': Res) {
    match x
    case Fall(s) => x'.Fall? && Spilled(reg, off, n0, fp, s, x'.s)
    case Taken(s) => x'.Taken? && Spilled(reg, off, n0, fp, s, x'.s)
    case Exited(s) => x'.Exited? && Spilled(reg, off, n0, fp, s, x'.s)
    case Fault => true
  }

  /** What the two machines protect: the spilled one may use the slot. */
  ghost predicate Guards(sem: Sem, sem': Sem, fp: Word, off: int) {
    Framed(sem) && Slot(fp, off) <= sem.guard && sem' == sem.(guard := sem.guard - Slot(fp, off))
  }

  ghost predicate Spillable(reg: nat, n0: nat, tmp: nat) {
    MAX_BPF_REG <= reg < n0 <= tmp
  }

  /** The reload brings the value of reg into tmp. */
  lemma ReloadRuns(sem: Sem, sem': Sem, reg: nat, off: int, n0: nat, tmp: nat, fp: Word, s: State, s': State)
    requires Guards(sem, sem', fp, off) && Spillable(reg, n0, tmp) && Spilled(reg, off, n0, fp, s, s')
    ensures Exec(sem', LoadSlot(tmp, off), s') == Some(s'.(regs := s'.regs[tmp := Get(s.regs, reg)]))
  {
    assert Get(s'.regs, FRAME) == fp;
    assert First(Some(Reg(FRAME)), s'.regs) == fp;
  }

  /** As Spilled, but the value of reg is still in tmp. */
  ghost predicate InTmp(reg: nat, off: int, n0: nat, tmp: nat, fp: Word, s: State, s': State) {
    Get(s.regs, FRAME) == fp
    && (forall r: nat | r < n0 && r != reg :: Get(s.regs, r) == Get(s'.regs, r))
    && Get(s'.regs, tmp) == Get(s.regs, reg)
    && AgreeOff(s.mem, s'.mem, Slot(fp, off)) && s.trace == s'.trace
  }

  lemma EightBytes()
    ensures Pow256(8) == M64
  {
    assert Pow256(2) == 0x1_0000;
    assert Pow256(4) == 256 * (256 * Pow256(2)) == 0x1_0000_0000;
    assert Pow256(6) == 256 * (256 * Pow256(4));
    assert Pow256(8) == 256 * (256 * Pow256(6)) == M64;
  }

  lemma SlotStored(m: Mem, m': Mem, fp: Word, off: int, v: Word)
    requires AgreeOff(m, m', Slot(fp, off))
    ensures Load(Store(m', Addr(fp, -off), 8, v), Addr(fp, -off), 8) == v
    ensures AgreeOff(m, Store(m', Addr(fp, -off), 8, v), Slot(fp, off))
  {
    EightBytes();
    LoadStore(m', fp, -off, 8, v);
    forall x: Word | x !in Slot(fp, off) ensures ByteAt(m, x) == ByteAt(Store(m', Addr(fp, -off), 8, v), x) {
      StoreFrame(m', Addr(fp, -off), 8, v, x);
    }
  }

  /** The save puts the value of tmp into the slot. */
  lemma SaveRuns(sem: Sem, sem': Sem, reg: nat, off: int, n0: nat, tmp: nat, fp: Word, s: State, s': State)
    requires Guards(sem, sem', fp, off) && Spillable(reg, n0, tmp) && InTmp(reg, off, n0, tmp, fp, s, s')
    ensures var x := Exec(sem', StoreSlot(tmp, off), s'); x.Some? && Spilled(reg, off, n0, fp, s, x.value)
  {
    StoreSlotRuns(sem', off, tmp, s');
    SlotStored(s.mem, s'.mem, fp, off, Get(s.regs, reg));
  }

  lemma StoreSlotRuns(sem: Sem, off: int, tmp: nat, s: State)
    requires Slot(Get(s.regs, FRAME), off) !! sem.guard
    ensures Exec(sem, StoreSlot(tmp, off), s) ==
      Some(s.(mem := Store(s.mem, Addr(Get(s.regs, FRAME), -off), 8, Get(s.regs, tmp))))
  {
  }

  ghost function Reloaded(i: Insn, reg: nat, tmp: nat, s: State, s': State): State {
    if Reads(i, reg) then s'.(regs := s'.regs[tmp := Get(s.regs, reg)]) else s'
  }

  /** After the reload the rewritten instruction sees the operands i sees. */
  lemma OperandsSame(i: Insn, reg: nat, off: int, n0: nat, tmp: nat, fp: Word, s: State, s': State)
    requires Spillable(reg, n0, tmp) && RegsBelow(i, n0) && Spilled(reg, off, n0, fp, s, s')
    ensures var i', m := Rewritten(i, reg, tmp), Reloaded(i, reg, tmp, s, s').regs;
            First(i.src0, s.regs) == First(i'.src0, m) && First(i.src1, s.regs) == First(i'.src1, m)
            && Second(true, i.src1, s.regs) == Second(true, i'.src1, m)
            && Second(false, i.src1, s.regs) == Second(false, i'.src1, m)
  {
  }

  /** The rewritten instruction leaves reg where it was, or its new value in tmp. */
  ghost predicate Executed(i: Insn, reg: nat, off: int, n0: nat, tmp: nat, fp: Word, x: Option<State>,
                           x': Option<State>)
  {
    x.Some? ==>
      (x'.Some?
       && (if i.dest == Some(reg) then InTmp(reg, off, n0, tmp, fp, x.value, x'.value)
           else Spilled(reg, off, n0, fp, x.value, x'.value)))
  }

  lemma PutSpill(i: Insn, reg: nat, off: int, n0: nat, tmp: nat, fp: Word, s: State, s': State, v: Word)
    requires Spillable(reg, n0, tmp) && WfInsn(i, n0) && Spilled(reg, off, n0, fp, s, s') && i.dest.Some?
    ensures Executed(i, reg, off, n0, tmp, fp, Some(Put(s, i.dest, v)),
                     Some(Put(Reloaded(i, reg, tmp, s, s'), Rewritten(i, reg, tmp).dest, v)))
  {
    var t, t' := Put(s, i.dest, v), Put(Reloaded(i, reg, tmp, s, s'), Rewritten(i, reg, tmp).dest, v);
    forall r: nat | r < n0 && r != reg ensures Get(t.regs, r) == Get(t'.regs, r) {
      assert Get(s.regs, r) == Get(s'.regs, r);
    }
    assert Get(t.regs, FRAME) == fp;
    if i.dest != Some(reg) { assert Get(t.regs, reg) == Get(s.regs, reg); }
  }

  lemma LoadOffSlot(m: Mem, m': Mem, a: Word, sz: Size, g: set<Word>)
    requires AgreeOff(m, m', g) && Range(a, Bytes(sz)) !! g
    ensures LoadWord(m, a, sz) == LoadWord(m', a, sz)
  {
    LoadAgree(m, m', a, Bytes(sz));
  }

  lemma StoreSpill(reg: nat, off: int, n0: nat, fp: Word, s: State, s': State, a: Word, n: nat, v: nat)
    requires Spilled(reg, off, n0, fp, s, s') && Range(a, n) !! Slot(fp, off)
    ensures Spilled(reg, off, n0, fp, s.(mem := Store(s.mem, a, n, v)), s'.(mem := Store(s'.mem, a, n, v)))
  {
    StoreAgree(s.mem, s'.mem, a, n, v, Slot(fp, off));
    forall x | x in Slot(fp, off) ensures ByteAt(Store(s'.mem, a, n, v), x) == ByteAt(s'.mem, x) {
      StoreFrame(s'.mem, a, n, v, x);
    }
    LoadAgree(s'.mem, Store(s'.mem, a, n, v), Addr(fp, -off), 8);
  }

  lemma ArgsSame(reg: nat, off: int, n0: nat, fp: Word, s: State, s': State, n: int)
    requires Spilled(reg, off, n0, fp, s, s') && n <= 5 && MAX_BPF_REG <= reg < n0
    ensures Args(s.regs, n) == Args(s'.regs, n)
  {
  }

  lemma CallSpill(sem: Sem, sem': Sem, i: Insn, reg: nat, off: int, n0: nat, fp: Word, s: State, s': State)
    requires Guards(sem, sem', fp, off) && MAX_BPF_REG <= reg < n0 && i.code.Call? && Shaped(i)
    requires Spilled(reg, off, n0, fp, s, s') && DoCall(sem, i, s).Some?
    ensures DoCall(sem', i, s').Some?
    ensures Spilled(reg, off, n0, fp, DoCall(sem, i, s).value, DoCall(sem', i, s').value)
  {
    ArgsSame(reg, off, n0, fp, s, s', i.off);
    var args := Args(s.regs, i.off);
    assert CallFramed(sem, CallId(i), args, s.mem, s'.mem, s.trace, Slot(fp, off));
    var out, out' := sem.call(CallId(i), args, s.mem, s.trace), sem.call(CallId(i), args, s'.mem, s.trace);
    LoadAgree(s'.mem, out'.mem, Addr(fp, -off), 8);
    ClobberSpill(reg, n0, s.regs, s'.regs, out, out');
  }

  lemma ClobberSpill(reg: nat, n0: nat, m: RegFile, m': RegFile, out: CallOut, out': CallOut)
    requires MAX_BPF_REG <= reg && out.r0 == out'.r0 && out.scratch == out'.scratch
    requires forall r: nat | r < n0 && r != reg :: Get(m, r) == Get(m', r)
    ensures forall r: nat | r < n0 && r != reg :: Get(Clobber(m, out), r) == Get(Clobber(m', out'), r)
    ensures Get(Clobber(m, out), reg) == Get(m, reg) && Get(Clobber(m, out), FRAME) == Get(m, FRAME)
  {
    GetClobber(m, out);
    GetClobber(m', out');
  }

  lemma ExecSpill(sem: Sem, sem': Sem, i: Insn, reg: nat, off: int, n0: nat, tmp: nat, fp: Word, s: State, s': State)
    requires Guards(sem, sem', fp, off) && Spillable(reg, n0, tmp) && WfInsn(i, n0) && !IsControl(i.code)
    requires Spilled(reg, off, n0, fp, s, s')
    ensures Executed(i, reg, off, n0, tmp, fp, Exec(sem, i, s),
                     Exec(sem', Rewritten(i, reg, tmp), Reloaded(i, reg, tmp, s, s')))
  {
    OperandsSame(i, reg, off, n0, tmp, fp, s, s');
    var i', s1 := Rewritten(i, reg, tmp), Reloaded(i, reg, tmp, s, s');
    if IsCompute(i.code) {
      PutSpill(i, reg, off, n0, tmp, fp, s, s', Compute(sem, i, s.regs));
    } else if i.code.Ldx? {
      var a := Addr(First(i.src1, s.regs), i.off);
      if Range(a, Bytes(i.code.sz)) !! sem.guard {
        LoadOffSlot(s.mem, s'.mem, a, i.code.sz, Slot(fp, off));
        PutSpill(i, reg, off, n0, tmp, fp, s, s', LoadWord(s.mem, a, i.code.sz));
      }
    } else if i.code.Call? {
      if Exec(sem, i, s).Some? { CallSpill(sem, sem', i, reg, off, n0, fp, s, s'); }
    } else {
      StoreExecSpill(sem, sem', i, reg, off, n0, tmp, fp, s, s');
    }
  }

  lemma StoreExecSpill(sem: Sem, sem': Sem, i: Insn, reg: nat, off: int, n0: nat, tmp: nat, fp: Word, s: State,
                       s': State)
    requires Guards(sem, sem', fp, off) && Spillable(reg, n0, tmp) && WfInsn(i, n0) && (i.code.St? || i.code.Stx?)
    requires Spilled(reg, off, n0, fp, s, s')
    ensures Executed(i, reg, off, n0, tmp, fp, Exec(sem, i, s),
                     Exec(sem', Rewritten(i, reg, tmp), Reloaded(i, reg, tmp, s, s')))
  {
    OperandsSame(i, reg, off, n0, tmp, fp, s, s');
    var a := Addr(First(i.src0, s.regs), i.off);
    var v := Second(i.code.Stx?, i.src1, s.regs);
    var s1 := Reloaded(i, reg, tmp, s, s');
    GetUpdate(s'.regs, tmp, Get(s.regs, reg));
    assert Spilled(reg, off, n0, fp, s, s1);
    if Range(a, Bytes(i.code.sz)) !! sem.guard {
      StoreSpill(reg, off, n0, fp, s, s1, a, Bytes(i.code.sz), v);
    }
  }

  lemma ReloadAll(sem: Sem, sem': Sem, i: Insn, reg: nat, off: int, n0: nat, tmp: nat, fp: Word, s: State, s': State)
    requires Guards(sem, sem', fp, off) && Spillable(reg, n0, tmp) && Spilled(reg, off, n0, fp, s, s')
    ensures Run(sem', Reload(i, reg, off, tmp), s') == Fall(Reloaded(i, reg, tmp, s, s'))
    ensures Spilled(reg, off, n0, fp, s, Reloaded(i, reg, tmp, s, s'))
  {
    RunOne(sem', LoadSlot(tmp, off), s');
    ReloadRuns(sem, sem', reg, off, n0, tmp, fp, s, s');
    GetUpdate(s'.regs, tmp, Get(s.regs, reg));
  }

  lemma SaveAll(sem: Sem, sem': Sem, i: Insn, reg: nat, off: int, n0: nat, tmp: nat, fp: Word, s: State, s': State)
    requires Guards(sem, sem', fp, off) && Spillable(reg, n0, tmp)
    requires if i.dest == Some(reg) then InTmp(reg, off, n0, tmp, fp, s, s') else Spilled(reg, off, n0, fp, s, s')
    ensures var x := Run(sem', Save(i, reg, off, tmp), s'); x.Fall? && Spilled(reg, off, n0, fp, s, x.s)
  {
    RunOne(sem', StoreSlot(tmp, off), s');
    if i.dest == Some(reg) { SaveRuns(sem, sem', reg, off, n0, tmp, fp, s, s'); }
  }

  lemma SpillControlRuns(sem: Sem, sem': Sem, i: Insn, reg: nat, off: int, n0: nat, tmp: nat, fp: Word, s: State,
                         s': State)
    requires Guards(sem, sem', fp, off) && Spillable(reg, n0, tmp) && WfInsn(i, n0) && IsControl(i.code)
    requires Spilled(reg, off, n0, fp, s, s')
    ensures SameSpill(reg, off, n0, fp, Run(sem, [i], s), Run(sem', SpillInsn(i, reg, off, tmp), s'))
  {
    var i', s1 := Rewritten(i, reg, tmp), Reloaded(i, reg, tmp, s, s');
    var pre := Reload(i, reg, off, tmp);
    assert SpillInsn(i, reg, off, tmp) == pre + [i'];
    RunAppend(sem', pre, [i'], s');
    ReloadAll(sem, sem', i, reg, off, n0, tmp, fp, s, s');
    RunOne(sem, i, s);
    RunOne(sem', i', s1);
    OperandsSame(i, reg, off, n0, tmp, fp, s, s');
  }

  lemma SpillOneRuns(sem: Sem, sem': Sem, i: Insn, reg: nat, off: int, n0: nat, tmp: nat, fp: Word, s: State, s': State)
    requires Guards(sem, sem', fp, off) && Spillable(reg, n0, tmp) && WfInsn(i, n0) && !IsControl(i.code)
    requires Spilled(reg, off, n0, fp, s, s')
    ensures SameSpill(reg, off, n0, fp, Run(sem, [i], s), Run(sem', SpillInsn(i, reg, off, tmp), s'))
  {
    var i', s1 := Rewritten(i, reg, tmp), Reloaded(i, reg, tmp, s, s');
    var pre, post := Reload(i, reg, off, tmp), Save(i, reg, off, tmp);
    RunAppend(sem', pre + [i'], post, s');
    RunAppend(sem', pre, [i'], s');
    ReloadAll(sem, sem', i, reg, off, n0, tmp, fp, s, s');
    RunOne(sem, i, s);
    RunOne(sem', i', s1);
    ExecSpill(sem, sem', i, reg, off, n0, tmp, fp, s, s');
    if Exec(sem, i, s).Some? {
      SaveAll(sem, sem', i, reg, off, n0, tmp, fp, Exec(sem, i, s).value, Exec(sem', i', s1).value);
    }
  }

  lemma {:induction false} TmpGrows(ins: seq<Insn>, reg: nat, tmp: nat)
    ensures tmp <= TmpAfter(ins, reg, tmp)
  {
    if ins != [] { TmpGrows(ins[1..], reg, tmp); }
  }

  lemma {:induction false} RunSpill(sem: Sem, sem': Sem, ins: seq<Insn>, reg: nat, off: int, n0: nat, tmp: nat,
                                    fp: Word, s: State, s': State)
    requires Guards(sem, sem', fp, off) && Spillable(reg, n0, tmp) && WfInsns(ins, n0)
    requires Spilled(reg, off, n0, fp, s, s')
    ensures SameSpill(reg, off, n0, fp, Run(sem, ins, s), Run(sem', SpillInsns(ins, reg, off, tmp), s'))
  {
    if ins != [] {
      var rest, tmp' := ins[1..], TmpAfter(ins[1..], reg, tmp);
      assert ins == [ins[0]] + rest;
      TmpGrows(rest, reg, tmp);
      if IsControl(ins[0].code) {
        SpillControlRuns(sem, sem', ins[0], reg, off, n0, tmp', fp, s, s');
      } else {
        SpillOneRuns(sem, sem', ins[0], reg, off, n0, tmp', fp, s, s');
      }
      RunAppend(sem, [ins[0]], rest, s);
      RunAppend(sem', SpillInsn(ins[0], reg, off, tmp'), SpillInsns(rest, reg, off, tmp), s');
      var x, x' := Run(sem, [ins[0]], s), Run(sem', SpillInsn(ins[0], reg, off, tmp'), s');
      assert WfInsns(rest, n0);
      if x.Fall? { RunSpill(sem, sem', rest, reg, off, n0, tmp, fp, x.s, x'.s); }
    }
  }

  // ----- whole programs -----

  /** The first free temporary when block b is reached. */
  function TmpAt(p: seq<Block>, reg: nat, tmp: nat, b: nat): nat
    requires b <= |p|
  {
    if b == 0 then tmp else TmpAfter(p[b - 1].insns, reg, TmpAt(p, reg, tmp, b - 1))
  }

  function SpillBlocks(p: seq<Block>, reg: nat, off: int, tmp: nat): (out: seq<Block>)
    ensures |out| == |p|
    ensures forall b {:trigger out[b]} | 0 <= b < |p| ::
      out[b] == p[b].(insns := SpillInsns(p[b].insns, reg, off, TmpAt(p, reg, tmp, b)))
  {
    seq(|p|, b requires 0 <= b < |p| => p[b].(insns := SpillInsns(p[b].insns, reg, off, TmpAt(p, reg, tmp, b))))
  }

  lemma {:induction false} TmpAtGrows(p: seq<Block>, reg: nat, tmp: nat, b: nat, c: nat)
    requires b <= c <= |p|
    ensures TmpAt(p, reg, tmp, b) <= TmpAt(p, reg, tmp, c)
    decreases c
  {
    if b < c {
      TmpAtGrows(p, reg, tmp, b, c - 1);
      TmpGrows(p[c - 1].insns, reg, TmpAt(p, reg, tmp, c - 1));
    }
  }

  ghost predicate SpillStep(reg: nat, off: int, n0: nat, fp: Word, c: Step, c': Step) {
    match c
    case Goto(b, s) => c'.Goto? && c'.b == b && Spilled(reg, off, n0, fp, s, c'.s)
    case Halt(s) => c'.Halt? && Spilled(reg, off, n0, fp, s, c'.s)
    case Crash => true
    case Lost => c'.Lost?
  }

  lemma StepSpill(sem: Sem, sem': Sem, p: seq<Block>, reg: nat, off: int, n0: nat, fp: Word, b: nat, s: State,
                  s': State)
    requires WfBlocks(p, n0) && Guards(sem, sem', fp, off) && MAX_BPF_REG <= reg < n0
    requires Spilled(reg, off, n0, fp, s, s')
    ensures SpillStep(reg, off, n0, fp, Stepping(sem, p)(b, s), Stepping(sem', SpillBlocks(p, reg, off, n0))(b, s'))
  {
    if b < |p| {
      assert WfBlock(p[b], n0, |p|);
      TmpAtGrows(p, reg, n0, 0, b);
      RunSpill(sem, sem', p[b].insns, reg, off, n0, TmpAt(p, reg, n0, b), fp, s, s');
    }
  }

  /** Spilling keeps the behaviour of every run that stays off the protected
      bytes; afterwards only the slot has become the program's own. */
  lemma SpillBehaviour(sem: Sem, sem': Sem, p: seq<Block>, reg: nat, off: int, n0: nat, fp: Word, s: State, s': State,
                       g: set<Word>)
    requires WfBlocks(p, n0) && Guards(sem, sem', fp, off) && MAX_BPF_REG <= reg < n0
    requires Spilled(reg, off, n0, fp, s, s') && Slot(fp, off) <= g
    requires Safe(Stepping(sem, p), Goto(0, s))
    ensures SameBehaviour(Stepping(sem, p), Goto(0, s), Stepping(sem', SpillBlocks(p, reg, off, n0)), Goto(0, s'), g)
    ensures Safe(Stepping(sem', SpillBlocks(p, reg, off, n0)), Goto(0, s'))
  {
    var step, step' := Stepping(sem, p), Stepping(sem', SpillBlocks(p, reg, off, n0));
    var rel := (x: Step, x': Step) => SpillStep(reg, off, n0, fp, x, x');
    forall x, x' | rel(x, x') && x.Goto? ensures StepKept(step, step', rel, x, x') {
      StepSpill(sem, sem', p, reg, off, n0, fp, x.b, x.s, x'.s);
    }
    assert EndsAlike(rel, g) by {
      forall x, x' | rel(x, x') && !x.Crash?
        ensures !x'.Crash? && (x.Halt? <==> x'.Halt?) && (x.Halt? ==> SameView(x.s, x'.s, g))
      {
        SpillEnds(reg, off, n0, fp, x, x', g);
      }
    }
    LockBehaviour(step, step', rel, Goto(0, s), Goto(0, s'), g);
  }

  lemma SpillEnds(reg: nat, off: int, n0: nat, fp: Word, x: Step, x': Step, g: set<Word>)
    requires MAX_BPF_REG <= reg < n0 && Slot(fp, off) <= g && SpillStep(reg, off, n0, fp, x, x') && !x.Crash?
    ensures !x'.Crash? && (x.Halt? <==> x'.Halt?) && (x.Halt? ==> SameView(x.s, x'.s, g))
  {
  }

  // ----- shape and liveness of the spilled program -----

  /** Live registers after spilling: those live before, without reg, and the frame. */
  ghost predicate LiveLess(reg: nat, live: set<nat>, live': set<nat>) {
    live' <= (live - {reg}) + {FRAME}
  }

  lemma SpillInsnLive(i: Insn, reg: nat, off: int, n0: nat, tmp: nat, live: set<nat>, live': set<nat>)
    requires Spillable(reg, n0, tmp) && WfInsn(i, n0) && LiveLess(reg, live, live')
    ensures LiveLess(reg, (live - Sets(i)) + Uses(i), LiveBefore(SpillInsn(i, reg, off, tmp), live'))
  {
    var i' := Rewritten(i, reg, tmp);
    var pre, post := Reload(i, reg, off, tmp), Save(i, reg, off, tmp);
    LiveBeforeAppend(pre + [i'], post, live');
    LiveBeforeOne(StoreSlot(tmp, off), live');
    var a := LiveBefore(post, live');
    LiveBeforeAppend(pre, [i'], a);
    LiveBeforeOne(i', a);
    var b := (a - Sets(i')) + Uses(i');
    LiveBeforeOne(LoadSlot(tmp, off), b);
  }

  lemma {:induction false} SpillInsnsLive(ins: seq<Insn>, reg: nat, off: int, n0: nat, tmp: nat, live: set<nat>,
                                          live': set<nat>)
    requires Spillable(reg, n0, tmp) && WfInsns(ins, n0) && LiveLess(reg, live, live')
    ensures LiveLess(reg, LiveBefore(ins, live), LiveBefore(SpillInsns(ins, reg, off, tmp), live'))
  {
    if ins != [] {
      var rest, tmp' := ins[1..], TmpAfter(ins[1..], reg, tmp);
      assert WfInsns(rest, n0);
      TmpGrows(rest, reg, tmp);
      SpillInsnsLive(rest, reg, off, n0, tmp, live, live');
      LiveBeforeAppend(SpillInsn(ins[0], reg, off, tmp'), SpillInsns(rest, reg, off, tmp), live');
      SpillInsnLive(ins[0], reg, off, n0, tmp', LiveBefore(rest, live),
                    LiveBefore(SpillInsns(rest, reg, off, tmp), live'));
    }
  }

  function LiveAfterSpill(reg: nat, liveIn: seq<set<nat>>): (out: seq<set<nat>>)
    ensures |out| == |liveIn| && forall b | 0 <= b < |liveIn| :: out[b] == (liveIn[b] - {reg}) + {FRAME}
  {
    seq(|liveIn|, b requires 0 <= b < |liveIn| => (liveIn[b] - {reg}) + {FRAME})
  }

  /** A solution of the old data-flow equations gives one of the new. */
  lemma SpillClosed(p: seq<Block>, reg: nat, off: int, n0: nat, liveIn: seq<set<nat>>)
    requires WfBlocks(p, n0) && MAX_BPF_REG <= reg < n0 && Closed(p, liveIn)
    ensures Closed(SpillBlocks(p, reg, off, n0), LiveAfterSpill(reg, liveIn))
  {
    var p', live' := SpillBlocks(p, reg, off, n0), LiveAfterSpill(reg, liveIn);
    forall b | 0 <= b < |p| ensures LiveBefore(p'[b].insns, AtSuccs(p'[b], live')) <= live'[b] {
      assert WfBlock(p[b], n0, |p|);
      TmpAtGrows(p, reg, n0, 0, b);
      assert LiveLess(reg, AtSuccs(p[b], liveIn), AtSuccs(p'[b], live'));
      SpillInsnsLive(p[b].insns, reg, off, n0, TmpAt(p, reg, n0, b), AtSuccs(p[b], liveIn), AtSuccs(p'[b], live'));
    }
  }

  lemma SpillInsnShape(i: Insn, reg: nat, off: int, n0: nat, tmp: nat, n1: nat)
    requires Spillable(reg, n0, tmp) && WfInsn(i, n0) && NextTmp(i, reg, tmp) <= n1 && n0 <= n1
    ensures WfInsns(SpillInsn(i, reg, off, tmp), n1) && SpillInsn(i, reg, off, tmp) != []
    ensures IsControl(i.code) ==> SpillInsn(i, reg, off, tmp)[|SpillInsn(i, reg, off, tmp)| - 1].code == i.code
    ensures forall k | 0 <= k < |SpillInsn(i, reg, off, tmp)| - (if IsControl(i.code) then 1 else 0) ::
      !IsControl(SpillInsn(i, reg, off, tmp)[k].code)
  {
    RewrittenShape(i, reg, n0, tmp, n1);
    if Reads(i, reg) { SlotShape(off, tmp, n1); }
    if i.dest == Some(reg) { SlotShape(off, tmp, n1); }
  }

  lemma RewrittenShape(i: Insn, reg: nat, n0: nat, tmp: nat, n1: nat)
    requires Spillable(reg, n0, tmp) && WfInsn(i, n0) && NextTmp(i, reg, tmp) <= n1 && n0 <= n1
    ensures WfInsn(Rewritten(i, reg, tmp), n1)
  {
  }

  lemma SlotShape(off: int, tmp: nat, n1: nat)
    requires MAX_BPF_REG <= tmp < n1
    ensures WfInsn(LoadSlot(tmp, off), n1) && WfInsn(StoreSlot(tmp, off), n1)
  {
  }

  ghost predicate SameEnd(ins: seq<Insn>, out: seq<Insn>) {
    (ins == [] <==> out == [])
    && (ins != [] ==>
         var a, b := ins[|ins| - 1].code, out[|out| - 1].code;
         if IsControl(a) then b == a else !IsControl(b))
  }

  lemma {:induction false} SpillInsnsShape(ins: seq<Insn>, reg: nat, off: int, n0: nat, tmp: nat, n1: nat)
    requires Spillable(reg, n0, tmp) && WfInsns(ins, n0) && ControlLast(ins) && TmpAfter(ins, reg, tmp) <= n1
    ensures var out := SpillInsns(ins, reg, off, tmp); WfInsns(out, n1) && ControlLast(out) && SameEnd(ins, out)
  {
    if ins != [] {
      var rest, tmp' := ins[1..], TmpAfter(ins[1..], reg, tmp);
      TmpGrows(rest, reg, tmp);
      assert WfInsns(rest, n0) && forall k | 0 <= k < |rest| :: rest[k] == ins[k + 1];
      SpillInsnsShape(rest, reg, off, n0, tmp, n1);
      SpillInsnShape(ins[0], reg, off, n0, tmp', n1);
      var a, b := SpillInsn(ins[0], reg, off, tmp'), SpillInsns(rest, reg, off, tmp);
      assert SpillInsns(ins, reg, off, tmp) == a + b;
      if rest == [] {
        assert a + b == a;
      } else {
        assert (a + b)[|a + b| - 1] == b[|b| - 1];
        assert rest[|rest| - 1] == ins[|ins| - 1];
        assert !IsControl(ins[0].code);
      }
    }
  }

  lemma EdgesKept(b: Block, out: seq<Insn>)
    requires EdgesMatch(b) && SameEnd(b.insns, out)
    ensures EdgesMatch(b.(insns := out))
  {
  }

  lemma SpillBlockWf(b: Block, reg: nat, off: int, n0: nat, tmp: nat, n1: nat, nblocks: nat)
    requires Spillable(reg, n0, tmp) && WfBlock(b, n0, nblocks) && TmpAfter(b.insns, reg, tmp) <= n1
    ensures WfBlock(b.(insns := SpillInsns(b.insns, reg, off, tmp)), n1, nblocks)
  {
    SpillInsnsShape(b.insns, reg, off, n0, tmp, n1);
    EdgesKept(b, SpillInsns(b.insns, reg, off, tmp));
  }

  lemma SpillWfAt(p: seq<Block>, reg: nat, off: int, n0: nat, b: nat)
    requires MAX_BPF_REG <= reg < n0 && b < |p| && WfBlock(p[b], n0, |p|)
    ensures WfBlock(SpillBlocks(p, reg, off, n0)[b], TmpAt(p, reg, n0, |p|), |p|)
  {
    TmpAtGrows(p, reg, n0, 0, b);
    TmpAtGrows(p, reg, n0, b + 1, |p|);
    SpillBlockWf(p[b], reg, off, n0, TmpAt(p, reg, n0, b), TmpAt(p, reg, n0, |p|), |p|);
  }

  /** Spilling leaves a well-formed program. */
  lemma SpillWf(p: seq<Block>, reg: nat, off: int, n0: nat)
    requires WfBlocks(p, n0) && MAX_BPF_REG <= reg < n0
    ensures WfBlocks(SpillBlocks(p, reg, off, n0), TmpAt(p, reg, n0, |p|))
  {
    TmpAtGrows(p, reg, n0, 0, |p|);
    forall b | 0 <= b < |p| ensures WfBlock(SpillBlocks(p, reg, off, n0)[b], TmpAt(p, reg, n0, |p|), |p|) {
      SpillWfAt(p, reg, off, n0, b);
    }
  }
}
