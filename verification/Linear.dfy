/** Flattening a laid-out program into instruction slots (post_alloc_cleanup,
    output_probe) and running the flat code by program counter. */
module Linear {
  import opened Ir
  import opened Machine
  import opened Reorder

  /** One 64-bit slot: an instruction, or the second half of a wide load. */
  datatype Raw = Raw(code: Opcode, dst: nat, src: nat, off: int, imm: int) | High(imm: int)

  // ----- encoding -----

  function Signed32(i: int): int {
    (i + 0x8000_0000) % 0x1_0000_0000 - 0x8000_0000
  }

  function Unsigned32(i: int): int {
    i % 0x1_0000_0000
  }

  function Signed16(i: int): int {
    (i + 0x8000) % 0x1_0000 - 0x8000
  }

  predicate IsWideLoad(c: Opcode) {
    c.LdImm64? || c.LdMap?
  }

  /** 64-bit immediates take two slots. */
  function Slots(i: Insn): nat {
    if IsWideLoad(i.code) then 2 else 1
  }

  function SlotCount(ins: seq<Insn>): nat {
    if ins == [] then 0 else Slots(ins[0]) + SlotCount(ins[1..])
  }

  /** The slot a block starts at. */
  function StartOf(p: seq<Block>, b: nat): nat
    requires b <= |p|
  {
    if b == 0 then 0 else StartOf(p, b - 1) + SlotCount(p[b - 1].insns)
  }

  /** The slot of instruction k of block b. */
  function IdOf(p: seq<Block>, b: nat, k: nat): nat
    requires b < |p| && k <= |p[b].insns|
  {
    StartOf(p, b) + SlotCount(p[b].insns[..k])
  }

  function ImmOf(v: Option<Value>): int {
    if IsImm(v) then v.value.i else 0
  }

  function RegOf(v: Option<Value>): nat {
    if IsReg(v) then v.value.r else 0
  }

  function Encode(i: Insn, off: int): seq<Raw> {
    var dst := if i.dest.Some? then i.dest.value else RegOf(i.src0);
    if i.code.LdMap? then [Raw(i.code, dst, 1, 0, ImmOf(i.src1)), High(0)]
    else if i.code.LdImm64? then
      [Raw(i.code, dst, 0, 0, Signed32(ImmOf(i.src1))), High(Signed32(ImmOf(i.src1) / 0x1_0000_0000))]
    else [Raw(i.code, dst, RegOf(i.src1), Signed16(off), Signed32(ImmOf(i.src1)))]
  }

  /** The offset field: relative to the next slot for a jump, unused for a call. */
  function OffsetOf(p: seq<Block>, b: nat, k: nat): int
    requires b < |p| && k < |p[b].insns|
  {
    var i := p[b].insns[k];
    if IsJmp(i.code) then
      if p[b].taken.Some? && p[b].taken.value <= |p| then StartOf(p, p[b].taken.value) - (IdOf(p, b, k) + 1) else 0
    else if i.code.Call? then 0
    else i.off
  }

  function EncodeFrom(p: seq<Block>, b: nat, k: nat): seq<Raw>
    requires b < |p| && k <= |p[b].insns|
    decreases |p[b].insns| - k
  {
    if k == |p[b].insns| then [] else Encode(p[b].insns[k], OffsetOf(p, b, k)) + EncodeFrom(p, b, k + 1)
  }

  function CodeFrom(p: seq<Block>, b: nat): seq<Raw>
    requires b <= |p|
    decreases |p| - b
  {
    if b == |p| then [] else EncodeFrom(p, b, 0) + CodeFrom(p, b + 1)
  }

  /** The flat code of a program. */
  function Code(p: seq<Block>): seq<Raw> {
    CodeFrom(p, 0)
  }

  // ----- the flat machine -----

  function PutReg(s: State, d: nat, v: Word): State {
    s.(regs := s.regs[d := v])
  }

  function Operand(x: bool, r: Raw, m: RegFile): Word
    requires r.Raw?
  {
    if x then Get(m, r.src) else Wrap(r.imm)
  }

  function Jump(pc: nat, off: int, s: State): Step {
    if pc + 1 + off >= 0 then Goto(pc + 1 + off, s) else Lost
  }

  function After(x: Option<State>, pc: nat): Step {
    if x.Some? then Goto(pc, x.value) else Crash
  }

  /** A helper call. How many argument registers the helper reads is not
      encoded: `args` gives it for every call slot. */
  function FlatCall(sem: Sem, args: nat -> nat, r: Raw, pc: nat, s: State): Option<State>
    requires r.Raw?
  {
    DoCall(sem, Insn(Call, args(pc), None, None, Some(Imm(r.imm))), s)
  }

  /** One instruction slot r at pc; `high` is the immediate of the slot after it. */
  function FlatInsn(sem: Sem, args: nat -> nat, r: Raw, high: int, pc: nat, s: State): Step
    requires r.Raw?
  {
    match r.code
    case Alu(op, x) => Goto(pc + 1, PutReg(s, r.dst, sem.alu(op, Get(s.regs, r.dst), Operand(x, r, s.regs))))
    case Neg => Goto(pc + 1, PutReg(s, r.dst, sem.alu(Sub, 0, Get(s.regs, r.dst))))
    case MovX => Goto(pc + 1, PutReg(s, r.dst, Get(s.regs, r.src)))
    case MovK => Goto(pc + 1, PutReg(s, r.dst, Wrap(r.imm)))
    case Mov32K => Goto(pc + 1, PutReg(s, r.dst, Unsigned32(r.imm)))
    case LdImm64 => Goto(pc + 2, PutReg(s, r.dst, Unsigned32(r.imm) + 0x1_0000_0000 * Unsigned32(high)))
    case LdMap => Goto(pc + 2, PutReg(s, r.dst, sem.mapAddr(r.imm)))
    case Ldx(sz) => After(DoLoad(sem, Addr(Get(s.regs, r.src), r.off), sz, Some(r.dst), s), pc + 1)
    case St(sz) => After(DoStore(sem, Addr(Get(s.regs, r.dst), r.off), sz, Wrap(r.imm), s), pc + 1)
    case Stx(sz) => After(DoStore(sem, Addr(Get(s.regs, r.dst), r.off), sz, Get(s.regs, r.src), s), pc + 1)
    case Ja => Jump(pc, r.off, s)
    case Jcond(c, x) =>
      if Test(sem, c, Get(s.regs, r.dst), Operand(x, r, s.regs)) then Jump(pc, r.off, s) else Goto(pc + 1, s)
    case Call => After(FlatCall(sem, args, r, pc, s), pc + 1)
    case Exit => Halt(s)
  }

  /** One step of the flat machine; it is lost outside the code and in the
      middle of a wide load. */
  function FlatStepping(sem: Sem, args: nat -> nat, code: seq<Raw>): Stepper {
    (pc: nat, s: State) =>
      if pc < |code| && code[pc].Raw? then
        FlatInsn(sem, args, code[pc], if pc + 1 < |code| then code[pc + 1].imm else 0, pc, s)
      else Lost
  }

  // ----- where instructions stand -----

  lemma {:induction false} CountSplit(ins: seq<Insn>, k: nat)
    requires k < |ins|
    ensures SlotCount(ins[..k + 1]) == SlotCount(ins[..k]) + Slots(ins[k])
  {
    if k == 0 {
      assert ins[..1] == [ins[0]] && ins[..1][1..] == [];
    } else {
      assert ins[..k + 1][1..] == ins[1..][..k] && ins[..k][1..] == ins[1..][..k - 1];
      CountSplit(ins[1..], k - 1);
    }
  }

  lemma IdNext(p: seq<Block>, b: nat, k: nat)
    requires b < |p| && k < |p[b].insns|
    ensures IdOf(p, b, k + 1) == IdOf(p, b, k) + Slots(p[b].insns[k])
  {
    CountSplit(p[b].insns, k);
  }

  lemma IdEnds(p: seq<Block>, b: nat)
    requires b < |p|
    ensures IdOf(p, b, 0) == StartOf(p, b) && IdOf(p, b, |p[b].insns|) == StartOf(p, b + 1)
  {
    assert p[b].insns[..|p[b].insns|] == p[b].insns;
  }

  lemma DropDrop(code: seq<Raw>, i: nat, a: seq<Raw>, rest: seq<Raw>)
    requires i <= |code| && code[i..] == a + rest
    ensures i + |a| <= |code| && code[i + |a|..] == rest
  {
    assert code[i + |a|..] == code[i..][|a|..];
  }

  /** The code from instruction k of block b on. */
  ghost predicate CodeAt(code: seq<Raw>, p: seq<Block>, b: nat, k: nat)
    requires b < |p| && k <= |p[b].insns|
  {
    IdOf(p, b, k) <= |code| && code[IdOf(p, b, k)..] == EncodeFrom(p, b, k) + CodeFrom(p, b + 1)
  }

  lemma CodeNext(code: seq<Raw>, p: seq<Block>, b: nat, k: nat)
    requires b < |p| && k < |p[b].insns| && CodeAt(code, p, b, k)
    ensures CodeAt(code, p, b, k + 1)
  {
    IdNext(p, b, k);
    var e, rest := Encode(p[b].insns[k], OffsetOf(p, b, k)), EncodeFrom(p, b, k + 1) + CodeFrom(p, b + 1);
    assert EncodeFrom(p, b, k) + CodeFrom(p, b + 1) == e + rest;
    DropDrop(code, IdOf(p, b, k), e, rest);
  }

  lemma {:induction false} InsnCodeAt(code: seq<Raw>, p: seq<Block>, b: nat, k: nat)
    requires b < |p| && k <= |p[b].insns|
    requires StartOf(p, b) <= |code| && code[StartOf(p, b)..] == CodeFrom(p, b)
    ensures CodeAt(code, p, b, k)
    decreases k
  {
    if k == 0 {
      IdEnds(p, b);
    } else {
      InsnCodeAt(code, p, b, k - 1);
      CodeNext(code, p, b, k - 1);
    }
  }

  /** Block b stands at slot StartOf(p, b). */
  lemma {:induction false} BlockCodeAt(p: seq<Block>, b: nat)
    requires b <= |p|
    ensures StartOf(p, b) <= |Code(p)| && Code(p)[StartOf(p, b)..] == CodeFrom(p, b)
  {
    if b == 0 {
      assert Code(p)[0..] == Code(p);
    } else {
      BlockCodeAt(p, b - 1);
      IdEnds(p, b - 1);
      InsnCodeAt(Code(p), p, b - 1, |p[b - 1].insns|);
      assert EncodeFrom(p, b - 1, |p[b - 1].insns|) + CodeFrom(p, b) == CodeFrom(p, b);
    }
  }

  lemma CodeSize(p: seq<Block>)
    ensures |Code(p)| == StartOf(p, |p|)
  {
    BlockCodeAt(p, |p|);
  }

  lemma {:induction false} StartsGrow(p: seq<Block>, a: nat, b: nat)
    requires a <= b <= |p|
    ensures StartOf(p, a) <= StartOf(p, b)
    decreases b
  {
    if a < b { StartsGrow(p, a, b - 1); }
  }

  // ----- programs the encoder is given -----

  /** A program as allocation leaves it: machine registers only, encodable
      operands, every fall-through block next in line. */
  ghost predicate Encodable(p: seq<Block>) {
    WfBlocks(p, MAX_BPF_REG) && AllLowered(p) && LaidOut(p)
  }

  /** The table gives every call slot the arguments its call passes. */
  ghost predicate CallsFit(p: seq<Block>, args: nat -> nat) {
    forall b: nat, k: nat {:trigger IdOf(p, b, k)} | b < |p| && k < |p[b].insns| && p[b].insns[k].code.Call? ::
      args(IdOf(p, b, k)) == p[b].insns[k].off
  }

  const MAX_SLOTS: nat := 32768

  /** Every jump offset of a program of at most 32768 slots fits its field. */
  lemma OffsetFits(p: seq<Block>, b: nat, k: nat)
    requires b < |p| && k < |p[b].insns| && StartOf(p, |p|) <= MAX_SLOTS
    requires IsJmp(p[b].insns[k].code)
    ensures FitsInt16(OffsetOf(p, b, k))
  {
    IdNext(p, b, k);
    IdBefore(p, b, k + 1);
    StartsGrow(p, b + 1, |p|);
    if p[b].taken.Some? && p[b].taken.value <= |p| { StartsGrow(p, p[b].taken.value, |p|); }
  }

  lemma {:induction false} IdBefore(p: seq<Block>, b: nat, k: nat)
    requires b < |p| && k <= |p[b].insns|
    ensures IdOf(p, b, k) <= StartOf(p, b + 1)
    decreases |p[b].insns| - k
  {
    if k == |p[b].insns| {
      IdEnds(p, b);
    } else {
      IdNext(p, b, k);
      IdBefore(p, b, k + 1);
    }
  }

  // ----- one instruction -----

  /** The slots from pc on hold instruction i. */
  ghost predicate Holds(code: seq<Raw>, pc: nat, i: Insn, off: int) {
    pc + Slots(i) <= |code| && code[pc..pc + Slots(i)] == Encode(i, off)
  }

  lemma TakePrefix(code: seq<Raw>, i: nat, a: seq<Raw>, rest: seq<Raw>)
    requires i <= |code| && code[i..] == a + rest
    ensures i + |a| <= |code| && code[i..i + |a|] == a
  {
    assert code[i..i + |a|] == code[i..][..|a|];
  }

  lemma HoldsIn(code: seq<Raw>, p: seq<Block>, b: nat, k: nat)
    requires b < |p| && k < |p[b].insns| && CodeAt(code, p, b, k)
    ensures Holds(code, IdOf(p, b, k), p[b].insns[k], OffsetOf(p, b, k))
  {
    var e, rest := Encode(p[b].insns[k], OffsetOf(p, b, k)), EncodeFrom(p, b, k + 1) + CodeFrom(p, b + 1);
    assert EncodeFrom(p, b, k) + CodeFrom(p, b + 1) == e + rest;
    TakePrefix(code, IdOf(p, b, k), e, rest);
  }

  lemma HoldsAt(p: seq<Block>, b: nat, k: nat)
    requires b < |p| && k < |p[b].insns|
    ensures Holds(Code(p), IdOf(p, b, k), p[b].insns[k], OffsetOf(p, b, k))
  {
    BlockCodeAt(p, b);
    InsnCodeAt(Code(p), p, b, k);
    HoldsIn(Code(p), p, b, k);
  }

  lemma SignDropped(i: int)
    ensures Unsigned32(Signed32(i)) == Unsigned32(i)
  {
    var k := (i + 0x8000_0000) / 0x1_0000_0000;
    assert i == Signed32(i) + 0x1_0000_0000 * k;
  }

  lemma HalvesJoin(i: int)
    ensures Unsigned32(i) + 0x1_0000_0000 * Unsigned32(i / 0x1_0000_0000) == Wrap(i)
  {
    var h := i / 0x1_0000_0000;
    assert i == 0x1_0000_0000 * h + Unsigned32(i) && h == 0x1_0000_0000 * (h / 0x1_0000_0000) + Unsigned32(h);
  }

  lemma WideValue(i: int)
    ensures Unsigned32(Signed32(i)) + 0x1_0000_0000 * Unsigned32(Signed32(i / 0x1_0000_0000)) == Wrap(i)
  {
    SignDropped(i);
    SignDropped(i / 0x1_0000_0000);
    HalvesJoin(i);
  }

  /** An instruction whose fields fit is encoded as it stands. */
  lemma EncodePlain(i: Insn, off: int)
    requires FitsInt16(off) && !IsWideLoad(i.code) && FitsInt32(ImmOf(i.src1))
    ensures Encode(i, off) ==
            [Raw(i.code, if i.dest.Some? then i.dest.value else RegOf(i.src0), RegOf(i.src1), off, ImmOf(i.src1))]
  {
  }

  lemma FlatWide(sem: Sem, args: nat -> nat, i: Insn, off: int, pc: nat, s: State)
    requires WfInsn(i, MAX_BPF_REG) && IsWideLoad(i.code)
    ensures var e := Encode(i, off);
            FlatInsn(sem, args, e[0], e[1].imm, pc, s) == After(Exec(sem, i, s), pc + 2)
  {
    WideValue(i.src1.value.i);
  }

  lemma FlatZeroExtended(sem: Sem, args: nat -> nat, i: Insn, off: int, high: int, pc: nat, s: State)
    requires WfInsn(i, MAX_BPF_REG) && i.code.Mov32K?
    ensures FlatInsn(sem, args, Encode(i, off)[0], high, pc, s) == After(Exec(sem, i, s), pc + 1)
  {
    assert Unsigned32(Signed32(i.src1.value.i)) == Wrap(i.src1.value.i);
  }

  lemma FlatPlain(sem: Sem, args: nat -> nat, i: Insn, off: int, high: int, pc: nat, s: State)
    requires WfInsn(i, MAX_BPF_REG) && Lowered(i) && !IsControl(i.code) && !IsWideLoad(i.code) && !i.code.Mov32K?
    requires if i.code.Call? then i.off == args(pc) else i.off == off
    requires FitsInt16(off)
    ensures FlatInsn(sem, args, Encode(i, off)[0], high, pc, s) == After(Exec(sem, i, s), pc + 1)
  {
    EncodePlain(i, off);
  }

  lemma FlatControl(sem: Sem, args: nat -> nat, i: Insn, off: int, high: int, pc: nat, s: State)
    requires WfInsn(i, MAX_BPF_REG) && Lowered(i) && IsControl(i.code) && FitsInt16(off)
    ensures FlatInsn(sem, args, Encode(i, off)[0], high, pc, s) ==
            if i.code.Exit? then Halt(s)
            else if i.code.Jcond? && !TestInsn(sem, i, s.regs) then Goto(pc + 1, s)
            else Jump(pc, off, s)
  {
    EncodePlain(i, off);
  }
}
