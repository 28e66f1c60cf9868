/** The intermediate representation of the eBPF back end: values, instructions,
    blocks and edges, and the register sets the data-flow passes read off them. */
module Ir {

  datatype Option<+T> = None | Some(value: T)

  datatype Result<+T> = Ok(value: T) | Err(error: string)

  // R0..R10; every register number from MAX_BPF_REG on is a temporary.
  const MAX_BPF_REG: nat := 11
  const FRAME: nat := 10

  datatype AluOp = Add | Sub | Mul | Div | Mod | And | Or | Xor | Lsh | Rsh | Arsh

  datatype CondOp = JEQ | JNE | JGT | JGE | JSGT | JSGE | JSET

  datatype Size = SB | SH | SW | SDW

  function Bytes(sz: Size): nat {
    match sz
    case SB => 1
    case SH => 2
    case SW => 4
    case SDW => 8
  }

  /** Opcodes. The flag `x` is the BPF_X bit: set, the second operand is a
      register; clear (BPF_K), it is the 32-bit immediate field. */
  datatype Opcode =
    | Alu(op: AluOp, x: bool)
    | Neg
    | MovX
    | MovK
    | Mov32K
    | LdImm64
    | LdMap
    | Ldx(sz: Size)
    | St(sz: Size)
    | Stx(sz: Size)
    | Ja
    | Jcond(c: CondOp, x: bool)
    | Call
    | Exit

  datatype Value = Reg(r: nat) | Imm(i: int)

  /** An instruction. For a call, `off` is the number of argument registers and
      `src1` the helper number. */
  datatype Insn = Insn(code: Opcode, off: int, dest: Option<nat>, src0: Option<Value>, src1: Option<Value>)

  /** A block; the edges are the indices of their target blocks. */
  datatype Block = Block(insns: seq<Insn>, taken: Option<nat>, fallthru: Option<nat>)

  predicate IsJmp(c: Opcode) {
    c.Ja? || c.Jcond?
  }

  predicate IsMove(c: Opcode) {
    c.MovX? || c.MovK? || c.Mov32K? || c.LdImm64? || c.LdMap?
  }

  predicate IsCommutative(c: Opcode) {
    c.Alu? && (c.op.Add? || c.op.And? || c.op.Or? || c.op.Xor? || c.op.Mul?)
  }

  /** Control never passes such an instruction except through an edge. */
  predicate IsControl(c: Opcode) {
    IsJmp(c) || c.Exit?
  }

  predicate FitsInt32(i: int) {
    -0x8000_0000 <= i < 0x8000_0000
  }

  predicate FitsUint32(i: int) {
    0 <= i < 0x1_0000_0000
  }

  predicate FitsInt64(i: int) {
    -0x8000_0000_0000_0000 <= i < 0x8000_0000_0000_0000
  }

  predicate FitsInt16(i: int) {
    -0x8000 <= i < 0x8000
  }

  predicate IsWide(v: Option<Value>) {
    v.Some? && v.value.Imm? && !FitsInt32(v.value.i)
  }

  predicate IsReg(v: Option<Value>) {
    v.Some? && v.value.Reg?
  }

  predicate IsImm(v: Option<Value>) {
    v.Some? && v.value.Imm?
  }

  function Regs(v: Option<Value>): set<nat> {
    if IsReg(v) then {v.value.r} else {}
  }

  const CLOBBERED: set<nat> := {0, 1, 2, 3, 4, 5}

  /** The registers an instruction sets (insn::mark_sets). */
  function Sets(i: Insn): set<nat> {
    if i.code.Call? then CLOBBERED
    else if i.dest.Some? then {i.dest.value} else {}
  }

  /** The registers an instruction reads (insn::mark_uses). */
  function Uses(i: Insn): set<nat> {
    if i.code.Call? then set r: nat | r in CLOBBERED && 1 <= r <= i.off
    else if i.code.Exit? then {0}
    else Regs(i.src0) + Regs(i.src1)
  }

  predicate RegsBelow(i: Insn, nregs: nat) {
    (i.dest.Some? ==> i.dest.value < nregs)
    && (IsReg(i.src0) ==> i.src0.value.r < nregs)
    && (IsReg(i.src1) ==> i.src1.value.r < nregs)
  }

  /** The operand shapes the mk_* builders produce: which operands each opcode
      carries, and the BPF_X bit telling registers from immediates. */
  predicate Shaped(i: Insn) {
    match i.code
    case Alu(_, x) => i.dest.Some? && i.src0.Some? && i.src1.Some? && x == i.src1.value.Reg?
    case Neg => i.dest.Some? && i.src0 == Some(Reg(i.dest.value)) && i.src1.None?
    case MovX => i.dest.Some? && i.src0.None? && IsReg(i.src1)
    case MovK => i.dest.Some? && i.src0.None? && IsImm(i.src1) && FitsInt32(i.src1.value.i)
    case Mov32K => i.dest.Some? && i.src0.None? && IsImm(i.src1) && FitsUint32(i.src1.value.i)
    case LdImm64 => i.dest.Some? && i.src0.None? && IsImm(i.src1) && FitsInt64(i.src1.value.i)
    case LdMap => i.dest.Some? && i.src0.None? && IsImm(i.src1)
    case Ldx(_) => i.dest.Some? && i.src0.None? && IsReg(i.src1)
    case St(_) => i.dest.None? && i.src0.Some? && IsImm(i.src1)
    case Stx(_) => i.dest.None? && i.src0.Some? && IsReg(i.src1)
    case Jcond(_, x) => i.dest.None? && i.src0.Some? && i.src1.Some? && x == i.src1.value.Reg?
    case Ja => i.dest.None?
    case Call => i.dest.None? && i.src0.None? && IsImm(i.src1) && FitsInt32(i.src1.value.i) && 0 <= i.off <= 5
    case Exit => i.dest.None? && i.src0.None? && i.src1.None?
  }

  /** A well-formed instruction: shaped, over known registers, and never
      writing the frame pointer. */
  predicate WfInsn(i: Insn, nregs: nat) {
    Shaped(i) && RegsBelow(i, nregs) && i.dest != Some(FRAME)
    && (IsImm(i.src0) ==> FitsInt64(i.src0.value.i))
    && (IsImm(i.src1) ==> FitsInt64(i.src1.value.i))
  }

  predicate WfInsns(ins: seq<Insn>, nregs: nat) {
    forall k | 0 <= k < |ins| :: WfInsn(ins[k], nregs)
  }

  /** Jumps and exits stand only at the end. */
  predicate ControlLast(ins: seq<Insn>) {
    forall k | 0 <= k < |ins| - 1 :: !IsControl(ins[k].code)
  }

  predicate EndsIn(b: Block, c: Opcode) {
    b.insns != [] && b.insns[|b.insns| - 1].code == c
  }

  predicate EndsInCond(b: Block) {
    b.insns != [] && b.insns[|b.insns| - 1].code.Jcond?
  }

  /** The edges a block carries are exactly the ones its last instruction
      needs: both for a conditional jump, the taken one for a jump, none for an
      exit, and the fall-through one otherwise. */
  predicate EdgesMatch(b: Block) {
    if EndsInCond(b) then b.taken.Some? && b.fallthru.Some?
    else if EndsIn(b, Ja) then b.taken.Some? && b.fallthru.None?
    else if EndsIn(b, Exit) then b.taken.None? && b.fallthru.None?
    else b.taken.None? && b.fallthru.Some?
  }

  predicate WfBlock(b: Block, nregs: nat, nblocks: nat) {
    WfInsns(b.insns, nregs)
    && ControlLast(b.insns)
    && EdgesMatch(b)
    && (b.taken.Some? ==> b.taken.value < nblocks)
    && (b.fallthru.Some? ==> b.fallthru.value < nblocks)
  }

  predicate WfBlocks(p: seq<Block>, nregs: nat) {
    p != [] && MAX_BPF_REG <= nregs && forall b | 0 <= b < |p| :: WfBlock(p[b], nregs, |p|)
  }

  function Succs(b: Block): set<nat> {
    (if b.taken.Some? then {b.taken.value} else {})
    + (if b.fallthru.Some? then {b.fallthru.value} else {})
  }

  /** The form the encoder relies on, established by fixup_operands: binary
      operators have dest == src0, comparisons and stores a register first
      operand, only moves a wide immediate; and offsets fit their 16-bit field. */
  predicate Lowered(i: Insn) {
    (i.dest.Some? && i.src0.Some? ==> i.src0 == Some(Reg(i.dest.value)))
    && (i.dest.None? && i.src0.Some? ==> i.src0.value.Reg?)
    && (IsWide(i.src1) ==> IsMove(i.code))
    && FitsInt16(i.off)
  }

  predicate LoweredInsns(ins: seq<Insn>) {
    forall k | 0 <= k < |ins| :: Lowered(ins[k])
  }

  predicate AllLowered(p: seq<Block>) {
    forall b | 0 <= b < |p| :: LoweredInsns(p[b].insns)
  }

  /** The same graph: only instructions may differ. */
  predicate SameEdges(p: seq<Block>, p': seq<Block>) {
    |p| == |p'| && forall b | 0 <= b < |p| :: p[b].taken == p'[b].taken && p[b].fallthru == p'[b].fallthru
  }

  /** An edge, named by the block it leaves and the slot it stands in. */
  datatype Edge = Edge(prev: nat, taken: bool)

  function NextOf(p: seq<Block>, e: Edge): Option<nat> {
    if e.prev >= |p| then None else if e.taken then p[e.prev].taken else p[e.prev].fallthru
  }

  function SetNext(p: seq<Block>, e: Edge, n: Option<nat>): seq<Block>
    requires e.prev < |p|
  {
    p[e.prev := if e.taken then p[e.prev].(taken := n) else p[e.prev].(fallthru := n)]
  }

  /** Every block lists exactly the edges that lead to it. */
  ghost predicate BackLinked(p: seq<Block>, prevs: seq<set<Edge>>) {
    |prevs| == |p| && forall n: nat, e | n < |prevs| :: e in prevs[n] <==> NextOf(p, e) == Some(n)
  }

  lemma RelinkKeeps(p: seq<Block>, prevs: seq<set<Edge>>, e: Edge, n: Option<nat>, prevs': seq<set<Edge>>)
    requires BackLinked(p, prevs) && e.prev < |p| && |prevs'| == |prevs| && (n.Some? ==> n.value < |p|)
    requires forall x | 0 <= x < |prevs| :: prevs'[x] == prevs[x] - {e} + (if n == Some(x) then {e} else {})
    ensures BackLinked(SetNext(p, e, n), prevs')
  {
    forall x: nat, f | x < |prevs'| ensures f in prevs'[x] <==> NextOf(SetNext(p, e, n), f) == Some(x) {
      assert f in prevs[x] <==> NextOf(p, f) == Some(x);
    }
  }

  /** Where r first stands in the list, or its length. */
  function IndexOf(list: seq<nat>, r: nat): (k: nat)
    ensures k <= |list| && (k < |list| ==> list[k] == r) && forall x | 0 <= x < k :: list[x] != r
  {
    if list == [] || list[0] == r then 0 else 1 + IndexOf(list[1..], r)
  }

  /** How many entries are still false. */
  function CountFalse(flags: seq<bool>): nat {
    if flags == [] then 0 else (if flags[0] then 0 else 1) + CountFalse(flags[1..])
  }

  lemma {:induction false} CountFalls(flags: seq<bool>, k: nat)
    requires k < |flags| && !flags[k]
    ensures CountFalse(flags[k := true]) == CountFalse(flags) - 1
  {
    if k == 0 {
      assert flags[k := true][1..] == flags[1..];
    } else {
      assert flags[k := true][1..] == flags[1..][k - 1 := true];
      CountFalls(flags[1..], k - 1);
    }
  }
}
