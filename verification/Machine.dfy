/** What a control-flow graph of eBPF instructions does: 64-bit registers,
    byte memory, helper calls, and runs over the blocks of a program. */
module Machine {
  import opened Ir

  const M64: int := 0x1_0000_0000_0000_0000

  type Word = w: int | 0 <= w < 0x1_0000_0000_0000_0000

  type Byte = b: int | 0 <= b < 256

  type Mem = map<Word, Byte>

  type RegFile = map<nat, Word>

  datatype Event = Event(id: int, args: seq<Word>)

  datatype State = State(regs: RegFile, mem: Mem, trace: seq<Event>)

  datatype CallOut = CallOut(r0: Word, scratch: RegFile, mem: Mem)

  /** The parts of the machine the optimiser never looks into: the ALU, the
      helper functions (their result, the scratch values they leave in R1..R5,
      their effect on memory and the bytes they touch), and the map addresses.
      `guard` is a set of bytes the program may not touch; a run that does
      faults. The empty guard is the plain machine. */
  datatype Sem = Sem(
    alu: (AluOp, Word, Word) -> Word,
    call: (int, seq<Word>, Mem, seq<Event>) -> CallOut,
    touch: (int, seq<Word>, Mem, seq<Event>) -> set<Word>,
    mapAddr: int -> Word,
    guard: set<Word>)

  function Wrap(i: int): Word {
    i % M64
  }

  function Signed(w: Word): int {
    if w < 0x8000_0000_0000_0000 then w else w - M64
  }

  // ----- registers and memory -----

  function Get(m: RegFile, r: nat): Word {
    if r in m then m[r] else 0
  }

  lemma GetUpdate(m: RegFile, d: nat, v: Word)
    ensures forall r: nat {:trigger Get(m[d := v], r)} :: Get(m[d := v], r) == if r == d then v else Get(m, r)
  {
  }

  function ByteAt(m: Mem, a: Word): Byte {
    if a in m then m[a] else 0
  }

  function Next(a: Word): Word {
    Wrap(a + 1)
  }

  function Load(m: Mem, a: Word, n: nat): nat
    decreases n, m
  {
    if n == 0 then 0 else ByteAt(m, a) + 256 * Load(m, Next(a), n - 1)
  }

  function Store(m: Mem, a: Word, n: nat, v: nat): Mem
    decreases n, m
  {
    if n == 0 then m else Store(m[a := v % 256], Next(a), n - 1, v / 256)
  }

  /** The bytes of an n-byte access at a. */
  function Range(a: Word, n: nat): set<Word>
    decreases n, a
  {
    if n == 0 then {} else {a} + Range(Next(a), n - 1)
  }

  function Pow256(n: nat): (p: nat)
    ensures p > 0
  {
    if n == 0 then 1 else 256 * Pow256(n - 1)
  }

  lemma {:induction false} LoadBound(m: Mem, a: Word, n: nat)
    ensures Load(m, a, n) < Pow256(n)
    decreases n
  {
    if n > 0 { LoadBound(m, Next(a), n - 1); }
  }

  function LoadWord(m: Mem, a: Word, sz: Size): Word {
    LoadBound(m, a, Bytes(sz));
    assert Pow256(1) == 256;
    assert Pow256(2) == 0x1_0000;
    assert Pow256(4) == 256 * (256 * Pow256(2)) == 0x1_0000_0000;
    assert Pow256(6) == 256 * (256 * Pow256(4));
    assert Pow256(8) == 256 * (256 * Pow256(6)) == M64;
    Load(m, a, Bytes(sz))
  }

  function Addr(base: Word, off: int): Word {
    Wrap(base + off)
  }

  // ----- operands -----

  /** The first operand. */
  function First(v: Option<Value>, m: RegFile): Word {
    match v
    case Some(Reg(r)) => Get(m, r)
    case Some(Imm(i)) => Wrap(i)
    case None => 0
  }

  /** The second operand, as the encoder will make the machine see it: under
      BPF_X the source register field (zero when the operand is no register),
      under BPF_K the immediate field (zero when it is no immediate). */
  function Second(x: bool, v: Option<Value>, m: RegFile): Word {
    if x then (if IsReg(v) then Get(m, v.value.r) else Get(m, 0))
    else (if IsImm(v) then Wrap(v.value.i) else 0)
  }

  function Test(sem: Sem, c: CondOp, x: Word, y: Word): bool {
    match c
    case JEQ => x == y
    case JNE => x != y
    case JGT => x > y
    case JGE => x >= y
    case JSGT => Signed(x) > Signed(y)
    case JSGE => Signed(x) >= Signed(y)
    case JSET => sem.alu(And, x, y) != 0
  }

  function TestInsn(sem: Sem, i: Insn, m: RegFile): bool
    requires i.code.Jcond?
  {
    Test(sem, i.code.c, First(i.src0, m), Second(i.code.x, i.src1, m))
  }

  // ----- instructions -----

  function Put(s: State, d: Option<nat>, v: Word): State {
    if d.Some? then s.(regs := s.regs[d.value := v]) else s
  }

  function Args(m: RegFile, n: int): seq<Word> {
    seq(if n < 0 then 0 else n, k requires k >= 0 => Get(m, k + 1))
  }

  /** R0 takes the result, R1..R5 whatever the helper left in them. */
  function Clobber(m: RegFile, out: CallOut): RegFile {
    map r | r in m.Keys + CLOBBERED ::
      if r == 0 then out.r0 else if r in CLOBBERED then Get(out.scratch, r) else m[r]
  }

  lemma GetClobber(m: RegFile, out: CallOut)
    ensures forall r: nat {:trigger Get(Clobber(m, out), r)} ::
      Get(Clobber(m, out), r) == (if r == 0 then out.r0 else if r in CLOBBERED then Get(out.scratch, r) else Get(m, r))
  {
  }

  function CallId(i: Insn): int {
    if IsImm(i.src1) then i.src1.value.i else 0
  }

  function DoCall(sem: Sem, i: Insn, s: State): Option<State> {
    var args := Args(s.regs, i.off);
    if sem.touch(CallId(i), args, s.mem, s.trace) !! sem.guard then
      var out := sem.call(CallId(i), args, s.mem, s.trace);
      Some(State(Clobber(s.regs, out), out.mem, s.trace + [Event(CallId(i), args)]))
    else None
  }

  function DoLoad(sem: Sem, a: Word, sz: Size, d: Option<nat>, s: State): Option<State> {
    if Range(a, Bytes(sz)) !! sem.guard then Some(Put(s, d, LoadWord(s.mem, a, sz))) else None
  }

  function DoStore(sem: Sem, a: Word, sz: Size, v: Word, s: State): Option<State> {
    if Range(a, Bytes(sz)) !! sem.guard then Some(s.(mem := Store(s.mem, a, Bytes(sz), v))) else None
  }

  /** Instructions that only compute a register value. */
  predicate IsCompute(c: Opcode) {
    c.Alu? || c.Neg? || IsMove(c)
  }

  function Compute(sem: Sem, i: Insn, m: RegFile): Word
    requires IsCompute(i.code)
  {
    match i.code
    case Alu(op, x) => sem.alu(op, First(i.src0, m), Second(x, i.src1, m))
    case Neg => sem.alu(Sub, 0, First(i.src0, m))
    case MovX => Second(true, i.src1, m)
    case LdMap => sem.mapAddr(CallId(i))
    case _ => First(i.src1, m)
  }

  /** One instruction that does not transfer control; None is a fault. */
  function Exec(sem: Sem, i: Insn, s: State): Option<State> {
    if IsCompute(i.code) then Some(Put(s, i.dest, Compute(sem, i, s.regs)))
    else match i.code
      case Ldx(sz) => DoLoad(sem, Addr(First(i.src1, s.regs), i.off), sz, i.dest, s)
      case St(sz) => DoStore(sem, Addr(First(i.src0, s.regs), i.off), sz, Second(false, i.src1, s.regs), s)
      case Stx(sz) => DoStore(sem, Addr(First(i.src0, s.regs), i.off), sz, Second(true, i.src1, s.regs), s)
      case Call => DoCall(sem, i, s)
      case _ => Some(s)
  }

  /** How straight-line code ends: by running off its end, through the taken
      edge, by an exit, or in a fault. */
  datatype Res = Fall(s: State) | Taken(s: State) | Exited(s: State) | Fault

  function Run(sem: Sem, ins: seq<Insn>, s: State): Res {
    if ins == [] then Fall(s)
    else match ins[0].code
      case Ja => Taken(s)
      case Exit => Exited(s)
      case Jcond(_, _) => if TestInsn(sem, ins[0], s.regs) then Taken(s) else Run(sem, ins[1..], s)
      case _ =>
        match Exec(sem, ins[0], s)
        case Some(s1) => Run(sem, ins[1..], s1)
        case None => Fault
  }

  lemma {:induction false} RunAppend(sem: Sem, a: seq<Insn>, b: seq<Insn>, s: State)
    ensures Run(sem, a + b, s) ==
            (match Run(sem, a, s) case Fall(s1) => Run(sem, b, s1) case r => r)
  {
    if a == [] {
      assert a + b == b;
    } else {
      assert (a + b)[0] == a[0] && (a + b)[1..] == a[1..] + b;
      match a[0].code
      case Ja =>
      case Exit =>
      case Jcond(_, _) => RunAppend(sem, a[1..], b, s);
      case _ =>
        if Exec(sem, a[0], s).Some? { RunAppend(sem, a[1..], b, Exec(sem, a[0], s).value); }
    }
  }

  lemma RunOne(sem: Sem, i: Insn, s: State)
    ensures Run(sem, [], s) == Fall(s)
    ensures !IsControl(i.code) ==>
      Run(sem, [i], s) == (if Exec(sem, i, s).Some? then Fall(Exec(sem, i, s).value) else Fault)
    ensures i.code.Ja? ==> Run(sem, [i], s) == Taken(s)
    ensures i.code.Exit? ==> Run(sem, [i], s) == Exited(s)
    ensures i.code.Jcond? ==> Run(sem, [i], s) == if TestInsn(sem, i, s.regs) then Taken(s) else Fall(s)
  {
    assert [i][1..] == [];
  }

  lemma RunCons(sem: Sem, ins: seq<Insn>, s: State)
    requires ins != [] && !IsControl(ins[0].code)
    ensures Run(sem, ins, s) ==
            (if Exec(sem, ins[0], s).Some? then Run(sem, ins[1..], Exec(sem, ins[0], s).value) else Fault)
  {
  }

  /** The trace only grows. */
  lemma {:induction false} RunTrace(sem: Sem, ins: seq<Insn>, s: State)
    ensures !Run(sem, ins, s).Fault? ==> s.trace <= Run(sem, ins, s).s.trace
  {
    if ins != [] {
      if IsControl(ins[0].code) {
        if ins[0].code.Jcond? { RunTrace(sem, ins[1..], s); }
      } else {
        RunCons(sem, ins, s);
        if Exec(sem, ins[0], s).Some? { RunTrace(sem, ins[1..], Exec(sem, ins[0], s).value); }
      }
    }
  }

  /** Nothing before the last instruction transfers control. */
  lemma {:induction false} PrefixFalls(sem: Sem, ins: seq<Insn>, k: nat, s: State)
    requires ControlLast(ins) && k < |ins|
    ensures Run(sem, ins[..k], s).Fall? || Run(sem, ins[..k], s).Fault?
    decreases k
  {
    if k > 0 {
      var rest := ins[1..];
      assert forall j | 0 <= j < |rest| :: rest[j] == ins[j + 1];
      assert ins[..k][1..] == rest[..k - 1];
      RunCons(sem, ins[..k], s);
      if Exec(sem, ins[0], s).Some? { PrefixFalls(sem, rest, k - 1, Exec(sem, ins[0], s).value); }
    }
  }

  // ----- programs -----

  /** Where a block passes control. */
  datatype Step = Goto(b: nat, s: State) | Halt(s: State) | Crash | Lost

  function Follow(e: Option<nat>, s: State): Step {
    if e.Some? then Goto(e.value, s) else Lost
  }

  function StepBlock(sem: Sem, b: Block, s: State): Step {
    match Run(sem, b.insns, s)
    case Fall(s1) => Follow(b.fallthru, s1)
    case Taken(s1) => Follow(b.taken, s1)
    case Exited(s1) => Halt(s1)
    case Fault => Crash
  }

  type Stepper = (nat, State) -> Step

  /** What one block of the program does. */
  function Stepping(sem: Sem, p: seq<Block>): Stepper {
    (b: nat, s: State) => if b < |p| then StepBlock(sem, p[b], s) else Lost
  }

  /** n blocks of a run; a run that has ended stays where it is. */
  function Steps(step: Stepper, c: Step, n: nat): Step
    decreases n
  {
    if n == 0 || !c.Goto? then c else Steps(step, step(c.b, c.s), n - 1)
  }

  ghost predicate Halts(step: Stepper, c: Step, o: State) {
    exists n: nat :: Steps(step, c, n) == Halt(o)
  }

  /** The run from c never faults. */
  ghost predicate Safe(step: Stepper, c: Step) {
    forall n: nat :: Steps(step, c, n) != Crash
  }

  // ----- what an observer sees -----

  predicate AgreeOff(m: Mem, m': Mem, g: set<Word>) {
    forall a: Word | a !in g :: ByteAt(m, a) == ByteAt(m', a)
  }

  /** Final states an observer cannot tell apart: the same R0, the same helper
      calls with the same arguments, the same memory outside g. */
  ghost predicate SameView(o: State, o': State, g: set<Word>) {
    Get(o.regs, 0) == Get(o'.regs, 0) && o.trace == o'.trace && AgreeOff(o.mem, o'.mem, g)
  }

  /** Whenever the first program halts, so does the second, in a final state
      that looks the same outside g. */
  ghost predicate Follows(step: Stepper, c: Step, step': Stepper, c': Step, g: set<Word>) {
    forall o | Halts(step, c, o) :: exists o' :: Halts(step', c', o') && SameView(o, o', g)
  }

  predicate HasState(c: Step) {
    c.Goto? || c.Halt?
  }

  /** The calls t have been made by now, before any others. */
  predicate HasMade(c: Step, t: seq<Event>) {
    HasState(c) && t <= c.s.trace
  }

  /** The run begins its calls with t. */
  ghost predicate Makes(step: Stepper, c: Step, t: seq<Event>) {
    exists n: nat :: HasMade(Steps(step, c, n), t)
  }

  /** The two runs, whether they end or not, make the same calls with the same
      arguments in the same order. */
  ghost predicate SameCalls(step: Stepper, c: Step, step': Stepper, c': Step) {
    forall t :: Makes(step, c, t) <==> Makes(step', c', t)
  }

  /** The two programs halt together, in final states that look the same; and
      where the first does not fault they make the same calls all along. */
  ghost predicate SameBehaviour(step: Stepper, c: Step, step': Stepper, c': Step, g: set<Word>) {
    Follows(step, c, step', c', g) && Follows(step', c', step, c, g)
    && (Safe(step, c) ==> SameCalls(step, c, step', c'))
  }
}
