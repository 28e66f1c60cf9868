/** Lowering operands to what the machine can encode (fixup_operands): what
    each instruction becomes, when that keeps its meaning, and the form left. */
module Fixup {
  import opened Ir
  import opened Machine
  import opened Memory
  import opened Simulation
  import opened Liveness
  import opened Programs

  // ----- the rewriting -----

  /** mk_mov: the opcode depends on the width of an immediate. */
  function Mov(d: nat, v: Value): Insn {
    var code := match v
      case Reg(_) => MovX
      case Imm(i) => if FitsInt32(i) then MovK else if FitsUint32(i) then Mov32K else LdImm64;
    Insn(code, 0, Some(d), None, Some(v))
  }

  predicate Widened(i: Insn) {
    !IsMove(i.code) && IsWide(i.src1)
  }

  /** A wide second operand goes to a new register, and the opcode becomes a
      word store, whatever it was. */
  function Narrow(i: Insn, n: nat): Insn {
    if Widened(i) then i.(src1 := Some(Reg(n)), code := Stx(SW)) else i
  }

  function NarrowPre(i: Insn, n: nat): seq<Insn> {
    if Widened(i) then [Mov(n, i.src1.value)] else []
  }

  function NarrowNext(i: Insn, n: nat): nat {
    if Widened(i) then n + 1 else n
  }

  /** Which of the cases of the second half applies. */
  datatype Case = Keep | Swap | Through | CopyFirst | LoadFirst

  function CaseOf(i: Insn): Case {
    if IsMove(i.code) || i.src0.None? then Keep
    else if i.dest.Some? then
      if i.src0 == Some(Reg(i.dest.value)) then Keep
      else if i.src1 == Some(Reg(i.dest.value)) then (if IsCommutative(i.code) then Swap else Through)
      else CopyFirst
    else if i.src0.value.Imm? then LoadFirst
    else Keep
  }

  /** Two-address form: dest == src0, and no immediate first operand. */
  function Settle(i: Insn, n: nat): seq<Insn> {
    match CaseOf(i)
    case Keep => [i]
    case Swap => [i.(src0 := i.src1, src1 := i.src0)]
    case Through => [Mov(n, i.src0.value), i.(src0 := Some(Reg(n)), dest := Some(n)), Mov(i.dest.value, Reg(n))]
    case CopyFirst => [Mov(i.dest.value, i.src0.value), i.(src0 := Some(Reg(i.dest.value)))]
    case LoadFirst => [Mov(n, i.src0.value), i.(src0 := Some(Reg(n)))]
  }

  function SettleNext(i: Insn, n: nat): nat {
    if CaseOf(i) == Through || CaseOf(i) == LoadFirst then n + 1 else n
  }

  function FixupInsn(i: Insn, n: nat): seq<Insn> {
    NarrowPre(i, n) + Settle(Narrow(i, n), NarrowNext(i, n))
  }

  function FixupNext(i: Insn, n: nat): nat {
    SettleNext(Narrow(i, n), NarrowNext(i, n))
  }

  // ----- when it is right -----

  /** The hypothesis the code relies on: a wide immediate outside a move stands
      only in a word store, and a commutative x = c op x has a register c. */
  predicate FixReady(i: Insn) {
    (Widened(i) ==> i.code == St(SW)) && (CaseOf(i) == Swap ==> i.src0.value.Reg?)
  }

  ghost predicate Commutes(sem: Sem) {
    forall op, x, y | IsCommutative(Alu(op, true)) :: sem.alu(op, x, y) == sem.alu(op, y, x)
  }

  /** Equal but for registers from n0 on. */
  ghost predicate SameBelow(n0: nat, s: State, s': State) {
    s.mem == s'.mem && s.trace == s'.trace && forall r: nat | r < n0 :: Get(s.regs, r) == Get(s'.regs, r)
  }

  ghost predicate SameResult(n0: nat, x: Res, x': Res) {
    match x
    case Fall(s) => x'.Fall? && SameBelow(n0, s, x'.s)
    case Taken(s) => x'.Taken? && SameBelow(n0, s, x'.s)
    case Exited(s) => x'.Exited? && SameBelow(n0, s, x'.s)
    case Fault => x'.Fault?
  }

  lemma MovMeans(sem: Sem, d: nat, v: Value, rest: seq<Insn>, s: State)
    ensures Run(sem, [Mov(d, v)] + rest, s) == Run(sem, rest, s.(regs := s.regs[d := First(Some(v), s.regs)]))
  {
    RunCons(sem, [Mov(d, v)] + rest, s);
    assert ([Mov(d, v)] + rest)[1..] == rest;
  }

  /** The instruction sees the same operands in s' as i in s. */
  ghost predicate SameOperands(i: Insn, i': Insn, s: State, s': State) {
    i'.code == i.code && i'.off == i.off
    && First(i.src0, s.regs) == First(i'.src0, s'.regs)
    && First(i.src1, s.regs) == First(i'.src1, s'.regs)
    && Second(true, i.src1, s.regs) == Second(true, i'.src1, s'.regs)
    && Second(false, i.src1, s.regs) == Second(false, i'.src1, s'.regs)
    && CallId(i) == CallId(i')
  }

  lemma ArgsBelow(n0: nat, s: State, s': State, n: int)
    requires SameBelow(n0, s, s') && n <= 5 && MAX_BPF_REG <= n0
    ensures Args(s.regs, n) == Args(s'.regs, n)
  {
  }

  lemma ClobberBelow(n0: nat, m: RegFile, m': RegFile, out: CallOut)
    requires forall r: nat | r < n0 :: Get(m, r) == Get(m', r)
    ensures forall r: nat | r < n0 :: Get(Clobber(m, out), r) == Get(Clobber(m', out), r)
  {
    GetClobber(m, out);
    GetClobber(m', out);
  }

  /** With equal operands and destination, equal results. */
  lemma RunSame(sem: Sem, i: Insn, i': Insn, n0: nat, s: State, s': State)
    requires WfInsn(i, n0) && MAX_BPF_REG <= n0 && SameBelow(n0, s, s') && SameOperands(i, i', s, s')
    requires i'.dest == i.dest
    ensures SameResult(n0, Run(sem, [i], s), Run(sem, [i'], s'))
  {
    RunOne(sem, i, s);
    RunOne(sem, i', s');
    if i.code.Call? {
      ArgsBelow(n0, s, s', i.off);
      ClobberBelow(n0, s.regs, s'.regs, sem.call(CallId(i), Args(s.regs, i.off), s.mem, s.trace));
    } else if IsCompute(i.code) {
      PutBelow(n0, s, s', i.dest, Compute(sem, i, s.regs));
    } else if i.code.Ldx? {
      PutBelow(n0, s, s', i.dest, LoadWord(s.mem, Addr(First(i.src1, s.regs), i.off), i.code.sz));
    }
  }

  lemma PutBelow(n0: nat, s: State, s': State, d: Option<nat>, v: Word)
    requires SameBelow(n0, s, s')
    ensures SameBelow(n0, Put(s, d, v), Put(s', d, v))
  {
    if d.Some? {
      GetUpdate(s.regs, d.value, v);
      GetUpdate(s'.regs, d.value, v);
    }
  }

  lemma KeepRuns(sem: Sem, i: Insn, n0: nat, s: State, s': State)
    requires WfInsn(i, n0) && MAX_BPF_REG <= n0 && SameBelow(n0, s, s')
    ensures SameResult(n0, Run(sem, [i], s), Run(sem, [i], s'))
  {
    RunSame(sem, i, i, n0, s, s');
  }

  lemma SwapRuns(sem: Sem, i: Insn, n: nat, s: State)
    requires WfInsn(i, n) && CaseOf(i) == Swap && i.src0.value.Reg? && Commutes(sem)
    ensures Run(sem, [i], s) == Run(sem, Settle(i, n), s)
  {
    var i' := i.(src0 := i.src1, src1 := i.src0);
    RunOne(sem, i, s);
    RunOne(sem, i', s);
    var x, y := Get(s.regs, i.src0.value.r), Get(s.regs, i.src1.value.r);
    assert IsCommutative(Alu(i.code.op, true));
    assert sem.alu(i.code.op, x, y) == sem.alu(i.code.op, y, x);
  }

  lemma ThroughRuns(sem: Sem, i: Insn, n: nat, s: State)
    requires WfInsn(i, n) && CaseOf(i) == Through
    ensures SameResult(n, Run(sem, [i], s), Run(sem, Settle(i, n), s))
  {
    var d, c := i.dest.value, First(i.src0, s.regs);
    var i', back := i.(src0 := Some(Reg(n)), dest := Some(n)), Mov(d, Reg(n));
    var s1 := s.(regs := s.regs[n := c]);
    assert Settle(i, n) == [Mov(n, i.src0.value)] + [i', back];
    MovMeans(sem, n, i.src0.value, [i', back], s);
    RunOne(sem, i, s);
    RunCons(sem, [i', back], s1);
    assert [i', back][1..] == [back] + [];
    assert Compute(sem, i', s1.regs) == Compute(sem, i, s.regs);
    var v := Compute(sem, i, s.regs);
    var s2 := Put(s1, Some(n), v);
    MovMeans(sem, d, Reg(n), [], s2);
    var s3 := s2.(regs := s2.regs[d := v]);
    GetUpdate(s.regs, n, c);
    GetUpdate(s1.regs, n, v);
    GetUpdate(s2.regs, d, v);
    GetUpdate(s.regs, d, v);
    assert Run(sem, [], s3) == Fall(s3);
  }

  lemma CopyFirstRuns(sem: Sem, i: Insn, n: nat, s: State)
    requires WfInsn(i, n) && CaseOf(i) == CopyFirst
    ensures SameResult(n, Run(sem, [i], s), Run(sem, Settle(i, n), s))
  {
    var d, c := i.dest.value, First(i.src0, s.regs);
    var i' := i.(src0 := Some(Reg(d)));
    var s1 := s.(regs := s.regs[d := c]);
    assert Settle(i, n) == [Mov(d, i.src0.value)] + [i'];
    MovMeans(sem, d, i.src0.value, [i'], s);
    RunOne(sem, i, s);
    RunOne(sem, i', s1);
    GetUpdate(s.regs, d, c);
    assert Compute(sem, i', s1.regs) == Compute(sem, i, s.regs);
    var v := Compute(sem, i, s.regs);
    GetUpdate(s.regs, d, v);
    GetUpdate(s1.regs, d, v);
  }

  lemma LoadRuns(sem: Sem, i: Insn, n: nat, s: State)
    requires WfInsn(i, n) && MAX_BPF_REG <= n && CaseOf(i) == LoadFirst
    ensures SameResult(n, Run(sem, [i], s), Run(sem, Settle(i, n), s))
  {
    var c := First(i.src0, s.regs);
    var i' := i.(src0 := Some(Reg(n)));
    var s1 := s.(regs := s.regs[n := c]);
    assert Settle(i, n) == [Mov(n, i.src0.value)] + [i'];
    MovMeans(sem, n, i.src0.value, [i'], s);
    GetUpdate(s.regs, n, c);
    RunSame(sem, i, i', n, s, s1);
  }

  lemma SettleRuns(sem: Sem, i: Insn, n: nat, s: State)
    requires WfInsn(i, n) && MAX_BPF_REG <= n && Commutes(sem) && (CaseOf(i) == Swap ==> i.src0.value.Reg?)
    ensures SameResult(n, Run(sem, [i], s), Run(sem, Settle(i, n), s))
  {
    match CaseOf(i)
    case Keep =>
    case Swap => SwapRuns(sem, i, n, s);
    case Through => ThroughRuns(sem, i, n, s);
    case CopyFirst => CopyFirstRuns(sem, i, n, s);
    case LoadFirst => LoadRuns(sem, i, n, s);
  }

  lemma NarrowRuns(sem: Sem, i: Insn, n0: nat, n: nat, s: State, s': State)
    requires WfInsn(i, n0) && FixReady(i) && Widened(i) && n0 <= n && SameBelow(n0, s, s')
    ensures SameResult(n0, Run(sem, [i], s),
                       Run(sem, [Narrow(i, n)], s'.(regs := s'.regs[n := First(i.src1, s'.regs)])))
  {
    var v := First(i.src1, s'.regs);
    var s1 := s'.(regs := s'.regs[n := v]);
    GetUpdate(s'.regs, n, v);
    RunOne(sem, i, s);
    RunOne(sem, Narrow(i, n), s1);
    assert First(i.src0, s.regs) == First(i.src0, s1.regs);
  }

  lemma ResultTrans(n0: nat, n: nat, x: Res, y: Res, z: Res)
    requires n0 <= n && SameResult(n0, x, y) && SameResult(n, y, z)
    ensures SameResult(n0, x, z)
  {
  }

  /** One instruction: under the hypothesis, lowering keeps its meaning. */
  lemma FixupOneRuns(sem: Sem, i: Insn, n0: nat, n: nat, s: State, s': State)
    requires WfInsn(i, n0) && MAX_BPF_REG <= n0 <= n && FixReady(i) && Commutes(sem) && SameBelow(n0, s, s')
    ensures SameResult(n0, Run(sem, [i], s), Run(sem, FixupInsn(i, n), s'))
  {
    var i1, n1 := Narrow(i, n), NarrowNext(i, n);
    var s1 := if Widened(i) then s'.(regs := s'.regs[n := First(i.src1, s'.regs)]) else s';
    if Widened(i) {
      NarrowRuns(sem, i, n0, n, s, s');
      MovMeans(sem, n, i.src1.value, Settle(i1, n1), s');
    } else {
      KeepRuns(sem, i, n0, s, s');
      assert FixupInsn(i, n) == Settle(i1, n1);
    }
    SettleRuns(sem, i1, n1, s1);
    ResultTrans(n0, n1, Run(sem, [i], s), Run(sem, [i1], s1), Run(sem, Settle(i1, n1), s1));
  }

  // ----- and only when -----

  /** Lowering i keeps its meaning on this machine, in every state. */
  ghost predicate FaithfulOn(sem: Sem, i: Insn, n: nat) {
    forall s :: SameResult(n, Run(sem, [i], s), Run(sem, FixupInsn(i, n), s))
  }

  /** And on every machine with the usual commutative operators. */
  ghost predicate Faithful(i: Insn, n: nat) {
    forall sem | Commutes(sem) :: FaithfulOn(sem, i, n)
  }

  function WordSum(x: int, y: int): Word {
    Wrap(x + y)
  }

  /** A machine on which every operator adds. */
  function AddSem(): Sem {
    Sem((op, x, y) => WordSum(x, y), (id, args, m, t) => CallOut(0, map[], m), (id, args, m, t) => {}, id => 0, {})
  }

  function Fresh(m: Mem): State {
    State(map[], m, [])
  }

  lemma StxRuns(sem: Sem, i: Insn, s: State)
    requires i.code == Stx(SW) && sem.guard == {}
    ensures Run(sem, [i], s) ==
            Fall(s.(mem := Store(s.mem, Addr(First(i.src0, s.regs), i.off), 4, Second(true, i.src1, s.regs))))
  {
    RunOne(sem, i, s);
    var a, v := Addr(First(i.src0, s.regs), i.off), Second(true, i.src1, s.regs);
    assert Exec(sem, i, s) == DoStore(sem, a, SW, v, s);
    assert Range(a, Bytes(SW)) !! sem.guard;
  }

  /** A word store whose first operand is loaded by a move just before. */
  lemma MovStxRuns(sem: Sem, i: Insn, d: nat, v: Value, s: State)
    requires sem.guard == {} && i.code == Stx(SW) && IsReg(i.src1) && i.src1.value.r != d
    ensures Run(sem, [Mov(d, v), i.(src0 := Some(Reg(d)))], s).Fall?
    ensures Run(sem, [Mov(d, v), i.(src0 := Some(Reg(d)))], s).s.mem ==
            Store(s.mem, Addr(First(Some(v), s.regs), i.off), 4, Get(s.regs, i.src1.value.r))
  {
    var i' := i.(src0 := Some(Reg(d)));
    var s' := s.(regs := s.regs[d := First(Some(v), s.regs)]);
    assert [Mov(d, v), i'] == [Mov(d, v)] + [i'];
    MovMeans(sem, d, v, [i'], s);
    StxRuns(sem, i', s');
  }

  /** Whatever i was, its widened form stores a word. */
  lemma WideStores(sem: Sem, i: Insn, n: nat, m: Mem)
    requires sem.guard == {} && WfInsn(i, n) && Widened(i)
    ensures var x := Run(sem, FixupInsn(i, n), Fresh(m));
            x.Fall? && x.s.mem == Store(m, Addr(First(i.src0, map[]), i.off), 4, First(i.src1, map[]))
  {
    var v := First(i.src1, map[]);
    var i1, s1 := Narrow(i, n), State(map[n := v], m, []);
    MovMeans(sem, n, i.src1.value, Settle(i1, n + 1), Fresh(m));
    assert First(i1.src0, s1.regs) == First(i.src0, map[]);
    StxRuns(sem, i1, s1);
    if CaseOf(i1) == CopyFirst {
      MovStxRuns(sem, i1, i1.dest.value, i1.src0.value, s1);
    } else if CaseOf(i1) == LoadFirst {
      MovStxRuns(sem, i1, n + 1, i1.src0.value, s1);
    }
  }

  /** i itself writes another range, or none. */
  function WidthWritten(i: Insn): nat {
    if i.code.St? then Bytes(i.code.sz) else 0
  }

  lemma OriginalStores(sem: Sem, i: Insn, n: nat, m: Mem)
    requires sem.guard == {} && WfInsn(i, n) && Widened(i)
    ensures var x := Run(sem, [i], Fresh(m));
            !x.Fault? && x.s.mem == Store(m, Addr(First(i.src0, map[]), i.off), WidthWritten(i), First(i.src1, map[]))
  {
    RunOne(sem, i, Fresh(m));
  }

  /** Stores of different lengths cannot agree on both an empty memory and one
      with a byte set where only the longer one writes. */
  lemma LengthsDiffer(b: Word, o: int, k: nat, l: nat, v: nat, m: Mem, x: Word)
    requires k < l <= 8 && x == Addr(b, o + k) && m == map[x := 1]
    ensures Store(map[], Addr(b, o), k, v) != Store(map[], Addr(b, o), l, v)
      || Store(m, Addr(b, o), k, v) != Store(m, Addr(b, o), l, v)
  {
    var a := Addr(b, o);
    InRange(b, o, l, x);
    InRange(b, o, k, x);
    if x in Range(a, k) {
      var j :| o <= j < o + k && x == Addr(b, j);
      AddrInjective(b, j, o + k);
    }
    StoreCovers(map[], m, a, l, v, x);
    StoreFrame(map[], a, k, v, x);
    StoreFrame(m, a, k, v, x);
  }

  /** A wide second operand of anything but a word store is stored as a word, on
      every machine without protected bytes. */
  lemma WideUnfaithful(sem: Sem, i: Insn, n: nat)
    requires sem.guard == {} && WfInsn(i, n) && Widened(i) && i.code != St(SW)
    ensures !FaithfulOn(sem, i, n)
  {
    var b, o, v := First(i.src0, map[]), i.off, First(i.src1, map[]);
    var k, l := if WidthWritten(i) < 4 then WidthWritten(i) else 4, if WidthWritten(i) < 4 then 4 else WidthWritten(i);
    var x := Addr(b, o + k);
    var m: Mem := map[x := 1];
    WideStores(sem, i, n, map[]);
    WideStores(sem, i, n, m);
    OriginalStores(sem, i, n, map[]);
    OriginalStores(sem, i, n, m);
    LengthsDiffer(b, o, k, l, v, m, x);
    assert !SameResult(n, Run(sem, [i], Fresh(map[])), Run(sem, FixupInsn(i, n), Fresh(map[])))
        || !SameResult(n, Run(sem, [i], Fresh(m)), Run(sem, FixupInsn(i, n), Fresh(m)));
  }

  /** An exchanged immediate is no longer read: the operator takes R0 instead. */
  lemma SwapReads(sem: Sem, i: Insn, n: nat, s: State)
    requires WfInsn(i, n) && CaseOf(i) == Swap && i.src0.value.Imm?
    ensures i.code.Alu? && !Widened(i) && var d, y, z := i.dest.value, Get(s.regs, i.dest.value), Get(s.regs, 0);
      Run(sem, [i], s) == Fall(s.(regs := s.regs[d := sem.alu(i.code.op, Wrap(i.src0.value.i), y)]))
      && Run(sem, FixupInsn(i, n), s) == Fall(s.(regs := s.regs[d := sem.alu(i.code.op, y, z)]))
  {
    var i' := i.(src0 := i.src1, src1 := i.src0);
    assert FixupInsn(i, n) == [i'];
    RunOne(sem, i, s);
    RunOne(sem, i', s);
  }

  /** What makes the exchange visible in a state. */
  lemma SwapDiffers(sem: Sem, i: Insn, n: nat, s: State)
    requires WfInsn(i, n) && CaseOf(i) == Swap && i.src0.value.Imm? && i.code.Alu?
    requires var y := Get(s.regs, i.dest.value);
      sem.alu(i.code.op, Wrap(i.src0.value.i), y) != sem.alu(i.code.op, y, Get(s.regs, 0))
    ensures !FaithfulOn(sem, i, n)
  {
    SwapReads(sem, i, n, s);
    var t, t' := Run(sem, [i], s).s, Run(sem, FixupInsn(i, n), s).s;
    assert Get(t.regs, i.dest.value) != Get(t'.regs, i.dest.value);
  }

  lemma SumsDiffer(c: Word, y: Word)
    ensures Wrap(c + y) != Wrap(y + Wrap(c + 1))
  {
  }

  lemma SwapUnfaithful(i: Insn, n: nat)
    requires WfInsn(i, n) && CaseOf(i) == Swap && i.src0.value.Imm?
    ensures !FaithfulOn(AddSem(), i, n)
  {
    var c: int := Wrap(i.src0.value.i);
    var s := State(map[0 := Wrap(c + 1)], map[], []);
    SumsDiffer(c, Get(s.regs, i.dest.value));
    SwapReads(AddSem(), i, n, s);
    SwapDiffers(AddSem(), i, n, s);
  }

  /** Lowering is faithful on all machines with the usual commutative operators
      exactly for the instructions that meet the hypothesis. */
  lemma FaithfulIff(i: Insn, n: nat)
    requires WfInsn(i, n) && MAX_BPF_REG <= n
    ensures Faithful(i, n) <==> FixReady(i)
  {
    if FixReady(i) {
      forall sem, s | Commutes(sem) ensures SameResult(n, Run(sem, [i], s), Run(sem, FixupInsn(i, n), s)) {
        FixupOneRuns(sem, i, n, n, s, s);
      }
    } else {
      assert Commutes(AddSem());
      if Widened(i) { WideUnfaithful(AddSem(), i, n); } else { SwapUnfaithful(i, n); }
    }
  }

  // ----- whole programs -----

  function FixupInsns(ins: seq<Insn>, n: nat): seq<Insn> {
    if ins == [] then [] else FixupInsn(ins[0], n) + FixupInsns(ins[1..], FixupNext(ins[0], n))
  }

  function InsnsNext(ins: seq<Insn>, n: nat): nat {
    if ins == [] then n else InsnsNext(ins[1..], FixupNext(ins[0], n))
  }

  /** The first free register when block b is reached. */
  function NextAt(p: seq<Block>, n: nat, b: nat): nat
    requires b <= |p|
  {
    if b == 0 then n else InsnsNext(p[b - 1].insns, NextAt(p, n, b - 1))
  }

  function FixupBlocks(p: seq<Block>, n: nat): (out: seq<Block>)
    ensures |out| == |p|
    ensures forall b {:trigger out[b]} | 0 <= b < |p| ::
      out[b] == p[b].(insns := FixupInsns(p[b].insns, NextAt(p, n, b)))
  {
    seq(|p|, b requires 0 <= b < |p| => p[b].(insns := FixupInsns(p[b].insns, NextAt(p, n, b))))
  }

  predicate ReadyInsns(ins: seq<Insn>) {
    forall k | 0 <= k < |ins| :: FixReady(ins[k])
  }

  predicate AllReady(p: seq<Block>) {
    forall b | 0 <= b < |p| :: ReadyInsns(p[b].insns)
  }

  lemma {:induction false} InsnsNextGrows(ins: seq<Insn>, n: nat)
    ensures n <= InsnsNext(ins, n)
  {
    if ins != [] { InsnsNextGrows(ins[1..], FixupNext(ins[0], n)); }
  }

  lemma {:induction false} NextAtGrows(p: seq<Block>, n: nat, b: nat, c: nat)
    requires b <= c <= |p|
    ensures NextAt(p, n, b) <= NextAt(p, n, c)
    decreases c
  {
    if b < c {
      NextAtGrows(p, n, b, c - 1);
      InsnsNextGrows(p[c - 1].insns, NextAt(p, n, c - 1));
    }
  }

  lemma {:induction false} RunFixup(sem: Sem, ins: seq<Insn>, n0: nat, n: nat, s: State, s': State)
    requires WfInsns(ins, n0) && MAX_BPF_REG <= n0 <= n && ReadyInsns(ins) && Commutes(sem) && SameBelow(n0, s, s')
    ensures SameResult(n0, Run(sem, ins, s), Run(sem, FixupInsns(ins, n), s'))
    decreases |ins|
  {
    if ins != [] {
      var rest, n' := ins[1..], FixupNext(ins[0], n);
      assert ins == [ins[0]] + rest;
      FixupOneRuns(sem, ins[0], n0, n, s, s');
      RunAppend(sem, [ins[0]], rest, s);
      RunAppend(sem, FixupInsn(ins[0], n), FixupInsns(rest, n'), s');
      var x, x' := Run(sem, [ins[0]], s), Run(sem, FixupInsn(ins[0], n), s');
      assert WfInsns(rest, n0) && ReadyInsns(rest);
      if x.Fall? { RunFixup(sem, rest, n0, n', x.s, x'.s); }
    }
  }

  ghost predicate FixupStep(n0: nat, c: Step, c': Step) {
    match c
    case Goto(b, s) => c'.Goto? && c'.b == b && SameBelow(n0, s, c'.s)
    case Halt(s) => c'.Halt? && SameBelow(n0, s, c'.s)
    case Crash => c'.Crash?
    case Lost => c'.Lost?
  }

  lemma StepFixup(sem: Sem, p: seq<Block>, n0: nat, b: nat, s: State, s': State)
    requires WfBlocks(p, n0) && AllReady(p) && Commutes(sem) && SameBelow(n0, s, s')
    ensures FixupStep(n0, Stepping(sem, p)(b, s), Stepping(sem, FixupBlocks(p, n0))(b, s'))
  {
    if b < |p| {
      assert WfBlock(p[b], n0, |p|);
      NextAtGrows(p, n0, 0, b);
      RunFixup(sem, p[b].insns, n0, NextAt(p, n0, b), s, s');
    }
  }

  /** fixup_operands keeps the behaviour of a program that meets the
      hypothesis, on every machine with the usual commutative operators. */
  lemma FixupBehaviour(sem: Sem, p: seq<Block>, n0: nat, s: State, g: set<Word>)
    requires WfBlocks(p, n0) && AllReady(p) && Commutes(sem) && Safe(Stepping(sem, p), Goto(0, s))
    ensures SameBehaviour(Stepping(sem, p), Goto(0, s), Stepping(sem, FixupBlocks(p, n0)), Goto(0, s), g)
    ensures Safe(Stepping(sem, FixupBlocks(p, n0)), Goto(0, s))
  {
    var step, step' := Stepping(sem, p), Stepping(sem, FixupBlocks(p, n0));
    var rel := (x: Step, x': Step) => FixupStep(n0, x, x');
    forall x, x' | rel(x, x') && x.Goto? ensures StepKept(step, step', rel, x, x') {
      StepFixup(sem, p, n0, x.b, x.s, x'.s);
    }
    LockBehaviour(step, step', rel, Goto(0, s), Goto(0, s), g);
  }

  // ----- the form left -----

  /** Every offset is one the encoder can write. */
  predicate InsnsFit(ins: seq<Insn>) {
    forall k | 0 <= k < |ins| :: FitsInt16(ins[k].off)
  }

  predicate OffsetsFit(p: seq<Block>) {
    forall b | 0 <= b < |p| :: InsnsFit(p[b].insns)
  }

  /** Well formed, with the control instruction, if any, last, and encodable if the
      offsets fit. */
  ghost predicate GoodForm(out: seq<Insn>, code: Opcode, n1: nat, fit: bool) {
    WfInsns(out, n1) && (fit ==> LoweredInsns(out)) && out != []
    && (if IsControl(code) then out[|out| - 1].code == code else !IsControl(out[|out| - 1].code))
    && ControlLast(out)
  }

  lemma MovForm(d: nat, v: Value, n1: nat)
    requires d < n1 && d != FRAME && (v.Reg? ==> v.r < n1) && (v.Imm? ==> FitsInt64(v.i))
    ensures WfInsn(Mov(d, v), n1) && Lowered(Mov(d, v)) && !IsControl(Mov(d, v).code)
  {
  }

  lemma SettleForm(i: Insn, n: nat, n1: nat)
    requires WfInsn(i, n) && MAX_BPF_REG <= n && !Widened(i) && SettleNext(i, n) <= n1
    requires CaseOf(i) == Swap ==> i.src0.value.Reg?
    ensures GoodForm(Settle(i, n), i.code, n1, FitsInt16(i.off))
  {
    match CaseOf(i)
    case Keep => assert WfInsn(i, n1) && (FitsInt16(i.off) ==> Lowered(i));
    case Swap =>
    case Through => ThroughForm(i, n, n1);
    case CopyFirst => CopyForm(i, n, n1);
    case LoadFirst => LoadForm(i, n, n1);
  }

  lemma ThroughForm(i: Insn, n: nat, n1: nat)
    requires WfInsn(i, n) && MAX_BPF_REG <= n && !Widened(i) && n + 1 <= n1 && CaseOf(i) == Through
    ensures GoodForm(Settle(i, n), i.code, n1, FitsInt16(i.off))
  {
    MovForm(n, i.src0.value, n1);
    MovForm(i.dest.value, Reg(n), n1);
    assert WfInsn(i.(src0 := Some(Reg(n)), dest := Some(n)), n1);
  }

  lemma CopyForm(i: Insn, n: nat, n1: nat)
    requires WfInsn(i, n) && MAX_BPF_REG <= n && !Widened(i) && n <= n1 && CaseOf(i) == CopyFirst
    ensures GoodForm(Settle(i, n), i.code, n1, FitsInt16(i.off))
  {
    MovForm(i.dest.value, i.src0.value, n1);
    assert WfInsn(i.(src0 := Some(Reg(i.dest.value))), n1);
  }

  lemma LoadForm(i: Insn, n: nat, n1: nat)
    requires WfInsn(i, n) && MAX_BPF_REG <= n && !Widened(i) && n + 1 <= n1 && CaseOf(i) == LoadFirst
    ensures GoodForm(Settle(i, n), i.code, n1, FitsInt16(i.off))
  {
    MovForm(n, i.src0.value, n1);
    assert WfInsn(i.(src0 := Some(Reg(n))), n1);
  }

  lemma FixupInsnForm(i: Insn, n0: nat, n: nat, n1: nat)
    requires WfInsn(i, n0) && MAX_BPF_REG <= n0 <= n && FixReady(i) && FixupNext(i, n) <= n1
    ensures GoodForm(FixupInsn(i, n), i.code, n1, FitsInt16(i.off))
  {
    var i1 := Narrow(i, n);
    assert WfInsn(i1, NarrowNext(i, n));
    SettleForm(i1, NarrowNext(i, n), n1);
    if Widened(i) { MovForm(n, i.src1.value, n1); }
  }

  lemma {:induction false} FixupInsnsForm(ins: seq<Insn>, n0: nat, n: nat, n1: nat)
    requires WfInsns(ins, n0) && MAX_BPF_REG <= n0 <= n && ReadyInsns(ins) && InsnsNext(ins, n) <= n1
    requires ControlLast(ins)
    ensures ins != [] ==> GoodForm(FixupInsns(ins, n), ins[|ins| - 1].code, n1, InsnsFit(ins))
    decreases |ins|
  {
    if ins != [] {
      var rest, n' := ins[1..], FixupNext(ins[0], n);
      InsnsNextGrows(rest, n');
      assert forall k | 0 <= k < |rest| :: rest[k] == ins[k + 1];
      FixupInsnForm(ins[0], n0, n, n1);
      FixupInsnsForm(rest, n0, n', n1);
      if rest == [] {
        assert FixupInsns(ins, n) == FixupInsn(ins[0], n);
      } else {
        AppendForm(FixupInsn(ins[0], n), ins[0].code, FixupInsns(rest, n'), rest[|rest| - 1].code, n1, InsnsFit(ins));
      }
    }
  }

  lemma AppendForm(a: seq<Insn>, ca: Opcode, b: seq<Insn>, cb: Opcode, n1: nat, fit: bool)
    requires GoodForm(a, ca, n1, fit) && GoodForm(b, cb, n1, fit) && !IsControl(ca)
    ensures GoodForm(a + b, cb, n1, fit)
  {
  }

  /** The result is well formed. */
  lemma FixupForm(p: seq<Block>, n0: nat)
    requires WfBlocks(p, n0) && AllReady(p)
    ensures WfBlocks(FixupBlocks(p, n0), NextAt(p, n0, |p|))
  {
    NextAtGrows(p, n0, 0, |p|);
    forall b | 0 <= b < |p| ensures WfBlock(FixupBlocks(p, n0)[b], NextAt(p, n0, |p|), |p|) { FixupFormAt(p, n0, b); }
  }

  /** If the offsets fit, it is in the form the encoder needs. */
  lemma FixupLowers(p: seq<Block>, n0: nat)
    requires WfBlocks(p, n0) && AllReady(p) && OffsetsFit(p)
    ensures AllLowered(FixupBlocks(p, n0))
  {
    forall b | 0 <= b < |p| ensures LoweredInsns(FixupBlocks(p, n0)[b].insns) { FixupFormAt(p, n0, b); }
  }

  lemma FixupFormAt(p: seq<Block>, n0: nat, b: nat)
    requires MAX_BPF_REG <= n0 && b < |p| && WfBlock(p[b], n0, |p|) && ReadyInsns(p[b].insns)
    ensures WfBlock(FixupBlocks(p, n0)[b], NextAt(p, n0, |p|), |p|)
    ensures InsnsFit(p[b].insns) ==> LoweredInsns(FixupBlocks(p, n0)[b].insns)
  {
    NextAtGrows(p, n0, 0, b);
    NextAtGrows(p, n0, b + 1, |p|);
    FixupBlockForm(p[b], n0, NextAt(p, n0, b), NextAt(p, n0, |p|), |p|);
  }

  lemma FixupBlockForm(b: Block, n0: nat, n: nat, n1: nat, nblocks: nat)
    requires MAX_BPF_REG <= n0 <= n && InsnsNext(b.insns, n) <= n1 && WfBlock(b, n0, nblocks) && ReadyInsns(b.insns)
    ensures WfBlock(b.(insns := FixupInsns(b.insns, n)), n1, nblocks)
    ensures InsnsFit(b.insns) ==> LoweredInsns(FixupInsns(b.insns, n))
  {
    FixupInsnsForm(b.insns, n0, n, n1);
  }

  // ----- liveness -----

  lemma SettleLive(i: Insn, n: nat, live: set<nat>)
    requires Shaped(i) && RegsBelow(i, n) && (CaseOf(i) == Swap ==> i.src0.value.Reg?)
    ensures LiveBefore(Settle(i, n), live) <= (live - Sets(i)) + Uses(i)
  {
    LiveBeforeOne(i, live);
    match CaseOf(i)
    case Keep =>
    case Swap => LiveBeforeOne(i.(src0 := i.src1, src1 := i.src0), live);
    case Through =>
      var i', back := i.(src0 := Some(Reg(n)), dest := Some(n)), Mov(i.dest.value, Reg(n));
      assert Settle(i, n) == [Mov(n, i.src0.value)] + ([i'] + [back]);
      LiveBeforeAppend([Mov(n, i.src0.value)], [i'] + [back], live);
      LiveBeforeAppend([i'], [back], live);
      LiveBeforeOne(back, live);
      LiveBeforeOne(i', LiveBefore([back], live));
      LiveBeforeOne(Mov(n, i.src0.value), LiveBefore([i'] + [back], live));
    case CopyFirst =>
      var i' := i.(src0 := Some(Reg(i.dest.value)));
      assert Settle(i, n) == [Mov(i.dest.value, i.src0.value)] + [i'];
      LiveBeforeAppend([Mov(i.dest.value, i.src0.value)], [i'], live);
      LiveBeforeOne(i', live);
      LiveBeforeOne(Mov(i.dest.value, i.src0.value), LiveBefore([i'], live));
    case LoadFirst =>
      var i' := i.(src0 := Some(Reg(n)));
      assert Settle(i, n) == [Mov(n, i.src0.value)] + [i'];
      LiveBeforeAppend([Mov(n, i.src0.value)], [i'], live);
      LiveBeforeOne(i', live);
      LiveBeforeOne(Mov(n, i.src0.value), LiveBefore([i'], live));
  }

  lemma FixupInsnLive(i: Insn, n0: nat, n: nat, live: set<nat>)
    requires WfInsn(i, n0) && n0 <= n && FixReady(i)
    ensures LiveBefore(FixupInsn(i, n), live) <= (live - Sets(i)) + Uses(i)
  {
    var i1, n1 := Narrow(i, n), NarrowNext(i, n);
    SettleLive(i1, n1, live);
    LiveBeforeAppend(NarrowPre(i, n), Settle(i1, n1), live);
    if Widened(i) { LiveBeforeOne(Mov(n, i.src1.value), LiveBefore(Settle(i1, n1), live)); }
  }

  lemma {:induction false} FixupInsnsLive(ins: seq<Insn>, n0: nat, n: nat, live: set<nat>)
    requires WfInsns(ins, n0) && n0 <= n && ReadyInsns(ins)
    ensures LiveBefore(FixupInsns(ins, n), live) <= LiveBefore(ins, live)
    decreases |ins|
  {
    if ins != [] {
      var rest, n' := ins[1..], FixupNext(ins[0], n);
      assert WfInsns(rest, n0) && ReadyInsns(rest);
      FixupInsnsLive(rest, n0, n', live);
      LiveBeforeAppend(FixupInsn(ins[0], n), FixupInsns(rest, n'), live);
      LiveBeforeMono(FixupInsn(ins[0], n), LiveBefore(FixupInsns(rest, n'), live), LiveBefore(rest, live));
      FixupInsnLive(ins[0], n0, n, LiveBefore(rest, live));
    }
  }

  /** A solution of the data-flow equations stays one. */
  lemma FixupClosed(p: seq<Block>, n0: nat, liveIn: seq<set<nat>>)
    requires WfBlocks(p, n0) && AllReady(p) && Closed(p, liveIn)
    ensures Closed(FixupBlocks(p, n0), liveIn)
  {
    forall b | 0 <= b < |p|
      ensures LiveBefore(FixupBlocks(p, n0)[b].insns, AtSuccs(FixupBlocks(p, n0)[b], liveIn)) <= liveIn[b]
    {
      assert WfBlock(p[b], n0, |p|);
      NextAtGrows(p, n0, 0, b);
      FixupInsnsLive(p[b].insns, n0, NextAt(p, n0, b), AtSuccs(p[b], liveIn));
    }
  }

  // ----- fixup_operands -----

  /** One instruction: the moves inserted before and after it, and its new form. */
  method FixupOne(p: Program, insn: Insn) returns (out: seq<Insn>)
    modifies p`nregs
    ensures out == FixupInsn(insn, old(p.nregs)) && p.nregs == FixupNext(insn, old(p.nregs))
  {
    if IsMove(insn.code) { return [insn]; }
    var before, after, j := [], [], insn;
    if IsWide(j.src1) {
      var n := p.NewReg();
      before := before + [Mov(n, j.src1.value)];
      j := j.(src1 := Some(Reg(n)), code := Stx(SW));
    }
    if j.src0.Some? {
      if j.dest.Some? {
        var d := j.dest.value;
        if j.src0 == Some(Reg(d)) {
        } else if j.src1 == Some(Reg(d)) {
          if IsCommutative(j.code) {
            j := j.(src0 := j.src1, src1 := j.src0);
          } else {
            var n := p.NewReg();
            before := before + [Mov(n, j.src0.value)];
            j := j.(src0 := Some(Reg(n)), dest := Some(n));
            after := [Mov(d, Reg(n))];
          }
        } else {
          before := before + [Mov(d, j.src0.value)];
          j := j.(src0 := Some(Reg(d)));
        }
      } else if j.src0.value.Imm? {
        var n := p.NewReg();
        before := before + [Mov(n, j.src0.value)];
        j := j.(src0 := Some(Reg(n)));
      }
    }
    out := before + [j] + after;
  }

  /** One instruction of a block done. */
  lemma FixupMore(done: seq<Insn>, todo: seq<Insn>, n: nat, out: seq<Insn>, n': nat)
    requires todo != [] && out == FixupInsn(todo[0], n) && n' == FixupNext(todo[0], n)
    ensures done + FixupInsns(todo, n) == (done + out) + FixupInsns(todo[1..], n')
    ensures InsnsNext(todo, n) == InsnsNext(todo[1..], n')
  {
  }

  /** One block, front to back. */
  method FixupBlock(p: Program, i: nat)
    requires i < |p.blocks|
    modifies p`blocks, p`nregs
    ensures p.blocks == old(p.blocks)[i := old(p.blocks)[i].(insns := FixupInsns(old(p.blocks)[i].insns, old(p.nregs)))]
    ensures p.nregs == InsnsNext(old(p.blocks)[i].insns, old(p.nregs))
  {
    ghost var ins0, n0 := p.blocks[i].insns, p.nregs;
    var done, todo := [], p.blocks[i].insns;
    while todo != []
      invariant p.blocks == old(p.blocks)
      invariant done + FixupInsns(todo, p.nregs) == FixupInsns(ins0, n0)
      invariant InsnsNext(todo, p.nregs) == InsnsNext(ins0, n0)
      decreases |todo|
    {
      ghost var n := p.nregs;
      var out := FixupOne(p, todo[0]);
      FixupMore(done, todo, n, out, p.nregs);
      done, todo := done + out, todo[1..];
    }
    assert done == FixupInsns(ins0, n0);
    p.blocks := p.blocks[i := p.blocks[i].(insns := done)];
  }

  /** fixup_operands: every block in turn. */
  method FixupOperands(p: Program)
    modifies p`blocks, p`nregs
    ensures p.blocks == FixupBlocks(old(p.blocks), old(p.nregs))
    ensures p.nregs == NextAt(old(p.blocks), old(p.nregs), |old(p.blocks)|)
  {
    ghost var blocks0, n0 := p.blocks, p.nregs;
    ghost var goal := FixupBlocks(blocks0, n0);
    var i := 0;
    while i < |p.blocks|
      invariant 0 <= i <= |p.blocks| == |blocks0|
      invariant forall b {:trigger goal[b]} | 0 <= b < i :: p.blocks[b] == goal[b]
      invariant p.blocks[i..] == blocks0[i..]
      invariant p.nregs == NextAt(blocks0, n0, i)
    {
      assert p.blocks[i] == blocks0[i..][0];
      ghost var before := p.blocks;
      FixupBlock(p, i);
      assert p.blocks[i + 1..] == before[i..][1..];
      i := i + 1;
    }
    assert p.blocks == goal;
  }
}
