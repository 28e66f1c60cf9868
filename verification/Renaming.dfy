/** Giving every register its final number (finalize_allocation) and why that
    keeps the meaning of a program: a renaming under which no write destroys a
    live register runs in lockstep with the original. */
module Renaming {
  import opened Ir
  import opened Machine
  import opened Liveness
  import opened Simulation

  /** A register assignment; registers beyond it stay as they are. */
  function At(f: seq<nat>, r: nat): nat {
    if r < |f| then f[r] else r
  }

  function RenameValue(f: seq<nat>, v: Option<Value>): Option<Value> {
    if IsReg(v) then Some(Reg(At(f, v.value.r))) else v
  }

  function RenameInsn(f: seq<nat>, i: Insn): Insn {
    i.(dest := if i.dest.Some? then Some(At(f, i.dest.value)) else None,
       src0 := RenameValue(f, i.src0),
       src1 := RenameValue(f, i.src1))
  }

  function RenameInsns(f: seq<nat>, ins: seq<Insn>): (out: seq<Insn>)
    ensures |out| == |ins| && forall k | 0 <= k < |ins| :: out[k] == RenameInsn(f, ins[k])
  {
    seq(|ins|, k requires 0 <= k < |ins| => RenameInsn(f, ins[k]))
  }

  function RenameBlocks(f: seq<nat>, p: seq<Block>): (out: seq<Block>)
    ensures |out| == |p|
    ensures forall b | 0 <= b < |p| :: out[b] == p[b].(insns := RenameInsns(f, p[b].insns))
  {
    seq(|p|, b requires 0 <= b < |p| => p[b].(insns := RenameInsns(f, p[b].insns)))
  }

  /** Hard registers keep their numbers. */
  ghost predicate Fixed(f: seq<nat>) {
    forall r | 0 <= r < MAX_BPF_REG :: At(f, r) == r
  }

  /** What i writes is no register that is live after it, under f. */
  ghost predicate InsnOk(f: seq<nat>, i: Insn, after: set<nat>) {
    if i.code.Call? then forall r | r in after && r !in CLOBBERED :: At(f, r) !in CLOBBERED
    else i.dest.Some? ==> forall r | r in after && r != i.dest.value :: At(f, r) != At(f, i.dest.value)
  }

  ghost predicate CodeOk(f: seq<nat>, ins: seq<Insn>, live: set<nat>) {
    ins == [] || (InsnOk(f, ins[0], LiveBefore(ins[1..], live)) && CodeOk(f, ins[1..], live))
  }

  ghost predicate ProgramOk(f: seq<nat>, p: seq<Block>, liveIn: seq<set<nat>>) {
    Fixed(f) && forall b | 0 <= b < |p| :: CodeOk(f, p[b].insns, AtSuccs(p[b], liveIn))
  }

  /** The two states agree on the live registers, on memory and on the calls made. */
  ghost predicate Agrees(f: seq<nat>, live: set<nat>, s: State, s': State) {
    s.mem == s'.mem && s.trace == s'.trace
    && forall r | r in live :: Get(s.regs, r) == Get(s'.regs, At(f, r))
  }

  lemma ArgsAgree(f: seq<nat>, live: set<nat>, s: State, s': State, n: int)
    requires Fixed(f) && n <= 5 && Agrees(f, live, s, s')
    requires forall r: nat | r in CLOBBERED && 1 <= r <= n :: r in live
    ensures Args(s.regs, n) == Args(s'.regs, n)
  {
    forall k | 0 <= k < n ensures Args(s.regs, n)[k] == Args(s'.regs, n)[k] {
      assert k + 1 in CLOBBERED;
    }
  }

  lemma ClobberRename(f: seq<nat>, after: set<nat>, live: set<nat>, m: RegFile, m': RegFile, out: CallOut)
    requires Fixed(f) && after - CLOBBERED <= live
    requires forall r | r in live :: Get(m, r) == Get(m', At(f, r))
    requires forall r | r in after && r !in CLOBBERED :: At(f, r) !in CLOBBERED
    ensures forall r | r in after :: Get(Clobber(m, out), r) == Get(Clobber(m', out), At(f, r))
  {
    GetClobber(m, out);
    GetClobber(m', out);
  }

  lemma CallRename(sem: Sem, f: seq<nat>, i: Insn, after: set<nat>, s: State, s': State)
    requires i.code.Call? && Shaped(i) && Fixed(f) && InsnOk(f, i, after)
    requires Agrees(f, (after - Sets(i)) + Uses(i), s, s')
    ensures var x, x' := DoCall(sem, i, s), DoCall(sem, RenameInsn(f, i), s');
            x.Some? == x'.Some? && (x.Some? ==> Agrees(f, after, x.value, x'.value))
  {
    var live := (after - Sets(i)) + Uses(i);
    ArgsAgree(f, live, s, s', i.off);
    var args := Args(s.regs, i.off);
    ClobberRename(f, after, live, s.regs, s'.regs, sem.call(CallId(i), args, s.mem, s.trace));
  }

  lemma PutRename(f: seq<nat>, i: Insn, after: set<nat>, s: State, s': State, v: Word)
    requires !i.code.Call? && InsnOk(f, i, after) && Agrees(f, (after - Sets(i)) + Uses(i), s, s')
    ensures Agrees(f, after, Put(s, i.dest, v), Put(s', RenameInsn(f, i).dest, v))
  {
  }

  lemma OperandsRename(f: seq<nat>, i: Insn, live: set<nat>, s: State, s': State)
    requires !i.code.Call? && !i.code.Exit? && Uses(i) <= live && Agrees(f, live, s, s')
    ensures First(i.src0, s.regs) == First(RenameInsn(f, i).src0, s'.regs)
    ensures First(i.src1, s.regs) == First(RenameInsn(f, i).src1, s'.regs)
    ensures forall x | x == IsReg(i.src1) :: Second(x, i.src1, s.regs) == Second(x, RenameInsn(f, i).src1, s'.regs)
  {
    assert IsReg(i.src0) ==> i.src0.value.r in Uses(i);
    assert IsReg(i.src1) ==> i.src1.value.r in Uses(i);
  }

  lemma ExecRename(sem: Sem, f: seq<nat>, i: Insn, after: set<nat>, s: State, s': State)
    requires Shaped(i) && !IsControl(i.code) && Fixed(f) && InsnOk(f, i, after)
    requires Agrees(f, (after - Sets(i)) + Uses(i), s, s')
    ensures var x, x' := Exec(sem, i, s), Exec(sem, RenameInsn(f, i), s');
            x.Some? == x'.Some? && (x.Some? ==> Agrees(f, after, x.value, x'.value))
  {
    if i.code.Call? {
      CallRename(sem, f, i, after, s, s');
    } else {
      OperandsRename(f, i, (after - Sets(i)) + Uses(i), s, s');
      if IsCompute(i.code) {
        PutRename(f, i, after, s, s', Compute(sem, i, s.regs));
      } else if i.code.Ldx? {
        PutRename(f, i, after, s, s', LoadWord(s.mem, Addr(First(i.src1, s.regs), i.off), i.code.sz));
      }
    }
  }

  /** The results of the original and the renamed code correspond. */
  ghost predicate SameRes(f: seq<nat>, live: set<nat>, x: Res, x': Res) {
    match x
    case Fall(s) => x'.Fall? && Agrees(f, live, s, x'.s)
    case Taken(s) => x'.Taken? && Agrees(f, live, s, x'.s)
    case Exited(s) => x'.Exited? && Agrees(f, {0}, s, x'.s)
    case Fault => x'.Fault?
  }

  lemma ControlRename(sem: Sem, f: seq<nat>, i: Insn, live: set<nat>, s: State, s': State)
    requires Shaped(i) && IsControl(i.code) && Fixed(f) && Agrees(f, (live - Sets(i)) + Uses(i), s, s')
    ensures SameRes(f, live, Run(sem, [i], s), Run(sem, [RenameInsn(f, i)], s'))
  {
    RunOne(sem, i, s);
    RunOne(sem, RenameInsn(f, i), s');
    assert Sets(i) == {};
    if !i.code.Exit? {
      OperandsRename(f, i, (live - Sets(i)) + Uses(i), s, s');
    }
  }

  lemma {:induction false} RunRename(sem: Sem, f: seq<nat>, ins: seq<Insn>, live: set<nat>, s: State, s': State)
    requires (forall k | 0 <= k < |ins| :: Shaped(ins[k])) && ControlLast(ins)
    requires Fixed(f) && CodeOk(f, ins, live) && Agrees(f, LiveBefore(ins, live), s, s')
    ensures SameRes(f, live, Run(sem, ins, s), Run(sem, RenameInsns(f, ins), s'))
  {
    if ins != [] {
      var i, rest := ins[0], ins[1..];
      if IsControl(i.code) {
        assert rest == [] && ins == [i];
        assert RenameInsns(f, ins) == [RenameInsn(f, i)];
        ControlRename(sem, f, i, live, s, s');
      } else {
        assert RenameInsns(f, ins)[1..] == RenameInsns(f, rest);
        var after := LiveBefore(rest, live);
        ExecRename(sem, f, i, after, s, s');
        RunCons(sem, ins, s);
        RunCons(sem, RenameInsns(f, ins), s');
        assert forall k | 0 <= k < |rest| :: rest[k] == ins[k + 1];
        if Exec(sem, i, s).Some? {
          RunRename(sem, f, rest, live, Exec(sem, i, s).value, Exec(sem, RenameInsn(f, i), s').value);
        }
      }
    }
  }

  /** Two runs in step: at the same block agreeing on its live registers, or
      ended alike. */
  ghost predicate InStep(f: seq<nat>, liveIn: seq<set<nat>>, c: Step, c': Step) {
    match c
    case Goto(b, s) => c'.Goto? && c'.b == b && b < |liveIn| && Agrees(f, liveIn[b], s, c'.s)
    case Halt(s) => c'.Halt? && Agrees(f, {0}, s, c'.s)
    case Crash => c'.Crash?
    case Lost => c'.Lost?
  }

  lemma StepRename(sem: Sem, f: seq<nat>, p: seq<Block>, nregs: nat, liveIn: seq<set<nat>>, b: nat, s: State, s': State)
    requires WfBlocks(p, nregs) && Closed(p, liveIn) && ProgramOk(f, p, liveIn) && b < |p|
    requires Agrees(f, liveIn[b], s, s')
    ensures InStep(f, liveIn, Stepping(sem, p)(b, s), Stepping(sem, RenameBlocks(f, p))(b, s'))
  {
    assert WfBlock(p[b], nregs, |p|);
    RunRename(sem, f, p[b].insns, AtSuccs(p[b], liveIn), s, s');
  }

  /** The lockstep theorem: for every number of blocks executed, the renamed
      program is at the same point, agreeing on every live register, on memory,
      on the calls made so far, and on R0 once it has exited. */
  lemma Lockstep(sem: Sem, f: seq<nat>, p: seq<Block>, nregs: nat, liveIn: seq<set<nat>>, c: Step, c': Step, n: nat)
    requires WfBlocks(p, nregs) && Closed(p, liveIn) && ProgramOk(f, p, liveIn)
    requires InStep(f, liveIn, c, c')
    ensures InStep(f, liveIn, Steps(Stepping(sem, p), c, n), Steps(Stepping(sem, RenameBlocks(f, p)), c', n))
  {
    var rel := (x: Step, x': Step) => InStep(f, liveIn, x, x');
    forall x, x' | rel(x, x') && x.Goto?
      ensures StepKept(Stepping(sem, p), Stepping(sem, RenameBlocks(f, p)), rel, x, x')
    {
      StepRename(sem, f, p, nregs, liveIn, x.b, x.s, x'.s);
    }
    Simulate(Stepping(sem, p), Stepping(sem, RenameBlocks(f, p)), rel, c, c', n);
  }

  /** Renaming keeps the behaviour of a run that never faults, from any state
      that agrees on the registers live at the entry. */
  lemma RenameBehaviour(sem: Sem, f: seq<nat>, p: seq<Block>, nregs: nat, liveIn: seq<set<nat>>, s: State, s': State,
                        g: set<Word>)
    requires WfBlocks(p, nregs) && Closed(p, liveIn) && ProgramOk(f, p, liveIn)
    requires Agrees(f, liveIn[0], s, s') && Safe(Stepping(sem, p), Goto(0, s))
    ensures SameBehaviour(Stepping(sem, p), Goto(0, s), Stepping(sem, RenameBlocks(f, p)), Goto(0, s'), g)
    ensures Safe(Stepping(sem, RenameBlocks(f, p)), Goto(0, s'))
  {
    var step, step' := Stepping(sem, p), Stepping(sem, RenameBlocks(f, p));
    var rel := (x: Step, x': Step) => InStep(f, liveIn, x, x');
    forall x, x' | rel(x, x') && x.Goto? ensures StepKept(step, step', rel, x, x') {
      StepRename(sem, f, p, nregs, liveIn, x.b, x.s, x'.s);
    }
    forall x, x' | rel(x, x') && x.Halt? ensures SameView(x.s, x'.s, g) {
      assert Fixed(f) && 0 in {0};
    }
    LockBehaviour(step, step', rel, Goto(0, s), Goto(0, s'), g);
  }

  /** Registers that are not live do not matter: the case of the identity. */
  lemma DeadDoesNotMatter(sem: Sem, p: seq<Block>, nregs: nat, liveIn: seq<set<nat>>, s: State, s': State, g: set<Word>)
    requires WfBlocks(p, nregs) && Closed(p, liveIn)
    requires Agrees([], liveIn[0], s, s') && Safe(Stepping(sem, p), Goto(0, s))
    ensures SameBehaviour(Stepping(sem, p), Goto(0, s), Stepping(sem, p), Goto(0, s'), g)
    ensures Safe(Stepping(sem, p), Goto(0, s'))
  {
    forall b | 0 <= b < |p| ensures CodeOk([], p[b].insns, AtSuccs(p[b], liveIn)) {
      IdentityOk(p[b].insns, AtSuccs(p[b], liveIn));
    }
    forall b | 0 <= b < |p| ensures RenameBlocks([], p)[b] == p[b] {
      assert RenameInsns([], p[b].insns) == p[b].insns;
    }
    assert RenameBlocks([], p) == p;
    RenameBehaviour(sem, [], p, nregs, liveIn, s, s', g);
  }

  lemma {:induction false} IdentityOk(ins: seq<Insn>, live: set<nat>)
    ensures CodeOk([], ins, live)
  {
    if ins != [] { IdentityOk(ins[1..], live); }
  }
}
