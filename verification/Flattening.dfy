/** Running the flat code by program counter does what the blocks do. */
module Flattening {
  import opened Ir
  import opened Machine
  import opened Simulation
  import opened Linear

  /** An encodable program of at most 32768 slots. */
  ghost predicate Small(p: seq<Block>, args: nat -> nat) {
    Encodable(p) && CallsFit(p, args) && StartOf(p, |p|) <= MAX_SLOTS
  }

  /** What instruction k of block b does, in slots. */
  function SlotStep(sem: Sem, p: seq<Block>, b: nat, k: nat, s: State): Step
    requires b < |p| && k < |p[b].insns|
    requires p[b].taken.Some? ==> p[b].taken.value <= |p|
  {
    var i := p[b].insns[k];
    if i.code.Exit? then Halt(s)
    else if !IsControl(i.code) then After(Exec(sem, i, s), IdOf(p, b, k + 1))
    else if i.code.Jcond? && !TestInsn(sem, i, s.regs) then Goto(IdOf(p, b, k + 1), s)
    else if p[b].taken.Some? then Goto(StartOf(p, p[b].taken.value), s) else Lost
  }

  lemma SlotAt(sem: Sem, args: nat -> nat, p: seq<Block>, b: nat, k: nat, s: State)
    requires b < |p| && k < |p[b].insns|
    ensures var i, off := p[b].insns[k], OffsetOf(p, b, k);
            FlatStepping(sem, args, Code(p))(IdOf(p, b, k), s) ==
            FlatInsn(sem, args, Encode(i, off)[0],
                     if IsWideLoad(i.code) then Encode(i, off)[1].imm else HighAt(p, b, k), IdOf(p, b, k), s)
  {
    HoldsAt(p, b, k);
    var i, off, id, code := p[b].insns[k], OffsetOf(p, b, k), IdOf(p, b, k), Code(p);
    assert code[id] == Encode(i, off)[0];
    if IsWideLoad(i.code) { assert code[id + 1] == Encode(i, off)[1]; }
  }

  /** The immediate of the slot after instruction k of block b. */
  function HighAt(p: seq<Block>, b: nat, k: nat): int
    requires b < |p| && k < |p[b].insns|
  {
    if IdOf(p, b, k) + 1 < |Code(p)| then Code(p)[IdOf(p, b, k) + 1].imm else 0
  }

  lemma StraightStep(sem: Sem, args: nat -> nat, p: seq<Block>, b: nat, k: nat, s: State)
    requires b < |p| && k < |p[b].insns|
    requires WfInsn(p[b].insns[k], MAX_BPF_REG) && Lowered(p[b].insns[k]) && !IsControl(p[b].insns[k].code)
    requires p[b].insns[k].code.Call? ==> p[b].insns[k].off == args(IdOf(p, b, k))
    ensures FlatStepping(sem, args, Code(p))(IdOf(p, b, k), s) == After(Exec(sem, p[b].insns[k], s), IdOf(p, b, k + 1))
  {
    var i, off, id := p[b].insns[k], OffsetOf(p, b, k), IdOf(p, b, k);
    SlotAt(sem, args, p, b, k, s);
    IdNext(p, b, k);
    if IsWideLoad(i.code) {
      FlatWide(sem, args, i, off, id, s);
    } else if i.code.Mov32K? {
      FlatZeroExtended(sem, args, i, off, HighAt(p, b, k), id, s);
    } else {
      FlatPlain(sem, args, i, off, HighAt(p, b, k), id, s);
    }
  }

  lemma ControlStep(sem: Sem, args: nat -> nat, p: seq<Block>, b: nat, k: nat, s: State)
    requires b < |p| && k < |p[b].insns| && StartOf(p, |p|) <= MAX_SLOTS
    requires WfInsn(p[b].insns[k], MAX_BPF_REG) && Lowered(p[b].insns[k]) && IsControl(p[b].insns[k].code)
    requires IsJmp(p[b].insns[k].code) ==> p[b].taken.Some? && p[b].taken.value < |p|
    requires p[b].taken.Some? ==> p[b].taken.value <= |p|
    ensures FlatStepping(sem, args, Code(p))(IdOf(p, b, k), s) == SlotStep(sem, p, b, k, s)
  {
    var i, off, id := p[b].insns[k], OffsetOf(p, b, k), IdOf(p, b, k);
    SlotAt(sem, args, p, b, k, s);
    IdNext(p, b, k);
    if IsJmp(i.code) { OffsetFits(p, b, k); }
    FlatControl(sem, args, i, off, HighAt(p, b, k), id, s);
  }

  lemma FlatStepAt(sem: Sem, args: nat -> nat, p: seq<Block>, b: nat, k: nat, s: State)
    requires Small(p, args) && b < |p| && k < |p[b].insns|
    ensures WfBlock(p[b], MAX_BPF_REG, |p|)
    ensures FlatStepping(sem, args, Code(p))(IdOf(p, b, k), s) == SlotStep(sem, p, b, k, s)
  {
    assert WfBlock(p[b], MAX_BPF_REG, |p|) && LoweredInsns(p[b].insns);
    if IsControl(p[b].insns[k].code) {
      ControlStep(sem, args, p, b, k, s);
    } else {
      StraightStep(sem, args, p, b, k, s);
    }
  }

  /** Where a block that ended in `res` leaves the flat machine. */
  function FlatEnd(p: seq<Block>, b: nat, res: Res): Step
    requires b < |p| && (p[b].taken.Some? ==> p[b].taken.value <= |p|)
  {
    match res
    case Fall(s) => Goto(StartOf(p, b + 1), s)
    case Taken(s) => if p[b].taken.Some? then Goto(StartOf(p, p[b].taken.value), s) else Lost
    case Exited(s) => Halt(s)
    case Fault => Crash
  }

  /** The state in which an instruction passes control to the next one. */
  function Advance(sem: Sem, i: Insn, s: State): Option<State> {
    if !IsControl(i.code) then Exec(sem, i, s)
    else if i.code.Jcond? && !TestInsn(sem, i, s.regs) then Some(s) else None
  }

  lemma RunAdvance(sem: Sem, ins: seq<Insn>, s: State)
    requires ins != []
    ensures var x := Advance(sem, ins[0], s);
            Run(sem, ins, s) ==
            if x.Some? then Run(sem, ins[1..], x.value)
            else if ins[0].code.Exit? then Exited(s)
            else if IsJmp(ins[0].code) then Taken(s)
            else Fault
  {
  }

  /** The stepper does at every slot of block b what its instruction does. */
  ghost predicate Slotwise(step: Stepper, sem: Sem, p: seq<Block>, b: nat)
    requires b < |p| && (p[b].taken.Some? ==> p[b].taken.value <= |p|)
  {
    forall k: nat, s {:trigger SlotStep(sem, p, b, k, s)} | k < |p[b].insns| ::
    step(IdOf(p, b, k), s) == SlotStep(sem, p, b, k, s)
  }

  lemma SlotEnd(sem: Sem, p: seq<Block>, b: nat, k: nat, s: State)
    requires b < |p| && (p[b].taken.Some? ==> p[b].taken.value <= |p|) && k < |p[b].insns|
    ensures var x := Advance(sem, p[b].insns[k], s);
            if x.Some? then
              SlotStep(sem, p, b, k, s) == Goto(IdOf(p, b, k + 1), x.value)
              && Run(sem, p[b].insns[k..], s) == Run(sem, p[b].insns[k + 1..], x.value)
            else SlotStep(sem, p, b, k, s) == FlatEnd(p, b, Run(sem, p[b].insns[k..], s))
  {
    var ins := p[b].insns;
    assert ins[k..][1..] == ins[k + 1..] && ins[k..][0] == ins[k];
    RunAdvance(sem, ins[k..], s);
  }

  /** From instruction k on, the slots of a block do what the block does. */
  lemma {:induction false} FlatRuns(step: Stepper, sem: Sem, p: seq<Block>, b: nat, k: nat, s: State) returns (m: nat)
    requires b < |p| && (p[b].taken.Some? ==> p[b].taken.value <= |p|) && k <= |p[b].insns|
    requires Slotwise(step, sem, p, b)
    ensures Steps(step, Goto(IdOf(p, b, k), s), m) == FlatEnd(p, b, Run(sem, p[b].insns[k..], s))
    ensures m == 0 <==> k == |p[b].insns|
    ensures var end := FlatEnd(p, b, Run(sem, p[b].insns[k..], s));
      end.Lost? || forall j | 0 <= j < m :: Passes(Steps(step, Goto(IdOf(p, b, k), s), j), end)
    decreases |p[b].insns| - k
  {
    RunTrace(sem, p[b].insns[k..], s);
    if k == |p[b].insns| {
      IdEnds(p, b);
      m := 0;
    } else {
      SlotEnd(sem, p, b, k, s);
      var x, next := Advance(sem, p[b].insns[k], s), SlotStep(sem, p, b, k, s);
      if x.Some? {
        var m' := FlatRuns(step, sem, p, b, k + 1, x.value);
        m := m' + 1;
        var end := FlatEnd(p, b, Run(sem, p[b].insns[k..], s));
        if !end.Lost? { PassesOn(step, Goto(IdOf(p, b, k), s), m', end); }
      } else {
        m := 1;
        assert Steps(step, next, 0) == next;
      }
    }
  }

  // ----- the whole program -----

  /** The flat machine stands at the start of the block. */
  ghost predicate AtStart(p: seq<Block>, c: Step, c': Step) {
    if c'.Goto? then c'.b < |p| && c == Goto(StartOf(p, c'.b), c'.s) else c == c'
  }

  function BlocksLeft(p: seq<Block>, c: Step): nat {
    if c.Goto? && c.b <= |p| then |p| - c.b + 1 else 0
  }

  lemma EndIsStart(sem: Sem, p: seq<Block>, b: nat, s: State)
    requires b < |p| && WfBlock(p[b], MAX_BPF_REG, |p|) && (p[b].fallthru.Some? ==> p[b].fallthru.value == b + 1)
    ensures AtStart(p, FlatEnd(p, b, Run(sem, p[b].insns, s)), StepBlock(sem, p[b], s))
    ensures p[b].insns == [] ==> StepBlock(sem, p[b], s) == Goto(b + 1, s)
    ensures !StepBlock(sem, p[b], s).Lost?
  {
    FallHasEdge(sem, p[b], s);
  }

  lemma FlatMatches(sem: Sem, args: nat -> nat, p: seq<Block>, b: nat, s: State) returns (m: nat)
    requires Small(p, args) && b < |p|
    ensures AtStart(p, Steps(FlatStepping(sem, args, Code(p)), Goto(StartOf(p, b), s), m), StepBlock(sem, p[b], s))
    ensures m == 0 ==> StepBlock(sem, p[b], s) == Goto(b + 1, s)
    ensures forall j | 0 < j < m ::
      Passes(Steps(FlatStepping(sem, args, Code(p)), Goto(StartOf(p, b), s), j), StepBlock(sem, p[b], s))
  {
    var step := FlatStepping(sem, args, Code(p));
    assert WfBlock(p[b], MAX_BPF_REG, |p|);
    assert Slotwise(step, sem, p, b) by {
      forall k: nat, x | k < |p[b].insns| ensures step(IdOf(p, b, k), x) == SlotStep(sem, p, b, k, x) {
        FlatStepAt(sem, args, p, b, k, x);
      }
    }
    m := FlatRuns(step, sem, p, b, 0, s);
    IdEnds(p, b);
    assert p[b].insns[0..] == p[b].insns;
    EndIsStart(sem, p, b, s);
  }

  /** A well-formed block only runs off its end along its fall-through edge,
      and only takes a taken edge it has. */
  lemma FallHasEdge(sem: Sem, b: Block, s: State)
    requires ControlLast(b.insns) && EdgesMatch(b)
    ensures Run(sem, b.insns, s).Fall? ==> b.fallthru.Some?
    ensures Run(sem, b.insns, s).Taken? ==> b.taken.Some?
  {
    if b.insns != [] {
      var n := |b.insns| - 1;
      assert b.insns == b.insns[..n] + [b.insns[n]];
      RunAppend(sem, b.insns[..n], [b.insns[n]], s);
      PrefixFalls(sem, b.insns, n, s);
      if Run(sem, b.insns[..n], s).Fall? { RunOne(sem, b.insns[n], Run(sem, b.insns[..n], s).s); }
    }
  }

  /** The flat code of an encodable program of at most 32768 slots, run by
      program counter, behaves like the graph of blocks. */
  lemma FlatBehaviour(sem: Sem, args: nat -> nat, p: seq<Block>, s: State, g: set<Word>)
    requires Small(p, args)
    ensures SameBehaviour(FlatStepping(sem, args, Code(p)), Goto(0, s), Stepping(sem, p), Goto(0, s), g)
    ensures Safe(FlatStepping(sem, args, Code(p)), Goto(0, s)) <==> Safe(Stepping(sem, p), Goto(0, s))
  {
    var step, step' := FlatStepping(sem, args, Code(p)), Stepping(sem, p);
    var rel := (c: Step, c': Step) => AtStart(p, c, c');
    var rank := (c: Step) => BlocksLeft(p, c);
    forall c, c' | rel(c, c') && c'.Goto? ensures CanMatch(step, step', rel, rank, c, c') {
      var m := FlatMatches(sem, args, p, c'.b, c'.s);
      assert c == Goto(StartOf(p, c'.b), c'.s);
      assert Matched(step, step', rel, rank, c, c', m);
    }
    StutterBehaviour(step, step', rel, rank, Goto(0, s), Goto(0, s), g);
  }
}
