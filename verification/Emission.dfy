/** post_alloc_cleanup and output_probe: drop no-op moves, number the slots,
    fill in jump offsets and write the code buffer. */
module Emission {
  import opened Ir
  import opened Machine
  import opened Simulation
  import opened Fixup
  import opened Reorder
  import opened Linear
  import opened Programs

  // ----- no-op moves -----

  predicate IsNoop(i: Insn) {
    IsMove(i.code) && IsReg(i.src1) && i.dest == Some(i.src1.value.r)
  }

  function CleanInsns(ins: seq<Insn>): seq<Insn> {
    if ins == [] then []
    else (if IsNoop(ins[0]) then [] else [ins[0]]) + CleanInsns(ins[1..])
  }

  function CleanBlocks(p: seq<Block>): (out: seq<Block>)
    ensures |out| == |p|
    ensures forall b {:trigger out[b]} | 0 <= b < |p| :: out[b] == p[b].(insns := CleanInsns(p[b].insns))
  {
    seq(|p|, b requires 0 <= b < |p| => p[b].(insns := CleanInsns(p[b].insns)))
  }

  lemma NoopRuns(sem: Sem, i: Insn, n0: nat, s: State, s': State)
    requires WfInsn(i, n0) && IsNoop(i) && SameBelow(n0, s, s')
    ensures SameResult(n0, Run(sem, [i], s), Run(sem, [], s'))
  {
    RunOne(sem, i, s);
    GetUpdate(s.regs, i.dest.value, Get(s.regs, i.dest.value));
  }

  lemma {:induction false} RunClean(sem: Sem, ins: seq<Insn>, n0: nat, s: State, s': State)
    requires WfInsns(ins, n0) && MAX_BPF_REG <= n0 && SameBelow(n0, s, s')
    ensures SameResult(n0, Run(sem, ins, s), Run(sem, CleanInsns(ins), s'))
    decreases |ins|
  {
    if ins != [] {
      var rest := ins[1..];
      var head := if IsNoop(ins[0]) then [] else [ins[0]];
      assert ins == [ins[0]] + rest;
      RunAppend(sem, [ins[0]], rest, s);
      RunAppend(sem, head, CleanInsns(rest), s');
      if IsNoop(ins[0]) { NoopRuns(sem, ins[0], n0, s, s'); } else { KeepRuns(sem, ins[0], n0, s, s'); }
      var x, x' := Run(sem, [ins[0]], s), Run(sem, head, s');
      assert WfInsns(rest, n0);
      if x.Fall? { RunClean(sem, rest, n0, x.s, x'.s); }
    }
  }

  lemma StepClean(sem: Sem, p: seq<Block>, n0: nat, b: nat, s: State, s': State)
    requires WfBlocks(p, n0) && SameBelow(n0, s, s')
    ensures FixupStep(n0, Stepping(sem, p)(b, s), Stepping(sem, CleanBlocks(p))(b, s'))
  {
    if b < |p| {
      assert WfBlock(p[b], n0, |p|);
      RunClean(sem, p[b].insns, n0, s, s');
    }
  }

  /** Dropping the no-op moves keeps the behaviour. */
  lemma CleanBehaviour(sem: Sem, p: seq<Block>, n0: nat, s: State, g: set<Word>)
    requires WfBlocks(p, n0) && Safe(Stepping(sem, p), Goto(0, s))
    ensures SameBehaviour(Stepping(sem, p), Goto(0, s), Stepping(sem, CleanBlocks(p)), Goto(0, s), g)
    ensures Safe(Stepping(sem, CleanBlocks(p)), Goto(0, s))
  {
    var step, step' := Stepping(sem, p), Stepping(sem, CleanBlocks(p));
    var rel := (x: Step, x': Step) => FixupStep(n0, x, x');
    forall x: Step, x': Step | rel(x, x') && x.Goto? ensures StepKept(step, step', rel, x, x') {
      StepClean(sem, p, n0, x.b, x.s, x'.s);
    }
    LockBehaviour(step, step', rel, Goto(0, s), Goto(0, s), g);
  }

  lemma {:induction false} CleanFrom(ins: seq<Insn>)
    ensures forall k | 0 <= k < |CleanInsns(ins)| :: CleanInsns(ins)[k] in ins
    ensures ControlLast(ins) ==> ControlLast(CleanInsns(ins))
    ensures ControlLast(ins) && ins != [] && !IsNoop(ins[|ins| - 1]) ==>
      CleanInsns(ins) != [] && CleanInsns(ins)[|CleanInsns(ins)| - 1] == ins[|ins| - 1]
    ensures ControlLast(ins) && ins != [] && IsNoop(ins[|ins| - 1]) ==>
      forall k | 0 <= k < |CleanInsns(ins)| :: !IsControl(CleanInsns(ins)[k].code)
  {
    if ins != [] {
      var rest := ins[1..];
      CleanFrom(rest);
      assert ControlLast(ins) ==> ControlLast(rest) by { assert forall k | 0 <= k < |rest| :: rest[k] == ins[k + 1]; }
      assert |rest| > 0 ==> rest[|rest| - 1] == ins[|ins| - 1];
    }
  }

  /** What the encoder needs survives the clean-up. */
  lemma CleanKeeps(p: seq<Block>)
    requires WfBlocks(p, MAX_BPF_REG) && LaidOut(p)
    ensures WfBlocks(CleanBlocks(p), MAX_BPF_REG) && LaidOut(CleanBlocks(p))
    ensures AllLowered(p) ==> Encodable(CleanBlocks(p))
  {
    var q := CleanBlocks(p);
    forall b: nat | b < |q| ensures WfBlock(q[b], MAX_BPF_REG, |q|) && (AllLowered(p) ==> LoweredInsns(q[b].insns)) {
      assert WfBlock(p[b], MAX_BPF_REG, |p|);
      CleanWf(p[b], |p|);
    }
  }

  lemma CleanWf(b: Block, nblocks: nat)
    requires WfBlock(b, MAX_BPF_REG, nblocks)
    ensures var c := b.(insns := CleanInsns(b.insns));
            WfBlock(c, MAX_BPF_REG, nblocks) && (LoweredInsns(b.insns) ==> LoweredInsns(c.insns))
  {
    var ins, out := b.insns, CleanInsns(b.insns);
    CleanFrom(ins);
    forall k | 0 <= k < |out| ensures exists j: nat :: j < |ins| && out[k] == ins[j] {
      assert out[k] in ins;
    }
    assert ins != [] && IsControl(ins[|ins| - 1].code) ==> !IsNoop(ins[|ins| - 1]);
  }

  // ----- slot numbers -----

  /** The slot numbers written into the instructions. */
  ghost predicate Numbered(p: seq<Block>, ids: seq<seq<nat>>) {
    |ids| == |p| && forall b | 0 <= b < |p| :: NumberedBlock(p, b, ids[b])
  }

  ghost predicate NumberedBlock(p: seq<Block>, b: nat, ids: seq<nat>)
    requires b < |p|
  {
    |ids| == |p[b].insns| && forall k | 0 <= k < |ids| :: ids[k] == IdOf(p, b, k)
  }

  lemma CleanTail(ins: seq<Insn>, j: nat, out: seq<Insn>)
    requires j < |ins|
    ensures out + CleanInsns(ins[j..]) == (if IsNoop(ins[j]) then out else out + [ins[j]]) + CleanInsns(ins[j + 1..])
  {
    assert ins[j..][1..] == ins[j + 1..] && ins[j..][0] == ins[j];
    assert out + ([ins[j]] + CleanInsns(ins[j + 1..])) == (out + [ins[j]]) + CleanInsns(ins[j + 1..]);
    assert [] + CleanInsns(ins[j + 1..]) == CleanInsns(ins[j + 1..]);
  }

  lemma NextId(was: seq<Insn>, i: Insn)
    ensures SlotCount(was + [i]) == SlotCount(was) + Slots(i)
    ensures forall k | 0 <= k <= |was| :: SlotCount((was + [i])[..k]) == SlotCount(was[..k])
    ensures SlotCount(was[..|was|]) == SlotCount(was)
  {
    var out := was + [i];
    forall k | 0 <= k <= |was| ensures SlotCount(out[..k]) == SlotCount(was[..k]) { assert out[..k] == was[..k]; }
    assert was[..|was|] == was && out[..|was| + 1] == out;
    CountSplit(out, |was|);
  }

  /** post_alloc_cleanup of one block: what stays, its slot numbers and the
      next free one. */
  method CleanOne(ins: seq<Insn>, first: nat) returns (out: seq<Insn>, ids: seq<nat>, next: nat)
    ensures out == CleanInsns(ins) && |ids| == |out| && next == first + SlotCount(out)
    ensures forall k | 0 <= k < |out| :: ids[k] == first + SlotCount(out[..k])
  {
    out, ids, next := [], [], first;
    assert ins[0..] == ins;
    for j := 0 to |ins|
      invariant out + CleanInsns(ins[j..]) == CleanInsns(ins)
      invariant |ids| == |out| && next == first + SlotCount(out)
      invariant forall k | 0 <= k < |out| :: ids[k] == first + SlotCount(out[..k])
    {
      CleanTail(ins, j, out);
      if !IsNoop(ins[j]) {
        ghost var was := out;
        out, ids := out + [ins[j]], ids + [next];
        next := next + Slots(ins[j]);
        NextId(was, ins[j]);
      }
    }
    assert ins[|ins|..] == [];
    assert out + [] == out;
  }

  method PostAllocCleanup(p: Program) returns (ids: seq<seq<nat>>)
    modifies p`blocks
    ensures p.blocks == CleanBlocks(old(p.blocks))
    ensures Numbered(p.blocks, ids)
  {
    ids := [];
    var id := 0;
    ghost var goal := CleanBlocks(p.blocks);
    for i := 0 to |p.blocks|
      invariant |p.blocks| == old(|p.blocks|) && |ids| == i && id == StartOf(goal, i)
      invariant forall b | 0 <= b < |p.blocks| :: p.blocks[b] == if b < i then goal[b] else old(p.blocks)[b]
      invariant forall b | 0 <= b < i :: NumberedBlock(goal, b, ids[b])
    {
      var out, block, next := CleanOne(p.blocks[i].insns, id);
      p.blocks := p.blocks[i := p.blocks[i].(insns := out)];
      ids, id := ids + [block], next;
      assert goal[i] == p.blocks[i];
    }
    assert p.blocks == goal;
  }

  // ----- jump offsets -----

  /** The first instruction control reaches at or after block t: the walk over
      empty blocks ends, and never finds a block without successor. */
  method TargetId(p: seq<Block>, ids: seq<seq<nat>>, t: nat) returns (id: nat)
    requires WfBlocks(p, MAX_BPF_REG) && LaidOut(p) && Numbered(p, ids) && t < |p|
    ensures id == StartOf(p, t)
  {
    var target := t;
    while p[target].insns == []
      invariant target < |p| && StartOf(p, target) == StartOf(p, t)
      decreases |p| - target
    {
      assert WfBlock(p[target], MAX_BPF_REG, |p|);
      target := p[target].fallthru.value;
    }
    assert NumberedBlock(p, target, ids[target]);
    IdEnds(p, target);
    id := ids[target][0];
  }

  /** The offsets the first pass of output_probe writes. */
  ghost predicate OffsetsSet(p: seq<Block>, b: nat, out: seq<Insn>)
    requires b < |p| && |out| <= |p[b].insns|
  {
    forall k | 0 <= k < |out| :: out[k] == p[b].insns[k].(off := OffsetOf(p, b, k))
  }

  method DropOffset(p: seq<Block>, ids: seq<seq<nat>>, b: nat, k: nat) returns (j: Insn, slots: nat)
    requires WfBlocks(p, MAX_BPF_REG) && LaidOut(p) && Numbered(p, ids) && b < |p| && k < |p[b].insns|
    ensures j == p[b].insns[k].(off := OffsetOf(p, b, k)) && slots == Slots(p[b].insns[k])
  {
    assert NumberedBlock(p, b, ids[b]) && WfBlock(p[b], MAX_BPF_REG, |p|);
    j, slots := p[b].insns[k], 1;
    if IsWideLoad(j.code) {
      slots := 2;
    } else if IsJmp(j.code) {
      var id := TargetId(p, ids, p[b].taken.value);
      var own: int := ids[b][k];
      j := j.(off := id - (own + 1));
    } else if j.code.Call? {
      j := j.(off := 0);
    }
  }

  method DropOffsets(p: seq<Block>, ids: seq<seq<nat>>, b: nat) returns (out: seq<Insn>, ninsns: nat)
    requires WfBlocks(p, MAX_BPF_REG) && LaidOut(p) && Numbered(p, ids) && b < |p|
    ensures |out| == |p[b].insns| && OffsetsSet(p, b, out) && ninsns == SlotCount(p[b].insns)
  {
    out, ninsns := [], 0;
    ghost var ins := p[b].insns;
    for k := 0 to |p[b].insns|
      invariant |out| == k && OffsetsSet(p, b, out) && ninsns == SlotCount(ins[..k])
    {
      var j, slots := DropOffset(p, ids, b, k);
      CountSplit(ins, k);
      out, ninsns := out + [j], ninsns + slots;
    }
    assert ins[..|ins|] == ins;
  }

  // ----- the buffer -----

  /** The slot a loader sees: relocations put the map number in place. */
  function Relocated(r: Raw, rel: map<nat, int>, x: nat): Raw {
    if x in rel then r.(imm := rel[x]) else r
  }

  ghost predicate Emitted(buf: array<Raw>, rel: map<nat, int>, n: nat, code: seq<Raw>)
    reads buf
  {
    n <= buf.Length == |code|
    && (forall x | x in rel :: x < n)
    && (forall x: nat | x < n :: Relocated(buf[x], rel, x) == code[x])
    && (forall x: nat | n <= x < |code| :: buf[x] == High(0))
  }

  /** One instruction; `off` is the offset the first pass left in it. */
  method WriteInsn(buf: array<Raw>, rel: map<nat, int>, i: nat, j: Insn, ghost code: seq<Raw>)
    returns (rel': map<nat, int>)
    requires Emitted(buf, rel, i, code) && Holds(code, i, j, j.off)
    modifies buf
    ensures Emitted(buf, rel', i + Slots(j), code)
  {
    rel' := rel;
    var d := if j.dest.Some? then j.dest.value else RegOf(j.src0);
    assert code[i] == Encode(j, j.off)[0];
    if j.code.LdMap? {
      assert code[i + 1] == Encode(j, j.off)[1];
      rel' := rel[i := ImmOf(j.src1)];
      buf[i] := Raw(j.code, d, 1, 0, 0);
    } else if j.code.LdImm64? {
      assert code[i + 1] == Encode(j, j.off)[1];
      var val := ImmOf(j.src1);
      buf[i] := Raw(j.code, d, 0, 0, Signed32(val));
      buf[i + 1] := High(Signed32(val / 0x1_0000_0000));
    } else {
      buf[i] := Raw(j.code, d, RegOf(j.src1), Signed16(j.off), Signed32(ImmOf(j.src1)));
    }
  }

  /** The block holds the instructions of p's block b with their offsets. */
  ghost predicate Patched(p: seq<Block>, b: nat, c: Block)
    requires b < |p|
  {
    |c.insns| == |p[b].insns| && OffsetsSet(p, b, c.insns)
  }

  method WriteBlock(buf: array<Raw>, rel: map<nat, int>, i: nat, c: Block, ghost p: seq<Block>, ghost b: nat)
    returns (rel': map<nat, int>, next: nat)
    requires b < |p| && Patched(p, b, c) && i == StartOf(p, b) && Emitted(buf, rel, i, Code(p))
    modifies buf
    ensures next == StartOf(p, b + 1) && Emitted(buf, rel', next, Code(p))
  {
    rel', next := rel, i;
    IdEnds(p, b);
    for k := 0 to |c.insns|
      invariant next == IdOf(p, b, k) && Emitted(buf, rel', next, Code(p))
    {
      HoldsAt(p, b, k);
      IdNext(p, b, k);
      rel' := WriteInsn(buf, rel', next, c.insns[k], Code(p));
      next := next + Slots(c.insns[k]);
    }
  }

  /** The first pass: offsets in place, slots counted. */
  method PatchBlocks(p: Program, ids: seq<seq<nat>>) returns (ninsns: nat)
    requires WfBlocks(p.blocks, MAX_BPF_REG) && LaidOut(p.blocks) && Numbered(p.blocks, ids)
    modifies p`blocks
    ensures |p.blocks| == old(|p.blocks|) && ninsns == StartOf(old(p.blocks), |p.blocks|)
    ensures forall c | 0 <= c < |p.blocks| :: Patched(old(p.blocks), c, p.blocks[c])
  {
    var from := p.blocks;
    ninsns := 0;
    for b := 0 to |from|
      invariant |p.blocks| == |from| && ninsns == StartOf(from, b)
      invariant forall c | 0 <= c < b :: Patched(from, c, p.blocks[c])
    {
      var out, n := DropOffsets(from, ids, b);
      p.blocks := p.blocks[b := p.blocks[b].(insns := out)];
      ninsns := ninsns + n;
    }
  }

  method WriteBlocks(buf: array<Raw>, blocks: seq<Block>, ghost p: seq<Block>) returns (rel: map<nat, int>)
    requires Emitted(buf, map[], 0, Code(p)) && |blocks| == |p| && forall c | 0 <= c < |p| :: Patched(p, c, blocks[c])
    modifies buf
    ensures Emitted(buf, rel, buf.Length, Code(p))
  {
    rel := map[];
    var i := 0;
    for b := 0 to |blocks|
      invariant i == StartOf(p, b) && Emitted(buf, rel, i, Code(p))
    {
      rel, i := WriteBlock(buf, rel, i, blocks[b], p, b);
    }
    CodeSize(p);
  }

  /** output_probe: after relocation the buffer holds exactly the flat code of
      the program. */
  method OutputProbe(p: Program, ids: seq<seq<nat>>) returns (buf: array<Raw>, rel: map<nat, int>)
    requires WfBlocks(p.blocks, MAX_BPF_REG) && LaidOut(p.blocks) && Numbered(p.blocks, ids)
    modifies p`blocks
    ensures fresh(buf) && Emitted(buf, rel, buf.Length, Code(old(p.blocks)))
  {
    ghost var from := p.blocks;
    var ninsns := PatchBlocks(p, ids);
    CodeSize(from);
    buf := new Raw[ninsns](_ => High(0));
    rel := WriteBlocks(buf, p.blocks, from);
  }
}
