/** That reorder_blocks keeps every execution, and the pass itself. */
module ReorderMeaning {
  import opened Ir
  import opened Machine
  import opened Simulation
  import opened Liveness
  import opened Programs
  import opened Reorder

  // ----- one block -----

  lemma InvertStep(sem: Sem, b: Block, s: State)
    requires ControlLast(b.insns) && Invertible(b)
    ensures StepBlock(sem, Invert(b), s) == StepBlock(sem, b, s)
  {
    var k := |b.insns| - 1;
    var pre, last, flip := b.insns[..k], b.insns[k], Invert(b).insns[k];
    assert b.insns == pre + [last] && Invert(b).insns == pre + [flip];
    RunAppend(sem, pre, [last], s);
    RunAppend(sem, pre, [flip], s);
    PrefixFalls(sem, b.insns, k, s);
    var x := Run(sem, pre, s);
    if x.Fall? {
      RunOne(sem, last, x.s);
      RunOne(sem, flip, x.s);
    }
  }

  /** No instruction transfers control. */
  predicate StraightLine(ins: seq<Insn>) {
    forall k | 0 <= k < |ins| :: !IsControl(ins[k].code)
  }

  lemma StraightFalls(sem: Sem, ins: seq<Insn>, s: State)
    requires StraightLine(ins)
    ensures Run(sem, ins, s).Fall? || Run(sem, ins, s).Fault?
  {
    assert (ins + [JUMP])[..|ins|] == ins;
    PrefixFalls(sem, ins + [JUMP], |ins|, s);
  }

  lemma AppendStep(sem: Sem, b: Block, s: State)
    requires StraightLine(b.insns) && b.fallthru.Some?
    ensures StepBlock(sem, AppendJump(b), s) == StepBlock(sem, b, s)
  {
    StraightFalls(sem, b.insns, s);
    RunAppend(sem, b.insns, [JUMP], s);
    var x := Run(sem, b.insns, s);
    if x.Fall? { RunOne(sem, JUMP, x.s); }
  }

  /** Where the placed block goes, directly or through a jump block. */
  ghost predicate Via(blocks: seq<Block>, n0: nat, x: Step, x': Step) {
    if x.Goto? then
      x'.Goto? && x'.s == x.s
      && (x'.b == x.b || (n0 <= x'.b < |blocks| && blocks[x'.b] == JumpBlock(x.b)))
    else x' == x
  }

  lemma BaseStep(sem: Sem, base: Block, cur: Block, blocks: seq<Block>, n0: nat, s: State)
    requires FromBase(base, cur, blocks, n0) && (base.taken.None? && base.fallthru.Some? ==> StraightLine(base.insns))
    ensures Via(blocks, n0, StepBlock(sem, base, s), StepBlock(sem, cur, s))
  {
    if base.taken.None? && base.fallthru.Some? { AppendStep(sem, base, s); }
  }

  lemma FallthruIsStraight(b: Block, nregs: nat, n: nat)
    requires WfBlock(b, nregs, n) && b.taken.None? && b.fallthru.Some?
    ensures StraightLine(b.insns)
  {
  }

  lemma BecameStep(sem: Sem, orig: Block, nregs: nat, cur: Block, blocks: seq<Block>, n0: nat, s: State)
    requires WfBlock(orig, nregs, n0) && Became(orig, cur, blocks, n0)
    ensures Via(blocks, n0, StepBlock(sem, orig, s), StepBlock(sem, cur, s))
  {
    if FromBase(orig, cur, blocks, n0) {
      if orig.taken.None? && orig.fallthru.Some? { FallthruIsStraight(orig, nregs, n0); }
      BaseStep(sem, orig, cur, blocks, n0, s);
    } else {
      InvertStep(sem, orig, s);
      BaseStep(sem, Invert(orig), cur, blocks, n0, s);
    }
  }

  // ----- whole runs -----

  /** The new program stands at the position of the block the old one is in. */
  ghost predicate AtPosition(p: seq<Block>, l: Layout, c: Step, c': Step) {
    match c'
    case Goto(b, s) => c.Goto? && b < |p| && b in l.ordered && c == Goto(IndexOf(l.ordered, b), s)
    case _ => c == c'
  }

  lemma RenumberStep(sem: Sem, ordered: seq<nat>, b: Block, s: State)
    ensures var x := StepBlock(sem, b, s);
      StepBlock(sem, Renumber(ordered, b), s) == (if x.Goto? then Goto(IndexOf(ordered, x.b), x.s) else x)
  {
  }

  lemma AtIndex(sem: Sem, l: Layout, b: nat, s: State)
    requires (forall k | 0 <= k < |l.ordered| :: l.ordered[k] < |l.blocks|) && b in l.ordered
    ensures Stepping(sem, Renumbered(l))(IndexOf(l.ordered, b), s) ==
      StepBlock(sem, Renumber(l.ordered, l.blocks[b]), s)
  {
    var k := IndexOf(l.ordered, b);
  }

  lemma JumpStep(sem: Sem, t: nat, s: State)
    ensures StepBlock(sem, JumpBlock(t), s) == Goto(t, s)
  {
    RunOne(sem, JUMP, s);
  }

  /** One step of the old program is one or two of the new. */
  lemma ReorderMatches(sem: Sem, p: seq<Block>, nregs: nat, l: Layout, b: nat, s: State) returns (k: nat)
    requires WfBlocks(p, nregs) && LoopInv(p, l) && l.worklist == [] && b < |p| && b in l.ordered
    ensures k >= 1
    ensures AtPosition(p, l, Steps(Stepping(sem, Renumbered(l)), Goto(IndexOf(l.ordered, b), s), k),
                       Stepping(sem, p)(b, s))
    ensures forall j | 0 < j < k ::
      Passes(Steps(Stepping(sem, Renumbered(l)), Goto(IndexOf(l.ordered, b), s), j), Stepping(sem, p)(b, s))
  {
    var step, c := Stepping(sem, Renumbered(l)), Goto(IndexOf(l.ordered, b), s);
    var x, y := StepBlock(sem, p[b], s), StepBlock(sem, l.blocks[b], s);
    assert WfBlock(p[b], nregs, |p|);
    BecameStep(sem, p[b], nregs, l.blocks[b], l.blocks, |p|, s);
    AtIndex(sem, l, b, s);
    RenumberStep(sem, l.ordered, l.blocks[b], s);
    assert Steps(step, c, 1) == Steps(step, step(c.b, s), 0);
    k := 1;
    if x.Goto? {
      StepTargets(sem, p[b], s);
      assert Handled(p, l, x.b);
      if y.b != x.b {
        AtIndex(sem, l, y.b, x.s);
        RenumberStep(sem, l.ordered, JumpBlock(x.b), x.s);
        JumpStep(sem, x.b, x.s);
        StepsAdd(step, c, 1, 1);
        k := 2;
        assert Steps(step, Goto(IndexOf(l.ordered, y.b), x.s), 1) == Steps(step, step(IndexOf(l.ordered, y.b), x.s), 0);
      }
    }
  }

  lemma StepTargets(sem: Sem, b: Block, s: State)
    ensures StepBlock(sem, b, s).Goto? ==> StepBlock(sem, b, s).b in Succs(b)
  {
  }

  /** reorder_blocks keeps every execution. */
  lemma ReorderBehaviour(sem: Sem, p: seq<Block>, nregs: nat, l: Layout, s: State, view: set<Word>)
    requires WfBlocks(p, nregs) && LoopInv(p, l) && l.worklist == []
    ensures SameBehaviour(Stepping(sem, p), Goto(0, s), Stepping(sem, Renumbered(l)), Goto(0, s), view)
    ensures Safe(Stepping(sem, p), Goto(0, s)) <==> Safe(Stepping(sem, Renumbered(l)), Goto(0, s))
  {
    var step, step' := Stepping(sem, Renumbered(l)), Stepping(sem, p);
    var rel := (c: Step, c': Step) => AtPosition(p, l, c, c');
    var rank := (x: Step) => 0 as nat;
    forall c, c' | rel(c, c') && c'.Goto? ensures CanMatch(step, step', rel, rank, c, c') {
      var k := ReorderMatches(sem, p, nregs, l, c'.b, c'.s);
      assert c == Goto(IndexOf(l.ordered, c'.b), c'.s);
      assert Matched(step, step', rel, rank, c, c', k);
    }
    PlacesReachable(p, l, 0);
    assert IndexOf(l.ordered, 0) == 0;
    StutterBehaviour(step, step', rel, rank, Goto(0, s), Goto(0, s), view);
  }

  // ----- the form of the result -----

  ghost predicate GoodBlock(b: Block, nregs: nat) {
    WfInsns(b.insns, nregs) && ControlLast(b.insns) && EdgesMatch(b)
  }

  lemma InvertGood(b: Block, nregs: nat)
    requires GoodBlock(b, nregs) && Invertible(b)
    ensures GoodBlock(Invert(b), nregs) && (LoweredInsns(b.insns) ==> LoweredInsns(Invert(b).insns))
  {
  }

  lemma AppendGood(b: Block, nregs: nat)
    requires GoodBlock(b, nregs) && StraightLine(b.insns) && b.fallthru.Some?
    ensures GoodBlock(AppendJump(b), nregs) && (LoweredInsns(b.insns) ==> LoweredInsns(AppendJump(b).insns))
  {
    assert WfInsn(JUMP, nregs) && Lowered(JUMP);
  }

  lemma BaseGood(base: Block, nregs: nat, cur: Block, blocks: seq<Block>, n0: nat)
    requires GoodBlock(base, nregs) && FromBase(base, cur, blocks, n0)
    requires base.taken.None? && base.fallthru.Some? ==> StraightLine(base.insns)
    ensures GoodBlock(cur, nregs) && (LoweredInsns(base.insns) ==> LoweredInsns(cur.insns))
  {
    if base.taken.None? && base.fallthru.Some? { AppendGood(base, nregs); }
  }

  lemma BecameGood(orig: Block, nregs: nat, cur: Block, blocks: seq<Block>, n0: nat)
    requires WfBlock(orig, nregs, n0) && Became(orig, cur, blocks, n0)
    ensures GoodBlock(cur, nregs) && (LoweredInsns(orig.insns) ==> LoweredInsns(cur.insns))
  {
    if FromBase(orig, cur, blocks, n0) {
      if orig.taken.None? && orig.fallthru.Some? { FallthruIsStraight(orig, nregs, n0); }
      BaseGood(orig, nregs, cur, blocks, n0);
    } else {
      InvertGood(orig, nregs);
      BaseGood(Invert(orig), nregs, cur, blocks, n0);
    }
  }

  /** The edges of a placed block lead to listed blocks. */
  lemma BecameTargets(p: seq<Block>, l: Layout, b: nat, t: nat)
    requires LoopInv(p, l) && l.worklist == [] && b < |p| && l.visited[b] && t in Succs(l.blocks[b])
    ensures t in l.ordered
  {
    assert Became(p[b], l.blocks[b], l.blocks, |p|);
    if t in Succs(p[b]) { assert Handled(p, l, t); }
  }

  lemma ResultWfAt(p: seq<Block>, nregs: nat, l: Layout, k: nat)
    requires WfBlocks(p, nregs) && LoopInv(p, l) && l.worklist == [] && k < |l.ordered|
    ensures WfBlock(Renumbered(l)[k], nregs, |l.ordered|)
    ensures AllLowered(p) ==> LoweredInsns(Renumbered(l)[k].insns)
  {
    var b := l.ordered[k];
    var cur := l.blocks[b];
    if b < |p| {
      assert l.visited[b];
      assert WfBlock(p[b], nregs, |p|);
      BecameGood(p[b], nregs, cur, l.blocks, |p|);
      forall t | t in Succs(cur) ensures t in l.ordered { BecameTargets(p, l, b, t); }
    } else {
      assert IsJumpTo(p, l.visited, cur);
      JumpGood(cur.taken.value, nregs);
    }
    RenumberWf(l.ordered, cur, nregs);
  }

  lemma JumpGood(t: nat, nregs: nat)
    ensures GoodBlock(JumpBlock(t), nregs) && LoweredInsns(JumpBlock(t).insns)
  {
  }

  lemma RenumberWf(ordered: seq<nat>, b: Block, nregs: nat)
    requires GoodBlock(b, nregs) && forall t | t in Succs(b) :: t in ordered
    ensures WfBlock(Renumber(ordered, b), nregs, |ordered|)
  {
    assert b.taken.Some? ==> b.taken.value in Succs(b);
    assert b.fallthru.Some? ==> b.fallthru.value in Succs(b);
  }

  /** The result is well formed and as lowered as the input. */
  lemma ResultWf(p: seq<Block>, nregs: nat, l: Layout)
    requires WfBlocks(p, nregs) && LoopInv(p, l) && l.worklist == []
    ensures WfBlocks(Renumbered(l), nregs) && (AllLowered(p) ==> AllLowered(Renumbered(l)))
  {
    PlacesReachable(p, l, 0);
    forall k | 0 <= k < |l.ordered|
      ensures WfBlock(Renumbered(l)[k], nregs, |l.ordered|) && (AllLowered(p) ==> LoweredInsns(Renumbered(l)[k].insns))
    {
      ResultWfAt(p, nregs, l, k);
    }
  }

  // ----- liveness -----

  /** What is live at a block of the layout: an inserted jump needs what its target needs. */
  function LiveOf(p: seq<Block>, l: Layout, liveIn: seq<set<nat>>, b: nat): set<nat> {
    if b < |p| && b < |liveIn| then liveIn[b]
    else if b < |l.blocks| && l.blocks[b].taken.Some?
      && l.blocks[b].taken.value < |liveIn| then liveIn[l.blocks[b].taken.value]
    else {}
  }

  function LiveLaidOut(p: seq<Block>, l: Layout, liveIn: seq<set<nat>>): (out: seq<set<nat>>)
    ensures |out| == |l.ordered| && forall k | 0 <= k < |out| :: out[k] == LiveOf(p, l, liveIn, l.ordered[k])
  {
    seq(|l.ordered|, k requires 0 <= k < |l.ordered| => LiveOf(p, l, liveIn, l.ordered[k]))
  }

  /** What is live behind an edge of the layout. */
  function LiveBehind(p: seq<Block>, l: Layout, liveIn: seq<set<nat>>, e: Option<nat>): set<nat> {
    if e.Some? then LiveOf(p, l, liveIn, e.value) else {}
  }

  lemma BaseLive(p: seq<Block>, l: Layout, liveIn: seq<set<nat>>, base: Block, cur: Block)
    requires |liveIn| == |p| && FromBase(base, cur, l.blocks, |p|) && EdgesBelow(base, |p|)
    ensures LiveBefore(cur.insns, LiveBehind(p, l, liveIn, cur.taken) + LiveBehind(p, l, liveIn, cur.fallthru)) ==
            LiveBefore(base.insns, AtSuccs(base, liveIn))
  {
    var live := LiveBehind(p, l, liveIn, cur.taken) + LiveBehind(p, l, liveIn, cur.fallthru);
    assert live == AtSuccs(base, liveIn);
    if cur != base && base.taken.None? {
      LiveBeforeAppend(base.insns, [JUMP], live);
      LiveBeforeOne(JUMP, live);
      assert LiveBefore([JUMP], live) == live;
    }
  }

  lemma InvertLive(b: Block, liveIn: seq<set<nat>>)
    requires Invertible(b)
    ensures LiveBefore(Invert(b).insns, AtSuccs(Invert(b), liveIn)) == LiveBefore(b.insns, AtSuccs(b, liveIn))
  {
    var k := |b.insns| - 1;
    var pre, last, flip, live := b.insns[..k], b.insns[k], Invert(b).insns[k], AtSuccs(b, liveIn);
    assert b.insns == pre + [last] && Invert(b).insns == pre + [flip];
    assert AtSuccs(Invert(b), liveIn) == live;
    LiveBeforeAppend(pre, [last], live);
    LiveBeforeAppend(pre, [flip], live);
    LiveBeforeOne(last, live);
    LiveBeforeOne(flip, live);
  }

  lemma BecameLive(p: seq<Block>, nregs: nat, l: Layout, liveIn: seq<set<nat>>, b: nat)
    requires |liveIn| == |p| && b < |p| && b < |l.blocks| && WfBlock(p[b], nregs, |p|)
    requires Became(p[b], l.blocks[b], l.blocks, |p|)
    ensures LiveBefore(l.blocks[b].insns,
                       LiveBehind(p, l, liveIn, l.blocks[b].taken) + LiveBehind(p, l, liveIn, l.blocks[b].fallthru)) ==
            LiveBefore(p[b].insns, AtSuccs(p[b], liveIn))
  {
    if FromBase(p[b], l.blocks[b], l.blocks, |p|) {
      BaseLive(p, l, liveIn, p[b], l.blocks[b]);
    } else {
      InvertLive(p[b], liveIn);
      BaseLive(p, l, liveIn, Invert(p[b]), l.blocks[b]);
    }
  }

  lemma RenumberSuccs(p: seq<Block>, l: Layout, liveIn: seq<set<nat>>, b: Block)
    requires forall t | t in Succs(b) :: t in l.ordered
    ensures AtSuccs(Renumber(l.ordered, b), LiveLaidOut(p, l, liveIn)) ==
      LiveBehind(p, l, liveIn, b.taken) + LiveBehind(p, l, liveIn, b.fallthru)
  {
    var live := LiveLaidOut(p, l, liveIn);
    if b.taken.Some? {
      assert b.taken.value in Succs(b);
      assert live[IndexOf(l.ordered, b.taken.value)] == LiveOf(p, l, liveIn, b.taken.value);
    }
    if b.fallthru.Some? {
      assert b.fallthru.value in Succs(b);
      assert live[IndexOf(l.ordered, b.fallthru.value)] == LiveOf(p, l, liveIn, b.fallthru.value);
    }
  }

  /** A solution of the data-flow equations, moved along, stays one. */
  lemma ReorderClosed(p: seq<Block>, nregs: nat, l: Layout, liveIn: seq<set<nat>>)
    requires WfBlocks(p, nregs) && LoopInv(p, l) && l.worklist == [] && Closed(p, liveIn)
    ensures Closed(Renumbered(l), LiveLaidOut(p, l, liveIn)) && LiveLaidOut(p, l, liveIn)[0] == liveIn[0]
  {
    PlacesReachable(p, l, 0);
    var q, live := Renumbered(l), LiveLaidOut(p, l, liveIn);
    forall k | 0 <= k < |q| ensures LiveBefore(q[k].insns, AtSuccs(q[k], live)) <= live[k] {
      ClosedAt(p, nregs, l, liveIn, k);
    }
  }

  lemma ClosedAt(p: seq<Block>, nregs: nat, l: Layout, liveIn: seq<set<nat>>, k: nat)
    requires WfBlocks(p, nregs) && LoopInv(p, l) && l.worklist == [] && Closed(p, liveIn) && k < |l.ordered|
    ensures var q, live := Renumbered(l), LiveLaidOut(p, l, liveIn);
      LiveBefore(q[k].insns, AtSuccs(q[k], live)) <= live[k]
  {
    var q, live, b := Renumbered(l), LiveLaidOut(p, l, liveIn), l.ordered[k];
    if b < |p| {
      assert l.visited[b];
      assert WfBlock(p[b], nregs, |p|);
      forall t | t in Succs(l.blocks[b]) ensures t in l.ordered { BecameTargets(p, l, b, t); }
      BecameLive(p, nregs, l, liveIn, b);
    } else {
      assert IsJumpTo(p, l.visited, l.blocks[b]);
      LiveBeforeOne(JUMP, AtSuccs(q[k], live));
    }
    RenumberSuccs(p, l, liveIn, l.blocks[b]);
  }

  // ----- the pass -----

  /** Place one unvisited block: mark and list it, invert its condition when
      that helps, and deal with its two successors. */
  method PlaceBlock(l: Layout, b: nat) returns (l': Layout)
    requires b < |l.visited| <= |l.blocks|
    ensures l' == Place(l, b)
  {
    var blocks, visited, ordered, worklist := l.blocks, l.visited, l.ordered, l.worklist;
    ordered := ordered + [b];
    visited := visited[b := true];
    if WantsInversion(blocks, visited, blocks[b]) {
      blocks := blocks[b := Invert(blocks[b])];
    }
    var t, f := blocks[b].taken, blocks[b].fallthru;
    if t.Some? && t.value < |visited| && !visited[t.value] {
      worklist := worklist + [t.value];
    }
    if f.Some? {
      var o := f.value;
      if o < |visited| && visited[o] {
        if t.Some? {
          var n := |blocks|;
          blocks := blocks + [JumpBlock(o)];
          ordered := ordered + [n];
          blocks := blocks[b := blocks[b].(fallthru := Some(n))];
        } else {
          blocks := blocks[b := AppendJump(blocks[b])];
        }
      } else {
        worklist := worklist + [o];
      }
    }
    l' := Layout(blocks, visited, ordered, worklist);
  }

  /** One turn of the worklist loop. */
  method Turn(ghost p: seq<Block>, ghost nregs: nat, l: Layout) returns (l': Layout)
    requires WfBlocks(p, nregs) && LoopInv(p, l) && l.worklist != []
    ensures l' == Visit(p, l) && LoopInv(p, l')
    ensures CountFalse(l'.visited) < CountFalse(l.visited) || (l'.visited == l.visited && |l'.worklist| < |l.worklist|)
  {
    var n := |l.worklist| - 1;
    var b := l.worklist[n];
    if l.visited[b] {
      SkipKeeps(p, l);
      l' := l.(worklist := l.worklist[..n]);
    } else {
      PlaceKeeps(p, nregs, l);
      l' := PlaceBlock(l.(worklist := l.worklist[..n]), b);
      MarksOne(l.(worklist := l.worklist[..n]), b);
    }
  }

  lemma MarksOne(l: Layout, b: nat)
    requires b < |l.visited| <= |l.blocks| && !l.visited[b]
    ensures CountFalse(Place(l, b).visited) < CountFalse(l.visited)
  {
    CountFalls(l.visited, b);
    assert Place(l, b).visited == l.visited[b := true];
  }

  /** reorder_blocks: the worklist loop, then the renumbering. */
  method ReorderBlocks(p: Program) returns (ghost l: Layout)
    requires WfBlocks(p.blocks, p.nregs)
    modifies p`blocks
    ensures LoopInv(old(p.blocks), l) && l.worklist == [] && p.blocks == Renumbered(l)
  {
    var cur := Layout(p.blocks, seq(|p.blocks|, _ => false), [], [0]);
    StartInv(p.blocks);
    while cur.worklist != []
      invariant LoopInv(p.blocks, cur) && p.blocks == old(p.blocks)
      decreases CountFalse(cur.visited), |cur.worklist|
    {
      cur := Turn(p.blocks, p.nregs, cur);
    }
    l := cur;
    p.blocks := Renumbered(cur);
  }
}
