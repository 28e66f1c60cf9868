/** What thread_jumps and fold_jumps do to the edges of a program, and that
    every execution stays as it was. */
module Threading {
  import opened Ir
  import opened Machine
  import opened Simulation
  import opened Liveness
  import opened Jumps
  import opened Programs

  // ----- threading -----

  function Redirect(e: Option<nat>, g: Fwds): Option<nat> {
    if e.Some? && e.value < |g| && g[e.value].Some? then g[e.value] else e
  }

  function ThreadBlocks(p: seq<Block>, g: Fwds): (out: seq<Block>)
    ensures |out| == |p|
    ensures forall b | 0 <= b < |p| ::
      out[b] == p[b].(taken := Redirect(p[b].taken, g), fallthru := Redirect(p[b].fallthru, g))
  {
    seq(|p|, b requires 0 <= b < |p| => p[b].(taken := Redirect(p[b].taken, g), fallthru := Redirect(p[b].fallthru, g)))
  }

  lemma ForwardsBounded(p: seq<Block>, nregs: nat)
    requires WfBlocks(p, nregs)
    ensures InBounds(ForwardsOf(p))
  {
    forall i | 0 <= i < |p| ensures ForwardsOf(p)[i].Some? ==> ForwardsOf(p)[i].value < |p| {
      assert WfBlock(p[i], nregs, |p|);
    }
  }

  /** A forwarder passes control on and does nothing else. */
  lemma ForwarderSteps(sem: Sem, p: seq<Block>, i: nat, s: State)
    requires i < |p| && Forwards(p[i]).Some?
    ensures Stepping(sem, p)(i, s) == Goto(Forwards(p[i]).value, s)
  {
  }

  lemma {:induction false} ChainSteps(sem: Sem, p: seq<Block>, i: nat, k: nat, s: State)
    requires InBounds(ForwardsOf(p)) && i < |p| && Chain(ForwardsOf(p), i, k).Some?
    ensures Steps(Stepping(sem, p), Goto(i, s), k) == Goto(Chain(ForwardsOf(p), i, k).value, s)
    decreases k
  {
    if k > 0 {
      ForwarderSteps(sem, p, i, s);
      ChainSteps(sem, p, Forwards(p[i]).value, k - 1, s);
    }
  }

  /** Every edge now leads to the end of the chain it led into. */
  lemma EdgesReachEnds(p: seq<Block>, g: Fwds, e: Option<nat>)
    requires InBounds(ForwardsOf(p)) && Settled(ForwardsOf(p), g) && e.Some? && e.value < |p|
    ensures var t := Redirect(e, g).value;
      t < |p| && (Forwards(p[t]).None? || Forwards(p[t]) == Some(t))
      && (t == e.value || OnChain(ForwardsOf(p), e.value, t))
  {
    assert EntryAlong(ForwardsOf(p), g, e.value);
    if g[e.value].Some? && Forwards(p[e.value]) == Some(e.value) {
      var k: nat :| k >= 1 && Chain(ForwardsOf(p), e.value, k) == g[e.value];
      SelfChain(ForwardsOf(p), e.value, k);
    }
  }

  ghost predicate Redirected(p: seq<Block>, g: Fwds, x: Step, x': Step) {
    if x.Goto? then x.b < |p| && x' == Goto(Redirect(Some(x.b), g).value, x.s) else x' == x
  }

  /** The threaded block goes where the original goes, redirected. */
  lemma ThreadStep(sem: Sem, p: seq<Block>, nregs: nat, g: Fwds, b: nat, s: State)
    requires WfBlocks(p, nregs)
    ensures Redirected(p, g, Stepping(sem, p)(b, s), Stepping(sem, ThreadBlocks(p, g))(b, s))
  {
    if b < |p| { assert WfBlock(p[b], nregs, |p|); }
  }

  lemma StepThenChain(sem: Sem, p: seq<Block>, b: nat, s: State, m: nat)
    requires InBounds(ForwardsOf(p)) && Stepping(sem, p)(b, s).Goto? && Stepping(sem, p)(b, s).b < |p|
    requires Chain(ForwardsOf(p), Stepping(sem, p)(b, s).b, m).Some?
    ensures var x := Stepping(sem, p)(b, s);
      Steps(Stepping(sem, p), Goto(b, s), 1 + m) == Goto(Chain(ForwardsOf(p), x.b, m).value, x.s)
  {
    var step, x := Stepping(sem, p), Stepping(sem, p)(b, s);
    ChainSteps(sem, p, x.b, m, x.s);
    StepsAdd(step, Goto(b, s), 1, m);
    assert Steps(step, Goto(b, s), 1) == Steps(step, x, 0);
  }

  lemma RedirectChain(p: seq<Block>, g: Fwds, t: nat) returns (m: nat)
    requires InBounds(ForwardsOf(p)) && Settled(ForwardsOf(p), g) && t < |p|
    ensures Chain(ForwardsOf(p), t, m) == Redirect(Some(t), g)
  {
    m := 0;
    EdgesReachEnds(p, g, Some(t));
    if Redirect(Some(t), g) != Some(t) {
      m :| m >= 1 && Chain(ForwardsOf(p), t, m) == Redirect(Some(t), g);
    }
  }

  /** Where the threaded block goes, the original gets by following the chain. */
  lemma ThreadMatches(sem: Sem, p: seq<Block>, g: Fwds, b: nat, s: State, x': Step) returns (k: nat)
    requires InBounds(ForwardsOf(p)) && Settled(ForwardsOf(p), g) && Redirected(p, g, Stepping(sem, p)(b, s), x')
    ensures k >= 1 && Steps(Stepping(sem, p), Goto(b, s), k) == x'
    ensures forall j | 0 < j < k :: Passes(Steps(Stepping(sem, p), Goto(b, s), j), x')
  {
    k := 1;
    var step := Stepping(sem, p);
    var x := step(b, s);
    if x.Goto? {
      var m := RedirectChain(p, g, x.b);
      StepThenChain(sem, p, b, s, m);
      k := 1 + m;
      forall j | 0 < j < k ensures Passes(Steps(step, Goto(b, s), j), x') {
        ChainPrefix(ForwardsOf(p), x.b, j - 1, m);
        StepThenChain(sem, p, b, s, j - 1);
      }
    } else {
      assert Steps(step, Goto(b, s), 1) == Steps(step, x, 0);
    }
  }

  /** thread_jumps keeps every execution. */
  lemma ThreadBehaviour(sem: Sem, p: seq<Block>, nregs: nat, g: Fwds, s: State, view: set<Word>)
    requires WfBlocks(p, nregs) && InBounds(ForwardsOf(p)) && Settled(ForwardsOf(p), g)
    ensures SameBehaviour(Stepping(sem, p), Goto(0, s), Stepping(sem, ThreadBlocks(p, g)), Goto(0, s), view)
    ensures Safe(Stepping(sem, p), Goto(0, s)) <==> Safe(Stepping(sem, ThreadBlocks(p, g)), Goto(0, s))
  {
    var step, step' := Stepping(sem, p), Stepping(sem, ThreadBlocks(p, g));
    var rel := (x: Step, x': Step) => x == x';
    var rank := (x: Step) => 0 as nat;
    forall c, c' | rel(c, c') && c'.Goto? ensures CanMatch(step, step', rel, rank, c, c') {
      ThreadStep(sem, p, nregs, g, c.b, c.s);
      var k := ThreadMatches(sem, p, g, c.b, c.s, step'(c.b, c.s));
      assert c == Goto(c.b, c.s);
      assert Matched(step, step', rel, rank, c, c', k);
    }
    StutterBehaviour(step, step', rel, rank, Goto(0, s), Goto(0, s), view);
  }

  lemma ThreadWf(p: seq<Block>, nregs: nat, g: Fwds)
    requires WfBlocks(p, nregs) && InBounds(g) && |g| == |p|
    ensures WfBlocks(ThreadBlocks(p, g), nregs)
  {
    forall b | 0 <= b < |p| ensures WfBlock(ThreadBlocks(p, g)[b], nregs, |p|) {
      assert WfBlock(p[b], nregs, |p|);
    }
  }

  // ----- folding -----

  predicate Foldable(b: Block) {
    b.taken.Some? && b.taken == b.fallthru && b.insns != []
  }

  /** Both edges lead to one block: the jump becomes unconditional. Its
      operands stay where they were. */
  function FoldBlock(b: Block): Block {
    if Foldable(b) then
      var k := |b.insns| - 1;
      b.(insns := b.insns[k := b.insns[k].(code := Ja)], fallthru := None)
    else b
  }

  function FoldBlocks(p: seq<Block>): (out: seq<Block>)
    ensures |out| == |p| && forall b | 0 <= b < |p| :: out[b] == FoldBlock(p[b])
  {
    seq(|p|, b requires 0 <= b < |p| => FoldBlock(p[b]))
  }

  lemma FoldStep(sem: Sem, b: Block, nregs: nat, nblocks: nat, s: State)
    requires WfBlock(b, nregs, nblocks)
    ensures StepBlock(sem, FoldBlock(b), s) == StepBlock(sem, b, s)
  {
    if Foldable(b) {
      var k := |b.insns| - 1;
      var pre, last := b.insns[..k], b.insns[k];
      assert b.insns == pre + [last];
      assert FoldBlock(b).insns == pre + [last.(code := Ja)];
      RunAppend(sem, pre, [last], s);
      RunAppend(sem, pre, [last.(code := Ja)], s);
      var x := Run(sem, pre, s);
      if x.Fall? {
        RunOne(sem, last, x.s);
        RunOne(sem, last.(code := Ja), x.s);
      } else {
        PrefixFalls(sem, b.insns, k, s);
      }
    }
  }

  /** fold_jumps changes no step of any execution. */
  lemma FoldBehaviour(sem: Sem, p: seq<Block>, nregs: nat, s: State, view: set<Word>)
    requires WfBlocks(p, nregs)
    ensures SameBehaviour(Stepping(sem, p), Goto(0, s), Stepping(sem, FoldBlocks(p)), Goto(0, s), view)
    ensures Safe(Stepping(sem, p), Goto(0, s)) <==> Safe(Stepping(sem, FoldBlocks(p)), Goto(0, s))
  {
    var step, step' := Stepping(sem, p), Stepping(sem, FoldBlocks(p));
    forall b: nat, t ensures step(b, t) == step'(b, t) {
      if b < |p| {
        assert WfBlock(p[b], nregs, |p|);
        FoldStep(sem, p[b], nregs, |p|, t);
      }
    }
    EqualBehaviour(step, step', Goto(0, s), view);
  }

  lemma FoldWf(p: seq<Block>, nregs: nat)
    requires WfBlocks(p, nregs)
    ensures WfBlocks(FoldBlocks(p), nregs)
  {
    forall b | 0 <= b < |p| ensures WfBlock(FoldBlocks(p)[b], nregs, |p|) {
      FoldBlockWf(p[b], nregs, |p|);
    }
  }

  lemma FoldBlockWf(b: Block, nregs: nat, nblocks: nat)
    requires WfBlock(b, nregs, nblocks)
    ensures WfBlock(FoldBlock(b), nregs, nblocks)
  {
  }

  lemma FoldLowered(p: seq<Block>, nregs: nat)
    requires WfBlocks(p, nregs) && AllLowered(p)
    ensures AllLowered(FoldBlocks(p))
  {
    forall b | 0 <= b < |p| ensures LoweredInsns(FoldBlocks(p)[b].insns) {
      assert WfBlock(p[b], nregs, |p|) && LoweredInsns(p[b].insns);
    }
  }

  lemma ThreadLowered(p: seq<Block>, g: Fwds)
    requires AllLowered(p)
    ensures AllLowered(ThreadBlocks(p, g))
  {
    forall b | 0 <= b < |p| ensures LoweredInsns(ThreadBlocks(p, g)[b].insns) {
      assert LoweredInsns(p[b].insns);
    }
  }

  // ----- liveness -----

  lemma ForwarderPasses(b: Block, live: set<nat>)
    requires Forwards(b).Some? && forall k | 0 <= k < |b.insns| :: Shaped(b.insns[k])
    ensures live <= LiveBefore(b.insns, live)
  {
    if b.insns != [] {
      assert b.insns == [b.insns[0]];
      LiveBeforeOne(b.insns[0], live);
    }
  }

  ghost predicate FlowsBack(f: Fwds, liveIn: seq<set<nat>>) {
    |liveIn| == |f| && forall i: nat | i < |f| && f[i].Some? && f[i].value < |f| :: liveIn[f[i].value] <= liveIn[i]
  }

  lemma ForwardersFlow(p: seq<Block>, nregs: nat, liveIn: seq<set<nat>>)
    requires WfBlocks(p, nregs) && Closed(p, liveIn)
    ensures FlowsBack(ForwardsOf(p), liveIn)
  {
    forall i: nat | i < |p| && Forwards(p[i]).Some? && Forwards(p[i]).value < |p|
      ensures liveIn[Forwards(p[i]).value] <= liveIn[i]
    {
      assert WfBlock(p[i], nregs, |p|);
      ForwarderPasses(p[i], AtSuccs(p[i], liveIn));
      assert LiveBefore(p[i].insns, AtSuccs(p[i], liveIn)) <= liveIn[i];
    }
  }

  lemma {:induction false} ChainLive(f: Fwds, liveIn: seq<set<nat>>, i: nat, k: nat)
    requires InBounds(f) && FlowsBack(f, liveIn) && i < |f| && Chain(f, i, k).Some?
    ensures liveIn[Chain(f, i, k).value] <= liveIn[i]
    decreases k
  {
    if k > 0 { ChainLive(f, liveIn, f[i].value, k - 1); }
  }

  lemma RedirectLive(p: seq<Block>, liveIn: seq<set<nat>>, g: Fwds, t: nat)
    requires InBounds(ForwardsOf(p)) && FlowsBack(ForwardsOf(p), liveIn) && Settled(ForwardsOf(p), g) && t < |p|
    ensures Redirect(Some(t), g).value < |p| && liveIn[Redirect(Some(t), g).value] <= liveIn[t]
  {
    var m := RedirectChain(p, g, t);
    ChainLive(ForwardsOf(p), liveIn, t, m);
  }

  /** A solution of the data-flow equations stays one under threading. */
  lemma ThreadClosed(p: seq<Block>, nregs: nat, liveIn: seq<set<nat>>, g: Fwds)
    requires WfBlocks(p, nregs) && Closed(p, liveIn) && InBounds(ForwardsOf(p)) && Settled(ForwardsOf(p), g)
    ensures Closed(ThreadBlocks(p, g), liveIn)
  {
    ForwardersFlow(p, nregs, liveIn);
    forall b | 0 <= b < |p|
      ensures LiveBefore(ThreadBlocks(p, g)[b].insns, AtSuccs(ThreadBlocks(p, g)[b], liveIn)) <= liveIn[b]
    {
      assert WfBlock(p[b], nregs, |p|);
      var b' := ThreadBlocks(p, g)[b];
      if p[b].taken.Some? { RedirectLive(p, liveIn, g, p[b].taken.value); }
      if p[b].fallthru.Some? { RedirectLive(p, liveIn, g, p[b].fallthru.value); }
      LiveBeforeMono(p[b].insns, AtSuccs(b', liveIn), AtSuccs(p[b], liveIn));
    }
  }

  lemma FoldBlockLive(b: Block, nregs: nat, nblocks: nat, liveIn: seq<set<nat>>)
    requires WfBlock(b, nregs, nblocks)
    ensures LiveBefore(FoldBlock(b).insns, AtSuccs(FoldBlock(b), liveIn)) == LiveBefore(b.insns, AtSuccs(b, liveIn))
  {
    if Foldable(b) {
      var k := |b.insns| - 1;
      var pre, last, live := b.insns[..k], b.insns[k], AtSuccs(b, liveIn);
      assert b.insns == pre + [last] && FoldBlock(b).insns == pre + [last.(code := Ja)];
      LiveBeforeAppend(pre, [last], live);
      LiveBeforeAppend(pre, [last.(code := Ja)], live);
      LiveBeforeOne(last, live);
      LiveBeforeOne(last.(code := Ja), live);
      assert AtSuccs(FoldBlock(b), liveIn) == live;
    }
  }

  lemma FoldClosed(p: seq<Block>, nregs: nat, liveIn: seq<set<nat>>)
    requires WfBlocks(p, nregs) && Closed(p, liveIn)
    ensures Closed(FoldBlocks(p), liveIn)
  {
    forall b | 0 <= b < |p|
      ensures LiveBefore(FoldBlocks(p)[b].insns, AtSuccs(FoldBlocks(p)[b], liveIn)) <= liveIn[b]
    {
      assert WfBlock(p[b], nregs, |p|);
      FoldBlockLive(p[b], nregs, |p|, liveIn);
    }
  }

  // ----- the passes -----

  /** thread_jumps; the back-links stay right. */
  method ThreadJumps(p: Program) returns (ghost g: Fwds)
    requires WfBlocks(p.blocks, p.nregs) && |p.prevs| == |p.blocks|
    requires InBounds(ForwardsOf(p.blocks)) ==> Threadable(ForwardsOf(p.blocks))
    modifies p`blocks, p`prevs
    ensures InBounds(ForwardsOf(old(p.blocks))) && Settled(ForwardsOf(old(p.blocks)), g)
    ensures p.blocks == ThreadBlocks(old(p.blocks), g) && |p.prevs| == |p.blocks|
    ensures old(BackLinked(p.blocks, p.prevs)) ==> BackLinked(p.blocks, p.prevs)
  {
    ForwardsBounded(p.blocks, p.nregs);
    ghost var blocks0 := p.blocks;
    var fwds := Propagate(ForwardsOf(p.blocks));
    g := fwds;
    ghost var goal := ThreadBlocks(blocks0, fwds);
    for i := 0 to |p.blocks|
      invariant |p.blocks| == |blocks0| == |p.prevs|
      invariant forall b | 0 <= b < i :: p.blocks[b] == goal[b]
      invariant forall b | i <= b < |blocks0| :: p.blocks[b] == blocks0[b]
      invariant old(BackLinked(p.blocks, p.prevs)) ==> BackLinked(p.blocks, p.prevs)
    {
      assert WfBlock(blocks0[i], p.nregs, |blocks0|);
      ThreadBlock(p, i, fwds);
    }
  }

  /** The edges of one block. */
  method ThreadBlock(p: Program, i: nat, fwds: Fwds)
    requires i < |p.blocks| == |p.prevs| == |fwds| && InBounds(fwds)
    requires p.blocks[i].taken.Some? ==> p.blocks[i].taken.value < |fwds|
    requires p.blocks[i].fallthru.Some? ==> p.blocks[i].fallthru.value < |fwds|
    modifies p`blocks, p`prevs
    ensures var b := old(p.blocks)[i];
      p.blocks == old(p.blocks)[i := b.(taken := Redirect(b.taken, fwds), fallthru := Redirect(b.fallthru, fwds))]
    ensures |p.prevs| == old(|p.prevs|) && (old(BackLinked(p.blocks, p.prevs)) ==> BackLinked(p.blocks, p.prevs))
  {
    if p.blocks[i].taken.Some? {
      var t := p.blocks[i].taken.value;
      if fwds[t].Some? { p.RedirectNext(Edge(i, true), fwds[t].value); }
    }
    if p.blocks[i].fallthru.Some? {
      var t := p.blocks[i].fallthru.value;
      if fwds[t].Some? { p.RedirectNext(Edge(i, false), fwds[t].value); }
    }
  }

  /** fold_jumps; the back-links stay right. */
  method FoldJumps(p: Program)
    requires WfBlocks(p.blocks, p.nregs) && |p.prevs| == |p.blocks|
    modifies p`blocks, p`prevs
    ensures p.blocks == FoldBlocks(old(p.blocks)) && |p.prevs| == |p.blocks|
    ensures old(BackLinked(p.blocks, p.prevs)) ==> BackLinked(p.blocks, p.prevs)
  {
    ghost var blocks0 := p.blocks;
    for i := 0 to |p.blocks|
      invariant |p.blocks| == |blocks0| == |p.prevs|
      invariant forall b | 0 <= b < i :: p.blocks[b] == FoldBlocks(blocks0)[b]
      invariant forall b | i <= b < |blocks0| :: p.blocks[b] == blocks0[b]
      invariant old(BackLinked(p.blocks, p.prevs)) ==> BackLinked(p.blocks, p.prevs)
    {
      var b := p.blocks[i];
      assert WfBlock(blocks0[i], p.nregs, |blocks0|);
      if b.taken.Some? && b.fallthru.Some? && b.taken == b.fallthru {
        var k := |b.insns| - 1;
        RecodeKeeps(p.blocks, p.prevs, i, b.insns[k := b.insns[k].(code := Ja)]);
        p.blocks := p.blocks[i := b.(insns := b.insns[k := b.insns[k].(code := Ja)])];
        p.DeleteEdge(Edge(i, false));
      }
    }
  }

  lemma RecodeKeeps(p: seq<Block>, prevs: seq<set<Edge>>, i: nat, ins: seq<Insn>)
    requires i < |p|
    ensures BackLinked(p, prevs) ==> BackLinked(p[i := p[i].(insns := ins)], prevs)
  {
    if BackLinked(p, prevs) {
      var p' := p[i := p[i].(insns := ins)];
      forall n: nat, e | n < |prevs| ensures e in prevs[n] <==> NextOf(p', e) == Some(n) {
        assert NextOf(p', e) == NextOf(p, e);
      }
    }
  }
}
