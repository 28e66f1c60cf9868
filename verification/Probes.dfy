/** translate_probe: the prologue, the statement of the probe and the way out. What
    is emitted, and that it is what generate asks for. */
module Probes {
  import opened Ir
  import opened Liveness
  import opened Script
  import opened Fixup
  import opened Jumps
  import opened Codegen
  import opened CodegenForm
  import opened Statements
  import opened StatementForm
  import opened Handlers
  import opened Zeroing
  import opened Generation
  import opened Returning
  import opened Errors

  // ----- what is emitted -----

  /** The registers add_prologue makes after the n before it. */
  function RegsFrom(n: nat): HandlerRegs {
    HandlerRegs(n, n + 1, n + 2, n + 3)
  }

  /** The program when the prologue has been emitted: generation is at the body. */
  function StartGen(n: nat, limit: int): Gen {
    Gen(seq(BODY, b requires 0 <= b => HandlerBlock(RegsFrom(n), limit, b)) + [EMPTY], n + 4, Some(BODY))
  }

  /** get_ret0_block. */
  const RET0: Block := Block([Mov(0, Imm(0))], None, Some(EPILOGUE))

  function WithRet(g: Gen): Gen {
    g.(blocks := g.blocks + [RET0])
  }

  /** The whole of translate_probe, for a statement st. */
  function ProbeGen(st: Stmt, n: nat, limit: int): Gen {
    var g := GenStmt(st, StartGen(n, limit));
    EmitJmp(WithRet(g), |g.blocks|)
  }

  lemma StartIs(n: nat, limit: int)
    ensures var g := StartGen(n, limit);
      |g.blocks| == BODY + 1 && g.blocks[BODY] == EMPTY && Open(g)
      && forall b: nat {:trigger g.blocks[b]} | b < BODY :: g.blocks[b] == HandlerBlock(RegsFrom(n), limit, b)
  {
  }

  // ----- its instructions -----

  lemma EndsAppend(a: seq<Insn>, test: Insn, n: nat)
    requires Straight(a, n) && WfInsn(test, n) && test.code.Jcond? && FitsInt16(test.off)
    ensures EndsInTest(a + [test], n)
  {
    assert (a + [test])[..|a|] == a;
  }

  /** The tests at the ends of the blocks. */
  lemma TestsForm(r: nat, limit: int, n: nat)
    requires r < n && 0 <= limit < 0x8000_0000
    ensures WfInsn(ZeroTest(r), n) && WfInsn(OneTest(r), n) && WfInsn(OverTest(r, limit), n)
    ensures FixReady(ZeroTest(r)) && FixReady(OneTest(r)) && FixReady(OverTest(r, limit))
  {
  }

  /** Straight-line code that lowering can treat. */
  ghost predicate Plain(ins: seq<Insn>, n: nat) {
    Straight(ins, n) && ReadyInsns(ins)
  }

  lemma PlainAppend(a: seq<Insn>, b: seq<Insn>, n: nat)
    requires Plain(a, n) && Plain(b, n)
    ensures Plain(a + b, n)
  {
  }

  lemma LookupPlain(key: int, n: nat)
    requires MAX_BPF_REG <= n && 0 <= key < 2
    ensures Plain(LookupInsns(key), n)
  {
  }

  lemma MessagePlain(msg: int, n: nat)
    requires MAX_BPF_REG <= n && 0 <= msg < 4
    ensures Plain(MessageInsns(msg), n)
  {
  }

  lemma UpdatePlain(count: nat, n: nat)
    requires MAX_BPF_REG <= n && count < n
    ensures Plain(UpdateInsns(count), n)
  {
  }

  lemma LoadsPlain(d: nat, n: nat)
    requires MAX_BPF_REG <= d < n
    ensures Plain([LoadValue(d)], n) && Plain([LoadValue(d), Increment(d)], n)
    ensures Plain([Mov(6, Reg(1)), Mov(d, Imm(0))], n)
  {
  }

  /** A block of the handler: finished, never back to the entry, ready. */
  ghost predicate Formed(b: Block, n: nat, nblocks: nat) {
    Finished(b, n, nblocks) && ReadyInsns(b.insns) && b.insns != []
  }

  lemma BranchFormed(pre: seq<Insn>, test: Insn, t: nat, f: nat, n: nat, nblocks: nat)
    requires Plain(pre, n) && WfInsn(test, n) && test.code.Jcond? && FitsInt16(test.off) && FixReady(test)
    requires 0 < t < nblocks && 0 < f < nblocks
    ensures Formed(Block(pre + [test], Some(t), Some(f)), n, nblocks)
  {
    EndsAppend(pre, test, n);
  }

  /** A lookup at the end of a block, after other code. */
  lemma LookupFormed(pre: seq<Insn>, key: int, t: nat, f: nat, n: nat, nblocks: nat)
    requires Plain(pre, n) && MAX_BPF_REG <= n && 0 <= key < 2 && 0 < t < nblocks && 0 < f < nblocks
    ensures Formed(Block(pre + (LookupInsns(key) + [ZeroTest(0)]), Some(t), Some(f)), n, nblocks)
  {
    LookupPlain(key, n);
    PlainAppend(pre, LookupInsns(key), n);
    TestsForm(0, 0, n);
    BranchFormed(pre + LookupInsns(key), ZeroTest(0), t, f, n, nblocks);
    assert pre + LookupInsns(key) + [ZeroTest(0)] == pre + (LookupInsns(key) + [ZeroTest(0)]);
  }

  lemma CountFormed(d: nat, limit: int, n: nat, nblocks: nat)
    requires MAX_BPF_REG <= d < n && 0 <= limit < 0x8000_0000 && 5 < nblocks
    ensures Formed(Block([LoadValue(d), Increment(d)] + (UpdateInsns(d) + [OverTest(d, limit)]), Some(5), Some(3)), n,
                   nblocks)
  {
    var a, b := [LoadValue(d), Increment(d)], UpdateInsns(d);
    LoadsPlain(d, n);
    UpdatePlain(d, n);
    PlainAppend(a, b, n);
    TestsForm(d, limit, n);
    BranchFormed(a + b, OverTest(d, limit), 5, 3, n, nblocks);
    assert a + b + [OverTest(d, limit)] == a + (b + [OverTest(d, limit)]);
  }

  lemma ValueFormed(d: nat, limit: int, t: nat, f: nat, n: nat, nblocks: nat)
    requires MAX_BPF_REG <= d < n && 0 <= limit < 0x8000_0000 && 0 < t < nblocks && 0 < f < nblocks
    ensures Formed(Block([LoadValue(d), OneTest(d)], Some(t), Some(f)), n, nblocks)
    ensures Formed(Block([LoadValue(d), OverTest(d, limit)], Some(t), Some(f)), n, nblocks)
  {
    LoadsPlain(d, n);
    TestsForm(d, limit, n);
    BranchFormed([LoadValue(d)], OneTest(d), t, f, n, nblocks);
    BranchFormed([LoadValue(d)], OverTest(d, limit), t, f, n, nblocks);
    assert [LoadValue(d)] + [OneTest(d)] == [LoadValue(d), OneTest(d)];
    assert [LoadValue(d)] + [OverTest(d, limit)] == [LoadValue(d), OverTest(d, limit)];
  }

  lemma StatusFormed(es: nat, n: nat, nblocks: nat)
    requires MAX_BPF_REG <= es < n && 3 < nblocks
    ensures Formed(Block([ZeroTest(es)], Some(3), Some(2)), n, nblocks)
    ensures Formed(Block([LEAVE], None, None), n, nblocks)
  {
    TestsForm(es, 0, n);
    BranchFormed([], ZeroTest(es), 3, 2, n, nblocks);
    assert [] + [ZeroTest(es)] == [ZeroTest(es)];
    assert [LEAVE][..0] == [];
  }

  lemma ReportFormed(n: nat, nblocks: nat)
    requires MAX_BPF_REG <= n && 4 < nblocks
    ensures Formed(Block(MessageInsns(STP_PRINT_ERROR_MSG) + (LookupInsns(ERRORS) + [ZeroTest(0)]), Some(3), Some(4)),
                   n, nblocks)
    ensures Formed(Block(MessageInsns(STP_ERROR), None, Some(3)), n, nblocks)
  {
    MessagePlain(STP_PRINT_ERROR_MSG, n);
    MessagePlain(STP_ERROR, n);
    LookupFormed(MessageInsns(STP_PRINT_ERROR_MSG), ERRORS, 3, 4, n, nblocks);
  }

  lemma EntryFormed(es: nat, n: nat, nblocks: nat)
    requires MAX_BPF_REG <= es < n && 8 < nblocks
    ensures Formed(Block([Mov(6, Reg(1)), Mov(es, Imm(0))] + (LookupInsns(Errors.EXIT) + [ZeroTest(0)]),
                         Some(1), Some(6)),
                   n, nblocks)
    ensures Formed(Block(LookupInsns(ERRORS) + [ZeroTest(0)], Some(1), Some(8)), n, nblocks)
  {
    LoadsPlain(es, n);
    LookupFormed([Mov(6, Reg(1)), Mov(es, Imm(0))], Errors.EXIT, 1, 6, n, nblocks);
    LookupFormed([], ERRORS, 1, 8, n, nblocks);
    assert [] + (LookupInsns(ERRORS) + [ZeroTest(0)]) == LookupInsns(ERRORS) + [ZeroTest(0)];
  }

  lemma HandlerFormed(q: HandlerRegs, limit: int, b: nat, n: nat, nblocks: nat)
    requires WfRegs(q) && q.errors < n && 0 <= limit < 0x8000_0000 && b < BODY < nblocks
    ensures Formed(HandlerBlock(q, limit, b), n, nblocks)
  {
    match b
    case 0 => EntryFormed(q.status, n, nblocks);
    case 1 => StatusFormed(q.status, n, nblocks);
    case 2 => ReportFormed(n, nblocks);
    case 3 => StatusFormed(q.status, n, nblocks);
    case 4 => CountFormed(q.count, limit, n, nblocks);
    case 5 => ReportFormed(n, nblocks);
    case 6 => ValueFormed(q.flag, limit, 1, 7, n, nblocks);
    case 7 => EntryFormed(q.status, n, nblocks);
    case 8 => ValueFormed(q.errors, limit, 1, 9, n, nblocks);
  }

  // ----- the form of the program -----

  function AllBelow(n: nat, nblocks: nat): seq<set<nat>> {
    seq(nblocks, _ => Below(n))
  }

  lemma FormedFits(g: Gen, defs: seq<set<nat>>, b: nat)
    requires b < |g.blocks| == |defs| && MAX_BPF_REG <= g.nregs && Formed(g.blocks[b], g.nregs, |g.blocks|)
    requires g.cur != Some(b)
    requires defs == AllBelow(g.nregs, |g.blocks|)
    ensures BlockFits(g, {}, defs, Below(g.nregs), b)
  {
    DoneBlock(g.blocks[b], g.nregs, |g.blocks|);
    LiveBeforeBounded(g.blocks[b].insns, AtSuccs(g.blocks[b], defs), g.nregs);
  }

  lemma StartFits(n: nat, limit: int)
    requires MAX_BPF_REG <= n && 0 <= limit < 0x8000_0000
    ensures var g := StartGen(n, limit); Fits(g, {}, AllBelow(n + 4, |g.blocks|), Below(n + 4)) && AllReady(g.blocks)
  {
    var g := StartGen(n, limit);
    var defs := AllBelow(n + 4, |g.blocks|);
    StartIs(n, limit);
    forall b: nat | b < |g.blocks| ensures BlockFits(g, {}, defs, Below(n + 4), b) && ReadyInsns(g.blocks[b].insns) {
      if b < BODY {
        HandlerFormed(RegsFrom(n), limit, b, n + 4, BODY + 1);
        FormedFits(g, defs, b);
      }
    }
  }

  /** Every block is finished: all that generate asks for but ready operands and an
      end to every chain of empty blocks. */
  lemma FinishedForm(p: seq<Block>, n: nat)
    requires p != [] && MAX_BPF_REG <= n && forall b: nat | b < |p| :: Finished(p[b], n, |p|)
    ensures WfBlocks(p, n) && EntryFirst(p) && OffsetsFit(p)
    ensures forall b: nat | b < |p| :: Forwards(p[b]) == if p[b].insns == [] then p[b].fallthru else None
  {
    forall b: nat | b < |p|
      ensures WfBlock(p[b], n, |p|) && p[b].taken != Some(0) && p[b].fallthru != Some(0) && InsnsFit(p[b].insns)
      ensures Forwards(p[b]) == if p[b].insns == [] then p[b].fallthru else None
    {
      DoneBlock(p[b], n, |p|);
    }
  }

  /** One more forwarder, to a block that is none. */
  lemma {:induction false} ChainLonger(f: Fwds, f': Fwds, c: nat, t: nat, i: nat, k: nat)
    requires InBounds(f) && InBounds(f') && c < |f| && i < |f| && |f'| == |f| + 1 && t == |f| && f[c].None?
    requires f'[c] == Some(t) && f'[t].None?
    requires (forall b: nat | b < |f| && b != c :: f'[b] == f[b]) && Chain(f, i, k).None?
    ensures Chain(f', i, k + 1).None?
    decreases k
  {
    if i == c {
      assert Chain(f', t, k).None?;
    } else if f[i].Some? {
      ChainLonger(f, f', c, t, f[i].value, k - 1);
    }
  }

  /** The chains of empty blocks end. */
  lemma ForwardChainEnds(g: Gen, defs: seq<set<nat>>, have: set<nat>, f: Fwds, i: nat) returns (k: nat)
    requires Fits(g, {}, defs, have) && Open(g) && i < |f| == |g.blocks|
    requires forall b: nat | b < |f| :: f[b] == if g.blocks[b].insns == [] then g.blocks[b].fallthru else None
    ensures InBounds(f) && Chain(f, i, k).None?
  {
    forall b: nat | b < |f| ensures Descends(g.blocks, b) && (f[b].Some? ==> f[b].value < |f|) {
      assert BlockFits(g, {}, defs, have, b);
    }
    k := DescendsEnds(g.blocks, f, i);
  }

  lemma ProbeThreadable(g: Gen, defs: seq<set<nat>>, have: set<nat>, p: seq<Block>)
    requires Fits(g, {}, defs, have) && Open(g) && p == EmitJmp(WithRet(g), |g.blocks|).blocks
    requires InBounds(ForwardsOf(p))
    requires forall b: nat | b < |p| :: Forwards(p[b]) == if p[b].insns == [] then p[b].fallthru else None
    ensures Threadable(ForwardsOf(p))
  {
    var c, t := g.cur.value, |g.blocks|;
    var f' := ForwardsOf(p);
    var f: Fwds := seq(t, b requires 0 <= b < t => if g.blocks[b].insns == [] then g.blocks[b].fallthru else None);
    forall i: nat | i < |f'| ensures !Endless(f', i) {
      if i == t {
        assert Chain(f', t, 1).None?;
      } else {
        var k := ForwardChainEnds(g, defs, have, f, i);
        if g.blocks[c].insns == [] { ChainLonger(f, f', c, t, i, k); } else { ChainSame(f, f', i, k); }
      }
    }
  }

  lemma {:induction false} ChainSame(f: Fwds, f': Fwds, i: nat, k: nat)
    requires InBounds(f) && InBounds(f') && i < |f| <= |f'| && (forall b: nat | b < |f| :: f'[b] == f[b])
    requires Chain(f, i, k).None?
    ensures Chain(f', i, k).None?
    decreases k
  {
    if f[i].Some? { ChainSame(f, f', f[i].value, k - 1); }
  }

  lemma ProbeFinished(g: Gen, defs: seq<set<nat>>, have: set<nat>, p: seq<Block>)
    requires Fits(g, {}, defs, have) && Open(g) && p == EmitJmp(WithRet(g), |g.blocks|).blocks && 1 < |g.blocks|
    ensures forall b: nat | b < |p| :: Finished(p[b], g.nregs, |p|)
  {
    forall b: nat | b < |p| ensures Finished(p[b], g.nregs, |p|) {
      if b < |g.blocks| {
        assert BlockFits(g, {}, defs, have, b);
        if g.cur != Some(b) { FinishedMore(g.blocks[b], g.nregs, |g.blocks|, g.nregs, |p|); }
      }
    }
  }

  lemma RetReady(g: Gen)
    requires Open(g)
    ensures AllReady(EmitJmp(WithRet(g), |g.blocks|).blocks) <==> AllReady(g.blocks)
  {
    var p := WithRet(g).blocks;
    ReadyJmp(WithRet(g), |g.blocks|);
    if AllReady(p) {
      forall b | 0 <= b < |g.blocks| ensures ReadyInsns(g.blocks[b].insns) { assert p[b] == g.blocks[b]; }
    }
  }

  /** translate_probe's program is what generate asks for exactly when its
      statement is slim. */
  lemma ProbeSource(st: Stmt, n: nat, limit: int)
    requires MAX_BPF_REG <= n && 0 <= limit < 0x8000_0000 && WfStmt(st, n + 4)
    ensures var g := ProbeGen(st, n, limit); Source(g.blocks, g.nregs) <==> SlimStmt(st)
  {
    var g0, g := StartGen(n, limit), GenStmt(st, StartGen(n, limit));
    var p := ProbeGen(st, n, limit).blocks;
    StartIs(n, limit);
    StartFits(n, limit);
    StmtBelow(st, n + 4);
    StmtContinues(st, g0);
    var defs, have := StmtFits(st, g0, {}, AllBelow(n + 4, |g0.blocks|), Below(n + 4));
    ProbeFinished(g, defs, have, p);
    FinishedForm(p, g.nregs);
    if InBounds(ForwardsOf(p)) { ProbeThreadable(g, defs, have, p); }
    StmtReady(st, g0);
    RetReady(g);
    EntryKept(g0, g, p);
  }

  lemma EntryKept(g0: Gen, g: Gen, p: seq<Block>)
    requires Continues(g0, g) && p == EmitJmp(WithRet(g), |g.blocks|).blocks && g0.cur == Some(BODY)
    requires |g0.blocks| == BODY + 1 && g0.blocks[0].insns != []
    ensures p[0].insns != []
  {
    assert SameBlock(g0, g, 0);
  }

  /** It begins with the handler of add_prologue and add_epilogue. */
  lemma ProbeHandler(st: Stmt, n: nat, limit: nat)
    requires MAX_BPF_REG <= n && limit < 0x8000_0000 && WfStmt(st, n + 4)
    ensures HasHandler(ProbeGen(st, n, limit).blocks, RegsFrom(n), limit)
  {
    var g0, g := StartGen(n, limit), GenStmt(st, StartGen(n, limit));
    StartIs(n, limit);
    StmtContinues(st, g0);
    forall b: nat | b < BODY ensures ProbeGen(st, n, limit).blocks[b] == HandlerBlock(RegsFrom(n), limit, b) {
      assert SameBlock(g0, g, b);
    }
  }
}
