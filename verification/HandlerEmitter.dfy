/** add_prologue and add_epilogue as the unparser emits them. */
module HandlerEmitter {
  import opened Ir
  import opened Fixup
  import opened Programs
  import opened Codegen
  import opened Unparser
  import opened Errors
  import opened Handlers

  /** Instructions appended one by one. */
  method AppendAll(u: Unparser, ins: seq<Insn>)
    requires u.Valid() && Open(u.Now())
    modifies u.prog`blocks
    ensures u.Valid() && u.Now() == EmitAll(old(u.Now()), ins)
  {
    ghost var g := u.Now();
    EmitNothing(g);
    for k := 0 to |ins|
      invariant u.Valid() && u.Now() == EmitAll(g, ins[..k])
    {
      EmitAllMore(g, ins[..k], [ins[k]]);
      EmitIsAll(u.Now(), ins[k]);
      u.Append(ins[k]);
      assert ins[..k + 1] == ins[..k] + [ins[k]];
    }
    assert ins[..|ins|] == ins;
  }

  /** A block that ends in a conditional jump. */
  function JumpBlock(ins: seq<Insn>, c: Cond, s0: Value, s1: Value, t: nat, f: nat): Block {
    MkJcond(Gen([Block(ins, None, None)], 0, Some(0)), c, s0, s1, t, f).blocks[0]
  }

  lemma JumpBlockIs(g: Gen, c: Cond, s0: Value, s1: Value, t: nat, f: nat)
    requires Open(g)
    ensures MkJcond(g, c, s0, s1, t, f) ==
      Gen(g.blocks[g.cur.value := JumpBlock(g.blocks[g.cur.value].insns, c, s0, s1, t, f)], g.nregs, None)
  {
  }

  /** Straight-line code and a conditional jump end the block begun. */
  method EndWith(u: Unparser, ins: seq<Insn>, c: Cond, s0: Value, s1: Value, t: nat, f: nat)
    requires u.Valid() && Open(u.Now()) && t < |u.prog.blocks| && f < |u.prog.blocks|
    modifies u`cur, u.prog`blocks, u.prog`prevs
    ensures u.Valid() && u.cur == None
    ensures var b := old(u.cur).value;
      u.prog.blocks == old(u.prog.blocks)[b := JumpBlock(old(u.prog.blocks)[b].insns + ins, c, s0, s1, t, f)]
  {
    ghost var g := u.Now();
    AppendAll(u, ins);
    ghost var g1 := u.Now();
    EmitAllMore(g, ins, []);
    JumpBlockIs(g1, c, s0, s1, t, f);
    u.JumpIf(c, s0, s1, t, f);
    assert u.prog.blocks == g.blocks[g.cur.value := JumpBlock(g.blocks[g.cur.value].insns + ins, c, s0, s1, t, f)];
  }

  /** The tests are those of the handler's blocks. */
  lemma TestsEmitted(ins: seq<Insn>, r: nat, limit: int, t: nat, f: nat)
    ensures JumpBlock(ins, EQ, Reg(r), Imm(0), t, f) == Block(ins + [ZeroTest(r)], Some(t), Some(f))
    ensures JumpBlock(ins, EQ, Imm(0), Reg(r), t, f) == Block(ins + [ZeroTest(r)], Some(t), Some(f))
    ensures JumpBlock(ins, EQ, Reg(r), Imm(1), t, f) == Block(ins + [OneTest(r)], Some(t), Some(f))
    ensures JumpBlock(ins, GT, Reg(r), Imm(limit), t, f) == Block(ins + [OverTest(r, limit)], Some(t), Some(f))
    ensures JumpBlock(ins, LE, Reg(r), Imm(limit), t, f) == Block(ins + [OverTest(r, limit)], Some(f), Some(t))
  {
  }

  /** emit_transport_msg without an argument, up to its call: eight bytes of the
      frame. */
  method EmitMessage(u: Unparser, msg: int)
    requires u.Valid() && Open(u.Now())
    modifies u.prog`blocks, u.prog`maxTmpSpace
    ensures u.Valid() && u.Now() == EmitAll(old(u.Now()), MessageInsns(msg))
    ensures u.prog.maxTmpSpace == if old(u.prog.maxTmpSpace) < 8 then 8 else old(u.prog.maxTmpSpace)
  {
    u.prog.UseTmpSpace(8);
    AppendAll(u, MessageInsns(msg));
  }

  // ----- the epilogue -----

  lemma EmptyFirst(ins: seq<Insn>)
    ensures EMPTY.insns + ins == ins
  {
  }

  /** add_epilogue from its first block, block 1, to the exit. */
  method AddEpilogue(u: Unparser, es: nat, limit: int) returns (count: nat)
    requires u.Valid() && |u.prog.blocks| == 2 && u.prog.blocks[1] == EMPTY
    modifies u`cur, u.prog`blocks, u.prog`prevs, u.prog`nregs, u.prog`maxTmpSpace
    ensures u.Valid() && count == old(u.prog.nregs) && u.prog.nregs == count + 1
    ensures u.prog.maxTmpSpace == if old(u.prog.maxTmpSpace) < 8 then 8 else old(u.prog.maxTmpSpace)
    ensures forall q: HandlerRegs | q.status == es && q.count == count ::
      u.prog.blocks ==
      [old(u.prog.blocks)[0], HandlerBlock(q, limit, 1), HandlerBlock(q, limit, 2), HandlerBlock(q, limit, 3),
       HandlerBlock(q, limit, 4), HandlerBlock(q, limit, 5)]
  {
    ghost var b0, q := u.prog.blocks[0], HandlerRegs(es, u.prog.nregs, 0, 0);
    var error := u.prog.NewBlock();
    var exit := u.prog.NewBlock();
    TestStatus(u, es, limit, b0, q);
    Report(u, limit, b0, q);
    count := Count(u, limit, b0, q);
    HardExit(u, limit, b0, q);
  }

  method TestStatus(u: Unparser, es: nat, limit: int, ghost b0: Block, ghost q: HandlerRegs)
    requires u.Valid() && u.prog.blocks == [b0, EMPTY, EMPTY, EMPTY] && q.status == es
    modifies u`cur, u.prog`blocks, u.prog`prevs
    ensures u.Valid() && u.prog.blocks == [b0, HandlerBlock(q, limit, 1), EMPTY, EMPTY]
  {
    u.cur := Some(1);
    EmptyFirst([]);
    TestsEmitted([], es, limit, 3, 2);
    EndWith(u, [], EQ, Imm(0), Reg(es), 3, 2);
    assert [] + [ZeroTest(es)] == [ZeroTest(es)];
  }

  method Report(u: Unparser, limit: int, ghost b0: Block, ghost q: HandlerRegs)
    requires u.Valid() && u.prog.blocks == [b0, HandlerBlock(q, limit, 1), EMPTY, EMPTY]
    modifies u`cur, u.prog`blocks, u.prog`prevs, u.prog`maxTmpSpace
    ensures u.Valid() && u.prog.blocks == [b0, HandlerBlock(q, limit, 1), HandlerBlock(q, limit, 2), EMPTY, EMPTY]
    ensures u.prog.maxTmpSpace == if old(u.prog.maxTmpSpace) < 8 then 8 else old(u.prog.maxTmpSpace)
  {
    u.cur := Some(2);
    EmptyFirst(MessageInsns(STP_PRINT_ERROR_MSG));
    EmitMessage(u, STP_PRINT_ERROR_MSG);
    u.prog.UseTmpSpace(4);
    var increment := u.prog.NewBlock();
    TestsEmitted(MessageInsns(STP_PRINT_ERROR_MSG) + LookupInsns(ERRORS), 0, limit, 3, 4);
    EndWith(u, LookupInsns(ERRORS), EQ, Reg(0), Imm(0), 3, 4);
    assert MessageInsns(STP_PRINT_ERROR_MSG) + LookupInsns(ERRORS) + [ZeroTest(0)] ==
      MessageInsns(STP_PRINT_ERROR_MSG) + (LookupInsns(ERRORS) + [ZeroTest(0)]);
  }

  method Count(u: Unparser, limit: int, ghost b0: Block, ghost q: HandlerRegs) returns (count: nat)
    requires u.Valid() && u.prog.blocks == [b0, HandlerBlock(q, limit, 1), HandlerBlock(q, limit, 2), EMPTY, EMPTY]
    requires q.count == u.prog.nregs
    modifies u`cur, u.prog`blocks, u.prog`prevs, u.prog`nregs, u.prog`maxTmpSpace
    ensures u.Valid() && count == q.count && u.prog.nregs == count + 1
    ensures u.prog.blocks ==
      [b0, HandlerBlock(q, limit, 1), HandlerBlock(q, limit, 2), EMPTY, HandlerBlock(q, limit, 4), EMPTY]
    ensures u.prog.maxTmpSpace == if old(u.prog.maxTmpSpace) < 8 then 8 else old(u.prog.maxTmpSpace)
  {
    u.cur := Some(4);
    count := u.prog.NewReg();
    u.prog.UseTmpSpace(8);
    u.prog.UseTmpSpace(4);
    var exceeded := u.prog.NewBlock();
    var ins := [LoadValue(count), Increment(count)] + UpdateInsns(count);
    EmptyFirst(ins);
    TestsEmitted(ins, count, limit, 3, 5);
    EndWith(u, ins, LE, Reg(count), Imm(limit), 3, 5);
    assert ins + [OverTest(count, limit)] ==
      [LoadValue(count), Increment(count)] + (UpdateInsns(count) + [OverTest(count, limit)]);
  }

  /** The hard error, and the exit. */
  method HardExit(u: Unparser, limit: int, ghost b0: Block, ghost q: HandlerRegs)
    requires u.Valid()
    requires u.prog.blocks ==
      [b0, HandlerBlock(q, limit, 1), HandlerBlock(q, limit, 2), EMPTY, HandlerBlock(q, limit, 4), EMPTY]
    modifies u`cur, u.prog`blocks, u.prog`prevs, u.prog`maxTmpSpace
    ensures u.Valid() && u.prog.maxTmpSpace == if old(u.prog.maxTmpSpace) < 8 then 8 else old(u.prog.maxTmpSpace)
    ensures u.prog.blocks ==
      [b0, HandlerBlock(q, limit, 1), HandlerBlock(q, limit, 2), HandlerBlock(q, limit, 3), HandlerBlock(q, limit, 4),
       HandlerBlock(q, limit, 5)]
  {
    u.cur := Some(5);
    EmptyFirst(MessageInsns(STP_ERROR));
    EmitMessage(u, STP_ERROR);
    u.JumpTo(3);
    u.cur := Some(3);
    EmptyFirst([LEAVE]);
    u.Append(LEAVE);
  }

  // ----- the prologue -----

  /** The blocks made: 0 to n - 1, and an empty one after them. */
  ghost predicate Made(p: seq<Block>, q: HandlerRegs, limit: int, n: nat) {
    |p| == n + 1 && p[n] == EMPTY
    && forall b: nat {:trigger HandlerBlock(q, limit, b)} | b < n :: p[b] == HandlerBlock(q, limit, b)
  }

  lemma MadeNext(p: seq<Block>, p': seq<Block>, q: HandlerRegs, limit: int, n: nat)
    requires Made(p, q, limit, n) && p' == (p + [EMPTY])[n := HandlerBlock(q, limit, n)]
    ensures Made(p', q, limit, n + 1)
  {
  }

  /** A lookup of the error count in block 7, or one of the tests of a value in
      blocks 6 and 8; the handler's next block is begun. */
  method NextBlock(u: Unparser, n: nat, ins: seq<Insn>, c: Cond, s0: Value, s1: Value, ghost q: HandlerRegs,
                   ghost limit: int)
    requires u.Valid() && Made(u.prog.blocks, q, limit, n) && 1 < n
    requires JumpBlock(ins, c, s0, s1, 1, n + 1) == HandlerBlock(q, limit, n)
    modifies u`cur, u.prog`blocks, u.prog`prevs
    ensures u.Valid() && Made(u.prog.blocks, q, limit, n + 1)
  {
    ghost var p := u.prog.blocks;
    u.cur := Some(n);
    var next := u.prog.NewBlock();
    EmptyFirst(ins);
    EndWith(u, ins, c, s0, s1, 1, next);
    assert u.prog.blocks == (p + [EMPTY])[n := HandlerBlock(q, limit, n)];
    MadeNext(p, u.prog.blocks, q, limit, n);
  }

  /** The two moves the entry block begins with. */
  function FirstMoves(es: nat): seq<Insn> {
    [Mov(6, Reg(1)), Mov(es, Imm(0))]
  }

  /** The context and the error status. */
  method BeginEntry(u: Unparser) returns (es: nat)
    requires u.Valid() && u.prog.blocks == []
    modifies u`cur, u.prog`blocks, u.prog`prevs, u.prog`nregs
    ensures u.Valid() && es == old(u.prog.nregs) && u.prog.nregs == es + 1
    ensures u.prog.blocks == [Block(FirstMoves(es), None, None)]
  {
    var entry := u.prog.NewBlock();
    u.cur := Some(entry);
    es := u.prog.NewReg();
    EmptyFirst(FirstMoves(es));
    AppendAll(u, FirstMoves(es));
  }

  /** The lookup of the exit flag, which ends the entry block. */
  method LookExit(u: Unparser, es: nat, count: nat, limit: int)
    requires u.Valid() && |u.prog.blocks| == 6 && u.prog.blocks[0] == Block(FirstMoves(es), None, None)
    modifies u`cur, u.prog`blocks, u.prog`prevs, u.prog`maxTmpSpace
    ensures u.Valid()
    ensures u.prog.blocks == (old(u.prog.blocks) + [EMPTY])[0 := HandlerBlock(HandlerRegs(es, count, 0, 0), limit, 0)]
    ensures u.prog.maxTmpSpace == if old(u.prog.maxTmpSpace) < 4 then 4 else old(u.prog.maxTmpSpace)
  {
    u.cur := Some(0);
    u.prog.UseTmpSpace(4);
    var next := u.prog.NewBlock();
    TestsEmitted(FirstMoves(es) + LookupInsns(Errors.EXIT), 0, limit, 1, 6);
    EndWith(u, LookupInsns(Errors.EXIT), EQ, Reg(0), Imm(0), 1, next);
    assert FirstMoves(es) + LookupInsns(Errors.EXIT) + [ZeroTest(0)] ==
      FirstMoves(es) + (LookupInsns(Errors.EXIT) + [ZeroTest(0)]);
  }

  /** The entry block: the context and the error status, then, once the epilogue
      is there, the lookup of the exit flag. */
  method AddEntry(u: Unparser, limit: int) returns (es: nat, count: nat)
    requires u.Valid() && u.prog.blocks == []
    modifies u`cur, u.prog`blocks, u.prog`prevs, u.prog`nregs, u.prog`maxTmpSpace
    ensures u.Valid() && es == old(u.prog.nregs) && count == es + 1 && u.prog.nregs == es + 2
    ensures u.prog.maxTmpSpace == if old(u.prog.maxTmpSpace) < 8 then 8 else old(u.prog.maxTmpSpace)
    ensures forall q: HandlerRegs | q.status == es && q.count == count :: Made(u.prog.blocks, q, limit, 6)
  {
    es := BeginEntry(u);
    var exit := u.prog.NewBlock();
    count := AddEpilogue(u, es, limit);
    ghost var p, q := u.prog.blocks, HandlerRegs(es, count, 0, 0);
    assert p[1] == HandlerBlock(q, limit, 1);
    LookExit(u, es, count, limit);
    EntryMade(p, u.prog.blocks, limit, es, count);
  }

  lemma EntryMade(p: seq<Block>, p': seq<Block>, limit: int, es: nat, count: nat)
    requires forall q: HandlerRegs | q.status == es && q.count == count ::
      |p| == 6
      && p[1..] ==
         [HandlerBlock(q, limit, 1), HandlerBlock(q, limit, 2), HandlerBlock(q, limit, 3), HandlerBlock(q, limit, 4),
          HandlerBlock(q, limit, 5)]
    requires |p| == 6 && p' == (p + [EMPTY])[0 := HandlerBlock(HandlerRegs(es, count, 0, 0), limit, 0)]
    ensures forall q: HandlerRegs | q.status == es && q.count == count :: Made(p', q, limit, 6)
  {
    forall q: HandlerRegs | q.status == es && q.count == count ensures Made(p', q, limit, 6) {
      forall b: nat | b < 6 ensures p'[b] == HandlerBlock(q, limit, b) {
        if b > 0 { assert p'[b] == p[1..][b - 1]; }
      }
    }
  }

  lemma TestBlocksEmitted(q: HandlerRegs, limit: int)
    ensures JumpBlock([LoadValue(q.flag)], EQ, Reg(q.flag), Imm(1), 1, 7) == HandlerBlock(q, limit, 6)
    ensures JumpBlock(LookupInsns(ERRORS), EQ, Reg(0), Imm(0), 1, 8) == HandlerBlock(q, limit, 7)
    ensures JumpBlock([LoadValue(q.errors)], GT, Reg(q.errors), Imm(limit), 1, 9) == HandlerBlock(q, limit, 8)
  {
    TestsEmitted([LoadValue(q.flag)], q.flag, limit, 1, 7);
    TestsEmitted(LookupInsns(ERRORS), 0, limit, 1, 8);
    TestsEmitted([LoadValue(q.errors)], q.errors, limit, 1, 9);
  }

  /** What add_prologue leaves is the handler, with generation at its body; of the
      frame only eight bytes were asked for. */
  method AddPrologue(u: Unparser, constraint: Option<int>) returns (q: HandlerRegs, limit: nat)
    requires u.Valid() && u.prog.blocks == [] && MAX_BPF_REG <= u.prog.nregs
    requires (constraint.Some? ==> FitsInt32(constraint.value))
    modifies u`cur, u.prog`blocks, u.prog`prevs, u.prog`nregs, u.prog`maxTmpSpace
    ensures u.Valid() && HasHandler(u.prog.blocks, q, limit) && limit == Limit(constraint)
    ensures q == HandlerRegs(old(u.prog.nregs), old(u.prog.nregs) + 1, old(u.prog.nregs) + 2, old(u.prog.nregs) + 3)
    ensures u.prog.nregs == q.status + 4
    ensures u.cur == Some(BODY) && |u.prog.blocks| == BODY + 1 && u.prog.blocks[BODY] == EMPTY
    ensures u.prog.maxTmpSpace == if old(u.prog.maxTmpSpace) < 8 then 8 else old(u.prog.maxTmpSpace)
  {
    limit := Limit(constraint);
    var es, count := AddEntry(u, limit);
    var flag := u.prog.NewReg();
    q := HandlerRegs(es, count, flag, flag + 1);
    TestBlocksEmitted(q, limit);
    NextBlock(u, 6, [LoadValue(flag)], EQ, Reg(flag), Imm(1), q, limit);
    u.prog.UseTmpSpace(4);
    NextBlock(u, 7, LookupInsns(ERRORS), EQ, Reg(0), Imm(0), q, limit);
    var errors := u.prog.NewReg();
    NextBlock(u, 8, [LoadValue(errors)], GT, Reg(errors), Imm(limit), q, limit);
    u.cur := Some(BODY);
  }
}
