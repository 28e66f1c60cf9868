/** translate_probe and what follows it: from the statement of a probe to bytecode. */
module ProbeCompiler {
  import opened Ir
  import opened Fixup
  import opened Programs
  import opened Script
  import opened Codegen
  import opened Statements
  import opened StatementForm
  import opened Allocation
  import opened AllocationMeaning
  import opened Linear
  import opened Flattening
  import opened Emission
  import opened Generation
  import opened Errors
  import opened Handlers
  import opened HandlerRuns
  import opened HandlerEmitter
  import opened Probes
  import opened ProbeBytecode
  import opened ProbeRuns
  import Unparser

  lemma StartReached(g: Gen, n: nat, limit: int)
    requires HasHandler(g.blocks, RegsFrom(n), limit) && |g.blocks| == BODY + 1 && g.blocks[BODY] == EMPTY
    requires g.nregs == n + 4 && g.cur == Some(BODY)
    ensures g == StartGen(n, limit)
  {
    StartIs(n, limit);
    forall b: nat | b < BODY
      ensures g.blocks[b] == StartGen(n, limit).blocks[b]
    {
      assert g.blocks[b] == HandlerBlock(RegsFrom(n), limit, b);
    }
    assert g.blocks == StartGen(n, limit).blocks;
  }

  /** get_ret0_block, and the jump to it. */
  method Return0(u: Unparser.Unparser)
    requires u.Valid() && Open(u.Now()) && EPILOGUE < |u.prog.blocks|
    modifies u`cur, u.prog`blocks, u.prog`prevs
    ensures u.Valid() && u.Now() == EmitJmp(WithRet(old(u.Now())), |old(u.prog.blocks)|)
  {
    ghost var g := u.Now();
    var here := u.cur;
    var ret := u.prog.NewBlock();
    u.cur := Some(ret);
    u.Append(Mov(0, Imm(0)));
    u.JumpTo(EPILOGUE);
    u.cur := here;
    assert u.prog.blocks == WithRet(g).blocks by { assert [] + [Mov(0, Imm(0))] == [Mov(0, Imm(0))]; }
    u.JumpTo(ret);
  }

  /** The prologue, the statement, and the way out through ret0. */
  method EmitProbe(u: Unparser.Unparser, st: Stmt, constraint: Option<int>) returns (limit: nat)
    requires u.Valid() && u.prog.blocks == [] && MAX_BPF_REG <= u.prog.nregs && u.prog.maxTmpSpace == 0
    requires WfStmt(st, u.prog.nregs + 1) && (constraint.Some? ==> FitsInt32(constraint.value))
    modifies u`cur, u.prog`blocks, u.prog`prevs, u.prog`nregs, u.prog`maxTmpSpace
    ensures u.Valid() && limit == Limit(constraint) && u.prog.maxTmpSpace == 8
    ensures u.Now() == ProbeGen(st, old(u.prog.nregs), limit)
  {
    ghost var n := u.prog.nregs;
    var q;
    q, limit := AddPrologue(u, constraint);
    StartReached(u.Now(), n, limit);
    StmtMore(st, n + 1, n + 4);
    StmtContinues(st, StartGen(n, limit));
    u.EmitStmt(st);
    Return0(u);
  }

  /** translate_probe: registers for the local variables, and the code. The
      statement may set the status, the register after those of the variables. */
  method TranslateProbe(st: Stmt, locals: nat, constraint: Option<int>, size: nat) returns (p: Program, limit: nat)
    requires WfStmt(st, MAX_BPF_REG + locals + 1) && (constraint.Some? ==> FitsInt32(constraint.value))
    ensures fresh(p) && limit == Limit(constraint) && p.stackLimit == size && p.maxTmpSpace == 8 && p.maxRegSpace == 0
    ensures var g := ProbeGen(st, MAX_BPF_REG + locals, limit);
      p.blocks == g.blocks && p.nregs == g.nregs && |p.prevs| == |p.blocks|
  {
    p := new Program(size);
    var u := new Unparser.Unparser(p);
    for k := 0 to locals
      invariant u.Valid() && u.prog == p && p.blocks == [] && p.nregs == MAX_BPF_REG + k
      invariant p.maxTmpSpace == p.maxRegSpace == 0
    {
      var r := p.NewReg();
    }
    limit := EmitProbe(u, st, constraint);
  }

  /** What a buffer holds after relocation: the code of a program that is a handler
      with these outcomes, in the encoder's form if the stack allows it. */
  ghost predicate HoldsHandler(buf: array<Raw>, rel: map<nat, int>, limit: nat, size: nat, may: Outcomes)
    reads buf
  {
    exists q ::
      Emitted(buf, rel, buf.Length, Code(q)) && IsHandler(q, limit, size, may) && (size <= 0x8000 ==> Encodable(q))
  }

  /** Every slot given out is within the stack. */
  lemma HistoryFits(front: seq<Block>, n0: nat, spilled: seq<nat>, maxTmp: nat, limit: nat)
    requires History(front, n0, spilled, maxTmp, limit)
    ensures SlotsFit(|spilled|, maxTmp, limit)
  {
    if spilled != [] { assert RoundNeeded(front, n0, spilled, |spilled| - 1, maxTmp, limit); }
  }

  lemma AlwaysHandles(st: Stmt, n: nat, limit: nat, q: seq<Block>, h: Homes, maxTmp: nat, maxReg: nat, size: nat)
    requires MAX_BPF_REG <= n && WfStmt(st, n + 4) && limit < 0x8000_0000
    requires Generated(ProbeGen(st, n, limit).blocks, q, h, maxTmp, maxReg) && Placed(h)
    requires StackCovers(h, maxTmp, maxReg, size)
    requires Accounts(st, n, h, maxTmp)
    ensures IsHandler(q, limit, size, EndsOf(st, n))
  {
    forall sem, args, mp, fp, k | RunsProbes(sem, mp, fp, size) && Small(q, args)
      ensures Handles(FlatStepping(sem, args, Code(q)), mp, limit, fp, k, EndsOf(st, n))
    {
      ProbeHandles(sem, args, st, n, limit, q, h, maxTmp, maxReg, size, mp, fp, k);
    }
  }

  /** What generate made of the probe. */
  ghost predicate Built(q: seq<Block>, st: Stmt, n: nat, limit: nat, h: Homes, maxReg: nat, size: nat) {
    MAX_BPF_REG <= n && WfStmt(st, n + 4) && limit < 0x8000_0000
    && Generated(ProbeGen(st, n, limit).blocks, q, h, 8, maxReg) && Placed(h) && StackCovers(h, 8, maxReg, size)
  }

  /** generate, for the program of a probe. */
  method GenerateProbe(p: Program, ghost st: Stmt, ghost n: nat, ghost limit: nat, size: nat)
    returns (ids: Result<seq<seq<nat>>>, ghost h: Homes, ghost front: seq<Block>)
    requires MAX_BPF_REG <= n && WfStmt(st, n + 4) && SlimStmt(st) && limit < 0x8000_0000 && 8 <= size < 0x1_0000_0000
    requires p.blocks == ProbeGen(st, n, limit).blocks && p.nregs == ProbeGen(st, n, limit).nregs
    requires |p.prevs| == |p.blocks| && p.maxTmpSpace == 8 && p.maxRegSpace == 0 && p.stackLimit == size
    modifies p
    ensures Reported(ProbeGen(st, n, limit).blocks, ProbeGen(st, n, limit).nregs, 8, front, h.spilled, size, ids.Err?)
    ensures ids.Ok? ==> Numbered(p.blocks, ids.value) && Deliverable(p.blocks, 8, p.maxRegSpace)
    ensures ids.Ok? ==> Built(p.blocks, st, n, limit, h, p.maxRegSpace, size)
  {
    ghost var g := ProbeGen(st, n, limit);
    ProbeSource(st, n, limit);
    ids, h, front := Generate(p);
    HistoryFits(front, LoweredRegs(g.blocks, g.nregs, 8), h.spilled, 8, size);
  }

  /** translate_probe and generate. */
  method BuildProbe(st: Stmt, locals: nat, constraint: Option<int>, size: nat)
    returns (p: Program, ids: Result<seq<seq<nat>>>, ghost h: Homes, ghost front: seq<Block>)
    requires WfStmt(st, MAX_BPF_REG + locals + 1) && SlimStmt(st) && (constraint.Some? ==> FitsInt32(constraint.value))
    requires 8 <= size < 0x1_0000_0000
    ensures fresh(p)
    ensures var g := ProbeGen(st, MAX_BPF_REG + locals, Limit(constraint));
      Reported(g.blocks, g.nregs, 8, front, h.spilled, size, ids.Err?)
    ensures ids.Ok? ==> Numbered(p.blocks, ids.value) && Deliverable(p.blocks, 8, p.maxRegSpace)
    ensures ids.Ok? ==> Built(p.blocks, st, MAX_BPF_REG + locals, Limit(constraint), h, p.maxRegSpace, size)
  {
    var limit;
    p, limit := TranslateProbe(st, locals, constraint, size);
    StmtMore(st, MAX_BPF_REG + locals + 1, MAX_BPF_REG + locals + 4);
    ids, h, front := GenerateProbe(p, st, MAX_BPF_REG + locals, limit, size);
  }

  /** From the statement of a probe to its bytecode. Where nothing was spilled, or
      the statement never sets the status, the buffer holds a handler with the
      outcomes of the statement; a failure is one of register allocation. */
  method CompileProbe(st: Stmt, locals: nat, constraint: Option<int>, size: nat)
    returns (res: Result<(array<Raw>, map<nat, int>)>, ghost h: Homes, ghost front: seq<Block>)
    requires WfStmt(st, MAX_BPF_REG + locals + 1) && SlimStmt(st) && (constraint.Some? ==> FitsInt32(constraint.value))
    requires 8 <= size < 0x1_0000_0000
    ensures res.Ok? && Accounts(st, MAX_BPF_REG + locals, h, 8) ==>
      HoldsHandler(res.value.0, res.value.1, Limit(constraint), size, EndsOf(st, MAX_BPF_REG + locals))
    ensures var g := ProbeGen(st, MAX_BPF_REG + locals, Limit(constraint));
      Reported(g.blocks, g.nregs, 8, front, h.spilled, size, res.Err?)
  {
    var p, ids;
    p, ids, h, front := BuildProbe(st, locals, constraint, size);
    if ids.Err? { return Err(ids.error), h, front; }
    var buf, rel := WriteProbe(p, ids.value, st, MAX_BPF_REG + locals, Limit(constraint), h, size);
    res := Ok((buf, rel));
  }

  /** output_probe, for what generate made of a probe. */
  method WriteProbe(p: Program, ids: seq<seq<nat>>, ghost st: Stmt, ghost n: nat, ghost limit: nat, ghost h: Homes,
                    ghost size: nat)
    returns (buf: array<Raw>, rel: map<nat, int>)
    requires Numbered(p.blocks, ids) && Deliverable(p.blocks, 8, p.maxRegSpace)
    requires Built(p.blocks, st, n, limit, h, p.maxRegSpace, size)
    modifies p
    ensures Accounts(st, n, h, 8) ==> HoldsHandler(buf, rel, limit, size, EndsOf(st, n))
  {
    ghost var q, maxReg := p.blocks, p.maxRegSpace;
    buf, rel := OutputProbe(p, ids);
    if Accounts(st, n, h, 8) { BufferHandles(buf, rel, st, n, limit, q, h, maxReg, size); }
  }

  lemma BufferHandles(buf: array<Raw>, rel: map<nat, int>, st: Stmt, n: nat, limit: nat, q: seq<Block>, h: Homes,
                      maxReg: nat, size: nat)
    requires Emitted(buf, rel, buf.Length, Code(q)) && (size <= 0x8000 ==> Encodable(q))
    requires Built(q, st, n, limit, h, maxReg, size) && Accounts(st, n, h, 8)
    ensures HoldsHandler(buf, rel, limit, size, EndsOf(st, n))
  {
    AlwaysHandles(st, n, limit, q, h, 8, maxReg, size);
    Holds(buf, rel, limit, size, EndsOf(st, n), q);
  }

  lemma Holds(buf: array<Raw>, rel: map<nat, int>, limit: nat, size: nat, may: Outcomes, q: seq<Block>)
    requires Emitted(buf, rel, buf.Length, Code(q)) && IsHandler(q, limit, size, may)
    requires size <= 0x8000 ==> Encodable(q)
    ensures HoldsHandler(buf, rel, limit, size, may)
  {
  }
}
