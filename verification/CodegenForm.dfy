/** What the code generator hands to generate: well-formed blocks that read no
    register before it is set but those the script reads, with no way back to the
    entry and no cycle of empty blocks, and with operands that lowering can treat
    exactly when no literal wider than 32 bits stands where an instruction would
    carry it. */
module CodegenForm {
  import opened Ir
  import opened Liveness
  import opened Script
  import opened Fixup
  import opened Codegen

  /** The registers an expression reads. */
  function Locals(e: Expr): set<nat> {
    match e
    case Lit(_) => {}
    case Local(r) => {r}
    case Bin(_, l, r) => Locals(l) + Locals(r)
    case Negate(a) => Locals(a)
    case Complement(a) => Locals(a)
    case Not(a) => Locals(a)
    case UnaryPlus(a) => Locals(a)
    case LogicalOr(l, r) => Locals(l) + Locals(r)
    case LogicalAnd(l, r) => Locals(l) + Locals(r)
    case Compare(_, l, r) => Locals(l) + Locals(r)
    case Ternary(c, y, n) => Locals(c) + Locals(y) + Locals(n)
  }

  // ----- blocks -----

  /** Instructions that stay in the block. */
  predicate Straight(ins: seq<Insn>, nregs: nat) {
    forall k | 0 <= k < |ins| :: WfInsn(ins[k], nregs) && !IsControl(ins[k].code) && FitsInt16(ins[k].off)
  }

  predicate Target(e: Option<nat>, n: nat) {
    e.Some? && 0 < e.value < n
  }

  predicate EndsInTest(ins: seq<Insn>, nregs: nat)
    requires ins != []
  {
    var last := |ins| - 1;
    Straight(ins[..last], nregs) && WfInsn(ins[last], nregs) && ins[last].code.Jcond? && FitsInt16(ins[last].off)
  }

  /** A block that leaves the program. */
  predicate ExitFits(b: Block, nregs: nat) {
    b.taken.None? && b.fallthru.None? && b.insns != [] && b.insns[|b.insns| - 1] == Insn(Exit, 0, None, None, None)
    && Straight(b.insns[..|b.insns| - 1], nregs)
  }

  /** A block generation has ended: never leading to the entry. */
  predicate Finished(b: Block, nregs: nat, n: nat) {
    if b.fallthru.None? then ExitFits(b, nregs)
    else if b.taken.None? then Target(b.fallthru, n) && Straight(b.insns, nregs)
    else Target(b.fallthru, n) && Target(b.taken, n) && b.insns != [] && EndsInTest(b.insns, nregs)
  }

  /** An empty block leads to an earlier block, or to the next one and from there
      to one before both. */
  predicate Descends(p: seq<Block>, b: nat)
    requires b < |p|
  {
    p[b].insns == [] && p[b].fallthru.Some? ==>
      var t := p[b].fallthru.value;
      0 < b
      && (t < b || (t == b + 1 && (t < |p| && p[t].insns == [] && p[t].fallthru.Some? ==> p[t].fallthru.value < b)))
  }

  // ----- the program under construction -----

  /** `todo` are the blocks not begun, `defs` the registers set whenever a block
      is entered, `have` those set at the end of the current block. */
  ghost predicate BlockFits(g: Gen, todo: set<nat>, defs: seq<set<nat>>, have: set<nat>, b: nat) {
    b < |g.blocks| == |defs|
    && var x := g.blocks[b];
       if b in todo then x == EMPTY
       else if g.cur == Some(b) then Straight(x.insns, g.nregs) && LiveBefore(x.insns, have) <= defs[b]
       else
         Finished(x, g.nregs, |g.blocks|) && Descends(g.blocks, b)
         && LiveBefore(x.insns, AtSuccs(x, defs)) <= defs[b]
  }

  ghost predicate Fits(g: Gen, todo: set<nat>, defs: seq<set<nat>>, have: set<nat>) {
    MAX_BPF_REG <= g.nregs && |defs| == |g.blocks| && 0 < |g.blocks|
    && (g.cur.Some? ==> Open(g) && g.cur.value !in todo) && (forall b | b in todo :: b < |g.blocks|)
    && forall b: nat {:trigger BlockFits(g, todo, defs, have, b)} | b < |g.blocks| :: BlockFits(g, todo, defs, have, b)
  }

  lemma FinishedMore(b: Block, nregs: nat, n: nat, nregs': nat, n': nat)
    requires Finished(b, nregs, n) && nregs <= nregs' && n <= n'
    ensures Finished(b, nregs', n')
  {
  }

  lemma RegFits(g: Gen, todo: set<nat>, defs: seq<set<nat>>, have: set<nat>)
    requires Fits(g, todo, defs, have)
    ensures Fits(WithReg(g), todo, defs, have)
  {
    var g' := WithReg(g);
    forall b: nat | b < |g'.blocks| ensures BlockFits(g', todo, defs, have, b) {
      assert BlockFits(g, todo, defs, have, b);
    }
  }

  /** A new block, whose entry is to have the registers d. */
  lemma NewBlockFits(g: Gen, todo: set<nat>, defs: seq<set<nat>>, have: set<nat>, d: set<nat>)
    requires Fits(g, todo, defs, have)
    ensures Fits(WithBlock(g), todo + {|g.blocks|}, defs + [d], have)
  {
    var g', todo', defs' := WithBlock(g), todo + {|g.blocks|}, defs + [d];
    forall b: nat | b < |g'.blocks| ensures BlockFits(g', todo', defs', have, b) {
      if b < |g.blocks| {
        assert BlockFits(g, todo, defs, have, b) && g'.blocks[b] == g.blocks[b];
        if b !in todo && g.cur != Some(b) { FinishedMore(g.blocks[b], g.nregs, |g.blocks|, g.nregs, |g'.blocks|); }
      }
    }
  }

  /** Generation moves on to a block not begun. */
  lemma IntoFits(g: Gen, todo: set<nat>, defs: seq<set<nat>>, have: set<nat>, b: nat)
    requires Fits(g, todo, defs, have) && g.cur.None? && b in todo && b < |g.blocks|
    ensures Fits(Into(g, b), todo - {b}, defs, defs[b])
  {
    var g', todo' := Into(g, b), todo - {b};
    assert BlockFits(g, todo, defs, have, b);
    forall x: nat | x < |g'.blocks| ensures BlockFits(g', todo', defs, defs[b], x) {
      assert BlockFits(g, todo, defs, have, x);
    }
  }

  lemma LiveAfterOne(ins: seq<Insn>, i: Insn, have: set<nat>, after: set<nat>, d: set<nat>)
    requires LiveBefore(ins, have) <= d && Uses(i) <= have && after <= have + Sets(i)
    ensures LiveBefore(ins + [i], after) <= d
  {
    LiveBeforeAppend(ins, [i], after);
    LiveBeforeOne(i, after);
    LiveBeforeMono(ins, LiveBefore([i], after), have);
  }

  lemma EmitFits(g: Gen, todo: set<nat>, defs: seq<set<nat>>, have: set<nat>, i: Insn)
    requires Fits(g, todo, defs, have) && Open(g) && WfInsn(i, g.nregs) && !IsControl(i.code) && FitsInt16(i.off)
    requires Uses(i) <= have
    ensures Fits(Emit(g, i), todo, defs, have + Sets(i))
  {
    var g', c := Emit(g, i), g.cur.value;
    assert BlockFits(g, todo, defs, have, c);
    LiveAfterOne(g.blocks[c].insns, i, have, have + Sets(i), defs[c]);
    forall b: nat | b < |g'.blocks| ensures BlockFits(g', todo, defs, have + Sets(i), b) {
      assert BlockFits(g, todo, defs, have, b);
    }
  }

  /** An operand the program has. */
  predicate Usable(g: Gen, have: set<nat>, v: Value) {
    Has(g, v) && if v.Reg? then v.r in have else FitsInt64(v.i)
  }

  lemma MovFits(g: Gen, todo: set<nat>, defs: seq<set<nat>>, have: set<nat>, d: nat, v: Value)
    requires Fits(g, todo, defs, have) && Open(g) && d < g.nregs && d != FRAME && Usable(g, have, v)
    ensures Fits(MkMov(g, d, v), todo, defs, have + {d})
  {
    if v == Reg(d) {
      assert have + {d} == have;
    } else {
      EmitFits(g, todo, defs, have, Mov(d, v));
    }
  }

  lemma NegFits(g: Gen, todo: set<nat>, defs: seq<set<nat>>, have: set<nat>, d: nat, v: Value)
    requires Fits(g, todo, defs, have) && Open(g) && d < g.nregs && d != FRAME && Usable(g, have, v)
    ensures Fits(MkNeg(g, d, v), todo, defs, have + {d})
  {
    var i := Insn(Neg, 0, Some(d), Some(Reg(d)), None);
    MovFits(g, todo, defs, have, d, v);
    MovContinues(g, d, v);
    EmitFits(MkMov(g, d, v), todo, defs, have + {d}, i);
    assert have + {d} + Sets(i) == have + {d};
  }

  lemma BinaryFits(g: Gen, todo: set<nat>, defs: seq<set<nat>>, have: set<nat>, op: AluOp, d: nat, s0: Value, s1: Value)
    requires Fits(g, todo, defs, have) && Open(g) && d < g.nregs && d != FRAME && Usable(g, have, s0)
    requires Usable(g, have, s1)
    ensures Fits(MkBinary(g, op, d, s0, s1), todo, defs, have + {d})
  {
    if op.Sub? && s0 == Imm(0) {
      NegFits(g, todo, defs, have, d, s1);
    } else {
      EmitFits(g, todo, defs, have, Insn(Alu(op, s1.Reg?), 0, Some(d), Some(s0), Some(s1)));
    }
  }

  /** Where a jump may go: a block whose entry asks for nothing more. */
  ghost predicate MayJumpTo(defs: seq<set<nat>>, have: set<nat>, t: nat) {
    0 < t < |defs| && defs[t] <= have
  }

  /** A jump out of an empty block goes back, or to the next block when no other
      empty block leads here. */
  ghost predicate JumpsBack(g: Gen, todo: set<nat>, t: nat)
    requires Open(g)
  {
    var c := g.cur.value;
    g.blocks[c].insns != [] || (0 < c && t in todo && (t < c || (t == c + 1 && !LeadsTo(g.blocks[c - 1], c))))
  }

  predicate LeadsTo(b: Block, t: nat) {
    b.insns == [] && b.fallthru == Some(t)
  }

  lemma JmpFits(g: Gen, todo: set<nat>, defs: seq<set<nat>>, have: set<nat>, t: nat)
    requires Fits(g, todo, defs, have) && Open(g) && JumpsBack(g, todo, t) && MayJumpTo(defs, have, t)
    ensures Fits(EmitJmp(g, t), todo, defs, {}) && EmitJmp(g, t).cur.None?
  {
    var g', c := EmitJmp(g, t), g.cur.value;
    assert BlockFits(g, todo, defs, have, c);
    LiveBeforeMono(g.blocks[c].insns, defs[t], have);
    assert AtSuccs(g'.blocks[c], defs) == defs[t];
    if t in todo { assert BlockFits(g, todo, defs, have, t); }
    forall b: nat | b < |g'.blocks| ensures BlockFits(g', todo, defs, {}, b) {
      assert BlockFits(g, todo, defs, have, b);
    }
  }

  /** The test mk_jcond appends: over the operands given, to the blocks given. */
  lemma JcondForm(g: Gen, defs: seq<set<nat>>, have: set<nat>, c: Cond, s0: Value, s1: Value, t: nat, f: nat)
    returns (i: Insn)
    requires Open(g) && |defs| == |g.blocks| && Usable(g, have, s0) && Usable(g, have, s1) && MayJumpTo(defs, have, t)
    requires MayJumpTo(defs, have, f)
    ensures var b, b' := g.blocks[g.cur.value], MkJcond(g, c, s0, s1, t, f).blocks[g.cur.value];
      b'.insns == b.insns + [i] && AtSuccs(b', defs) <= have && Target(b'.taken, |defs|) && Target(b'.fallthru, |defs|)
    ensures WfInsn(i, g.nregs) && i.code.Jcond? && FitsInt16(i.off) && Uses(i) <= have
  {
    var k := g.cur.value;
    i := MkJcond(g, c, s0, s1, t, f).blocks[k].insns[|g.blocks[k].insns|];
  }

  lemma JcondFits(g: Gen, todo: set<nat>, defs: seq<set<nat>>, have: set<nat>, c: Cond, s0: Value, s1: Value, t: nat,
                  f: nat)
    requires Fits(g, todo, defs, have) && Open(g) && Usable(g, have, s0) && Usable(g, have, s1)
    requires MayJumpTo(defs, have, t) && MayJumpTo(defs, have, f)
    ensures Fits(MkJcond(g, c, s0, s1, t, f), todo, defs, {}) && MkJcond(g, c, s0, s1, t, f).cur.None?
  {
    var i := JcondForm(g, defs, have, c, s0, s1, t, f);
    TestEndsBlock(g, MkJcond(g, c, s0, s1, t, f), todo, defs, have, i);
  }

  lemma TestEndsBlock(g: Gen, g': Gen, todo: set<nat>, defs: seq<set<nat>>, have: set<nat>, i: Insn)
    requires Fits(g, todo, defs, have) && Open(g) && |g'.blocks| == |g.blocks|
    requires g' == Gen(g.blocks[g.cur.value := g'.blocks[g.cur.value]], g.nregs, None)
    requires var b, b' := g.blocks[g.cur.value], g'.blocks[g.cur.value];
      b'.insns == b.insns + [i] && AtSuccs(b', defs) <= have && Target(b'.taken, |defs|) && Target(b'.fallthru, |defs|)
    requires WfInsn(i, g.nregs) && i.code.Jcond? && FitsInt16(i.off) && Uses(i) <= have
    ensures Fits(g', todo, defs, {})
  {
    var k := g.cur.value;
    var ins, ins' := g.blocks[k].insns, g'.blocks[k].insns;
    assert BlockFits(g, todo, defs, have, k);
    assert ins'[..|ins'| - 1] == ins;
    LiveAfterOne(ins, i, have, AtSuccs(g'.blocks[k], defs), defs[k]);
    forall b: nat | b < |g'.blocks| ensures BlockFits(g', todo, defs, {}, b) {
      assert BlockFits(g, todo, defs, have, b);
    }
  }

  // ----- expressions and conditions -----

  /** Registers and blocks only gain. */
  ghost predicate Gains(defs: seq<set<nat>>, have: set<nat>, defs': seq<set<nat>>, have': set<nat>) {
    defs <= defs' && have <= have'
  }

  /** emit_expr keeps the program fit, and has its result. */
  lemma {:induction false} ExprFits(e: Expr, g: Gen, todo: set<nat>, defs: seq<set<nat>>, have: set<nat>)
    returns (defs': seq<set<nat>>, have': set<nat>)
    requires Open(g) && Fits(g, todo, defs, have) && WfExpr(e, g.nregs) && Locals(e) <= have
    ensures Fits(GenExpr(e, g).0, todo, defs', have') && Gains(defs, have, defs', have')
    ensures Usable(GenExpr(e, g).0, have', GenExpr(e, g).1)
    decreases e, if IsLogical(e) then 3 else 0, 3
  {
    match e
    case Lit(_) => defs', have' := defs, have;
    case Local(_) => defs', have' := defs, have;
    case UnaryPlus(a) => defs', have' := ExprFits(a, g, todo, defs, have);
    case Bin(op, l, r) => defs', have' := BinFits(e, g, todo, defs, have);
    case Negate(a) => defs', have' := UnaryFits(e, g, todo, defs, have);
    case Complement(a) => defs', have' := UnaryFits(e, g, todo, defs, have);
    case Ternary(_, _, _) => defs', have' := TernaryFits(e, g, todo, defs, have);
    case _ => defs', have' := BoolFits(e, g, todo, defs, have);
  }

  lemma {:induction false} UnaryFits(e: Expr, g: Gen, todo: set<nat>, defs: seq<set<nat>>, have: set<nat>)
    returns (defs': seq<set<nat>>, have': set<nat>)
    requires e.Negate? || e.Complement?
    requires Open(g) && Fits(g, todo, defs, have) && WfExpr(e, g.nregs) && Locals(e) <= have
    ensures Fits(GenExpr(e, g).0, todo, defs', have') && Gains(defs, have, defs', have')
    ensures Usable(GenExpr(e, g).0, have', GenExpr(e, g).1)
    decreases e, 0, 0
  {
    ExprContinues(e, g);
    ExprContinues(e.arg, g);
    var (g1, v) := GenExpr(e.arg, g);
    defs', have' := ExprFits(e.arg, g, todo, defs, have);
    RegFits(g1, todo, defs', have');
    if e.Negate? {
      NegFits(WithReg(g1), todo, defs', have', g1.nregs, v);
    } else {
      BinaryFits(WithReg(g1), todo, defs', have', Xor, g1.nregs, v, Imm(-1));
    }
    have' := have' + {g1.nregs};
  }

  lemma {:induction false} BinFits(e: Expr, g: Gen, todo: set<nat>, defs: seq<set<nat>>, have: set<nat>)
    returns (defs': seq<set<nat>>, have': set<nat>)
    requires e.Bin?
    requires Open(g) && Fits(g, todo, defs, have) && WfExpr(e, g.nregs) && Locals(e) <= have
    ensures Fits(GenExpr(e, g).0, todo, defs', have') && Gains(defs, have, defs', have')
    ensures Usable(GenExpr(e, g).0, have', GenExpr(e, g).1)
    decreases e, 0, 0
  {
    LeftContinues(e, g);
    RegFits(g, todo, defs, have);
    WfMore(e.left, g.nregs, g.nregs + 1);
    var defs1, have1 := ExprFits(e.left, WithReg(g), todo, defs, have);
    var (g1, v0) := GenExpr(e.left, WithReg(g));
    MovFits(g1, todo, defs1, have1, g.nregs, v0);
    var g2 := LeftGen(e, g);
    defs', have' := ExprFits(e.right, g2, todo, defs1, have1 + {g.nregs});
    ExprContinues(e.right, g2);
    var (g3, v1) := GenExpr(e.right, g2);
    RegFits(g3, todo, defs', have');
    BinaryFits(WithReg(g3), todo, defs', have', CodeOf(e.op), g3.nregs, Reg(g.nregs), v1);
    ExprContinues(e, g);
    have' := have' + {g3.nregs};
  }

  /** A conditional expression up to the copy of its first value: the join block
      will have r, the other one only what is had now. */
  lemma {:induction false} YesFits(e: Expr, g: Gen, todo: set<nat>, defs: seq<set<nat>>, have: set<nat>)
    returns (defs': seq<set<nat>>, have': set<nat>)
    requires e.Ternary?
    requires Open(g) && Fits(g, todo, defs, have) && WfExpr(e, g.nregs) && Locals(e) <= have
    ensures var join := |g.blocks|;
      Fits(YesGen(e, g), todo + {join} + {join + 1}, defs', have')
      && Gains(defs + [have + {g.nregs}] + [have], have + {g.nregs}, defs', have')
    decreases e, 0, 0
  {
    var r, g1 := g.nregs, WithReg(WithBlock(g));
    YesContinues(e, g);
    NewBlockFits(g, todo, defs, have, have + {r});
    RegFits(WithBlock(g), todo + {|g.blocks|}, defs + [have + {r}], have);
    NewBlockFits(g1, todo + {|g.blocks|}, defs + [have + {r}], have, have);
    WfMore(e.yes, g.nregs, g1.nregs);
    var todo', g2 := todo + {|g.blocks|} + {|g.blocks| + 1}, WithBlock(g1);
    defs', have' := ExprFits(e.yes, g2, todo', defs + [have + {r}] + [have], have);
    var (g3, v) := GenExpr(e.yes, g2);
    MovFits(g3, todo', defs', have', r, v);
    have' := have' + {r};
  }

  lemma {:induction false} ElseFits(e: Expr, g: Gen, todo: set<nat>, defs: seq<set<nat>>, have: set<nat>)
    returns (defs': seq<set<nat>>)
    requires e.Ternary?
    requires Open(g) && Fits(g, todo, defs, have) && WfExpr(e, g.nregs) && Locals(e) <= have
    ensures var join := |g.blocks|;
      Fits(ElseGen(e, g), todo + {join}, defs', have) && defs + [have + {g.nregs}] + [have] <= defs'
    decreases e, 0, 1
  {
    var join, g1 := |g.blocks|, YesGen(e, g);
    YesContinues(e, g);
    var defs1, have1 := YesFits(e, g, todo, defs, have);
    var todo1 := todo + {join} + {join + 1};
    assert defs1[join] == have + {g.nregs} && defs1[join + 1] == have;
    defs' := CondFits(e.cond, join, join + 1, g1, todo1, defs1, have1);
    IntoFits(GenCond(e.cond, join, join + 1, g1), todo1, defs', {}, join + 1);
    assert todo1 - {join + 1} == todo + {join};
  }

  lemma {:induction false} TernaryFits(e: Expr, g: Gen, todo: set<nat>, defs: seq<set<nat>>, have: set<nat>)
    returns (defs': seq<set<nat>>, have': set<nat>)
    requires e.Ternary?
    requires Open(g) && Fits(g, todo, defs, have) && WfExpr(e, g.nregs) && Locals(e) <= have
    ensures Fits(GenExpr(e, g).0, todo, defs', have') && Gains(defs, have, defs', have')
    ensures Usable(GenExpr(e, g).0, have', GenExpr(e, g).1)
    decreases e, 0, 2
  {
    var defs1 := ElseFits(e, g, todo, defs, have);
    ElseOpens(e, g);
    defs' := NoFits(e, ElseGen(e, g), todo, defs1, have, g.nregs, |g.blocks|);
    have' := have + {g.nregs};
    TernaryForm(e, g);
    ExprContinues(e, g);
  }

  /** The second branch, and on to the join block. */
  lemma {:induction false} NoFits(e: Expr, g: Gen, todo: set<nat>, defs: seq<set<nat>>, have: set<nat>, r: nat,
                                  join: nat)
    returns (defs': seq<set<nat>>)
    requires e.Ternary? && MAX_BPF_REG <= r < g.nregs && WfExpr(e.no, r) && 0 < join < |defs|
    requires defs[join] == have + {r}
    requires Open(g) && join !in todo && Fits(g, todo + {join}, defs, have) && Locals(e) <= have
    ensures var (g1, v) := GenExpr(e.no, g);
      Fits(Into(EmitJmp(MkMov(g1, r, v), join), join), todo, defs', have + {r}) && defs <= defs'
    decreases e, 0, 0
  {
    WfMore(e.no, r, g.nregs);
    var have';
    defs', have' := ExprFits(e.no, g, todo + {join}, defs, have);
    ExprContinues(e.no, g);
    WfResult(e.no, r, g);
    var (g1, v) := GenExpr(e.no, g);
    JoinFits(g1, todo, defs', have', r, v, join);
  }

  /** The end of a branch: move, jump to the join block, go on there. */
  lemma JoinFits(g: Gen, todo: set<nat>, defs: seq<set<nat>>, have: set<nat>, r: nat, v: Value, join: nat)
    requires Open(g) && join !in todo && Fits(g, todo + {join}, defs, have) && MAX_BPF_REG <= r < g.nregs
    requires Usable(g, have, v) && v != Reg(r)
    requires MayJumpTo(defs, have + {r}, join)
    ensures Fits(Into(EmitJmp(MkMov(g, r, v), join), join), todo, defs, defs[join])
  {
    MovFits(g, todo + {join}, defs, have, r, v);
    MovContinues(g, r, v);
    JmpFits(MkMov(g, r, v), todo + {join}, defs, have + {r}, join);
    IntoFits(EmitJmp(MkMov(g, r, v), join), todo + {join}, defs, {}, join);
    assert todo + {join} - {join} == todo;
  }

  /** emit_bool keeps the program fit. */
  lemma {:induction false} BoolFits(e: Expr, g: Gen, todo: set<nat>, defs: seq<set<nat>>, have: set<nat>)
    returns (defs': seq<set<nat>>, have': set<nat>)
    requires IsLogical(e)
    requires Open(g) && Fits(g, todo, defs, have) && WfExpr(e, g.nregs) && Locals(e) <= have
    ensures Fits(GenBool(e, g).0, todo, defs', have') && Gains(defs, have, defs', have')
    ensures Usable(GenBool(e, g).0, have', GenBool(e, g).1)
    decreases e, 2
  {
    var other, join, r, d := |g.blocks|, |g.blocks| + 1, g.nregs, have + {g.nregs};
    var g1 := WithBlock(WithBlock(g));
    NewBlockFits(g, todo, defs, have, d);
    NewBlockFits(WithBlock(g), todo + {other}, defs + [d], have, d);
    RegFits(g1, todo + {other} + {join}, defs + [d] + [d], have);
    OneContinues(g);
    var todo1 := todo + {other} + {join};
    MovFits(WithReg(g1), todo1, defs + [d] + [d], have, r, Imm(1));
    WfMore(e, g.nregs, g.nregs + 1);
    var defs1 := CondFits(e, join, other, OneGen(g), todo1, defs + [d] + [d], d);
    CondEnds(e, join, other, OneGen(g));
    var g2 := GenCond(e, join, other, OneGen(g));
    Resume(g, OneGen(g), g2, other);
    IntoFits(g2, todo1, defs1, {}, other);
    assert todo1 - {other} == todo + {join};
    JoinFits(Into(g2, other), todo, defs1, d, r, Imm(0), join);
    defs', have' := defs1, d;
  }

  /** emit_cond keeps the program fit. */
  lemma {:induction false} CondFits(e: Expr, t: nat, f: nat, g: Gen, todo: set<nat>, defs: seq<set<nat>>,
                                    have: set<nat>)
    returns (defs': seq<set<nat>>)
    requires Open(g) && Fits(g, todo, defs, have) && WfExpr(e, g.nregs) && Locals(e) <= have
    requires MayJumpTo(defs, have, t) && MayJumpTo(defs, have, f)
    ensures Fits(GenCond(e, t, f, g), todo, defs', {}) && defs <= defs' && GenCond(e, t, f, g).cur.None?
    decreases e, 1
  {
    match e
    case LogicalOr(l, r) => defs' := PairFits(e, t, |g.blocks|, t, f, g, todo, defs, have);
    case LogicalAnd(l, r) => defs' := PairFits(e, |g.blocks|, f, t, f, g, todo, defs, have);
    case Not(a) => defs' := CondFits(a, f, t, g, todo, defs, have);
    case Compare(c, l, r) => defs' := TestFits(e, CondOf(c), t, f, g, todo, defs, have);
    case Bin(BitAnd, l, r) => defs' := TestFits(e, TEST, t, f, g, todo, defs, have);
    case _ => defs' := PlainFits(e, t, f, g, todo, defs, have);
  }

  lemma {:induction false} PlainFits(e: Expr, t: nat, f: nat, g: Gen, todo: set<nat>, defs: seq<set<nat>>,
                                     have: set<nat>)
    returns (defs': seq<set<nat>>)
    requires IsPlain(e) && Open(g) && Fits(g, todo, defs, have) && WfExpr(e, g.nregs) && Locals(e) <= have
    requires MayJumpTo(defs, have, t) && MayJumpTo(defs, have, f)
    ensures Fits(GenCond(e, t, f, g), todo, defs', {}) && defs <= defs' && GenCond(e, t, f, g).cur.None?
    decreases e, 0, 4
  {
    var have';
    defs', have' := ExprFits(e, g, todo, defs, have);
    ExprContinues(e, g);
    PlainCond(e, t, f, g);
    JcondFits(GenExpr(e, g).0, todo, defs', have', NE, GenExpr(e, g).1, Imm(0), t, f);
  }

  lemma {:induction false} PairFits(e: Expr, lt: nat, lf: nat, t: nat, f: nat, g: Gen, todo: set<nat>,
                                    defs: seq<set<nat>>, have: set<nat>)
    returns (defs': seq<set<nat>>)
    requires (e.LogicalOr? || e.LogicalAnd?) && Open(g) && Fits(g, todo, defs, have) && WfExpr(e, g.nregs)
    requires Locals(e) <= have
    requires MayJumpTo(defs, have, t) && MayJumpTo(defs, have, f)
    requires lt in {t, |g.blocks|} && lf in {f, |g.blocks|}
    ensures var g' := GenCond(e.right, t, f, Into(GenCond(e.left, lt, lf, WithBlock(g)), |g.blocks|));
      Fits(g', todo, defs', {}) && defs <= defs' && g'.cur.None?
    decreases e, 0
  {
    var next, g0 := |g.blocks|, WithBlock(g);
    PairEnds(e, lt, lf, t, f, g);
    NewBlockFits(g, todo, defs, have, have);
    var defs1 := CondFits(e.left, lt, lf, g0, todo + {next}, defs + [have], have);
    var g1 := GenCond(e.left, lt, lf, g0);
    IntoFits(g1, todo + {next}, defs1, {}, next);
    assert todo + {next} - {next} == todo;
    defs' := CondFits(e.right, t, f, Into(g1, next), todo, defs1, have);
  }

  lemma {:induction false} TestFits(e: Expr, c: Cond, t: nat, f: nat, g: Gen, todo: set<nat>, defs: seq<set<nat>>,
                                    have: set<nat>)
    returns (defs': seq<set<nat>>)
    requires (e.Bin? || e.Compare?) && Open(g) && Fits(g, todo, defs, have) && WfExpr(e, g.nregs) && Locals(e) <= have
    requires MayJumpTo(defs, have, t) && MayJumpTo(defs, have, f)
    ensures var (g1, v0) := GenExpr(e.left, g);
      var (g2, v1) := GenExpr(e.right, g1);
      var g' := MkJcond(g2, c, v0, v1, t, f);
      Fits(g', todo, defs', {}) && defs <= defs' && g'.cur.None?
    decreases e, 0
  {
    TestEnds(e, c, t, f, g);
    var defs1, have1 := ExprFits(e.left, g, todo, defs, have);
    var (g1, v0) := GenExpr(e.left, g);
    var have2;
    defs', have2 := ExprFits(e.right, g1, todo, defs1, have1);
    var (g2, v1) := GenExpr(e.right, g1);
    JcondFits(g2, todo, defs', have2, c, v0, v1, t, f);
  }

  // ----- which literals lowering can treat -----

  /** The literal an expression is, if it is one. */
  function LitOf(e: Expr): Option<int> {
    match e
    case Lit(i) => Some(i)
    case UnaryPlus(a) => LitOf(a)
    case _ => None
  }

  predicate TooWide(e: Expr) {
    LitOf(e).Some? && !FitsInt32(LitOf(e).value)
  }

  /** The operand a test carries as an immediate, after mk_jcond has put a
      register first where there is one. */
  predicate SlimTest(l: Expr, r: Expr) {
    if LitOf(l).Some? && LitOf(r).None? then !TooWide(l) else !TooWide(r)
  }

  /** No literal wider than 32 bits stands where an instruction other than a
      move would carry it. */
  predicate Slim(e: Expr)
    decreases e, if IsLogical(e) then 2 else 0
  {
    match e
    case Lit(_) => true
    case Local(_) => true
    case UnaryPlus(a) => Slim(a)
    case Bin(_, l, r) => Slim(l) && Slim(r) && !TooWide(r)
    case Negate(a) => Slim(a)
    case Complement(a) => Slim(a)
    case Ternary(c, y, n) => SlimCond(c) && Slim(y) && Slim(n)
    case _ => SlimCond(e)
  }

  /** The same, where the expression is a condition. */
  predicate SlimCond(e: Expr)
    decreases e, 1
  {
    match e
    case LogicalOr(l, r) => SlimCond(l) && SlimCond(r)
    case LogicalAnd(l, r) => SlimCond(l) && SlimCond(r)
    case Not(a) => SlimCond(a)
    case Compare(_, l, r) => Slim(l) && Slim(r) && SlimTest(l, r)
    case Bin(BitAnd, l, r) => Slim(l) && Slim(r) && SlimTest(l, r)
    case _ => Slim(e)
  }

  lemma {:induction false} ResultLit(e: Expr, g: Gen)
    ensures var v := GenExpr(e, g).1; if LitOf(e).Some? then v == Imm(LitOf(e).value) else v.Reg?
    decreases e
  {
    if e.UnaryPlus? { ResultLit(e.arg, g); }
  }

  /** Appending to a block asks only that the new instruction is ready. */
  lemma ReadyAppend(p: seq<Block>, c: nat, b: Block, i: Insn)
    requires c < |p| && b.insns == p[c].insns + [i]
    ensures AllReady(p[c := b]) <==> AllReady(p) && FixReady(i)
  {
    var q, n := p[c := b], |p[c].insns|;
    if AllReady(q) {
      assert ReadyInsns(q[c].insns) && q[c].insns[n] == i;
      forall x | 0 <= x < |p| ensures ReadyInsns(p[x].insns) {
        assert ReadyInsns(q[x].insns);
        if x == c { forall k | 0 <= k < n ensures FixReady(p[c].insns[k]) { assert q[c].insns[k] == p[c].insns[k]; } }
      }
    }
    if AllReady(p) && FixReady(i) {
      forall x | 0 <= x < |q| ensures ReadyInsns(q[x].insns) {
        assert ReadyInsns(p[x].insns);
      }
    }
  }

  lemma ReadyBlock(g: Gen)
    ensures AllReady(WithBlock(g).blocks) <==> AllReady(g.blocks)
  {
    var q := WithBlock(g).blocks;
    if AllReady(q) {
      forall x | 0 <= x < |g.blocks| ensures ReadyInsns(g.blocks[x].insns) { assert q[x] == g.blocks[x]; }
    }
  }

  lemma ReadyMov(g: Gen, d: nat, v: Value)
    requires Open(g)
    ensures AllReady(MkMov(g, d, v).blocks) <==> AllReady(g.blocks)
  {
    var c := g.cur.value;
    ReadyAppend(g.blocks, c, g.blocks[c].(insns := g.blocks[c].insns + [Mov(d, v)]), Mov(d, v));
  }

  lemma ReadyEmit(g: Gen, i: Insn)
    requires Open(g)
    ensures AllReady(Emit(g, i).blocks) <==> AllReady(g.blocks) && FixReady(i)
  {
    var c := g.cur.value;
    ReadyAppend(g.blocks, c, g.blocks[c].(insns := g.blocks[c].insns + [i]), i);
  }

  lemma ReadyNeg(g: Gen, d: nat, v: Value)
    requires Open(g)
    ensures AllReady(MkNeg(g, d, v).blocks) <==> AllReady(g.blocks)
  {
    ReadyMov(g, d, v);
    MovContinues(g, d, v);
    ReadyEmit(MkMov(g, d, v), Insn(Neg, 0, Some(d), Some(Reg(d)), None));
  }

  lemma ReadyBinary(g: Gen, op: AluOp, d: nat, s0: Value, s1: Value)
    requires Open(g) && (s1 != Reg(d) || s0 == Reg(d)) && !(op.Sub? && s0 == Imm(0))
    ensures AllReady(MkBinary(g, op, d, s0, s1).blocks) <==> AllReady(g.blocks) && (s1.Imm? ==> FitsInt32(s1.i))
  {
    ReadyEmit(g, Insn(Alu(op, s1.Reg?), 0, Some(d), Some(s0), Some(s1)));
  }

  lemma ReadyJmp(g: Gen, t: nat)
    requires Open(g)
    ensures AllReady(EmitJmp(g, t).blocks) <==> AllReady(g.blocks)
  {
    var q := EmitJmp(g, t).blocks;
    assert forall x | 0 <= x < |q| :: q[x].insns == g.blocks[x].insns;
  }

  lemma ReadyJcond(g: Gen, c: Cond, s0: Value, s1: Value, t: nat, f: nat)
    requires Open(g)
    ensures var b := if Swaps(s0, s1) then s0 else s1;
      AllReady(MkJcond(g, c, s0, s1, t, f).blocks) <==> AllReady(g.blocks) && (b.Imm? ==> FitsInt32(b.i))
  {
    var k, q := g.cur.value, MkJcond(g, c, s0, s1, t, f).blocks;
    var i := q[k].insns[|g.blocks[k].insns|];
    ReadyAppend(g.blocks, k, q[k], i);
    assert q == g.blocks[k := q[k]];
  }

  /** emit_expr keeps the program ready for lowering exactly on slim
      expressions. */
  lemma {:induction false} ExprReady(e: Expr, g: Gen)
    requires Open(g) && WfExpr(e, g.nregs)
    ensures AllReady(GenExpr(e, g).0.blocks) <==> AllReady(g.blocks) && Slim(e)
    decreases e, if IsLogical(e) then 3 else 0, 2
  {
    match e
    case Lit(_) =>
    case Local(_) =>
    case UnaryPlus(a) => ExprReady(a, g);
    case Bin(op, l, r) => BinReady(e, g);
    case Negate(a) =>
      ExprReady(a, g);
      ExprContinues(a, g);
      var (g1, v) := GenExpr(a, g);
      ReadyNeg(WithReg(g1), g1.nregs, v);
    case Complement(a) =>
      ExprReady(a, g);
      ExprContinues(a, g);
      var (g1, v) := GenExpr(a, g);
      ReadyBinary(WithReg(g1), Xor, g1.nregs, v, Imm(-1));
    case Ternary(_, _, _) => TernaryReady(e, g);
    case _ => BoolReady(e, g);
  }

  lemma {:induction false} BinReady(e: Expr, g: Gen)
    requires e.Bin? && Open(g) && WfExpr(e, g.nregs)
    ensures AllReady(GenExpr(e, g).0.blocks) <==> AllReady(g.blocks) && Slim(e)
    decreases e, 0, 0
  {
    LeftContinues(e, g);
    WfMore(e.left, g.nregs, g.nregs + 1);
    ExprReady(e.left, WithReg(g));
    var (g1, v0) := GenExpr(e.left, WithReg(g));
    ReadyMov(g1, g.nregs, v0);
    var g2 := LeftGen(e, g);
    ExprReady(e.right, g2);
    ExprContinues(e.right, g2);
    var (g3, v1) := GenExpr(e.right, g2);
    ResultLit(e.right, g2);
    ReadyBinary(WithReg(g3), CodeOf(e.op), g3.nregs, Reg(g.nregs), v1);
  }

  lemma {:induction false} TernaryReady(e: Expr, g: Gen)
    requires e.Ternary? && Open(g) && WfExpr(e, g.nregs)
    ensures AllReady(GenExpr(e, g).0.blocks) <==> AllReady(g.blocks) && Slim(e)
    decreases e, 0, 0
  {
    var join, r := |g.blocks|, g.nregs;
    YesContinues(e, g);
    ReadyBlock(g);
    ReadyBlock(WithReg(WithBlock(g)));
    var g0, g1 := WithBlock(WithReg(WithBlock(g))), YesGen(e, g);
    WfMore(e.yes, g.nregs, g0.nregs);
    ExprReady(e.yes, g0);
    ReadyMov(GenExpr(e.yes, g0).0, r, GenExpr(e.yes, g0).1);
    CondReady(e.cond, join, join + 1, g1);
    CondEnds(e.cond, join, join + 1, g1);
    var g2 := GenCond(e.cond, join, join + 1, g1);
    Resume(g, g1, g2, join + 1);
    var g3 := Into(g2, join + 1);
    WfMore(e.no, g.nregs, g3.nregs);
    ExprReady(e.no, g3);
    ExprContinues(e.no, g3);
    var (g4, v) := GenExpr(e.no, g3);
    ReadyMov(g4, r, v);
    MovContinues(g4, r, v);
    ReadyJmp(MkMov(g4, r, v), join);
  }

  lemma {:induction false} BoolReady(e: Expr, g: Gen)
    requires IsLogical(e) && Open(g) && WfExpr(e, g.nregs)
    ensures AllReady(GenBool(e, g).0.blocks) <==> AllReady(g.blocks) && SlimCond(e)
    decreases e, 2
  {
    var other, join, r := |g.blocks|, |g.blocks| + 1, g.nregs;
    OneContinues(g);
    ReadyBlock(g);
    ReadyBlock(WithBlock(g));
    ReadyMov(WithReg(WithBlock(WithBlock(g))), r, Imm(1));
    WfMore(e, g.nregs, g.nregs + 1);
    CondReady(e, join, other, OneGen(g));
    CondEnds(e, join, other, OneGen(g));
    var g2 := GenCond(e, join, other, OneGen(g));
    Resume(g, OneGen(g), g2, other);
    ReadyMov(Into(g2, other), r, Imm(0));
    MovContinues(Into(g2, other), r, Imm(0));
    ReadyJmp(MkMov(Into(g2, other), r, Imm(0)), join);
  }

  /** emit_cond keeps the program ready for lowering exactly on slim
      conditions. */
  lemma {:induction false} CondReady(e: Expr, t: nat, f: nat, g: Gen)
    requires Open(g) && WfExpr(e, g.nregs)
    ensures AllReady(GenCond(e, t, f, g).blocks) <==> AllReady(g.blocks) && SlimCond(e)
    decreases e, 1
  {
    match e
    case LogicalOr(l, r) => PairReady(e, t, |g.blocks|, t, f, g);
    case LogicalAnd(l, r) => PairReady(e, |g.blocks|, f, t, f, g);
    case Not(a) => CondReady(a, f, t, g);
    case Compare(c, l, r) => TestReady(e, CondOf(c), t, f, g);
    case Bin(BitAnd, l, r) => TestReady(e, TEST, t, f, g);
    case _ => PlainReady(e, t, f, g);
  }

  lemma {:induction false} PlainReady(e: Expr, t: nat, f: nat, g: Gen)
    requires IsPlain(e) && Open(g) && WfExpr(e, g.nregs)
    ensures AllReady(GenCond(e, t, f, g).blocks) <==> AllReady(g.blocks) && Slim(e)
    decreases e, 0, 3
  {
    PlainCond(e, t, f, g);
    ExprReady(e, g);
    ExprContinues(e, g);
    ReadyJcond(GenExpr(e, g).0, NE, GenExpr(e, g).1, Imm(0), t, f);
  }

  lemma {:induction false} PairReady(e: Expr, lt: nat, lf: nat, t: nat, f: nat, g: Gen)
    requires (e.LogicalOr? || e.LogicalAnd?) && Open(g) && WfExpr(e, g.nregs)
    ensures AllReady(GenCond(e.right, t, f, Into(GenCond(e.left, lt, lf, WithBlock(g)), |g.blocks|)).blocks)
            <==> AllReady(g.blocks) && SlimCond(e.left) && SlimCond(e.right)
    decreases e, 0
  {
    PairEnds(e, lt, lf, t, f, g);
    ReadyBlock(g);
    CondReady(e.left, lt, lf, WithBlock(g));
    CondReady(e.right, t, f, Into(GenCond(e.left, lt, lf, WithBlock(g)), |g.blocks|));
  }

  lemma {:induction false} TestReady(e: Expr, c: Cond, t: nat, f: nat, g: Gen)
    requires (e.Bin? || e.Compare?) && Open(g) && WfExpr(e, g.nregs)
    ensures var (g1, v0) := GenExpr(e.left, g);
      var (g2, v1) := GenExpr(e.right, g1);
      AllReady(MkJcond(g2, c, v0, v1, t, f).blocks) <==>
      AllReady(g.blocks) && Slim(e.left) && Slim(e.right) && SlimTest(e.left, e.right)
    decreases e, 0
  {
    TestEnds(e, c, t, f, g);
    ExprReady(e.left, g);
    var (g1, v0) := GenExpr(e.left, g);
    ExprReady(e.right, g1);
    var (g2, v1) := GenExpr(e.right, g1);
    ResultLit(e.left, g);
    ResultLit(e.right, g1);
    ReadyJcond(g2, c, v0, v1, t, f);
  }
}
