/** emit_simple_literal_str and emit_string_copy: the code for strings, as the
    unparser appends it. */
module StringEmitter {
  import opened Ir
  import opened Machine
  import opened Fixup
  import opened Programs
  import opened Codegen
  import opened Unparser
  import opened NulTest
  import opened StringCode

  // ----- literals -----

  lemma {:induction false} LiteralSnoc(dest: nat, ofs: int, str: seq<Byte>, i: nat, n: nat)
    requires i <= n
    ensures LiteralStores(dest, ofs, str, i, n + 1) ==
            LiteralStores(dest, ofs, str, i, n) + [StoreImm(dest, 4 * n + ofs, LiteralWord(str, n))]
    decreases n - i
  {
    if i < n {
      LiteralSnoc(dest, ofs, str, i + 1, n);
      Regroup([StoreImm(dest, 4 * i + ofs, LiteralWord(str, i))], LiteralStores(dest, ofs, str, i + 1, n),
              [StoreImm(dest, 4 * n + ofs, LiteralWord(str, n))]);
    }
  }

  lemma LiteralPads(str: seq<Byte>, i: nat)
    requires i >= (|str| + 4) / 4
    ensures LiteralWord(str, i) == 0
  {
  }

  method EmitSimpleLiteral(u: Unparser, dest: nat, ofs: int, str: seq<Byte>, zeroPad: bool) returns (out: Value)
    requires u.Valid() && Open(u.Now())
    modifies u.prog`blocks, u.prog`nregs
    ensures u.Valid() && out == Reg(old(u.prog.nregs))
    ensures u.Now() ==
      MkBinary(WithReg(EmitAll(old(u.Now()), LiteralStores(dest, ofs, str, 0, LiteralWords(str, zeroPad)))),
                                Add, out.r, Reg(dest), Imm(ofs))
  {
    ghost var g := u.Now();
    var words := (|str| + 4) / 4;
    EmitNothing(g);
    for i := 0 to words
      invariant u.Valid() && u.Now() == EmitAll(g, LiteralStores(dest, ofs, str, 0, i))
    {
      EmitAllMore(g, LiteralStores(dest, ofs, str, 0, i), [StoreImm(dest, 4 * i + ofs, LiteralWord(str, i))]);
      LiteralSnoc(dest, ofs, str, 0, i);
      EmitIsAll(u.Now(), StoreImm(dest, 4 * i + ofs, LiteralWord(str, i)));
      u.Append(StoreImm(dest, 4 * i + ofs, LiteralWord(str, i)));
    }
    if zeroPad {
      for i := words to if words < 16 then 16 else words
        invariant u.Valid() && u.Now() == EmitAll(g, LiteralStores(dest, ofs, str, 0, i))
      {
        LiteralPads(str, i);
        EmitAllMore(g, LiteralStores(dest, ofs, str, 0, i), [StoreImm(dest, 4 * i + ofs, 0)]);
        LiteralSnoc(dest, ofs, str, 0, i);
        EmitIsAll(u.Now(), StoreImm(dest, 4 * i + ofs, 0));
        u.Append(StoreImm(dest, 4 * i + ofs, 0));
      }
    }
    EmitAllMore(g, LiteralStores(dest, ofs, str, 0, LiteralWords(str, zeroPad)), []);
    var r := u.prog.NewReg();
    u.EmitBinary(Add, r, Reg(dest), Imm(ofs));
    out := Reg(r);
  }

  // ----- the test for a zero byte -----

  /** Byte j of the word, its mark, and the conjunction. */
  method EmitByte(u: Unparser, r: Scratch, j: nat)
    requires u.Valid() && Open(u.Now()) && Distinct(r)
    modifies u.prog`blocks
    ensures u.Valid() && u.Now() == EmitAll(old(u.Now()), PickInsns(r, j) + MarkInsns(r, j))
  {
    ghost var g := u.Now();
    EmitPick(u, r, j);
    ghost var g1 := u.Now();
    EmitAllMore(g, PickInsns(r, j), MarkInsns(r, j));
    EmitMark(u, r, j);
  }

  method EmitPick(u: Unparser, r: Scratch, j: nat)
    requires u.Valid() && Open(u.Now()) && Distinct(r)
    modifies u.prog`blocks
    ensures u.Valid() && u.Now() == EmitAll(old(u.Now()), PickInsns(r, j))
  {
    ghost var g := u.Now();
    ghost var first, last := if j == 0 then Mov(r.b, Reg(r.w))
        else AluK(Rsh, r.b, r.w, 8 * j), AluK(And, r.b, r.b, 0xff);
    EmitIsAll(g, first);
    EmitAllMore(g, [first], [last]);
    if j != 0 { u.EmitBinary(Rsh, r.b, Reg(r.w), Imm(8 * j)); } else { u.EmitMov(r.b, Reg(r.w)); }
    EmitIsAll(u.Now(), last);
    u.EmitBinary(And, r.b, Reg(r.b), Imm(0xff));
  }

  method EmitMark(u: Unparser, r: Scratch, j: nat)
    requires u.Valid() && Open(u.Now()) && Distinct(r)
    modifies u.prog`blocks
    ensures u.Valid() && u.Now() == EmitAll(old(u.Now()), MarkInsns(r, j))
  {
    ghost var g := u.Now();
    ghost var i0, i1, i2 := Mov(r.nz, Reg(r.b)), NegInsn(r.nz), AluX(Or, r.nz, r.nz, r.b);
    ghost var i3 := if j == 0 then Mov(r.all, Reg(r.nz)) else AluX(And, r.all, r.all, r.nz);
    EmitIsAll(g, i0);
    EmitIsAll(EmitAll(g, [i0]), i1);
    EmitAllMore(g, [i0], [i1]);
    u.EmitNeg(r.nz, Reg(r.b));
    EmitIsAll(u.Now(), i2);
    EmitAllMore(g, [i0] + [i1], [i2]);
    u.EmitBinary(Or, r.nz, Reg(r.nz), Reg(r.b));
    EmitIsAll(u.Now(), i3);
    EmitAllMore(g, [i0] + [i1] + [i2], [i3]);
    if j == 0 { u.EmitMov(r.all, Reg(r.nz)); } else { u.EmitBinary(And, r.all, Reg(r.all), Reg(r.nz)); }
    assert [i0] + [i1] + [i2] + [i3] == MarkInsns(r, j);
  }

  lemma Regroup(a: seq<Insn>, b: seq<Insn>, c: seq<Insn>)
    ensures (a + b) + c == a + (b + c)
  {
  }

  method EmitNulTest(u: Unparser, r: Scratch)
    requires u.Valid() && Open(u.Now()) && Distinct(r)
    modifies u.prog`blocks
    ensures u.Valid() && u.Now() == EmitAll(old(u.Now()), TestInsns(r, 0))
  {
    ghost var g := u.Now();
    ghost var done: seq<Insn> := [];
    EmitNothing(g);
    for j := 0 to 4
      invariant u.Valid() && u.Now() == EmitAll(g, done) && done + TestInsns(r, j) == TestInsns(r, 0)
    {
      ghost var more := PickInsns(r, j) + MarkInsns(r, j);
      EmitAllMore(g, done, more);
      EmitByte(u, r, j);
      Regroup(done, more, TestInsns(r, j + 1));
      done := done + more;
    }
    assert done == TestInsns(r, 0);
  }

  // ----- the copy -----

  /** mk_ld and mk_st of word i. */
  method EmitMove(u: Unparser, c: Copy, i: nat)
    requires u.Valid() && Open(u.Now())
    modifies u.prog`blocks
    ensures u.Valid() && u.Now() == EmitAll(old(u.Now()), MoveWord(c, i))
  {
    ghost var g := u.Now();
    EmitIsAll(g, LoadSrc(c, i));
    EmitAllMore(g, [LoadSrc(c, i)], [StoreDest(c, i)]);
    u.Append(LoadSrc(c, i));
    EmitIsAll(u.Now(), StoreDest(c, i));
    u.Append(StoreDest(c, i));
  }

  /** A block filled from empty: straight-line code in two parts, then a jump
      when a register is zero. */
  lemma FilledBlock(g: Gen, a: seq<Insn>, b: seq<Insn>, all: nat, t: nat, f: nat)
    requires Open(g) && g.blocks[g.cur.value] == EMPTY
    ensures Open(EmitAll(EmitAll(g, a), b))
    ensures MkJcond(EmitAll(EmitAll(g, a), b), EQ, Reg(all), Imm(0), t, f) ==
      Gen(g.blocks[g.cur.value := Block(a + (b + [Insn(Jcond(JEQ, false), 0, None, Some(Reg(all)), Some(Imm(0)))]),
                                         Some(t), Some(f))],
          g.nregs, None)
  {
    EmitAllMore(g, a, b);
    var stop := Insn(Jcond(JEQ, false), 0, None, Some(Reg(all)), Some(Imm(0)));
    var blk := Block(a + (b + [stop]), Some(t), Some(f));
    assert ([] + (a + b)) + [stop] == a + (b + [stop]);
    assert EmitAll(g, a + b).blocks[g.cur.value := blk] == g.blocks[g.cur.value := blk];
  }

  /** block_A[i] up to its jump. */
  method EmitWordAndTest(u: Unparser, c: Copy, i: nat)
    requires u.Valid() && Open(u.Now()) && u.prog.nregs == ScratchReg(c, i)
    modifies u.prog`blocks, u.prog`nregs
    ensures u.Valid() && Open(u.Now())
    ensures u.Now() ==
      EmitAll(EmitAll(old(u.Now()).(nregs := ScratchReg(c, i + 1)), MoveWord(c, i)), TestInsns(Regs4(c, i), 0))
  {
    ghost var g := u.Now();
    var word := u.prog.NewReg();
    EmitMove(u, c, i);
    var all := u.prog.NewReg();
    var bN := u.prog.NewReg();
    var nZ := u.prog.NewReg();
    ghost var g4 := g.(nregs := ScratchReg(c, i + 1));
    assert u.Now() == EmitAll(g4, MoveWord(c, i));
    ghost var g5 := u.Now();
    EmitNulTest(u, Scratch(word, all, bN, nZ));
    assert Open(u.Now());
  }

  /** block_A[i], for every word but the last. */
  method EmitCopyWord(u: Unparser, c: Copy, i: nat)
    requires u.Valid() && Open(u.Now()) && u.prog.blocks[u.cur.value] == EMPTY && i < 15
    requires u.prog.nregs == ScratchReg(c, i) && StopBlk(c, i) < |u.prog.blocks| && CopyBlk(c, i + 1) < |u.prog.blocks|
    modifies u`cur, u.prog`blocks, u.prog`prevs, u.prog`nregs
    ensures u.Valid() && u.cur == None && u.prog.nregs == ScratchReg(c, i + 1)
    ensures u.prog.blocks == old(u.prog.blocks)[old(u.cur).value := CopyBlock(c, i)]
  {
    ghost var g4 := u.Now().(nregs := ScratchReg(c, i + 1));
    EmitWordAndTest(u, c, i);
    var t, f := StopBlk(c, i), CopyBlk(c, i + 1);
    FilledBlock(g4, MoveWord(c, i), TestInsns(Regs4(c, i), 0), Regs4(c, i).all, t, f);
    u.JumpIf(EQ, Reg(Regs4(c, i).all), Imm(0), t, f);
  }

  /** block_A[15], which goes to the return block whatever it copied. */
  method EmitLastWord(u: Unparser, c: Copy)
    requires u.Valid() && Open(u.Now()) && u.prog.blocks[u.cur.value] == EMPTY
    requires u.prog.nregs == ScratchReg(c, 15) && ReturnBlk(c) < |u.prog.blocks|
    modifies u`cur, u.prog`blocks, u.prog`prevs, u.prog`nregs
    ensures u.Valid() && u.cur == None && u.prog.nregs == ScratchReg(c, 15) + 1
    ensures u.prog.blocks == old(u.prog.blocks)[old(u.cur).value := CopyBlock(c, 15)]
  {
    ghost var g := u.Now();
    var word := u.prog.NewReg();
    EmitMove(u, c, 15);
    assert [] + MoveWord(c, 15) == MoveWord(c, 15);
    u.JumpTo(ReturnBlk(c));
    assert u.prog.blocks == g.blocks[g.cur.value := CopyBlock(c, 15)];
  }

  /** block_B[i]. */
  method EmitZeroWord(u: Unparser, c: Copy, i: nat)
    requires u.Valid() && Open(u.Now()) && u.prog.blocks[u.cur.value] == EMPTY && i < 16
    requires (if i < 15 then ZeroBlk(c, i + 1) else ReturnBlk(c)) < |u.prog.blocks|
    modifies u`cur, u.prog`blocks, u.prog`prevs
    ensures u.Valid() && u.cur == None
    ensures u.prog.blocks == old(u.prog.blocks)[old(u.cur).value := ZeroBlock(c, i)]
  {
    ghost var g := u.Now();
    u.Append(StoreImm(c.dest, 4 * i + c.ofs, 0));
    assert [] + [StoreImm(c.dest, 4 * i + c.ofs, 0)] == [StoreImm(c.dest, 4 * i + c.ofs, 0)];
    u.JumpTo(if i < 15 then ZeroBlk(c, i + 1) else ReturnBlk(c));
    assert u.prog.blocks == g.blocks[g.cur.value := ZeroBlock(c, i)];
  }

  /** The block for a null source, without padding. */
  method EmitEmpty(u: Unparser, c: Copy)
    requires u.Valid() && Open(u.Now()) && u.prog.blocks[u.cur.value] == EMPTY
    requires !c.pad && u.prog.nregs == c.reg + 1 && ReturnBlk(c) < |u.prog.blocks|
    modifies u`cur, u.prog`blocks, u.prog`prevs, u.prog`nregs
    ensures u.Valid() && u.cur == None && u.prog.nregs == ScratchReg(c, 0)
    ensures u.prog.blocks == old(u.prog.blocks)[old(u.cur).value := EmptyBlock(c)]
  {
    ghost var g := u.Now();
    var empty := EmitSimpleLiteral(u, c.dest, c.ofs, [], false);
    ghost var g1 := WithReg(g);
    EmptyEmitted(g1, c);
    assert WithReg(EmitAll(g, LiteralStores(c.dest, c.ofs, [], 0, 1))) ==
      EmitAll(g1, LiteralStores(c.dest, c.ofs, [], 0, 1));
    u.EmitMov(c.reg, empty);
    assert [] + EmptyInsns(c) == EmptyInsns(c);
    u.JumpTo(ReturnBlk(c));
    assert u.prog.blocks == g.blocks[g.cur.value := EmptyBlock(c)];
  }

  lemma EmptyEmitted(g: Gen, c: Copy)
    requires Open(g)
    ensures var g' := EmitAll(g, LiteralStores(c.dest, c.ofs, [], 0, 1));
      Open(g') && Open(MkBinary(g', Add, c.reg + 1, Reg(c.dest), Imm(c.ofs)))
      && MkMov(MkBinary(g', Add, c.reg + 1, Reg(c.dest), Imm(c.ofs)), c.reg, Reg(c.reg + 1)) ==
         EmitAll(g, EmptyInsns(c))
  {
    var a, b, m := LiteralStores(c.dest, c.ofs, [], 0, 1), AluK(Add, c.reg + 1, c.dest, c.ofs),
      Mov(c.reg, Reg(c.reg + 1));
    EmitIsAll(EmitAll(g, a), b);
    EmitAllMore(g, a, [b]);
    EmitIsAll(EmitAll(g, a + [b]), m);
    EmitAllMore(g, a + [b], [m]);
  }

  // ----- all blocks -----

  /** How many blocks each word but the first adds. */
  function Stride(c: Copy): nat {
    if c.pad then 2 else 1
  }

  /** The copying blocks are made up to word i, the next one and the clearing
      ones are there but empty; older blocks are as they were. */
  ghost predicate Copying(p: seq<Block>, c: Copy, was: seq<Block>, i: nat) {
    CopyingAs(p, c, (w: nat) => CopyBlock(c, w), EmptyBlock(c), was, i)
  }

  ghost predicate CopyingAs(p: seq<Block>, c: Copy, made: nat -> Block, empty: Block, was: seq<Block>, i: nat) {
    |was| == c.blk && |p| == c.blk + 3 + Stride(c) * (if i < 15 then i else 15)
    && p[..c.blk] == was && p[c.blk] == EMPTY
    && (forall w: nat {:trigger CopyBlk(c, w)} | w <= i && w < 16 ::
         p[CopyBlk(c, w)] == if w < i then made(w) else EMPTY)
    && (c.pad ==> forall w: nat {:trigger ZeroBlk(c, w)} | w <= i && w < 16 :: p[ZeroBlk(c, w)] == EMPTY)
    && (!c.pad ==> p[NullBlk(c)] == empty)
  }

  /** All copying blocks are made, and the clearing ones up to word i. */
  ghost predicate Clearing(p: seq<Block>, c: Copy, was: seq<Block>, i: nat) {
    |was| == c.blk && |p| == c.blk + 3 + Stride(c) * 15 && p[..c.blk] == was && p[c.blk] == EMPTY
    && (forall w: nat {:trigger CopyBlk(c, w)} | w < 16 :: p[CopyBlk(c, w)] == CopyBlock(c, w))
    && (c.pad ==> forall w: nat {:trigger ZeroBlk(c, w)} | w < 16 ::
          p[ZeroBlk(c, w)] == if w < i then ZeroBlock(c, w) else EMPTY)
    && (!c.pad ==> p[NullBlk(c)] == EmptyBlock(c))
  }

  lemma CopyingNext(p: seq<Block>, p': seq<Block>, c: Copy, made: nat -> Block, empty: Block, was: seq<Block>, i: nat)
    requires i < 15 && CopyingAs(p, c, made, empty, was, i)
    requires p' == (p + (if c.pad then [EMPTY, EMPTY] else [EMPTY]))[CopyBlk(c, i) := made(i)]
    ensures CopyingAs(p', c, made, empty, was, i + 1)
  {
    forall w: nat | w <= i + 1 && w < 16 ensures p'[CopyBlk(c, w)] == if w < i + 1 then made(w) else EMPTY {
      if w <= i { assert p[CopyBlk(c, w)] == if w < i then made(w) else EMPTY; }
    }
    if c.pad {
      forall w: nat | w <= i + 1 && w < 16 ensures p'[ZeroBlk(c, w)] == EMPTY {
        if w <= i { assert p[ZeroBlk(c, w)] == EMPTY; }
      }
    }
  }

  lemma CopyingDone(p: seq<Block>, p': seq<Block>, c: Copy, was: seq<Block>)
    requires Copying(p, c, was, 15) && p' == p[CopyBlk(c, 15) := CopyBlock(c, 15)]
    ensures Clearing(p', c, was, 0)
  {
    forall w: nat | w < 16 ensures p'[CopyBlk(c, w)] == CopyBlock(c, w) {
      assert p[CopyBlk(c, w)] == if w < 15 then CopyBlock(c, w) else EMPTY;
    }
    if c.pad {
      forall w: nat | w < 16 ensures p'[ZeroBlk(c, w)] == EMPTY { assert p[ZeroBlk(c, w)] == EMPTY; }
    }
  }

  lemma ClearingNext(p: seq<Block>, p': seq<Block>, c: Copy, was: seq<Block>, i: nat)
    requires c.pad && i < 16 && Clearing(p, c, was, i) && p' == p[ZeroBlk(c, i) := ZeroBlock(c, i)]
    ensures Clearing(p', c, was, i + 1)
  {
    forall w: nat | w < 16 ensures p'[CopyBlk(c, w)] == CopyBlock(c, w) { assert p[CopyBlk(c, w)] == CopyBlock(c, w); }
    forall w: nat | w < 16 ensures p'[ZeroBlk(c, w)] == if w < i + 1 then ZeroBlock(c, w) else EMPTY {
      assert p[ZeroBlk(c, w)] == if w < i then ZeroBlock(c, w) else EMPTY;
    }
  }

  /** The blocks for word i + 1, and block_A[i]. */
  method EmitNextWord(u: Unparser, c: Copy, ghost was: seq<Block>, i: nat)
    requires u.Valid() && i < 15 && Copying(u.prog.blocks, c, was, i) && u.prog.nregs == ScratchReg(c, i)
    modifies u`cur, u.prog`blocks, u.prog`prevs, u.prog`nregs
    ensures u.Valid() && Copying(u.prog.blocks, c, was, i + 1) && u.prog.nregs == ScratchReg(c, i + 1)
  {
    ghost var p := u.prog.blocks;
    var next := u.prog.NewBlock();
    if c.pad { var zero := u.prog.NewBlock(); }
    u.cur := Some(CopyBlk(c, i));
    assert p[CopyBlk(c, i)] == EMPTY;
    assert u.prog.blocks == p + if c.pad then [EMPTY, EMPTY] else [EMPTY];
    EmitCopyWord(u, c, i);
    CopyingNext(p, u.prog.blocks, c, (w: nat) => CopyBlock(c, w), EmptyBlock(c), was, i);
  }

  method EmitCopyBlocks(u: Unparser, c: Copy, ghost was: seq<Block>)
    requires u.Valid() && Copying(u.prog.blocks, c, was, 0) && u.prog.nregs == ScratchReg(c, 0)
    modifies u`cur, u.prog`blocks, u.prog`prevs, u.prog`nregs
    ensures u.Valid() && u.cur == None && Clearing(u.prog.blocks, c, was, 0)
  {
    for i := 0 to 15
      invariant u.Valid() && Copying(u.prog.blocks, c, was, i) && u.prog.nregs == ScratchReg(c, i)
    {
      EmitNextWord(u, c, was, i);
    }
    ghost var p := u.prog.blocks;
    u.cur := Some(CopyBlk(c, 15));
    assert p[CopyBlk(c, 15)] == EMPTY;
    EmitLastWord(u, c);
    CopyingDone(p, u.prog.blocks, c, was);
  }

  method EmitZeroBlocks(u: Unparser, c: Copy, ghost was: seq<Block>)
    requires u.Valid() && c.pad && Clearing(u.prog.blocks, c, was, 0)
    modifies u`cur, u.prog`blocks, u.prog`prevs
    ensures u.Valid() && Clearing(u.prog.blocks, c, was, 16)
  {
    for i := 0 to 16
      invariant u.Valid() && Clearing(u.prog.blocks, c, was, i)
    {
      ghost var p := u.prog.blocks;
      u.cur := Some(ZeroBlk(c, i));
      assert p[ZeroBlk(c, i)] == EMPTY;
      EmitZeroWord(u, c, i);
      ClearingNext(p, u.prog.blocks, c, was, i);
    }
  }

  /** The blocks there are once the test for a null source is in place. */
  function Tested(g: Gen, c: Copy): seq<Block> {
    MkJcond(g, EQ, Reg(c.src), Imm(0), NullBlk(c), CopyBlk(c, 0)).blocks
  }

  /** The three new blocks are there, still empty. */
  ghost predicate Started(p: seq<Block>, c: Copy, was: seq<Block>) {
    |was| == c.blk && p == was + [EMPTY, EMPTY, EMPTY]
  }

  lemma StartsCopying(g: Gen, c: Copy, p: seq<Block>)
    requires Open(g) && c.blk == |g.blocks|
    requires p ==
      MkJcond(g.(blocks := g.blocks + [EMPTY, EMPTY, EMPTY]), EQ, Reg(c.src), Imm(0), NullBlk(c), CopyBlk(c, 0)).blocks
    ensures Started(p, c, Tested(g, c))
  {
    var b := p[g.cur.value];
    assert p == (g.blocks + [EMPTY, EMPTY, EMPTY])[g.cur.value := b];
    assert Tested(g, c) == g.blocks[g.cur.value := b];
  }

  /** The new blocks, and the test for a null source. */
  method StartCopy(u: Unparser, dest: nat, ofs: int, src: nat, zeroPad: bool) returns (r: nat, c: Copy)
    requires u.Valid() && Open(u.Now())
    modifies u`cur, u.prog`blocks, u.prog`prevs, u.prog`nregs
    ensures u.Valid() && r == old(u.prog.nregs) && u.prog.nregs == r + 1
    ensures c == Copy.Copy(src, dest, ofs, r, old(|u.prog.blocks|), zeroPad)
    ensures Started(u.prog.blocks, c, Tested(old(u.Now()), c))
  {
    ghost var g := u.Now();
    r := u.prog.NewReg();
    var ret := u.prog.NewBlock();
    var nullCopy := u.prog.NewBlock();
    var normal := u.prog.NewBlock();
    c := Copy.Copy(src, dest, ofs, r, ret, zeroPad);
    assert u.prog.blocks == g.blocks + [EMPTY, EMPTY, EMPTY];
    u.JumpIf(EQ, Reg(src), Imm(0), nullCopy, normal);
    StartsCopying(g, c, u.prog.blocks);
  }

  /** Without padding, the block for a null source. */
  method EmitNull(u: Unparser, c: Copy, ghost was: seq<Block>)
    requires u.Valid() && Started(u.prog.blocks, c, was) && u.prog.nregs == c.reg + 1
    modifies u`cur, u.prog`blocks, u.prog`prevs, u.prog`nregs
    ensures u.Valid() && Copying(u.prog.blocks, c, was, 0) && u.prog.nregs == ScratchReg(c, 0)
  {
    ghost var p := u.prog.blocks;
    if !c.pad {
      u.cur := Some(NullBlk(c));
      EmitEmpty(u, c);
    }
    assert u.prog.blocks[..c.blk] == was;
  }

  /** emit_string_copy for a string that is not a literal. The current block ends in
      the test for a null source; the rest is what HasCopy describes, and code
      generation goes on in the return block. */
  method EmitStringCopy(u: Unparser, dest: nat, ofs: int, src: nat, zeroPad: bool) returns (out: Value, c: Copy)
    requires u.Valid() && Open(u.Now()) && dest < u.prog.nregs && src < u.prog.nregs && -0x1000 < ofs < 0x1000
    modifies u`cur, u.prog`blocks, u.prog`prevs, u.prog`nregs
    ensures u.Valid() && c == Copy.Copy(src, dest, ofs, old(u.prog.nregs), old(|u.prog.blocks|), zeroPad)
    ensures out == Reg(c.reg)
    ensures HasCopy(u.prog.blocks, c) && u.cur == Some(ReturnBlk(c)) && c.blk < |u.prog.blocks|
    ensures u.prog.blocks[..c.blk] == Tested(old(u.Now()), c)
    ensures u.prog.blocks[ReturnBlk(c)] == Block([AluK(Add, c.reg, dest, ofs)], None, None)
  {
    ghost var g := u.Now();
    var r;
    r, c := StartCopy(u, dest, ofs, src, zeroPad);
    EmitNull(u, c, Tested(g, c));
    EmitCopyBlocks(u, c, Tested(g, c));
    if zeroPad { EmitZeroBlocks(u, c, Tested(g, c)); }
    out := FinishCopy(u, c, Tested(g, c));
  }

  /** The address of the copy, in the return block. */
  method FinishCopy(u: Unparser, c: Copy, ghost was: seq<Block>) returns (out: Value)
    requires u.Valid() && Clearing(u.prog.blocks, c, was, if c.pad then 16 else 0) && c.src < c.reg && c.dest < c.reg
    requires -0x1000 < c.ofs < 0x1000
    modifies u`cur, u.prog`blocks
    ensures u.Valid() && out == Reg(c.reg) && u.cur == Some(ReturnBlk(c)) && c.blk < |u.prog.blocks|
    ensures HasCopy(u.prog.blocks, c) && u.prog.blocks[..c.blk] == was
    ensures u.prog.blocks[ReturnBlk(c)] == Block([AluK(Add, c.reg, c.dest, c.ofs)], None, None)
  {
    ghost var p := u.prog.blocks;
    u.cur := Some(c.blk);
    u.EmitBinary(Add, c.reg, Reg(c.dest), Imm(c.ofs));
    out := Reg(c.reg);
    assert [] + [AluK(Add, c.reg, c.dest, c.ofs)] == [AluK(Add, c.reg, c.dest, c.ofs)];
    assert u.prog.blocks == p[c.blk := u.prog.blocks[c.blk]];
    CopyStays(p, u.prog.blocks, c, was);
  }

  /** What is put in the return block leaves the copy as it is. */
  lemma CopyStays(p: seq<Block>, p': seq<Block>, c: Copy, was: seq<Block>)
    requires Clearing(p, c, was, if c.pad then 16 else 0) && |p'| == |p| && p' == p[c.blk := p'[c.blk]]
    requires c.src < c.reg && c.dest < c.reg && -0x1000 < c.ofs < 0x1000
    ensures HasCopy(p', c) && p'[..c.blk] == was
  {
    forall i: nat | i < 16 ensures CopyBlk(c, i) < |p'| && p'[CopyBlk(c, i)] == CopyBlock(c, i) {
      assert p[CopyBlk(c, i)] == CopyBlock(c, i);
    }
    if c.pad {
      forall i: nat | i < 16 ensures ZeroBlk(c, i) < |p'| && p'[ZeroBlk(c, i)] == ZeroBlock(c, i) {
        assert p[ZeroBlk(c, i)] == ZeroBlock(c, i);
      }
    }
  }
}
