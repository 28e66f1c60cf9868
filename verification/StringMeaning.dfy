/** Strings as the caller of the emitters sees them: from the caller's block,
    through the test for a null source, to the address of the copy. */
module StringMeaning {
  import opened Ir
  import opened Machine
  import opened Script
  import opened Codegen
  import opened Strings
  import opened NulTest
  import opened StringCode
  import opened StringEmitter

  /** A program with the blocks emit_string_copy made when generation stood at g:
      the caller's block ends in the null test, and the return block begins by
      putting the address into its register. */
  ghost predicate HasCall(p: seq<Block>, g: Gen, c: Copy) {
    HasCopy(p, c) && Open(g) && |g.blocks| == c.blk < |p| && p[g.cur.value] == Tested(g, c)[g.cur.value]
    && p[ReturnBlk(c)].insns != [] && p[ReturnBlk(c)].insns[0] == AluK(Add, c.reg, c.dest, c.ofs)
  }

  /** What emit_string_copy leaves is such a program. */
  lemma EmittedCall(p: seq<Block>, g: Gen, c: Copy)
    requires HasCopy(p, c) && Open(g) && |g.blocks| == c.blk < |p| && p[..c.blk] == Tested(g, c)
    requires p[ReturnBlk(c)] == Block([AluK(Add, c.reg, c.dest, c.ofs)], None, None)
    ensures HasCall(p, g, c)
  {
    assert p[..c.blk][g.cur.value] == p[g.cur.value];
  }

  function NullInsn(c: Copy): Insn {
    Insn(Jcond(JEQ, false), 0, None, Some(Reg(c.src)), Some(Imm(0)))
  }

  lemma TestedBlock(g: Gen, c: Copy)
    requires Open(g)
    ensures Tested(g, c)[g.cur.value] ==
      Block(g.blocks[g.cur.value].insns + [NullInsn(c)], Some(NullBlk(c)), Some(CopyBlk(c, 0)))
  {
  }

  lemma NullStep(sem: Sem, pre: seq<Insn>, c: Copy, zero: nat, copy: nat, s0: State, s: State)
    requires Run(sem, pre, s0) == Fall(s)
    ensures StepBlock(sem, Block(pre + [NullInsn(c)], Some(zero), Some(copy)), s0) ==
      Goto(if Get(s.regs, c.src) == 0 then zero else copy, s)
  {
    RunAppend(sem, pre, [NullInsn(c)], s0);
    RunOne(sem, NullInsn(c), s);
    assert Wrap(0) == 0;
  }

  /** The caller's block: what was there, then to one of two blocks. */
  lemma NullTested(sem: Sem, p: seq<Block>, g: Gen, c: Copy, s0: State, s: State)
    requires Open(g) && |g.blocks| <= |p| && p[g.cur.value] == Tested(g, c)[g.cur.value]
    requires Run(sem, g.blocks[g.cur.value].insns, s0) == Fall(s)
    ensures Stepping(sem, p)(g.cur.value, s0) ==
      Goto(if Get(s.regs, c.src) == 0 then NullBlk(c) else CopyBlk(c, 0), s)
  {
    TestedBlock(g, c);
    NullStep(sem, g.blocks[g.cur.value].insns, c, NullBlk(c), CopyBlk(c, 0), s0, s);
  }

  /** The address at the start of the return block. */
  lemma AddressRuns(sem: Sem, d: nat, ofs: int, out: nat, s: State) returns (s': State)
    requires Standard(sem)
    ensures Run(sem, [AluK(Add, out, d, ofs)], s) == Fall(s')
    ensures s'.mem == s.mem && s'.trace == s.trace && Get(s'.regs, out) == Addr(Get(s.regs, d), ofs)
  {
    RunOne(sem, AluK(Add, out, d, ofs), s);
    s' := s.(regs := s.regs[out := sem.alu(Add, Get(s.regs, d), Wrap(ofs))]);
    WrapShift(Get(s.regs, d) as int + Wrap(ofs), Get(s.regs, d) as int + ofs, -(ofs / M64));
  }

  /** What a source gives: its bytes, or for a null source those of the empty
      string. */
  ghost function Source(s: State, c: Copy, b: seq<Byte>): seq<Byte> {
    if Get(s.regs, c.src) == 0 then Image([]) else b
  }

  /** The 64 bytes it leaves. */
  ghost function Given(s: State, c: Copy, b: seq<Byte>): (img: seq<Byte>)
    requires |b| == MAXSTRINGLEN
    ensures |img| == MAXSTRINGLEN
  {
    Left(c, Source(s, c, b), Area(s.mem, Get(s.regs, c.dest), c.ofs))
  }

  /** After the first instruction of the return block the result holds the address
      of the destination, the destination the bytes given, and nothing else in
      memory or of the calls has changed. */
  ghost predicate Delivered(sem: Sem, c: Copy, s: State, img: seq<Byte>, s1: State, s2: State)
    requires |img| == MAXSTRINGLEN
  {
    Run(sem, [AluK(Add, c.reg, c.dest, c.ofs)], s1) == Fall(s2)
    && Get(s2.regs, c.reg) == Addr(Get(s.regs, c.dest), c.ofs) && s2.trace == s.trace
    && Written(s2.mem, Get(s.regs, c.dest), c.ofs, img, 0, MAXSTRINGLEN)
    && Elsewhere(s.mem, s2.mem, Get(s.regs, c.dest), c.ofs)
  }

  /** Whatever was there, and padded or not, the destination reads as the string
      copied. */
  lemma GivenReads(s: State, c: Copy, b: seq<Byte>)
    requires |b| == MAXSTRINGLEN
    ensures Text(Given(s, c, b)) == if Get(s.regs, c.src) == 0 then [] else Text(b)
  {
    LeftReads(c, Source(s, c, b), Area(s.mem, Get(s.regs, c.dest), c.ofs));
    ImageText([]);
  }

  lemma AddressDelivered(sem: Sem, c: Copy, s: State, img: seq<Byte>, n: nat, s1: State) returns (s2: State)
    requires Standard(sem) && c.dest < c.reg && Progress(c, s, s1, img, n)
    ensures Delivered(sem, c, s, Over(img, 4 * n, Area(s.mem, Get(s.regs, c.dest), c.ofs)), s1, s2)
  {
    WrittenOver(s.mem, s1.mem, Get(s.regs, c.dest), c.ofs, img, 4 * n);
    s2 := AddressRuns(sem, c.dest, c.ofs, c.reg, s1);
  }

  /** Into the first block of either kind. */
  ghost predicate Enters(step: Stepper, b0: nat, s0: State, c: Copy, s: State) {
    step(b0, s0) == Goto(if Get(s.regs, c.src) == 0 then NullBlk(c) else CopyBlk(c, 0), s)
  }

  /** A source that holds b, apart from the destination, or none. */
  ghost predicate Holding(c: Copy, b: seq<Byte>, s: State) {
    |b| == MAXSTRINGLEN
    && (Get(s.regs, c.src) != 0 ==>
          SourceHolds(s.mem, Get(s.regs, c.src), b) && Apart(Get(s.regs, c.src), Get(s.regs, c.dest), c.ofs))
  }

  lemma BodyDelivers(step: Stepper, c: Copy, b: seq<Byte>, b0: nat, s0: State, s: State) returns (n: nat, s1: State)
    requires Copies(step, c) && Holding(c, b, s) && Enters(step, b0, s0, c, s)
    ensures Steps(step, Goto(b0, s0), n) == Goto(ReturnBlk(c), s1)
    ensures var x := Source(s, c, b); Progress(c, s, s1, Copied(x), CopyWords(c, x))
  {
    if Get(s.regs, c.src) == 0 {
      n, s1 := NullRun(step, c, s);
      EmptyCopied(c);
    } else {
      n, s1 := CopyRun(step, c, s, s, b, 0);
    }
    OneMore(step, b0, s0, n);
    n := n + 1;
  }

  lemma CallEnters(sem: Sem, p: seq<Block>, g: Gen, c: Copy, s0: State, s: State)
    requires Standard(sem) && sem.guard == {} && HasCall(p, g, c)
    requires Run(sem, g.blocks[g.cur.value].insns, s0) == Fall(s)
    ensures Copies(Stepping(sem, p), c) && Enters(Stepping(sem, p), g.cur.value, s0, c, s)
  {
    NullTested(sem, p, g, c, s0, s);
    BlocksCopy(sem, p, c);
  }

  /** emit_string_copy, for a null source or one that holds b: from the start of
      the caller's block to the return block. */
  lemma CallDelivers(sem: Sem, p: seq<Block>, g: Gen, c: Copy, b: seq<Byte>, s0: State, s: State)
    returns (n: nat, s1: State, s2: State)
    requires Standard(sem) && sem.guard == {} && HasCall(p, g, c)
    requires Run(sem, g.blocks[g.cur.value].insns, s0) == Fall(s) && Holding(c, b, s)
    ensures Steps(Stepping(sem, p), Goto(g.cur.value, s0), n) == Goto(ReturnBlk(c), s1)
    ensures Delivered(sem, c, s, Given(s, c, b), s1, s2)
  {
    CallEnters(sem, p, g, c, s0, s);
    n, s1 := BodyDelivers(Stepping(sem, p), c, b, g.cur.value, s0, s);
    var x := Source(s, c, b);
    s2 := AddressDelivered(sem, c, s, Copied(x), CopyWords(c, x), s1);
  }

  /** The code for a literal: the stores and the address. */
  function LiteralInsns(c: Copy, str: seq<Byte>): seq<Insn> {
    LiteralStores(c.dest, c.ofs, str, 0, LiteralWords(str, c.pad)) + [AluK(Add, c.reg, c.dest, c.ofs)]
  }

  /** The bytes it leaves. */
  ghost function LiteralGiven(s: State, c: Copy, str: seq<Byte>): (img: seq<Byte>)
    requires |str| < MAXSTRINGLEN
    ensures |img| == MAXSTRINGLEN
  {
    Over(Image(str), 4 * LiteralWords(str, c.pad), Area(s.mem, Get(s.regs, c.dest), c.ofs))
  }

  lemma LiteralDelivers(sem: Sem, c: Copy, str: seq<Byte>, s: State) returns (t1: State, t: State)
    requires Standard(sem) && sem.guard == {} && |str| < MAXSTRINGLEN && -0x1000 < c.ofs < 0x1000
    ensures Run(sem, LiteralInsns(c, str), s) == Fall(t) && Delivered(sem, c, s, LiteralGiven(s, c, str), t1, t)
  {
    var w := LiteralWords(str, c.pad);
    t1 := LiteralRuns(sem, c.dest, c.ofs, str, 0, w, s);
    t := AddressRuns(sem, c.dest, c.ofs, c.reg, t1);
    WrittenOver(s.mem, t.mem, Get(s.regs, c.dest), c.ofs, Image(str), 4 * w);
    RunAppend(sem, LiteralStores(c.dest, c.ofs, str, 0, w), [AluK(Add, c.reg, c.dest, c.ofs)], s);
  }

  lemma SameBytes(m1: Mem, m2: Mem, d: Word, ofs: int, x: seq<Byte>, y: seq<Byte>)
    requires |x| == |y| == MAXSTRINGLEN && forall a :: ByteAt(m1, a) == ByteAt(m2, a)
    requires Written(m1, d, ofs, x, 0, MAXSTRINGLEN) && Written(m2, d, ofs, y, 0, MAXSTRINGLEN)
    ensures x == y
  {
    forall k: nat | k < MAXSTRINGLEN ensures x[k] == y[k] { assert ByteAt(m1, Addr(d, ofs + k)) == x[k]; }
  }

  /** What was delivered is the same memory exactly when the bytes are. */
  lemma DeliveredSame(sem: Sem, c: Copy, s: State, x: seq<Byte>, y: seq<Byte>, s1: State, s2: State, t1: State,
                      t2: State)
    requires |x| == |y| == MAXSTRINGLEN && Delivered(sem, c, s, x, s1, s2) && Delivered(sem, c, s, y, t1, t2)
    ensures (forall a :: ByteAt(s2.mem, a) == ByteAt(t2.mem, a)) <==> x == y
  {
    var d := Get(s.regs, c.dest);
    if x == y { SameEverywhere(s.mem, s2.mem, t2.mem, d, c.ofs, x); }
    if forall a :: ByteAt(s2.mem, a) == ByteAt(t2.mem, a) { SameBytes(s2.mem, t2.mem, d, c.ofs, x, y); }
  }

  /** From the caller's block on, the copy of a string of at most 63 bytes and the
      string as a literal leave the same address; they leave the same memory if and
      only if the word of its terminator is zero-filled in the source. */
  lemma CallersAgree(sem: Sem, p: seq<Block>, g: Gen, c: Copy, b: seq<Byte>, s0: State, s: State)
    returns (n: nat, s1: State, s2: State, t: State)
    requires Standard(sem) && sem.guard == {} && HasCall(p, g, c)
    requires Run(sem, g.blocks[g.cur.value].insns, s0) == Fall(s)
    requires |b| == MAXSTRINGLEN && LengthFrom(b, 0) < MAXSTRINGLEN && Get(s.regs, c.src) != 0 && Holding(c, b, s)
    ensures Steps(Stepping(sem, p), Goto(g.cur.value, s0), n) == Goto(ReturnBlk(c), s1)
    ensures Run(sem, [AluK(Add, c.reg, c.dest, c.ofs)], s1) == Fall(s2)
    ensures Run(sem, g.blocks[g.cur.value].insns + LiteralInsns(c, Text(b)), s0) == Fall(t)
    ensures Get(s2.regs, c.reg) == Get(t.regs, c.reg) && s2.trace == t.trace
    ensures (forall a :: ByteAt(s2.mem, a) == ByteAt(t.mem, a)) <==> ZeroFilled(b)
  {
    n, s1, s2 := CallDelivers(sem, p, g, c, b, s0, s);
    var t1;
    t1, t := LiteralDelivers(sem, c, Text(b), s);
    RunAppend(sem, g.blocks[g.cur.value].insns, LiteralInsns(c, Text(b)), s0);
    LeftIff(c, b, Area(s.mem, Get(s.regs, c.dest), c.ofs));
    DeliveredSame(sem, c, s, Given(s, c, b), LiteralGiven(s, c, Text(b)), s1, s2, t1, t);
  }
}
