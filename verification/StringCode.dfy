/** The code emitted for strings: a literal stored word by word, and a string
    copied at run time, stopping at the word that holds its terminator. */
module StringCode {
  import opened Ir
  import opened Machine
  import opened Memory
  import opened Fixup
  import opened Script
  import opened Strings
  import opened NulTest

  // ----- literals -----

  function CharAt(str: seq<Byte>, k: nat): Byte {
    if k < |str| then str[k] else 0
  }

  /** Word i of a literal, first character lowest. */
  function LiteralWord(str: seq<Byte>, i: nat): nat {
    CharAt(str, 4 * i) as int + 0x100 * CharAt(str, 4 * i + 1) as int
    + 0x1_0000 * CharAt(str, 4 * i + 2) as int + 0x100_0000 * CharAt(str, 4 * i + 3) as int
  }

  function StoreImm(dest: nat, off: int, v: int): Insn {
    Insn(St(SW), off, None, Some(Reg(dest)), Some(Imm(v)))
  }

  /** The stores of words i to n - 1. */
  function LiteralStores(dest: nat, ofs: int, str: seq<Byte>, i: nat, n: nat): seq<Insn>
    decreases n - i
  {
    if i >= n then [] else [StoreImm(dest, 4 * i + ofs, LiteralWord(str, i))] + LiteralStores(dest, ofs, str, i + 1, n)
  }

  lemma WordBytes(str: seq<Byte>, i: nat, j: nat)
    requires j < 4
    ensures LiteralWord(str, i) < 0x1_0000_0000 && ByteOf(LiteralWord(str, i), j) == CharAt(str, 4 * i + j)
  {
    var w := LiteralWord(str, i);
    var w1 := CharAt(str, 4 * i + 1) as int + 0x100 * CharAt(str, 4 * i + 2) as int +
        0x1_0000 * CharAt(str, 4 * i + 3) as int;
    var w2 := CharAt(str, 4 * i + 2) as int + 0x100 * CharAt(str, 4 * i + 3) as int;
    assert w % 256 == CharAt(str, 4 * i) && w / 256 == w1;
    assert w1 % 256 == CharAt(str, 4 * i + 1) && w1 / 256 == w2;
    assert w2 % 256 == CharAt(str, 4 * i + 2) && w2 / 256 == CharAt(str, 4 * i + 3);
    if j == 1 { assert ByteOf(w, 1) == ByteOf(w1, 0); }
    if j == 2 { assert ByteOf(w, 2) == ByteOf(w1, 1) == ByteOf(w2, 0); }
    if j == 3 { assert ByteOf(w, 3) == ByteOf(w1, 2) == ByteOf(w2, 1) == ByteOf(w2 / 256, 0); }
  }

  /** A word store changes its four bytes and nothing else nearby. */
  lemma WordStored(m: Mem, d: Word, o: int, v: nat, k: int)
    requires -0x1000_0000 < o < 0x1000_0000 && -0x1000_0000 < k < 0x1000_0000
    ensures ByteAt(Store(m, Addr(d, o), 4, v), Addr(d, k)) ==
      if o <= k < o + 4 then ByteOf(v, k - o) else ByteAt(m, Addr(d, k))
  {
    if o <= k < o + 4 {
      StoreByte(m, d, o, 4, v, k - o);
    } else {
      InRange(d, o, 4, Addr(d, k));
      if Addr(d, k) in Range(Addr(d, o), 4) {
        var i :| o <= i < o + 4 && Addr(d, k) == Addr(d, i);
        AddrInjective(d, i, k);
      }
      StoreFrame(m, Addr(d, o), 4, v, Addr(d, k));
    }
  }

  /** The bytes of the string area hold s from position lo to hi. */
  ghost predicate Written(m: Mem, d: Word, ofs: int, s: seq<Byte>, lo: nat, hi: nat)
    requires hi <= |s|
  {
    forall k: nat | lo <= k < hi :: ByteAt(m, Addr(d, ofs + k)) == s[k]
  }

  /** What the string area holds. */
  ghost function Area(m: Mem, d: Word, ofs: int): (s: seq<Byte>)
    ensures |s| == MAXSTRINGLEN && forall k: nat | k < MAXSTRINGLEN :: s[k] == ByteAt(m, Addr(d, ofs + k))
  {
    seq<Byte>(MAXSTRINGLEN, (k: nat) => ByteAt(m, Addr(d, ofs + k)))
  }

  /** From position lo on it is as it was. */
  ghost predicate Untouched(m: Mem, m': Mem, d: Word, ofs: int, lo: nat) {
    Written(m', d, ofs, Area(m, d, ofs), lo, MAXSTRINGLEN)
  }

  lemma UntouchedTrans(m: Mem, m1: Mem, m2: Mem, d: Word, ofs: int, lo: nat, hi: nat)
    requires Untouched(m, m1, d, ofs, lo) && Untouched(m1, m2, d, ofs, hi) && lo <= hi
    ensures Untouched(m, m2, d, ofs, hi)
  {
    forall k: nat | hi <= k < MAXSTRINGLEN ensures ByteAt(m2, Addr(d, ofs + k)) == Area(m, d, ofs)[k] {
      assert ByteAt(m1, Addr(d, ofs + k)) == Area(m, d, ofs)[k];
      assert ByteAt(m2, Addr(d, ofs + k)) == Area(m1, d, ofs)[k];
    }
  }

  /** What is written over a prefix of the area is the area. */
  lemma WrittenOver(m: Mem, m': Mem, d: Word, ofs: int, img: seq<Byte>, n: nat)
    requires |img| == MAXSTRINGLEN && n <= MAXSTRINGLEN
    requires Written(m', d, ofs, img, 0, n) && Untouched(m, m', d, ofs, n)
    ensures Written(m', d, ofs, Over(img, n, Area(m, d, ofs)), 0, MAXSTRINGLEN)
  {
  }

  /** Nothing outside the string area has changed. */
  ghost predicate Elsewhere(m: Mem, m': Mem, d: Word, ofs: int) {
    forall a | a !in Range(Addr(d, ofs), MAXSTRINGLEN) :: ByteAt(m, a) == ByteAt(m', a)
  }

  lemma StoreElsewhere(m: Mem, d: Word, ofs: int, i: nat, v: nat)
    requires i < 16
    ensures Elsewhere(m, Store(m, Addr(d, 4 * i + ofs), 4, v), d, ofs)
  {
    forall a | a !in Range(Addr(d, ofs), MAXSTRINGLEN)
      ensures ByteAt(m, a) == ByteAt(Store(m, Addr(d, 4 * i + ofs), 4, v), a)
    {
      InRange(d, ofs, MAXSTRINGLEN, a);
      InRange(d, 4 * i + ofs, 4, a);
      StoreFrame(m, Addr(d, 4 * i + ofs), 4, v, a);
    }
  }

  lemma ElsewhereTrans(a: Mem, b: Mem, c: Mem, d: Word, ofs: int)
    requires Elsewhere(a, b, d, ofs) && Elsewhere(b, c, d, ofs)
    ensures Elsewhere(a, c, d, ofs)
  {
  }

  ghost predicate BytesOf(v: nat, s: seq<Byte>, i: nat)
    requires 4 * i + 4 <= |s|
  {
    ByteOf(v, 0) == s[4 * i] && ByteOf(v, 1) == s[4 * i + 1] && ByteOf(v, 2) == s[4 * i + 2]
    && ByteOf(v, 3) == s[4 * i + 3]
  }

  /** Storing word i of s extends what is written. */
  lemma StoreExtends(m: Mem, d: Word, ofs: int, s: seq<Byte>, i: nat, v: nat)
    requires |s| == MAXSTRINGLEN && i < 16 && -0x1000 < ofs < 0x1000 && Written(m, d, ofs, s, 0, 4 * i)
    requires BytesOf(v, s, i)
    ensures Written(Store(m, Addr(d, 4 * i + ofs), 4, v), d, ofs, s, 0, 4 * i + 4)
  {
    forall k: nat | k < 4 * i + 4 ensures ByteAt(Store(m, Addr(d, 4 * i + ofs), 4, v), Addr(d, ofs + k)) == s[k] {
      WordStored(m, d, 4 * i + ofs, v, ofs + k);
    }
  }

  /** And leaves what comes after it. */
  lemma StoreLeaves(m: Mem, d: Word, ofs: int, i: nat, v: nat)
    requires i < 16 && -0x1000 < ofs < 0x1000
    ensures Untouched(m, Store(m, Addr(d, 4 * i + ofs), 4, v), d, ofs, 4 * i + 4)
  {
    var m', was := Store(m, Addr(d, 4 * i + ofs), 4, v), Area(m, d, ofs);
    forall k: nat | 4 * i + 4 <= k < MAXSTRINGLEN ensures ByteAt(m', Addr(d, ofs + k)) == was[k] {
      WordStored(m, d, 4 * i + ofs, v, ofs + k);
    }
  }

  function StoredState(s: State, d: Word, o: int, v: nat): State {
    s.(mem := Store(s.mem, Addr(d, o), 4, v))
  }

  lemma StoreImmRuns(sem: Sem, dest: nat, off: int, v: nat, s: State)
    requires sem.guard == {} && v < 0x1_0000_0000
    ensures Exec(sem, StoreImm(dest, off, v), s) == Some(StoredState(s, Get(s.regs, dest), off, v))
  {
  }

  lemma ImageWord(str: seq<Byte>, i: nat)
    requires |str| < MAXSTRINGLEN && i < 16
    ensures LiteralWord(str, i) < 0x1_0000_0000 && BytesOf(LiteralWord(str, i), Image(str), i)
  {
    WordBytes(str, i, 0);
    WordBytes(str, i, 1);
    WordBytes(str, i, 2);
    WordBytes(str, i, 3);
  }

  lemma LiteralStep(sem: Sem, dest: nat, ofs: int, str: seq<Byte>, i: nat, n: nat, s: State)
    requires sem.guard == {} && i < n && LiteralWord(str, i) < 0x1_0000_0000
    ensures Run(sem, LiteralStores(dest, ofs, str, i, n), s) ==
            Run(sem, LiteralStores(dest, ofs, str, i + 1, n),
                StoredState(s, Get(s.regs, dest), 4 * i + ofs, LiteralWord(str, i)))
  {
    StoreImmRuns(sem, dest, 4 * i + ofs, LiteralWord(str, i), s);
    RunCons(sem, LiteralStores(dest, ofs, str, i, n), s);
    assert LiteralStores(dest, ofs, str, i, n)[1..] == LiteralStores(dest, ofs, str, i + 1, n);
  }

  /** The emitted stores leave n words of the literal and its zeros, and what was
      after them. */
  lemma {:induction false} LiteralRuns(sem: Sem, dest: nat, ofs: int, str: seq<Byte>, i: nat, n: nat, s: State)
    returns (s': State)
    requires sem.guard == {} && i <= n <= 16 && |str| < MAXSTRINGLEN && -0x1000 < ofs < 0x1000
    requires Written(s.mem, Get(s.regs, dest), ofs, Image(str), 0, 4 * i)
    ensures Run(sem, LiteralStores(dest, ofs, str, i, n), s) == Fall(s')
    ensures s'.regs == s.regs && s'.trace == s.trace
    ensures Written(s'.mem, Get(s.regs, dest), ofs, Image(str), 0, 4 * n)
    ensures Untouched(s.mem, s'.mem, Get(s.regs, dest), ofs, 4 * n)
    ensures Elsewhere(s.mem, s'.mem, Get(s.regs, dest), ofs)
    decreases n - i
  {
    if i == n {
      s' := s;
    } else {
      var d, v := Get(s.regs, dest), LiteralWord(str, i);
      var s1 := StoredState(s, d, 4 * i + ofs, v);
      ImageWord(str, i);
      LiteralStep(sem, dest, ofs, str, i, n, s);
      StoreExtends(s.mem, d, ofs, Image(str), i, v);
      StoreElsewhere(s.mem, d, ofs, i, v);
      StoreLeaves(s.mem, d, ofs, i, v);
      s' := LiteralRuns(sem, dest, ofs, str, i + 1, n, s1);
      ElsewhereTrans(s.mem, s1.mem, s'.mem, d, ofs);
      UntouchedTrans(s.mem, s1.mem, s'.mem, d, ofs, 4 * i + 4, 4 * n);
    }
  }

  // ----- copying at run time -----

  /** A copy from *src to dest + ofs, zero-padded or not: the register for the
      address and the first block it was given. */
  datatype Copy = Copy(src: nat, dest: nat, ofs: int, reg: nat, blk: nat, pad: bool)

  /** The scratch registers come after the one for the address, and the one for
      that of the empty string. */
  function ScratchReg(c: Copy, i: nat): nat {
    c.reg + (if c.pad then 1 else 2) + 4 * i
  }

  function Regs4(c: Copy, i: nat): Scratch {
    var r := ScratchReg(c, i);
    Scratch(r, r + 1, r + 2, r + 3)
  }

  function ReturnBlk(c: Copy): nat {
    c.blk
  }

  /** The block for a null source, which with padding is block_B[0]. */
  function NullBlk(c: Copy): nat {
    c.blk + 1
  }

  /** block_A[i] and block_B[i]. */
  function CopyBlk(c: Copy, i: nat): nat {
    if !c.pad then c.blk + 2 + i else if i == 0 then c.blk + 2 else c.blk + 1 + 2 * i
  }

  function ZeroBlk(c: Copy, i: nat): nat {
    if i == 0 then NullBlk(c) else c.blk + 2 + 2 * i
  }

  /** Where a copy that met its terminator in word i goes on. */
  function StopBlk(c: Copy, i: nat): nat {
    if c.pad then ZeroBlk(c, i + 1) else ReturnBlk(c)
  }

  function LoadSrc(c: Copy, i: nat): Insn {
    Insn(Ldx(SW), 4 * i, Some(Regs4(c, i).w), None, Some(Reg(c.src)))
  }

  function StoreDest(c: Copy, i: nat): Insn {
    Insn(Stx(SW), 4 * i + c.ofs, None, Some(Reg(c.dest)), Some(Reg(Regs4(c, i).w)))
  }

  function MoveWord(c: Copy, i: nat): seq<Insn> {
    [LoadSrc(c, i)] + [StoreDest(c, i)]
  }

  function StopTest(c: Copy, i: nat): Insn {
    Insn(Jcond(JEQ, false), 0, None, Some(Reg(Regs4(c, i).all)), Some(Imm(0)))
  }

  /** Copies word i; then, if it has a zero byte, on to the zeros or out. */
  function CopyBlock(c: Copy, i: nat): Block {
    if i < 15 then
      Block(MoveWord(c, i) + (TestInsns(Regs4(c, i), 0) + [StopTest(c, i)]), Some(StopBlk(c, i)),
            Some(CopyBlk(c, i + 1)))
    else Block(MoveWord(c, i), None, Some(ReturnBlk(c)))
  }

  /** Clears word i. */
  function ZeroBlock(c: Copy, i: nat): Block {
    Block([StoreImm(c.dest, 4 * i + c.ofs, 0)], None, Some(if i < 15 then ZeroBlk(c, i + 1) else ReturnBlk(c)))
  }

  /** Without padding, a null source gives the literal "". */
  function EmptyInsns(c: Copy): seq<Insn> {
    LiteralStores(c.dest, c.ofs, [], 0, 1) + [AluK(Add, c.reg + 1, c.dest, c.ofs)] + [Mov(c.reg, Reg(c.reg + 1))]
  }

  function EmptyBlock(c: Copy): Block {
    Block(EmptyInsns(c), None, Some(ReturnBlk(c)))
  }

  /** The blocks are in the program. */
  ghost predicate HasCopy(p: seq<Block>, c: Copy) {
    c.src < c.reg && c.dest < c.reg && -0x1000 < c.ofs < 0x1000
    && (forall i: nat | i < 16 :: CopyBlk(c, i) < |p| && p[CopyBlk(c, i)] == CopyBlock(c, i))
    && (c.pad ==> forall i: nat | i < 16 :: ZeroBlk(c, i) < |p| && p[ZeroBlk(c, i)] == ZeroBlock(c, i))
    && (!c.pad ==> NullBlk(c) < |p| && p[NullBlk(c)] == EmptyBlock(c))
  }

  lemma MoveRuns(sem: Sem, c: Copy, i: nat, s: State) returns (s': State)
    requires sem.guard == {} && c.src < c.reg && c.dest < c.reg
    ensures Run(sem, MoveWord(c, i), s) == Fall(s')
    ensures var v := Load(s.mem, Addr(Get(s.regs, c.src), 4 * i), 4);
      s'.mem == Store(s.mem, Addr(Get(s.regs, c.dest), 4 * i + c.ofs), 4, v) && Get(s'.regs, Regs4(c, i).w) == v
    ensures s'.trace == s.trace && forall r: nat | r < c.reg :: Get(s'.regs, r) == Get(s.regs, r)
  {
    var v := LoadWord(s.mem, Addr(Get(s.regs, c.src), 4 * i), SW);
    var s1 := SetReg(s, Regs4(c, i).w, v);
    RunOne(sem, LoadSrc(c, i), s);
    RunOne(sem, StoreDest(c, i), s1);
    RunAppend(sem, [LoadSrc(c, i)], [StoreDest(c, i)], s);
    s' := s1.(mem := Store(s.mem, Addr(Get(s.regs, c.dest), 4 * i + c.ofs), 4, v));
  }

  /** The source holds the bytes b. */
  ghost predicate SourceHolds(m: Mem, x: Word, b: seq<Byte>) {
    |b| == MAXSTRINGLEN && forall k: nat | k < MAXSTRINGLEN :: ByteAt(m, Addr(x, k)) == b[k]
  }

  lemma LoadedWord(m: Mem, x: Word, b: seq<Byte>, i: nat)
    requires SourceHolds(m, x, b) && i < 16
    ensures BytesOf(Load(m, Addr(x, 4 * i), 4), b, i)
  {
    LoadByte(m, x, 4 * i, 4, 0);
    LoadByte(m, x, 4 * i, 4, 1);
    LoadByte(m, x, 4 * i, 4, 2);
    LoadByte(m, x, 4 * i, 4, 3);
  }

  lemma FoundIs(v: nat, b: seq<Byte>, i: nat, all: Word)
    requires 4 * i + 4 <= |b| && BytesOf(v, b, i) && Found(v, 4, all)
    ensures all == 0 <==> HasZero(b, i)
  {
    if all == 0 {
      var k: nat :| k < 4 && ByteOf(v, k) == 0;
      assert k == 0 || k == 1 || k == 2 || k == 3;
    }
  }

  /** Registers below the copy's own, and the calls made, are as before. */
  ghost predicate Kept(c: Copy, s: State, s': State) {
    s'.trace == s.trace && forall r: nat | r < c.reg :: Get(s'.regs, r) == Get(s.regs, r)
  }

  function StopRes(taken: bool, s: State): Res {
    if taken then Taken(s) else Fall(s)
  }

  lemma StopRuns(sem: Sem, c: Copy, i: nat, s: State)
    ensures Run(sem, [StopTest(c, i)], s) == StopRes(Get(s.regs, Regs4(c, i).all) == 0, s)
  {
    RunOne(sem, StopTest(c, i), s);
    assert Wrap(0) == 0;
  }

  /** Word i copied and tested. */
  lemma CopyRuns(sem: Sem, c: Copy, i: nat, b: seq<Byte>, s: State) returns (s': State, v: nat)
    requires Standard(sem) && sem.guard == {} && c.src < c.reg && c.dest < c.reg && i < 15
    requires SourceHolds(s.mem, Get(s.regs, c.src), b)
    ensures Run(sem, CopyBlock(c, i).insns, s) == StopRes(HasZero(b, i), s')
    ensures Kept(c, s, s') && BytesOf(v, b, i) && s'.mem == Store(s.mem, Addr(Get(s.regs, c.dest), 4 * i + c.ofs), 4, v)
  {
    var r := Regs4(c, i);
    v := Load(s.mem, Addr(Get(s.regs, c.src), 4 * i), 4);
    LoadedWord(s.mem, Get(s.regs, c.src), b, i);
    var s1 := MoveRuns(sem, c, i, s);
    s' := TestRuns(sem, r, 0, s1);
    FoundIs(v, b, i, Get(s'.regs, r.all));
    StopRuns(sem, c, i, s');
    RunAppend(sem, TestInsns(r, 0), [StopTest(c, i)], s1);
    RunAppend(sem, MoveWord(c, i), TestInsns(r, 0) + [StopTest(c, i)], s);
  }

  /** Where the copy goes after word i. */
  function AfterWord(c: Copy, i: nat, b: seq<Byte>): nat
    requires |b| == MAXSTRINGLEN && i < 16
  {
    if i == 15 then ReturnBlk(c) else if HasZero(b, i) then StopBlk(c, i) else CopyBlk(c, i + 1)
  }

  lemma CopyStep(sem: Sem, c: Copy, i: nat, b: seq<Byte>, s: State) returns (s': State, v: nat)
    requires Standard(sem) && sem.guard == {} && c.src < c.reg && c.dest < c.reg && i < 16
    requires SourceHolds(s.mem, Get(s.regs, c.src), b)
    ensures StepBlock(sem, CopyBlock(c, i), s) == Goto(AfterWord(c, i, b), s')
    ensures Kept(c, s, s') && BytesOf(v, b, i) && s'.mem == Store(s.mem, Addr(Get(s.regs, c.dest), 4 * i + c.ofs), 4, v)
  {
    if i < 15 {
      s', v := CopyRuns(sem, c, i, b, s);
    } else {
      v := Load(s.mem, Addr(Get(s.regs, c.src), 4 * i), 4);
      LoadedWord(s.mem, Get(s.regs, c.src), b, i);
      s' := MoveRuns(sem, c, i, s);
    }
  }

  /** What the block that clears word i does. */
  function ZeroNext(c: Copy, i: nat, s: State): Step {
    Goto(if i < 15 then ZeroBlk(c, i + 1) else ReturnBlk(c), StoredState(s, Get(s.regs, c.dest), 4 * i + c.ofs, 0))
  }

  lemma ZeroStep(sem: Sem, c: Copy, i: nat, s: State)
    requires sem.guard == {}
    ensures StepBlock(sem, ZeroBlock(c, i), s) == ZeroNext(c, i, s)
  {
    StoreImmRuns(sem, c.dest, 4 * i + c.ofs, 0, s);
    RunOne(sem, StoreImm(c.dest, 4 * i + c.ofs, 0), s);
  }

  /** What the block for the empty string does. */
  ghost predicate EmptyNext(c: Copy, s: State, x: Step) {
    x.Goto? && x.b == ReturnBlk(c) && Kept(c, s, x.s)
    && x.s.mem == Store(s.mem, Addr(Get(s.regs, c.dest), 4 * 0 + c.ofs), 4, 0)
  }

  lemma EmptyStore(dest: nat, ofs: int)
    ensures LiteralStores(dest, ofs, [], 0, 1) == [StoreImm(dest, ofs, 0)]
  {
    assert LiteralStores(dest, ofs, [], 1, 1) == [];
  }

  lemma AddressMoves(sem: Sem, d: nat, ofs: int, r: nat, s: State) returns (s': State)
    ensures Run(sem, [AluK(Add, r + 1, d, ofs)] + [Mov(r, Reg(r + 1))], s) == Fall(s')
    ensures s'.mem == s.mem && s'.trace == s.trace && forall q: nat | q < r :: Get(s'.regs, q) == Get(s.regs, q)
  {
    var s1 := SetReg(s, r + 1, sem.alu(Add, Get(s.regs, d), Wrap(ofs)));
    RunOne(sem, AluK(Add, r + 1, d, ofs), s);
    RunOne(sem, Mov(r, Reg(r + 1)), s1);
    RunAppend(sem, [AluK(Add, r + 1, d, ofs)], [Mov(r, Reg(r + 1))], s);
    s' := SetReg(s1, r, Get(s1.regs, r + 1));
  }

  lemma EmptyStep(sem: Sem, c: Copy, s: State)
    requires sem.guard == {}
    ensures EmptyNext(c, s, StepBlock(sem, EmptyBlock(c), s))
  {
    var rest := [AluK(Add, c.reg + 1, c.dest, c.ofs)] + [Mov(c.reg, Reg(c.reg + 1))];
    var s1 := StoredState(s, Get(s.regs, c.dest), c.ofs, 0);
    EmptyStore(c.dest, c.ofs);
    assert EmptyInsns(c) == [StoreImm(c.dest, c.ofs, 0)] + rest;
    StoreImmRuns(sem, c.dest, c.ofs, 0, s);
    RunOne(sem, StoreImm(c.dest, c.ofs, 0), s);
    var s2 := AddressMoves(sem, c.dest, c.ofs, c.reg, s1);
    RunAppend(sem, [StoreImm(c.dest, c.ofs, 0)], rest, s);
  }

  /** What the block that copies word i does, when the source holds b. */
  ghost predicate CopyNext(c: Copy, i: nat, b: seq<Byte>, s: State, x: Step, v: nat)
    requires |b| == MAXSTRINGLEN && i < 16
  {
    x.Goto? && x.b == AfterWord(c, i, b) && Kept(c, s, x.s) && BytesOf(v, b, i)
    && x.s.mem == Store(s.mem, Addr(Get(s.regs, c.dest), 4 * i + c.ofs), 4, v)
  }

  ghost predicate CanCopy(step: Stepper, c: Copy, i: nat, b: seq<Byte>, s: State)
    requires |b| == MAXSTRINGLEN && i < 16
  {
    exists v: nat :: CopyNext(c, i, b, s, step(CopyBlk(c, i), s), v)
  }

  /** A machine on which the blocks of the copy act as they should. */
  ghost predicate Copies(step: Stepper, c: Copy) {
    c.src < c.reg && c.dest < c.reg && -0x1000 < c.ofs < 0x1000
    && (c.pad ==>
          forall i: nat, s {:trigger ZeroNext(c, i, s)} | i < 16 :: step(ZeroBlk(c, i), s) == ZeroNext(c, i, s))
    && (!c.pad ==> forall s :: EmptyNext(c, s, step(NullBlk(c), s)))
    && (forall i: nat, b: seq<Byte>, s: State {:trigger CanCopy(step, c, i, b, s)} |
          i < 16 && |b| == MAXSTRINGLEN && SourceHolds(s.mem, Get(s.regs, c.src), b) :: CanCopy(step, c, i, b, s))
  }

  /** The emitted blocks do. */
  lemma BlocksCopy(sem: Sem, p: seq<Block>, c: Copy)
    requires Standard(sem) && sem.guard == {} && HasCopy(p, c)
    ensures Copies(Stepping(sem, p), c)
  {
    var step := Stepping(sem, p);
    forall i: nat, s | i < 16 && c.pad ensures step(ZeroBlk(c, i), s) == ZeroNext(c, i, s) { ZeroStep(sem, c, i, s); }
    forall s | !c.pad ensures EmptyNext(c, s, step(NullBlk(c), s)) { EmptyStep(sem, c, s); }
    forall i: nat, b: seq<Byte>, s: State | i < 16 && |b| == MAXSTRINGLEN && SourceHolds(s.mem, Get(s.regs, c.src), b)
      ensures CanCopy(step, c, i, b, s)
    {
      var s', v := CopyStep(sem, c, i, b, s);
      assert CopyNext(c, i, b, s, step(CopyBlk(c, i), s), v);
    }
  }

  // ----- the whole copy -----

  /** The copy is done up to word i of the image, and has not gone further. */
  ghost predicate Progress(c: Copy, s0: State, s: State, img: seq<Byte>, i: nat) {
    |img| == MAXSTRINGLEN && i <= 16 && Kept(c, s0, s)
    && Written(s.mem, Get(s0.regs, c.dest), c.ofs, img, 0, 4 * i)
    && Untouched(s0.mem, s.mem, Get(s0.regs, c.dest), c.ofs, 4 * i)
    && Elsewhere(s0.mem, s.mem, Get(s0.regs, c.dest), c.ofs)
  }

  lemma StoreProgress(c: Copy, s0: State, s: State, s': State, img: seq<Byte>, i: nat, v: nat)
    requires Progress(c, s0, s, img, i) && i < 16 && c.dest < c.reg && -0x1000 < c.ofs < 0x1000
    requires Kept(c, s, s') && BytesOf(v, img, i)
    requires s'.mem == Store(s.mem, Addr(Get(s.regs, c.dest), 4 * i + c.ofs), 4, v)
    ensures Progress(c, s0, s', img, i + 1)
  {
    var d := Get(s0.regs, c.dest);
    StoreExtends(s.mem, d, c.ofs, img, i, v);
    StoreElsewhere(s.mem, d, c.ofs, i, v);
    StoreLeaves(s.mem, d, c.ofs, i, v);
    ElsewhereTrans(s0.mem, s.mem, s'.mem, d, c.ofs);
    UntouchedTrans(s0.mem, s.mem, s'.mem, d, c.ofs, 4 * i, 4 * i + 4);
  }

  lemma OneMore(step: Stepper, b: nat, s: State, n: nat)
    ensures Steps(step, Goto(b, s), n + 1) == Steps(step, step(b, s), n)
    ensures Steps(step, step(b, s), 0) == step(b, s)
  {
  }

  lemma {:induction false} ZeroRun(step: Stepper, c: Copy, s0: State, s: State, img: seq<Byte>, i: nat)
    returns (n: nat, s': State)
    requires Copies(step, c) && c.pad && i < 16 && Progress(c, s0, s, img, i)
    requires forall k | 4 * i <= k < MAXSTRINGLEN :: img[k] == 0
    ensures Steps(step, Goto(ZeroBlk(c, i), s), n) == Goto(ReturnBlk(c), s') && Progress(c, s0, s', img, 16)
    decreases 16 - i
  {
    var next := ZeroNext(c, i, s);
    ZeroBytes(img, i);
    StoreProgress(c, s0, s, next.s, img, i, 0);
    if i == 15 {
      n, s' := 0, next.s;
    } else {
      n, s' := ZeroRun(step, c, s0, next.s, img, i + 1);
    }
    OneMore(step, ZeroBlk(c, i), s, n);
    n := n + 1;
  }

  /** Source and destination do not overlap. */
  ghost predicate Apart(x: Word, d: Word, ofs: int) {
    forall k: nat | k < MAXSTRINGLEN :: Addr(x, k) !in Range(Addr(d, ofs), MAXSTRINGLEN)
  }

  lemma SourceStays(c: Copy, s0: State, s: State, b: seq<Byte>)
    requires SourceHolds(s0.mem, Get(s0.regs, c.src), b) && Apart(Get(s0.regs, c.src), Get(s0.regs, c.dest), c.ofs)
    requires c.src < c.reg && Kept(c, s0, s) && Elsewhere(s0.mem, s.mem, Get(s0.regs, c.dest), c.ofs)
    ensures SourceHolds(s.mem, Get(s.regs, c.src), b)
  {
  }

  lemma CopiedWord(b: seq<Byte>, i: nat, v: nat)
    requires |b| == MAXSTRINGLEN && i <= StopWord(b, 0) && BytesOf(v, b, i)
    ensures BytesOf(v, Copied(b), i)
  {
  }

  lemma WordCopied(c: Copy, s0: State, s: State, b: seq<Byte>, i: nat, x: Step, v: nat)
    requires |b| == MAXSTRINGLEN && i <= 15 && i <= StopWord(b, 0) && c.dest < c.reg && -0x1000 < c.ofs < 0x1000
    requires Progress(c, s0, s, Copied(b), i) && CopyNext(c, i, b, s, x, v)
    ensures Progress(c, s0, x.s, Copied(b), i + 1)
  {
    CopiedWord(b, i, v);
    StoreProgress(c, s0, s, x.s, Copied(b), i, v);
  }

  lemma WordMoves(step: Stepper, c: Copy, b: seq<Byte>, s: State, i: nat) returns (v: nat)
    requires Copies(step, c) && i <= 15 && SourceHolds(s.mem, Get(s.regs, c.src), b)
    ensures CopyNext(c, i, b, s, step(CopyBlk(c, i), s), v)
  {
    assert CanCopy(step, c, i, b, s);
    v :| CopyNext(c, i, b, s, step(CopyBlk(c, i), s), v);
  }

  /** One word. */
  lemma CopyOnce(step: Stepper, c: Copy, s0: State, s: State, b: seq<Byte>, i: nat) returns (s': State)
    requires Copies(step, c) && i <= 15
    requires SourceHolds(s0.mem, Get(s0.regs, c.src), b) && Apart(Get(s0.regs, c.src), Get(s0.regs, c.dest), c.ofs)
    requires i <= StopWord(b, 0) && Progress(c, s0, s, Copied(b), i)
    ensures step(CopyBlk(c, i), s) == Goto(AfterWord(c, i, b), s') && Progress(c, s0, s', Copied(b), i + 1)
  {
    SourceStays(c, s0, s, b);
    var v := WordMoves(step, c, b, s, i);
    WordCopied(c, s0, s, b, i, step(CopyBlk(c, i), s), v);
    s' := step(CopyBlk(c, i), s).s;
  }

  /** A null source. */
  lemma NullRun(step: Stepper, c: Copy, s: State) returns (n: nat, s': State)
    requires Copies(step, c)
    ensures Steps(step, Goto(NullBlk(c), s), n) == Goto(ReturnBlk(c), s')
    ensures Progress(c, s, s', Image([]), if c.pad then 16 else 1)
  {
    if c.pad {
      n, s' := ZeroRun(step, c, s, s, Image([]), 0);
    } else {
      var next := step(NullBlk(c), s);
      assert EmptyNext(c, s, next);
      ZeroBytes(Image([]), 0);
      StoreProgress(c, s, s, next.s, Image([]), 0, 0);
      OneMore(step, NullBlk(c), s, 0);
      n, s' := 1, next.s;
    }
  }

  /** The copy leaves its blocks after word i exactly at the stop. */
  lemma AfterIs(c: Copy, b: seq<Byte>, i: nat)
    requires |b| == MAXSTRINGLEN && i <= StopWord(b, 0) && i < 15
    ensures AfterWord(c, i, b) == if i == StopWord(b, 0) then StopBlk(c, i) else CopyBlk(c, i + 1)
    ensures i == StopWord(b, 0) ==> forall k | 4 * (i + 1) <= k < MAXSTRINGLEN :: Copied(b)[k] == 0
  {
  }

  /** How many words are written. */
  function CopyWords(c: Copy, b: seq<Byte>): nat
    requires |b| == MAXSTRINGLEN
  {
    if c.pad then 16 else StopWord(b, 0) + 1
  }

  /** From the word that holds the terminator, once it is copied. */
  lemma StopRun(step: Stepper, c: Copy, s0: State, s: State, b: seq<Byte>, i: nat) returns (n: nat, s': State)
    requires Copies(step, c) && |b| == MAXSTRINGLEN && i == StopWord(b, 0) < 15
    requires Progress(c, s0, s, Copied(b), i + 1)
    ensures Steps(step, Goto(StopBlk(c, i), s), n) == Goto(ReturnBlk(c), s')
    ensures Progress(c, s0, s', Copied(b), CopyWords(c, b))
  {
    if c.pad {
      AfterIs(c, b, i);
      n, s' := ZeroRun(step, c, s0, s, Copied(b), i + 1);
    } else {
      n, s' := 0, s;
    }
  }

  /** From word i on, as long as no zero byte has been met. */
  lemma {:induction false} CopyRun(step: Stepper, c: Copy, s0: State, s: State, b: seq<Byte>, i: nat)
    returns (n: nat, s': State)
    requires Copies(step, c) && i <= 15
    requires SourceHolds(s0.mem, Get(s0.regs, c.src), b) && Apart(Get(s0.regs, c.src), Get(s0.regs, c.dest), c.ofs)
    requires i <= StopWord(b, 0) && Progress(c, s0, s, Copied(b), i)
    ensures Steps(step, Goto(CopyBlk(c, i), s), n) == Goto(ReturnBlk(c), s')
    ensures Progress(c, s0, s', Copied(b), CopyWords(c, b))
    decreases 16 - i
  {
    var s1 := CopyOnce(step, c, s0, s, b, i);
    if i == 15 {
      n, s' := 0, s1;
    } else {
      AfterIs(c, b, i);
      if i < StopWord(b, 0) {
        n, s' := CopyRun(step, c, s0, s1, b, i + 1);
      } else {
        n, s' := StopRun(step, c, s0, s1, b, i);
      }
    }
    OneMore(step, CopyBlk(c, i), s, n);
    n := n + 1;
  }

  lemma ZeroBytes(img: seq<Byte>, i: nat)
    requires |img| == MAXSTRINGLEN && i < 16 && forall k | 4 * i <= k < MAXSTRINGLEN :: img[k] == 0
    ensures BytesOf(0, img, i)
  {
    assert ByteOf(0, 1) == ByteOf(0 / 256, 0) && ByteOf(0, 2) == ByteOf(0 / 256, 1)
      && ByteOf(0, 3) == ByteOf(0 / 256, 2);
  }

  // ----- both ways agree -----

  /** The 64 bytes a copy of b leaves where old was. */
  function Left(c: Copy, b: seq<Byte>, was: seq<Byte>): seq<Byte>
    requires |b| == |was| == MAXSTRINGLEN
  {
    Over(Copied(b), 4 * CopyWords(c, b), was)
  }

  /** emit_string_copy at run time: from its first block the program reaches the
      return block, and the destination is the copied image; nothing else in
      memory has changed. */
  lemma CopyLeaves(sem: Sem, p: seq<Block>, c: Copy, b: seq<Byte>, s: State) returns (n: nat, s': State)
    requires Standard(sem) && sem.guard == {} && HasCopy(p, c)
    requires SourceHolds(s.mem, Get(s.regs, c.src), b) && Apart(Get(s.regs, c.src), Get(s.regs, c.dest), c.ofs)
    ensures Steps(Stepping(sem, p), Goto(CopyBlk(c, 0), s), n) == Goto(ReturnBlk(c), s')
    ensures var d := Get(s.regs, c.dest);
      Written(s'.mem, d, c.ofs, Left(c, b, Area(s.mem, d, c.ofs)), 0, MAXSTRINGLEN)
    ensures Elsewhere(s.mem, s'.mem, Get(s.regs, c.dest), c.ofs) && Kept(c, s, s')
  {
    BlocksCopy(sem, p, c);
    n, s' := CopyRun(Stepping(sem, p), c, s, s, b, 0);
    WrittenOver(s.mem, s'.mem, Get(s.regs, c.dest), c.ofs, Copied(b), 4 * CopyWords(c, b));
  }

  /** A null source gives the empty string. */
  lemma NullLeaves(sem: Sem, p: seq<Block>, c: Copy, s: State) returns (n: nat, s': State)
    requires Standard(sem) && sem.guard == {} && HasCopy(p, c)
    ensures Steps(Stepping(sem, p), Goto(NullBlk(c), s), n) == Goto(ReturnBlk(c), s')
    ensures var d := Get(s.regs, c.dest);
      Written(s'.mem, d, c.ofs, Left(c, Image([]), Area(s.mem, d, c.ofs)), 0, MAXSTRINGLEN)
    ensures Elsewhere(s.mem, s'.mem, Get(s.regs, c.dest), c.ofs) && Kept(c, s, s')
  {
    BlocksCopy(sem, p, c);
    n, s' := NullRun(Stepping(sem, p), c, s);
    EmptyCopied(c);
    WrittenOver(s.mem, s'.mem, Get(s.regs, c.dest), c.ofs, Image([]), 4 * CopyWords(c, Image([])));
  }

  /** A null source and an empty string come to the same. */
  lemma EmptyCopied(c: Copy)
    ensures Copied(Image([])) == Image([]) && CopyWords(c, Image([])) == if c.pad then 16 else 1
  {
    ImageText([]);
  }

  /** Where the words of a literal end: at the word of its terminator, or at the
      end of the area. */
  function LiteralWords(str: seq<Byte>, zeroPad: bool): nat {
    var n := (|str| + 4) / 4;
    if zeroPad && n < 16 then 16 else n
  }

  /** The bytes left are those of the string as a literal, padded or not, exactly
      when the word of the terminator is zero-filled in the source. */
  lemma LeftIff(c: Copy, b: seq<Byte>, was: seq<Byte>)
    requires |b| == |was| == MAXSTRINGLEN && LengthFrom(b, 0) < MAXSTRINGLEN
    ensures 4 * LiteralWords(Text(b), c.pad) == 4 * CopyWords(c, b) <= MAXSTRINGLEN
    ensures Left(c, b, was) == Over(Image(Text(b)), 4 * LiteralWords(Text(b), c.pad), was) <==> ZeroFilled(b)
  {
    var n := LengthFrom(b, 0);
    StopIsLength(b);
    CutsAtWord(b, n);
    OverIff(b, n, 4 * CopyWords(c, b), was);
  }

  lemma OverIff(b: seq<Byte>, n: nat, end: nat, was: seq<Byte>)
    requires |b| == |was| == MAXSTRINGLEN && n == LengthFrom(b, 0) < MAXSTRINGLEN
    requires WordEnd(n) <= end <= MAXSTRINGLEN && Copied(b) == b[..WordEnd(n)] + Zeros(|b| - WordEnd(n))
    ensures Over(Copied(b), end, was) == Over(Image(Text(b)), end, was) <==> ZeroFilled(b)
  {
    CopiedIff(b);
    if Over(Copied(b), end, was) == Over(Image(Text(b)), end, was) { CutSame(Copied(b), Image(Text(b)), end, was); }
    if Copied(b)[..end] == Image(Text(b))[..end] { FilledIn(b, n, end); }
  }

  lemma CutSame(x: seq<Byte>, y: seq<Byte>, end: nat, was: seq<Byte>)
    requires end <= |x| == |y| == |was| && Over(x, end, was) == Over(y, end, was)
    ensures x[..end] == y[..end]
  {
    assert Over(x, end, was)[..end] == x[..end] && Over(y, end, was)[..end] == y[..end];
  }

  lemma FilledIn(b: seq<Byte>, n: nat, end: nat)
    requires |b| == MAXSTRINGLEN && n == LengthFrom(b, 0) < WordEnd(n) <= end <= MAXSTRINGLEN
    requires Copied(b) == b[..WordEnd(n)] + Zeros(|b| - WordEnd(n)) && Copied(b)[..end] == Image(Text(b))[..end]
    ensures ZeroFilled(b)
  {
    forall j | n <= j < WordEnd(n) ensures b[j] == 0 {
      assert b[j] == Copied(b)[..end][j] == Image(Text(b))[j];
    }
  }

  /** Whatever was there, what is left reads as the string. */
  lemma LeftReads(c: Copy, b: seq<Byte>, was: seq<Byte>)
    requires |b| == |was| == MAXSTRINGLEN
    ensures Text(Left(c, b, was)) == Text(b)
  {
    var x, n := Left(c, b, was), LengthFrom(b, 0);
    if n < MAXSTRINGLEN { StopIsLength(b); } else { NoStop(b); }
    SameText(b, x, 4 * StopWord(b, 0) + 4);
  }

  /** For a NUL-free string of at most 63 bytes that is zero-filled in the
      source, copying it at run time and storing it as a literal leave the same
      memory. */
  lemma PathsAgree(sem: Sem, p: seq<Block>, c: Copy, str: seq<Byte>, b: seq<Byte>, s: State)
    returns (n: nat, copied: State, stored: State)
    requires Standard(sem) && sem.guard == {} && HasCopy(p, c)
    requires |str| < MAXSTRINGLEN && |b| == MAXSTRINGLEN && Text(b) == str && ZeroFilled(b)
    requires SourceHolds(s.mem, Get(s.regs, c.src), b) && Apart(Get(s.regs, c.src), Get(s.regs, c.dest), c.ofs)
    ensures Steps(Stepping(sem, p), Goto(CopyBlk(c, 0), s), n) == Goto(ReturnBlk(c), copied)
    ensures Run(sem, LiteralStores(c.dest, c.ofs, str, 0, LiteralWords(str, c.pad)), s) == Fall(stored)
    ensures forall a :: ByteAt(copied.mem, a) == ByteAt(stored.mem, a)
  {
    var d, w := Get(s.regs, c.dest), LiteralWords(str, c.pad);
    LeftIff(c, b, Area(s.mem, d, c.ofs));
    n, copied := CopyLeaves(sem, p, c, b, s);
    stored := LiteralRuns(sem, c.dest, c.ofs, str, 0, w, s);
    WrittenOver(s.mem, stored.mem, d, c.ofs, Image(str), 4 * w);
    SameEverywhere(s.mem, copied.mem, stored.mem, d, c.ofs, Left(c, b, Area(s.mem, d, c.ofs)));
  }

  lemma SameEverywhere(m: Mem, m1: Mem, m2: Mem, d: Word, ofs: int, img: seq<Byte>)
    requires |img| == MAXSTRINGLEN && Written(m1, d, ofs, img, 0, MAXSTRINGLEN)
    requires Written(m2, d, ofs, img, 0, MAXSTRINGLEN)
    requires Elsewhere(m, m1, d, ofs) && Elsewhere(m, m2, d, ofs)
    ensures forall a :: ByteAt(m1, a) == ByteAt(m2, a)
  {
    forall a ensures ByteAt(m1, a) == ByteAt(m2, a) {
      InRange(d, ofs, MAXSTRINGLEN, a);
      if a in Range(Addr(d, ofs), MAXSTRINGLEN) {
        var j :| ofs <= j < ofs + MAXSTRINGLEN && a == Addr(d, j);
        var k: nat := j - ofs;
        assert a == Addr(d, ofs + k);
        assert ByteAt(m1, Addr(d, ofs + k)) == img[k];
      }
    }
  }
}
