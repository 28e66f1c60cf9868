/** The code around every probe handler (add_prologue, add_epilogue): the blocks
    it consists of, and what they do on a machine with the map helpers. */
module Handlers {
  import opened Ir
  import opened Machine
  import opened Memory
  import opened Script
  import opened Fixup
  import opened Errors

  // ----- helpers and maps -----

  const LOOKUP: int := 1 // BPF_FUNC_map_lookup_elem
  const UPDATE: int := 2 // BPF_FUNC_map_update_elem
  const OUTPUT: int := 25 // BPF_FUNC_perf_event_output
  const INTERNAL_MAP: int := 0
  const PERF_MAP: int := 1
  const CURRENT_CPU: int := 0xffff_ffff
  const STP_ERROR: int := 1
  const STP_PRINT_ERROR_MSG: int := 3

  /** Where the values of the internal map are, and the cells of the ring buffer
      that receives the messages. */
  datatype Maps = Maps(slots: map<int, Word>, cells: seq<Word>)

  /** The messages sent so far. */
  function Sent(t: seq<Event>): nat {
    if t == [] then 0 else Sent(t[..|t| - 1]) + if t[|t| - 1].id == OUTPUT then 1 else 0
  }

  lemma SentMore(t: seq<Event>, e: Event)
    ensures Sent(t + [e]) == Sent(t) + if e.id == OUTPUT then 1 else 0
  {
    assert (t + [e])[..|t|] == t;
  }

  /** bpf_map_lookup_elem: the address of the value, or null. */
  ghost predicate Looks(sem: Sem, mp: Maps, args: seq<Word>, m: Mem, t: seq<Event>) {
    |args| == 2 && args[0] == sem.mapAddr(INTERNAL_MAP) ==>
      var key, out := Load(m, args[1], 4), sem.call(LOOKUP, args, m, t);
      out.mem == m && out.r0 == (if key in mp.slots then mp.slots[key] else 0)
      && sem.touch(LOOKUP, args, m, t) == Range(args[1], 4)
  }

  /** bpf_map_update_elem, of a key that is there: the value is copied. */
  ghost predicate Updates(sem: Sem, mp: Maps, args: seq<Word>, m: Mem, t: seq<Event>) {
    |args| == 4 && args[0] == sem.mapAddr(INTERNAL_MAP) && Load(m, args[1], 4) in mp.slots ==>
      var slot, out := mp.slots[Load(m, args[1], 4)], sem.call(UPDATE, args, m, t);
      out.mem == Store(m, slot, 8, Load(m, args[2], 8))
      && sem.touch(UPDATE, args, m, t) == Range(args[1], 4) + Range(args[2], 8) + Range(slot, 8)
  }

  /** bpf_perf_event_output of eight bytes: they go to the next cell. */
  ghost predicate Outputs(sem: Sem, mp: Maps, args: seq<Word>, m: Mem, t: seq<Event>) {
    |args| == 5 && args[1] == sem.mapAddr(PERF_MAP) && args[2] == CURRENT_CPU && args[4] ==
    8 && Sent(t) < |mp.cells| ==>
      var cell, out := mp.cells[Sent(t)], sem.call(OUTPUT, args, m, t);
      out.mem == Store(m, cell, 8, Load(m, args[3], 8))
      && sem.touch(OUTPUT, args, m, t) == Range(args[3], 8) + Range(cell, 8)
  }

  /** A machine with the arithmetic of RFC 9669 and these helpers. */
  ghost predicate HasHelpers(sem: Sem, mp: Maps) {
    Standard(sem)
    && forall args, m, t
         {:trigger Looks(sem, mp, args, m, t)} {:trigger Updates(sem, mp, args, m, t)}
         {:trigger Outputs(sem, mp, args, m, t)} ::
      Looks(sem, mp, args, m, t) && Updates(sem, mp, args, m, t) && Outputs(sem, mp, args, m, t)
  }

  // ----- the instructions -----

  function FrameStore(sz: Size, off: int, v: int): Insn {
    Insn(St(sz), off, None, Some(Reg(FRAME)), Some(Imm(v)))
  }

  function LoadMap(d: nat, id: int): Insn {
    Insn(LdMap, 0, Some(d), None, Some(Imm(id)))
  }

  function FrameAddr(d: nat, off: int): Insn {
    Insn(Alu(Add, false), 0, Some(d), Some(Reg(FRAME)), Some(Imm(off)))
  }

  function CallTo(id: int, nargs: int): Insn {
    Insn(Call, nargs, None, None, Some(Imm(id)))
  }

  /** bpf_map_lookup_elem of a key of the internal map; the result is in R0. */
  function LookupInsns(key: int): seq<Insn> {
    [FrameStore(SW, -4, key), LoadMap(1, INTERNAL_MAP), FrameAddr(2, -4), CallTo(LOOKUP, 2)]
  }

  /** emit_transport_msg without an argument. */
  function MessageInsns(msg: int): seq<Insn> {
    [FrameStore(SDW, -8, msg), Mov(1, Reg(6)), LoadMap(2, PERF_MAP), Mov(3, Imm(CURRENT_CPU)), FrameAddr(4, -8),
     Mov(5, Imm(8)), CallTo(OUTPUT, 5)]
  }

  function LoadValue(d: nat): Insn {
    Insn(Ldx(SDW), 0, Some(d), None, Some(Reg(0)))
  }

  function Increment(d: nat): Insn {
    Insn(Alu(Add, false), 0, Some(d), Some(Reg(d)), Some(Imm(1)))
  }

  /** bpf_map_update_elem of the error count. */
  function UpdateInsns(count: nat): seq<Insn> {
    [CountStore(count), FrameStore(SW, -12, ERRORS), LoadMap(1, INTERNAL_MAP),
     FrameAddr(2, -12), FrameAddr(3, -8), Mov(4, Imm(0)), CallTo(UPDATE, 4)]
  }

  // ----- one instruction after the other -----

  lemma Then(sem: Sem, i: Insn, rest: seq<Insn>, s: State, s1: State)
    requires !IsControl(i.code) && Exec(sem, i, s) == Some(s1)
    ensures Run(sem, [i] + rest, s) == Run(sem, rest, s1)
  {
    RunCons(sem, [i] + rest, s);
    assert ([i] + rest)[1..] == rest;
  }

  /** The n bytes at this offset of the frame may be used. */
  predicate Free(sem: Sem, fp: Word, off: int, n: nat) {
    Range(Addr(fp, off), n) !! sem.guard
  }

  lemma FrameStored(sem: Sem, sz: Size, off: int, v: nat, s: State)
    requires Free(sem, Get(s.regs, FRAME), off, Bytes(sz)) && v < M64
    ensures Exec(sem, FrameStore(sz, off, v), s) ==
      Some(s.(mem := Store(s.mem, Addr(Get(s.regs, FRAME), off), Bytes(sz), v)))
  {
  }

  function CountStore(count: nat): Insn {
    Insn(Stx(SDW), -8, None, Some(Reg(FRAME)), Some(Reg(count)))
  }

  lemma CountStored(sem: Sem, count: nat, s: State)
    requires Free(sem, Get(s.regs, FRAME), -8, 8)
    ensures Exec(sem, CountStore(count), s) ==
      Some(s.(mem := Store(s.mem, Addr(Get(s.regs, FRAME), -8), 8, Get(s.regs, count))))
  {
  }

  lemma MapLoaded(sem: Sem, d: nat, id: int, s: State)
    ensures Exec(sem, LoadMap(d, id), s) == Some(s.(regs := s.regs[d := sem.mapAddr(id)]))
  {
  }

  lemma AddressMade(sem: Sem, d: nat, off: int, s: State)
    requires Standard(sem)
    ensures Exec(sem, FrameAddr(d, off), s) == Some(s.(regs := s.regs[d := Addr(Get(s.regs, FRAME), off)]))
  {
    WrapShift(Get(s.regs, FRAME) as int + Wrap(off), Get(s.regs, FRAME) as int + off, -(off / M64));
  }

  lemma Moved(sem: Sem, d: nat, v: Value, s: State)
    ensures !IsControl(Mov(d, v).code)
    ensures Exec(sem, Mov(d, v), s) == Some(s.(regs := s.regs[d := First(Some(v), s.regs)]))
  {
  }

  /** What a call leaves: the result in R0, the registers from R6 on, one more
      call made. */
  ghost predicate Called(s: State, s': State, id: int, r0: Word, m: Mem) {
    s'.mem == m && Get(s'.regs, 0) == r0 && (forall r: nat | r > 5 :: Get(s'.regs, r) == Get(s.regs, r))
    && |s'.trace| == |s.trace| + 1 && s'.trace[..|s.trace|] == s.trace && s'.trace[|s.trace|].id == id
  }

  lemma CallRuns(sem: Sem, id: int, nargs: nat, s: State, args: seq<Word>)
    requires args == Args(s.regs, nargs) && sem.touch(id, args, s.mem, s.trace) !! sem.guard
    ensures var out := sem.call(id, args, s.mem, s.trace);
      Run(sem, [CallTo(id, nargs)], s).Fall? && Called(s, Run(sem, [CallTo(id, nargs)], s).s, id, out.r0, out.mem)
  {
    RunOne(sem, CallTo(id, nargs), s);
    GetClobber(s.regs, sem.call(id, args, s.mem, s.trace));
  }

  lemma TwoArgs(m: RegFile)
    ensures Args(m, 2) == [Get(m, 1), Get(m, 2)]
  {
  }

  lemma FourArgs(m: RegFile)
    ensures Args(m, 4) == [Get(m, 1), Get(m, 2), Get(m, 3), Get(m, 4)]
  {
  }

  lemma FiveArgs(m: RegFile)
    ensures Args(m, 5) == [Get(m, 1), Get(m, 2), Get(m, 3), Get(m, 4), Get(m, 5)]
  {
  }

  lemma FrameLoad(m: Mem, fp: Word, off: int, n: nat, v: nat)
    requires (n == 4 && v < 0x1_0000_0000) || (n == 8 && v < M64)
    ensures Load(Store(m, Addr(fp, off), n, v), Addr(fp, off), n) == v
  {
    LoadWordBound(n);
    LoadStore(m, fp, off, n, v);
  }

  lemma LoadWordBound(n: nat)
    requires n == 4 || n == 8
    ensures Pow256(n) == if n == 4 then 0x1_0000_0000 else M64
  {
    assert Pow256(n - 2) == 256 * (256 * Pow256(n - 4));
    assert Pow256(n) == 256 * (256 * Pow256(n - 2));
    if n == 8 { LoadWordBound(4); }
  }

  // ----- stores into the frame -----

  /** One store: only memory changes. */
  ghost predicate Stores(sem: Sem, i: Insn, s: State, s': State, m: Mem) {
    Run(sem, [i], s) == Fall(s') && s' == s.(mem := m)
  }

  lemma StoreStep(sem: Sem, sz: Size, off: int, v: nat, s: State) returns (s': State)
    requires Free(sem, Get(s.regs, FRAME), off, Bytes(sz)) && v < M64
    ensures Stores(sem, FrameStore(sz, off, v), s, s', Store(s.mem, Addr(Get(s.regs, FRAME), off), Bytes(sz), v))
  {
    FrameStored(sem, sz, off, v, s);
    RunOne(sem, FrameStore(sz, off, v), s);
    s' := Exec(sem, FrameStore(sz, off, v), s).value;
  }

  lemma CountStep(sem: Sem, count: nat, s: State) returns (s': State)
    requires Free(sem, Get(s.regs, FRAME), -8, 8)
    ensures Stores(sem, CountStore(count), s, s', Store(s.mem, Addr(Get(s.regs, FRAME), -8), 8, Get(s.regs, count)))
  {
    CountStored(sem, count, s);
    RunOne(sem, CountStore(count), s);
    s' := Exec(sem, CountStore(count), s).value;
  }

  // ----- arguments -----

  /** Only R1 to R5 change. */
  ghost predicate SetsArgs(sem: Sem, ins: seq<Insn>, s: State, s': State) {
    Run(sem, ins, s) == Fall(s') && s'.mem == s.mem && s'.trace == s.trace
    && forall r: nat | r > 5 || r == 0 :: Get(s'.regs, r) == Get(s.regs, r)
  }

  lemma LookupArgs(sem: Sem, s: State) returns (s': State)
    requires Standard(sem)
    ensures SetsArgs(sem, [LoadMap(1, INTERNAL_MAP), FrameAddr(2, -4)], s, s')
    ensures Get(s'.regs, 1) == sem.mapAddr(INTERNAL_MAP) && Get(s'.regs, 2) == Addr(Get(s.regs, FRAME), -4)
  {
    var s1 := s.(regs := s.regs[1 := sem.mapAddr(INTERNAL_MAP)]);
    s' := s1.(regs := s1.regs[2 := Addr(Get(s.regs, FRAME), -4)]);
    MapLoaded(sem, 1, INTERNAL_MAP, s);
    Then(sem, LoadMap(1, INTERNAL_MAP), [FrameAddr(2, -4)], s, s1);
    AddressMade(sem, 2, -4, s1);
    RunOne(sem, FrameAddr(2, -4), s1);
    assert [LoadMap(1, INTERNAL_MAP)] + [FrameAddr(2, -4)] == [LoadMap(1, INTERNAL_MAP), FrameAddr(2, -4)];
  }

  lemma ContextArgs(sem: Sem, s: State) returns (s': State)
    ensures SetsArgs(sem, [Mov(1, Reg(6)), LoadMap(2, PERF_MAP)], s, s') && Get(s'.regs, 2) == sem.mapAddr(PERF_MAP)
  {
    var s1 := s.(regs := s.regs[1 := Get(s.regs, 6)]);
    s' := s1.(regs := s1.regs[2 := sem.mapAddr(PERF_MAP)]);
    Moved(sem, 1, Reg(6), s);
    Then(sem, Mov(1, Reg(6)), [LoadMap(2, PERF_MAP)], s, s1);
    MapLoaded(sem, 2, PERF_MAP, s1);
    RunOne(sem, LoadMap(2, PERF_MAP), s1);
    assert [Mov(1, Reg(6))] + [LoadMap(2, PERF_MAP)] == [Mov(1, Reg(6)), LoadMap(2, PERF_MAP)];
  }

  lemma DataArgs(sem: Sem, s: State) returns (s': State)
    requires Standard(sem)
    ensures SetsArgs(sem, [Mov(3, Imm(CURRENT_CPU)), FrameAddr(4, -8), Mov(5, Imm(8))], s, s')
    ensures Get(s'.regs, 2) == Get(s.regs, 2) && Get(s'.regs, 3) == CURRENT_CPU
    ensures Get(s'.regs, 4) == Addr(Get(s.regs, FRAME), -8) && Get(s'.regs, 5) == 8
  {
    var s1 := s.(regs := s.regs[3 := CURRENT_CPU]);
    var s2 := s1.(regs := s1.regs[4 := Addr(Get(s.regs, FRAME), -8)]);
    s' := s2.(regs := s2.regs[5 := 8]);
    Moved(sem, 3, Imm(CURRENT_CPU), s);
    Then(sem, Mov(3, Imm(CURRENT_CPU)), [FrameAddr(4, -8)] + [Mov(5, Imm(8))], s, s1);
    AddressMade(sem, 4, -8, s1);
    Then(sem, FrameAddr(4, -8), [Mov(5, Imm(8))], s1, s2);
    Moved(sem, 5, Imm(8), s2);
    RunOne(sem, Mov(5, Imm(8)), s2);
    assert [Mov(3, Imm(CURRENT_CPU))] + ([FrameAddr(4, -8)] + [Mov(5, Imm(8))]) ==
      [Mov(3, Imm(CURRENT_CPU)), FrameAddr(4, -8), Mov(5, Imm(8))];
  }

  lemma MessageArgs(sem: Sem, s: State) returns (s': State)
    requires Standard(sem)
    ensures SetsArgs(sem,
                     [Mov(1, Reg(6)), LoadMap(2, PERF_MAP), Mov(3, Imm(CURRENT_CPU)), FrameAddr(4, -8), Mov(5, Imm(8))],
                     s, s')
    ensures Get(s'.regs, 2) == sem.mapAddr(PERF_MAP) && Get(s'.regs, 3) == CURRENT_CPU
    ensures Get(s'.regs, 4) == Addr(Get(s.regs, FRAME), -8) && Get(s'.regs, 5) == 8
  {
    var a, b := [Mov(1, Reg(6)), LoadMap(2, PERF_MAP)], [Mov(3, Imm(CURRENT_CPU)), FrameAddr(4, -8), Mov(5, Imm(8))];
    var s1 := ContextArgs(sem, s);
    s' := DataArgs(sem, s1);
    RunAppend(sem, a, b, s);
    assert a + b == [Mov(1, Reg(6)), LoadMap(2, PERF_MAP), Mov(3, Imm(CURRENT_CPU)), FrameAddr(4, -8), Mov(5, Imm(8))];
  }

  lemma UpdateArgs(sem: Sem, s: State) returns (s': State)
    requires Standard(sem)
    ensures SetsArgs(sem, [LoadMap(1, INTERNAL_MAP), FrameAddr(2, -12), FrameAddr(3, -8), Mov(4, Imm(0))], s, s')
    ensures Get(s'.regs, 1) == sem.mapAddr(INTERNAL_MAP) && Get(s'.regs, 2) == Addr(Get(s.regs, FRAME), -12)
    ensures Get(s'.regs, 3) == Addr(Get(s.regs, FRAME), -8)
  {
    var s1 := s.(regs := s.regs[1 := sem.mapAddr(INTERNAL_MAP)]);
    var s2 := s1.(regs := s1.regs[2 := Addr(Get(s.regs, FRAME), -12)]);
    var s3 := s2.(regs := s2.regs[3 := Addr(Get(s.regs, FRAME), -8)]);
    s' := s3.(regs := s3.regs[4 := 0]);
    var d, e := [FrameAddr(3, -8)] + [Mov(4, Imm(0))], [Mov(4, Imm(0))];
    MapLoaded(sem, 1, INTERNAL_MAP, s);
    Then(sem, LoadMap(1, INTERNAL_MAP), [FrameAddr(2, -12)] + d, s, s1);
    AddressMade(sem, 2, -12, s1);
    Then(sem, FrameAddr(2, -12), d, s1, s2);
    AddressMade(sem, 3, -8, s2);
    Then(sem, FrameAddr(3, -8), e, s2, s3);
    Moved(sem, 4, Imm(0), s3);
    RunOne(sem, Mov(4, Imm(0)), s3);
    FourForm(LoadMap(1, INTERNAL_MAP), FrameAddr(2, -12), FrameAddr(3, -8), Mov(4, Imm(0)));
  }

  lemma FourForm(a: Insn, b: Insn, c: Insn, d: Insn)
    ensures [a] + ([b] + ([c] + [d])) == [a, b, c, d]
  {
  }

  // ----- the calls -----

  lemma LookupCalls(sem: Sem, mp: Maps, s: State, a: Word, key: nat) returns (s': State)
    requires HasHelpers(sem, mp) && Range(a, 4) !! sem.guard
    requires Get(s.regs, 1) == sem.mapAddr(INTERNAL_MAP) && Get(s.regs, 2) == a && Load(s.mem, a, 4) == key
    ensures Run(sem, [CallTo(LOOKUP, 2)], s) == Fall(s')
    ensures Called(s, s', LOOKUP, if key in mp.slots then mp.slots[key] else 0, s.mem)
  {
    var args := Args(s.regs, 2);
    TwoArgs(s.regs);
    assert Looks(sem, mp, args, s.mem, s.trace);
    CallRuns(sem, LOOKUP, 2, s, args);
    s' := Run(sem, [CallTo(LOOKUP, 2)], s).s;
  }

  lemma MessageCalls(sem: Sem, mp: Maps, s: State, a: Word, x: Word) returns (s': State)
    requires HasHelpers(sem, mp) && Sent(s.trace) < |mp.cells|
    requires (Range(a, 8) + Range(mp.cells[Sent(s.trace)], 8)) !! sem.guard
    requires Get(s.regs, 2) == sem.mapAddr(PERF_MAP) && Get(s.regs, 3) == CURRENT_CPU && Get(s.regs, 4) == a
    requires Get(s.regs, 5) == 8 && Load(s.mem, a, 8) == x
    ensures Run(sem, [CallTo(OUTPUT, 5)], s) == Fall(s')
    ensures exists r0 :: Called(s, s', OUTPUT, r0, Store(s.mem, mp.cells[Sent(s.trace)], 8, x))
  {
    var args := Args(s.regs, 5);
    FiveArgs(s.regs);
    assert Outputs(sem, mp, args, s.mem, s.trace);
    CallRuns(sem, OUTPUT, 5, s, args);
    s' := Run(sem, [CallTo(OUTPUT, 5)], s).s;
  }

  /** Bytes n apart from one another. */
  lemma LoadAfterStore(m: Mem, a: Word, n: nat, v: nat, b: Word, k: nat)
    requires Range(a, n) !! Range(b, k)
    ensures Load(Store(m, a, n, v), b, k) == Load(m, b, k)
  {
    forall x | x in Range(b, k) ensures ByteAt(Store(m, a, n, v), x) == ByteAt(m, x) { StoreFrame(m, a, n, v, x); }
    LoadAgree(Store(m, a, n, v), m, b, k);
  }

  /** Two places in the frame. */
  lemma FrameApart(fp: Word, o: int, n: nat, o': int, n': nat)
    requires -0x1_0000 < o && o + n <= o' < 0x1_0000 && n < 0x1_0000 && n' < 0x1_0000
    ensures Range(Addr(fp, o), n) !! Range(Addr(fp, o'), n')
  {
    forall x | x in Range(Addr(fp, o), n) ensures x !in Range(Addr(fp, o'), n') {
      InRange(fp, o, n, x);
      InRange(fp, o', n', x);
      var j :| o <= j < o + n && x == Addr(fp, j);
      if x in Range(Addr(fp, o'), n') {
        var j' :| o' <= j' < o' + n' && x == Addr(fp, j');
        AddrInjective(fp, j, j');
      }
    }
  }

  lemma StagedHolds(m: Mem, fp: Word, x: Word)
    ensures Load(Staged(m, fp, x), Addr(fp, -12), 4) == ERRORS && Load(Staged(m, fp, x), Addr(fp, -8), 8) == x
  {
    var m1 := Store(m, Addr(fp, -8), 8, x);
    FrameLoad(m1, fp, -12, 4, ERRORS);
    FrameLoad(m, fp, -8, 8, x);
    FrameApart(fp, -12, 4, -8, 8);
    LoadAfterStore(m1, Addr(fp, -12), 4, ERRORS, Addr(fp, -8), 8);
  }

  lemma UpdateCalls(sem: Sem, mp: Maps, s: State, a: Word, b: Word, x: Word) returns (s': State)
    requires HasHelpers(sem, mp) && ERRORS in mp.slots
    requires (Range(a, 4) + Range(b, 8) + Range(mp.slots[ERRORS], 8)) !! sem.guard
    requires Get(s.regs, 1) == sem.mapAddr(INTERNAL_MAP) && Get(s.regs, 2) == a && Get(s.regs, 3) == b
    requires Load(s.mem, a, 4) == ERRORS && Load(s.mem, b, 8) == x
    ensures Run(sem, [CallTo(UPDATE, 4)], s) == Fall(s')
    ensures exists r0 :: Called(s, s', UPDATE, r0, Store(s.mem, mp.slots[ERRORS], 8, x))
  {
    var args := Args(s.regs, 4);
    FourArgs(s.regs);
    assert Updates(sem, mp, args, s.mem, s.trace);
    CallRuns(sem, UPDATE, 4, s, args);
    s' := Run(sem, [CallTo(UPDATE, 4)], s).s;
  }

  /** A store, arguments and a call, one after the other. */
  lemma ThreeParts(sem: Sem, a: seq<Insn>, b: seq<Insn>, c: seq<Insn>, s: State, s1: State, s2: State, s': State)
    requires Run(sem, a, s) == Fall(s1) && Run(sem, b, s1) == Fall(s2) && Run(sem, c, s2) == Fall(s')
    ensures Run(sem, a + (b + c), s) == Fall(s')
  {
    RunAppend(sem, a, b + c, s);
    RunAppend(sem, b, c, s1);
  }

  lemma CalledAfter(s: State, s1: State, s': State, id: int, r0: Word, m: Mem)
    requires Called(s1, s', id, r0, m) && s1.trace == s.trace
    requires forall r: nat | r > 5 :: Get(s1.regs, r) == Get(s.regs, r)
    ensures Called(s, s', id, r0, m)
  {
  }

  /** A lookup: the key in the frame, R0 the address of the value or null. */
  lemma LookupRuns(sem: Sem, mp: Maps, key: nat, s: State) returns (s': State)
    requires HasHelpers(sem, mp) && key < 0x1_0000_0000 && Free(sem, Get(s.regs, FRAME), -4, 4)
    ensures Run(sem, LookupInsns(key), s) == Fall(s')
    ensures Called(s, s', LOOKUP, if key in mp.slots then mp.slots[key] else 0,
                   Store(s.mem, Addr(Get(s.regs, FRAME), -4), 4, key))
  {
    var a, b, c := [FrameStore(SW, -4, key)], [LoadMap(1, INTERNAL_MAP), FrameAddr(2, -4)], [CallTo(LOOKUP, 2)];
    var s1 := StoreStep(sem, SW, -4, key, s);
    var s2 := LookupArgs(sem, s1);
    FrameLoad(s.mem, Get(s.regs, FRAME), -4, 4, key);
    s' := LookupCalls(sem, mp, s2, Addr(Get(s.regs, FRAME), -4), key);
    ThreeParts(sem, a, b, c, s, s1, s2, s');
    CalledAfter(s, s2, s', LOOKUP, if key in mp.slots then mp.slots[key] else 0, s2.mem);
    assert LookupInsns(key) == a + (b + c);
  }

  const MESSAGE_ARGS: seq<Insn> := [Mov(1, Reg(6)), LoadMap(2, PERF_MAP), Mov(3, Imm(CURRENT_CPU)), FrameAddr(4, -8),
                                    Mov(5, Imm(8))]

  lemma MessageParts(sem: Sem, mp: Maps, msg: nat, s: State, m: Mem) returns (s1: State, s2: State, s': State, r0: Word)
    requires HasHelpers(sem, mp) && msg < M64 && Free(sem, Get(s.regs, FRAME), -8, 8)
    requires m == Store(s.mem, Addr(Get(s.regs, FRAME), -8), 8, msg)
    requires Sent(s.trace) < |mp.cells| && Range(mp.cells[Sent(s.trace)], 8) !! sem.guard
    ensures Run(sem, [FrameStore(SDW, -8, msg)], s) == Fall(s1) && Run(sem, MESSAGE_ARGS, s1) == Fall(s2)
    ensures Run(sem, [CallTo(OUTPUT, 5)], s2) == Fall(s')
    ensures Called(s2, s', OUTPUT, r0, Store(m, mp.cells[Sent(s.trace)], 8, msg)) && s2.trace == s.trace
    ensures forall r: nat | r > 5 :: Get(s2.regs, r) == Get(s.regs, r)
  {
    s1 := StoreStep(sem, SDW, -8, msg, s);
    s2 := MessageArgs(sem, s1);
    FrameLoad(s.mem, Get(s.regs, FRAME), -8, 8, msg);
    s' := MessageCalls(sem, mp, s2, Addr(Get(s.regs, FRAME), -8), msg);
    r0 :| Called(s2, s', OUTPUT, r0, Store(s2.mem, mp.cells[Sent(s.trace)], 8, msg));
  }

  /** A message: its code goes to the next cell. */
  lemma MessageRuns(sem: Sem, mp: Maps, msg: nat, s: State, m: Mem) returns (s': State, r0: Word)
    requires HasHelpers(sem, mp) && msg < M64 && Free(sem, Get(s.regs, FRAME), -8, 8)
    requires m == Store(s.mem, Addr(Get(s.regs, FRAME), -8), 8, msg)
    requires Sent(s.trace) < |mp.cells| && Range(mp.cells[Sent(s.trace)], 8) !! sem.guard
    ensures Run(sem, MessageInsns(msg), s) == Fall(s')
    ensures Called(s, s', OUTPUT, r0, Store(m, mp.cells[Sent(s.trace)], 8, msg))
  {
    var s1, s2;
    s1, s2, s', r0 := MessageParts(sem, mp, msg, s, m);
    ThreeParts(sem, [FrameStore(SDW, -8, msg)], MESSAGE_ARGS, [CallTo(OUTPUT, 5)], s, s1, s2, s');
    CalledAfter(s, s2, s', OUTPUT, r0, Store(m, mp.cells[Sent(s.trace)], 8, msg));
    assert MessageInsns(msg) == [FrameStore(SDW, -8, msg)] + (MESSAGE_ARGS + [CallTo(OUTPUT, 5)]);
  }

  /** The count and the key in the frame. */
  function Staged(m: Mem, fp: Word, x: Word): Mem {
    Store(Store(m, Addr(fp, -8), 8, x), Addr(fp, -12), 4, ERRORS)
  }

  const UPDATE_ARGS: seq<Insn> := [LoadMap(1, INTERNAL_MAP), FrameAddr(2, -12), FrameAddr(3, -8), Mov(4, Imm(0))]

  lemma UpdateParts(sem: Sem, mp: Maps, s: State, fp: Word, x: Word, m: Mem)
    returns (s1: State, s2: State, s': State, r0: Word)
    requires HasHelpers(sem, mp) && Free(sem, fp, -8, 8) && Free(sem, fp, -12, 4) && ERRORS in mp.slots
    requires Range(mp.slots[ERRORS], 8) !! sem.guard
    requires Get(s.regs, FRAME) == fp && s.mem == Store(m, Addr(fp, -8), 8, x)
    ensures Run(sem, [FrameStore(SW, -12, ERRORS)], s) == Fall(s1) && Run(sem, UPDATE_ARGS, s1) == Fall(s2)
    ensures Run(sem, [CallTo(UPDATE, 4)], s2) == Fall(s')
    ensures Called(s2, s', UPDATE, r0, Store(Staged(m, fp, x), mp.slots[ERRORS], 8, x)) && s2.trace == s.trace
    ensures forall r: nat | r > 5 :: Get(s2.regs, r) == Get(s.regs, r)
  {
    s1 := StoreStep(sem, SW, -12, ERRORS, s);
    s2 := UpdateArgs(sem, s1);
    StagedHolds(m, fp, x);
    s' := UpdateCalls(sem, mp, s2, Addr(fp, -12), Addr(fp, -8), x);
    r0 :| Called(s2, s', UPDATE, r0, Store(s2.mem, mp.slots[ERRORS], 8, x));
  }

  lemma UpdateTail(sem: Sem, mp: Maps, s: State, fp: Word, x: Word, m: Mem, out: Mem) returns (s': State, r0: Word)
    requires HasHelpers(sem, mp) && Free(sem, fp, -8, 8) && Free(sem, fp, -12, 4) && ERRORS in mp.slots
    requires Range(mp.slots[ERRORS], 8) !! sem.guard
    requires Get(s.regs, FRAME) == fp && s.mem == Store(m, Addr(fp, -8), 8, x)
    requires out == Store(Staged(m, fp, x), mp.slots[ERRORS], 8, x)
    ensures Run(sem, [FrameStore(SW, -12, ERRORS)] + (UPDATE_ARGS + [CallTo(UPDATE, 4)]), s) == Fall(s')
    ensures Called(s, s', UPDATE, r0, out)
  {
    var s1, s2;
    s1, s2, s', r0 := UpdateParts(sem, mp, s, fp, x, m);
    ThreeParts(sem, [FrameStore(SW, -12, ERRORS)], UPDATE_ARGS, [CallTo(UPDATE, 4)], s, s1, s2, s');
    CalledAfter(s, s2, s', UPDATE, r0, out);
  }

  lemma UpdateForm(count: nat)
    ensures UpdateInsns(count) ==
      [CountStore(count)] + ([FrameStore(SW, -12, ERRORS)] + (UPDATE_ARGS + [CallTo(UPDATE, 4)]))
  {
  }

  /** An update of the error count: the count goes to its slot. */
  lemma UpdateRuns(sem: Sem, mp: Maps, count: nat, s: State, fp: Word, x: Word, out: Mem) returns (s': State, r0: Word)
    requires HasHelpers(sem, mp) && Free(sem, fp, -8, 8) && Free(sem, fp, -12, 4) && ERRORS in mp.slots
    requires Range(mp.slots[ERRORS], 8) !! sem.guard
    requires Get(s.regs, FRAME) == fp && Get(s.regs, count) == x
    requires out == Store(Staged(s.mem, fp, x), mp.slots[ERRORS], 8, x)
    ensures Run(sem, UpdateInsns(count), s) == Fall(s') && Called(s, s', UPDATE, r0, out)
  {
    var tail := [FrameStore(SW, -12, ERRORS)] + (UPDATE_ARGS + [CallTo(UPDATE, 4)]);
    var s0 := CountStep(sem, count, s);
    s', r0 := UpdateTail(sem, mp, s0, fp, x, s.mem, out);
    RunAppend(sem, [CountStore(count)], tail, s);
    CalledAfter(s, s0, s', UPDATE, r0, out);
    UpdateForm(count);
  }

  // ----- the blocks -----

  function ZeroTest(r: nat): Insn {
    Insn(Jcond(JEQ, false), 0, None, Some(Reg(r)), Some(Imm(0)))
  }

  function OneTest(r: nat): Insn {
    Insn(Jcond(JEQ, false), 0, None, Some(Reg(r)), Some(Imm(1)))
  }

  function OverTest(r: nat, limit: int): Insn {
    Insn(Jcond(JSGT, false), 0, None, Some(Reg(r)), Some(Imm(limit)))
  }

  const LEAVE: Insn := Insn(Exit, 0, None, None, None)

  // Blocks: 0 is the entry, 1 the epilogue, 9 the body.
  const EPILOGUE: nat := 1
  const BODY: nat := 9

  /** The registers of the error status, of the count in the epilogue, and of the
      exit flag and the count in the prologue. */
  datatype HandlerRegs = HandlerRegs(status: nat, count: nat, flag: nat, errors: nat)

  predicate WfRegs(q: HandlerRegs) {
    MAX_BPF_REG <= q.status < q.count < q.flag < q.errors
  }

  /** Block b of a handler. */
  function HandlerBlock(q: HandlerRegs, limit: int, b: nat): Block {
    match b
    case 0 => Block([Mov(6, Reg(1)), Mov(q.status, Imm(0))] + (LookupInsns(Errors.EXIT) + [ZeroTest(0)]), Some(1),
                    Some(6))
    case 1 => Block([ZeroTest(q.status)], Some(3), Some(2))
    case 2 => Block(MessageInsns(STP_PRINT_ERROR_MSG) + (LookupInsns(ERRORS) + [ZeroTest(0)]), Some(3), Some(4))
    case 3 => Block([LEAVE], None, None)
    case 4 => Block([LoadValue(q.count), Increment(q.count)] + (UpdateInsns(q.count) + [OverTest(q.count, limit)]),
                    Some(5), Some(3))
    case 5 => Block(MessageInsns(STP_ERROR), None, Some(3))
    case 6 => Block([LoadValue(q.flag), OneTest(q.flag)], Some(1), Some(7))
    case 7 => Block(LookupInsns(ERRORS) + [ZeroTest(0)], Some(1), Some(8))
    case _ => Block([LoadValue(q.errors), OverTest(q.errors, limit)], Some(1), Some(9))
  }

  ghost predicate HasHandler(p: seq<Block>, q: HandlerRegs, limit: int) {
    WfRegs(q) && 0 <= limit < 0x8000_0000 && |p| > BODY
    && forall b: nat {:trigger HandlerBlock(q, limit, b)} | b < BODY :: p[b] == HandlerBlock(q, limit, b)
  }

  // ----- the world in memory -----

  function MessageCode(m: Message): nat {
    match m
    case PrintError => STP_PRINT_ERROR_MSG
    case HardError => STP_ERROR
  }

  /** The bytes of the frame the handler uses. */
  function FrameBytes(fp: Word): set<Word> {
    Range(Addr(fp, -12), 12)
  }

  /** Map values and message cells are apart from the frame and one another, and
      may be used. */
  ghost predicate Apart(sem: Sem, mp: Maps, fp: Word) {
    (forall k | k in mp.slots ::
         mp.slots[k] != 0 && Range(mp.slots[k], 8) !! FrameBytes(fp) && Range(mp.slots[k], 8) !! sem.guard)
    && (forall k, k' | k in mp.slots && k' in mp.slots && k != k' :: Range(mp.slots[k], 8) !! Range(mp.slots[k'], 8))
    && (forall i | 0 <= i < |mp.cells| :: Range(mp.cells[i], 8) !! FrameBytes(fp) && Range(mp.cells[i], 8) !! sem.guard)
    && (forall i, j | 0 <= i < |mp.cells| && 0 <= j < |mp.cells| && i != j ::
         Range(mp.cells[i], 8) !! Range(mp.cells[j], 8))
    && forall i, k | 0 <= i < |mp.cells| && k in mp.slots :: Range(mp.cells[i], 8) !! Range(mp.slots[k], 8)
  }

  function ValueAt(m: Mem, a: Word): Word {
    LoadWord(m, a, SDW)
  }

  /** Memory m, after n messages, holds the world w. */
  ghost predicate Shows(mp: Maps, m: Mem, n: nat, w: World) {
    w.entries.Keys == mp.slots.Keys && (forall k | k in mp.slots :: w.entries[k] == Signed(ValueAt(m, mp.slots[k])))
    && |w.sent| == n <= |mp.cells| && forall i | 0 <= i < n :: ValueAt(m, mp.cells[i]) == MessageCode(w.sent[i])
  }

  lemma ValueStays(m: Mem, a: Word, n: nat, v: nat, b: Word)
    requires Range(a, n) !! Range(b, 8)
    ensures ValueAt(Store(m, a, n, v), b) == ValueAt(m, b)
  {
    LoadAfterStore(m, a, n, v, b, 8);
  }

  lemma FrameInside(fp: Word, off: int, n: nat)
    requires -12 <= off && off + n <= 0
    ensures Range(Addr(fp, off), n) <= FrameBytes(fp)
  {
    forall x | x in Range(Addr(fp, off), n) ensures x in FrameBytes(fp) {
      InRange(fp, off, n, x);
      InRange(fp, -12, 12, x);
      var j :| off <= j < off + n && x == Addr(fp, j);
    }
  }

  /** A store into the frame leaves the world alone. */
  lemma FrameShows(sem: Sem, mp: Maps, fp: Word, m: Mem, n: nat, w: World, off: int, k: nat, v: nat)
    requires Apart(sem, mp, fp) && Shows(mp, m, n, w) && -12 <= off && off + k <= 0
    ensures Shows(mp, Store(m, Addr(fp, off), k, v), n, w)
  {
    FrameInside(fp, off, k);
    forall x | x in mp.slots ensures ValueAt(Store(m, Addr(fp, off), k, v), mp.slots[x]) == ValueAt(m, mp.slots[x]) {
      ValueStays(m, Addr(fp, off), k, v, mp.slots[x]);
    }
    forall i | 0 <= i < n ensures ValueAt(Store(m, Addr(fp, off), k, v), mp.cells[i]) == ValueAt(m, mp.cells[i]) {
      ValueStays(m, Addr(fp, off), k, v, mp.cells[i]);
    }
  }

  lemma ValueStored(m: Mem, a: Word, v: Word)
    ensures ValueAt(Store(m, a, 8, v), a) == v
  {
    FrameLoad(m, a, 0, 8, v);
    assert Addr(a, 0) == a;
  }

  /** A message in the next cell is one more message sent. */
  lemma MessageShows(sem: Sem, mp: Maps, fp: Word, m: Mem, n: nat, w: World, msg: Message)
    requires Apart(sem, mp, fp) && Shows(mp, m, n, w) && n < |mp.cells|
    ensures Shows(mp, Store(m, mp.cells[n], 8, MessageCode(msg)), n + 1, w.(sent := w.sent + [msg]))
  {
    var m' := Store(m, mp.cells[n], 8, MessageCode(msg));
    forall x | x in mp.slots ensures ValueAt(m', mp.slots[x]) == ValueAt(m, mp.slots[x]) {
      ValueStays(m, mp.cells[n], 8, MessageCode(msg), mp.slots[x]);
    }
    forall i | 0 <= i < n ensures ValueAt(m', mp.cells[i]) == ValueAt(m, mp.cells[i]) {
      ValueStays(m, mp.cells[n], 8, MessageCode(msg), mp.cells[i]);
    }
    ValueStored(m, mp.cells[n], MessageCode(msg));
  }

  /** A new count in its slot is a new count. */
  lemma CountShows(sem: Sem, mp: Maps, fp: Word, m: Mem, n: nat, w: World, x: Word)
    requires Apart(sem, mp, fp) && Shows(mp, m, n, w) && ERRORS in mp.slots
    ensures Shows(mp, Store(m, mp.slots[ERRORS], 8, x), n, w.(entries := w.entries[ERRORS := Signed(x)]))
  {
    var m' := Store(m, mp.slots[ERRORS], 8, x);
    forall k | k in mp.slots && k != ERRORS ensures ValueAt(m', mp.slots[k]) == ValueAt(m, mp.slots[k]) {
      ValueStays(m, mp.slots[ERRORS], 8, x, mp.slots[k]);
    }
    forall i | 0 <= i < n ensures ValueAt(m', mp.cells[i]) == ValueAt(m, mp.cells[i]) {
      ValueStays(m, mp.slots[ERRORS], 8, x, mp.cells[i]);
    }
    ValueStored(m, mp.slots[ERRORS], x);
  }
}
