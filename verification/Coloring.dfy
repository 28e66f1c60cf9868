/** The interference graph, the merging of partitions and their colouring with
    hard registers. */
module Coloring {
  import opened Ir
  import opened Liveness
  import opened Renaming

  // ----- what interferes -----

  /** The registers recorded as mutually interfering at instruction k: those
      live before it and, unless it is a call, those it sets. */
  function Clique(ins: seq<Insn>, k: nat, live: set<nat>): set<nat>
    requires k < |ins|
  {
    LiveBefore(ins[k..], live) + (if ins[k].code.Call? then {} else Sets(ins[k]))
  }

  /** The registers live across the call at k. */
  function Crossing(ins: seq<Insn>, k: nat, live: set<nat>): set<nat>
    requires k < |ins|
  {
    if ins[k].code.Call? then LiveBefore(ins[k + 1..], live) - CLOBBERED else {}
  }

  /** The instructions at or after (i, j), in the order find_igraph visits them. */
  predicate Visited(blk: nat, k: nat, i: nat, j: nat) {
    blk < i || (blk == i && j <= k)
  }

  ghost predicate MeetAt(p: seq<Block>, liveOut: seq<set<nat>>, blk: nat, k: nat, a: nat, b: nat) {
    blk < |p| && blk < |liveOut| && k < |p[blk].insns| && a != b
    && a in Clique(p[blk].insns, k, liveOut[blk]) && b in Clique(p[blk].insns, k, liveOut[blk])
  }

  ghost predicate CrossAt(p: seq<Block>, liveOut: seq<set<nat>>, blk: nat, k: nat, r: nat) {
    blk < |p| && blk < |liveOut| && k < |p[blk].insns| && r in Crossing(p[blk].insns, k, liveOut[blk])
  }

  ghost predicate Interfere(p: seq<Block>, liveOut: seq<set<nat>>, a: nat, b: nat) {
    exists blk: nat, k: nat :: MeetAt(p, liveOut, blk, k, a, b)
  }

  ghost predicate CrossesCall(p: seq<Block>, liveOut: seq<set<nat>>, r: nat) {
    exists blk: nat, k: nat :: CrossAt(p, liveOut, blk, k, r)
  }

  ghost predicate MetSoFar(p: seq<Block>, liveOut: seq<set<nat>>, i: nat, j: nat, a: nat, b: nat) {
    exists blk: nat, k: nat :: Visited(blk, k, i, j) && MeetAt(p, liveOut, blk, k, a, b)
  }

  ghost predicate CrossedSoFar(p: seq<Block>, liveOut: seq<set<nat>>, i: nat, j: nat, r: nat) {
    exists blk: nat, k: nat :: Visited(blk, k, i, j) && CrossAt(p, liveOut, blk, k, r)
  }

  lemma CliqueBounded(p: seq<Block>, nregs: nat, liveOut: seq<set<nat>>, blk: nat, k: nat)
    requires WfBlocks(p, nregs) && |liveOut| == |p| && Bounded(liveOut, nregs)
    requires blk < |p| && k < |p[blk].insns|
    ensures forall r | r in Clique(p[blk].insns, k, liveOut[blk]) :: r < nregs
  {
    var ins := p[blk].insns;
    assert WfBlock(p[blk], nregs, |p|);
    assert forall x | 0 <= x < |ins[k..]| :: ins[k..][x] == ins[k + x];
    LiveBeforeBounded(ins[k..], liveOut[blk], nregs);
    forall r | r in Clique(ins, k, liveOut[blk]) ensures r < nregs { InBelow(nregs, r); }
  }

  // ----- partitions -----

  /** The representative a register reaches: one dereference, or two. */
  function Root(part: seq<nat>, r: nat): nat {
    if r < |part| then
      if part[r] < MAX_BPF_REG || part[r] >= |part| then part[r] else part[part[r]]
    else r
  }

  /** Chains are short: hard registers stand for themselves, a temporary is its
      own representative, or points to a hard register below R10, or to a
      temporary that is one of these two. */
  ghost predicate Shallow(part: seq<nat>) {
    MAX_BPF_REG <= |part|
    && (forall r | 0 <= r < MAX_BPF_REG :: part[r] == r)
    && forall r | MAX_BPF_REG <= r < |part| ::
         part[r] < FRAME
         || (MAX_BPF_REG <= part[r] < |part| && (part[part[r]] == part[r] || part[part[r]] < FRAME))
  }

  /** The rows of the representatives cover the original neighbours of every
      register they stand for, although igraph.merge updates rows only. */
  ghost predicate RowsCover(part: seq<nat>, rows: seq<set<nat>>, g: seq<set<nat>>)
    requires |part| == |rows| == |g| && Shallow(part)
  {
    forall r | 0 <= r < |part| :: g[r] <= rows[Root(part, r)]
  }

  /** No two registers of one class interfered in the original graph. */
  ghost predicate Proper(part: seq<nat>, g: seq<set<nat>>)
    requires |part| == |g|
  {
    forall a, b | 0 <= a < |part| && 0 <= b < |part| && a != b && Root(part, a) == Root(part, b) :: b !in g[a]
  }

  /** A class with a register live across a call is marked so, or already
      stands in R6 or above. */
  ghost predicate CrossKept(part: seq<nat>, cross: set<nat>, cross0: set<nat>) {
    forall r | MAX_BPF_REG <= r < |part| && r in cross0 ::
      if Root(part, r) < MAX_BPF_REG then Root(part, r) >= 6 else Root(part, r) in cross
  }

  /** x is a neighbour, in the original graph, of a member of the class. */
  ghost predicate Neighbour(part: seq<nat>, g: seq<set<nat>>, root: nat, x: nat) {
    exists m: nat :: m < |part| && m < |g| && Root(part, m) == root && x in g[m]
  }

  /** The rows hold nothing but neighbours of members of the class. */
  ghost predicate RowsWithin(part: seq<nat>, rows: seq<set<nat>>, g: seq<set<nat>>)
    requires |part| == |rows|
  {
    forall r: nat, x | r < |part| && x in rows[r] :: Neighbour(part, g, Root(part, r), x)
  }

  ghost predicate HasCrosser(part: seq<nat>, cross0: set<nat>, r: nat) {
    exists m: nat :: MAX_BPF_REG <= m < |part| && part[m] == r && m in cross0
  }

  /** Marked are the registers live across a call, and the temporaries such a
      register was merged with. */
  ghost predicate CrossExact(part: seq<nat>, cross: set<nat>, cross0: set<nat>) {
    forall r: nat | r < |part| :: r in cross <==> r in cross0 || (MAX_BPF_REG <= r && HasCrosser(part, cross0, r))
  }

  ghost predicate Graph(g: seq<set<nat>>) {
    (forall a, b | 0 <= a < |g| && b in g[a] :: b < |g| && a != b && a in g[b])
  }

  ghost predicate Good(part: seq<nat>, rows: seq<set<nat>>, cross: set<nat>, g: seq<set<nat>>, cross0: set<nat>) {
    |part| == |rows| == |g| && Graph(g) && Shallow(part)
    && RowsCover(part, rows, g) && Proper(part, g) && CrossKept(part, cross, cross0)
    && RowsWithin(part, rows, g) && CrossExact(part, cross, cross0)
  }

  function MergeRows(rows: seq<set<nat>>, a: nat, b: nat): seq<set<nat>>
    requires a < |rows| && b < |rows|
  {
    rows[a := rows[a] + rows[b]][b := rows[a] + rows[b]]
  }

  /** What the scan over all temporaries finds free of conflict. */
  ghost predicate NoConflict(part: seq<nat>, rows: seq<set<nat>>, r1: nat, r2: nat)
    requires r1 < |rows| && r2 < |rows|
  {
    forall t | MAX_BPF_REG <= t < |part| :: (part[t] == r1 ==> t !in rows[r2]) && (part[t] == r2 ==> t !in rows[r1])
  }

  /** r2 represents itself, and r1 is where it may go: another temporary that
      represents itself, when r2 is alone, or a hard register below R10. */
  ghost predicate Joinable(part: seq<nat>, cross: set<nat>, r1: nat, r2: nat) {
    MAX_BPF_REG <= r2 < |part| && r1 < |part| && r1 != r2 && part[r2] == r2
    && if r1 < MAX_BPF_REG then r1 < FRAME && (r2 in cross ==> r1 >= 6)
       else part[r1] == r1 && forall t | 0 <= t < |part| && part[t] == r2 :: t == r2
  }

  lemma JoinRoots(part: seq<nat>, r1: nat, r2: nat, cross: set<nat>)
    requires Shallow(part) && Joinable(part, cross, r1, r2)
    ensures Shallow(part[r2 := r1])
    ensures forall r | 0 <= r < |part| ::
      Root(part[r2 := r1], r) == if Root(part, r) == r2 then r1 else Root(part, r)
  {
  }

  /** The scan suffices: no member of one class interfered with a member of the other. */
  lemma ScanSuffices(part: seq<nat>, rows: seq<set<nat>>, g: seq<set<nat>>, cross: set<nat>, r1: nat, r2: nat, a: nat,
                     b: nat)
    requires |part| == |rows| == |g| && Graph(g) && Shallow(part) && RowsCover(part, rows, g)
    requires Joinable(part, cross, r1, r2) && NoConflict(part, rows, r1, r2)
    requires a < |part| && b < |part| && Root(part, a) == r1 && Root(part, b) == r2
    ensures b !in g[a] && a !in g[b]
  {
    assert part[b] == r2;
    assert g[a] <= rows[r1];
  }

  lemma JoinRows(part: seq<nat>, rows: seq<set<nat>>, g: seq<set<nat>>, cross: set<nat>, r1: nat, r2: nat)
    requires |part| == |rows| == |g| && Shallow(part) && RowsWithin(part, rows, g) && Joinable(part, cross, r1, r2)
    ensures RowsWithin(part[r2 := r1], MergeRows(rows, r1, r2), g)
  {
    var part', rows' := part[r2 := r1], MergeRows(rows, r1, r2);
    JoinRoots(part, r1, r2, cross);
    forall r: nat, x | r < |part'| && x in rows'[r] ensures Neighbour(part', g, Root(part', r), x) {
      var q := if x in rows[r] then r else if x in rows[r1] then r1 else r2;
      assert Neighbour(part, g, Root(part, q), x);
      var m: nat :| m < |part| && m < |g| && Root(part, m) == Root(part, q) && x in g[m];
      assert Root(part', m) == Root(part', r);
    }
  }

  lemma JoinMarks(part: seq<nat>, cross: set<nat>, cross0: set<nat>, r1: nat, r2: nat)
    requires Shallow(part) && CrossExact(part, cross, cross0) && Joinable(part, cross, r1, r2)
    ensures CrossExact(part[r2 := r1], if r2 in cross && r1 >= MAX_BPF_REG then cross + {r1} else cross, cross0)
  {
    var part', cross' := part[r2 := r1], if r2 in cross && r1 >= MAX_BPF_REG then cross + {r1} else cross;
    forall r: nat | r < |part'|
      ensures r in cross' <==> r in cross0 || (MAX_BPF_REG <= r && HasCrosser(part', cross0, r))
    {
      if HasCrosser(part, cross0, r) && r >= MAX_BPF_REG {
        var m: nat :| MAX_BPF_REG <= m < |part| && part[m] == r && m in cross0;
        assert m == r2 || part'[m] == r;
      }
      if HasCrosser(part', cross0, r) && r >= MAX_BPF_REG {
        var m: nat :| MAX_BPF_REG <= m < |part'| && part'[m] == r && m in cross0;
        assert m == r2 || part[m] == r;
      }
      if r == r1 >= MAX_BPF_REG && r2 in cross0 { assert part'[r2] == r1; }
    }
  }

  lemma JoinCovers(part: seq<nat>, rows: seq<set<nat>>, g: seq<set<nat>>, cross: set<nat>, r1: nat, r2: nat)
    requires |part| == |rows| == |g| && Shallow(part) && RowsCover(part, rows, g) && Joinable(part, cross, r1, r2)
    ensures RowsCover(part[r2 := r1], MergeRows(rows, r1, r2), g)
  {
    JoinRoots(part, r1, r2, cross);
  }

  lemma JoinCrosses(part: seq<nat>, cross: set<nat>, cross0: set<nat>, r1: nat, r2: nat)
    requires Shallow(part) && CrossKept(part, cross, cross0) && Joinable(part, cross, r1, r2)
    ensures CrossKept(part[r2 := r1], if r2 in cross && r1 >= MAX_BPF_REG then cross + {r1} else cross, cross0)
  {
    JoinRoots(part, r1, r2, cross);
  }

  /** Joining two classes after a clean scan keeps everything. */
  lemma JoinKeeps(part: seq<nat>, rows: seq<set<nat>>, cross: set<nat>, g: seq<set<nat>>, cross0: set<nat>, r1: nat,
                  r2: nat)
    requires Good(part, rows, cross, g, cross0) && Joinable(part, cross, r1, r2) && NoConflict(part, rows, r1, r2)
    ensures Good(part[r2 := r1], MergeRows(rows, r1, r2),
                 if r2 in cross && r1 >= MAX_BPF_REG then cross + {r1} else cross, g, cross0)
  {
    JoinRoots(part, r1, r2, cross);
    JoinCovers(part, rows, g, cross, r1, r2);
    JoinRows(part, rows, g, cross, r1, r2);
    JoinCrosses(part, cross, cross0, r1, r2);
    JoinMarks(part, cross, cross0, r1, r2);
    JoinProper(part, rows, g, cross, r1, r2);
  }

  lemma JoinProper(part: seq<nat>, rows: seq<set<nat>>, g: seq<set<nat>>, cross: set<nat>, r1: nat, r2: nat)
    requires |part| == |rows| == |g| && Graph(g) && Shallow(part) && RowsCover(part, rows, g) && Proper(part, g)
    requires Joinable(part, cross, r1, r2) && NoConflict(part, rows, r1, r2)
    ensures Proper(part[r2 := r1], g)
  {
    var part' := part[r2 := r1];
    JoinRoots(part, r1, r2, cross);
    forall a, b | 0 <= a < |part| && 0 <= b < |part| && a != b && Root(part', a) == Root(part', b)
      ensures b !in g[a]
    {
      if Root(part, a) != Root(part, b) {
        if Root(part, a) == r2 { ScanSuffices(part, rows, g, cross, r1, r2, b, a); }
        else { ScanSuffices(part, rows, g, cross, r1, r2, a, b); }
      }
    }
  }

  // ----- what a conflict is -----

  /** A member of one class interferes with a member of the other. */
  ghost predicate ClassesMeet(part: seq<nat>, g: seq<set<nat>>, r1: nat, r2: nat) {
    exists a: nat, b: nat ::
    a < |part| && b < |part| && a < |g| && Root(part, a) == r1 && Root(part, b) == r2 && b in g[a]
  }

  /** A conflict the scan finds is one of the original graph. */
  lemma ConflictIsReal(part: seq<nat>, rows: seq<set<nat>>, cross: set<nat>, g: seq<set<nat>>, cross0: set<nat>,
                       r1: nat, r2: nat)
    requires Good(part, rows, cross, g, cross0) && r1 < |part| && r2 < |part| && part[r1] == r1 && part[r2] == r2
    requires !NoConflict(part, rows, r1, r2)
    ensures ClassesMeet(part, g, r1, r2)
  {
    var t :| MAX_BPF_REG <= t < |part| && ((part[t] == r1 && t in rows[r2]) || (part[t] == r2 && t in rows[r1]));
    var other := if part[t] == r1 && t in rows[r2] then r2 else r1;
    assert Neighbour(part, g, Root(part, other), t);
    var m: nat :| m < |part| && m < |g| && Root(part, m) == other && t in g[m];
    assert m in g[t];
    if other == r2 {
      assert Root(part, t) == r1 && Root(part, m) == r2 && m in g[t];
    } else {
      assert Root(part, m) == r1 && Root(part, t) == r2 && t in g[m];
    }
  }

  /** A member of the class is live across a call. */
  ghost predicate ClassCrosses(part: seq<nat>, cross0: set<nat>, r: nat) {
    exists m: nat :: MAX_BPF_REG <= m < |part| && Root(part, m) == r && m in cross0
  }

  /** Every hard register the class of r may have is taken by something that
      interferes with a member of the class. */
  ghost predicate Blocked(part: seq<nat>, g: seq<set<nat>>, cross0: set<nat>, r: nat) {
    MAX_BPF_REG <= r < |part| && part[r] == r
    && forall h: nat | (if ClassCrosses(part, cross0, r) then 6 else 0) <= h < FRAME :: ClassesMeet(part, g, h, r)
  }

  /** All classes of temporaries without a hard register interfere. */
  ghost predicate AllMeet(part: seq<nat>, g: seq<set<nat>>) {
    forall a: nat, b: nat | MAX_BPF_REG <= a < b < |part| && part[a] == a && part[b] == b :: ClassesMeet(part, g, a, b)
  }

  // ----- the passes of reg_alloc over these -----

  function LowPart(s: set<nat>, k: nat): set<nat> {
    set r | r in s && r < k
  }

  /** What an unsigned short holds. */
  function Short(n: nat): nat {
    n % 0x1_0000
  }

  datatype Entry = Entry(count: nat, i: nat, j: nat)

  /** The pair a copy-like instruction would like to see in one register. */
  function CopyPair(i: Insn): Option<(nat, nat)> {
    if IsMove(i.code) && i.dest.Some? && IsReg(i.src1) then Some((i.dest.value, i.src1.value.r))
    else if i.code.Alu? && i.dest.Some? && IsReg(i.src0) then Some((i.dest.value, i.src0.value.r))
    else None
  }

  /** A copied pair always interferes: at the copy the source is live and the
      destination is added to the live registers. */
  lemma CopiesInterfere(p: seq<Block>, liveOut: seq<set<nat>>, blk: nat, k: nat, d: nat, s: nat)
    requires |liveOut| == |p| && blk < |p| && k < |p[blk].insns| && d != s
    requires CopyPair(p[blk].insns[k]) == Some((d, s))
    ensures Interfere(p, liveOut, d, s) && Interfere(p, liveOut, s, d)
  {
    var i := p[blk].insns[k];
    assert p[blk].insns[k..][0] == i;
    assert s in Uses(i) && d in Sets(i);
    assert MeetAt(p, liveOut, blk, k, d, s) && MeetAt(p, liveOut, blk, k, s, d);
  }

  /** The pair in order, if it is one of two registers. */
  function PairOf(i: Insn): Option<(nat, nat)> {
    var c := CopyPair(i);
    if c.None? || c.value.0 == c.value.1 then None
    else if c.value.0 > c.value.1 then Some((c.value.1, c.value.0)) else c
  }

  /** How often a pair is copied. */
  function CopiesIn(ins: seq<Insn>, ij: (nat, nat)): nat {
    if ins == [] then 0 else (if PairOf(ins[0]) == Some(ij) then 1 else 0) + CopiesIn(ins[1..], ij)
  }

  function CopiesOf(p: seq<Block>, n: nat, ij: (nat, nat)): nat
    requires n <= |p|
  {
    if n == 0 then 0 else CopiesOf(p, n - 1, ij) + CopiesIn(p[n - 1].insns, ij)
  }

  /** The pair comes from a copy in the program. */
  ghost predicate CopiedAt(p: seq<Block>, i: nat, j: nat, blk: nat, k: nat) {
    blk < |p| && k < |p[blk].insns|
    && (CopyPair(p[blk].insns[k]) == Some((i, j)) || CopyPair(p[blk].insns[k]) == Some((j, i)))
  }

  ghost predicate Copied(p: seq<Block>, e: Entry) {
    e.i < e.j && exists blk: nat, k: nat :: CopiedAt(p, e.i, e.j, blk, k)
  }

  lemma {:induction false} CopyExists(ins: seq<Insn>, ij: (nat, nat)) returns (k: nat)
    requires CopiesIn(ins, ij) > 0
    ensures k < |ins| && PairOf(ins[k]) == Some(ij)
  {
    if PairOf(ins[0]) == Some(ij) {
      k := 0;
    } else {
      k := CopyExists(ins[1..], ij);
      k := k + 1;
    }
  }

  /** What is counted is copied. */
  lemma {:induction false} CountedIsCopied(p: seq<Block>, n: nat, e: Entry)
    requires n <= |p| && CopiesOf(p, n, (e.i, e.j)) > 0
    ensures Copied(p, e)
    decreases n
  {
    if CopiesIn(p[n - 1].insns, (e.i, e.j)) > 0 {
      var k := CopyExists(p[n - 1].insns, (e.i, e.j));
      assert CopiedAt(p, e.i, e.j, n - 1, k);
    } else {
      CountedIsCopied(p, n - 1, e);
    }
  }

  /** The table and its index hold every pair counted so far, once, with its
      count. */
  ghost predicate Counts(data: seq<Entry>, index: map<(nat, nat), nat>, count: ((nat, nat)) -> nat) {
    (forall x | 0 <= x < |data| :: (data[x].i, data[x].j) in index && index[(data[x].i, data[x].j)] == x)
    && (forall ij | ij in index :: index[ij] < |data| && (data[index[ij]].i, data[index[ij]].j) == ij)
    && (forall ij :: if ij in index then count(ij) > 0 && data[index[ij]].count == Short(count(ij)) else count(ij) == 0)
  }

  lemma CountsSame(data: seq<Entry>, index: map<(nat, nat), nat>, count: ((nat, nat)) -> nat,
                   count': ((nat, nat)) -> nat)
    requires Counts(data, index, count) && forall x :: count'(x) == count(x)
    ensures Counts(data, index, count')
  {
  }

  /** copy_graph::add. */
  method AddCopy(data: seq<Entry>, index: map<(nat, nat), nat>, ij: (nat, nat), ghost count: ((nat, nat)) -> nat,
                 ghost count': ((nat, nat)) -> nat)
    returns (data': seq<Entry>, index': map<(nat, nat), nat>)
    requires Counts(data, index, count) && forall x :: count'(x) == count(x) + if x == ij then 1 else 0
    ensures Counts(data', index', count')
  {
    data', index' := data, index;
    var k;
    if ij !in index {
      k := |data|;
      data' := data + [Entry(0, ij.0, ij.1)];
      index' := index[ij := k];
    } else {
      k := index[ij];
    }
    data' := data'[k := data'[k].(count := Short(data'[k].count + 1))];
  }

  /** find_cgraph: the pairs copied somewhere, each once, with the number of
      instructions that copy it, modulo 65536. */
  method FindCgraph(p: seq<Block>) returns (data: seq<Entry>)
    ensures forall x | 0 <= x < |data| ::
      var n := CopiesOf(p, |p|, (data[x].i, data[x].j)); n > 0 && data[x].count == Short(n)
    ensures forall x, y | 0 <= x < y < |data| :: (data[x].i, data[x].j) != (data[y].i, data[y].j)
    ensures forall ij | CopiesOf(p, |p|, ij) > 0 :: exists x :: 0 <= x < |data| && (data[x].i, data[x].j) == ij
  {
    data := [];
    var index: map<(nat, nat), nat> := map[];
    for b := 0 to |p|
      invariant Counts(data, index, ij => CopiesOf(p, b, ij))
    {
      data, index := CountBlock(p, b, data, index);
    }
    forall ij | CopiesOf(p, |p|, ij) > 0 ensures exists x :: 0 <= x < |data| && (data[x].i, data[x].j) == ij {
      assert ij in index;
    }
  }

  /** entry::operator<. */
  predicate EntryLess(a: Entry, b: Entry) {
    a.count < b.count || (a.count == b.count && (a.i < b.i || (a.i == b.i && a.j < b.j)))
  }

  function InsertEntry(e: Entry, sorted: seq<Entry>): (out: seq<Entry>)
    ensures multiset(out) == multiset(sorted) + multiset{e}
  {
    if sorted == [] then [e]
    else if EntryLess(e, sorted[0]) then [e] + sorted
    else
      assert sorted == [sorted[0]] + sorted[1..];
      [sorted[0]] + InsertEntry(e, sorted[1..])
  }

  /** copy_graph::sort. */
  function SortEntries(data: seq<Entry>): (out: seq<Entry>)
    ensures multiset(out) == multiset(data)
  {
    if data == [] then []
    else
      assert data == [data[0]] + data[1..];
      InsertEntry(data[0], SortEntries(data[1..]))
  }

  /** No entry stands after a greater one. */
  predicate Ascending(s: seq<Entry>) {
    forall i, j | 0 <= i < j < |s| :: !EntryLess(s[j], s[i])
  }

  lemma FrontAscending(e: Entry, s: seq<Entry>)
    requires Ascending(s) && forall x | x in s :: !EntryLess(x, e)
    ensures Ascending([e] + s)
  {
    var t := [e] + s;
    forall i, j | 0 <= i < j < |t| ensures !EntryLess(t[j], t[i]) { assert t[j] in s; }
  }

  lemma {:induction false} InsertAscending(e: Entry, s: seq<Entry>)
    requires Ascending(s)
    ensures Ascending(InsertEntry(e, s)) && forall x | x in InsertEntry(e, s) :: x == e || x in s
  {
    if s != [] {
      var rest := s[1..];
      assert forall x | x in rest :: !EntryLess(x, s[0]);
      if EntryLess(e, s[0]) {
        forall x | x in s ensures !EntryLess(x, e) { assert x == s[0] || x in rest; }
        FrontAscending(e, s);
      } else {
        InsertAscending(e, rest);
        FrontAscending(s[0], InsertEntry(e, rest));
      }
    }
  }

  /** The sort puts the entries in order. */
  lemma {:induction false} EntriesSorted(data: seq<Entry>)
    ensures Ascending(SortEntries(data))
  {
    if data != [] {
      EntriesSorted(data[1..]);
      InsertAscending(data[0], SortEntries(data[1..]));
    }
  }

  method CountBlock(p: seq<Block>, b: nat, data: seq<Entry>, index: map<(nat, nat), nat>)
    returns (data': seq<Entry>, index': map<(nat, nat), nat>)
    requires b < |p| && Counts(data, index, ij => CopiesOf(p, b, ij))
    ensures Counts(data', index', ij => CopiesOf(p, b + 1, ij))
  {
    data', index' := data, index;
    var ins := p[b].insns;
    var j := |ins|;
    while j > 0
      invariant 0 <= j <= |ins|
      invariant Counts(data', index', ij => CopiesOf(p, b, ij) + CopiesIn(ins[j..], ij))
    {
      j := j - 1;
      assert ins[j..][0] == ins[j] && ins[j..][1..] == ins[j + 1..];
      var c := PairOf(ins[j]);
      ghost var was: ((nat, nat)) -> nat, now: ((nat, nat)) -> nat :=
        ij => CopiesOf(p, b, ij) + CopiesIn(ins[j + 1..], ij), ij => CopiesOf(p, b, ij) + CopiesIn(ins[j..], ij);
      if c.Some? {
        data', index' := AddCopy(data', index', c.value, was, now);
      } else {
        CountsSame(data', index', was, now);
      }
    }
    assert ins[0..] == ins;
    CountsSame(data', index', ij => CopiesOf(p, b, ij) + CopiesIn(ins[0..], ij), ij => CopiesOf(p, b + 1, ij));
  }

  /** The allocator's partitions, graph and call-crossing marks. */
  datatype Classes = Classes(part: seq<nat>, rows: seq<set<nat>>, cross: set<nat>)

  /** Join the classes of a copied pair, where nothing speaks against it. */
  function CopyMerged(c: Entry, x: Classes): Classes {
    if c.i < |x.part| && c.j < |x.part| && x.part[c.i] < |x.rows|
       && c.j < |x.rows| && c.j >= MAX_BPF_REG && x.part[c.j] == c.j
       && c.j !in x.rows[x.part[c.i]] && (x.part[c.i] >= 6 || c.j !in x.cross)
    then
      var r1 := x.part[c.i];
      Classes(x.part[c.j := r1], MergeRows(x.rows, r1, c.j), if c.j in x.cross then x.cross + {r1} else x.cross)
    else x
  }

  function CopiesMerged(copies: seq<Entry>, n: nat, x: Classes): Classes
    requires n <= |copies|
  {
    if n == 0 then x else CopyMerged(copies[n - 1], CopiesMerged(copies, n - 1, x))
  }

  /** When every pair interferes, merging copies first merges nothing. */
  lemma {:induction false} CopiesStay(copies: seq<Entry>, n: nat, x: Classes)
    requires n <= |copies| && |x.part| == |x.rows| && forall r | 0 <= r < |x.part| :: x.part[r] == r
    requires forall k | 0 <= k < |copies| :: copies[k].i < |x.rows| && copies[k].j in x.rows[copies[k].i]
    ensures CopiesMerged(copies, n, x) == x
    decreases n
  {
    if n > 0 { CopiesStay(copies, n - 1, x); }
  }

  /** The first hard register tried for r. */
  function LowestHard(cross: set<nat>, r: nat): nat {
    if r in cross then 6 else 0
  }

  /** No hard register is free of conflict with the class of r. */
  ghost predicate Stuck(part: seq<nat>, rows: seq<set<nat>>, cross: set<nat>, r: nat) {
    MAX_BPF_REG <= r < |part| == |rows| && part[r] == r
    && forall h | LowestHard(cross, r) <= h < FRAME :: !NoConflict(part, rows, h, r)
  }

  // ----- what merge and allocate compute -----

  ghost predicate Sized(x: Classes, n: nat) {
    |x.part| == |x.rows| == n
  }

  /** Class r2 joined to class r1. */
  function JoinOf(x: Classes, r1: nat, r2: nat): Classes
    requires |x.part| == |x.rows| && r1 < |x.part| && r2 < |x.part|
  {
    Classes(x.part[r2 := r1], MergeRows(x.rows, r1, r2), if r2 in x.cross then x.cross + {r1} else x.cross)
  }

  /** A class without a conflict joins r1. */
  ghost function MergeOne(x: Classes, n: nat, r1: nat, r2: nat): (y: Classes)
    requires Sized(x, n) && r1 < n && r2 < n
    ensures Sized(y, n)
  {
    if x.part[r2] == r2 && NoConflict(x.part, x.rows, r1, r2) then JoinOf(x, r1, r2) else x
  }

  /** merge for one class: every later class below j without a conflict joins it. */
  ghost function MergedInto(x: Classes, n: nat, r1: nat, j: nat): (y: Classes)
    requires Sized(x, n) && r1 < n && j <= n
    ensures Sized(y, n)
    decreases j
  {
    if j <= r1 + 1 then x else MergeOne(MergedInto(x, n, r1, j - 1), n, r1, j - 1)
  }

  ghost function MergeRow(x: Classes, n: nat, r1: nat): (y: Classes)
    requires Sized(x, n) && r1 < n
    ensures Sized(y, n)
  {
    if x.part[r1] == r1 then MergedInto(x, n, r1, n) else x
  }

  /** merge for the classes of temporaries below i, in order. */
  ghost function MergedUpTo(x: Classes, n: nat, i: nat): (y: Classes)
    requires Sized(x, n) && i <= n
    ensures Sized(y, n)
    decreases i
  {
    if i <= MAX_BPF_REG then x else MergeRow(MergedUpTo(x, n, i - 1), n, i - 1)
  }

  /** The first hard register from h on without a conflict with r, or R10. */
  ghost function FirstFree(x: Classes, r: nat, h: nat): (f: nat)
    requires |x.part| == |x.rows| && MAX_BPF_REG <= |x.part| && r < |x.part|
    ensures h <= FRAME ==> h <= f <= FRAME
    decreases FRAME - h
  {
    if h >= FRAME then FRAME else if NoConflict(x.part, x.rows, h, r) then h else FirstFree(x, r, h + 1)
  }

  /** First fit for one register: a class without a hard register joins the first
      one it can have. */
  ghost function FirstFit(x: Classes, r: nat): (y: Classes)
    requires |x.part| == |x.rows| && MAX_BPF_REG <= |x.part| && r < |x.part|
    ensures Sized(y, |x.part|)
  {
    var h := FirstFree(x, r, LowestHard(x.cross, r));
    if x.part[r] == r && h < FRAME then Classes(x.part[r := h], MergeRows(x.rows, h, r), x.cross) else x
  }

  /** First fit for the first k registers in the order. */
  ghost function FitUpTo(x: Classes, n: nat, ordered: seq<nat>, k: nat): (y: Classes)
    requires Sized(x, n) && MAX_BPF_REG <= n && k <= |ordered| && forall i | 0 <= i < k :: ordered[i] < n
    ensures Sized(y, n)
    decreases k
  {
    if k == 0 then x else FirstFit(FitUpTo(x, n, ordered, k - 1), ordered[k - 1])
  }

  lemma {:induction false} FreeIs(x: Classes, r: nat, h: nat, f: nat)
    requires |x.part| == |x.rows| && MAX_BPF_REG <= |x.part| && r < |x.part| && h <= f <= FRAME
    requires (forall i | h <= i < f :: !NoConflict(x.part, x.rows, i, r))
    requires (f < FRAME ==> NoConflict(x.part, x.rows, f, r))
    ensures FirstFree(x, r, h) == f
    decreases f - h
  {
    if h < f { FreeIs(x, r, h + 1, f); }
  }

  /** The classes of temporaries below n conflict with every later class. */
  ghost predicate Merged(part: seq<nat>, rows: seq<set<nat>>, n: nat)
    requires |part| == |rows|
  {
    forall a, b | MAX_BPF_REG <= a < n && a < b < |part| && part[a] == a && part[b] == b ::
    !NoConflict(part, rows, a, b)
  }

  /** A conflict stays when other classes are joined. */
  lemma ConflictStays(part: seq<nat>, rows: seq<set<nat>>, a: nat, b: nat, r1: nat, r2: nat)
    requires |part| == |rows| && a < |part| && b < |part| && r1 < |part| && r2 < |part|
    requires part[r2] == r2 && a != r2 && b != r2 && !NoConflict(part, rows, a, b)
    ensures !NoConflict(part[r2 := r1], MergeRows(rows, r1, r2), a, b)
  {
    var part', rows' := part[r2 := r1], MergeRows(rows, r1, r2);
    var t :| MAX_BPF_REG <= t < |part| && ((part[t] == a && t in rows[b]) || (part[t] == b && t in rows[a]));
    assert part'[t] == part[t] && rows[a] <= rows'[a] && rows[b] <= rows'[b];
  }

  lemma MergedStays(part: seq<nat>, rows: seq<set<nat>>, n: nat, r1: nat, r2: nat)
    requires |part| == |rows| && r1 < |part| && r2 < |part| && r1 != r2 && part[r2] == r2 && Merged(part, rows, n)
    ensures Merged(part[r2 := r1], MergeRows(rows, r1, r2), n)
  {
    var part', rows' := part[r2 := r1], MergeRows(rows, r1, r2);
    forall a, b | MAX_BPF_REG <= a < n && a < b < |part| && part'[a] == a && part'[b] == b
      ensures !NoConflict(part', rows', a, b)
    {
      ConflictStays(part, rows, a, b, r1, r2);
    }
  }

  /** The register at which the scan finds nothing free is blocked. */
  lemma StuckIsBlocked(part: seq<nat>, rows: seq<set<nat>>, cross: set<nat>, g: seq<set<nat>>, cross0: set<nat>, r: nat)
    requires Good(part, rows, cross, g, cross0) && Stuck(part, rows, cross, r)
    ensures Blocked(part, g, cross0, r)
  {
    if r in cross {
      if r in cross0 {
        assert Root(part, r) == r;
      } else {
        assert HasCrosser(part, cross0, r);
        var m: nat :| MAX_BPF_REG <= m < |part| && part[m] == r && m in cross0;
        assert Root(part, m) == r;
      }
      assert ClassCrosses(part, cross0, r);
    }
    forall h: nat | (if ClassCrosses(part, cross0, r) then 6 else 0) <= h < FRAME ensures ClassesMeet(part, g, h, r) {
      assert LowestHard(cross, r) <= h;
      ConflictIsReal(part, rows, cross, g, cross0, h, r);
    }
  }

  lemma MergedMeet(part: seq<nat>, rows: seq<set<nat>>, cross: set<nat>, g: seq<set<nat>>, cross0: set<nat>)
    requires Good(part, rows, cross, g, cross0) && Merged(part, rows, |part|)
    ensures AllMeet(part, g)
  {
    forall a: nat, b: nat | MAX_BPF_REG <= a < b < |part| && part[a] == a && part[b] == b
      ensures ClassesMeet(part, g, a, b)
    {
      ConflictIsReal(part, rows, cross, g, cross0, a, b);
    }
  }

  /** Exactly the temporaries. */
  ghost predicate ListsTemps(ordered: seq<nat>, n: nat) {
    (forall t | MAX_BPF_REG <= t < n :: t in ordered)
    && (forall k | 0 <= k < |ordered| :: MAX_BPF_REG <= ordered[k] < n)
  }

  ghost predicate Allocated(part: seq<nat>) {
    forall r | MAX_BPF_REG <= r < |part| :: Root(part, r) < FRAME
  }

  /** One more class joined to r1: what the loop over the others keeps. */
  lemma JoinInto(part: seq<nat>, rows: seq<set<nat>>, cross: set<nat>, g: seq<set<nat>>, cross0: set<nat>, r1: nat,
                 r2: nat)
    requires Good(part, rows, cross, g, cross0) && MAX_BPF_REG <= r1 < r2 < |part| && part[r1] == r1 && part[r2] == r2
    requires NoConflict(part, rows, r1, r2)
    requires Merged(part, rows, r1) && forall b | r1 < b < r2 && part[b] == b :: !NoConflict(part, rows, r1, b)
    requires forall t | MAX_BPF_REG <= t < |part| && part[t] != t :: MAX_BPF_REG <= part[t] <= r1
    ensures var part', rows' := part[r2 := r1], MergeRows(rows, r1, r2);
      Good(part', rows', if r2 in cross then cross + {r1} else cross, g, cross0) && Merged(part', rows', r1)
      && forall b | r1 < b < r2 && part'[b] == b :: !NoConflict(part', rows', r1, b)
  {
    JoinKeeps(part, rows, cross, g, cross0, r1, r2);
    MergedStays(part, rows, r1, r1, r2);
    forall b | r1 < b < r2 && part[b] == b ensures !NoConflict(part[r2 := r1], MergeRows(rows, r1, r2), r1, b) {
      ConflictStays(part, rows, r1, b, r1, r2);
    }
  }

  ghost predicate GoodClasses(x: Classes, g: seq<set<nat>>, cross0: set<nat>) {
    Good(x.part, x.rows, x.cross, g, cross0)
  }

  /** Before r1 nothing is left to merge, and what has been merged went to r1 or
      before it. */
  ghost predicate MergedBefore(x: Classes, r1: nat, bound: nat) {
    |x.part| == |x.rows| && Merged(x.part, x.rows, r1)
    && forall t | MAX_BPF_REG <= t < |x.part| && x.part[t] != t :: MAX_BPF_REG <= x.part[t] < bound
  }

  ghost predicate ConflictsBelow(x: Classes, r1: nat, j: nat) {
    |x.part| == |x.rows| && r1 < |x.part| && x.part[r1] == r1
    && forall b | r1 < b < j && b < |x.part| && x.part[b] == b :: !NoConflict(x.part, x.rows, r1, b)
  }

  /** In the inner loop of merge, at j. */
  ghost predicate MergingAt(x: Classes, r1: nat, j: nat, g: seq<set<nat>>, cross0: set<nat>) {
    GoodClasses(x, g, cross0) && MergedBefore(x, r1, r1 + 1) && ConflictsBelow(x, r1, j)
  }

  lemma JoinStep(x: Classes, y: Classes, r1: nat, r2: nat, g: seq<set<nat>>, cross0: set<nat>)
    requires MergingAt(x, r1, r2, g, cross0) && MAX_BPF_REG <= r1 < r2 < |x.part|
    requires x.part[r2] == r2 && NoConflict(x.part, x.rows, r1, r2) && y == JoinOf(x, r1, r2)
    ensures MergingAt(y, r1, r2 + 1, g, cross0)
  {
    JoinInto(x.part, x.rows, x.cross, g, cross0, r1, r2);
  }

  lemma SkipStep(x: Classes, r1: nat, r2: nat, g: seq<set<nat>>, cross0: set<nat>)
    requires MergingAt(x, r1, r2, g, cross0) && MAX_BPF_REG <= r1 < r2 < |x.part|
    requires x.part[r2] != r2 || !NoConflict(x.part, x.rows, r1, r2)
    ensures MergingAt(x, r1, r2 + 1, g, cross0)
  {
  }

  /** What every step of the inner loop keeps, the loop does. */
  lemma {:induction false} MergedIntoHolds(inv: (Classes, nat) -> bool, x: Classes, n: nat, r1: nat, j: nat)
    requires Sized(x, n) && r1 < j <= n && inv(x, r1 + 1)
    requires forall y: Classes, k: nat {:trigger inv(y, k)} | Sized(y, n) && r1 < k < n && inv(y, k) ::
      inv(MergeOne(y, n, r1, k), k + 1)
    ensures inv(MergedInto(x, n, r1, j), j)
    decreases j
  {
    if j > r1 + 1 { MergedIntoHolds(inv, x, n, r1, j - 1); }
  }

  lemma MergeIntoKeeps(x: Classes, n: nat, r1: nat, g: seq<set<nat>>, cross0: set<nat>)
    requires Sized(x, n) && MergingAt(x, r1, r1 + 1, g, cross0) && MAX_BPF_REG <= r1 < n
    ensures MergingAt(MergedInto(x, n, r1, n), r1, n, g, cross0)
  {
    var inv := (y: Classes, k: nat) => MergingAt(y, r1, k, g, cross0);
    forall y: Classes, k: nat | Sized(y, n) && r1 < k < n && inv(y, k) ensures inv(MergeOne(y, n, r1, k), k + 1) {
      if y.part[k] == k && NoConflict(y.part, y.rows, r1, k) {
        JoinStep(y, JoinOf(y, r1, k), r1, k, g, cross0);
      } else {
        SkipStep(y, r1, k, g, cross0);
      }
    }
    MergedIntoHolds(inv, x, n, r1, n);
  }

  /** In the outer loop of merge, at i. */
  ghost predicate MergedAt(x: Classes, i: nat, g: seq<set<nat>>, cross0: set<nat>) {
    GoodClasses(x, g, cross0) && MergedBefore(x, i, i)
  }

  lemma RowMerged(x: Classes, n: nat, i: nat, g: seq<set<nat>>, cross0: set<nat>)
    requires Sized(x, n) && MAX_BPF_REG <= i < n && MergedAt(x, i, g, cross0) && x.part[i] == i
    ensures MergedAt(MergedInto(x, n, i, n), i + 1, g, cross0)
  {
    assert MergingAt(x, i, i + 1, g, cross0);
    MergeIntoKeeps(x, n, i, g, cross0);
    RowEnds(MergedInto(x, n, i, n), i, g, cross0);
  }

  lemma RowEnds(x: Classes, i: nat, g: seq<set<nat>>, cross0: set<nat>)
    requires MergingAt(x, i, |x.part|, g, cross0)
    ensures MergedAt(x, i + 1, g, cross0)
  {
  }

  lemma RowSkipped(x: Classes, i: nat, g: seq<set<nat>>, cross0: set<nat>)
    requires MergedAt(x, i, g, cross0) && i < |x.part| && x.part[i] != i
    ensures MergedAt(x, i + 1, g, cross0)
  {
  }

  /** What every step of the outer loop keeps, merge does. */
  lemma {:induction false} MergedUpToHolds(inv: (Classes, nat) -> bool, x: Classes, n: nat, i: nat)
    requires Sized(x, n) && MAX_BPF_REG <= i <= n && inv(x, MAX_BPF_REG)
    requires forall y: Classes, k: nat {:trigger inv(y, k)} | Sized(y, n) && MAX_BPF_REG <= k < n && inv(y, k) ::
      inv(MergeRow(y, n, k), k + 1)
    ensures inv(MergedUpTo(x, n, i), i)
    decreases i
  {
    if i > MAX_BPF_REG { MergedUpToHolds(inv, x, n, i - 1); }
  }

  /** merge keeps classes free of interference, and leaves none to join. */
  lemma MergeKeeps(x: Classes, n: nat, g: seq<set<nat>>, cross0: set<nat>)
    requires Sized(x, n) && MergedAt(x, MAX_BPF_REG, g, cross0) && MAX_BPF_REG <= n
    ensures MergedAt(MergedUpTo(x, n, n), n, g, cross0)
  {
    var inv := (y: Classes, k: nat) => MergedAt(y, k, g, cross0);
    forall y: Classes, k: nat | Sized(y, n) && MAX_BPF_REG <= k < n && inv(y, k) ensures inv(MergeRow(y, n, k), k + 1) {
      if y.part[k] == k { RowMerged(y, n, k, g, cross0); } else { RowSkipped(y, k, g, cross0); }
    }
    MergedUpToHolds(inv, x, n, n);
  }

  lemma MergeStarts(x: Classes, g: seq<set<nat>>, cross0: set<nat>)
    requires |x.part| == |x.rows| && MAX_BPF_REG <= |x.part| && (forall r | 0 <= r < |x.part| :: x.part[r] == r)
    requires g == x.rows && cross0 == x.cross && Graph(g)
    ensures MergedAt(x, MAX_BPF_REG, g, cross0)
  {
  }

  /** What first fit is given and keeps. */
  ghost predicate Fitting(x: Classes, g: seq<set<nat>>, cross0: set<nat>) {
    |x.part| == |x.rows| && GoodClasses(x, g, cross0) && Merged(x.part, x.rows, |x.part|)
  }

  lemma FirstFitKeeps(x: Classes, r: nat, g: seq<set<nat>>, cross0: set<nat>)
    requires Fitting(x, g, cross0) && MAX_BPF_REG <= r < |x.part|
    ensures Fitting(FirstFit(x, r), g, cross0)
  {
    var h := FirstFree(x, r, LowestHard(x.cross, r));
    if x.part[r] == r && h < FRAME {
      FreeFits(x, r, LowestHard(x.cross, r));
      JoinKeeps(x.part, x.rows, x.cross, g, cross0, h, r);
      MergedStays(x.part, x.rows, |x.part|, h, r);
    }
  }

  lemma {:induction false} FreeFits(x: Classes, r: nat, h: nat)
    requires |x.part| == |x.rows| && MAX_BPF_REG <= |x.part| && r < |x.part| && h <= FRAME
    ensures FirstFree(x, r, h) < FRAME ==> NoConflict(x.part, x.rows, FirstFree(x, r, h), r)
    ensures forall i | h <= i < FirstFree(x, r, h) :: !NoConflict(x.part, x.rows, i, r)
    decreases FRAME - h
  {
    if h < FRAME && !NoConflict(x.part, x.rows, h, r) { FreeFits(x, r, h + 1); }
  }

  /** First fit changes nothing but the class of r, and gives it the lowest hard
      register it may have and does not conflict with; it gives none exactly when
      there is none. */
  lemma FirstFitIs(x: Classes, r: nat)
    requires |x.part| == |x.rows| && MAX_BPF_REG <= r < |x.part| && x.part[r] == r
    ensures var y, low := FirstFit(x, r), LowestHard(x.cross, r);
      y.cross == x.cross && (forall t | 0 <= t < |x.part| && t != r :: y.part[t] == x.part[t])
      && if y.part[r] == r then y == x && forall h | low <= h < FRAME :: !NoConflict(x.part, x.rows, h, r)
         else low <= y.part[r] < FRAME && NoConflict(x.part, x.rows, y.part[r], r)
              && forall h | low <= h < y.part[r] :: !NoConflict(x.part, x.rows, h, r)
  {
    FreeFits(x, r, LowestHard(x.cross, r));
  }

  lemma {:induction false} FitUpToHolds(inv: Classes -> bool, x: Classes, n: nat, ordered: seq<nat>, k: nat)
    requires Sized(x, n) && MAX_BPF_REG <= n && k <= |ordered| && inv(x)
    requires forall i | 0 <= i < k :: MAX_BPF_REG <= ordered[i] < n
    requires forall y: Classes, r: nat {:trigger FirstFit(y, r)} | Sized(y, n) && MAX_BPF_REG <= r < n && inv(y) ::
      inv(FirstFit(y, r))
    ensures inv(FitUpTo(x, n, ordered, k))
    decreases k
  {
    if k > 0 { FitUpToHolds(inv, x, n, ordered, k - 1); }
  }

  lemma FitKeeps(x: Classes, n: nat, ordered: seq<nat>, k: nat, g: seq<set<nat>>, cross0: set<nat>)
    requires Sized(x, n) && Fitting(x, g, cross0) && MAX_BPF_REG <= n && k <= |ordered|
    requires forall i | 0 <= i < k :: MAX_BPF_REG <= ordered[i] < n
    ensures Fitting(FitUpTo(x, n, ordered, k), g, cross0)
  {
    var inv := (y: Classes) => Fitting(y, g, cross0);
    forall y: Classes, r: nat | Sized(y, n) && MAX_BPF_REG <= r < n && inv(y) ensures inv(FirstFit(y, r)) {
      FirstFitKeeps(y, r, g, cross0);
    }
    FitUpToHolds(inv, x, n, ordered, k);
  }

  /** Where first fit finds nothing for r, r is blocked. */
  lemma NoFitIsBlocked(x: Classes, r: nat, g: seq<set<nat>>, cross0: set<nat>)
    requires Fitting(x, g, cross0) && MAX_BPF_REG <= r < |x.part| && x.part[r] == r && FirstFit(x, r).part[r] == r
    ensures Blocked(x.part, g, cross0, r) && AllMeet(x.part, g)
  {
    FreeFits(x, r, LowestHard(x.cross, r));
    StuckIsBlocked(x.part, x.rows, x.cross, g, cross0, r);
    MergedMeet(x.part, x.rows, x.cross, g, cross0);
  }

  /** The first n registers in the order have joined a class. */
  ghost predicate Seated(x: Classes, ordered: seq<nat>, n: nat) {
    n <= |ordered| && forall k | 0 <= k < n :: ordered[k] < |x.part| && x.part[ordered[k]] != ordered[k]
  }

  lemma SeatedMore(x: Classes, y: Classes, ordered: seq<nat>, n: nat, r: nat)
    requires |x.part| == |x.rows| && MAX_BPF_REG <= r < |x.part| && Seated(x, ordered, n) && n < |ordered|
    requires ordered[n] == r
    requires (y == x || (x.part[r] == r && y == FirstFit(x, r))) && y.part[r] != r
    ensures Seated(y, ordered, n + 1)
  {
    if y != x { FirstFitIs(x, r); }
  }

  lemma IndexIs(ordered: seq<nat>, x: Classes, n: nat)
    requires n < |ordered| && Seated(x, ordered, n) && ordered[n] < |x.part| && x.part[ordered[n]] == ordered[n]
    ensures IndexOf(ordered, ordered[n]) == n
  {
  }

  /** First fit for a class that has a hard register changes nothing. */
  lemma FitNext(x: Classes, n: nat, ordered: seq<nat>, i: nat, y: Classes)
    requires Sized(x, n) && MAX_BPF_REG <= n && i < |ordered| && (forall k | 0 <= k <= i :: ordered[k] < n)
    requires y == FitUpTo(x, n, ordered, i)
    ensures FitUpTo(x, n, ordered, i + 1) == FirstFit(y, ordered[i])
    ensures (y.part[ordered[i]] != ordered[i] ==> FirstFit(y, ordered[i]) == y)
  {
  }

  lemma AllSeated(x: Classes, ordered: seq<nat>, g: seq<set<nat>>, cross0: set<nat>)
    requires GoodClasses(x, g, cross0) && ListsTemps(ordered, |x.part|) && Seated(x, ordered, |ordered|)
    ensures Allocated(x.part)
  {
    forall r | MAX_BPF_REG <= r < |x.part| ensures x.part[r] != r {
      assert r in ordered;
      var k :| 0 <= k < |ordered| && ordered[k] == r;
    }
  }

  class Allocator {
    var part: seq<nat>
    var rows: seq<set<nat>>
    var cross: set<nat>

    /** Every register in its own partition, nothing interferes yet. */
    constructor (nregs: nat)
      ensures |part| == |rows| == nregs && cross == {}
      ensures forall r | 0 <= r < nregs :: part[r] == r && rows[r] == {}
    {
      part := seq(nregs, r => r);
      rows := seq(nregs, _ => {});
      cross := {};
    }

    method Add(a: nat, b: nat)
      requires a < |rows| && b < |rows| && a != b
      modifies `rows
      ensures rows == old(rows[a := rows[a] + {b}][b := rows[b] + {a}])
    {
      rows := rows[a := rows[a] + {b}];
      rows := rows[b := rows[b] + {a}];
    }

    /** Pair r1 with the members above it. */
    method AddAbove(r1: nat, s: set<nat>)
      requires r1 < |rows| && forall r | r in s :: r < |rows|
      modifies `rows
      ensures |rows| == old(|rows|)
      ensures rows[r1] == old(rows)[r1] + (set r | r in s && r > r1)
      ensures forall a | 0 <= a < |rows| && a != r1 :: rows[a] == old(rows)[a] + if a in s && a > r1 then {r1} else {}
    {
      var n := |rows|;
      for r2 := r1 + 1 to n
        invariant |rows| == n
        invariant rows[r1] == old(rows)[r1] + (set r | r in s && r1 < r < r2)
        invariant forall a | 0 <= a < n && a != r1 ::
          rows[a] == old(rows)[a] + if a in s && r1 < a < r2 then {r1} else {}
      {
        if r2 in s { Add(r1, r2); }
      }
    }

    /** Record every pair of members, the smaller one first. */
    method AddClique(s: set<nat>)
      requires forall r | r in s :: r < |rows|
      modifies `rows
      ensures |rows| == old(|rows|)
      ensures forall a | 0 <= a < |rows| :: rows[a] == old(rows)[a] + if a in s then s - {a} else {}
    {
      var n := |rows|;
      for r1 := 0 to n
        invariant |rows| == n
        invariant forall a | 0 <= a < r1 :: rows[a] == old(rows)[a] + if a in s then s - {a} else {}
        invariant forall a | r1 <= a < n :: rows[a] == old(rows)[a] + if a in s then LowPart(s, r1) else {}
      {
        if r1 in s {
          AddAbove(r1, s);
          assert LowPart(s, r1) + (set r | r in s && r > r1) == s - {r1};
          assert LowPart(s, r1 + 1) == LowPart(s, r1) + {r1};
        } else {
          assert LowPart(s, r1 + 1) == LowPart(s, r1);
        }
      }
    }

    /** find_block_igraph. */
    method FindBlockIgraph(p: seq<Block>, nregs: nat, liveOut: seq<set<nat>>, i: nat)
      requires WfBlocks(p, nregs) && |liveOut| == |p| && Bounded(liveOut, nregs) && |rows| == nregs && i < |p|
      requires RecordedSoFar(p, liveOut, i, |p[i].insns|, rows)
      requires forall r: nat :: r in cross <==> CrossedSoFar(p, liveOut, i, |p[i].insns|, r)
      modifies `rows, `cross
      ensures |rows| == nregs
      ensures RecordedSoFar(p, liveOut, i, 0, rows)
      ensures forall r: nat :: r in cross <==> CrossedSoFar(p, liveOut, i, 0, r)
    {
      var live := liveOut[i];
      var ins := p[i].insns;
      var j := |ins|;
      while j > 0
        invariant 0 <= j <= |ins| && |rows| == nregs
        invariant live == LiveBefore(ins[j..], liveOut[i])
        invariant RecordedSoFar(p, liveOut, i, j, rows)
        invariant forall r: nat :: r in cross <==> CrossedSoFar(p, liveOut, i, j, r)
      {
        j := j - 1;
        assert ins[j..][1..] == ins[j + 1..] && ins[j..][0] == ins[j];
        live := live - Sets(ins[j]);
        if ins[j].code.Call? {
          cross := cross + live;
        }
        live := live + Uses(ins[j]);
        var interference := live;
        if !ins[j].code.Call? {
          interference := interference + Sets(ins[j]);
        }
        assert interference == Clique(ins, j, liveOut[i]);
        CliqueBounded(p, nregs, liveOut, i, j);
        ghost var rows0 := rows;
        AddClique(interference);
        RecordStep(p, liveOut, i, j, rows0, rows);
        forall r: nat
          ensures CrossedSoFar(p, liveOut, i, j, r) <==>
            CrossedSoFar(p, liveOut, i, j + 1, r) || CrossAt(p, liveOut, i, j, r)
        {
          CrossStep(p, liveOut, i, j, r);
        }
      }
    }

    /** find_igraph: the graph and the set of call-crossing registers are exact. */
    method FindIgraph(p: seq<Block>, nregs: nat, liveOut: seq<set<nat>>)
      requires WfBlocks(p, nregs) && |liveOut| == |p| && Bounded(liveOut, nregs)
      requires |rows| == nregs && cross == {} && forall r | 0 <= r < nregs :: rows[r] == {}
      modifies `rows, `cross
      ensures |rows| == nregs
      ensures forall a: nat, b: nat | a < nregs :: b in rows[a] <==> Interfere(p, liveOut, a, b)
      ensures forall r: nat :: r in cross <==> CrossesCall(p, liveOut, r)
    {
      for i := 0 to |p|
        invariant |rows| == nregs
        invariant RecordedSoFar(p, liveOut, i, if i < |p| then |p[i].insns| else 0, rows)
        invariant forall r: nat :: r in cross <==> CrossedSoFar(p, liveOut, i, if i < |p| then |p[i].insns| else 0, r)
      {
        FindBlockIgraph(p, nregs, liveOut, i);
        NextBlock(p, liveOut, i, if i + 1 < |p| then |p[i + 1].insns| else 0);
      }
      AllVisited(p, liveOut);
    }

    function Now(): Classes
      reads this
    {
      Classes(part, rows, cross)
    }

    /** merge_copies. */
    method MergeCopies(copies: seq<Entry>)
      requires |part| == |rows| && forall r | 0 <= r < |part| :: part[r] < |part|
      requires forall k | 0 <= k < |copies| :: copies[k].i < |part| && copies[k].j < |part|
      modifies this
      ensures Now() == CopiesMerged(copies, |copies|, old(Now()))
    {
      for k := 0 to |copies|
        invariant |part| == |rows| == old(|part|) && forall r | 0 <= r < |part| :: part[r] < |part|
        invariant Now() == CopiesMerged(copies, k, old(Now()))
      {
        var r1 := part[copies[k].i];
        var r2 := copies[k].j;
        if r2 >= MAX_BPF_REG && part[r2] == r2 && r2 !in rows[r1] && (r1 >= 6 || r2 !in cross) {
          part := part[r2 := r1];
          rows := MergeRows(rows, r1, r2);
          if r2 in cross { cross := cross + {r1}; }
        }
      }
    }

    /** The scan both merge and allocate make over all temporaries. */
    method Interferes(ordered: seq<nat>, r1: nat, r2: nat) returns (interferes: bool)
      requires |part| == |rows| && r1 < |part| && r2 < |part| && ListsTemps(ordered, |part|)
      ensures !interferes <==> NoConflict(part, rows, r1, r2)
    {
      for k := 0 to |ordered|
        invariant forall x | 0 <= x < k ::
          (part[ordered[x]] == r1 ==> ordered[x] !in rows[r2]) && (part[ordered[x]] == r2 ==> ordered[x] !in rows[r1])
      {
        var r3 := ordered[k];
        if (part[r3] == r1 && r3 in rows[r2]) || (part[r3] == r2 && r3 in rows[r1]) {
          return true;
        }
      }
      forall t | MAX_BPF_REG <= t < |part|
        ensures (part[t] == r1 ==> t !in rows[r2]) && (part[t] == r2 ==> t !in rows[r1])
      {
        assert t in ordered;
        var x :| 0 <= x < |ordered| && ordered[x] == t;
      }
      return false;
    }

    /** merge: join every pair of partitions the scan finds free of conflict;
        afterwards there is none left. */
    method Merge(ordered: seq<nat>, ghost g: seq<set<nat>>, ghost cross0: set<nat>)
      requires |part| == |rows| && MAX_BPF_REG <= |part| && ListsTemps(ordered, |part|)
      requires |ordered| == |part| - MAX_BPF_REG && forall k | 0 <= k < |ordered| :: ordered[k] == k + MAX_BPF_REG
      requires forall r | 0 <= r < |part| :: part[r] == r
      requires g == rows && cross0 == cross && Graph(g)
      modifies this
      ensures |part| == old(|part|) && Now() == MergedUpTo(old(Now()), |part|, |part|)
      ensures Good(part, rows, cross, g, cross0) && Merged(part, rows, |part|) && AllMeet(part, g)
    {
      ghost var x := Now();
      for i := MAX_BPF_REG to |part|
        invariant Sized(Now(), |x.part|) && Now() == MergedUpTo(x, |part|, i)
      {
        var r1 := ordered[i - MAX_BPF_REG];
        if part[r1] == r1 {
          MergeInto(ordered, r1);
        }
      }
      MergeStarts(x, g, cross0);
      MergeKeeps(x, |part|, g, cross0);
      MergedMeet(part, rows, cross, g, cross0);
    }

    /** The inner loop of merge, for one r1. */
    method MergeInto(ordered: seq<nat>, r1: nat)
      requires |part| == |rows| && MAX_BPF_REG <= |part| && ListsTemps(ordered, |part|)
      requires |ordered| == |part| - MAX_BPF_REG && forall k | 0 <= k < |ordered| :: ordered[k] == k + MAX_BPF_REG
      requires MAX_BPF_REG <= r1 < |part|
      modifies this
      ensures Sized(Now(), old(|part|)) && Now() == MergedInto(old(Now()), |part|, r1, |part|)
    {
      ghost var x := Now();
      for j := r1 + 1 to |part|
        invariant Sized(Now(), |x.part|) && Now() == MergedInto(x, |part|, r1, j)
      {
        var r2 := ordered[j - MAX_BPF_REG];
        if part[r2] == r2 {
          var interferes := Interferes(ordered, r1, r2);
          if !interferes {
            part := part[r2 := r1];
            rows := MergeRows(rows, r1, r2);
            if r2 in cross { cross := cross + {r1}; }
          }
        }
      }
    }

    /** allocate: 0 when every temporary has a hard register below R10,
        otherwise the first temporary in the order for which there is none. */
    method Allocate(ordered: seq<nat>, ghost g: seq<set<nat>>, ghost cross0: set<nat>) returns (reg: nat)
      requires |part| == |rows| && Good(part, rows, cross, g, cross0) && ListsTemps(ordered, |part|)
      requires Merged(part, rows, |part|)
      modifies `part, `rows
      ensures Sized(Now(), old(|part|)) && Good(part, rows, cross, g, cross0)
      ensures var k := if reg == 0 then |ordered| else IndexOf(ordered, reg);
        k <= |ordered| && Now() == FitUpTo(old(Now()), |part|, ordered, k)
      ensures reg == 0 ==> Allocated(part)
      ensures reg != 0 ==> reg in ordered && Blocked(part, g, cross0, reg) && AllMeet(part, g)
      ensures reg != 0 ==> forall k | 0 <= k < IndexOf(ordered, reg) :: part[ordered[k]] != ordered[k]
    {
      ghost var x := Now();
      reg := Fit(ordered);
      FitKeeps(x, |part|, ordered, if reg == 0 then |ordered| else IndexOf(ordered, reg), g, cross0);
      if reg == 0 {
        AllSeated(Now(), ordered, g, cross0);
      } else {
        NoFitIsBlocked(Now(), reg, g, cross0);
      }
    }

    /** The loop of allocate. */
    method Fit(ordered: seq<nat>) returns (reg: nat)
      requires |part| == |rows| && MAX_BPF_REG <= |part| && ListsTemps(ordered, |part|)
      modifies `part, `rows
      ensures Sized(Now(), old(|part|))
      ensures var k := if reg == 0 then |ordered| else IndexOf(ordered, reg);
        Seated(Now(), ordered, k) && Now() == FitUpTo(old(Now()), |part|, ordered, k)
      ensures reg != 0 ==> reg in ordered && part[reg] == reg && FirstFit(Now(), reg) == Now()
    {
      ghost var x := Now();
      for i := 0 to |ordered|
        invariant Sized(Now(), |x.part|) && Now() == FitUpTo(x, |part|, ordered, i) && Seated(Now(), ordered, i)
      {
        var r2 := ordered[i];
        ghost var y := Now();
        FitNext(x, |part|, ordered, i, y);
        if part[r2] == r2 {
          var found := Color(ordered, r2);
          if !found {
            FirstFitIs(y, r2);
            IndexIs(ordered, y, i);
            return r2;
          }
        }
        SeatedMore(y, Now(), ordered, i, r2);
      }
      return 0;
    }

    /** Give one partition the first hard register the scan allows, if there is
        one. */
    method Color(ordered: seq<nat>, r2: nat) returns (found: bool)
      requires |part| == |rows| && ListsTemps(ordered, |part|)
      requires MAX_BPF_REG <= r2 < |part| && part[r2] == r2
      modifies `part, `rows
      ensures Sized(Now(), old(|part|)) && Now() == FirstFit(old(Now()), r2)
      ensures found <==> part[r2] != r2
    {
      var first := if r2 in cross then 6 else 0;
      for r1 := first to FRAME
        invariant part == old(part) && rows == old(rows)
        invariant forall h | first <= h < r1 :: !NoConflict(part, rows, h, r2)
      {
        var interferes := Interferes(ordered, r1, r2);
        if !interferes {
          FreeIs(Now(), r2, first, r1);
          part := part[r2 := r1];
          rows := MergeRows(rows, r1, r2);
          return true;
        }
      }
      FreeIs(Now(), r2, first, FRAME);
      return false;
    }

    /** finalize_allocation's chase, allowing ten dereferences; two suffice. */
    method Finalize() returns (f: seq<nat>)
      requires Shallow(part) && Allocated(part)
      ensures |f| == |part| && forall r | 0 <= r < |part| :: f[r] == Root(part, r) < MAX_BPF_REG
    {
      f := seq(|part|, r => r);
      for i := MAX_BPF_REG to |part|
        invariant |f| == |part|
        invariant forall r | 0 <= r < i :: f[r] == Root(part, r) < MAX_BPF_REG
      {
        var r := part[i];
        var j := 0;
        assert Root(part, i) < FRAME;
        while r >= MAX_BPF_REG && j < 10
          invariant j <= 1 && r < |part|
          invariant if j == 0 then r == part[i] else r == part[part[i]] && part[i] >= MAX_BPF_REG
        {
          r := part[r];
          j := j + 1;
        }
        f := f[i := r];
      }
    }
  }

  lemma NextBlock(p: seq<Block>, liveOut: seq<set<nat>>, i: nat, j: nat)
    requires i + 1 < |p| ==> j == |p[i + 1].insns|
    ensures forall a: nat, b: nat :: MetSoFar(p, liveOut, i, 0, a, b) <==> MetSoFar(p, liveOut, i + 1, j, a, b)
    ensures forall r: nat :: CrossedSoFar(p, liveOut, i, 0, r) <==> CrossedSoFar(p, liveOut, i + 1, j, r)
  {
    forall a: nat, b: nat ensures MetSoFar(p, liveOut, i, 0, a, b) <==> MetSoFar(p, liveOut, i + 1, j, a, b) {
      if MetSoFar(p, liveOut, i, 0, a, b) {
        var blk: nat, k: nat :| Visited(blk, k, i, 0) && MeetAt(p, liveOut, blk, k, a, b);
        assert Visited(blk, k, i + 1, j);
      }
      if MetSoFar(p, liveOut, i + 1, j, a, b) {
        var blk: nat, k: nat :| Visited(blk, k, i + 1, j) && MeetAt(p, liveOut, blk, k, a, b);
        assert Visited(blk, k, i, 0);
      }
    }
    forall r: nat ensures CrossedSoFar(p, liveOut, i, 0, r) <==> CrossedSoFar(p, liveOut, i + 1, j, r) {
      if CrossedSoFar(p, liveOut, i, 0, r) {
        var blk: nat, k: nat :| Visited(blk, k, i, 0) && CrossAt(p, liveOut, blk, k, r);
        assert Visited(blk, k, i + 1, j);
      }
      if CrossedSoFar(p, liveOut, i + 1, j, r) {
        var blk: nat, k: nat :| Visited(blk, k, i + 1, j) && CrossAt(p, liveOut, blk, k, r);
        assert Visited(blk, k, i, 0);
      }
    }
  }

  lemma AllVisited(p: seq<Block>, liveOut: seq<set<nat>>)
    ensures forall a: nat, b: nat :: MetSoFar(p, liveOut, |p|, 0, a, b) <==> Interfere(p, liveOut, a, b)
    ensures forall r: nat :: CrossedSoFar(p, liveOut, |p|, 0, r) <==> CrossesCall(p, liveOut, r)
  {
    forall a: nat, b: nat | Interfere(p, liveOut, a, b) ensures MetSoFar(p, liveOut, |p|, 0, a, b) {
      var blk: nat, k: nat :| MeetAt(p, liveOut, blk, k, a, b);
      assert Visited(blk, k, |p|, 0);
    }
    forall r: nat | CrossesCall(p, liveOut, r) ensures CrossedSoFar(p, liveOut, |p|, 0, r) {
      var blk: nat, k: nat :| CrossAt(p, liveOut, blk, k, r);
      assert Visited(blk, k, |p|, 0);
    }
  }

  lemma MetStep(p: seq<Block>, liveOut: seq<set<nat>>, i: nat, j: nat, a: nat, b: nat)
    ensures MetSoFar(p, liveOut, i, j, a, b) <==> MetSoFar(p, liveOut, i, j + 1, a, b) || MeetAt(p, liveOut, i, j, a, b)
  {
    if MetSoFar(p, liveOut, i, j, a, b) && !MeetAt(p, liveOut, i, j, a, b) {
      var blk: nat, k: nat :| Visited(blk, k, i, j) && MeetAt(p, liveOut, blk, k, a, b);
      assert Visited(blk, k, i, j + 1);
    }
    if MetSoFar(p, liveOut, i, j + 1, a, b) {
      var blk: nat, k: nat :| Visited(blk, k, i, j + 1) && MeetAt(p, liveOut, blk, k, a, b);
      assert Visited(blk, k, i, j);
    }
    if MeetAt(p, liveOut, i, j, a, b) { assert Visited(i, j, i, j); }
  }

  lemma CrossStep(p: seq<Block>, liveOut: seq<set<nat>>, i: nat, j: nat, r: nat)
    ensures CrossedSoFar(p, liveOut, i, j, r) <==> CrossedSoFar(p, liveOut, i, j + 1, r) || CrossAt(p, liveOut, i, j, r)
  {
    if CrossedSoFar(p, liveOut, i, j, r) && !CrossAt(p, liveOut, i, j, r) {
      var blk: nat, k: nat :| Visited(blk, k, i, j) && CrossAt(p, liveOut, blk, k, r);
      assert Visited(blk, k, i, j + 1);
    }
    if CrossedSoFar(p, liveOut, i, j + 1, r) {
      var blk: nat, k: nat :| Visited(blk, k, i, j + 1) && CrossAt(p, liveOut, blk, k, r);
      assert Visited(blk, k, i, j);
    }
    if CrossAt(p, liveOut, i, j, r) { assert Visited(i, j, i, j); }
  }

  /** The rows hold exactly the interferences of the instructions visited. */
  ghost predicate RecordedSoFar(p: seq<Block>, liveOut: seq<set<nat>>, i: nat, j: nat, rows: seq<set<nat>>) {
    forall a: nat, b: nat | a < |rows| :: b in rows[a] <==> MetSoFar(p, liveOut, i, j, a, b)
  }

  lemma RecordStep(p: seq<Block>, liveOut: seq<set<nat>>, i: nat, j: nat, rows: seq<set<nat>>, rows': seq<set<nat>>)
    requires |liveOut| == |p| && i < |p| && j < |p[i].insns| && |rows'| == |rows|
    requires RecordedSoFar(p, liveOut, i, j + 1, rows)
    requires forall a | 0 <= a < |rows| ::
      rows'[a] ==
      rows[a] + if a in Clique(p[i].insns, j, liveOut[i]) then Clique(p[i].insns, j, liveOut[i]) - {a} else {}
    ensures RecordedSoFar(p, liveOut, i, j, rows')
  {
    forall a: nat, b: nat | a < |rows'| ensures b in rows'[a] <==> MetSoFar(p, liveOut, i, j, a, b) {
      MetStep(p, liveOut, i, j, a, b);
    }
  }

  // ----- the colouring is safe -----

  lemma {:induction false} CodeIsOk(f: seq<nat>, p: seq<Block>, liveOut: seq<set<nat>>, blk: nat, k: nat)
    requires |liveOut| == |p| && blk < |p| && k <= |p[blk].insns|
    requires forall a: nat, b: nat | Interfere(p, liveOut, a, b) :: At(f, a) != At(f, b)
    requires forall r: nat | CrossesCall(p, liveOut, r) :: At(f, r) !in CLOBBERED
    ensures CodeOk(f, p[blk].insns[k..], liveOut[blk])
    decreases |p[blk].insns| - k
  {
    var ins := p[blk].insns;
    if k < |ins| {
      CodeIsOk(f, p, liveOut, blk, k + 1);
      assert ins[k..][1..] == ins[k + 1..] && ins[k..][0] == ins[k];
      var after := LiveBefore(ins[k + 1..], liveOut[blk]);
      if ins[k].code.Call? {
        forall r | r in after && r !in CLOBBERED ensures At(f, r) !in CLOBBERED {
          assert CrossAt(p, liveOut, blk, k, r);
        }
      } else if ins[k].dest.Some? {
        var d := ins[k].dest.value;
        forall r | r in after && r != d ensures At(f, r) != At(f, d) {
          assert MeetAt(p, liveOut, blk, k, r, d);
        }
      }
    }
  }

  /** Registers that interfere get different colours. */
  lemma ColorsDiffer(f: seq<nat>, p: seq<Block>, nregs: nat, liveOut: seq<set<nat>>, part: seq<nat>, g: seq<set<nat>>,
                     a: nat, b: nat)
    requires WfBlocks(p, nregs) && |liveOut| == |p| && Bounded(liveOut, nregs)
    requires |part| == |g| == |f| == nregs && Proper(part, g)
    requires forall r | 0 <= r < nregs :: f[r] == Root(part, r)
    requires Interfere(p, liveOut, a, b)
    requires a < nregs ==> b in g[a]
    ensures At(f, a) != At(f, b)
  {
    var blk: nat, k: nat :| MeetAt(p, liveOut, blk, k, a, b);
    CliqueBounded(p, nregs, liveOut, blk, k);
  }

  /** A register live across a call gets none of R0..R5. */
  lemma CrossingIsSafe(f: seq<nat>, p: seq<Block>, nregs: nat, liveOut: seq<set<nat>>, part: seq<nat>, cross: set<nat>,
                       cross0: set<nat>, r: nat)
    requires |part| == |f| == nregs && Shallow(part) && Allocated(part) && CrossKept(part, cross, cross0)
    requires forall r | 0 <= r < nregs :: f[r] == Root(part, r)
    requires CrossesCall(p, liveOut, r) && r in cross0
    ensures At(f, r) !in CLOBBERED
  {
    var blk: nat, k: nat :| CrossAt(p, liveOut, blk, k, r);
  }

  /** A proper colouring is one under which no write destroys a live register. */
  lemma ColoringIsSafe(f: seq<nat>, p: seq<Block>, nregs: nat, liveIn: seq<set<nat>>, liveOut: seq<set<nat>>,
                       part: seq<nat>, rows: seq<set<nat>>, cross: set<nat>, g: seq<set<nat>>, cross0: set<nat>)
    requires WfBlocks(p, nregs) && |liveIn| == |liveOut| == |p| && Bounded(liveOut, nregs)
    requires forall b | 0 <= b < |p| :: liveOut[b] == AtSuccs(p[b], liveIn)
    requires Good(part, rows, cross, g, cross0) && Allocated(part) && |part| == nregs
    requires forall a: nat, b: nat | a < nregs :: b in g[a] <==> Interfere(p, liveOut, a, b)
    requires forall r: nat :: r in cross0 <==> CrossesCall(p, liveOut, r)
    requires |f| == nregs && forall r | 0 <= r < nregs :: f[r] == Root(part, r)
    ensures ProgramOk(f, p, liveIn)
  {
    forall a: nat, b: nat | Interfere(p, liveOut, a, b) ensures At(f, a) != At(f, b) {
      ColorsDiffer(f, p, nregs, liveOut, part, g, a, b);
    }
    forall r: nat | CrossesCall(p, liveOut, r) ensures At(f, r) !in CLOBBERED {
      CrossingIsSafe(f, p, nregs, liveOut, part, cross, cross0, r);
    }
    forall b | 0 <= b < |p| ensures CodeOk(f, p[b].insns, AtSuccs(p[b], liveIn)) {
      CodeIsOk(f, p, liveOut, b, 0);
      assert p[b].insns[0..] == p[b].insns;
    }
  }
}
