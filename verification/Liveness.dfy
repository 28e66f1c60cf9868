/** Which registers are live where: the backward data-flow of find_lifetimes,
    proved exact against a definition by paths through the program. */
module Liveness {
  import opened Ir

  // ----- what liveness means -----

  /** The registers some instruction sets. */
  function Killed(ins: seq<Insn>): set<nat> {
    if ins == [] then {} else Sets(ins[0]) + Killed(ins[1..])
  }

  /** Some instruction reads r and none before it sets r. */
  ghost predicate ReadsFirst(ins: seq<Insn>, r: nat) {
    exists k :: 0 <= k < |ins| && r in Uses(ins[k]) && r !in Killed(ins[..k])
  }

  /** Following these blocks, r reaches a read in the last one, unset on the way. */
  ghost predicate LivePath(p: seq<Block>, path: seq<nat>, r: nat) {
    path != [] && path[0] < |p|
    && if |path| == 1 then ReadsFirst(p[path[0]].insns, r)
       else r !in Killed(p[path[0]].insns) && path[1] in Succs(p[path[0]]) && LivePath(p, path[1..], r)
  }

  ghost predicate PathFrom(p: seq<Block>, path: seq<nat>, b: nat, r: nat) {
    LivePath(p, path, r) && path[0] == b
  }

  /** On some path from the start of b, r is read before it is set. */
  ghost predicate LiveAt(p: seq<Block>, b: nat, r: nat) {
    exists path :: PathFrom(p, path, b, r)
  }

  // ----- the transfer function -----

  /** The registers live before the instructions, when `live` are live after them. */
  function LiveBefore(ins: seq<Insn>, live: set<nat>): set<nat> {
    if ins == [] then live else (LiveBefore(ins[1..], live) - Sets(ins[0])) + Uses(ins[0])
  }

  lemma {:induction false} LiveBeforeSplit(ins: seq<Insn>, live: set<nat>)
    ensures LiveBefore(ins, live) == (live - Killed(ins)) + LiveBefore(ins, {})
  {
    if ins != [] { LiveBeforeSplit(ins[1..], live); }
  }

  lemma {:induction false} UsedIsReadsFirst(ins: seq<Insn>, r: nat)
    ensures r in LiveBefore(ins, {}) <==> ReadsFirst(ins, r)
  {
    if ins != [] {
      UsedIsReadsFirst(ins[1..], r);
      if r in Uses(ins[0]) {
        assert ins[..0] == [] && Killed(ins[..0]) == {};
      } else {
        if ReadsFirst(ins, r) {
          var k :| 0 <= k < |ins| && r in Uses(ins[k]) && r !in Killed(ins[..k]);
          assert ins[..k][1..] == ins[1..][..k - 1];
          assert r in Uses(ins[1..][k - 1]) && r !in Killed(ins[1..][..k - 1]);
        }
        if r in LiveBefore(ins, {}) {
          var k :| 0 <= k < |ins[1..]| && r in Uses(ins[1..][k]) && r !in Killed(ins[1..][..k]);
          assert ins[..k + 1][1..] == ins[1..][..k];
          assert r in Uses(ins[k + 1]) && r !in Killed(ins[..k + 1]);
        }
      }
    }
  }

  lemma {:induction false} LiveBeforeAppend(a: seq<Insn>, b: seq<Insn>, live: set<nat>)
    ensures LiveBefore(a + b, live) == LiveBefore(a, LiveBefore(b, live))
  {
    if a == [] {
      assert a + b == b;
    } else {
      assert (a + b)[0] == a[0] && (a + b)[1..] == a[1..] + b;
      LiveBeforeAppend(a[1..], b, live);
    }
  }

  lemma LiveBeforeOne(i: Insn, live: set<nat>)
    ensures LiveBefore([i], live) == (live - Sets(i)) + Uses(i) && LiveBefore([], live) == live
  {
    assert [i][1..] == [];
  }

  lemma {:induction false} LiveBeforeMono(ins: seq<Insn>, live: set<nat>, more: set<nat>)
    requires live <= more
    ensures LiveBefore(ins, live) <= LiveBefore(ins, more)
  {
    if ins != [] { LiveBeforeMono(ins[1..], live, more); }
  }

  // ----- the fixpoint -----

  function AtSuccs(b: Block, live: seq<set<nat>>): set<nat> {
    (if b.taken.Some? && b.taken.value < |live| then live[b.taken.value] else {})
    + (if b.fallthru.Some? && b.fallthru.value < |live| then live[b.fallthru.value] else {})
  }

  /** The sets solve the data-flow inequations. */
  ghost predicate Closed(p: seq<Block>, liveIn: seq<set<nat>>) {
    |liveIn| == |p|
    && forall b | 0 <= b < |p| :: LiveBefore(p[b].insns, AtSuccs(p[b], liveIn)) <= liveIn[b]
  }

  /** Every member of the sets is live. */
  ghost predicate Sound(p: seq<Block>, liveIn: seq<set<nat>>) {
    |liveIn| == |p|
    && forall b, r | 0 <= b < |p| && r in liveIn[b] :: LiveAt(p, b, r)
  }

  /** A solution contains everything live: follow the path. */
  lemma {:induction false} ClosedIsComplete(p: seq<Block>, liveIn: seq<set<nat>>, path: seq<nat>, r: nat)
    requires Closed(p, liveIn) && LivePath(p, path, r)
    ensures r in liveIn[path[0]]
    decreases |path|
  {
    var b := path[0];
    LiveBeforeSplit(p[b].insns, AtSuccs(p[b], liveIn));
    if |path| == 1 {
      UsedIsReadsFirst(p[b].insns, r);
    } else {
      ClosedIsComplete(p, liveIn, path[1..], r);
    }
  }

  /** A register live at a successor and not killed in b is live at b. */
  lemma Extend(p: seq<Block>, b: nat, c: nat, r: nat)
    requires b < |p| && c in Succs(p[b]) && r !in Killed(p[b].insns) && LiveAt(p, c, r)
    ensures LiveAt(p, b, r)
  {
    var path :| PathFrom(p, path, c, r);
    var longer := [b] + path;
    assert longer[1..] == path;
    assert PathFrom(p, longer, b, r);
  }

  /** The transfer function keeps soundness. */
  lemma TransferSound(p: seq<Block>, liveIn: seq<set<nat>>, b: nat, r: nat)
    requires Sound(p, liveIn) && b < |p| && r in LiveBefore(p[b].insns, AtSuccs(p[b], liveIn))
    ensures LiveAt(p, b, r)
  {
    LiveBeforeSplit(p[b].insns, AtSuccs(p[b], liveIn));
    if r in LiveBefore(p[b].insns, {}) {
      UsedIsReadsFirst(p[b].insns, r);
      assert PathFrom(p, [b], b, r);
    } else if p[b].taken.Some? && p[b].taken.value < |p| && r in liveIn[p[b].taken.value] {
      Extend(p, b, p[b].taken.value, r);
    } else {
      Extend(p, b, p[b].fallthru.value, r);
    }
  }

  // ----- termination -----

  function Below(n: nat): set<nat> {
    if n == 0 then {} else Below(n - 1) + {n - 1}
  }

  lemma {:induction false} InBelow(n: nat, r: nat)
    ensures r in Below(n) <==> r < n
    ensures |Below(n)| == n
  {
    if n > 0 {
      InBelow(n - 1, r);
      InBelow(n - 1, n - 1);
    }
  }

  /** How many registers the sets could still gain. */
  function Room(live: seq<set<nat>>, n: nat): int {
    if live == [] then 0 else n - |live[0]| + Room(live[1..], n)
  }

  ghost predicate Bounded(live: seq<set<nat>>, n: nat) {
    forall b | 0 <= b < |live| :: live[b] <= Below(n)
  }

  lemma SmallerCard(a: set<nat>, b: set<nat>)
    requires a <= b
    ensures |a| <= |b|
    ensures a != b ==> |a| < |b|
  {
    assert b == a + (b - a);
  }

  lemma {:induction false} RoomNonneg(live: seq<set<nat>>, n: nat)
    requires Bounded(live, n)
    ensures Room(live, n) >= 0
  {
    if live != [] {
      RoomNonneg(live[1..], n);
      SmallerCard(live[0], Below(n));
      InBelow(n, 0);
    }
  }

  lemma {:induction false} RoomFalls(live: seq<set<nat>>, n: nat, b: nat, more: set<nat>)
    requires b < |live| && live[b] < more
    ensures Room(live[b := more], n) < Room(live, n)
  {
    if b == 0 {
      assert live[b := more][1..] == live[1..];
      SmallerCard(live[0], more);
    } else {
      assert live[b := more][1..] == live[1..][b - 1 := more];
      RoomFalls(live[1..], n, b - 1, more);
    }
  }

  lemma {:induction false} LiveBeforeBounded(ins: seq<Insn>, live: set<nat>, n: nat)
    requires WfInsns(ins, n) && MAX_BPF_REG <= n && live <= Below(n)
    ensures LiveBefore(ins, live) <= Below(n)
  {
    if ins != [] {
      assert forall k | 0 <= k < |ins[1..]| :: ins[1..][k] == ins[k + 1];
      LiveBeforeBounded(ins[1..], live, n);
      forall r | r in Uses(ins[0]) ensures r in Below(n) { InBelow(n, r); }
    }
  }

  // ----- find_lifetimes -----

  /** What a block reads first is live at its start. */
  lemma StartSound(p: seq<Block>, nregs: nat, liveIn: seq<set<nat>>)
    requires WfBlocks(p, nregs) && |liveIn| == |p|
    requires forall b | 0 <= b < |p| :: liveIn[b] == LiveBefore(p[b].insns, {})
    ensures Sound(p, liveIn) && Bounded(liveIn, nregs)
  {
    forall b, r | 0 <= b < |p| && r in liveIn[b] ensures LiveAt(p, b, r) {
      UsedIsReadsFirst(p[b].insns, r);
      assert PathFrom(p, [b], b, r);
    }
    forall b | 0 <= b < |p| ensures liveIn[b] <= Below(nregs) {
      assert WfBlock(p[b], nregs, |p|);
      LiveBeforeBounded(p[b].insns, {}, nregs);
    }
  }

  /** A sound solution is exact. */
  lemma ClosedIsExact(p: seq<Block>, liveIn: seq<set<nat>>)
    requires Closed(p, liveIn) && Sound(p, liveIn)
    ensures forall b, r: nat | 0 <= b < |p| :: r in liveIn[b] <==> LiveAt(p, b, r)
  {
    forall b, r: nat | 0 <= b < |p| && LiveAt(p, b, r) ensures r in liveIn[b] {
      var path :| PathFrom(p, path, b, r);
      ClosedIsComplete(p, liveIn, path, r);
    }
  }

  class LifeData {
    var liveIn: seq<set<nat>>
    var liveOut: seq<set<nat>>
    var used: seq<set<nat>>
    var killed: seq<set<nat>>

    constructor (nblocks: nat)
      ensures liveIn == liveOut == used == killed == seq(nblocks, _ => {})
    {
      liveIn := seq(nblocks, _ => {});
      liveOut := seq(nblocks, _ => {});
      used := seq(nblocks, _ => {});
      killed := seq(nblocks, _ => {});
    }

    /** The local sets, one backward walk per block. */
    method Collect(p: seq<Block>)
      requires |liveIn| == |used| == |killed| == |p|
      requires forall b | 0 <= b < |p| :: used[b] == killed[b] == {}
      modifies `liveIn, `used, `killed
      ensures |liveIn| == |used| == |killed| == |p|
      ensures forall b | 0 <= b < |p| :: liveIn[b] == used[b] == LiveBefore(p[b].insns, {})
      ensures forall b | 0 <= b < |p| :: killed[b] == Killed(p[b].insns)
    {
      for i := 0 to |p|
        invariant |liveIn| == |used| == |killed| == |p|
        invariant forall b | 0 <= b < i :: liveIn[b] == used[b] == LiveBefore(p[b].insns, {})
        invariant forall b | 0 <= b < i :: killed[b] == Killed(p[b].insns)
        invariant forall b | i <= b < |p| :: used[b] == killed[b] == {}
      {
        var ins := p[i].insns;
        var j := |ins|;
        ghost var used0, killed0, liveIn0 := used, killed, liveIn;
        while j > 0
          invariant 0 <= j <= |ins| && |used| == |killed| == |p| && liveIn == liveIn0
          invariant used[i] == LiveBefore(ins[j..], {})
          invariant killed[i] == Killed(ins[j..])
          invariant forall b | 0 <= b < |p| && b != i :: used[b] == used0[b] && killed[b] == killed0[b]
        {
          j := j - 1;
          assert ins[j..][1..] == ins[j + 1..];
          killed := killed[i := killed[i] + Sets(ins[j])];
          used := used[i := used[i] - Sets(ins[j]) + Uses(ins[j])];
        }
        assert ins[0..] == ins;
        liveIn := liveIn[i := used[i]];
      }
    }

    /** The registers live before block i, given what is live at its successors. */
    method Transfer(p: seq<Block>, nregs: nat, i: nat) returns (tmp: set<nat>)
      requires WfBlocks(p, nregs) && |liveIn| == |liveOut| == |used| == |killed| == |p| && i < |p|
      requires used[i] == LiveBefore(p[i].insns, {}) && killed[i] == Killed(p[i].insns)
      requires Bounded(liveIn, nregs)
      modifies `liveOut
      ensures liveOut == old(liveOut)[i := AtSuccs(p[i], liveIn)]
      ensures tmp == LiveBefore(p[i].insns, AtSuccs(p[i], liveIn)) && tmp <= Below(nregs)
    {
      tmp := {};
      assert WfBlock(p[i], nregs, |p|);
      if p[i].taken.Some? {
        tmp := liveIn[p[i].taken.value];
        if p[i].fallthru.Some? {
          tmp := tmp + liveIn[p[i].fallthru.value];
        }
      } else if p[i].fallthru.Some? {
        tmp := liveIn[p[i].fallthru.value];
      }
      assert tmp == AtSuccs(p[i], liveIn);
      liveOut := liveOut[i := tmp];
      LiveBeforeBounded(p[i].insns, tmp, nregs);
      LiveBeforeSplit(p[i].insns, tmp);
      tmp := tmp - killed[i];
      tmp := tmp + used[i];
    }

    /** One sweep over the blocks, last to first. */
    method Sweep(p: seq<Block>, nregs: nat) returns (changed: bool)
      requires WfBlocks(p, nregs) && |liveOut| == |used| == |killed| == |p|
      requires forall b | 0 <= b < |p| :: used[b] == LiveBefore(p[b].insns, {}) && killed[b] == Killed(p[b].insns)
      requires Sound(p, liveIn) && Bounded(liveIn, nregs)
      modifies `liveIn, `liveOut
      ensures Sound(p, liveIn) && Bounded(liveIn, nregs) && |liveOut| == |p|
      ensures Room(liveIn, nregs) <= old(Room(liveIn, nregs))
      ensures changed ==> Room(liveIn, nregs) < old(Room(liveIn, nregs))
      ensures !changed ==> Closed(p, liveIn)
      ensures !changed ==> forall b | 0 <= b < |p| :: liveOut[b] == AtSuccs(p[b], liveIn)
    {
      changed := false;
      var i := |p|;
      while i > 0
        invariant 0 <= i <= |p| && |liveOut| == |p|
        invariant Sound(p, liveIn) && Bounded(liveIn, nregs)
        invariant Room(liveIn, nregs) <= old(Room(liveIn, nregs))
        invariant changed ==> Room(liveIn, nregs) < old(Room(liveIn, nregs))
        invariant !changed ==> forall b | i <= b < |p| :: liveOut[b] == AtSuccs(p[b], liveIn)
        invariant !changed ==> forall b | i <= b < |p| :: LiveBefore(p[b].insns, AtSuccs(p[b], liveIn)) <= liveIn[b]
      {
        i := i - 1;
        var tmp := Transfer(p, nregs, i);
        if !(tmp <= liveIn[i]) {
          changed := true;
          forall r | r in tmp ensures LiveAt(p, i, r) { TransferSound(p, liveIn, i, r); }
          RoomFalls(liveIn, nregs, i, liveIn[i] + tmp);
          liveIn := liveIn[i := liveIn[i] + tmp];
        }
      }
    }

    /** find_lifetimes: it ends, and r is in live_in[b] exactly when r is live
        at b; live_out is the union of live_in over the successors. */
    method FindLifetimes(p: seq<Block>, nregs: nat)
      requires WfBlocks(p, nregs) && |liveIn| == |liveOut| == |used| == |killed| == |p|
      requires forall b | 0 <= b < |p| :: used[b] == killed[b] == {}
      modifies this
      ensures |liveIn| == |liveOut| == |p| && Closed(p, liveIn) && Bounded(liveIn, nregs) && Bounded(liveOut, nregs)
      ensures forall b, r: nat | 0 <= b < |p| :: r in liveIn[b] <==> LiveAt(p, b, r)
      ensures forall b | 0 <= b < |p| :: liveOut[b] == AtSuccs(p[b], liveIn)
    {
      Collect(p);
      StartSound(p, nregs, liveIn);
      var changed := true;
      while changed
        invariant |liveOut| == |used| == |killed| == |p|
        invariant forall b | 0 <= b < |p| :: used[b] == LiveBefore(p[b].insns, {}) && killed[b] == Killed(p[b].insns)
        invariant Sound(p, liveIn) && Bounded(liveIn, nregs)
        invariant !changed ==> Closed(p, liveIn)
        invariant !changed ==> forall b | 0 <= b < |p| :: liveOut[b] == AtSuccs(p[b], liveIn)
        decreases Room(liveIn, nregs), changed
      {
        changed := Sweep(p, nregs);
        RoomNonneg(liveIn, nregs);
      }
      ClosedIsExact(p, liveIn);
    }
  }
}
