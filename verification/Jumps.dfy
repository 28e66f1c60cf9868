/** Jump threading and folding (thread_jumps, fold_jumps): chains of forwarder
    blocks, when following them ends, and the edges afterwards. */
module Jumps {
  import opened Ir

  // ----- forwarders and their chains -----

  /** block::is_forwarder: where a block that does nothing passes control. */
  function Forwards(b: Block): Option<nat> {
    if b.insns == [] then b.fallthru
    else if |b.insns| == 1 && b.insns[0].code.Ja? then b.taken
    else None
  }

  type Fwds = seq<Option<nat>>

  function ForwardsOf(p: seq<Block>): (f: Fwds)
    ensures |f| == |p| && forall i | 0 <= i < |p| :: f[i] == Forwards(p[i])
  {
    seq(|p|, i requires 0 <= i < |p| => Forwards(p[i]))
  }

  ghost predicate InBounds(f: Fwds) {
    forall i | 0 <= i < |f| :: f[i].Some? ==> f[i].value < |f|
  }

  /** k steps along the chain from i. */
  function Chain(f: Fwds, i: nat, k: nat): Option<nat>
    requires InBounds(f) && i < |f|
    ensures Chain(f, i, k).Some? ==> Chain(f, i, k).value < |f|
    decreases k
  {
    if k == 0 then Some(i) else if f[i].Some? then Chain(f, f[i].value, k - 1) else None
  }

  /** The chain from i never reaches a block that is no forwarder. */
  ghost predicate Endless(f: Fwds, i: nat)
    requires InBounds(f) && i < |f|
  {
    forall k: nat :: Chain(f, i, k).Some?
  }

  /** The only endless chains are those of blocks forwarding to themselves. */
  ghost predicate Threadable(f: Fwds)
    requires InBounds(f)
  {
    forall i: nat | i < |f| && Endless(f, i) :: f[i] == Some(i)
  }

  lemma {:induction false} ChainPrefix(f: Fwds, i: nat, a: nat, b: nat)
    requires InBounds(f) && i < |f| && a <= b && Chain(f, i, b).Some?
    ensures Chain(f, i, a).Some?
    decreases a
  {
    if a > 0 { ChainPrefix(f, f[i].value, a - 1, b - 1); }
  }

  lemma {:induction false} ChainAdd(f: Fwds, i: nat, a: nat, b: nat)
    requires InBounds(f) && i < |f| && Chain(f, i, a).Some?
    ensures Chain(f, i, a + b) == Chain(f, Chain(f, i, a).value, b)
    decreases a
  {
    if a > 0 { ChainAdd(f, f[i].value, a - 1, b); }
  }

  // ----- the propagation loop -----

  /** Position i has something to do. */
  predicate Fires(g: Fwds, i: nat)
    requires InBounds(g) && i < |g|
  {
    g[i].Some? && g[i].value != i && g[g[i].value].Some?
  }

  function Hop(g: Fwds, i: nat): (g': Fwds)
    requires InBounds(g) && i < |g|
    ensures InBounds(g') && |g'| == |g|
  {
    if Fires(g, i) then g[i := g[g[i].value]] else g
  }

  /** The positions from i on, one after the other, in place. */
  function RoundFrom(g: Fwds, i: nat): (g': Fwds)
    requires InBounds(g) && i <= |g|
    ensures InBounds(g') && |g'| == |g|
    decreases |g| - i
  {
    if i == |g| then g else RoundFrom(Hop(g, i), i + 1)
  }

  function Rounds(g: Fwds, n: nat): (g': Fwds)
    requires InBounds(g)
    ensures InBounds(g') && |g'| == |g|
    decreases n
  {
    if n == 0 then g else Rounds(RoundFrom(g, 0), n - 1)
  }

  ghost predicate Quiet(g: Fwds)
    requires InBounds(g)
  {
    forall i: nat | i < |g| :: !Fires(g, i)
  }

  ghost predicate QuietAfter(f: Fwds, n: nat)
    requires InBounds(f)
  {
    Quiet(Rounds(f, n))
  }

  // ----- it goes on for ever on an endless chain -----

  /** Blocks of endless chains forward to such blocks only. */
  ghost predicate KeepsEndless(f: Fwds, g: Fwds)
    requires InBounds(f) && InBounds(g) && |f| == |g|
  {
    forall i: nat {:trigger ToEndless(f, g, i)} | i < |f| && Endless(f, i) :: ToEndless(f, g, i)
  }

  ghost predicate ToEndless(f: Fwds, g: Fwds, i: nat)
    requires InBounds(f) && InBounds(g) && |f| == |g| && i < |f|
  {
    g[i].Some? && Endless(f, g[i].value)
  }

  ghost predicate Restless(f: Fwds, g: Fwds, i: nat)
    requires InBounds(f) && InBounds(g) && |f| == |g|
  {
    i < |f| && Endless(f, i) && g[i].Some? && g[i].value != i
  }

  lemma EndlessNext(f: Fwds, i: nat)
    requires InBounds(f) && i < |f| && Endless(f, i)
    ensures f[i].Some? && Endless(f, f[i].value)
  {
    assert Chain(f, i, 1).Some?;
    forall k: nat ensures Chain(f, f[i].value, k).Some? { assert Chain(f, i, k + 1).Some?; }
  }

  /** One position keeps the endless blocks restless: if i became its own
      target, the block it pointed to points to i from now on. */
  lemma AdvanceRestless(f: Fwds, g: Fwds, x: nat, i: nat) returns (j: nat)
    requires InBounds(f) && InBounds(g) && |f| == |g| && x < |g|
    requires KeepsEndless(f, g) && Restless(f, g, i)
    ensures KeepsEndless(f, Hop(g, x)) && Restless(f, Hop(g, x), j)
  {
    j := i;
    if x == i {
      var y := g[i].value;
      assert ToEndless(f, g, i) && ToEndless(f, g, y);
      if g[y].value == i { j := y; }
    }
    forall z: nat | z < |f| && Endless(f, z) ensures ToEndless(f, Hop(g, x), z) {
      assert ToEndless(f, g, z);
      assert ToEndless(f, g, g[z].value);
    }
  }

  lemma {:induction false} RoundRestless(f: Fwds, g: Fwds, x: nat, i: nat) returns (j: nat)
    requires InBounds(f) && InBounds(g) && |f| == |g| && x <= |g|
    requires KeepsEndless(f, g) && Restless(f, g, i)
    ensures KeepsEndless(f, RoundFrom(g, x)) && Restless(f, RoundFrom(g, x), j)
    decreases |g| - x
  {
    j := i;
    if x < |g| {
      var i' := AdvanceRestless(f, g, x, i);
      j := RoundRestless(f, Hop(g, x), x + 1, i');
    }
  }

  lemma {:induction false} RoundsRestless(f: Fwds, g: Fwds, n: nat, i: nat) returns (j: nat)
    requires InBounds(f) && InBounds(g) && |f| == |g| && KeepsEndless(f, g) && Restless(f, g, i)
    ensures KeepsEndless(f, Rounds(g, n)) && Restless(f, Rounds(g, n), j)
    decreases n
  {
    j := i;
    if n > 0 {
      var i' := RoundRestless(f, g, 0, i);
      j := RoundsRestless(f, RoundFrom(g, 0), n - 1, i');
    }
  }

  /** With an endless chain other than a self-loop, no round is ever the last. */
  lemma NeverQuiet(f: Fwds, i: nat, n: nat)
    requires InBounds(f) && i < |f| && Endless(f, i) && f[i] != Some(i)
    ensures !Quiet(Rounds(f, n))
  {
    forall x: nat | x < |f| && Endless(f, x) ensures ToEndless(f, f, x) { EndlessNext(f, x); }
    assert ToEndless(f, f, i);
    var j := RoundsRestless(f, f, n, i);
    assert ToEndless(f, Rounds(f, n), j);
    assert ToEndless(f, Rounds(f, n), Rounds(f, n)[j].value);
    assert Fires(Rounds(f, n), j);
  }

  // ----- and ends otherwise -----

  /** Ranks fall along every chain that is no self-loop, and no such chain runs
      into a self-loop. */
  ghost predicate Ranked(f: Fwds, rank: seq<nat>) {
    |rank| == |f|
    && forall i | 0 <= i < |f| && f[i].Some? && f[i].value != i ::
         f[i].value < |f| && rank[f[i].value] < rank[i] && f[f[i].value] != f[i]
  }

  ghost function Length(f: Fwds, i: nat): nat
    requires InBounds(f) && i < |f| && !Endless(f, i)
  {
    var k: nat :| Chain(f, i, k).None?;
    Shortest(f, i, k)
  }

  /** The least number of steps that ends the chain. */
  ghost function Shortest(f: Fwds, i: nat, k: nat): (l: nat)
    requires InBounds(f) && i < |f| && Chain(f, i, k).None?
    ensures l <= k && Chain(f, i, l).None? && forall x: nat | x < l :: Chain(f, i, x).Some?
    decreases k
  {
    if exists x: nat :: x < k && Chain(f, i, x).None? then
      var x: nat :| x < k && Chain(f, i, x).None?;
      Shortest(f, i, x)
    else k
  }

  lemma LengthFalls(f: Fwds, i: nat)
    requires InBounds(f) && i < |f| && !Endless(f, i) && f[i].Some?
    ensures !Endless(f, f[i].value) && Length(f, f[i].value) < Length(f, i)
  {
    var l := Length(f, i);
    assert Chain(f, i, l) == Chain(f, f[i].value, l - 1);
    assert Length(f, f[i].value) <= l - 1;
  }

  lemma RanksExist(f: Fwds) returns (rank: seq<nat>)
    requires InBounds(f) && Threadable(f)
    ensures Ranked(f, rank)
  {
    rank := seq(|f|, i requires 0 <= i < |f| => if Endless(f, i) then 0 else Length(f, i));
    forall i | 0 <= i < |f| && f[i].Some? && f[i].value != i
      ensures rank[f[i].value] < rank[i] && f[f[i].value] != f[i]
    {
      var j := f[i].value;
      LengthFalls(f, i);
      if f[j] == Some(j) {
        LengthFalls(f, j);
      }
    }
  }

  /** j lies on the chain from i, at least one step along. */
  ghost predicate OnChain(f: Fwds, i: nat, j: nat)
    requires InBounds(f) && i < |f|
  {
    exists k: nat :: k >= 1 && Chain(f, i, k) == Some(j)
  }

  /** What the loop keeps: every entry points along its own chain. */
  ghost predicate Along(f: Fwds, g: Fwds)
    requires InBounds(f)
  {
    InBounds(g) && |g| == |f| && forall i: nat {:trigger EntryAlong(f, g, i)} | i < |f| :: EntryAlong(f, g, i)
  }

  ghost predicate EntryAlong(f: Fwds, g: Fwds, i: nat)
    requires InBounds(f) && i < |f| == |g|
  {
    (f[i].Some? <==> g[i].Some?) && (g[i].Some? ==> OnChain(f, i, g[i].value))
  }

  lemma {:induction false} ChainRank(f: Fwds, rank: seq<nat>, i: nat, k: nat)
    requires InBounds(f) && Ranked(f, rank) && i < |f| && f[i] != Some(i) && Chain(f, i, k).Some?
    ensures var m := Chain(f, i, k).value; f[m] != Some(m) && (k >= 1 ==> rank[m] < rank[i])
    decreases k
  {
    if k > 0 { ChainRank(f, rank, f[i].value, k - 1); }
  }

  lemma {:induction false} SelfChain(f: Fwds, i: nat, k: nat)
    requires InBounds(f) && i < |f| && f[i] == Some(i)
    ensures Chain(f, i, k) == Some(i)
    decreases k
  {
    if k > 0 { SelfChain(f, i, k - 1); }
  }

  function Weight(g: Fwds, rank: seq<nat>, i: nat): nat
    requires i < |g| == |rank|
  {
    if g[i].Some? && g[i].value != i && g[i].value < |rank| then rank[g[i].value] else 0
  }

  function Total(g: Fwds, rank: seq<nat>, i: nat): nat
    requires i <= |g| == |rank|
  {
    if i == 0 then 0 else Total(g, rank, i - 1) + Weight(g, rank, i - 1)
  }

  lemma {:induction false} TotalUpdate(g: Fwds, rank: seq<nat>, x: nat, v: Option<nat>, i: nat)
    requires i <= |g| == |rank| && x < |g|
    ensures Total(g[x := v], rank, i) ==
            Total(g, rank, i) + (if x < i then Weight(g[x := v], rank, x) - Weight(g, rank, x) else 0)
  {
    if i > 0 { TotalUpdate(g, rank, x, v, i - 1); }
  }

  lemma AdvanceFalls(f: Fwds, rank: seq<nat>, g: Fwds, x: nat)
    requires InBounds(f) && Ranked(f, rank) && Along(f, g) && x < |f|
    ensures Along(f, Hop(g, x))
    ensures Fires(g, x) ==> Total(Hop(g, x), rank, |f|) < Total(g, rank, |f|)
  {
    if Fires(g, x) {
      assert EntryAlong(f, g, x);
      var j := g[x].value;
      assert EntryAlong(f, g, j);
      var m := g[j].value;
      var a: nat :| a >= 1 && Chain(f, x, a) == Some(j);
      var b: nat :| b >= 1 && Chain(f, j, b) == Some(m);
      if f[x] == Some(x) { SelfChain(f, x, a); }
      ChainRank(f, rank, x, a);
      ChainRank(f, rank, j, b);
      ChainAdd(f, x, a, b);
      assert Chain(f, x, a + b) == Some(m);
      TotalUpdate(g, rank, x, g[j], |f|);
      forall i: nat | i < |f| ensures EntryAlong(f, Hop(g, x), i) { assert EntryAlong(f, g, i); }
    }
  }

  lemma {:induction false} RoundAlong(f: Fwds, rank: seq<nat>, g: Fwds, x: nat)
    requires InBounds(f) && Ranked(f, rank) && Along(f, g) && x <= |f|
    ensures Along(f, RoundFrom(g, x)) && Total(RoundFrom(g, x), rank, |f|) <= Total(g, rank, |f|)
    decreases |f| - x
  {
    if x < |f| {
      AdvanceFalls(f, rank, g, x);
      RoundAlong(f, rank, Hop(g, x), x + 1);
    }
  }

  /** A position that fires still fires when its turn comes. */
  lemma {:induction false} RoundFalls(f: Fwds, rank: seq<nat>, g: Fwds, x: nat, i: nat)
    requires InBounds(f) && Ranked(f, rank) && Along(f, g) && x <= i < |f| && Fires(g, i)
    ensures Total(RoundFrom(g, x), rank, |f|) < Total(g, rank, |f|)
    decreases |f| - x
  {
    AdvanceFalls(f, rank, g, x);
    if x == i {
      RoundAlong(f, rank, Hop(g, x), x + 1);
    } else {
      RoundFalls(f, rank, Hop(g, x), x + 1, i);
    }
  }

  lemma StartsAlong(f: Fwds)
    requires InBounds(f)
    ensures Along(f, f)
  {
    forall i: nat | i < |f| ensures EntryAlong(f, f, i) {
      if f[i].Some? { assert Chain(f, i, 1) == Chain(f, f[i].value, 0); }
    }
  }

  lemma {:induction false} QuietInTime(f: Fwds, rank: seq<nat>, g: Fwds) returns (n: nat)
    requires InBounds(f) && Ranked(f, rank) && Along(f, g)
    ensures Quiet(Rounds(g, n))
    decreases Total(g, rank, |f|)
  {
    n := 0;
    if !Quiet(g) {
      var i: nat :| i < |g| && Fires(g, i);
      RoundAlong(f, rank, g, 0);
      RoundFalls(f, rank, g, 0, i);
      var n' := QuietInTime(f, rank, RoundFrom(g, 0));
      n := n' + 1;
    }
  }

  /** The propagation loop of thread_jumps ends exactly when no forwarder chain
      is endless except that of a block forwarding to itself. */
  lemma PropagationEnds(f: Fwds)
    requires InBounds(f)
    ensures (exists n: nat :: QuietAfter(f, n)) <==> Threadable(f)
  {
    if Threadable(f) {
      var rank := RanksExist(f);
      StartsAlong(f);
      var n := QuietInTime(f, rank, f);
      assert QuietAfter(f, n);
    } else {
      var i: nat :| i < |f| && Endless(f, i) && f[i] != Some(i);
      forall n: nat ensures !QuietAfter(f, n) { NeverQuiet(f, i, n); }
    }
  }

  /** The loop has found the block at the end of every chain. */
  ghost predicate Settled(f: Fwds, g: Fwds)
    requires InBounds(f)
  {
    Along(f, g)
    && forall i: nat | i < |f| && g[i].Some? && f[i] != Some(i) :: f[g[i].value].None?
  }

  lemma QuietSettles(f: Fwds, rank: seq<nat>, g: Fwds)
    requires InBounds(f) && Ranked(f, rank) && Along(f, g) && Quiet(g)
    ensures Settled(f, g)
  {
    forall i: nat | i < |f| && g[i].Some? && f[i] != Some(i) ensures f[g[i].value].None? {
      assert EntryAlong(f, g, i);
      var k: nat :| k >= 1 && Chain(f, i, k) == Some(g[i].value);
      ChainRank(f, rank, i, k);
      assert !Fires(g, i);
      assert EntryAlong(f, g, g[i].value);
    }
  }

  method PropagateRound(g: Fwds) returns (g': Fwds, changed: bool)
    requires InBounds(g)
    ensures g' == RoundFrom(g, 0) && (changed <==> !Quiet(g))
  {
    g', changed := g, false;
    for i := 0 to |g|
      invariant |g'| == |g| && InBounds(g') && RoundFrom(g', i) == RoundFrom(g, 0)
      invariant changed ==> !Quiet(g)
      invariant !changed ==> g' == g && forall x: nat | x < i :: !Fires(g, x)
    {
      if g'[i].Some? {
        var j := g'[i].value;
        if g'[j].Some? && i != j {
          assert Fires(g', i);
          g' := g'[i := g'[j]];
          changed := true;
        }
      }
    }
  }

  method Propagate(f: Fwds) returns (g: Fwds)
    requires InBounds(f) && Threadable(f)
    ensures Settled(f, g)
  {
    ghost var rank := RanksExist(f);
    StartsAlong(f);
    g := f;
    var changed := true;
    while changed
      invariant Along(f, g) && (!changed ==> Quiet(g))
      decreases Total(g, rank, |f|), changed
    {
      RoundAlong(f, rank, g, 0);
      if !Quiet(g) {
        ghost var i: nat :| i < |g| && Fires(g, i);
        RoundFalls(f, rank, g, 0, i);
      }
      ghost var g0 := g;
      g, changed := PropagateRound(g);
      if !changed { QuietStays(g0, 0); }
    }
    QuietSettles(f, rank, g);
  }

  lemma {:induction false} QuietStays(g: Fwds, x: nat)
    requires InBounds(g) && x <= |g| && Quiet(g)
    ensures RoundFrom(g, x) == g
    decreases |g| - x
  {
    if x < |g| { QuietStays(g, x + 1); }
  }
}
