/** Laying out the blocks (reorder_blocks): the depth-first placement, the
    inversion of conditions, the jump blocks it inserts, and the renumbering. */
module Reorder {
  import opened Ir

  /** The state of the placement loop. */
  datatype Layout = Layout(blocks: seq<Block>, visited: seq<bool>, ordered: seq<nat>, worklist: seq<nat>)

  const JUMP: Insn := Insn(Ja, 0, None, None, None)

  /** A new block that only jumps. */
  function JumpBlock(t: nat): Block {
    Block([JUMP], Some(t), None)
  }

  predicate Invertible(b: Block) {
    EndsInCond(b) && (b.insns[|b.insns| - 1].code.c == JEQ || b.insns[|b.insns| - 1].code.c == JNE)
    && b.taken.Some? && b.fallthru.Some?
  }

  /** JEQ for JNE and back, with the edges exchanged. */
  function Invert(b: Block): Block
    requires Invertible(b)
  {
    var k := |b.insns| - 1;
    var code := b.insns[k].code;
    Block(b.insns[k := b.insns[k].(code := code.(c := if code.c == JEQ then JNE else JEQ))], b.fallthru, b.taken)
  }

  /** An IF-THEN triangle, or a fall-through already placed. */
  predicate WantsInversion(blocks: seq<Block>, visited: seq<bool>, b: Block) {
    b.taken.Some? && b.fallthru.Some? && b.taken.value < |blocks| && b.taken.value < |visited|
    && b.fallthru.value < |visited|
    && (blocks[b.taken.value].fallthru == b.fallthru || (visited[b.fallthru.value] && !visited[b.taken.value]))
    && Invertible(b)
  }

  function Based(blocks: seq<Block>, visited: seq<bool>, b: Block): Block {
    if WantsInversion(blocks, visited, b) then Invert(b) else b
  }

  predicate Sizes(p: seq<Block>, l: Layout) {
    |l.visited| == |p| <= |l.blocks|
    && (forall k | 0 <= k < |l.ordered| :: l.ordered[k] < |l.blocks|)
    && (forall k | 0 <= k < |l.worklist| :: l.worklist[k] < |p|)
    && forall b | 0 <= b < |p| && !l.visited[b] :: l.blocks[b] == p[b]
  }

  function PushTaken(w: seq<nat>, visited: seq<bool>, b: Block): seq<nat> {
    if b.taken.Some? && b.taken.value < |visited| && !visited[b.taken.value] then w + [b.taken.value] else w
  }

  /** The extra jump when the fall-through has been placed before. */
  function AppendJump(b: Block): Block
    requires b.fallthru.Some?
  {
    Block(b.insns + [JUMP], b.fallthru, None)
  }

  /** What happens to the fall-through edge: there is none, it becomes a jump,
      a jump block is put in between, or its target comes next. */
  datatype Outcome = Ends | Appends | Inserts | Pushes

  function OutcomeOf(visited: seq<bool>, base: Block): Outcome {
    if base.fallthru.None? then Ends
    else if base.fallthru.value < |visited|
      && visited[base.fallthru.value] then (if base.taken.Some? then Inserts else Appends)
    else Pushes
  }

  /** Place a block, given the form it will have. */
  function PlaceAs(l: Layout, b: nat, base: Block): Layout
    requires b < |l.visited| <= |l.blocks|
  {
    var visited, ordered := l.visited[b := true], l.ordered + [b];
    var w := PushTaken(l.worklist, visited, base);
    match OutcomeOf(visited, base)
    case Ends => Layout(l.blocks[b := base], visited, ordered, w)
    case Appends => Layout(l.blocks[b := AppendJump(base)], visited, ordered, w)
    case Inserts =>
      var n := |l.blocks|;
      Layout(l.blocks[b := base.(fallthru := Some(n))] + [JumpBlock(base.fallthru.value)], visited, ordered + [n], w)
    case Pushes => Layout(l.blocks[b := base], visited, ordered, w + [base.fallthru.value])
  }

  function Place(l: Layout, b: nat): Layout
    requires b < |l.visited| <= |l.blocks|
  {
    PlaceAs(l, b, Based(l.blocks, l.visited[b := true], l.blocks[b]))
  }

  /** One turn of the loop. */
  function Visit(p: seq<Block>, l: Layout): Layout
    requires Sizes(p, l) && l.worklist != []
  {
    var b, w := l.worklist[|l.worklist| - 1], l.worklist[..|l.worklist| - 1];
    if l.visited[b] then l.(worklist := w) else Place(l.(worklist := w), b)
  }

  // ----- what a placed block has become -----

  /** The block itself, inverted or not, with its fall-through edge kept, led
      through a jump block, or turned into a jump. */
  ghost predicate Became(orig: Block, cur: Block, blocks: seq<Block>, n0: nat) {
    FromBase(orig, cur, blocks, n0) || (Invertible(orig) && FromBase(Invert(orig), cur, blocks, n0))
  }

  ghost predicate FromBase(base: Block, cur: Block, blocks: seq<Block>, n0: nat) {
    cur == base
    || (base.taken.Some? && base.fallthru.Some? && cur.fallthru.Some? && n0 <= cur.fallthru.value < |blocks|
        && cur == base.(fallthru := cur.fallthru) && blocks[cur.fallthru.value] == JumpBlock(base.fallthru.value))
    || (base.taken.None? && base.fallthru.Some? && cur == AppendJump(base))
  }

  ghost predicate AllBecame(p: seq<Block>, l: Layout)
    requires Sizes(p, l)
  {
    forall b | 0 <= b < |p| && l.visited[b] :: Became(p[b], l.blocks[b], l.blocks, |p|)
  }

  /** Placed blocks are listed once each, and so are the inserted jumps. */
  ghost predicate Listed(p: seq<Block>, l: Layout)
    requires Sizes(p, l)
  {
    (forall b: nat | b < |p| :: l.visited[b] <==> b in l.ordered)
    && (forall b: nat | |p| <= b < |l.blocks| :: b in l.ordered)
    && (forall i, j | 0 <= i < j < |l.ordered| :: l.ordered[i] != l.ordered[j])
  }

  /** Some block of p has an edge to t. */
  ghost predicate Targeted(p: seq<Block>, t: nat) {
    exists c: nat :: c < |p| && t in Succs(p[c])
  }

  /** The inserted blocks jump to placed ones, along an edge of p. */
  ghost predicate JumpsPlaced(p: seq<Block>, l: Layout)
    requires Sizes(p, l)
  {
    forall b | |p| <= b < |l.blocks| :: IsJumpTo(p, l.visited, l.blocks[b])
  }

  ghost predicate IsJumpTo(p: seq<Block>, visited: seq<bool>, b: Block)
    requires |visited| == |p|
  {
    b.taken.Some? && b.taken.value < |p| && visited[b.taken.value] && b == JumpBlock(b.taken.value)
    && Targeted(p, b.taken.value)
  }

  /** Successors of placed blocks are placed or waiting. */
  ghost predicate Waiting(p: seq<Block>, l: Layout)
    requires Sizes(p, l)
  {
    forall b: nat, t: nat | b < |p| && l.visited[b] && t in Succs(p[b]) :: Handled(p, l, t)
  }

  ghost predicate Handled(p: seq<Block>, l: Layout, t: nat)
    requires Sizes(p, l)
  {
    t < |p| && (l.visited[t] || t in l.worklist)
  }

  /** Every fall-through successor stands next, or is about to. */
  ghost predicate Adjacent(p: seq<Block>, l: Layout)
    requires Sizes(p, l)
  {
    forall k: nat | k < |l.ordered| :: AdjacentAt(p, l, k)
  }

  ghost predicate AdjacentAt(p: seq<Block>, l: Layout, k: nat)
    requires Sizes(p, l) && k < |l.ordered|
  {
    var f := l.blocks[l.ordered[k]].fallthru;
    f.Some? ==>
      if k + 1 < |l.ordered| then l.ordered[k + 1] == f.value
      else l.worklist != [] && l.worklist[|l.worklist| - 1] == f.value && !l.visited[l.worklist[|l.worklist| - 1]]
  }

  lemma BasedBecame(orig: Block, blocks: seq<Block>, visited: seq<bool>, cur: Block, blocks': seq<Block>, n0: nat)
    requires FromBase(Based(blocks, visited, orig), cur, blocks', n0)
    ensures Became(orig, cur, blocks', n0)
  {
  }

  lemma BecameGrows(orig: Block, cur: Block, blocks: seq<Block>, blocks': seq<Block>, n0: nat)
    requires Became(orig, cur, blocks, n0) && |blocks| <= |blocks'|
    requires forall k | n0 <= k < |blocks| :: blocks'[k] == blocks[k]
    ensures Became(orig, cur, blocks', n0)
  {
  }

  /** The base form has the edges of the block. */
  lemma BasedEdges(blocks: seq<Block>, visited: seq<bool>, b: Block, n: nat)
    requires (b.taken.Some? ==> b.taken.value < n) && (b.fallthru.Some? ==> b.fallthru.value < n)
    ensures var base := Based(blocks, visited, b);
      Succs(base) == Succs(b) && (base.taken.Some? ==> base.taken.value < n)
      && (base.fallthru.Some? ==> base.fallthru.value < n)
  {
  }

  ghost predicate EdgesBelow(b: Block, n: nat) {
    (b.taken.Some? ==> b.taken.value < n) && (b.fallthru.Some? ==> b.fallthru.value < n)
  }

  lemma PlaceSizes(p: seq<Block>, l: Layout, b: nat, base: Block)
    requires Sizes(p, l) && b < |p| && !l.visited[b] && EdgesBelow(base, |p|)
    ensures Sizes(p, PlaceAs(l, b, base))
  {
  }

  lemma PlaceBecame(p: seq<Block>, l: Layout, b: nat)
    requires Sizes(p, l) && b < |p| && !l.visited[b] && AllBecame(p, l) && Sizes(p, Place(l, b))
    ensures AllBecame(p, Place(l, b))
  {
    var l' := Place(l, b);
    BasedBecame(p[b], l.blocks, l.visited[b := true], l'.blocks[b], l'.blocks, |p|);
    forall c | 0 <= c < |p| && l'.visited[c] ensures Became(p[c], l'.blocks[c], l'.blocks, |p|) {
      if c != b { BecameGrows(p[c], l.blocks[c], l.blocks, l'.blocks, |p|); }
    }
  }

  lemma PlaceListed(p: seq<Block>, l: Layout, b: nat, base: Block)
    requires Sizes(p, l) && b < |p| && !l.visited[b] && Listed(p, l) && Sizes(p, PlaceAs(l, b, base))
    ensures Listed(p, PlaceAs(l, b, base))
  {
    var l' := PlaceAs(l, b, base);
    assert b !in l.ordered && |l.blocks| !in l.ordered;
    if OutcomeOf(l'.visited, base) == Inserts {
      assert l'.ordered == l.ordered + [b] + [|l.blocks|];
    } else {
      assert l'.ordered == l.ordered + [b];
    }
  }

  lemma PlaceJumps(p: seq<Block>, l: Layout, b: nat, base: Block)
    requires Sizes(p, l) && b < |p| && !l.visited[b] && JumpsPlaced(p, l) && Sizes(p, PlaceAs(l, b, base))
    requires Succs(base) == Succs(p[b])
    ensures JumpsPlaced(p, PlaceAs(l, b, base))
  {
    if base.fallthru.Some? {
      assert base.fallthru.value in Succs(p[b]);
      assert Targeted(p, base.fallthru.value);
    }
  }

  lemma PlaceWaiting(p: seq<Block>, l: Layout, b: nat, base: Block, l0: Layout)
    requires Sizes(p, l) && b < |p| && !l.visited[b] && Sizes(p, PlaceAs(l, b, base)) && EdgesBelow(base, |p|)
    requires Succs(base) == Succs(p[b])
    requires l0 == l.(worklist := l.worklist + [b]) && Waiting(p, l0)
    ensures Waiting(p, PlaceAs(l, b, base))
  {
    var l' := PlaceAs(l, b, base);
    forall c: nat, t: nat | c < |p| && l'.visited[c] && t in Succs(p[c])
      ensures Handled(p, l', t)
    {
      if c != b {
        assert Handled(p, l0, t);
        assert t in l0.worklist ==> t == b || t in l.worklist;
      }
    }
  }

  lemma PlaceAdjacent(p: seq<Block>, l: Layout, b: nat, base: Block, l0: Layout)
    requires Sizes(p, l) && b < |p| && !l.visited[b] && Listed(p, l) && Sizes(p, PlaceAs(l, b, base))
    requires EdgesBelow(base, |p|)
    requires l0 == l.(worklist := l.worklist + [b]) && Sizes(p, l0) && Adjacent(p, l0)
    ensures Adjacent(p, PlaceAs(l, b, base))
  {
    var l', n := PlaceAs(l, b, base), |l.ordered|;
    forall k: nat | k < |l'.ordered| ensures AdjacentAt(p, l', k) {
      if k < n {
        assert AdjacentAt(p, l0, k);
        assert l'.ordered[k] == l.ordered[k] && l.ordered[k] != b;
        assert l'.blocks[l.ordered[k]] == l.blocks[l.ordered[k]];
        assert l'.ordered[n] == b;
        assert k + 1 < n ==> l'.ordered[k + 1] == l.ordered[k + 1];
      } else if k == n {
        assert l'.ordered[k] == b;
      } else {
        assert l'.blocks[l'.ordered[k]] == JumpBlock(base.fallthru.value);
      }
    }
  }

  // ----- reachability -----

  ghost predicate PathTo(p: seq<Block>, path: seq<nat>, b: nat) {
    path != [] && path[0] == 0 && path[|path| - 1] == b
    && (forall k | 0 <= k < |path| :: path[k] < |p|)
    && forall k | 0 <= k < |path| - 1 :: path[k + 1] in Succs(p[path[k]])
  }

  ghost predicate Reachable(p: seq<Block>, b: nat) {
    exists path :: PathTo(p, path, b)
  }

  lemma ReachFurther(p: seq<Block>, b: nat, t: nat)
    requires Reachable(p, b) && t in Succs(p[b]) && t < |p| && b < |p|
    ensures Reachable(p, t)
  {
    var path :| PathTo(p, path, b);
    assert PathTo(p, path + [t], t);
  }

  ghost predicate FromEntry(p: seq<Block>, l: Layout)
    requires Sizes(p, l)
  {
    (forall b: nat | b < |p| && l.visited[b] :: Reachable(p, b))
    && (forall k | 0 <= k < |l.worklist| :: Reachable(p, l.worklist[k]))
    && if l.ordered == [] then l.worklist == [0] && |l.blocks| == |p| else l.ordered[0] == 0
  }

  lemma PlaceFromEntry(p: seq<Block>, l: Layout, b: nat, base: Block, l0: Layout)
    requires Sizes(p, l) && b < |p| && !l.visited[b] && Sizes(p, PlaceAs(l, b, base)) && EdgesBelow(base, |p|)
    requires Succs(base) == Succs(p[b])
    requires l0 == l.(worklist := l.worklist + [b]) && Sizes(p, l0) && FromEntry(p, l0)
    ensures FromEntry(p, PlaceAs(l, b, base))
  {
    var l' := PlaceAs(l, b, base);
    assert l0.worklist[|l.worklist|] == b;
    if base.taken.Some? { ReachFurther(p, b, base.taken.value); }
    if base.fallthru.Some? { ReachFurther(p, b, base.fallthru.value); }
    forall k | 0 <= k < |l'.worklist| ensures Reachable(p, l'.worklist[k]) {
      if k < |l.worklist| { assert l'.worklist[k] == l0.worklist[k]; }
    }
  }

  // ----- the loop invariant -----

  ghost predicate LoopInv(p: seq<Block>, l: Layout) {
    Sizes(p, l) && AllBecame(p, l) && Listed(p, l) && JumpsPlaced(p, l) && Waiting(p, l) && Adjacent(p, l)
    && FromEntry(p, l)
  }

  lemma StartInv(p: seq<Block>)
    requires p != []
    ensures LoopInv(p, Layout(p, seq(|p|, _ => false), [], [0]))
  {
    assert PathTo(p, [0], 0);
  }

  lemma SkipKeeps(p: seq<Block>, l: Layout)
    requires LoopInv(p, l) && l.worklist != [] && l.visited[l.worklist[|l.worklist| - 1]]
    ensures LoopInv(p, l.(worklist := l.worklist[..|l.worklist| - 1]))
  {
    var n := |l.worklist| - 1;
    var l' := l.(worklist := l.worklist[..n]);
    assert l.worklist == l'.worklist + [l.worklist[n]];
    forall c: nat, t: nat | c < |p| && l'.visited[c] && t in Succs(p[c]) ensures Handled(p, l', t) {
      assert Handled(p, l, t);
    }
    forall k: nat | k < |l'.ordered| ensures AdjacentAt(p, l', k) {
      assert AdjacentAt(p, l, k);
    }
  }

  lemma PlaceKeeps(p: seq<Block>, nregs: nat, l: Layout)
    requires WfBlocks(p, nregs) && LoopInv(p, l) && l.worklist != [] && !l.visited[l.worklist[|l.worklist| - 1]]
    ensures LoopInv(p, Visit(p, l))
  {
    var n := |l.worklist| - 1;
    var b, l1 := l.worklist[n], l.(worklist := l.worklist[..n]);
    var base := Based(l1.blocks, l1.visited[b := true], l1.blocks[b]);
    assert WfBlock(p[b], nregs, |p|);
    BasedEdges(l1.blocks, l1.visited[b := true], p[b], |p|);
    assert l.worklist == l1.worklist + [b] && l == l1.(worklist := l1.worklist + [b]);
    PlaceSizes(p, l1, b, base);
    PlaceBecame(p, l1, b);
    PlaceListed(p, l1, b, base);
    PlaceJumps(p, l1, b, base);
    PlaceWaiting(p, l1, b, base, l);
    PlaceAdjacent(p, l1, b, base, l);
    PlaceFromEntry(p, l1, b, base, l);
  }

  // ----- the result -----

  function Renumber(ordered: seq<nat>, b: Block): Block {
    b.(taken := if b.taken.Some? then Some(IndexOf(ordered, b.taken.value)) else None,
       fallthru := if b.fallthru.Some? then Some(IndexOf(ordered, b.fallthru.value)) else None)
  }

  function Renumbered(l: Layout): (q: seq<Block>)
    requires forall k | 0 <= k < |l.ordered| :: l.ordered[k] < |l.blocks|
    ensures |q| == |l.ordered| && forall k | 0 <= k < |q| :: q[k] == Renumber(l.ordered, l.blocks[l.ordered[k]])
  {
    seq(|l.ordered|, k requires 0 <= k < |l.ordered| => Renumber(l.ordered, l.blocks[l.ordered[k]]))
  }

  /** Fall-through means adjacency. */
  ghost predicate LaidOut(q: seq<Block>) {
    forall k | 0 <= k < |q| && q[k].fallthru.Some? :: q[k].fallthru.value == k + 1 && k + 1 < |q|
  }

  lemma IndexIs(ordered: seq<nat>, k: nat)
    requires k < |ordered| && forall i, j | 0 <= i < j < |ordered| :: ordered[i] != ordered[j]
    ensures IndexOf(ordered, ordered[k]) == k
  {
  }

  lemma ResultLaidOut(p: seq<Block>, l: Layout)
    requires LoopInv(p, l) && l.worklist == []
    ensures LaidOut(Renumbered(l))
  {
    var q := Renumbered(l);
    forall k: nat | k < |q| && q[k].fallthru.Some? ensures q[k].fallthru.value == k + 1 && k + 1 < |q| {
      assert AdjacentAt(p, l, k);
      IndexIs(l.ordered, k + 1);
    }
  }

  /** Exactly the reachable blocks are placed, the entry first. */
  lemma PlacesReachable(p: seq<Block>, l: Layout, b: nat)
    requires LoopInv(p, l) && l.worklist == [] && b < |p|
    ensures b in l.ordered <==> Reachable(p, b)
    ensures l.ordered != [] && l.ordered[0] == 0
  {
    if Reachable(p, b) {
      var path :| PathTo(p, path, b);
      FollowPath(p, l, path, |path| - 1);
    }
  }

  /** Each position is a block of its own: a reachable block of the program, or
      an inserted jump to one. */
  lemma PlacedOnce(p: seq<Block>, l: Layout, k: nat)
    requires LoopInv(p, l) && l.worklist == [] && k < |l.ordered|
    ensures forall i | 0 <= i < |l.ordered| && i != k :: l.ordered[i] != l.ordered[k]
    ensures var b := l.ordered[k];
      if b < |p| then Reachable(p, b)
      else exists t: nat :: t < |p| && l.blocks[b] == JumpBlock(t) && t in l.ordered && Reachable(p, t)
  {
    var b := l.ordered[k];
    if b < |p| {
      PlacesReachable(p, l, b);
    } else {
      assert IsJumpTo(p, l.visited, l.blocks[b]);
      var t := l.blocks[b].taken.value;
      PlacesReachable(p, l, t);
      assert t < |p| && l.blocks[b] == JumpBlock(t) && t in l.ordered && Reachable(p, t);
    }
  }

  lemma {:induction false} FollowPath(p: seq<Block>, l: Layout, path: seq<nat>, k: nat)
    requires LoopInv(p, l) && l.worklist == [] && k < |path| && PathTo(p, path, path[|path| - 1])
    ensures l.visited[path[k]]
  {
    if k == 0 {
      assert l.ordered[0] == 0;
    } else {
      FollowPath(p, l, path, k - 1);
      assert Handled(p, l, path[k - 1 + 1]);
    }
  }
}
