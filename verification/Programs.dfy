/** The program being compiled: its blocks, its register counter and the sizes
    of its stack areas, all updated in place by the passes. */
module Programs {
  import opened Ir

  class Program {
    var blocks: seq<Block>
    var prevs: seq<set<Edge>> // incoming edges of every block
    var nregs: nat            // max_reg(): hard registers and temporaries
    var maxTmpSpace: nat      // bytes below the frame pointer used for temporaries
    var maxRegSpace: nat      // lowest offset used for spills
    const stackLimit: nat     // MAX_BPF_STACK of the target

    constructor (stackLimit: nat)
      ensures blocks == [] && prevs == [] && nregs == MAX_BPF_REG && maxTmpSpace == maxRegSpace == 0
      ensures this.stackLimit == stackLimit
    {
      blocks, prevs, nregs := [], [], MAX_BPF_REG;
      maxTmpSpace, maxRegSpace := 0, 0;
      this.stackLimit := stackLimit;
    }

    /** new_reg: a temporary no instruction mentions yet. */
    method NewReg() returns (r: nat)
      modifies `nregs
      ensures r == old(nregs) && nregs == old(nregs) + 1
    {
      r := nregs;
      nregs := nregs + 1;
    }

    /** use_tmp_space: at least this much below the frame pointer. */
    method UseTmpSpace(bytes: nat)
      modifies `maxTmpSpace
      ensures maxTmpSpace == if old(maxTmpSpace) < bytes then bytes else old(maxTmpSpace)
    {
      if maxTmpSpace < bytes { maxTmpSpace := bytes; }
    }

    /** new_block: an empty block no edge leads to. */
    method NewBlock() returns (b: nat)
      requires |prevs| == |blocks|
      modifies `blocks, `prevs
      ensures b == old(|blocks|) && blocks == old(blocks) + [Block([], None, None)] && |prevs| == |blocks|
      ensures old(BackLinked(blocks, prevs) && EdgesInside(blocks)) ==> BackLinked(blocks, prevs) && EdgesInside(blocks)
    {
      b := |blocks|;
      blocks, prevs := blocks + [Block([], None, None)], prevs + [{}];
      if old(BackLinked(blocks, prevs) && EdgesInside(blocks)) { NewBlockKeeps(old(blocks), old(prevs)); }
    }

    /** edge::edge, in an empty slot. */
    method NewEdge(e: Edge, n: nat)
      requires e.prev < |blocks| == |prevs| && NextOf(blocks, e).None? && n < |prevs|
      modifies `blocks, `prevs
      ensures blocks == SetNext(old(blocks), e, Some(n)) && |prevs| == old(|prevs|)
      ensures old(BackLinked(blocks, prevs) && EdgesInside(blocks)) ==> BackLinked(blocks, prevs) && EdgesInside(blocks)
    {
      blocks := SetNext(blocks, e, Some(n));
      prevs := prevs[n := prevs[n] + {e}];
      if old(BackLinked(blocks, prevs) && EdgesInside(blocks)) {
        FreshEdge(old(blocks), old(prevs), e);
        RelinkKeeps(old(blocks), old(prevs), e, Some(n), prevs);
      }
    }

    /** edge::redirect_next, with the back-links of both targets. */
    method RedirectNext(e: Edge, n: nat)
      requires NextOf(blocks, e).Some? && NextOf(blocks, e).value < |prevs| && n < |prevs|
      modifies `blocks, `prevs
      ensures blocks == SetNext(old(blocks), e, Some(n)) && |prevs| == old(|prevs|)
      ensures old(BackLinked(blocks, prevs)) ==> BackLinked(blocks, prevs)
    {
      var was := NextOf(blocks, e).value;
      prevs := prevs[was := prevs[was] - {e}];
      blocks := SetNext(blocks, e, Some(n));
      prevs := prevs[n := prevs[n] + {e}];
      if old(BackLinked(blocks, prevs)) {
        RedirectedPrevs(old(blocks), old(prevs), e, was, n);
        RelinkKeeps(old(blocks), old(prevs), e, Some(n), prevs);
      }
    }

    /** edge::~edge. */
    method DeleteEdge(e: Edge)
      requires NextOf(blocks, e).Some? && NextOf(blocks, e).value < |prevs|
      modifies `blocks, `prevs
      ensures blocks == SetNext(old(blocks), e, None) && |prevs| == old(|prevs|)
      ensures old(BackLinked(blocks, prevs)) ==> BackLinked(blocks, prevs)
    {
      var was := NextOf(blocks, e).value;
      prevs := prevs[was := prevs[was] - {e}];
      blocks := SetNext(blocks, e, None);
      if old(BackLinked(blocks, prevs)) {
        OnlyOneTarget(old(blocks), old(prevs), e, was);
        RelinkKeeps(old(blocks), old(prevs), e, None, prevs);
      }
    }
  }

  lemma OnlyOneTarget(p: seq<Block>, prevs: seq<set<Edge>>, e: Edge, was: nat)
    requires BackLinked(p, prevs) && NextOf(p, e) == Some(was)
    ensures forall x | 0 <= x < |prevs| && x != was :: e !in prevs[x]
  {
    forall x: nat | x < |prevs| && x != was ensures e !in prevs[x] {
      assert e in prevs[x] <==> NextOf(p, e) == Some(x);
    }
  }

  lemma RedirectedPrevs(p: seq<Block>, prevs: seq<set<Edge>>, e: Edge, was: nat, n: nat)
    requires BackLinked(p, prevs) && NextOf(p, e) == Some(was) && was < |prevs| && n < |prevs|
    ensures var out := prevs[was := prevs[was] - {e}];
      forall x | 0 <= x < |prevs| ::
      out[n := out[n] + {e}][x] == prevs[x] - {e} + (if Some(n) == Some(x) then {e} else {})
  {
    OnlyOneTarget(p, prevs, e, was);
  }

  /** Edges lead to blocks. */
  predicate EdgesInside(p: seq<Block>) {
    forall b | 0 <= b < |p| ::
      (p[b].taken.Some? ==> p[b].taken.value < |p|) && (p[b].fallthru.Some? ==> p[b].fallthru.value < |p|)
  }

  lemma NewBlockKeeps(p: seq<Block>, prevs: seq<set<Edge>>)
    requires BackLinked(p, prevs) && EdgesInside(p)
    ensures BackLinked(p + [Block([], None, None)], prevs + [{}]) && EdgesInside(p + [Block([], None, None)])
  {
    var p', prevs' := p + [Block([], None, None)], prevs + [{}];
    forall n: nat, e | n < |prevs'| ensures e in prevs'[n] <==> NextOf(p', e) == Some(n) {
      if n < |prevs| { assert e in prevs[n] <==> NextOf(p, e) == Some(n); }
    }
  }

  /** An empty slot is in nobody's list. */
  lemma FreshEdge(p: seq<Block>, prevs: seq<set<Edge>>, e: Edge)
    requires BackLinked(p, prevs) && NextOf(p, e).None?
    ensures forall x | 0 <= x < |prevs| :: prevs[x] - {e} == prevs[x]
  {
    forall x | 0 <= x < |prevs| ensures e !in prevs[x] { assert e in prevs[x] <==> NextOf(p, e) == Some(x); }
  }
}
