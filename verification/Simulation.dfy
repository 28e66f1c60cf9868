/** How a relation kept by every step carries over to whole runs. */
module Simulation {
  import opened Machine

  ghost predicate StepKept(step: Stepper, step': Stepper, rel: (Step, Step) -> bool, c: Step, c': Step)
    requires c.Goto?
  {
    c'.Goto? && rel(step(c.b, c.s), step'(c'.b, c'.s))
  }

  /** Related steps stay related; when a run has ended, its partner has ended
      too or is of no further interest. */
  ghost predicate Lockable(step: Stepper, step': Stepper, rel: (Step, Step) -> bool) {
    (forall c, c' {:trigger StepKept(step, step', rel, c, c')} | rel(c, c') && c.Goto? ::
         StepKept(step, step', rel, c, c'))
    && (forall c, c', x | rel(c, c') && !c.Goto? :: !c'.Goto? || rel(c, x))
  }

  lemma {:induction false} Simulate(step: Stepper, step': Stepper, rel: (Step, Step) -> bool, c: Step, c': Step, n: nat)
    requires Lockable(step, step', rel) && rel(c, c')
    ensures rel(Steps(step, c, n), Steps(step', c', n))
    decreases n
  {
    if n > 0 && c.Goto? {
      assert StepKept(step, step', rel, c, c');
      Simulate(step, step', rel, step(c.b, c.s), step'(c'.b, c'.s), n - 1);
    }
  }

  /** What related ends look like, unless the first run faulted. */
  ghost predicate EndsAlike(rel: (Step, Step) -> bool, g: set<Word>) {
    forall c, c' | rel(c, c') && !c.Crash? ::
      !c'.Crash? && (c.Goto? <==> c'.Goto?) && (c.Halt? <==> c'.Halt?) && (c.Halt? ==> SameView(c.s, c'.s, g))
      && (HasState(c) ==> c.s.trace == c'.s.trace)
  }

  /** Runs in lockstep behave alike when the first never faults; then the
      second never faults either. */
  lemma LockBehaviour(step: Stepper, step': Stepper, rel: (Step, Step) -> bool, c: Step, c': Step, g: set<Word>)
    requires Lockable(step, step', rel) && rel(c, c') && EndsAlike(rel, g) && Safe(step, c)
    ensures SameBehaviour(step, c, step', c', g)
    ensures Safe(step', c')
  {
    forall n: nat ensures rel(Steps(step, c, n), Steps(step', c', n)) && Steps(step', c', n) != Crash {
      Simulate(step, step', rel, c, c', n);
    }
    forall o | Halts(step, c, o) ensures exists o' :: Halts(step', c', o') && SameView(o, o', g) {
      var n: nat :| Steps(step, c, n) == Halt(o);
      assert Halts(step', c', Steps(step', c', n).s);
    }
    forall o' | Halts(step', c', o') ensures exists o :: Halts(step, c, o) && SameView(o', o, g) {
      var n: nat :| Steps(step', c', n) == Halt(o');
      assert Halts(step, c, Steps(step, c, n).s);
    }
    forall t ensures Makes(step, c, t) <==> Makes(step', c', t) {
      if Makes(step, c, t) {
        var n: nat :| HasMade(Steps(step, c, n), t);
        assert HasMade(Steps(step', c', n), t);
      }
      if Makes(step', c', t) {
        var n: nat :| HasMade(Steps(step', c', n), t);
        assert HasMade(Steps(step, c, n), t);
      }
    }
  }

  lemma SameViewTrans(a: State, b: State, c: State, g: set<Word>)
    requires SameView(a, b, g) && SameView(b, c, g)
    ensures SameView(a, c, g)
  {
  }

  lemma FollowsTrans(s1: Stepper, c1: Step, s2: Stepper, c2: Step, s3: Stepper, c3: Step, g: set<Word>)
    requires Follows(s1, c1, s2, c2, g) && Follows(s2, c2, s3, c3, g)
    ensures Follows(s1, c1, s3, c3, g)
  {
    forall o | Halts(s1, c1, o) ensures exists o' :: Halts(s3, c3, o') && SameView(o, o', g) {
      var m :| Halts(s2, c2, m) && SameView(o, m, g);
      var o' :| Halts(s3, c3, o') && SameView(m, o', g);
      SameViewTrans(o, m, o', g);
    }
  }

  lemma BehaviourTrans(s1: Stepper, c1: Step, s2: Stepper, c2: Step, s3: Stepper, c3: Step, g: set<Word>)
    requires SameBehaviour(s1, c1, s2, c2, g) && SameBehaviour(s2, c2, s3, c3, g) && (Safe(s1, c1) ==> Safe(s2, c2))
    ensures SameBehaviour(s1, c1, s3, c3, g)
  {
    assert Follows(s1, c1, s3, c3, g) by { FollowsTrans(s1, c1, s2, c2, s3, c3, g); }
    assert Follows(s3, c3, s1, c1, g) by { FollowsTrans(s3, c3, s2, c2, s1, c1, g); }
  }

  /** Steps that are equal give equal runs. */
  lemma EqualBehaviour(step: Stepper, step': Stepper, c: Step, g: set<Word>)
    requires forall b: nat, s :: step(b, s) == step'(b, s)
    ensures SameBehaviour(step, c, step', c, g)
    ensures Safe(step, c) <==> Safe(step', c)
  {
    forall n: nat ensures Steps(step, c, n) == Steps(step', c, n) { EqualSteps(step, step', c, n); }
    forall o | Halts(step, c, o) ensures Halts(step', c, o) {
      var n: nat :| Steps(step, c, n) == Halt(o);
      assert Steps(step', c, n) == Halt(o);
    }
    forall o | Halts(step', c, o) ensures Halts(step, c, o) {
      var n: nat :| Steps(step', c, n) == Halt(o);
      assert Steps(step, c, n) == Halt(o);
    }
    forall t ensures Makes(step, c, t) <==> Makes(step', c, t) {
      if Makes(step, c, t) {
        var n: nat :| HasMade(Steps(step, c, n), t);
        assert HasMade(Steps(step', c, n), t);
      }
      if Makes(step', c, t) {
        var n: nat :| HasMade(Steps(step', c, n), t);
        assert HasMade(Steps(step, c, n), t);
      }
    }
  }

  lemma {:induction false} EqualSteps(step: Stepper, step': Stepper, c: Step, n: nat)
    requires forall b: nat, s :: step(b, s) == step'(b, s)
    ensures Steps(step, c, n) == Steps(step', c, n)
    decreases n
  {
    if n > 0 && c.Goto? { EqualSteps(step, step', step(c.b, c.s), n - 1); }
  }

  // ----- several steps for one -----

  lemma {:induction false} StepsAdd(step: Stepper, c: Step, m: nat, n: nat)
    ensures Steps(step, c, m + n) == Steps(step, Steps(step, c, m), n)
    decreases m
  {
    if m > 0 && c.Goto? { StepsAdd(step, step(c.b, c.s), m - 1, n); }
  }

  /** The calls made in passing are among those made in the end. */
  predicate Passes(mid: Step, to: Step) {
    HasState(mid) ==> to.Crash? || HasMade(to, mid.s.trace)
  }

  lemma PassesOn(step: Stepper, c: Step, m: nat, to: Step)
    requires c.Goto? && Passes(c, to) && forall j | 0 <= j < m :: Passes(Steps(step, step(c.b, c.s), j), to)
    ensures forall j | 0 <= j < m + 1 :: Passes(Steps(step, c, j), to)
  {
    forall j | 0 <= j < m + 1 ensures Passes(Steps(step, c, j), to) {
      if j > 0 { assert Steps(step, c, j) == Steps(step, step(c.b, c.s), j - 1); }
    }
  }

  /** k steps of the first program match one of the second; k may be zero only
      where the rank of the second one's configuration falls. */
  ghost predicate Matched(step: Stepper, step': Stepper, rel: (Step, Step) -> bool, rank: Step -> nat, c: Step,
                          c': Step, k: nat)
    requires c'.Goto?
  {
    rel(Steps(step, c, k), step'(c'.b, c'.s)) && (k == 0 ==> rank(step'(c'.b, c'.s)) < rank(c'))
    && forall j | 0 < j < k :: Passes(Steps(step, c, j), step'(c'.b, c'.s))
  }

  ghost predicate CanMatch(step: Stepper, step': Stepper, rel: (Step, Step) -> bool, rank: Step -> nat, c: Step,
                           c': Step)
    requires c'.Goto?
  {
    exists k: nat :: Matched(step, step', rel, rank, c, c', k)
  }

  ghost predicate Stuttering(step: Stepper, step': Stepper, rel: (Step, Step) -> bool, rank: Step -> nat) {
    forall c, c' {:trigger CanMatch(step, step', rel, rank, c, c')} | rel(c, c') && c'.Goto? ::
      CanMatch(step, step', rel, rank, c, c')
  }

  /** Related configurations have ended alike, or neither has. */
  ghost predicate EndTogether(rel: (Step, Step) -> bool, g: set<Word>) {
    forall c, c' | rel(c, c') ::
      (c.Goto? <==> c'.Goto?) && (c.Crash? <==> c'.Crash?) && (c.Halt? <==> c'.Halt?)
      && (c.Halt? ==> SameView(c.s, c'.s, g))
      && (HasState(c) ==> c.s.trace == c'.s.trace)
  }

  lemma {:induction false} CoarseHalts(step: Stepper, step': Stepper, rel: (Step, Step) -> bool, rank: Step -> nat,
                                       c: Step, c': Step, g: set<Word>, n: nat) returns (m: nat)
    requires Stuttering(step, step', rel, rank) && EndTogether(rel, g) && rel(c, c')
    ensures rel(Steps(step, c, m), Steps(step', c', n))
    decreases n
  {
    if n == 0 || !c'.Goto? {
      m := 0;
    } else {
      assert CanMatch(step, step', rel, rank, c, c');
      var k: nat :| Matched(step, step', rel, rank, c, c', k);
      var m' := CoarseHalts(step, step', rel, rank, Steps(step, c, k), step'(c'.b, c'.s), g, n - 1);
      StepsAdd(step, c, k, m');
      m := k + m';
    }
  }

  /** Once ended, a run stays where it is. */
  lemma EndedStays(step: Stepper, c: Step, n: nat, k: nat)
    requires !Steps(step, c, n).Goto? && n <= k
    ensures Steps(step, c, k) == Steps(step, c, n)
  {
    StepsAdd(step, c, n, k - n);
  }

  lemma {:induction false} FineEnds(step: Stepper, step': Stepper, rel: (Step, Step) -> bool, rank: Step -> nat,
                                    c: Step, c': Step, g: set<Word>, n: nat) returns (m: nat)
    requires Stuttering(step, step', rel, rank) && EndTogether(rel, g) && rel(c, c') && !Steps(step, c, n).Goto?
    ensures rel(Steps(step, c, n), Steps(step', c', m))
    decreases n, rank(c')
  {
    if !c'.Goto? {
      m := 0;
    } else {
      assert CanMatch(step, step', rel, rank, c, c');
      var k: nat :| Matched(step, step', rel, rank, c, c', k);
      if k <= n {
        StepsAdd(step, c, k, n - k);
        var m' := FineEnds(step, step', rel, rank, Steps(step, c, k), step'(c'.b, c'.s), g, n - k);
        m := m' + 1;
      } else {
        EndedStays(step, c, n, k);
        m := 1;
      }
    }
  }

  /** What the first program has made by now, the second makes in time. */
  lemma {:induction false} FineMakes(step: Stepper, step': Stepper, rel: (Step, Step) -> bool, rank: Step -> nat,
                                     c: Step, c': Step, g: set<Word>, n: nat, t: seq<Event>) returns (m: nat)
    requires Stuttering(step, step', rel, rank) && EndTogether(rel, g) && rel(c, c') && Safe(step, c)
    requires HasMade(Steps(step, c, n), t)
    ensures HasMade(Steps(step', c', m), t)
    decreases n, rank(c')
  {
    if n == 0 || !c'.Goto? {
      m := 0;
    } else {
      assert CanMatch(step, step', rel, rank, c, c');
      var k: nat :| Matched(step, step', rel, rank, c, c', k);
      var d, d' := Steps(step, c, k), step'(c'.b, c'.s);
      if k <= n {
        StepsAdd(step, c, k, n - k);
        SafeLater(step, c, k);
        var m' := FineMakes(step, step', rel, rank, d, d', g, n - k, t);
        m := m' + 1;
      } else {
        assert Passes(Steps(step, c, n), d');
        m := 1;
        assert Steps(step', c', 1) == Steps(step', d', 0);
      }
    }
  }

  lemma SafeLater(step: Stepper, c: Step, k: nat)
    requires Safe(step, c)
    ensures Safe(step, Steps(step, c, k))
  {
    forall n: nat ensures Steps(step, Steps(step, c, k), n) != Crash {
      StepsAdd(step, c, k, n);
    }
  }

  lemma StutterCalls(step: Stepper, step': Stepper, rel: (Step, Step) -> bool, rank: Step -> nat, c: Step, c': Step,
                     g: set<Word>)
    requires Stuttering(step, step', rel, rank) && EndTogether(rel, g) && rel(c, c') && Safe(step, c)
    ensures SameCalls(step, c, step', c')
  {
    forall t ensures Makes(step, c, t) <==> Makes(step', c', t) {
      if Makes(step, c, t) {
        var n: nat :| HasMade(Steps(step, c, n), t);
        var m := FineMakes(step, step', rel, rank, c, c', g, n, t);
      }
      if Makes(step', c', t) {
        var n: nat :| HasMade(Steps(step', c', n), t);
        var m := CoarseHalts(step, step', rel, rank, c, c', g, n);
        assert HasMade(Steps(step, c, m), t);
      }
    }
  }

  /** Programs related by stuttering steps behave alike, either way round. */
  lemma StutterBehaviour(step: Stepper, step': Stepper, rel: (Step, Step) -> bool, rank: Step -> nat, c: Step, c': Step,
                         g: set<Word>)
    requires Stuttering(step, step', rel, rank) && EndTogether(rel, g) && rel(c, c')
    ensures SameBehaviour(step, c, step', c', g) && SameBehaviour(step', c', step, c, g)
    ensures Safe(step, c) <==> Safe(step', c')
  {
    if Safe(step, c) { StutterCalls(step, step', rel, rank, c, c', g); }
    forall o | Halts(step, c, o) ensures exists o' :: Halts(step', c', o') && SameView(o, o', g) {
      var n: nat :| Steps(step, c, n) == Halt(o);
      var m := FineEnds(step, step', rel, rank, c, c', g, n);
      assert Halts(step', c', Steps(step', c', m).s);
    }
    forall o' | Halts(step', c', o') ensures exists o :: Halts(step, c, o) && SameView(o', o, g) {
      var n: nat :| Steps(step', c', n) == Halt(o');
      var m := CoarseHalts(step, step', rel, rank, c, c', g, n);
      assert Halts(step, c, Steps(step, c, m).s);
    }
    if !Safe(step, c) {
      var n: nat :| Steps(step, c, n) == Crash;
      var m := FineEnds(step, step', rel, rank, c, c', g, n);
      assert Steps(step', c', m) == Crash;
    }
    if !Safe(step', c') {
      var n: nat :| Steps(step', c', n) == Crash;
      var m := CoarseHalts(step, step', rel, rank, c, c', g, n);
      assert Steps(step, c, m) == Crash;
    }
  }

  // ----- runs that halt -----

  lemma {:induction false} HaltStays(step: Stepper, c: Step, m: nat, n: nat)
    requires Steps(step, c, m) == Crash && Steps(step, c, n).Halt?
    ensures false
    decreases n
  {
    if m > 0 && n > 0 && c.Goto? { HaltStays(step, step(c.b, c.s), m - 1, n - 1); }
  }

  lemma HaltsSafe(step: Stepper, c: Step, o: State)
    requires Halts(step, c, o)
    ensures Safe(step, c)
  {
    var n: nat :| Steps(step, c, n) == Halt(o);
    forall m: nat ensures Steps(step, c, m) != Crash {
      if Steps(step, c, m) == Crash { HaltStays(step, c, m, n); }
    }
  }
}
