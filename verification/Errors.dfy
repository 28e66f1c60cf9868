/** The error counter and exit flag that every probe handler checks on entry
    and updates on exit, over serial runs. `Handlers` has the code that does it. */
module Errors {
  import opened Ir
  import opened Script

  // Keys of the internal map.
  const EXIT: int := 0
  const ERRORS: int := 1

  datatype Message = PrintError | HardError

  /** What a handler body does when it runs: it may call exit and it may
      register an error. */
  datatype Body = Body(exits: bool, fails: bool)

  /** The internal map, the messages sent and the bodies that have run. */
  datatype World = World(entries: map<int, int>, sent: seq<Message>, ran: seq<nat>)

  /** MAXERRORS, an int: negative limits and no limit are zero. */
  function Limit(constraint: Option<int>): (limit: nat)
    requires constraint.Some? ==> FitsInt32(constraint.value)
    ensures limit < 0x8000_0000
  {
    if constraint.Some? && constraint.value >= 0 then constraint.value else 0
  }

  /** The prologue lets the body run. */
  predicate Admits(w: World, limit: int) {
    EXIT in w.entries && w.entries[EXIT] != 1 && ERRORS in w.entries && w.entries[ERRORS] <= limit
  }

  function RunBody(w: World, k: nat, b: Body): World {
    w.(entries := if b.exits then w.entries[EXIT := 1] else w.entries, ran := w.ran + [k])
  }

  function CountError(w: World, limit: int): World {
    var count := if ERRORS in w.entries then ToInt64(w.entries[ERRORS] + 1) else 0;
    var told := w.(sent := w.sent + [PrintError]);
    if ERRORS !in w.entries then told
    else told.(entries := w.entries[ERRORS := count], sent := told.sent + if count <= limit then [] else [HardError])
  }

  /** One handler, from prologue to epilogue. */
  function Handle(w: World, limit: int, k: nat, b: Body): World {
    if !Admits(w, limit) then w
    else if b.fails then CountError(RunBody(w, k, b), limit)
    else RunBody(w, k, b)
  }

  /** Handlers k to the last, one after the other. */
  function HandleAll(w: World, limit: int, bodies: seq<Body>, k: nat): World
    requires k <= |bodies|
    decreases |bodies| - k
  {
    if k == |bodies| then w else HandleAll(Handle(w, limit, k, bodies[k]), limit, bodies, k + 1)
  }

  /** The outcomes before k do not matter. */
  lemma {:induction false} HandleAllSame(w: World, limit: int, a: seq<Body>, b: seq<Body>, k: nat)
    requires k <= |a| == |b| && forall i | k <= i < |a| :: a[i] == b[i]
    ensures HandleAll(w, limit, a, k) == HandleAll(w, limit, b, k)
    decreases |a| - k
  {
    if k < |a| { HandleAllSame(Handle(w, limit, k, a[k]), limit, a, b, k + 1); }
  }

  /** A session begins with both entries zero. */
  const FRESH: World := World(map[EXIT := 0, ERRORS := 0], [], [])

  // ----- what every run keeps -----

  function Fails(bodies: seq<Body>, n: nat): nat
    requires n <= |bodies|
  {
    if n == 0 then 0 else Fails(bodies, n - 1) + if bodies[n - 1].fails then 1 else 0
  }

  predicate Exits(bodies: seq<Body>, n: nat)
    requires n <= |bodies|
  {
    n > 0 && (Exits(bodies, n - 1) || bodies[n - 1].exits)
  }

  /** The run was not over before any of the first n handlers. */
  predicate Running(bodies: seq<Body>, limit: nat, n: nat)
    requires n <= |bodies|
  {
    n == 0 || (Running(bodies, limit, n - 1) && !Over(bodies, limit, n - 1))
  }

  /** Before handler n the run is over: some body called exit, or more than the
      allowed number failed. */
  predicate Over(bodies: seq<Body>, limit: nat, n: nat)
    requires n <= |bodies|
  {
    Exits(bodies, n) || Fails(bodies, n) > limit
  }

  function Indices(n: nat): seq<nat> {
    seq(n, i requires i >= 0 => i)
  }

  /** The hard errors among the messages. */
  function Hard(sent: seq<Message>): nat {
    if sent == [] then 0 else Hard(sent[..|sent| - 1]) + if sent[|sent| - 1] == HardError then 1 else 0
  }

  function Printed(sent: seq<Message>): nat {
    if sent == [] then 0 else Printed(sent[..|sent| - 1]) + if sent[|sent| - 1] == PrintError then 1 else 0
  }

  lemma Sends(sent: seq<Message>, m: Message)
    ensures Hard(sent + [m]) == Hard(sent) + if m == HardError then 1 else 0
    ensures Printed(sent + [m]) == Printed(sent) + if m == PrintError then 1 else 0
  {
    assert (sent + [m])[..|sent|] == sent;
  }

  /** After the first n bodies have run, and before anything stopped the run:
      the stored count is the number of failures, and the hard error has been
      sent once exactly if the count has passed the limit. */
  ghost predicate Kept(w: World, bodies: seq<Body>, limit: nat, n: nat)
    requires n <= |bodies|
  {
    EXIT in w.entries && ERRORS in w.entries && w.ran == Indices(n) && limit < 0x8000_0000
    && w.entries[ERRORS] == Fails(bodies, n) <= limit + 1
    && (w.entries[EXIT] == 1 <==> Exits(bodies, n))
    && Printed(w.sent) == Fails(bodies, n)
    && Hard(w.sent) == (if Fails(bodies, n) == limit + 1 then 1 else 0)
    && Running(bodies, limit, n)
  }

  /** What an error sends. */
  lemma ErrorSends(sent: seq<Message>, hard: bool)
    ensures var out := sent + [PrintError] + if hard then [HardError] else [];
      Printed(out) == Printed(sent) + 1 && Hard(out) == Hard(sent) + if hard then 1 else 0
  {
    Sends(sent, PrintError);
    Sends(sent + [PrintError], HardError);
    assert sent + [PrintError] + [] == sent + [PrintError];
  }

  lemma HandleKeeps(w: World, bodies: seq<Body>, limit: nat, n: nat)
    requires n < |bodies| && Kept(w, bodies, limit, n) && !Over(bodies, limit, n)
    ensures Kept(Handle(w, limit, n, bodies[n]), bodies, limit, n + 1)
  {
    assert Indices(n) + [n] == Indices(n + 1);
    ErrorSends(w.sent, Fails(bodies, n) == limit);
  }

  /** A run that is over changes nothing more. */
  lemma {:induction false} OverStays(w: World, bodies: seq<Body>, limit: nat, k: nat)
    requires k <= |bodies| && !Admits(w, limit)
    ensures HandleAll(w, limit, bodies, k) == w
    decreases |bodies| - k
  {
    if k < |bodies| { OverStays(w, bodies, limit, k + 1); }
  }

  lemma {:induction false} RunFrom(w: World, bodies: seq<Body>, limit: nat, k: nat) returns (n: nat)
    requires k <= |bodies| && Kept(w, bodies, limit, k)
    ensures k <= n <= |bodies| && Kept(HandleAll(w, limit, bodies, k), bodies, limit, n)
    ensures n == |bodies| || Over(bodies, limit, n)
    decreases |bodies| - k
  {
    if k == |bodies| || Over(bodies, limit, k) {
      n := k;
      if k < |bodies| { OverStays(w, bodies, limit, k); }
    } else {
      HandleKeeps(w, bodies, limit, k);
      n := RunFrom(Handle(w, limit, k, bodies[k]), bodies, limit, k + 1);
    }
  }

  /** Any serial run of handlers from a fresh session: exactly the first n run,
      where n is the first point at which the run is over; the stored error
      count is the number of them that failed and never passes the limit by more
      than one; the hard error is sent once, exactly when it does. */
  lemma SerialRun(bodies: seq<Body>, limit: nat) returns (n: nat)
    requires limit < 0x8000_0000
    ensures n <= |bodies| && Kept(HandleAll(FRESH, limit, bodies, 0), bodies, limit, n)
    ensures n == |bodies| || Over(bodies, limit, n)
  {
    assert FRESH.ran == Indices(0);
    n := RunFrom(FRESH, bodies, limit, 0);
  }

  /** Without the internal entries no body ever runs. */
  lemma MissingEntries(w: World, bodies: seq<Body>, limit: nat)
    requires EXIT !in w.entries || ERRORS !in w.entries
    ensures HandleAll(w, limit, bodies, 0) == w
  {
    OverStays(w, bodies, limit, 0);
  }
}
