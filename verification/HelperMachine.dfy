/** A machine with the map helpers: what `Handlers` and `ProbeBytecode` ask of a
    machine can be had. */
module HelperMachine {
  import opened Ir
  import opened Machine
  import opened Memory
  import opened Script
  import opened Spilling
  import opened Handlers
  import opened ProbeBytecode

  function KeyAt(args: seq<Word>, m: Mem): int
    requires |args| > 1
  {
    Load(m, args[1], 4)
  }

  /** Where a helper writes eight bytes, and what. */
  function TargetOf(mp: Maps, id: int, args: seq<Word>, m: Mem, t: seq<Event>): Option<Word> {
    if id == UPDATE && |args| == 4 && KeyAt(args, m) in mp.slots then Some(mp.slots[KeyAt(args, m)])
    else if id == OUTPUT && |args| == 5 && Sent(t) < |mp.cells| then Some(mp.cells[Sent(t)])
    else None
  }

  /** The bytes a helper reads. */
  function ReadsOf(id: int, args: seq<Word>): set<Word> {
    if id == LOOKUP && |args| == 2 then Range(args[1], 4)
    else if id == UPDATE && |args| == 4 then Range(args[1], 4) + Range(args[2], 8)
    else if id == OUTPUT && |args| == 5 then Range(args[3], 8)
    else {}
  }

  function TouchOf(mp: Maps, id: int, args: seq<Word>, m: Mem, t: seq<Event>): set<Word> {
    var to := TargetOf(mp, id, args, m, t);
    ReadsOf(id, args) + if to.Some? then Range(to.value, 8) else {}
  }

  function CallOf(mp: Maps, id: int, args: seq<Word>, m: Mem, t: seq<Event>): CallOut {
    var to := TargetOf(mp, id, args, m, t);
    var r0 := if id == LOOKUP && |args| == 2 && KeyAt(args, m) in mp.slots then mp.slots[KeyAt(args, m)] else 0;
    var mem := if to.Some? then Store(m, to.value, 8, Load(m, if id == UPDATE then args[2] else args[3], 8)) else m;
    CallOut(r0, map[], mem)
  }

  function MachineOf(mp: Maps): Sem {
    Sem((op, x, y) => AluMeaning(op, x, y),
        (id, args, m, t) => CallOf(mp, id, args, m, t),
        (id, args, m, t) => TouchOf(mp, id, args, m, t),
        id => Wrap(id),
        {})
  }

  /** A helper sees nothing of bytes it does not touch. */
  lemma SameReads(mp: Maps, id: int, args: seq<Word>, m: Mem, m': Mem, t: seq<Event>, g: set<Word>)
    requires TouchOf(mp, id, args, m, t) !! g && AgreeOff(m, m', g)
    ensures TargetOf(mp, id, args, m', t) == TargetOf(mp, id, args, m, t)
    ensures CallOf(mp, id, args, m', t).r0 == CallOf(mp, id, args, m, t).r0
    ensures id == UPDATE && |args| == 4 ==> Load(m', args[2], 8) == Load(m, args[2], 8)
    ensures id == OUTPUT && |args| == 5 ==> Load(m', args[3], 8) == Load(m, args[3], 8)
  {
    assert ReadsOf(id, args) !! g;
    if id == LOOKUP && |args| == 2 {
      LoadAgree(m, m', args[1], 4);
    } else if id == UPDATE && |args| == 4 {
      LoadAgree(m, m', args[1], 4);
      LoadAgree(m, m', args[2], 8);
    } else if id == OUTPUT && |args| == 5 {
      LoadAgree(m, m', args[3], 8);
    }
  }

  lemma StoreOff(m: Mem, a: Word, n: nat, v: nat, g: set<Word>)
    requires Range(a, n) !! g
    ensures forall x: Word | x in g :: ByteAt(Store(m, a, n, v), x) == ByteAt(m, x)
  {
    forall x: Word | x in g ensures ByteAt(Store(m, a, n, v), x) == ByteAt(m, x) { StoreFrame(m, a, n, v, x); }
  }

  lemma MemFramed(mp: Maps, id: int, args: seq<Word>, m: Mem, m': Mem, t: seq<Event>, g: set<Word>, out: Mem, out': Mem)
    requires TouchOf(mp, id, args, m, t) !! g && AgreeOff(m, m', g)
    requires out == CallOf(mp, id, args, m, t).mem && out' == CallOf(mp, id, args, m', t).mem
    ensures AgreeOff(out, out', g)
    ensures forall x: Word | x in g :: ByteAt(out, x) == ByteAt(m, x) && ByteAt(out', x) == ByteAt(m', x)
  {
    SameReads(mp, id, args, m, m', t, g);
    var to := TargetOf(mp, id, args, m, t);
    if to.Some? { StoresFramed(m, m', to.value, Load(m, if id == UPDATE then args[2] else args[3], 8), g, out, out'); }
  }

  lemma CallsFramed(mp: Maps, id: int, args: seq<Word>, m: Mem, m': Mem, t: seq<Event>, g: set<Word>)
    requires TouchOf(mp, id, args, m, t) !! g && AgreeOff(m, m', g)
    ensures CallFramed(MachineOf(mp), id, args, m, m', t, g)
  {
    SameReads(mp, id, args, m, m', t, g);
    MemFramed(mp, id, args, m, m', t, g, CallOf(mp, id, args, m, t).mem, CallOf(mp, id, args, m', t).mem);
  }

  lemma StoresFramed(m: Mem, m': Mem, a: Word, v: nat, g: set<Word>, out: Mem, out': Mem)
    requires AgreeOff(m, m', g) && Range(a, 8) !! g && out == Store(m, a, 8, v) && out' == Store(m', a, 8, v)
    ensures AgreeOff(out, out', g)
    ensures forall x: Word | x in g :: ByteAt(out, x) == ByteAt(m, x) && ByteAt(out', x) == ByteAt(m', x)
  {
    StoreAgree(m, m', a, 8, v, g);
    StoreOff(m, a, 8, v, g);
    StoreOff(m', a, 8, v, g);
  }

  /** The machine has the helpers, and they are framed. */
  lemma MachineHelps(mp: Maps)
    ensures HasHelpers(MachineOf(mp), mp) && Framed(MachineOf(mp))
  {
    var sem := MachineOf(mp);
    forall args, m, t ensures Looks(sem, mp, args, m,
                                    t) && Updates(sem, mp, args, m, t) && Outputs(sem, mp, args, m, t) {}
    forall id, args, m, m', t, g: set<Word> | sem.touch(id, args, m, t) !! g && AgreeOff(m, m', g)
      ensures CallFramed(sem, id, args, m, m', t, g)
    {
      CallsFramed(mp, id, args, m, m', t, g);
    }
  }

  /** Wherever the maps and cells lie apart from the stack and one another, it is one
      of the machines on which probes run. */
  lemma MachineRuns(mp: Maps, fp: Word, size: nat)
    requires Apart(MachineOf(mp).(guard := StackBytes(fp, size)), mp, fp)
    ensures RunsProbes(MachineOf(mp), mp, fp, size)
  {
    MachineHelps(mp);
  }
}
