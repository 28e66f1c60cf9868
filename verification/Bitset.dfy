/** bpf-bitset: sets of register numbers packed in 64-bit words, against plain
    sets of natural numbers. */
module Bitset {
  import opened Ir
  import opened Machine
  import opened Bits

  // ----- the set in a sequence of words -----

  predicate In(ws: seq<Word>, i: nat) {
    i < BITS * |ws| && Bit(ws[i / BITS], i % BITS)
  }

  function MembersOf(ws: seq<Word>): set<nat> {
    set i: nat | i < BITS * |ws| && In(ws, i)
  }

  function Zip(op: (Word, Word) -> Word, x: seq<Word>, y: seq<Word>): (z: seq<Word>)
    requires |x| == |y|
    ensures |z| == |x| && forall k {:trigger z[k]} | 0 <= k < |x| :: z[k] == op(x[k], y[k])
  {
    seq(|x|, k requires 0 <= k < |x| => op(x[k], y[k]))
  }

  function AndNot(x: Word, y: Word): Word {
    AndW(x, NotW(y))
  }

  /** Word by word, the operators are those of sets. */
  lemma ZipSets(x: seq<Word>, y: seq<Word>)
    requires |x| == |y|
    ensures MembersOf(Zip(OrW, x, y)) == MembersOf(x) + MembersOf(y)
    ensures MembersOf(Zip(AndW, x, y)) == MembersOf(x) * MembersOf(y)
    ensures MembersOf(Zip(AndNot, x, y)) == MembersOf(x) - MembersOf(y)
  {
    forall i: nat | i < BITS * |x|
      ensures In(Zip(OrW, x, y), i) <==> In(x, i) || In(y, i)
      ensures In(Zip(AndW, x, y), i) <==> In(x, i) && In(y, i)
      ensures In(Zip(AndNot, x, y), i) <==> In(x, i) && !In(y, i)
    {
      var a, b := x[i / BITS], y[i / BITS];
      WordOps(a, b, i % BITS);
      WordOps(a, NotW(b), i % BITS);
      WordOps(b, b, i % BITS);
    }
  }

  lemma SetBit(ws: seq<Word>, i: nat)
    requires i < BITS * |ws|
    ensures MembersOf(ws[i / BITS := OrW(ws[i / BITS], Power(i % BITS))]) == MembersOf(ws) + {i}
    ensures MembersOf(ws[i / BITS := AndNot(ws[i / BITS], Power(i % BITS))]) == MembersOf(ws) - {i}
  {
    var w, k := ws[i / BITS], i / BITS;
    var p := Power(i % BITS);
    forall j: nat | j < BITS * |ws|
      ensures In(ws[k := OrW(w, p)], j) <==> In(ws, j) || j == i
      ensures In(ws[k := AndNot(w, p)], j) <==> In(ws, j) && j != i
    {
      if j / BITS == k {
        WordOps(w, p, j % BITS);
        WordOps(w, NotW(p), j % BITS);
        WordOps(p, p, j % BITS);
        WordMasks(i % BITS, j % BITS);
        SameWord(i, j);
      }
    }
  }

  lemma SameWord(i: nat, j: nat)
    requires i / BITS == j / BITS
    ensures i % BITS == j % BITS <==> i == j
  {
  }

  // ----- searching -----

  /** The least member from i on, or none. */
  ghost predicate IsNext(ws: seq<Word>, i: nat, r: Option<nat>) {
    match r
    case Some(k) => i <= k && In(ws, k) && forall j: nat | i <= j < k :: !In(ws, j)
    case None => forall j: nat | i <= j :: !In(ws, j)
  }

  lemma EmptyWord(ws: seq<Word>, k: nat)
    requires k < |ws| && ws[k] == 0
    ensures forall j: nat | j / BITS == k :: !In(ws, j)
  {
    forall j: nat | j / BITS == k ensures !In(ws, j) { ZeroBit(j % BITS); }
  }

  /** The lowest bit of word k, where the members before it are excluded by w. */
  lemma LowestIs(ws: seq<Word>, i: nat, k: nat, w: Word)
    requires k < |ws| && w > 0 && i <= BITS * k + BITS
    requires forall o: nat | o < BITS :: Bit(w, o) <==> Bit(ws[k], o) && i <= BITS * k + o
    requires forall j: nat | i <= j < BITS * k :: !In(ws, j)
    ensures IsNext(ws, i, Some(BITS * k + Ctz(w)))
  {
    CtzWord(w);
    var r := BITS * k + Ctz(w);
    WordAt(k, Ctz(w));
    forall j: nat | i <= j < r ensures !In(ws, j) {
      if j >= BITS * k { WordAt(k, j - BITS * k); }
    }
  }

  lemma WordAt(k: nat, o: nat)
    requires o < BITS
    ensures (BITS * k + o) / BITS == k && (BITS * k + o) % BITS == o
  {
  }

  lemma NoneFrom(ws: seq<Word>, i: nat)
    requires forall j: nat | i <= j < BITS * |ws| :: !In(ws, j)
    ensures IsNext(ws, i, None)
  {
  }

  function Flipped(ws: seq<Word>): (z: seq<Word>)
    ensures |z| == |ws| && forall k {:trigger z[k]} | 0 <= k < |ws| :: z[k] == NotW(ws[k])
  {
    seq(|ws|, k requires 0 <= k < |ws| => NotW(ws[k]))
  }

  lemma FlippedIn(ws: seq<Word>, i: nat)
    requires i < BITS * |ws|
    ensures In(Flipped(ws), i) <==> !In(ws, i)
  {
    WordOps(ws[i / BITS], 0, i % BITS);
  }

  /** The least member of m from i on, or none. */
  ghost predicate IsLeast(m: set<nat>, i: nat, r: Option<nat>) {
    match r
    case Some(k) => i <= k && k in m && forall j: nat | i <= j < k :: j !in m
    case None => forall j | j in m :: j < i
  }

  lemma NextIsLeast(ws: seq<Word>, i: nat, r: Option<nat>)
    requires IsNext(ws, i, r)
    ensures IsLeast(MembersOf(ws), i, r)
  {
  }

  /** Up to the size, the complement of a set. */
  lemma FlippedMembers(ws: seq<Word>)
    ensures forall j: nat :: j in MembersOf(Flipped(ws)) <==> j < BITS * |ws| && j !in MembersOf(ws)
  {
    forall j: nat | j < BITS * |ws| ensures In(Flipped(ws), j) <==> !In(ws, j) { FlippedIn(ws, j); }
  }

  /** A view of a stretch of words: a set of its own, or a row of a table. */
  class SetRef {
    const data: array<Word>
    const base: nat
    const words: nat

    constructor (data: array<Word>, base: nat, words: nat)
      requires base + words <= data.Length
      ensures this.data == data && this.base == base && this.words == words && Valid()
    {
      this.data, this.base, this.words := data, base, words;
    }

    predicate Valid() {
      base + words <= data.Length
    }

    function Words(): seq<Word>
      requires Valid()
      reads data
    {
      data[base..base + words]
    }

    ghost function Members(): set<nat>
      requires Valid()
      reads data
    {
      MembersOf(Words())
    }

    /** The views are one and the same, or have no word in common. */
    ghost predicate Apart(o: SetRef) {
      o.data != data || o.base == base || o.base + o.words <= base || base + words <= o.base
    }

    /** Nothing outside this view has changed. */
    twostate predicate OnlyHere()
      requires Valid()
      reads data
    {
      forall k | 0 <= k < data.Length && !(base <= k < base + words) :: data[k] == old(data[k])
    }

    method Test(i: nat) returns (r: Result<bool>)
      requires Valid()
      ensures i < BITS * words ==> r == Ok(i in Members())
      ensures i >= BITS * words ==> r.Err?
    {
      var w, o := i / BITS, i % BITS;
      if w >= words { return Err("bpf::bitset::set1_ref::test"); }
      return Ok(Bit(data[base + w], o));
    }

    /** Put a word in place. */
    method Write(k: nat, w: Word)
      requires Valid() && k < words
      modifies data
      ensures Words() == old(Words())[k := w] && OnlyHere()
    {
      data[base + k] := w;
    }

    /** set(i, v). */
    method Set(i: nat, v: bool) returns (r: Result<bool>)
      requires Valid()
      modifies data
      ensures OnlyHere()
      ensures i < BITS * words ==> r == Ok(v) && Members() == if v then old(Members()) + {i} else old(Members()) - {i}
      ensures i >= BITS * words ==> r.Err? && Members() == old(Members())
    {
      var w, o := i / BITS, i % BITS;
      if w >= words { return Err("bpf::bitset::set1_ref::operator[]"); }
      SetBit(Words(), i);
      Write(w, if v then OrW(data[base + w], Power(o)) else AndNot(data[base + w], Power(o)));
      return Ok(v);
    }

    /** operator|=, operator&= and operator-=, by the operator on words. */
    method Combine(op: (Word, Word) -> Word, o: SetRef) returns (ok: bool)
      requires Valid() && o.Valid() && Apart(o)
      modifies data
      ensures OnlyHere() && ok == (words == o.words)
      ensures Words() == if words == o.words then Zip(op, old(Words()), old(o.Words())) else old(Words())
    {
      if words != o.words { return false; }
      ghost var x, y := Words(), o.Words();
      for i := 0 to words
        invariant OnlyHere()
        invariant forall k | 0 <= k < words :: data[base + k] == if k < i then op(x[k], y[k]) else x[k]
        invariant forall k | i <= k < words :: o.data[o.base + k] == y[k]
      {
        data[base + i] := op(data[base + i], o.data[o.base + i]);
      }
      assert Words() == Zip(op, x, y);
      return true;
    }

    /** The three of them, as operations on sets. */
    method Union(o: SetRef) returns (ok: bool)
      requires Valid() && o.Valid() && Apart(o)
      modifies data
      ensures OnlyHere() && ok == (words == o.words)
      ensures Members() == if ok then old(Members()) + old(o.Members()) else old(Members())
    {
      if words == o.words { ZipSets(Words(), o.Words()); }
      ok := Combine(OrW, o);
    }

    method Intersect(o: SetRef) returns (ok: bool)
      requires Valid() && o.Valid() && Apart(o)
      modifies data
      ensures OnlyHere() && ok == (words == o.words)
      ensures Members() == if ok then old(Members()) * old(o.Members()) else old(Members())
    {
      if words == o.words { ZipSets(Words(), o.Words()); }
      ok := Combine(AndW, o);
    }

    method Subtract(o: SetRef) returns (ok: bool)
      requires Valid() && o.Valid() && Apart(o)
      modifies data
      ensures OnlyHere() && ok == (words == o.words)
      ensures Members() == if ok then old(Members()) - old(o.Members()) else old(Members())
    {
      if words == o.words { ZipSets(Words(), o.Words()); }
      ok := Combine(AndNot, o);
    }

    /** find_first: the least member. */
    method FindFirst() returns (r: Option<nat>)
      requires Valid()
      ensures IsNext(Words(), 0, r) && IsLeast(Members(), 0, r)
    {
      for i := 0 to words
        invariant forall j: nat | j < BITS * i :: !In(Words(), j)
      {
        if data[base + i] != 0 {
          LowestIs(Words(), 0, i, data[base + i]);
          r := Some(BITS * i + Ctz(data[base + i]));
          NextIsLeast(Words(), 0, r);
          return;
        }
        EmptyWord(Words(), i);
      }
      NoneFrom(Words(), 0);
      NextIsLeast(Words(), 0, None);
      return None;
    }

    /** The least member from i on, word by word from `w`, which is what is left
        of word k. */
    method Scan(ghost i: nat, k0: nat, w0: Word, flip: bool) returns (r: Option<nat>)
      requires Valid() && k0 < words && BITS * k0 <= i < BITS * k0 + BITS
      requires var ws := if flip then Flipped(Words()) else Words();
        forall o: nat | o < BITS :: Bit(w0, o) <==> Bit(ws[k0], o) && i <= BITS * k0 + o
      ensures IsNext(if flip then Flipped(Words()) else Words(), i, r)
    {
      ghost var ws := if flip then Flipped(Words()) else Words();
      var k: nat, w: Word := k0, w0;
      while w == 0
        invariant k0 <= k < words && (forall j: nat | i <= j < BITS * k :: !In(ws, j))
        invariant forall o: nat | o < BITS :: Bit(w, o) <==> Bit(ws[k], o) && i <= BITS * k + o
        decreases words - k, w == 0
      {
        forall j: nat | i <= j < BITS * (k + 1) ensures !In(ws, j) {
          if j >= BITS * k {
            WordAt(k, j - BITS * k);
            ZeroBit(j - BITS * k);
          }
        }
        k := k + 1;
        if k >= words {
          NoneFrom(ws, i);
          return None;
        }
        w := if flip then NotW(data[base + k]) else data[base + k];
      }
      LowestIs(ws, i, k, w);
      return Some(BITS * k + Ctz(w));
    }

    /** find_next: the least member after last. */
    method FindNext(last: nat) returns (r: Option<nat>)
      requires Valid()
      ensures IsNext(Words(), last + 1, r) && IsLeast(Members(), last + 1, r)
    {
      var i, o := (last + 1) / BITS, (last + 1) % BITS;
      if i >= words {
        NoneFrom(Words(), last + 1);
        NextIsLeast(Words(), last + 1, None);
        return None;
      }
      MaskedBits(data[base + i], o);
      r := Scan(last + 1, i, AndW(data[base + i], OnesFrom(o)), false);
      NextIsLeast(Words(), last + 1, r);
    }

    /** find_next_zero: the least number after last that is not a member. */
    method FindNextZero(last: nat) returns (r: Option<nat>)
      requires Valid()
      ensures IsLeast((set j: nat | j < BITS * words && j !in Members()), last + 1, r)
    {
      var i, o := (last + 1) / BITS, (last + 1) % BITS;
      FlippedMembers(Words());
      assert MembersOf(Flipped(Words())) == set j: nat | j < BITS * words && j !in Members();
      if i >= words { return None; }
      MaskedBits(NotW(data[base + i]), o);
      r := Scan(last + 1, i, AndW(NotW(data[base + i]), OnesFrom(o)), true);
      NextIsLeast(Flipped(Words()), last + 1, r);
    }

    /** is_subset_of, for sets of any two sizes. */
    method IsSubsetOf(o: SetRef) returns (r: bool)
      requires Valid() && o.Valid()
      ensures r <==> Members() <= o.Members()
    {
      var n := if words < o.words then words else o.words;
      for i := 0 to n
        invariant forall j: nat | j < BITS * i && In(Words(), j) :: In(o.Words(), j)
      {
        if AndW(data[base + i], NotW(o.data[o.base + i])) != 0 {
          ghost var x := NotInOther(Words(), o.Words(), i);
          assert x in Members() && x !in o.Members();
          return false;
        }
        InOther(Words(), o.Words(), i);
      }
      for i := n to words
        invariant forall j: nat | j < BITS * i && In(Words(), j) :: In(o.Words(), j)
      {
        if data[base + i] != 0 {
          ghost var x := WordBit(data[base + i]);
          WordAt(i, x);
          assert BITS * i + x in Members() && BITS * i + x !in o.Members();
          return false;
        }
        EmptyWord(Words(), i);
      }
      return true;
    }
  }

  lemma MaskedBits(w: Word, o: nat)
    requires o < BITS
    ensures forall i: nat | i < BITS :: Bit(AndW(w, OnesFrom(o)), i) <==> Bit(w, i) && o <= i
  {
    forall i: nat | i < BITS ensures Bit(AndW(w, OnesFrom(o)), i) <==> Bit(w, i) && o <= i {
      WordOps(w, OnesFrom(o), i);
      WordMasks(o, i);
    }
  }

  lemma NotInOther(x: seq<Word>, y: seq<Word>, k: nat) returns (i: nat)
    requires k < |x| && k < |y| && AndW(x[k], NotW(y[k])) != 0
    ensures In(x, i) && !In(y, i)
  {
    var o := WordBit(AndW(x[k], NotW(y[k])));
    WordOps(x[k], NotW(y[k]), o);
    WordOps(y[k], y[k], o);
    WordAt(k, o);
    i := BITS * k + o;
  }

  lemma InOther(x: seq<Word>, y: seq<Word>, k: nat)
    requires k < |x| && k < |y| && AndW(x[k], NotW(y[k])) == 0
    ensures forall j: nat | j / BITS == k && In(x, j) :: In(y, j)
  {
    forall j: nat | j / BITS == k && In(x, j) ensures In(y, j) {
      WordOps(x[k], NotW(y[k]), j % BITS);
      WordOps(y[k], y[k], j % BITS);
      ZeroBit(j % BITS);
    }
  }

  // ----- iteration over pairs -----

  predicate Before(a: (nat, nat), b: (nat, nat)) {
    a.0 < b.0 || (a.0 == b.0 && a.1 < b.1)
  }

  /** Every unordered pair of members below a bound, once, in order. */
  ghost predicate ListsPairs(ws: seq<Word>, ps: seq<(nat, nat)>, r1: nat, r2: nat) {
    (forall a: nat, b: nat :: (a, b) in ps <==> In(ws, a) && In(ws, b) && a < b && Before((a, b), (r1, r2)))
    && forall i, j | 0 <= i < j < |ps| :: Before(ps[i], ps[j])
  }

  lemma AddsPair(ws: seq<Word>, ps: seq<(nat, nat)>, r1: nat, r2: nat, next: nat)
    requires ListsPairs(ws, ps, r1, r2) && In(ws, r1) && In(ws, r2) && r1 < r2 && r2 < next
    requires forall j: nat | r2 < j < next :: !In(ws, j)
    ensures ListsPairs(ws, ps + [(r1, r2)], r1, next)
  {
    var qs := ps + [(r1, r2)];
    forall a: nat, b: nat ensures (a, b) in qs <==> In(ws, a) && In(ws, b) && a < b && Before((a, b), (r1, next)) {
      assert (a, b) in qs <==> (a, b) in ps || (a, b) == (r1, r2);
    }
    forall i, j | 0 <= i < j < |qs| ensures Before(qs[i], qs[j]) {
      if j == |ps| { assert ps[i] in ps && ps[i] == (ps[i].0, ps[i].1); }
    }
  }

  /** No pair lies between the end of one row and the start of the next. */
  lemma NextRow(ws: seq<Word>, ps: seq<(nat, nat)>, r1: nat, end: nat, next: nat)
    requires ListsPairs(ws, ps, r1, end) && r1 < next
    requires (forall j: nat | end <= j :: !In(ws, j)) && (forall j: nat | r1 < j < next :: !In(ws, j))
    ensures ListsPairs(ws, ps, next, next + 1)
  {
    forall a: nat, b: nat
      ensures (a, b) in ps <==> In(ws, a) && In(ws, b) && a < b && Before((a, b), (next, next + 1))
    {
      assert (a, b) in ps <==> In(ws, a) && In(ws, b) && a < b && Before((a, b), (r1, end));
    }
  }

  /** The nested loops of find_block_igraph: each unordered pair of members is
      visited exactly once. */
  method VisitPairs(s: SetRef) returns (ps: seq<(nat, nat)>)
    requires s.Valid()
    ensures forall a: nat, b: nat :: (a, b) in ps <==> a in s.Members() && b in s.Members() && a < b
    ensures forall i, j | 0 <= i < j < |ps| :: ps[i] != ps[j]
  {
    ps := [];
    ghost var ws, size := s.Words(), BITS * s.words;
    var first := s.FindFirst();
    if first.None? { return; }
    var r1 := first.value;
    assert ListsPairs(ws, ps, r1, r1 + 1);
    while true
      invariant In(ws, r1) && ListsPairs(ws, ps, r1, r1 + 1) && s.Words() == ws
      decreases size - r1
    {
      ps := VisitRow(s, ps, r1);
      var next := s.FindNext(r1);
      if next.None? {
        LastRow(ws, ps, r1, size);
        return;
      }
      NextRow(ws, ps, r1, size, next.value);
      r1 := next.value;
    }
  }

  lemma LastRow(ws: seq<Word>, ps: seq<(nat, nat)>, r1: nat, size: nat)
    requires ListsPairs(ws, ps, r1, size) && size == BITS * |ws| && forall j: nat | r1 < j :: !In(ws, j)
    ensures forall a: nat, b: nat :: (a, b) in ps <==> In(ws, a) && In(ws, b) && a < b
    ensures forall i, j | 0 <= i < j < |ps| :: ps[i] != ps[j]
  {
  }

  method VisitRow(s: SetRef, ps: seq<(nat, nat)>, r1: nat) returns (out: seq<(nat, nat)>)
    requires s.Valid() && In(s.Words(), r1) && ListsPairs(s.Words(), ps, r1, r1 + 1)
    ensures ListsPairs(s.Words(), out, r1, BITS * s.words)
  {
    out := ps;
    ghost var ws, size := s.Words(), BITS * s.words;
    var r2 := s.FindNext(r1);
    assert ListsPairs(ws, out, r1, if r2.Some? then r2.value else size) by {
      SkipTo(ws, out, r1, r1 + 1, if r2.Some? then r2.value else size);
    }
    while r2.Some?
      invariant ListsPairs(ws, out, r1, if r2.Some? then r2.value else size)
      invariant r2.Some? ==> In(ws, r2.value) && r1 < r2.value
      decreases if r2.Some? then size - r2.value + 1 else 0
    {
      var next := s.FindNext(r2.value);
      AddsPair(ws, out, r1, r2.value, if next.Some? then next.value else size);
      out := out + [(r1, r2.value)];
      r2 := next;
    }
  }

  /** Where there are no members there are no pairs. */
  lemma SkipTo(ws: seq<Word>, ps: seq<(nat, nat)>, r1: nat, from: nat, to: nat)
    requires ListsPairs(ws, ps, r1, from) && from <= to && forall j: nat | from <= j < to :: !In(ws, j)
    ensures ListsPairs(ws, ps, r1, to)
  {
    forall a: nat, b: nat ensures (a, b) in ps <==> In(ws, a) && In(ws, b) && a < b && Before((a, b), (r1, to)) {
      assert (a, b) in ps <==> In(ws, a) && In(ws, b) && a < b && Before((a, b), (r1, from));
    }
  }

  // ----- tables -----

  function RoundWords(bits: nat): (w: nat)
    ensures BITS * w >= bits && (w > 0 ==> BITS * (w - 1) < bits)
  {
    (bits + BITS - 1) / BITS
  }

  /** set2: rows of sets in one array. */
  class Table {
    const rows: nat
    const width: nat // words per row
    const data: array<Word>

    ghost predicate Valid() {
      data.Length == rows * width
    }

    constructor (m1: nat, m2: nat)
      ensures Valid() && fresh(data) && rows == m1 && width == RoundWords(m2)
      ensures forall i | 0 <= i < rows :: RowAt(i) == {}
    {
      rows, width := m1, RoundWords(m2);
      data := new Word[m1 * RoundWords(m2)](_ => 0);
      new;
      forall i | 0 <= i < rows ensures RowAt(i) == {} {
        InTable(i, rows, width);
        NoMembers(data[width * i..width * i + width]);
      }
    }

    ghost function RowAt(i: nat): set<nat>
      requires Valid() && i < rows
      reads data
    {
      InTable(i, rows, width);
      MembersOf(data[width * i..width * i + width])
    }

    /** operator[]: a view of row i. */
    method Row(i: nat) returns (r: Result<SetRef>)
      requires Valid()
      ensures i >= rows ==> r.Err?
      ensures i < rows ==> r.Ok? && r.value.Valid() && r.value.data == data && r.value.Members() == RowAt(i)
      ensures i < rows ==> r.value.base == width * i && r.value.words == width
    {
      if i >= rows { return Err("set2::operator[]"); }
      InTable(i, rows, width);
      var v := new SetRef(data, width * i, width);
      return Ok(v);
    }

    /** A bit set through a row changes that row and no other. */
    method Set(i: nat, j: nat) returns (ok: bool)
      requires Valid()
      modifies data
      ensures ok == (i < rows && j < BITS * width)
      ensures forall k | 0 <= k < rows :: RowAt(k) == if ok && k == i then old(RowAt(k)) + {j} else old(RowAt(k))
    {
      if i >= rows { return false; }
      InTable(i, rows, width);
      var v := new SetRef(data, width * i, width);
      var r := v.Set(j, true);
      forall k | 0 <= k < rows && k != i ensures RowAt(k) == old(RowAt(k)) {
        InTable(k, rows, width);
        RowsApart(i, k, width);
        assert data[width * k..width * k + width] == old(data[width * k..width * k + width]);
      }
      return r.Ok?;
    }
  }

  lemma NoMembers(ws: seq<Word>)
    requires forall k | 0 <= k < |ws| :: ws[k] == 0
    ensures MembersOf(ws) == {}
  {
    forall j: nat | In(ws, j) ensures false { ZeroBit(j % BITS); }
  }

  lemma InTable(i: nat, rows: nat, width: nat)
    requires i < rows
    ensures width * i + width <= rows * width
  {
    assert width * i + width == width * (i + 1);
    assert width * (i + 1) <= width * rows;
  }

  lemma RowsApart(i: nat, k: nat, width: nat)
    requires i != k
    ensures width * i + width <= width * k || width * k + width <= width * i
  {
    if i < k {
      assert width * (i + 1) <= width * k;
    } else {
      assert width * (k + 1) <= width * i;
    }
  }
}
