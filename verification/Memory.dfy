/** Laws of the byte memory: what a store changes and what a load sees. */
module Memory {
  import opened Machine

  lemma NextAddr(b: Word, o: int)
    ensures Next(Addr(b, o)) == Addr(b, o + 1)
  {
    assert (b + o) % M64 + 1 == b + o + 1 - M64 * ((b + o) / M64);
  }

  lemma AddrInjective(b: Word, o: int, o': int)
    requires Addr(b, o) == Addr(b, o') && -M64 < o - o' < M64
    ensures o == o'
  {
    var q, q' := (b + o) / M64, (b + o') / M64;
    assert o - o' == M64 * (q - q');
  }

  lemma {:induction false} InRange(b: Word, o: int, n: nat, a: Word)
    ensures a in Range(Addr(b, o), n) <==> exists j :: o <= j < o + n && a == Addr(b, j)
    decreases n
  {
    if n > 0 {
      NextAddr(b, o);
      InRange(b, o + 1, n - 1, a);
    }
  }

  lemma {:induction false} StoreFrame(m: Mem, a: Word, n: nat, v: nat, x: Word)
    requires x !in Range(a, n)
    ensures ByteAt(Store(m, a, n, v), x) == ByteAt(m, x)
    decreases n
  {
    if n > 0 { StoreFrame(m[a := v % 256], Next(a), n - 1, v / 256, x); }
  }

  lemma {:induction false} LoadAgree(m: Mem, m': Mem, a: Word, n: nat)
    requires forall x | x in Range(a, n) :: ByteAt(m, x) == ByteAt(m', x)
    ensures Load(m, a, n) == Load(m', a, n)
    decreases n
  {
    if n > 0 { LoadAgree(m, m', Next(a), n - 1); }
  }

  lemma {:induction false} StoreAgree(m: Mem, m': Mem, a: Word, n: nat, v: nat, g: set<Word>)
    requires AgreeOff(m, m', g)
    ensures AgreeOff(Store(m, a, n, v), Store(m', a, n, v), g)
    decreases n
  {
    if n > 0 { StoreAgree(m[a := v % 256], m'[a := v % 256], Next(a), n - 1, v / 256, g); }
  }

  /** A load sees what the same-sized store wrote. */
  lemma {:induction false} LoadStore(m: Mem, b: Word, o: int, n: nat, v: nat)
    requires v < Pow256(n) && n < M64
    ensures Load(Store(m, Addr(b, o), n, v), Addr(b, o), n) == v
    decreases n
  {
    if n > 0 {
      var a := Addr(b, o);
      NextAddr(b, o);
      LoadStore(m[a := v % 256], b, o + 1, n - 1, v / 256);
      if a in Range(Next(a), n - 1) {
        InRange(b, o + 1, n - 1, a);
        var j :| o + 1 <= j < o + n && a == Addr(b, j);
        AddrInjective(b, o, j);
      }
      StoreFrame(m[a := v % 256], Next(a), n - 1, v / 256, a);
    }
  }

  /** What a store writes does not depend on what was there. */
  lemma {:induction false} StoreCovers(m: Mem, m': Mem, a: Word, n: nat, v: nat, x: Word)
    requires x in Range(a, n)
    ensures ByteAt(Store(m, a, n, v), x) == ByteAt(Store(m', a, n, v), x)
    decreases n
  {
    if x in Range(Next(a), n - 1) {
      StoreCovers(m[a := v % 256], m'[a := v % 256], Next(a), n - 1, v / 256, x);
    } else {
      StoreFrame(m[a := v % 256], Next(a), n - 1, v / 256, x);
      StoreFrame(m'[a := v % 256], Next(a), n - 1, v / 256, x);
    }
  }

  function Zeros(n: nat): (s: seq<Byte>)
    ensures |s| == n && forall i | 0 <= i < n :: s[i] == 0
  {
    seq(n, _ => 0)
  }

  // ----- single bytes of a word -----

  /** Byte j of v, the lowest being byte 0. */
  function ByteOf(v: nat, j: nat): Byte {
    if j == 0 then v % 256 else ByteOf(v / 256, j - 1)
  }

  lemma {:induction false} StoreByte(m: Mem, b: Word, o: int, n: nat, v: nat, j: nat)
    requires j < n < 0x1_0000_0000
    ensures ByteAt(Store(m, Addr(b, o), n, v), Addr(b, o + j)) == ByteOf(v, j)
    decreases n
  {
    var a := Addr(b, o);
    NextAddr(b, o);
    if j == 0 {
      InRange(b, o + 1, n - 1, a);
      if a in Range(Next(a), n - 1) {
        var i :| o + 1 <= i < o + n && a == Addr(b, i);
        AddrInjective(b, o, i);
      }
      StoreFrame(m[a := v % 256], Next(a), n - 1, v / 256, a);
    } else {
      StoreByte(m[a := v % 256], b, o + 1, n - 1, v / 256, j - 1);
    }
  }

  lemma {:induction false} LoadByte(m: Mem, b: Word, o: int, n: nat, j: nat)
    requires j < n
    ensures ByteOf(Load(m, Addr(b, o), n), j) == ByteAt(m, Addr(b, o + j))
    decreases n
  {
    NextAddr(b, o);
    if j > 0 { LoadByte(m, b, o + 1, n - 1, j - 1); }
  }

  lemma {:induction false} LoadZeros(m: Mem, fp: Word, o: int, n: nat)
    requires forall j | o <= j < o + n :: ByteAt(m, Addr(fp, j)) == 0
    ensures Load(m, Addr(fp, o), n) == 0
    decreases n
  {
    if n > 0 {
      NextAddr(fp, o);
      LoadZeros(m, fp, o + 1, n - 1);
    }
  }
}
