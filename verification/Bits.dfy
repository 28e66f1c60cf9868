/** Words of 64 bits: what their operators do to each bit. */
module Bits {
  import opened Ir
  import opened Machine
  import opened Script

  const BITS: nat := 64

  /** Bit i of w. */
  predicate Bit(w: nat, i: nat) {
    if i == 0 then w % 2 == 1 else Bit(w / 2, i - 1)
  }

  lemma {:induction false} BitwiseBit(op: AluOp, x: nat, y: nat, n: nat, i: nat)
    requires i < n
    ensures Bit(Bitwise(op, x, y, n), i) == (BitOf(op, if Bit(x, i) then 1 else 0, if Bit(y, i) then 1 else 0) == 1)
    decreases n
  {
    if i > 0 { BitwiseBit(op, x / 2, y / 2, n - 1, i - 1); }
  }

  /** Units and idempotence of the bit operators. */
  lemma BitUnits(x: nat, n: nat)
    requires x < Pow2(n)
    ensures Bitwise(And, x, Pow2(n) - 1, n) == Bitwise(And, Pow2(n) - 1, x, n) == Bitwise(And, x, x, n) == x
    ensures Bitwise(Or, x, 0, n) == Bitwise(Or, 0, x, n) == Bitwise(Or, x, x, n) == x
    ensures Bitwise(Xor, x, 0, n) == Bitwise(Xor, 0, x, n) == x && Bitwise(Xor, x, x, n) == 0
  {
    AndUnits(x, n);
    OrUnits(x, n);
    XorUnits(x, n);
  }

  lemma {:induction false} AndUnits(x: nat, n: nat)
    requires x < Pow2(n)
    ensures Bitwise(And, x, Pow2(n) - 1, n) == Bitwise(And, Pow2(n) - 1, x, n) == Bitwise(And, x, x, n) == x
    decreases n
  {
    if n > 0 {
      AndUnits(x / 2, n - 1);
      assert (Pow2(n) - 1) % 2 == 1 && (Pow2(n) - 1) / 2 == Pow2(n - 1) - 1;
    }
  }

  lemma {:induction false} OrUnits(x: nat, n: nat)
    requires x < Pow2(n)
    ensures Bitwise(Or, x, 0, n) == Bitwise(Or, 0, x, n) == Bitwise(Or, x, x, n) == x
    decreases n
  {
    if n > 0 { OrUnits(x / 2, n - 1); }
  }

  lemma {:induction false} XorUnits(x: nat, n: nat)
    requires x < Pow2(n)
    ensures Bitwise(Xor, x, 0, n) == Bitwise(Xor, 0, x, n) == x && Bitwise(Xor, x, x, n) == 0
    decreases n
  {
    if n > 0 { XorUnits(x / 2, n - 1); }
  }

  /** Ones throughout, but for x: the complement. */
  lemma {:induction false} FlippedBit(x: nat, n: nat, i: nat)
    requires x < Pow2(n) && i < n
    ensures Bit(Pow2(n) - 1 - x, i) == !Bit(x, i)
    decreases n
  {
    if i > 0 {
      assert (Pow2(n) - 1 - x) / 2 == Pow2(n - 1) - 1 - x / 2;
      FlippedBit(x / 2, n - 1, i - 1);
    }
  }

  lemma {:induction false} PowerBit(k: nat, i: nat)
    ensures Bit(Pow2(k), i) == (i == k)
    decreases k
  {
    if i > 0 {
      if k > 0 { PowerBit(k - 1, i - 1); } else { ZeroBit(i - 1); }
    }
  }

  lemma {:induction false} ZeroBit(i: nat)
    ensures !Bit(0, i)
  {
    if i > 0 { ZeroBit(i - 1); }
  }

  lemma {:induction false} PowerGrows(o: nat, n: nat)
    requires o <= n
    ensures Pow2(o) <= Pow2(n)
    decreases n
  {
    if o < n { PowerGrows(o, n - 1); }
  }

  /** Ones from bit o on. */
  lemma {:induction false} HighBits(o: nat, n: nat, i: nat)
    requires o <= n && i < n
    ensures Pow2(o) <= Pow2(n) && Bit(Pow2(n) - Pow2(o), i) == (o <= i)
    decreases n
  {
    PowerGrows(o, n);
    if o == 0 {
      ZeroBit(i);
      FlippedBit(0, n, i);
    } else if i > 0 {
      HighBits(o - 1, n - 1, i - 1);
      assert (Pow2(n) - Pow2(o)) / 2 == Pow2(n - 1) - Pow2(o - 1);
    }
  }

  /** A word without bits is zero. */
  lemma {:induction false} SomeBit(w: nat, n: nat) returns (i: nat)
    requires 0 < w < Pow2(n)
    ensures i < n && Bit(w, i)
    decreases n
  {
    if w % 2 == 1 {
      i := 0;
    } else {
      var k := SomeBit(w / 2, n - 1);
      i := k + 1;
    }
  }

  // ----- words -----

  function NotW(x: Word): Word {
    M64 - 1 - x
  }

  function AndW(x: Word, y: Word): Word {
    WordBits(And, x, y)
  }

  function OrW(x: Word, y: Word): Word {
    WordBits(Or, x, y)
  }

  function Power(i: nat): Word
    requires i < BITS
  {
    PowerGrows(i, 63);
    Pow2Is64(64);
    Pow2(i)
  }

  /** All ones, shifted left by o. */
  function OnesFrom(o: nat): Word
    requires o < BITS
  {
    PowerGrows(o, 63);
    Pow2Is64(64);
    M64 - Pow2(o)
  }

  lemma WordOps(x: Word, y: Word, i: nat)
    requires i < BITS
    ensures Bit(AndW(x, y), i) == (Bit(x, i) && Bit(y, i))
    ensures Bit(OrW(x, y), i) == (Bit(x, i) || Bit(y, i))
    ensures Bit(NotW(x), i) == !Bit(x, i)
  {
    BitwiseBit(And, x, y, 64, i);
    BitwiseBit(Or, x, y, 64, i);
    Pow2Is64(64);
    FlippedBit(x, 64, i);
  }

  lemma WordMasks(k: nat, i: nat)
    requires k < BITS && i < BITS
    ensures Bit(Power(k), i) == (i == k)
    ensures Bit(OnesFrom(k), i) == (k <= i)
  {
    PowerBit(k, i);
    Pow2Is64(64);
    HighBits(k, 64, i);
  }

  /** __builtin_ctzl. */
  function Ctz(w: nat): nat
    requires w > 0
  {
    if w % 2 == 1 then 0 else 1 + Ctz(w / 2)
  }

  /** The lowest bit set. */
  lemma {:induction false} CtzIs(w: nat, n: nat)
    requires 0 < w < Pow2(n)
    ensures Ctz(w) < n && Bit(w, Ctz(w)) && forall j: nat | j < Ctz(w) :: !Bit(w, j)
    decreases n
  {
    if w % 2 == 0 { CtzIs(w / 2, n - 1); }
  }

  lemma CtzWord(w: Word)
    requires w > 0
    ensures Ctz(w) < BITS && Bit(w, Ctz(w)) && forall j: nat | j < Ctz(w) :: !Bit(w, j)
  {
    Pow2Is64(64);
    CtzIs(w, 64);
  }

  lemma WordBit(w: Word) returns (i: nat)
    requires w > 0
    ensures i < BITS && Bit(w, i)
  {
    Pow2Is64(64);
    i := SomeBit(w, 64);
  }
}
