/** For which left operands an operator with a wide literal on its right gives back
    the left operand. */
module IdleOperators {
  import opened Ir
  import opened Machine
  import opened Arithmetic
  import opened Script
  import opened Bits

  /** Every bit of a is one of b. */
  ghost predicate Within(a: Word, b: Word) {
    forall i: nat | i < BITS && Bit(a, i) :: Bit(b, i)
  }

  /** w op k is w, for a k that does not fit 32 bits: never for +, - and ^; for the
      others only these w. */
  ghost predicate Idle(op: BinOp, w: Word, k: int) {
    match op
    case Plus => false
    case Minus => false
    case BitXor => false
    case Times => w * (k - 1) % M64 == 0
    case BitAnd => Within(w, Wrap(k))
    case BitOr => Within(Wrap(k), w)
    case ShiftLeft => k % 64 == 0 || w == 0
    case ShiftRight => k % 64 == 0 || w == 0 || Signed(w) == -1
    case ShiftRightLogical => k % 64 == 0 || w == 0
    case DividedBy => w == 0
    case Modulo => w < Wrap(k)
  }

  // ----- sums, products and quotients -----

  lemma WideWord(k: int)
    requires FitsInt64(k) && !FitsInt32(k)
    ensures Wrap(k) > 1
  {
  }

  lemma SumIdle(w: Word, c: Word)
    requires c > 0
    ensures Wrap(w as int + c) != w && Wrap(w as int - c) != w
  {
  }

  /** a wraps to w where they differ by a multiple of 2^64. */
  lemma WrapsTo(a: int, w: Word)
    ensures Wrap(a) == w <==> (a - w) % M64 == 0
  {
    if (a - w) % M64 == 0 {
      var q := (a - w) / M64;
      assert a == w + M64 * q;
      WrapShift(a, w, q);
    } else if Wrap(a) == w {
      var q := a / M64;
      assert a - w == M64 * q;
      WrapShift(a - w, 0, q);
    }
  }

  lemma TimesLess(w: int, k: int)
    ensures w * k - w == w * (k - 1)
  {
  }

  lemma TimesIdle(w: Word, k: int)
    ensures Wrap(w * Wrap(k)) == w <==> w * (k - 1) % M64 == 0
  {
    WrapTimes(k, w);
    MulCommutes(w, k);
    MulCommutes(w, Wrap(k));
    WrapsTo(w * k, w);
    TimesLess(w, k);
  }

  lemma QuotientIdle(w: nat, c: nat)
    requires c > 1
    ensures w / c == w <==> w == 0
    ensures w % c == w <==> w < c
  {
    if w < c { ModIs(w, c, 0, w); }
    if w / c == w {
      assert w == c * (w / c) + w % c;
      Monotone(w, 2, c);
      MulCommutes(w, c);
    }
  }

  // ----- shifts -----

  lemma ShiftPower(s: nat)
    requires s > 0
    ensures Pow2(s) > 1 && (Pow2(s) - 1) % 2 == 1
  {
  }

  lemma OddProduct(x: int, c: int)
    requires c % 2 == 1 && x % 2 == 1
    ensures x * c % 2 == 1
  {
    var y, d := x / 2, c / 2;
    assert x * c == (2 * y + 1) * (2 * d + 1) == 2 * (2 * y * d + y + d) + 1;
  }

  lemma HalfProduct(x: int, y: int, c: int, p: int, q: int)
    requires x == 2 * y && x * c == 2 * p * q
    ensures y * c == p * q
  {
    assert x * c == 2 * (y * c);
    assert 2 * p * q == 2 * (p * q);
  }

  /** An odd factor does not help a product to be a multiple of a power of two. */
  lemma {:induction false} OddMultiple(x: int, c: int, n: nat, q: int)
    requires c % 2 == 1 && x * c == Pow2(n) * q
    ensures x % Pow2(n) == 0
    decreases n
  {
    if n > 0 {
      var p := Pow2(n - 1);
      EvenProduct(p, q);
      if x % 2 == 1 { OddProduct(x, c); }
      HalfProduct(x, x / 2, c, p, q);
      OddMultiple(x / 2, c, n - 1, q);
      TwiceMultiple(x / 2, p);
    }
  }

  lemma EvenProduct(p: int, q: int)
    ensures 2 * p * q % 2 == 0
  {
    assert 2 * p * q == 2 * (p * q);
  }

  lemma TwiceMultiple(y: int, p: nat)
    requires p > 0 && y % p == 0
    ensures 2 * y % (2 * p) == 0
  {
    var q := y / p;
    assert 2 * y == (2 * p) * q;
    ModIs(2 * y, 2 * p, q, 0);
  }

  lemma OddZero(w: Word, c: int, n: nat, q: int)
    requires c % 2 == 1 && n == 64 && w * c == M64 * q
    ensures w == 0
  {
    Pow2Is64(n);
    OddMultiple(w, c, n, q);
  }

  lemma MultipleOf(a: int) returns (q: int)
    requires a % M64 == 0
    ensures a == M64 * q
  {
    q := a / M64;
  }

  lemma LeftIdle(w: Word, s: nat, p: nat)
    requires p == Pow2(s)
    ensures Wrap(w * p) == w <==> s == 0 || w == 0
  {
    WrapsTo(w * p, w);
    TimesLess(w, p);
    if s > 0 && w * (p - 1) % M64 == 0 {
      var q := MultipleOf(w * (p - 1));
      ShiftPower(s);
      OddZero(w, p - 1, 64, q);
    }
  }

  lemma LessOne(p: int, q: int)
    ensures (p - 1) * (q + 1) == p * q + p - q - 1
  {
  }

  lemma NegativeFloor(x: int, p: nat, q: int, r: int)
    requires p > 1 && x < 0 && x == p * q + r && 0 <= r < p
    ensures x <= q < 0 && (x == q <==> x == -1)
  {
    if q >= 0 { Monotone(p, 0, q); }
    LessOne(p, q);
    if q < -1 {
      Scale(p - 1, -q - 1);
      assert (p - 1) * (q + 1) == -((p - 1) * (-q - 1));
    }
  }

  lemma FloorIdle(x: int, p: nat)
    requires p > 1
    ensures x / p == x <==> x == 0 || x == -1
    ensures x >= 0 ==> 0 <= x / p <= x
    ensures x < 0 ==> x <= x / p < 0
  {
    if x >= 0 {
      QuotientBound(x, p);
      QuotientIdle(x, p);
    } else {
      NegativeFloor(x, p, x / p, x % p);
    }
  }

  lemma RightIdle(w: Word, s: nat)
    ensures Wrap(Signed(w) / Pow2(s)) == w <==> s == 0 || w == 0 || Signed(w) == -1
  {
    if s > 0 {
      ShiftPower(s);
      FloorIdle(Signed(w), Pow2(s));
      SignedWraps(Signed(w) / Pow2(s), w, 0);
    } else {
      SignedWraps(0, w, 0);
    }
  }

  lemma LogicalIdle(w: Word, s: nat)
    ensures Wrap(w / Pow2(s)) == w <==> s == 0 || w == 0
  {
    QuotientBound(w, Pow2(s));
    if s > 0 {
      ShiftPower(s);
      QuotientIdle(w, Pow2(s));
    }
  }

  // ----- bits -----

  lemma {:induction false} SameBits(x: nat, y: nat, n: nat)
    requires x < Pow2(n) && y < Pow2(n) && forall i: nat | i < n :: Bit(x, i) == Bit(y, i)
    ensures x == y
    decreases n
  {
    if n > 0 {
      assert Bit(x, 0) == Bit(y, 0);
      forall i: nat | i < n - 1 ensures Bit(x / 2, i) == Bit(y / 2, i) { assert Bit(x, i + 1) == Bit(y, i + 1); }
      SameBits(x / 2, y / 2, n - 1);
    }
  }

  /** The bit the operator leaves is the first operand's. */
  predicate KeepsBit(op: AluOp, a: bool, b: bool) {
    if op.And? then a ==> b else if op.Or? then b ==> a else !b
  }

  lemma BitIdle(op: AluOp, w: nat, c: nat, n: nat, i: nat)
    requires (op.And? || op.Or? || op.Xor?) && i < n
    ensures Bit(Bitwise(op, w, c, n), i) == Bit(w, i) <==> KeepsBit(op, Bit(w, i), Bit(c, i))
  {
    BitwiseBit(op, w, c, n, i);
  }

  ghost predicate KeepsBits(op: AluOp, w: nat, c: nat, n: nat) {
    forall i: nat | i < n :: KeepsBit(op, Bit(w, i), Bit(c, i))
  }

  lemma BitsIdle(op: AluOp, w: nat, c: nat, n: nat)
    requires (op.And? || op.Or? || op.Xor?) && w < Pow2(n)
    ensures Bitwise(op, w, c, n) == w <==> KeepsBits(op, w, c, n)
  {
    var z := Bitwise(op, w, c, n);
    BitwiseBound(op, w, c, n);
    if KeepsBits(op, w, c, n) {
      forall i: nat | i < n ensures Bit(z, i) == Bit(w, i) { BitIdle(op, w, c, n, i); }
      SameBits(z, w, n);
    } else {
      var i: nat :| i < n && !KeepsBit(op, Bit(w, i), Bit(c, i));
      BitIdle(op, w, c, n, i);
    }
  }

  lemma XorIdle(w: Word, c: Word)
    requires c > 0
    ensures WordBits(Xor, w, c) != w
  {
    Pow2Is64(64);
    BitsIdle(Xor, w, c, 64);
    var i := SomeBit(c, 64);
    assert !KeepsBit(Xor, Bit(w, i), Bit(c, i));
  }

  lemma AndIdle(w: Word, c: Word)
    ensures WordBits(And, w, c) == w <==> Within(w, c)
  {
    Pow2Is64(64);
    BitsIdle(And, w, c, 64);
    AndWithin(w, c, 64);
  }

  lemma AndWithin(w: Word, c: Word, n: nat)
    requires n == BITS
    ensures Within(w, c) <==> KeepsBits(And, w, c, n)
  {
    if Within(w, c) {
      forall i: nat | i < n ensures KeepsBit(And, Bit(w, i), Bit(c, i)) {}
    } else {
      var i: nat :| i < BITS && Bit(w, i) && !Bit(c, i);
      assert !KeepsBit(And, Bit(w, i), Bit(c, i));
    }
  }

  lemma OrIdle(w: Word, c: Word)
    ensures WordBits(Or, w, c) == w <==> Within(c, w)
  {
    Pow2Is64(64);
    BitsIdle(Or, w, c, 64);
    OrWithin(w, c, 64);
  }

  lemma OrWithin(w: Word, c: Word, n: nat)
    requires n == BITS
    ensures Within(c, w) <==> KeepsBits(Or, w, c, n)
  {
    if Within(c, w) {
      forall i: nat | i < n ensures KeepsBit(Or, Bit(w, i), Bit(c, i)) {}
    } else {
      var i: nat :| i < BITS && Bit(c, i) && !Bit(w, i);
      assert !KeepsBit(Or, Bit(w, i), Bit(c, i));
    }
  }

  /** Exactly for these left operands the machine gives them back. */
  lemma IdleIff(op: BinOp, w: Word, k: int)
    requires FitsInt64(k) && !FitsInt32(k)
    ensures AluMeaning(CodeOf(op), w, Wrap(k)) == w <==> Idle(op, w, k)
  {
    WideWord(k);
    match op
    case Plus => SumIdle(w, Wrap(k));
    case Minus => SumIdle(w, Wrap(k));
    case Times => TimesIdle(w, k);
    case BitAnd => AndIdle(w, Wrap(k));
    case BitOr => OrIdle(w, Wrap(k));
    case BitXor => XorIdle(w, Wrap(k));
    case ShiftLeft => WrapMod64(k); LeftIdle(w, k % 64, Pow2(k % 64));
    case ShiftRight => WrapMod64(k); RightIdle(w, k % 64);
    case ShiftRightLogical => WrapMod64(k); LogicalIdle(w, k % 64);
    case DividedBy => QuotientIdle(w, Wrap(k));
    case Modulo => QuotientIdle(w, Wrap(k));
  }
}
