/** Division and remainder: the script's are signed and truncate toward zero, and
    fail for a zero divisor; the machine's are unsigned and always give a value.
    Exactly when they agree, and that a script all of whose divisions do has the
    value its compiled form has. */
module Division {
  import opened Ir
  import opened Machine
  import opened Arithmetic
  import opened Script

  /** Signed quotient and remainder, rounded toward zero. */
  function Quotient(x: int, y: int): int
    requires y != 0
  {
    if x >= 0 && y > 0 then x / y
    else if x >= 0 then -(x / -y)
    else if y > 0 then -(-x / y)
    else -x / -y
  }

  function Remainder(x: int, y: int): int
    requires y != 0
  {
    if x >= 0 && y > 0 then x % y
    else if x >= 0 then x % -y
    else if y > 0 then -(-x % y)
    else -(-x % -y)
  }

  function Abs(x: int): nat {
    if x < 0 then -x else x
  }

  /** The law of C that defines the two: the remainder is smaller than the divisor
      and has the sign of the dividend. */
  predicate Splits(x: int, y: int, q: int, r: int) {
    x == y * q + r && Abs(r) < Abs(y) && (r == 0 || (r < 0 <==> x < 0))
  }

  lemma QuotientFits(x: int, y: int)
    requires y != 0
    ensures Splits(x, y, Quotient(x, y), Remainder(x, y))
  {
    var q, r := Divide(Abs(x), Abs(y));
    Signs(y, q);
  }

  lemma SplitsAbs(x: int, y: int, q: int, r: int)
    requires y != 0 && Splits(x, y, q, r)
    ensures Abs(x) / Abs(y) == (if x < 0 <==> y < 0 then q else -q) && Abs(x) % Abs(y) == Abs(r)
  {
    var p := if x < 0 <==> y < 0 then q else -q;
    Signs(y, q);
    assert Abs(x) == Abs(y) * p + Abs(r);
    ModIs(Abs(x), Abs(y), p, Abs(r));
  }

  /** The law has one solution, and the two are it. */
  lemma QuotientSplits(x: int, y: int, q: int, r: int)
    requires y != 0
    ensures Splits(x, y, q, r) <==> q == Quotient(x, y) && r == Remainder(x, y)
  {
    QuotientFits(x, y);
    if Splits(x, y, q, r) {
      SplitsAbs(x, y, q, r);
      SplitsAbs(x, y, Quotient(x, y), Remainder(x, y));
    }
  }

  lemma Signs(y: int, q: int)
    ensures -y * q == -(y * q) && y * -q == -(y * q)
  {
  }

  predicate DivAgrees(x: int, y: int) {
    (x >= 0 && y > 0) || y == 1 || (x >= 0 && y < 0 && x < -y) || x == y
  }

  predicate ModAgrees(x: int, y: int)
    requires y != 0
  {
    (x >= 0 && y > 0) || (x < 0 && y > 0 && -x % y == 0 && M64 % y == 0) || (x >= 0 && y < 0 && x < -y) || x == y
  }

  lemma SmallQuotient(x: nat, y: nat)
    requires x < y
    ensures x / y == 0 && x % y == x
  {
    ModIs(x, y, 0, x);
  }

  lemma OnceQuotient(x: nat, y: nat)
    requires 0 < y <= x < 2 * y
    ensures x / y == 1 && x % y == x - y
  {
    ModIs(x, y, 1, x - y);
  }

  /** Quotient and remainder, as numbers. */
  lemma Divide(x: nat, y: nat) returns (q: nat, r: nat)
    requires y > 0
    ensures q == x / y && r == x % y && x == y * q + r && r < y && q <= x && (x >= y ==> q > 0)
  {
    q, r := x / y, x % y;
    QuotientBound(x, y);
    assert x == y * q + r;
    if q == 0 { assert y * q == 0; }
  }

  lemma TwiceQuotient(x: nat, y: nat, q: nat, r: nat)
    requires y > 1 && x == y * q + r
    ensures 2 * q <= x
  {
    Monotone(q, 2, y);
    assert q * y == y * q;
  }

  /** A negative number by a positive one: the unsigned quotient is below 2^63, the
      signed one above it or zero. */
  lemma NegativeByPositive(a: nat, y: nat)
    requires 0 < a <= 0x8000_0000_0000_0000 && 1 < y < 0x8000_0000_0000_0000
    ensures (M64 - a) / y != Wrap(-(a / y))
  {
    var q, r := Divide(a, y);
    var u, t := Divide(M64 - a, y);
    TwiceQuotient(a, y, q, r);
    TwiceQuotient(M64 - a, y, u, t);
    Wraps(q);
  }

  lemma Wraps(q: nat)
    requires q < M64
    ensures Wrap(0 - q) == if q == 0 then 0 else M64 - q
  {
  }

  lemma PositiveByNegative(x: nat, b: nat)
    requires x < 0x8000_0000_0000_0000 && 0 < b <= 0x8000_0000_0000_0000
    ensures x / (M64 - b) == 0 && x % (M64 - b) == x && (Wrap(-(x / b)) == 0 <==> x < b) && (x % b == x <==> x < b)
  {
    SmallQuotient(x, M64 - b);
    var q, r := Divide(x, b);
    Wraps(q);
    if x < b { SmallQuotient(x, b); }
  }

  lemma BothNegative(a: nat, b: nat)
    requires 0 < a <= 0x8000_0000_0000_0000 && 0 < b <= 0x8000_0000_0000_0000
    ensures (M64 - a) / (M64 - b) == Wrap(a / b) <==> a == b
    ensures (M64 - a) % (M64 - b) == Wrap(-(a % b)) <==> a == b
  {
    var q, r := Divide(a, b);
    Wraps(r);
    if a < b {
      SmallQuotient(a, b);
      OnceQuotient(M64 - a, M64 - b);
    } else if a == b {
      OnceQuotient(a, b);
      OnceQuotient(M64 - a, M64 - b);
    } else {
      SmallQuotient(M64 - a, M64 - b);
    }
  }

  lemma WholeRemainder(a: nat, y: nat, q: nat)
    requires y > 0 && a == y * q && a <= M64
    ensures (M64 - a) % y == M64 % y
  {
    var k, m := Divide(M64, y);
    Difference(y, k, q);
    ModIs(M64 - a, y, k - q, m);
  }

  lemma Difference(y: int, k: int, q: int)
    ensures y * (k - q) == y * k - y * q
  {
  }

  lemma NegativeRemainder(a: nat, y: nat)
    requires 0 < a <= 0x8000_0000_0000_0000 && 0 < y < 0x8000_0000_0000_0000
    ensures (M64 - a) % y == Wrap(-(a % y)) <==> a % y == 0 && M64 % y == 0
  {
    var q, r := Divide(a, y);
    var u, t := Divide(M64 - a, y);
    Wraps(r);
    if r == 0 { WholeRemainder(a, y, q); }
  }

  lemma WrapSigned(x: int)
    requires FitsInt64(x)
    ensures Wrap(x) == if x >= 0 then x else M64 + x
  {
  }

  lemma PositiveAgree(x: nat, y: nat)
    requires FitsInt64(x) && FitsInt64(y) && y > 0
    ensures Wrap(x / y) == x / y && Wrap(x % y) == x % y
  {
    var q, r := Divide(x, y);
  }

  lemma DivIff(x: int, y: int)
    requires FitsInt64(x) && FitsInt64(y) && y != 0
    ensures Wrap(y) != 0 && (Wrap(x) / Wrap(y) == Wrap(Quotient(x, y)) <==> DivAgrees(x, y))
  {
    WrapSigned(x);
    WrapSigned(y);
    if x >= 0 && y > 0 {
      PositiveAgree(x, y);
    } else if x >= 0 {
      PositiveByNegative(x, -y);
    } else if y > 1 {
      NegativeByPositive(-x, y);
    } else if y < 0 {
      BothNegative(-x, -y);
    }
  }

  lemma ModIff(x: int, y: int)
    requires FitsInt64(x) && FitsInt64(y) && y != 0
    ensures Wrap(y) != 0 && (Wrap(x) % Wrap(y) == Wrap(Remainder(x, y)) <==> ModAgrees(x, y))
  {
    WrapSigned(x);
    WrapSigned(y);
    if x >= 0 && y > 0 {
      PositiveAgree(x, y);
    } else if x >= 0 {
      PositiveByNegative(x, -y);
      SmallWrap(x % -y);
    } else if y > 0 {
      NegativeRemainder(-x, y);
    } else {
      BothNegative(-x, -y);
    }
  }

  lemma SmallWrap(r: nat)
    requires r < M64
    ensures Wrap(r) == r
  {
  }

  // ----- what the script language means -----

  /** The value of an operator, if it has one: division by zero is an error. */
  function Meant(op: BinOp, x: Int64, y: Int64): Option<Int64> {
    match op
    case DividedBy => if y == 0 then None else Some(ToInt64(Quotient(x, y)))
    case Modulo => if y == 0 then None else Some(ToInt64(Remainder(x, y)))
    case _ => Some(Apply(op, x, y))
  }

  /** The operands for which the machine does what is meant. */
  predicate Agrees(op: BinOp, x: Int64, y: Int64) {
    match op
    case DividedBy => y != 0 && DivAgrees(x, y)
    case Modulo => y != 0 && ModAgrees(x, y)
    case _ => true
  }

  lemma WordsAgree(i: int, w: Word)
    ensures ToInt64(i) == Signed(w) <==> w == Wrap(i)
  {
    SignedWraps(ToInt64(i), w, i);
  }

  /** BPF_DIV gives the script's quotient exactly for these operands; it gives
      zero where the script has no value. */
  lemma DivisionAgreesIff(sem: Sem, x: Int64, y: Int64)
    requires Standard(sem)
    ensures Meant(DividedBy, x, y) == Some(Signed(sem.alu(Div, Wrap(x), Wrap(y)))) <==> Agrees(DividedBy, x, y)
    ensures y == 0 ==> sem.alu(Div, Wrap(x), Wrap(y)) == 0
  {
    WrapSigned(y);
    if y != 0 {
      DivIff(x, y);
      WordsAgree(Quotient(x, y), AluMeaning(Div, Wrap(x), Wrap(y)));
    }
  }

  /** And BPF_MOD the script's remainder exactly for these; it gives the dividend
      where the script has no value. */
  lemma RemainderAgreesIff(sem: Sem, x: Int64, y: Int64)
    requires Standard(sem)
    ensures Meant(Modulo, x, y) == Some(Signed(sem.alu(Mod, Wrap(x), Wrap(y)))) <==> Agrees(Modulo, x, y)
    ensures y == 0 ==> sem.alu(Mod, Wrap(x), Wrap(y)) == Wrap(x)
  {
    WrapSigned(y);
    if y != 0 {
      ModIff(x, y);
      WordsAgree(Remainder(x, y), AluMeaning(Mod, Wrap(x), Wrap(y)));
    }
  }

  lemma OperatorMeans(op: BinOp, x: Int64, y: Int64)
    ensures Meant(op, x, y) == Some(Apply(op, x, y)) <==> Agrees(op, x, y)
  {
    if op.DividedBy? || op.Modulo? {
      WrapSigned(y);
      if y != 0 {
        DivIff(x, y);
        ModIff(x, y);
        WordsAgree(Quotient(x, y), AluMeaning(Div, Wrap(x), Wrap(y)));
        WordsAgree(Remainder(x, y), AluMeaning(Mod, Wrap(x), Wrap(y)));
      }
    }
  }

  /** The second operand of || and && counts only where the first does not decide. */
  function Either(x: Option<Int64>, y: Option<Int64>): Option<Int64> {
    if x.None? then None else if x.value != 0 then Some(1) else if y.Some? then Some(Truth(y.value != 0)) else None
  }

  function Both(x: Option<Int64>, y: Option<Int64>): Option<Int64> {
    if x.None? then None else if x.value == 0 then Some(0) else if y.Some? then Some(Truth(y.value != 0)) else None
  }

  /** The value of an expression, if no division by zero is come to. */
  function MeantValue(e: Expr, m: RegFile): Option<Int64> {
    match e
    case Lit(i) => Some(ToInt64(i))
    case Local(r) => Some(Signed(Get(m, r)))
    case Bin(op, l, r) =>
      var x, y := MeantValue(l, m), MeantValue(r, m);
      if x.Some? && y.Some? then Meant(op, x.value, y.value) else None
    case Negate(a) => var x := MeantValue(a, m); if x.Some? then Some(ToInt64(-(x.value as int))) else None
    case Complement(a) => var x := MeantValue(a, m); if x.Some? then Some(ToInt64(-(x.value as int) - 1)) else None
    case Not(a) => var x := MeantValue(a, m); if x.Some? then Some(Truth(x.value == 0)) else None
    case UnaryPlus(a) => MeantValue(a, m)
    case LogicalOr(l, r) => Either(MeantValue(l, m), MeantValue(r, m))
    case LogicalAnd(l, r) => Both(MeantValue(l, m), MeantValue(r, m))
    case Compare(c, l, r) =>
      var x, y := MeantValue(l, m), MeantValue(r, m);
      if x.Some? && y.Some? then Some(Truth(Compares(c, x.value, y.value))) else None
    case Ternary(c, y, n) =>
      var x := MeantValue(c, m);
      if x.None? then None else if x.value != 0 then MeantValue(y, m) else MeantValue(n, m)
  }

  /** Every division come to has operands for which the machine is right. */
  predicate Divides(e: Expr, m: RegFile) {
    match e
    case Lit(_) => true
    case Local(_) => true
    case Bin(op, l, r) => Divides(l, m) && Divides(r, m) && Agrees(op, Eval(l, m), Eval(r, m))
    case Negate(a) => Divides(a, m)
    case Complement(a) => Divides(a, m)
    case Not(a) => Divides(a, m)
    case UnaryPlus(a) => Divides(a, m)
    case LogicalOr(l, r) => Divides(l, m) && (Eval(l, m) != 0 || Divides(r, m))
    case LogicalAnd(l, r) => Divides(l, m) && (Eval(l, m) == 0 || Divides(r, m))
    case Compare(_, l, r) => Divides(l, m) && Divides(r, m)
    case Ternary(c, y, n) => Divides(c, m) && if Eval(c, m) != 0 then Divides(y, m) else Divides(n, m)
  }

  /** Then the compiled expression has the value the script means. */
  lemma {:induction false} ValueIs(e: Expr, m: RegFile)
    requires Divides(e, m)
    ensures MeantValue(e, m) == Some(Eval(e, m))
    decreases e
  {
    match e
    case Lit(_) =>
    case Local(_) =>
    case Bin(op, l, r) => ValueIs(l, m); ValueIs(r, m); OperatorMeans(op, Eval(l, m), Eval(r, m));
    case Negate(a) => ValueIs(a, m);
    case Complement(a) => ValueIs(a, m);
    case Not(a) => ValueIs(a, m);
    case UnaryPlus(a) => ValueIs(a, m);
    case LogicalOr(l, r) => ValueIs(l, m); if Eval(l, m) == 0 { ValueIs(r, m); }
    case LogicalAnd(l, r) => ValueIs(l, m); if Eval(l, m) != 0 { ValueIs(r, m); }
    case Compare(_, l, r) => ValueIs(l, m); ValueIs(r, m);
    case Ternary(c, y, n) => ValueIs(c, m); if Eval(c, m) != 0 { ValueIs(y, m); } else { ValueIs(n, m); }
  }

  /** The variables after a statement, if no division by zero is come to. */
  function MeantAfter(st: Stmt, m: RegFile): Option<RegFile> {
    match st
    case Skip => Some(m)
    case Assign(r, e) => var x := MeantValue(e, m); if x.Some? then Some(m[r := Wrap(x.value)]) else None
    case Update(op, r, e) =>
      var y := MeantValue(e, m);
      var x := if y.Some? then Meant(op, Signed(Get(m, r)), y.value) else None;
      if x.Some? then Some(m[r := Wrap(x.value)]) else None
    case Seq(a, b) => var m' := MeantAfter(a, m); if m'.Some? then MeantAfter(b, m'.value) else None
    case If(c, y, n) => var x := MeantValue(c, m);
      if x.None? then None else if x.value != 0 then MeantAfter(y, m) else MeantAfter(n, m)
    case When(c, y) => var x := MeantValue(c, m);
      if x.None? then None else if x.value != 0 then MeantAfter(y, m) else Some(m)
  }

  predicate DividesStmt(st: Stmt, m: RegFile) {
    match st
    case Skip => true
    case Assign(_, e) => Divides(e, m)
    case Update(op, r, e) => Divides(e, m) && Agrees(op, Signed(Get(m, r)), Eval(e, m))
    case Seq(a, b) => DividesStmt(a, m) && DividesStmt(b, Perform(a, m))
    case If(c, y, n) => Divides(c, m) && if Eval(c, m) != 0 then DividesStmt(y, m) else DividesStmt(n, m)
    case When(c, y) => Divides(c, m) && (Eval(c, m) != 0 ==> DividesStmt(y, m))
  }

  /** And the compiled statement does what the script means. */
  lemma {:induction false} AfterIs(st: Stmt, m: RegFile)
    requires DividesStmt(st, m)
    ensures MeantAfter(st, m) == Some(Perform(st, m))
    decreases st
  {
    match st
    case Skip =>
    case Assign(_, e) => ValueIs(e, m);
    case Update(op, r, e) => ValueIs(e, m); OperatorMeans(op, Signed(Get(m, r)), Eval(e, m));
    case Seq(a, b) => AfterIs(a, m); AfterIs(b, Perform(a, m));
    case If(c, y, n) => ValueIs(c, m); if Eval(c, m) != 0 { AfterIs(y, m); } else { AfterIs(n, m); }
    case When(c, y) => ValueIs(c, m); if Eval(c, m) != 0 { AfterIs(y, m); }
  }
}
