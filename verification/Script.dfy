/** Integer expressions and loop-free statements of the script language, their
    meaning on 64-bit signed integers, and the arithmetic of the machine's ALU. */
module Script {
  import opened Ir
  import opened Machine
  import opened Arithmetic

  // ----- the language -----

  datatype BinOp =
    | Plus | Minus | Times | BitAnd | BitOr | BitXor
    | ShiftLeft | ShiftRight | ShiftRightLogical | DividedBy | Modulo

  datatype Comparison = Equal | NotEqual | Less | LessEqual | Greater | GreaterEqual

  datatype Expr =
    | Lit(i: int)
    | Local(r: nat) // the register that holds the variable
    | Bin(op: BinOp, left: Expr, right: Expr)
    | Negate(arg: Expr)
    | Complement(arg: Expr)
    | Not(arg: Expr)
    | UnaryPlus(arg: Expr)
    | LogicalOr(left: Expr, right: Expr)
    | LogicalAnd(left: Expr, right: Expr)
    | Compare(cmp: Comparison, left: Expr, right: Expr)
    | Ternary(cond: Expr, yes: Expr, no: Expr)

  /** Literals are 64-bit and variables live in allocated registers. */
  predicate WfExpr(e: Expr, nregs: nat) {
    match e
    case Lit(i) => FitsInt64(i)
    case Local(r) => r < nregs
    case Bin(_, l, r) => WfExpr(l, nregs) && WfExpr(r, nregs)
    case Negate(a) => WfExpr(a, nregs)
    case Complement(a) => WfExpr(a, nregs)
    case Not(a) => WfExpr(a, nregs)
    case UnaryPlus(a) => WfExpr(a, nregs)
    case LogicalOr(l, r) => WfExpr(l, nregs) && WfExpr(r, nregs)
    case LogicalAnd(l, r) => WfExpr(l, nregs) && WfExpr(r, nregs)
    case Compare(_, l, r) => WfExpr(l, nregs) && WfExpr(r, nregs)
    case Ternary(c, y, n) => WfExpr(c, nregs) && WfExpr(y, nregs) && WfExpr(n, nregs)
  }

  /** Statements without loops, calls or side effects but on local variables. */
  datatype Stmt =
    | Skip
    | Assign(r: nat, e: Expr)
    | Update(op: BinOp, r: nat, e: Expr) // +=, -= and the like
    | Seq(first: Stmt, second: Stmt)
    | If(cond: Expr, yes: Stmt, no: Stmt)
    | When(cond: Expr, yes: Stmt) // no else

  /** Variables live in allocated temporaries; there is no operator >>>=. */
  predicate WfStmt(s: Stmt, nregs: nat) {
    match s
    case Skip => true
    case Assign(r, e) => MAX_BPF_REG <= r < nregs && WfExpr(e, nregs)
    case Update(op, r, e) => !op.ShiftRightLogical? && MAX_BPF_REG <= r < nregs && WfExpr(e, nregs)
    case Seq(a, b) => WfStmt(a, nregs) && WfStmt(b, nregs)
    case If(c, y, n) => WfExpr(c, nregs) && WfStmt(y, nregs) && WfStmt(n, nregs)
    case When(c, y) => WfExpr(c, nregs) && WfStmt(y, nregs)
  }

  // ----- its meaning -----

  type Int64 = i: int | -0x8000_0000_0000_0000 <= i < 0x8000_0000_0000_0000

  /** The 64-bit signed integer congruent to i. */
  function ToInt64(i: int): Int64 {
    (i + 0x8000_0000_0000_0000) % M64 - 0x8000_0000_0000_0000
  }

  function Pow2(n: nat): (p: nat)
    ensures p > 0
  {
    if n == 0 then 1 else 2 * Pow2(n - 1)
  }

  /** The bit an operator makes of two bits. */
  function BitOf(op: AluOp, a: nat, b: nat): nat {
    match op
    case And => if a == 1 && b == 1 then 1 else 0
    case Or => if a == 1 || b == 1 then 1 else 0
    case _ => if a != b then 1 else 0
  }

  /** Bit by bit, over n bits. */
  function Bitwise(op: AluOp, x: nat, y: nat, n: nat): nat
    decreases n, x
  {
    if n == 0 then 0 else BitOf(op, x % 2, y % 2) + 2 * Bitwise(op, x / 2, y / 2, n - 1)
  }

  lemma {:induction false} BitwiseBound(op: AluOp, x: nat, y: nat, n: nat)
    ensures Bitwise(op, x, y, n) < Pow2(n)
    decreases n
  {
    if n > 0 { BitwiseBound(op, x / 2, y / 2, n - 1); }
  }

  lemma Doubled(a: nat, n: nat, p: nat, q: nat)
    requires n == a + a && Pow2(a) == p && q == p * p
    ensures Pow2(n) == q
  {
    Pow2Add(a, a);
  }

  lemma Pow2Is64(n: nat)
    requires n == 64
    ensures Pow2(n) == M64
  {
    assert Pow2(n - 63) == 2 * Pow2(n - 64);
    Doubled(n - 63, n - 62, 2, 4);
    Doubled(n - 62, n - 60, 4, 16);
    Doubled(n - 60, n - 56, 16, 0x100);
    Doubled(n - 56, n - 48, 0x100, 0x1_0000);
    Doubled(n - 48, n - 32, 0x1_0000, 0x1_0000_0000);
    Doubled(n - 32, n, 0x1_0000_0000, M64);
  }

  lemma {:induction false} Pow2Add(a: nat, b: nat)
    ensures Pow2(a + b) == Pow2(a) * Pow2(b)
    decreases a
  {
    if a > 0 {
      Pow2Add(a - 1, b);
      assert Pow2(a + b) == 2 * Pow2(a - 1 + b);
    }
  }

  function WordBits(op: AluOp, x: Word, y: Word): Word {
    BitwiseBound(op, x, y, 64);
    Pow2Is64(64);
    Bitwise(op, x, y, 64)
  }

  /** What the compiled operators mean on 64-bit signed integers: wrap-around,
      shifts by the amount modulo 64, arithmetic and logical right shift, and for
      / and % what the machine makes of them; `Division` says when that is the
      signed quotient and remainder. */
  function Apply(op: BinOp, x: Int64, y: Int64): Int64 {
    match op
    case Plus => ToInt64(x + y)
    case Minus => ToInt64(x - y)
    case Times => ToInt64(x * y)
    case BitAnd => Signed(WordBits(And, Wrap(x), Wrap(y)))
    case BitOr => Signed(WordBits(Or, Wrap(x), Wrap(y)))
    case BitXor => Signed(WordBits(Xor, Wrap(x), Wrap(y)))
    case ShiftLeft => ToInt64(x * Pow2(y % 64))
    case ShiftRight => ToInt64(x / Pow2(y % 64))
    case ShiftRightLogical => ToInt64(Wrap(x) / Pow2(y % 64))
    case DividedBy => Signed(AluMeaning(Div, Wrap(x), Wrap(y)))
    case Modulo => Signed(AluMeaning(Mod, Wrap(x), Wrap(y)))
  }

  predicate Compares(c: Comparison, x: Int64, y: Int64) {
    match c
    case Equal => x == y
    case NotEqual => x != y
    case Less => x < y
    case LessEqual => x <= y
    case Greater => x > y
    case GreaterEqual => x >= y
  }

  function Truth(b: bool): Int64 {
    if b then 1 else 0
  }

  function Eval(e: Expr, m: RegFile): Int64 {
    match e
    case Lit(i) => ToInt64(i)
    case Local(r) => Signed(Get(m, r))
    case Bin(op, l, r) => Apply(op, Eval(l, m), Eval(r, m))
    case Negate(a) => ToInt64(-(Eval(a, m) as int))
    case Complement(a) => ToInt64(-(Eval(a, m) as int) - 1)
    case Not(a) => Truth(Eval(a, m) == 0)
    case UnaryPlus(a) => Eval(a, m)
    case LogicalOr(l, r) => Truth(Eval(l, m) != 0 || Eval(r, m) != 0)
    case LogicalAnd(l, r) => Truth(Eval(l, m) != 0 && Eval(r, m) != 0)
    case Compare(c, l, r) => Truth(Compares(c, Eval(l, m), Eval(r, m)))
    case Ternary(c, y, n) => if Eval(c, m) != 0 then Eval(y, m) else Eval(n, m)
  }

  /** The variables after a statement. */
  function Perform(s: Stmt, m: RegFile): RegFile {
    match s
    case Skip => m
    case Assign(r, e) => m[r := Wrap(Eval(e, m))]
    case Update(op, r, e) => m[r := Wrap(Apply(op, Signed(Get(m, r)), Eval(e, m)))]
    case Seq(a, b) => Perform(b, Perform(a, m))
    case If(c, y, n) => if Eval(c, m) != 0 then Perform(y, m) else Perform(n, m)
    case When(c, y) => if Eval(c, m) != 0 then Perform(y, m) else m
  }

  // ----- the machine's ALU -----

  /** Section 4.1 of RFC 9669, for the 64-bit operators: division is unsigned, and
      by zero it gives zero, and the dividend for the remainder. */
  function AluMeaning(op: AluOp, x: Word, y: Word): Word {
    match op
    case Add => Wrap(x as int + y)
    case Sub => Wrap(x as int - y)
    case Mul => Wrap(x * y)
    case Div => if y == 0 then 0 else QuotientBound(x, y); x / y
    case Mod => if y == 0 then x else QuotientBound(x, y); x % y
    case Lsh => Wrap(x * Pow2(y % 64))
    case Rsh => Wrap(x / Pow2(y % 64))
    case Arsh => Wrap(Signed(x) / Pow2(y % 64))
    case _ => WordBits(op, x, y)
  }

  ghost predicate Standard(sem: Sem) {
    forall op: AluOp, x: Word, y: Word {:trigger sem.alu(op, x, y)} :: sem.alu(op, x, y) == AluMeaning(op, x, y)
  }

  // ----- signed integers and words -----

  lemma SignedWraps(x: Int64, w: Word, i: int)
    ensures Signed(Wrap(x)) == x && Wrap(Signed(w)) == w && Wrap(ToInt64(i)) == Wrap(i)
  {
  }

  lemma WrapShift(i: int, j: int, k: int)
    requires i == j + M64 * k
    ensures Wrap(i) == Wrap(j)
  {
    assert j == M64 * (j / M64) + j % M64;
    assert i == M64 * (j / M64 + k) + j % M64;
  }

  /** Multiplication and addition respect wrap-around. */
  lemma WrapTimes(x: int, y: int)
    ensures Wrap(Wrap(x) * y) == Wrap(x * y)
  {
    var k := x / M64;
    assert x == Wrap(x) + M64 * k;
    assert x * y == Wrap(x) * y + M64 * (k * y);
    WrapShift(x * y, Wrap(x) * y, k * y);
  }

  lemma WrapMod64(y: int)
    ensures Wrap(y) % 64 == y % 64
  {
    ModShift(Wrap(y), 0x400_0000_0000_0000 * (y / M64));
  }

  lemma ModShift(w: int, q: int)
    ensures (w + 64 * q) % 64 == w % 64
  {
  }

  /** The ALU opcode of each operator. */
  function CodeOf(op: BinOp): AluOp {
    match op
    case Plus => Add
    case Minus => Sub
    case Times => Mul
    case BitAnd => And
    case BitOr => Or
    case BitXor => Xor
    case ShiftLeft => Lsh
    case ShiftRight => Arsh
    case ShiftRightLogical => Rsh
    case DividedBy => Div
    case Modulo => Mod
  }

  lemma PlusMinus(x: Int64, y: Int64)
    ensures Wrap(Apply(Plus, x, y)) == AluMeaning(Add, Wrap(x), Wrap(y))
    ensures Wrap(Apply(Minus, x, y)) == AluMeaning(Sub, Wrap(x), Wrap(y))
  {
    SignedWraps(0, 0, x + y);
    SignedWraps(0, 0, x - y);
    WrapShift(x + y, Wrap(x) as int + Wrap(y), x / M64 + y / M64);
    WrapShift(x - y, Wrap(x) as int - Wrap(y), x / M64 - y / M64);
  }

  lemma TimesWraps(x: Int64, y: Int64)
    ensures Wrap(Apply(Times, x, y)) == AluMeaning(Mul, Wrap(x), Wrap(y))
  {
    SignedWraps(0, 0, x * y);
    WrapTimes(x, y);
    WrapTimes(y, Wrap(x));
    MulCommutes(Wrap(x), y);
    MulCommutes(Wrap(x), Wrap(y));
  }

  lemma MulCommutes(x: int, y: int)
    ensures x * y == y * x
  {
  }

  lemma ShiftsWrap(x: Int64, y: Int64)
    ensures Wrap(Apply(ShiftLeft, x, y)) == AluMeaning(Lsh, Wrap(x), Wrap(y))
    ensures Wrap(Apply(ShiftRight, x, y)) == AluMeaning(Arsh, Wrap(x), Wrap(y))
    ensures Wrap(Apply(ShiftRightLogical, x, y)) == AluMeaning(Rsh, Wrap(x), Wrap(y))
  {
    WrapMod64(y);
    SignedWraps(x, 0, x * Pow2(y % 64));
    SignedWraps(0, 0, x / Pow2(y % 64));
    SignedWraps(0, 0, Wrap(x) / Pow2(y % 64));
    WrapTimes(x, Pow2(y % 64));
  }

  /** Each operator's opcode computes its meaning. */
  lemma OperatorsAgree(op: BinOp, x: Int64, y: Int64)
    ensures Wrap(Apply(op, x, y)) == AluMeaning(CodeOf(op), Wrap(x), Wrap(y))
  {
    match op
    case Plus => PlusMinus(x, y);
    case Minus => PlusMinus(x, y);
    case Times => TimesWraps(x, y);
    case BitAnd => SignedWraps(0, WordBits(And, Wrap(x), Wrap(y)), 0);
    case BitOr => SignedWraps(0, WordBits(Or, Wrap(x), Wrap(y)), 0);
    case BitXor => SignedWraps(0, WordBits(Xor, Wrap(x), Wrap(y)), 0);
    case ShiftLeft => ShiftsWrap(x, y);
    case ShiftRight => ShiftsWrap(x, y);
    case ShiftRightLogical => ShiftsWrap(x, y);
    case DividedBy => SignedWraps(0, AluMeaning(Div, Wrap(x), Wrap(y)), 0);
    case Modulo => SignedWraps(0, AluMeaning(Mod, Wrap(x), Wrap(y)), 0);
  }

  lemma {:induction false} FlipBits(x: nat, n: nat)
    requires x < Pow2(n)
    ensures Bitwise(Xor, x, Pow2(n) - 1, n) == Pow2(n) - 1 - x
    decreases n
  {
    if n > 0 {
      assert (Pow2(n) - 1) % 2 == 1 && (Pow2(n) - 1) / 2 == Pow2(n - 1) - 1;
      FlipBits(x / 2, n - 1);
    }
  }

  lemma FlipWord(w: Word, n: nat)
    requires n == 64
    ensures Bitwise(Xor, w, M64 - 1, n) == M64 - 1 - w
  {
    Pow2Is64(n);
    FlipBits(w, n);
  }

  lemma NotWraps(x: int)
    ensures Wrap(ToInt64(-x - 1)) == M64 - 1 - Wrap(x)
  {
    SignedWraps(0, 0, -x - 1);
    WrapShift(-x - 1, M64 - 1 - Wrap(x), -(x / M64) - 1);
  }

  /** Exclusive or with all ones is the complement. */
  lemma ComplementAgrees(x: Int64)
    ensures AluMeaning(Xor, Wrap(x), Wrap(-1)) == Wrap(ToInt64(-(x as int) - 1))
  {
    FlipWord(Wrap(x), 64);
    assert Wrap(-1) == M64 - 1;
    NotWraps(x);
  }

  lemma NegationAgrees(x: Int64)
    ensures AluMeaning(Sub, 0, Wrap(x)) == Wrap(ToInt64(-(x as int)))
  {
    SignedWraps(0, 0, -(x as int));
    WrapShift(-(x as int), 0 - Wrap(x) as int, -(x / M64));
  }

  lemma {:induction false} BitwiseCommutes(op: AluOp, x: nat, y: nat, n: nat)
    ensures Bitwise(op, x, y, n) == Bitwise(op, y, x, n)
    decreases n
  {
    if n > 0 { BitwiseCommutes(op, x / 2, y / 2, n - 1); }
  }
}
