// Constant folding in the checker, against evaluation by the runtime's checked arithmetic.
module Fold {

  import opened Wrappers

  datatype Ty = TInt | TUInt(bits: nat) | TBool | TString | TNil

  datatype Value = VInt(i: int) | VUInt(bits: nat, u: nat) | VBool(b: bool) | VString(s: string) | VNil

  datatype UnaryOp = Not | Plus | Minus | BitNot

  datatype BinaryOp =
    | And | Or | Eq | Neq | Add | Sub | Mul | Div | Rem | Less | Leq | Greater | Geq
    | BitOr | BitAnd | BitXor | Shl | Shr

  // A constant of a type the program can write, something that is not constant, or an operator.
  datatype Tree = Lit(v: Value) | Other(k: nat, typ: Ty) | Unary(op: UnaryOp, operand: Tree) | Binary(bop: BinaryOp, left: Tree, right: Tree)

  const MIN: int := -0x8000_0000_0000_0000
  const MAX: int := 0x7FFF_FFFF_FFFF_FFFF
  const WORD: nat := 0x1_0000_0000_0000_0000

  predicate InRange(i: int) { MIN <= i <= MAX }

  predicate Width(bits: nat) { bits == 8 || bits == 16 || bits == 32 || bits == 64 }

  function Modulus(bits: nat): nat { if bits == 8 then 0x100 else if bits == 16 then 0x1_0000 else if bits == 32 then 0x1_0000_0000 else WORD }

  predicate HasType(v: Value, t: Ty) {
    match t
    case TInt => v.VInt? && InRange(v.i)
    case TUInt(bits) => v.VUInt? && v.bits == bits && Width(bits) && v.u < Modulus(bits)
    case TBool => v.VBool?
    case TString => v.VString?
    case TNil => v.VNil?
  }

  // ---- machine arithmetic ------------------------------------------------------------------------------

  // Division that truncates toward zero.
  function Quot(a: int, b: int): int
    requires b != 0
  {
    if a >= 0 then (if b > 0 then a / b else -(a / -b)) else (if b > 0 then -(-a / b) else -a / -b)
  }

  function Remainder(a: int, b: int): int
    requires b != 0
  {
    a - b * Quot(a, b)
  }

  // A 64-bit product as the hardware leaves it.
  function Wrap(i: int): int { var m := i % WORD; if m > MAX then m - WORD else m }

  // ---- the folder's tests for overflow ------------------------------------------------------------------

  function AddI(a: int, b: int): Option<int> {
    if (b > 0 && a > MAX - b) || (b < 0 && a < MIN - b) then None else Some(a + b)
  }

  function SubI(a: int, b: int): Option<int> {
    if (b < 0 && a > MAX + b) || (b > 0 && a < MIN + b) then None else Some(a - b)
  }

  // The wrapped product is divided back.
  function MulI(a: int, b: int): Option<int> {
    if a == 0 || b == 0 then Some(0)
    else if (a == MIN && b == -1) || (b == MIN && a == -1) then None
    else if Quot(Wrap(a * b), b) != a then None
    else Some(Wrap(a * b))
  }

  function DivI(a: int, b: int): Option<int> { if b == 0 || (a == MIN && b == -1) then None else Some(Quot(a, b)) }

  function RemI(a: int, b: int): Option<int> { if b == 0 || (a == MIN && b == -1) then None else Some(Remainder(a, b)) }

  // ---- the runtime -------------------------------------------------------------------------------------

  // A result outside the range traps.
  function Checked(i: int): Option<int> { if InRange(i) then Some(i) else None }

  lemma AddIsChecked(a: int, b: int)
    requires InRange(a) && InRange(b)
    ensures AddI(a, b) == Checked(a + b)
  {}

  lemma SubIsChecked(a: int, b: int)
    requires InRange(a) && InRange(b)
    ensures SubI(a, b) == Checked(a - b)
  {}

  lemma Magnitude(a: int, b: int)
    requires b != 0
    ensures var q := Quot(a, b);
      (if a >= 0 then 0 <= a - b * q else a - b * q <= 0) && -(if b > 0 then b else -b) < a - b * q < (if b > 0 then b else -b)
  {}

  lemma ExactQuotient(a: int, b: int)
    requires b != 0
    ensures Quot(a * b, b) == a
  {
    var n := if b > 0 then b else -b;
    var m := if a > 0 then a else -a;
    assert m * n / n == m by { Divides(m, n); }
    assert a * b == m * n || a * b == -(m * n);
  }

  lemma Divides(m: nat, n: nat)
    requires n > 0
    ensures m * n / n == m
  {
    var q, r := m * n / n, m * n % n;
    assert (m - q) * n == r;
    Multiples(m - q, n);
  }

  // A multiple of n is zero or at least n away from it.
  lemma Multiples(k: int, n: nat)
    ensures k == 0 || k * n >= n || k * n <= -(n as int)
  {
    if k >= 1 { assert (k - 1) * n >= 0; } else if k <= -1 { assert (-k - 1) * n >= 0; }
  }

  lemma WrapIs(i: int) returns (k: int)
    ensures InRange(Wrap(i)) && Wrap(i) == i - k * WORD && (InRange(i) ==> k == 0)
  {
    k := (i - Wrap(i)) / WORD;
  }

  // Dividing the wrapped product back finds every overflow and nothing else.
  lemma MulIsChecked(a: int, b: int)
    requires InRange(a) && InRange(b)
    ensures MulI(a, b) == Checked(a * b)
  {
    if a != 0 && b != 0 {
      var k := WrapIs(a * b);
      if InRange(a * b) {
        ExactQuotient(a, b);
      } else if Quot(Wrap(a * b), b) == a {
        Magnitude(Wrap(a * b), b);
        Multiples(k, WORD);
        assert false;
      }
    }
  }

  // Bit by bit, from the lowest.
  function BitOp(op: BinaryOp, a: nat, b: nat): nat { if a == 0 && b == 0 then 0 else 2 * BitOp(op, a / 2, b / 2) + OneBit(op, a % 2, b % 2) }

  function OneBit(op: BinaryOp, x: nat, y: nat): nat {
    match op
    case BitOr => if x == 1 || y == 1 then 1 else 0
    case BitAnd => if x == 1 && y == 1 then 1 else 0
    case _ => if x != y then 1 else 0
  }

  function Pow2(k: nat): nat { if k == 0 then 1 else 2 * Pow2(k - 1) }

  // Values of a width are kept below its modulus.
  function UInt(bits: nat, u: int): Value { VUInt(bits, u % Modulus(bits)) }

  // The value of an operator, or none where the runtime traps.
  function ApplyUnary(op: UnaryOp, v: Value): Option<Value> {
    match (op, v)
    case (Not, VBool(b)) => Some(VBool(!b))
    case (Plus, VInt(_)) => Some(v)
    case (Plus, VUInt(_, _)) => Some(v)
    case (Minus, VInt(i)) => if InRange(-i) then Some(VInt(-i)) else None
    case (BitNot, VUInt(bits, u)) => Some(UInt(bits, -1 - u))
    case _ => None
  }

  function Ints(op: BinaryOp, a: int, b: int): Option<Value> {
    match op
    case Add => Numbered(Checked(a + b))
    case Sub => Numbered(Checked(a - b))
    case Mul => Numbered(Checked(a * b))
    case Div => if b == 0 then None else Numbered(Checked(Quot(a, b)))
    case Rem => if b == 0 || (a == MIN && b == -1) then None else Some(VInt(Remainder(a, b)))
    case Less => Some(VBool(a < b))
    case Leq => Some(VBool(a <= b))
    case Greater => Some(VBool(a > b))
    case Geq => Some(VBool(a >= b))
    case _ => None
  }

  function Numbered(r: Option<int>): Option<Value> { if r.Some? then Some(VInt(r.value)) else None }

  function UInts(op: BinaryOp, bits: nat, a: nat, b: nat): Option<Value> {
    match op
    case Add => Some(UInt(bits, a + b))
    case Sub => Some(UInt(bits, a - b))
    case Mul => Some(UInt(bits, a * b))
    case Div => if b == 0 then None else Some(UInt(bits, a / b))
    case Rem => if b == 0 then None else Some(UInt(bits, a % b))
    case Less => Some(VBool(a < b))
    case Leq => Some(VBool(a <= b))
    case Greater => Some(VBool(a > b))
    case Geq => Some(VBool(a >= b))
    case _ => if op.BitOr? || op.BitAnd? || op.BitXor? then Some(UInt(bits, BitOp(op, a, b))) else None
  }

  // Both operands have been evaluated.
  function ApplyBinary(op: BinaryOp, l: Value, r: Value): Option<Value> {
    if op == Eq then Some(VBool(l == r))
    else if op == Neq then Some(VBool(l != r))
    else
      match (l, r)
      case (VString(a), VString(b)) => if op == Add then Some(VString(a + b)) else None
      case (VInt(a), VInt(b)) => Ints(op, a, b)
      case (VUInt(m, a), VUInt(n, b)) => if m == n then UInts(op, m, a, b) else None
      case (VUInt(m, a), VInt(b)) =>
        if b < 0 || b >= m then None
        else if op == Shl then Some(UInt(m, a * Pow2(b)))
        else if op == Shr then Some(VUInt(m, Halved(a, b)))
        else None
      case _ => None
  }

  // A shift to the right, bit by bit.
  function Halved(n: nat, k: nat): (r: nat)
    ensures r <= n
    decreases k
  {
    if k == 0 then n else Halved(n / 2, k - 1)
  }

  // Evaluation, where the parts that are not constant have the values given or trap.
  function Eval(t: Tree, env: nat -> Option<Value>): Option<Value> {
    match t
    case Lit(v) => Some(v)
    case Other(k, _) => env(k)
    case Unary(op, e) => (match Eval(e, env) case Some(v) => ApplyUnary(op, v) case None => None)
    case Binary(op, l, r) =>
      match Eval(l, env)
      case None => None
      case Some(a) =>
        if op == And || op == Or then
          if !a.VBool? then None
          else if a.b == (op == Or) then Some(a)
          else (match Eval(r, env) case Some(b) => if b.VBool? then Some(b) else None case None => None)
        else
          match Eval(r, env)
          case Some(b) => ApplyBinary(op, a, b)
          case None => None
  }

  // ---- what the operators mean ----------------------------------------------------------------------------

  // Quotient and remainder of a division that truncates: the remainder is smaller than the divisor and
  // has the sign of the dividend.
  lemma QuotientAndRemainder(a: int, b: int)
    requires b != 0
    ensures a == b * Quot(a, b) + Remainder(a, b)
    ensures -(if b > 0 then b else -b) < Remainder(a, b) < (if b > 0 then b else -b)
    ensures (a > 0 ==> Remainder(a, b) >= 0) && (a < 0 ==> Remainder(a, b) <= 0) && (a == 0 ==> Quot(a, b) == 0)
  {
    Magnitude(a, b);
  }

  // The Int operators are those of the integers, where the result has 64 bits and a divisor is not
  // zero; otherwise they trap.
  lemma IntsMean(op: BinaryOp, a: int, b: int)
    requires InRange(a) && InRange(b)
    ensures op == Add ==> Ints(op, a, b) == if MIN <= a + b <= MAX then Some(VInt(a + b)) else None
    ensures op == Sub ==> Ints(op, a, b) == if MIN <= a - b <= MAX then Some(VInt(a - b)) else None
    ensures op == Mul ==> Ints(op, a, b) == if MIN <= a * b <= MAX then Some(VInt(a * b)) else None
    ensures op == Div ==> (Ints(op, a, b) == None <==> b == 0 || (a == MIN && b == -1))
    ensures op == Div && Ints(op, a, b) != None ==> Ints(op, a, b) == Some(VInt(Quot(a, b)))
    ensures op == Rem ==> (Ints(op, a, b) == None <==> b == 0 || (a == MIN && b == -1))
    ensures op == Rem && Ints(op, a, b) != None ==> Ints(op, a, b) == Some(VInt(a - b * Quot(a, b)))
    ensures op == Less ==> Ints(op, a, b) == Some(VBool(b - a > 0))
    ensures op == Leq ==> Ints(op, a, b) == Some(VBool(b - a >= 0))
    ensures op == Greater ==> Ints(op, a, b) == Some(VBool(a - b > 0))
    ensures op == Geq ==> Ints(op, a, b) == Some(VBool(a - b >= 0))
  {
    if op == Div && b != 0 && !(a == MIN && b == -1) { SmallQuotient(a, b); }
  }

  lemma SmallQuotient(a: int, b: int)
    requires InRange(a) && b != 0 && !(a == MIN && b == -1)
    ensures InRange(Quot(a, b))
  {
    Shrinks(if a >= 0 then a else -a, if b > 0 then b else -b);
    if b == -1 { assert Quot(a, b) == -a; }
  }

  lemma Shrinks(m: nat, n: nat)
    requires n > 0
    ensures m / n <= m && (n > 1 ==> 2 * (m / n) <= m)
  {
    var q, r := m / n, m % n;
    assert m == q * n + r;
    Grows(q, n);
  }

  lemma Grows(q: nat, n: nat)
    requires n > 0
    ensures q * n >= q && (n > 1 ==> q * n >= 2 * q)
  {
    assert q * (n - 1) >= 0;
    if n > 1 { assert q * (n - 2) >= 0; }
  }

  // The operators of an unsigned width are those of the integers modulo two to the width.
  predicate Cut(r: Option<Value>, bits: nat, exact: int) {
    r.Some? && r.value.VUInt? && r.value.bits == bits && 0 <= r.value.u < Modulus(bits) && (exact - r.value.u) % Modulus(bits) == 0
  }

  lemma UIntsMean(op: BinaryOp, bits: nat, a: nat, b: nat)
    requires Width(bits) && a < Modulus(bits) && b < Modulus(bits)
    ensures op == Add ==> Cut(UInts(op, bits, a, b), bits, a + b)
    ensures op == Sub ==> Cut(UInts(op, bits, a, b), bits, a - b)
    ensures op == Mul ==> Cut(UInts(op, bits, a, b), bits, a * b)
    ensures op == Less ==> UInts(op, bits, a, b) == Some(VBool(b - a > 0))
    ensures op == Leq ==> UInts(op, bits, a, b) == Some(VBool(b - a >= 0))
    ensures op == Greater ==> UInts(op, bits, a, b) == Some(VBool(a - b > 0))
    ensures op == Geq ==> UInts(op, bits, a, b) == Some(VBool(a - b >= 0))
  {
    hide Cut, UInt;
    CutIs(bits, a + b);
    CutIs(bits, a - b);
    CutIs(bits, a * b);
  }

  lemma UIntsDivide(bits: nat, a: nat, b: nat)
    requires Width(bits) && a < Modulus(bits) && b < Modulus(bits)
    ensures UInts(Div, bits, a, b) == None <==> b == 0
    ensures UInts(Rem, bits, a, b) == None <==> b == 0
    ensures b > 0 ==>
      exists q: nat, m: nat :: Divided(a, b, q, m) && UInts(Div, bits, a, b) == Some(VUInt(bits, q)) && UInts(Rem, bits, a, b) == Some(VUInt(bits, m))
  {
    hide Modulus;
    if b > 0 {
      var q, m := a / b, a % b;
      assert a == q * b + m && m < b;
      Grows(q, b);
      Small(bits, q);
      Small(bits, m);
      assert Divided(a, b, q, m);
    }
  }

  predicate Divided(a: nat, b: nat, q: nat, m: nat) { a == q * b + m && m < b }

  lemma CutIs(bits: nat, x: int)
    requires Width(bits)
    ensures Cut(Some(UInt(bits, x)), bits, x)
  {
    if bits == 8 { Multiple(x, 0x100); } else if bits == 16 { Multiple(x, 0x1_0000); } else if bits == 32 { Multiple(x, 0x1_0000_0000); } else { Multiple(x, WORD); }
  }

  lemma Multiple(x: int, m: nat)
    requires m > 0
    ensures 0 <= x % m < m && (x - x % m) % m == 0
  {
    assert x - x % m == (x / m) * m;
    NoRest(x / m, m);
  }

  lemma NoRest(k: int, m: nat)
    requires m > 0
    ensures k * m % m == 0
  {
    var q, r := k * m / m, k * m % m;
    assert (k - q) * m == r;
    Multiples(k - q, m);
  }

  lemma Small(bits: nat, x: nat)
    requires Width(bits) && x < Modulus(bits)
    ensures x % Modulus(bits) == x
  {}

  // The bit of weight two to the `i`.
  function Bit(n: nat, i: nat): nat { if i == 0 then n % 2 else Bit(n / 2, i - 1) }

  // The bit operators work on every bit by itself.
  lemma BitsMean(a: nat, b: nat, i: nat)
    ensures Bit(a, i) < 2
    ensures Bit(BitOp(BitOr, a, b), i) == if Bit(a, i) == 1 || Bit(b, i) == 1 then 1 else 0
    ensures Bit(BitOp(BitAnd, a, b), i) == if Bit(a, i) == 1 && Bit(b, i) == 1 then 1 else 0
    ensures Bit(BitOp(BitXor, a, b), i) == if Bit(a, i) != Bit(b, i) then 1 else 0
  {
    hide BitOp, Bit;
    BitsApart(BitOr, a, b, i);
    BitsApart(BitAnd, a, b, i);
    BitsApart(BitXor, a, b, i);
  }

  lemma {:induction false} BitsApart(op: BinaryOp, a: nat, b: nat, i: nat)
    ensures Bit(a, i) < 2 && Bit(b, i) < 2 && Bit(BitOp(op, a, b), i) == OneBit(op, Bit(a, i), Bit(b, i))
    decreases i
  {
    hide OneBit;
    BitOpHalves(op, a, b);
    if i > 0 { BitsApart(op, a / 2, b / 2, i - 1); }
  }

  lemma BitOpHalves(op: BinaryOp, a: nat, b: nat)
    ensures BitOp(op, a, b) / 2 == BitOp(op, a / 2, b / 2) && BitOp(op, a, b) % 2 == OneBit(op, a % 2, b % 2)
  {}

  lemma {:induction false} BitOpBelow(op: BinaryOp, a: nat, b: nat, k: nat)
    requires a < Pow2(k) && b < Pow2(k)
    ensures BitOp(op, a, b) < Pow2(k)
    decreases k
  {
    BitOpHalves(op, a, b);
    if k > 0 {
      BitOpBelow(op, a / 2, b / 2, k - 1);
      hide BitOp;
    }
  }

  // On numbers of a width they give a number of that width.
  lemma UIntsBits(op: BinaryOp, bits: nat, a: nat, b: nat)
    requires Width(bits) && a < Modulus(bits) && b < Modulus(bits) && (op == BitOr || op == BitAnd || op == BitXor)
    ensures UInts(op, bits, a, b) == Some(VUInt(bits, BitOp(op, a, b)))
  {
    WidthIsPower(bits);
    hide BitOp, Pow2;
    BitOpBelow(op, a, b, bits);
    UIntIs(bits, BitOp(op, a, b));
    hide Modulus, UInt;
  }

  lemma UIntIs(bits: nat, x: nat)
    requires Width(bits) && x < Modulus(bits)
    ensures UInt(bits, x) == VUInt(bits, x)
  {
    Small(bits, x);
    hide Modulus;
  }

  // Complement, and a number below a power of two has no bits from there on.
  lemma {:induction false} ComplementMeans(n: nat, k: nat, i: nat)
    requires n < Pow2(k) && i < k
    ensures Pow2(k) - 1 - n >= 0 && Bit(Pow2(k) - 1 - n, i) == 1 - Bit(n, i) && Bit(n, i) < 2
    decreases i
  {
    Complement(Pow2(k - 1), n);
    if i > 0 { ComplementMeans(n / 2, k - 1, i - 1); }
  }

  lemma Complement(p: nat, n: nat)
    requires n < 2 * p
    ensures n / 2 < p && (2 * p - 1 - n) / 2 == p - 1 - n / 2 && (2 * p - 1 - n) % 2 == 1 - n % 2
  {}

  lemma ComplementIs(bits: nat, u: nat)
    requires Width(bits) && u < Modulus(bits)
    ensures ApplyUnary(BitNot, VUInt(bits, u)) == Some(VUInt(bits, Modulus(bits) - 1 - u))
  {}

  lemma {:induction false} Doubled(j: nat, k: nat)
    ensures Pow2(j + k) == Pow2(j) * Pow2(k)
    decreases k
  {
    if k > 0 {
      Doubled(j, k - 1);
      var p, q := Pow2(j), Pow2(k - 1);
      assert Pow2(j + k) == 2 * Pow2(j + (k - 1)) && Pow2(k) == 2 * q;
      hide Pow2;
      TwiceProduct(p, q);
    }
  }

  lemma TwiceProduct(p: nat, q: nat)
    ensures p * (2 * q) == 2 * (p * q)
  {}

  lemma WidthIsPower(bits: nat)
    requires Width(bits)
    ensures Modulus(bits) == Pow2(bits)
  {
    ByteIsPower();
    hide Pow2;
    Doubled(8, 8);
    Doubled(16, 16);
    Doubled(32, 32);
  }

  lemma ByteIsPower()
    ensures Pow2(8) == 0x100
  {
    assert Pow2(3) == 8;
    assert Pow2(5) == 4 * Pow2(3);
    assert Pow2(7) == 4 * Pow2(5);
  }

  // A shift to the right moves the bits down.
  lemma {:induction false} HalvedBits(n: nat, k: nat, i: nat)
    ensures Bit(Halved(n, k), i) == Bit(n, i + k)
    decreases k
  {
    if k > 0 { HalvedBits(n / 2, k - 1, i); }
  }

  lemma {:induction false} HalvedDivides(n: nat, k: nat)
    ensures Halved(n, k) * Pow2(k) <= n < (Halved(n, k) + 1) * Pow2(k)
    decreases k
  {
    if k > 0 {
      HalvedDivides(n / 2, k - 1);
      var h, p := Halved(n / 2, k - 1), Pow2(k - 1);
      assert Halved(n, k) == h && Pow2(k) == 2 * p;
      hide Halved, Pow2;
      TwiceProduct(h, p);
      TwiceProduct(h + 1, p);
    }
  }

  // A shift by less than the width multiplies, cut to the width, or divides; by any other number it traps.
  lemma ShiftsMean(bits: nat, a: nat, b: int)
    requires Width(bits) && a < Modulus(bits)
    ensures var l, r := ApplyBinary(Shl, VUInt(bits, a), VInt(b)), ApplyBinary(Shr, VUInt(bits, a), VInt(b));
      if 0 <= b < bits then
        && Cut(l, bits, a * Pow2(b))
        && r.Some? && r.value.VUInt? && r.value.bits == bits && r.value.u * Pow2(b) <= a < (r.value.u + 1) * Pow2(b)
      else l == None && r == None
  {
    hide Cut, UInt, Pow2, Halved;
    if 0 <= b < bits {
      CutIs(bits, a * Pow2(b));
      HalvedDivides(a, b);
    }
  }

  // Equality is of kind and content; strings are only joined; numbers are only combined with their own kind.
  lemma KindsMean(op: BinaryOp, l: Value, r: Value)
    ensures op == Eq ==> ApplyBinary(op, l, r) == Some(VBool(l == r))
    ensures op == Neq ==> ApplyBinary(op, l, r) == Some(VBool(l != r))
    ensures l.VString? && r.VString? && op == Add ==> ApplyBinary(op, l, r) == Some(VString(l.s + r.s))
    ensures l.VInt? && r.VInt? && op != Eq && op != Neq ==> ApplyBinary(op, l, r) == Ints(op, l.i, r.i)
    ensures l.VUInt? && r.VUInt? && l.bits == r.bits && op != Eq && op != Neq ==> ApplyBinary(op, l, r) == UInts(op, l.bits, l.u, r.u)
    ensures op != Eq && op != Neq && ApplyBinary(op, l, r).Some? ==>
      (l.VString? && r.VString? && op == Add) || (l.VInt? && r.VInt?) || (l.VUInt? && r.VUInt? && l.bits == r.bits)
      || (l.VUInt? && r.VInt? && (op == Shl || op == Shr))
  {}

  // The logical operators are the truth tables, and skip what they do not need.
  lemma LogicMeans(x: bool, y: bool, t: Tree, env: nat -> Option<Value>)
    requires Eval(t, env) == Some(VBool(y))
    ensures Eval(Binary(And, Lit(VBool(x)), t), env) == Some(VBool(x && y)) && Eval(Binary(Or, Lit(VBool(x)), t), env) == Some(VBool(x || y))
  {}

  lemma LogicSkips(t: Tree, env: nat -> Option<Value>)
    ensures Eval(Binary(And, Lit(VBool(false)), t), env) == Some(VBool(false)) && Eval(Binary(Or, Lit(VBool(true)), t), env) == Some(VBool(true))
  {}

  // ---- typing -----------------------------------------------------------------------------------------

  predicate Numeric(t: Ty) { t.TInt? || t.TUInt? }

  function TypeOf(t: Tree): Option<Ty> {
    match t
    case Lit(v) =>
      (match v
       case VInt(i) => if InRange(i) then Some(TInt) else None
       case VUInt(bits, u) => if Width(bits) && u < Modulus(bits) then Some(TUInt(bits)) else None
       case VBool(_) => Some(TBool)
       case VString(_) => Some(TString)
       case VNil => Some(TNil))
    case Other(_, typ) => if typ.TUInt? && !Width(typ.bits) then None else Some(typ)
    case Unary(op, e) =>
      (match (op, TypeOf(e))
       case (Not, Some(TBool)) => Some(TBool)
       case (BitNot, Some(TUInt(bits))) => Some(TUInt(bits))
       case (Plus, Some(ty)) => if Numeric(ty) then Some(ty) else None
       case (Minus, Some(TInt)) => Some(TInt)
       case _ => None)
    case Binary(op, l, r) =>
      match (TypeOf(l), TypeOf(r))
      case (Some(a), Some(b)) => BinaryType(op, a, b)
      case _ => None
  }

  function BinaryType(op: BinaryOp, a: Ty, b: Ty): Option<Ty> {
    match op
    case And => if a == TBool && b == TBool then Some(TBool) else None
    case Or => if a == TBool && b == TBool then Some(TBool) else None
    case Eq => if a == b then Some(TBool) else None
    case Neq => if a == b then Some(TBool) else None
    case Shl => if a.TUInt? && b == TInt then Some(a) else None
    case Shr => if a.TUInt? && b == TInt then Some(a) else None
    case _ =>
      if op == Add && a == TString && b == TString then Some(TString)
      else if a != b || !Numeric(a) then None
      else if op.Less? || op.Leq? || op.Greater? || op.Geq? then Some(TBool)
      else if op.BitOr? || op.BitAnd? || op.BitXor? then (if a.TUInt? then Some(a) else None)
      else Some(a)
  }

  // Which operands an operator takes, and the type it gives.
  lemma BinaryTypeExactly(op: BinaryOp, a: Ty, b: Ty, t: Ty)
    ensures BinaryType(op, a, b) == Some(t) <==>
      || (op in {And, Or} && a == b == TBool && t == TBool)
      || (op in {Eq, Neq} && a == b && t == TBool)
      || (op in {Shl, Shr} && a.TUInt? && b == TInt && t == a)
      || (op in {Less, Leq, Greater, Geq} && a == b && (a == TInt || a.TUInt?) && t == TBool)
      || (op in {BitOr, BitAnd, BitXor} && a == b && a.TUInt? && t == a)
      || (op in {Add, Sub, Mul, Div, Rem} && a == b && (a == TInt || a.TUInt?) && t == a)
      || (op == Add && a == b == TString && t == TString)
  {}

  // ---- folding ----------------------------------------------------------------------------------------

  // As the folder does it: any unary operator but plus and complement negates an Int, and the
  // operators on integers use the overflow tests above.
  function FoldUnary(op: UnaryOp, v: Value): Option<Value> {
    if op == Not && v.VBool? then Some(VBool(!v.b))
    else if v.VInt? then
      if op == Plus then Some(v) else if v.i == MIN then None else Some(VInt(-v.i))
    else if v.VUInt? then
      if op == Plus then Some(v) else if op == BitNot then Some(UInt(v.bits, WORD - 1 - v.u)) else None
    else None
  }

  function FoldInts(op: BinaryOp, a: int, b: int): Option<Value> {
    match op
    case Add => Numbered(AddI(a, b))
    case Sub => Numbered(SubI(a, b))
    case Mul => Numbered(MulI(a, b))
    case Div => Numbered(DivI(a, b))
    case Rem => Numbered(RemI(a, b))
    case _ => if op.Less? || op.Leq? || op.Greater? || op.Geq? then Ints(op, a, b) else None
  }

  // Unsigned results are computed in 64 bits and then cut to their width.
  function FoldUInts(op: BinaryOp, bits: nat, a: nat, b: nat): Option<Value> {
    match op
    case Add => Some(UInt(bits, (a + b) % WORD))
    case Sub => Some(UInt(bits, (a - b) % WORD))
    case Mul => Some(UInt(bits, (a * b) % WORD))
    case _ => UInts(op, bits, a, b)
  }

  function FoldBinary(op: BinaryOp, l: Value, r: Value): Option<Value> {
    if l.VBool? && r.VBool? && op == And then Some(VBool(l.b && r.b))
    else if l.VBool? && r.VBool? && op == Or then Some(VBool(l.b || r.b))
    else if op == Eq then Some(VBool(l == r))
    else if op == Neq then Some(VBool(l != r))
    else if l.VString? && r.VString? && op == Add then Some(VString(l.s + r.s))
    else if l.VInt? && r.VInt? then FoldInts(op, l.i, r.i)
    else if l.VUInt? && r.VUInt? && l.bits == r.bits then FoldUInts(op, l.bits, l.u, r.u)
    else if l.VUInt? && r.VInt? && 0 <= r.i < l.bits then
      if op == Shl then Some(UInt(l.bits, l.u * Pow2(r.i) % WORD)) else if op == Shr then Some(UInt(l.bits, Halved(l.u, r.i))) else None
    else None
  }

  function ConstantOf(t: Tree): Option<Value> {
    match t
    case Lit(v) => Some(v)
    case Other(_, _) => None
    case Unary(op, e) => (match ConstantOf(e) case Some(v) => FoldUnary(op, v) case None => None)
    case Binary(op, l, r) =>
      match (ConstantOf(l), ConstantOf(r))
      case (Some(a), Some(b)) => FoldBinary(op, a, b)
      case _ => None
  }

  // ---- soundness --------------------------------------------------------------------------------------

  // Cutting to 64 bits first makes no difference to a width.
  lemma CutTwice(bits: nat, n: int)
    requires Width(bits)
    ensures n % WORD % Modulus(bits) == n % Modulus(bits)
  {
    if bits == 8 { Cut8(n); } else if bits == 16 { Cut16(n); } else if bits == 32 { Cut32(n); } else { BelowModulus(64, n % WORD); }
  }

  lemma Cut8(n: int)
    ensures n % WORD % 0x100 == n % 0x100
  {}

  lemma Cut16(n: int)
    ensures n % WORD % 0x1_0000 == n % 0x1_0000
  {}

  lemma Cut32(n: int)
    ensures n % WORD % 0x1_0000_0000 == n % 0x1_0000_0000
  {}

  lemma BelowModulus(bits: nat, n: nat)
    requires Width(bits) && n < Modulus(bits)
    ensures n % Modulus(bits) == n
  {
    if bits == 8 { assert n % 0x100 == n; } else if bits == 16 { assert n % 0x1_0000 == n; } else if bits == 32 { assert n % 0x1_0000_0000 == n; } else { assert n % WORD == n; }
  }

  lemma UnarySound(op: UnaryOp, v: Value, t: Ty)
    requires HasType(v, t) && TypeOf(Unary(op, Lit(v))).Some?
    requires FoldUnary(op, v).Some?
    ensures ApplyUnary(op, v) == FoldUnary(op, v) && HasType(FoldUnary(op, v).value, TypeOf(Unary(op, Lit(v))).value)
  {
    if op == BitNot && v.VUInt? {
      CutTwice(v.bits, -1 - v.u);
      assert WORD - 1 - v.u == (-1 - v.u) % WORD;
    }
  }

  lemma IntsSound(op: BinaryOp, a: int, b: int)
    requires InRange(a) && InRange(b) && FoldInts(op, a, b).Some?
    ensures Ints(op, a, b) == FoldInts(op, a, b)
    ensures var v := FoldInts(op, a, b).value; if op.Less? || op.Leq? || op.Greater? || op.Geq? then v.VBool? else v.VInt? && InRange(v.i)
  {
    match op
    case Add => AddIsChecked(a, b);
    case Sub => SubIsChecked(a, b);
    case Mul => MulIsChecked(a, b);
    case Div => QuotientFits(a, b);
    case Rem => Magnitude(a, b);
    case _ =>
  }

  lemma QuotientFits(a: int, b: int)
    requires InRange(a) && b != 0 && !(a == MIN && b == -1)
    ensures InRange(Quot(a, b))
  {
    var n, m := if a >= 0 then a else -a, if b > 0 then b else -b;
    Smaller(n, m);
  }

  lemma Smaller(n: nat, m: nat)
    requires m > 0
    ensures 0 <= n / m <= n && (m > 1 && n > 0 ==> n / m < n)
  {
    var q := n / m;
    Product(q, m);
    assert q * m <= n;
  }

  lemma Product(q: nat, m: nat)
    requires m > 0
    ensures q <= q * m && (m > 1 ==> 2 * q <= q * m)
  {
    assert q * (m - 1) >= 0;
    if m > 1 { assert q * (m - 2) >= 0; }
  }

  lemma UIntsSound(op: BinaryOp, bits: nat, a: nat, b: nat)
    requires Width(bits) && a < Modulus(bits) && b < Modulus(bits) && FoldUInts(op, bits, a, b).Some?
    ensures UInts(op, bits, a, b) == FoldUInts(op, bits, a, b)
    ensures var v := FoldUInts(op, bits, a, b).value;
      if op.Less? || op.Leq? || op.Greater? || op.Geq? then v.VBool? else v.VUInt? && v.bits == bits && v.u < Modulus(bits)
  {
    hide BitOp;
    CutTwice(bits, a + b);
    CutTwice(bits, a - b);
    CutTwice(bits, a * b);
  }

  lemma ShiftSound(op: BinaryOp, bits: nat, a: nat, b: nat)
    requires Width(bits) && a < Modulus(bits) && b < bits && (op == Shl || op == Shr)
    ensures FoldBinary(op, VUInt(bits, a), VInt(b)) == ApplyBinary(op, VUInt(bits, a), VInt(b))
    ensures var v := FoldBinary(op, VUInt(bits, a), VInt(b)).value; v.VUInt? && v.bits == bits && v.u < Modulus(bits)
  {
    CutTwice(bits, a * Pow2(b));
    BelowModulus(bits, Halved(a, b));
  }

  lemma BinarySound(op: BinaryOp, l: Value, r: Value, a: Ty, b: Ty)
    requires HasType(l, a) && HasType(r, b) && BinaryType(op, a, b).Some? && FoldBinary(op, l, r).Some?
    ensures HasType(FoldBinary(op, l, r).value, BinaryType(op, a, b).value)
    ensures op != And && op != Or ==> ApplyBinary(op, l, r) == FoldBinary(op, l, r)
  {
    hide FoldInts, Ints, FoldUInts, UInts, Pow2;
    if op == Eq || op == Neq || op == And || op == Or {
    } else if l.VInt? {
      IntsSound(op, l.i, r.i);
    } else if l.VUInt? && r.VUInt? {
      UIntsSound(op, l.bits, l.u, r.u);
    } else if l.VUInt? {
      ShiftSound(op, l.bits, l.u, r.i);
    }
  }

  // Folding never hides a trap: a folded expression evaluates to the folded value, of its type,
  // whatever the rest of the program does.
  lemma {:induction false} FoldingPreservesEvaluation(t: Tree, env: nat -> Option<Value>)
    requires TypeOf(t).Some? && ConstantOf(t).Some?
    ensures Eval(t, env) == ConstantOf(t) && HasType(ConstantOf(t).value, TypeOf(t).value)
  {
    hide FoldUnary, ApplyUnary, FoldBinary, ApplyBinary, BinaryType;
    match t
    case Lit(_) =>
    case Unary(op, e) =>
      FoldingPreservesEvaluation(e, env);
      UnaryOfType(op, e, ConstantOf(e).value);
      UnarySound(op, ConstantOf(e).value, TypeOf(e).value);
    case Binary(op, l, r) =>
      FoldingPreservesEvaluation(l, env);
      FoldingPreservesEvaluation(r, env);
      BinarySound(op, ConstantOf(l).value, ConstantOf(r).value, TypeOf(l).value, TypeOf(r).value);
      if op == And || op == Or { Logical(op, ConstantOf(l).value, ConstantOf(r).value, TypeOf(l).value, TypeOf(r).value); }
    case Other(_, _) =>
  }

  lemma UnaryOfType(op: UnaryOp, e: Tree, v: Value)
    requires TypeOf(e).Some? && HasType(v, TypeOf(e).value)
    ensures TypeOf(Unary(op, Lit(v))) == TypeOf(Unary(op, e))
  {}

  lemma Logical(op: BinaryOp, l: Value, r: Value, a: Ty, b: Ty)
    requires (op == And || op == Or) && HasType(l, a) && HasType(r, b) && BinaryType(op, a, b).Some?
    ensures l.VBool? && r.VBool? && FoldBinary(op, l, r) == Some(if l.b == (op == Or) then l else r)
  {}

  // Without the types it would: the complement of an Int folds to its negation.
  lemma UntypedComplementNegates()
    ensures TypeOf(Unary(BitNot, Lit(VInt(5)))).None? && ConstantOf(Unary(BitNot, Lit(VInt(5)))) == Some(VInt(-5))
  {}

  // ---- the cached constants ------------------------------------------------------------------------------

  // An expression node of the checked program; folding fills in its constant.
  class Node {
    const tree: Tree
    const left: Node?
    const right: Node?
    var constValue: Option<Value>
    ghost const repr: set<Node>

    // The children are the tree's, and a recorded constant is the tree's.
    ghost predicate Valid()
      reads this, repr
      decreases tree
    {
      && this in repr
      && (constValue.Some? ==> constValue == ConstantOf(tree))
      && (tree.Unary? ==> left != null && left in repr && left.repr <= repr && this !in left.repr && left.tree == tree.operand && left.Valid())
      && (tree.Binary? ==>
            left != null && right != null && left in repr && right in repr && left.repr <= repr && right.repr <= repr
            && this !in left.repr && this !in right.repr && left.tree == tree.left && right.tree == tree.right && left.Valid() && right.Valid())
    }

    constructor Leaf(t: Tree)
      requires t.Lit? || t.Other?
      ensures Valid() && tree == t && fresh(repr)
    {
      tree, left, right, constValue, repr := t, null, null, None, {this};
    }

    constructor UnaryNode(op: UnaryOp, e: Node)
      requires e.Valid()
      ensures Valid() && tree == Unary(op, e.tree) && repr == e.repr + {this}
    {
      tree, left, right, constValue, repr := Unary(op, e.tree), e, null, None, e.repr + {this};
    }

    constructor BinaryNode(op: BinaryOp, l: Node, r: Node)
      requires l.Valid() && r.Valid()
      ensures Valid() && tree == Binary(op, l.tree, r.tree) && repr == l.repr + r.repr + {this}
    {
      tree, left, right, constValue, repr := Binary(op, l.tree, r.tree), l, r, None, l.repr + r.repr + {this};
    }

    // The constant of the node, by its record or its children.
    method ConstantValue() returns (r: Option<Value>)
      requires Valid()
      ensures r == ConstantOf(tree)
      decreases tree
    {
      if constValue.Some? { return constValue; }
      match tree {
        case Lit(v) => r := Some(v);
        case Other(_, _) => r := None;
        case Unary(op, _) =>
          var v := left.ConstantValue();
          r := if v.Some? then FoldUnary(op, v.value) else None;
        case Binary(op, _, _) =>
          var a := left.ConstantValue();
          var b := right.ConstantValue();
          r := if a.Some? && b.Some? then FoldBinary(op, a.value, b.value) else None;
      }
    }

    // Records the constant. What is recorded is what evaluation gives, if the node is well typed.
    method FoldConstExpr()
      requires Valid()
      modifies this`constValue
      ensures Valid() && constValue == ConstantOf(tree)
      ensures TypeOf(tree).Some? && constValue.Some? ==> forall env: nat -> Option<Value> :: Eval(tree, env) == constValue
    {
      if constValue.None? {
        var v := ConstantValue();
        constValue := v;
      }
      forall env: nat -> Option<Value> | TypeOf(tree).Some? && constValue.Some? ensures Eval(tree, env) == constValue {
        FoldingPreservesEvaluation(tree, env);
      }
    }
  }
}
