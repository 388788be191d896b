/** Arithmetic of Src/math.c on mathematical integers.  The bitwise and shift
    operators are a parameter, so everything holds for any meaning of them. */
module MathOps {
  import opened MathTokens

  /** The meaning of & ^ | << and >>. */
  type Bits = (Tok, int, int) -> int

  function Truth(b: bool): int {
    if b then 1 else 0
  }

  /** C division truncates toward zero. */
  function Quotient(a: int, b: int): int
    requires b != 0
  {
    if (a >= 0) == (b > 0) || a == 0 then Abs(a) / Abs(b) else -(Abs(a) / Abs(b))
  }

  function Abs(a: int): nat {
    if a < 0 then -a else a
  }

  function Remainder(a: int, b: int): int
    requires b != 0
  {
    a - b * Quotient(a, b)
  }

  /** C's division identity, with the remainder's sign following the dividend. */
  lemma DivisionIdentity(a: int, b: int)
    requires b != 0
    ensures Quotient(a, b) * b + Remainder(a, b) == a
    ensures Abs(Remainder(a, b)) < Abs(b)
    ensures Remainder(a, b) == 0 || (Remainder(a, b) < 0) == (a < 0)
  {
    var q, r := Abs(a) / Abs(b), Abs(a) % Abs(b);
    assert Abs(a) == Abs(b) * q + r;
    if (a >= 0) == (b > 0) || a == 0 {
      assert b * q == if b > 0 then Abs(b) * q else -(Abs(b) * q);
    } else {
      assert b * -q == if b > 0 then -(Abs(b) * q) else Abs(b) * q;
    }
  }

  function Pow(a: int, n: nat): int {
    if n == 0 then 1 else a * Pow(a, n - 1)
  }

  /** The operator that an assignment operator applies before it assigns. */
  function Base(t: Tok): Tok {
    match t
    case PlusEq => Plus
    case MinusEq => Minus
    case MulEq => Mul
    case DivEq => Div
    case ModEq => Mod
    case AndEq => And
    case XorEq => Xor
    case OrEq => Or
    case ShLeftEq => ShLeft
    case ShRightEq => ShRight
    case DAndEq => DAnd
    case DOrEq => DOr
    case DXorEq => DXor
    case PowerEq => Power
    case _ => t
  }

  predicate IsAssign(t: Tok) {
    match t
    case Eq | PlusEq | MinusEq | MulEq | DivEq | ModEq | AndEq | XorEq | OrEq => true
    case ShLeftEq | ShRightEq | DAndEq | DOrEq | DXorEq | PowerEq => true
    case _ => false
  }

  predicate IsValueOp(t: Tok) {
    match t
    case And | Xor | Or | Mul | Div | Mod | Plus | Minus | ShLeft | ShRight => true
    case Les | Leq | Gre | Geq | Deq | Neq | DAnd | DOr | DXor | Comma | Power => true
    case _ => false
  }

  predicate IsInfix(t: Tok) {
    IsAssign(t) || IsValueOp(t)
  }

  /** Zero divisors and negative exponents are reported, not computed. */
  predicate Traps(t: Tok, b: int) {
    ((t == Div || t == Mod) && b == 0) || (t == Power && b < 0)
  }

  function Arith(bits: Bits, t: Tok, a: int, b: int): int
    requires !Traps(t, b)
  {
    match t
    case Mul => a * b
    case Div => Quotient(a, b)
    case Mod => Remainder(a, b)
    case Plus => a + b
    case Minus => a - b
    case Les => Truth(a < b)
    case Leq => Truth(a <= b)
    case Gre => Truth(a > b)
    case Geq => Truth(a >= b)
    case Deq => Truth(a == b)
    case Neq => Truth(a != b)
    case DAnd => Truth(a != 0 && b != 0)
    case DOr => Truth(a != 0 || b != 0)
    case DXor => Truth((a != 0) != (b != 0))
    case Comma | Eq => b
    case Power => Pow(a, b)
    case _ => bits(t, a, b)
  }
}
