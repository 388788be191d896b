/** Tokens of Src/math.c, their precedence and associativity tables, and the
    context-dependent lexer. */
module MathTokens {

  datatype Tok =
    | Inpar | Outpar | Not | Comp | PostPlus | PostMinus | UPlus | UMinus
    | And | Xor | Or | Mul | Div | Mod | Plus | Minus | ShLeft | ShRight
    | Les | Leq | Gre | Geq | Deq | Neq | DAnd | DOr | DXor | Quest | Colon
    | Eq | PlusEq | MinusEq | MulEq | DivEq | ModEq | AndEq | XorEq | OrEq | ShLeftEq | ShRightEq
    | DAndEq | DOrEq | DXorEq | Comma | Eoi | PrePlus | PreMinus | Num | Id | Power | Cid | PowerEq

  datatype Assoc = LR | RL | BOOL

  const TOPPREC := 16

  /** The prec table. */
  function Prec(t: Tok): nat {
    match t
    case Num | Id | Cid => 0
    case Inpar => 1
    case Not | Comp | PostPlus | PostMinus | UPlus | UMinus | PrePlus | PreMinus => 2
    case ShLeft | ShRight => 3
    case And => 4
    case Xor => 5
    case Or => 6
    case Power => 7
    case Mul | Div | Mod => 8
    case Plus | Minus => 9
    case Les | Leq | Gre | Geq => 10
    case Deq | Neq => 11
    case DAnd => 12
    case DOr | DXor => 13
    case Quest | Colon => 14
    case Comma => 16
    case Outpar => 137
    case Eoi => 200
    case _ => 15
  }

  /** The type table. */
  function Type(t: Tok): Assoc {
    match t
    case DAnd | DOr | DAndEq | DOrEq => BOOL
    case Inpar | Outpar | And | Xor | Or | Mul | Div | Mod | Plus | Minus | ShLeft | ShRight => LR
    case Les | Leq | Gre | Geq | Deq | Neq | DXor | Num | Id | Cid => LR
    case _ => RL
  }

  /** The precedence with which the operand after an operator is parsed. */
  function Operand(t: Tok): int {
    Prec(t) - (if Type(t) != RL then 1 else 0)
  }

  /** A lexeme, already separated from its neighbours: signs, their doubled
      forms and the question mark mean different things in different places. */
  datatype Lexeme =
    | LNum(n: int)
    | LName(id: string, code: bool)    // id, or #id for the code of its first character
    | LSign(minus: bool)
    | LDouble(minus: bool)
    | LQuest
    | LTok(t: Tok)
    | LBad

  /** Operators that are lexed the same way everywhere. */
  predicate Fixed(t: Tok) {
    match t
    case PostPlus | PostMinus | UPlus | UMinus | Plus | Minus | Quest => false
    case Eoi | PrePlus | PreMinus | Num | Id | Cid => false
    case _ => true
  }

  /** What a lexeme is, given the unary flag; Eoi where lexing stops. */
  function TokenOf(l: Lexeme, unary: bool): Tok {
    match l
    case LNum(_) => Num
    case LName(_, code) => if code then Cid else Id
    case LSign(minus) => if minus then (if unary then UMinus else Minus) else if unary then UPlus else Plus
    case LDouble(minus) =>
      if minus then (if unary then PreMinus else PostMinus) else if unary then PrePlus else PostPlus
    case LQuest => if unary then Num else Quest
    case LTok(t) => if Fixed(t) then t else Eoi
    case LBad => Eoi
  }

  /** The unary flag after a lexeme: unchanged by signs, `)`, `!` and `~`. */
  function UnaryAfter(l: Lexeme, unary: bool): bool {
    match l
    case LNum(_) => false
    case LName(_, _) => false
    case LSign(_) => unary
    case LDouble(_) => unary
    case LQuest => !unary
    case LTok(t) => if t == Outpar || t == Not || t == Comp then unary else true
    case LBad => unary
  }
}
