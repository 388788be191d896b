/** Expression trees of the math grammar, their printed form, and their
    left-to-right short-circuit value. */
module MathExpr {
  import opened MathTokens
  import opened MathOps

  datatype Expr =
    | Lit(n: int)
    | Name(id: string, code: bool)
    | Paren(e: Expr)
    | Prefix(op: Tok, e: Expr)
    | Postfix(e: Expr, minus: bool)
    | Infix(op: Tok, l: Expr, r: Expr)
    | Cond(c: Expr, a: Expr, b: Expr)

  predicate IsPrefix(t: Tok) {
    t == Not || t == Comp || t == UPlus || t == UMinus || t == PrePlus || t == PreMinus
  }

  function Spell(t: Tok): Lexeme {
    match t
    case UPlus | Plus => LSign(false)
    case UMinus | Minus => LSign(true)
    case PrePlus => LDouble(false)
    case PreMinus => LDouble(true)
    case _ => LTok(t)
  }

  function Print(e: Expr): (s: seq<Lexeme>)
    ensures |s| > 0
  {
    match e
    case Lit(n) => [LNum(n)]
    case Name(id, code) => [LName(id, code)]
    case Paren(e1) => [LTok(Inpar)] + Print(e1) + [LTok(Outpar)]
    case Prefix(op, e1) => [Spell(op)] + Print(e1)
    case Postfix(e1, minus) => Print(e1) + [LDouble(minus)]
    case Infix(op, l, r) => Print(l) + [Spell(op)] + Print(r)
    case Cond(c, a, b) => Print(c) + [LQuest] + Print(a) + [LTok(Colon)] + Print(b)
  }

  // ----- The grammar of the tables -----

  /** The precedence an expression needs of the loop that reads it. */
  function Level(e: Expr): nat {
    match e
    case Lit(_) => 0
    case Name(_, _) => 0
    case Paren(_) => 1
    case Prefix(_, _) => 2
    case Postfix(_, _) => 2
    case Infix(op, _, _) => Prec(op)
    case Cond(_, _, _) => Prec(Quest)
  }

  /** Operators of this precedence or less right after the expression would be
      taken into its last operand; -1 if none would. */
  function Grip(e: Expr): int {
    match e
    case Lit(_) => -1
    case Name(_, _) => -1
    case Paren(_) => -1
    case Prefix(op, _) => Operand(op)
    case Postfix(_, minus) => Operand(if minus then PostMinus else PostPlus)
    case Infix(op, _, _) => Operand(op)
    case Cond(_, _, _) => Prec(Quest)
  }

  /** The unary flag with which the operand after an infix operator is lexed:
      a binary sign leaves it off. */
  predicate SignsAfter(op: Tok) {
    op != Plus && op != Minus
  }

  /** e is written with the parentheses that the tables ask for, where `unary`
      says whether a sign may start it. */
  predicate Wf(e: Expr, unary: bool) {
    match e
    case Lit(_) => true
    case Name(_, _) => true
    case Paren(e1) => Wf(e1, true)
    case Prefix(op, e1) =>
      IsPrefix(op) && (op == Not || op == Comp || unary) && Wf(e1, unary) && Level(e1) <= Operand(op)
    case Postfix(e1, _) => Wf(e1, unary) && Grip(e1) < Prec(PostPlus)
    case Infix(op, l, r) =>
      IsInfix(op) && Wf(l, unary) && Grip(l) < Prec(op) && Wf(r, SignsAfter(op)) && Level(r) <= Operand(op)
    case Cond(c, a, b) =>
      Wf(c, unary) && Grip(c) < Prec(Quest) && Wf(a, true) && Level(a) <= Prec(Quest) - 1 &&
      Wf(b, true) && Level(b) <= Prec(Quest)
  }

  // ----- The standard meaning -----

  type Vars = map<string, int>

  function Read(vars: Vars, id: string): int {
    if id in vars then vars[id] else 0
  }

  datatype LValue = NoLValue | LValue(id: string)

  /** A value, the variable it was read from or assigned to, and the variables. */
  datatype Outcome = Trap | Done(val: int, lv: LValue, vars: Vars)

  /** The code of the first character of a variable's value. */
  type CharCode = (Vars, string) -> int

  datatype Env = Env(bits: Bits, code: CharCode)

  function Load(env: Env, vars: Vars, id: string, code: bool): int {
    if code then env.code(vars, id) else Read(vars, id)
  }

  function Assign(lv: LValue, v: int, vars: Vars): Outcome {
    if lv == NoLValue then Trap else Done(v, lv, vars[lv.id := v])
  }

  /** The value an infix operator leaves, and the assignment it makes. */
  function Combine(env: Env, op: Tok, l: Outcome, b: int, vars: Vars): Outcome
    requires l.Done?
  {
    if Traps(Base(op), b) then Trap
    else
      var v := Arith(env.bits, Base(op), l.val, b);
      if IsAssign(op) then Assign(l.lv, v, vars) else Done(v, NoLValue, vars)
  }

  function PrefixValue(op: Tok, v: Outcome): Outcome
    requires v.Done?
  {
    match op
    case Not => Done(Truth(v.val == 0), NoLValue, v.vars)
    case Comp => Done(-v.val - 1, NoLValue, v.vars)
    case UMinus => Done(-v.val, NoLValue, v.vars)
    case PrePlus => Assign(v.lv, v.val + 1, v.vars)
    case PreMinus => Assign(v.lv, v.val - 1, v.vars)
    case _ => Done(v.val, NoLValue, v.vars)
  }

  /** Whether the right operand is not evaluated, given the left one. */
  predicate Shorts(op: Tok, a: int) {
    (Base(op) == DAnd && a == 0) || (Base(op) == DOr && a != 0)
  }

  /** Left to right, skipping the operands that && || and ?: skip. */
  function Value(env: Env, e: Expr, vars: Vars): Outcome {
    match e
    case Lit(n) => Done(n, NoLValue, vars)
    case Name(id, code) => Done(Load(env, vars, id, code), LValue(id), vars)
    case Paren(e1) => Value(env, e1, vars)
    case Prefix(op, e1) =>
      var v := Value(env, e1, vars);
      if v.Trap? then Trap else PrefixValue(op, v)
    case Postfix(e1, minus) =>
      var v := Value(env, e1, vars);
      if v.Trap? || v.lv == NoLValue then Trap
      else Done(v.val, v.lv, v.vars[v.lv.id := v.val + (if minus then -1 else 1)])
    case Infix(op, l, r) =>
      var x := Value(env, l, vars);
      if x.Trap? then Trap
      else if Shorts(op, x.val) then Combine(env, op, x, 0, x.vars)
      else
        var y := Value(env, r, x.vars);
        if y.Trap? then Trap else Combine(env, op, x, y.val, y.vars)
    case Cond(c, a, b) =>
      var x := Value(env, c, vars);
      if x.Trap? then Trap
      else
        var y := Value(env, if x.val != 0 then a else b, x.vars);
        if y.Trap? then Trap else Done(y.val, NoLValue, y.vars)
  }

  // ----- What the evaluator computes -----

  /** Every operand is evaluated; where `dry`, names read as 0 and nothing is
      assigned, but zero divisors, negative exponents and missing lvalues still
      count. */
  function Walk(env: Env, e: Expr, vars: Vars, dry: bool): (o: Outcome)
    ensures dry && o.Done? ==> o.vars == vars
  {
    match e
    case Lit(n) => Done(n, NoLValue, vars)
    case Name(id, code) => Done(if dry then 0 else Load(env, vars, id, code), LValue(id), vars)
    case Paren(e1) => Walk(env, e1, vars, dry)
    case Prefix(op, e1) =>
      var v := Walk(env, e1, vars, dry);
      if v.Trap? then Trap else Kept(PrefixValue(op, v), v.vars, dry)
    case Postfix(e1, minus) =>
      var v := Walk(env, e1, vars, dry);
      if v.Trap? || v.lv == NoLValue then Trap
      else Kept(Done(v.val, v.lv, v.vars[v.lv.id := v.val + (if minus then -1 else 1)]), v.vars, dry)
    case Infix(op, l, r) =>
      var x := Walk(env, l, vars, dry);
      if x.Trap? then Trap
      else
        var y := Walk(env, r, x.vars, dry || Shorts(op, x.val));
        if y.Trap? then Trap else Kept(Combine(env, op, x, y.val, y.vars), y.vars, dry)
    case Cond(c, a, b) =>
      var x := Walk(env, c, vars, dry);
      if x.Trap? then Trap
      else
        var y := Walk(env, a, x.vars, dry || x.val == 0);
        if y.Trap? then Trap
        else
          var z := Walk(env, b, y.vars, dry || x.val != 0);
          if z.Trap? then Trap else Done(if x.val != 0 then y.val else z.val, NoLValue, z.vars)
  }

  /** The outcome, without its assignment in a dry run. */
  function Kept(o: Outcome, vars: Vars, dry: bool): Outcome {
    if o.Trap? || !dry then o else Done(o.val, o.lv, vars)
  }

  /** A boolean operator whose right operand is not needed ignores it. */
  lemma ShortSame(env: Env, op: Tok, x: Outcome, b: int, vars: Vars)
    requires x.Done? && Shorts(op, x.val)
    ensures Combine(env, op, x, b, vars) == Combine(env, op, x, 0, vars)
  {}

  /** Unless something traps in an operand that should have been skipped, what
      the evaluator computes is the standard meaning. */
  lemma {:induction false} WalkIsValue(env: Env, e: Expr, vars: Vars)
    requires Wf(e, true) || Wf(e, false)
    requires Walk(env, e, vars, false).Done?
    ensures Value(env, e, vars) == Walk(env, e, vars, false)
    decreases e
  {
    hide Combine, PrefixValue, Shorts, Load, Grip, Level, Prec, Operand;
    match e
    case Lit(_) =>
    case Name(_, _) =>
    case Paren(e1) => WalkIsValue(env, e1, vars);
    case Prefix(_, e1) => WalkIsValue(env, e1, vars);
    case Postfix(e1, _) => WalkIsValue(env, e1, vars);
    case Infix(op, l, r) =>
      WalkIsValue(env, l, vars);
      var x := Walk(env, l, vars, false);
      if Shorts(op, x.val) {
        var y := Walk(env, r, x.vars, true);
        ShortSame(env, op, x, y.val, x.vars);
      } else {
        WalkIsValue(env, r, x.vars);
      }
    case Cond(c, a, b) =>
      WalkIsValue(env, c, vars);
      var x := Walk(env, c, vars, false);
      if x.val != 0 { WalkIsValue(env, a, x.vars); } else { WalkIsValue(env, b, x.vars); }
  }

  /** 1 || 1 / 0 is 1, but the evaluator reports the division by zero. */
  lemma SkippedDivisor(env: Env, vars: Vars)
    ensures var e := Infix(DOr, Lit(1), Infix(Div, Lit(1), Lit(0)));
            Wf(e, true) && Value(env, e, vars) == Done(1, NoLValue, vars) && Walk(env, e, vars, false).Trap?
  {
    var skipped := Infix(Div, Lit(1), Lit(0));
    var e := Infix(DOr, Lit(1), skipped);
    assert Wf(skipped, SignsAfter(DOr)) && Wf(e, true);
    assert Value(env, Lit(1), vars) == Walk(env, Lit(1), vars, false) == Walk(env, Lit(1), vars, true) ==
           Done(1, NoLValue, vars);
    assert Walk(env, Lit(0), vars, true) == Done(0, NoLValue, vars);
    assert Walk(env, skipped, vars, true).Trap?;
    assert Walk(env, e, vars, false).Trap?;
  }
}
