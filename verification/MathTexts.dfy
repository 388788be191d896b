/** What arithmetic texts mean, in plain arithmetic: the precedence, associativity and
    meaning of each operator as the manual lists them (Doc/zsh.texi, Arithmetic
    Evaluation). */
module MathTexts {
  import opened MathTokens
  import opened MathOps
  import opened MathExpr
  import opened MathMachine
  import opened MathCorrect
  import opened MathEvaluator

  /** The infix operators as the manual lists them, those that bind tightest first. */
  const LEVELS: seq<set<Tok>> := [
    {ShLeft, ShRight}, {And}, {Xor}, {Or}, {Power}, {Mul, Div, Mod}, {Plus, Minus}, {Les, Leq, Gre, Geq}, {Deq, Neq},
    {DAnd}, {DOr, DXor}]

  /** The level of **, which groups to the right. */
  const POWERS := 4

  /** An operator between two operands as it is written. */
  function Sign(t: Tok): Lexeme {
    if t == Plus then LSign(false) else if t == Minus then LSign(true) else LTok(t)
  }

  predicate Operand1(l: Lexeme) {
    l.LNum? || l.LName?
  }

  function Leaf(l: Lexeme): (e: Expr)
    requires Operand1(l)
    ensures Print(e) == [l] && Wf(e, true) && Wf(e, false) && Level(e) == 0 && Grip(e) == -1
    ensures Need(e) == 1 && Names(e) <= 1
  {
    if l.LNum? then Lit(l.n) else Name(l.id, l.code)
  }

  lemma LevelPrec(i: nat, op: Tok)
    requires i < |LEVELS| && op in LEVELS[i]
    ensures Prec(op) == i + 3 && IsInfix(op) && !IsAssign(op) && Spell(op) == Sign(op)
    ensures Operand(op) == if i == POWERS then i + 3 else i + 2
  {
    if i < 5 { LevelLow(i, op); } else if i < 8 { LevelMiddle(i, op); } else { LevelHigh(i, op); }
  }

  lemma LevelLow(i: nat, op: Tok)
    requires i < 5 && op in LEVELS[i]
    ensures Prec(op) == i + 3 && IsInfix(op) && !IsAssign(op) && Spell(op) == Sign(op)
    ensures Operand(op) == if i == POWERS then i + 3 else i + 2
  {
    assert LEVELS[0] == {ShLeft, ShRight} && LEVELS[1] == {And} && LEVELS[2] == {Xor} && LEVELS[3] == {Or};
    assert LEVELS[4] == {Power};
    assert op in {ShLeft, ShRight, And, Xor, Or, Power};
  }

  lemma LevelMiddle(i: nat, op: Tok)
    requires 5 <= i < 8 && op in LEVELS[i]
    ensures Prec(op) == i + 3 && IsInfix(op) && !IsAssign(op) && Spell(op) == Sign(op) && Operand(op) == i + 2
  {
    assert LEVELS[5] == {Mul, Div, Mod} && LEVELS[6] == {Plus, Minus} && LEVELS[7] == {Les, Leq, Gre, Geq};
    assert op in {Mul, Div, Mod, Plus, Minus, Les, Leq, Gre, Geq};
  }

  lemma LevelHigh(i: nat, op: Tok)
    requires 8 <= i < |LEVELS| && op in LEVELS[i]
    ensures Prec(op) == i + 3 && IsInfix(op) && !IsAssign(op) && Spell(op) == Sign(op) && Operand(op) == i + 2
  {
    assert LEVELS[8] == {Deq, Neq} && LEVELS[9] == {DAnd} && LEVELS[10] == {DOr, DXor};
    assert op in {Deq, Neq, DAnd, DOr, DXor};
  }

  /** The trees x op y op' z, grouped to the left or to the right, with or without
      parentheses. */
  function ToLeft(x: Lexeme, op: Tok, y: Lexeme, op': Tok, z: Lexeme, paren: bool): Expr
    requires Operand1(x) && Operand1(y) && Operand1(z)
  {
    var e := Infix(op, Leaf(x), Leaf(y));
    Infix(op', if paren then Paren(e) else e, Leaf(z))
  }

  function ToRight(x: Lexeme, op: Tok, y: Lexeme, op': Tok, z: Lexeme, paren: bool): Expr
    requires Operand1(x) && Operand1(y) && Operand1(z)
  {
    var e := Infix(op', Leaf(y), Leaf(z));
    Infix(op, Leaf(x), if paren then Paren(e) else e)
  }

  lemma LeftText(x: Lexeme, op: Tok, y: Lexeme, op': Tok, z: Lexeme, paren: bool)
    requires Operand1(x) && Operand1(y) && Operand1(z) && Spell(op) == Sign(op) && Spell(op') == Sign(op')
    ensures var e := ToLeft(x, op, y, op', z, paren);
            Need(e) <= 3 && Names(e) <= 3 &&
            Print(e) == if paren then [LTok(Inpar), x, Sign(op), y, LTok(Outpar), Sign(op'), z]
                        else [x, Sign(op), y, Sign(op'), z]
  {
    hide Leaf, Sign, Spell;
    var e := Infix(op, Leaf(x), Leaf(y));
    assert Print(e) == [x, Sign(op), y] && Need(e) == Need(Paren(e)) == 2 && Names(e) == Names(Paren(e)) <= 2;
    assert Print(Paren(e)) == [LTok(Inpar)] + Print(e) + [LTok(Outpar)];
  }

  lemma RightText(x: Lexeme, op: Tok, y: Lexeme, op': Tok, z: Lexeme, paren: bool)
    requires Operand1(x) && Operand1(y) && Operand1(z) && Spell(op) == Sign(op) && Spell(op') == Sign(op')
    ensures var e := ToRight(x, op, y, op', z, paren);
            Need(e) <= 3 && Names(e) <= 3 &&
            Print(e) == if paren then [x, Sign(op), LTok(Inpar), y, Sign(op'), z, LTok(Outpar)]
                        else [x, Sign(op), y, Sign(op'), z]
  {
    hide Leaf, Sign, Spell;
    var e := Infix(op', Leaf(y), Leaf(z));
    assert Print(e) == [y, Sign(op'), z] && Need(e) == Need(Paren(e)) == 2 && Names(e) == Names(Paren(e)) <= 2;
    assert Print(Paren(e)) == [LTok(Inpar)] + Print(e) + [LTok(Outpar)];
  }

  /** Without parentheses the text means the same as with them, on the left. */
  lemma GroupsLeft(x: Lexeme, op: Tok, y: Lexeme, op': Tok, z: Lexeme, i: nat, j: nat, inp: Input, vars: Vars)
    requires Operand1(x) && Operand1(y) && Operand1(z)
    requires i < |LEVELS| && j < |LEVELS| && op in LEVELS[i] && op' in LEVELS[j] && i <= j && (i == j ==> i != POWERS)
    ensures Answers(inp.(text := [x, Sign(op), y, Sign(op'), z]), vars) ==
            Answers(inp.(text := [LTok(Inpar), x, Sign(op), y, LTok(Outpar), Sign(op'), z]), vars)
  {
    hide Leaf, Answers, Walk, Print, Need, Names, Sign, Spell, Prec, Operand, IsInfix, LEVELS;
    LevelPrec(i, op);
    LevelPrec(j, op');
    LeftText(x, op, y, op', z, false);
    LeftText(x, op, y, op', z, true);
    var e, e' := ToLeft(x, op, y, op', z, false), ToLeft(x, op, y, op', z, true);
    LeftWf(Leaf(x), op, Leaf(y), op', Leaf(z));
    AnswerIs(e, inp.(text := Print(e)), vars);
    AnswerIs(e', inp.(text := Print(e')), vars);
    ParenLeft(inp.env, op', Infix(op, Leaf(x), Leaf(y)), Leaf(z), vars);
  }

  lemma LeftWf(x: Expr, op: Tok, y: Expr, op': Tok, z: Expr)
    requires forall e :: e in [x, y, z] ==> Wf(e, true) && Wf(e, false) && Level(e) == 0 && Grip(e) == -1
    requires IsInfix(op) && IsInfix(op') && 3 <= Prec(op) <= Prec(op')
    requires 2 <= Operand(op) < Prec(op') && 2 <= Operand(op')
    ensures Wf(Infix(op', Infix(op, x, y), z), true) && Wf(Infix(op', Paren(Infix(op, x, y)), z), true)
  {
    hide Prec, Operand, IsInfix;
    assert x in [x, y, z] && y in [x, y, z] && z in [x, y, z];
    var l := Infix(op, x, y);
    assert Wf(l, true) && Grip(l) == Operand(op) && Grip(Paren(l)) == -1 && Wf(Paren(l), true);
  }

  lemma ParenLeft(env: Env, op: Tok, l: Expr, r: Expr, vars: Vars)
    ensures Walk(env, Infix(op, Paren(l), r), vars, false) == Walk(env, Infix(op, l, r), vars, false)
  {
    hide Combine, Shorts, Kept;
  }

  lemma ParenRight(env: Env, op: Tok, l: Expr, r: Expr, vars: Vars)
    ensures Walk(env, Infix(op, l, Paren(r)), vars, false) == Walk(env, Infix(op, l, r), vars, false)
  {
    hide Combine, Shorts, Kept;
  }

  /** And on the right. */
  lemma GroupsRight(x: Lexeme, op: Tok, y: Lexeme, op': Tok, z: Lexeme, i: nat, j: nat, inp: Input, vars: Vars)
    requires Operand1(x) && Operand1(y) && Operand1(z)
    requires i < |LEVELS| && j < |LEVELS| && op in LEVELS[i] && op' in LEVELS[j] && j <= i && (i == j ==> i == POWERS)
    ensures Answers(inp.(text := [x, Sign(op), y, Sign(op'), z]), vars) ==
            Answers(inp.(text := [x, Sign(op), LTok(Inpar), y, Sign(op'), z, LTok(Outpar)]), vars)
  {
    hide Leaf, Answers, Walk, Print, Need, Names, Sign, Spell, Prec, Operand, IsInfix, LEVELS;
    LevelPrec(i, op);
    LevelPrec(j, op');
    RightText(x, op, y, op', z, false);
    RightText(x, op, y, op', z, true);
    var e, e' := ToRight(x, op, y, op', z, false), ToRight(x, op, y, op', z, true);
    RightWf(Leaf(x), op, Leaf(y), op', Leaf(z));
    AnswerIs(e, inp.(text := Print(e)), vars);
    AnswerIs(e', inp.(text := Print(e')), vars);
    ParenRight(inp.env, op, Leaf(x), Infix(op', Leaf(y), Leaf(z)), vars);
  }

  lemma RightWf(x: Expr, op: Tok, y: Expr, op': Tok, z: Expr)
    requires forall e :: e in [x, y, z] ==> Wf(e, true) && Wf(e, false) && Level(e) == 0 && Grip(e) == -1
    requires IsInfix(op) && IsInfix(op') && Prec(op) >= 3 && Prec(op') >= 3
    requires 2 <= Operand(op') && Prec(op') <= Operand(op)
    ensures Wf(Infix(op, x, Infix(op', y, z)), true) && Wf(Infix(op, x, Paren(Infix(op', y, z))), true)
  {
    hide Prec, Operand, IsInfix;
    assert x in [x, y, z] && y in [x, y, z] && z in [x, y, z];
    var r := Infix(op', y, z);
    assert Wf(r, true) && Wf(r, false) && Level(r) == Prec(op') && Level(Paren(r)) == 1 && Wf(Paren(r), true);
  }

  // ----- What the operators mean on numbers -----

  /** e is v, whatever the variables, and changes nothing. */
  ghost predicate Is(env: Env, e: Expr, vars: Vars, v: int) {
    Walk(env, e, vars, false) == Walk(env, e, vars, true) == Done(v, NoLValue, vars)
  }

  lemma IsLit(env: Env, a: int, vars: Vars)
    ensures Is(env, Lit(a), vars, a)
  {}

  lemma IsInfixed(env: Env, op: Tok, l: Expr, r: Expr, vars: Vars, a: int, b: int)
    requires Is(env, l, vars, a) && Is(env, r, vars, b) && !IsAssign(op) && Base(op) == op && !Traps(op, b)
    ensures Is(env, Infix(op, l, r), vars, Arith(env.bits, op, a, b))
  {
    hide Arith;
  }

  lemma IsPrefixed(env: Env, op: Tok, e: Expr, vars: Vars, a: int)
    requires Is(env, e, vars, a) && (op == UMinus || op == UPlus || op == Not || op == Comp)
    ensures Is(env, Prefix(op, e), vars, if op == UMinus then -a else if op == UPlus then a
                                         else if op == Not then if a == 0 then 1 else 0 else -a - 1)
  {}

  lemma IsChosen(env: Env, c: Expr, l: Expr, r: Expr, vars: Vars, a: int, b: int, d: int)
    requires Is(env, c, vars, a) && Is(env, l, vars, b) && Is(env, r, vars, d)
    ensures Is(env, Cond(c, l, r), vars, if a != 0 then b else d)
  {}

  /** The text of a tree has the value of the tree. */
  lemma TextIs(e: Expr, inp: Input, vars: Vars, v: int)
    requires Wf(e, true) && Need(e) <= STACKSZ && Names(e) <= LVCOUNT && inp.text == Print(e) && Is(inp.env, e, vars, v)
    ensures Answers(inp, vars) == Answer(v, vars)
  {
    hide Answers, Walk, Wf, Need, Names, Print;
    AnswerIs(e, inp, vars);
  }

  /** The operators that assign nothing. */
  const PLAIN: set<Tok> := {ShLeft, ShRight, And, Xor, Or, Power, Mul, Div, Mod, Plus, Minus, Les, Leq, Gre, Geq, Deq,
    Neq, DAnd, DOr, DXor, Comma}

  lemma PlainFacts(op: Tok)
    requires op in PLAIN
    ensures IsInfix(op) && !IsAssign(op) && Base(op) == op
  {}

  lemma PlainText(op: Tok)
    requires op in PLAIN
    ensures Spell(op) == Sign(op) && 3 <= Prec(op) <= TOPPREC && 2 <= Operand(op) <= Prec(op)
  {
    hide IsInfix, IsAssign, Base;
  }

  /** The text a op b. */
  function Two(inp: Input, a: int, op: Tok, b: int): Input {
    inp.(text := [LNum(a), Sign(op), LNum(b)])
  }

  lemma TwoWf(op: Tok, a: int, b: int)
    requires op in PLAIN
    ensures var e := Infix(op, Lit(a), Lit(b));
            Wf(e, true) && Need(e) == 2 && Names(e) == 0 && Print(e) == [LNum(a), Sign(op), LNum(b)]
  {
    hide Sign, Spell, Prec, Operand, IsInfix, IsAssign, PLAIN, Base;
    PlainFacts(op);
    PlainText(op);
    assert Wf(Lit(a), true) && Wf(Lit(b), SignsAfter(op)) && Grip(Lit(a)) == -1 && Level(Lit(b)) == 0;
  }

  lemma TwoIs(inp: Input, a: int, op: Tok, b: int, vars: Vars)
    requires op in PLAIN
    ensures Answers(Two(inp, a, op, b), vars) ==
            if Traps(op, b) then Wrong else Answer(Arith(inp.env.bits, op, a, b), vars)
  {
    hide Answers, Sign, Arith, Traps, IsInfix, IsAssign, PLAIN, Base, Wf, Print, Need, Names;
    var e := Infix(op, Lit(a), Lit(b));
    PlainFacts(op);
    TwoWf(op, a, b);
    IsLit(inp.env, a, vars);
    IsLit(inp.env, b, vars);
    AnswerIs(e, Two(inp, a, op, b), vars);
    if Traps(op, b) {
      assert Walk(inp.env, e, vars, false).Trap?;
    } else {
      IsInfixed(inp.env, op, Lit(a), Lit(b), vars, a, b);
    }
  }

  const BITWISE: set<Tok> := {And, Xor, Or, ShLeft, ShRight}

  lemma PlainAll()
    ensures Plus in PLAIN && Minus in PLAIN && Mul in PLAIN && Div in PLAIN && Mod in PLAIN && Power in PLAIN
    ensures Les in PLAIN && Leq in PLAIN && Gre in PLAIN && Geq in PLAIN && Deq in PLAIN && Neq in PLAIN
    ensures DAnd in PLAIN && DOr in PLAIN && DXor in PLAIN && Comma in PLAIN && BITWISE <= PLAIN
  {}

  lemma Additive(inp: Input, a: int, b: int, vars: Vars)
    ensures Answers(Two(inp, a, Plus, b), vars) == Answer(a + b, vars)
    ensures Answers(Two(inp, a, Minus, b), vars) == Answer(a - b, vars)
    ensures Answers(Two(inp, a, Mul, b), vars) == Answer(a * b, vars)
  {
    hide Answers, Two, Sign, PLAIN;
    PlainAll();
    TwoIs(inp, a, Plus, b, vars);
    TwoIs(inp, a, Minus, b, vars);
    TwoIs(inp, a, Mul, b, vars);
  }

  /** Division truncates towards zero, and the remainder has the sign of the dividend. */
  lemma Divisions(inp: Input, a: int, b: int, vars: Vars)
    ensures Answers(Two(inp, a, Div, b), vars) == if b == 0 then Wrong else
            Answer(if a >= 0 then if b > 0 then a / b else -(a / -b) else if b > 0 then -(-a / b) else -a / -b, vars)
    ensures Answers(Two(inp, a, Mod, b), vars) == if b == 0 then Wrong else
            Answer(if a >= 0 then if b > 0 then a % b else a % -b else if b > 0 then -(-a % b) else -(-a % -b), vars)
  {
    hide Answers, Two, Sign, PLAIN;
    PlainAll();
    TwoIs(inp, a, Div, b, vars);
    TwoIs(inp, a, Mod, b, vars);
    if b != 0 { Truncates(a, b); }
  }

  lemma Truncates(a: int, b: int)
    requires b != 0
    ensures Quotient(a, b) ==
            if a >= 0 then if b > 0 then a / b else -(a / -b) else if b > 0 then -(-a / b) else -a / -b
    ensures Remainder(a, b) ==
            if a >= 0 then if b > 0 then a % b else a % -b else if b > 0 then -(-a % b) else -(-a % -b)
  {
    var x: nat, y: nat := Abs(a), Abs(b);
    Euclid(x, y);
    var q := x / y;
    if a >= 0 && b < 0 { Flip(b, q); }
    if a < 0 && b > 0 { Flip(b, q); }
    if a < 0 && b < 0 { Flip(b, q); }
  }

  lemma Euclid(x: nat, y: nat)
    requires y > 0
    ensures x == y * (x / y) + x % y && (x == 0 ==> x / y == 0)
  {}

  lemma Flip(b: int, q: int)
    ensures b * -q == -(b * q) && -b * q == -(b * q)
  {}

  /** Powers are repeated products. */
  lemma Powers(inp: Input, a: int, b: int, vars: Vars)
    ensures b < 0 ==> Answers(Two(inp, a, Power, b), vars) == Wrong
    ensures Answers(Two(inp, a, Power, 0), vars) == Answer(1, vars)
    ensures b >= 0 ==>
      Answers(Two(inp, a, Power, b), vars).Answer? &&
      Answers(Two(inp, a, Power, b + 1), vars) == Answer(a * Answers(Two(inp, a, Power, b), vars).val, vars)
  {
    hide Answers, Two, Sign, PLAIN;
    PlainAll();
    TwoIs(inp, a, Power, b, vars);
    TwoIs(inp, a, Power, 0, vars);
    TwoIs(inp, a, Power, b + 1, vars);
  }

  lemma Comparisons(inp: Input, a: int, b: int, vars: Vars)
    ensures Answers(Two(inp, a, Les, b), vars) == Answer(if a < b then 1 else 0, vars)
    ensures Answers(Two(inp, a, Leq, b), vars) == Answer(if a <= b then 1 else 0, vars)
    ensures Answers(Two(inp, a, Gre, b), vars) == Answer(if a > b then 1 else 0, vars)
    ensures Answers(Two(inp, a, Geq, b), vars) == Answer(if a >= b then 1 else 0, vars)
    ensures Answers(Two(inp, a, Deq, b), vars) == Answer(if a == b then 1 else 0, vars)
    ensures Answers(Two(inp, a, Neq, b), vars) == Answer(if a != b then 1 else 0, vars)
  {
    hide Answers, Two, Sign, PLAIN;
    PlainAll();
    TwoIs(inp, a, Les, b, vars);
    TwoIs(inp, a, Leq, b, vars);
    TwoIs(inp, a, Gre, b, vars);
    TwoIs(inp, a, Geq, b, vars);
    TwoIs(inp, a, Deq, b, vars);
    TwoIs(inp, a, Neq, b, vars);
  }

  lemma Connectives(inp: Input, a: int, b: int, vars: Vars)
    ensures Answers(Two(inp, a, DAnd, b), vars) == Answer(if a != 0 && b != 0 then 1 else 0, vars)
    ensures Answers(Two(inp, a, DOr, b), vars) == Answer(if a != 0 || b != 0 then 1 else 0, vars)
    ensures Answers(Two(inp, a, DXor, b), vars) == Answer(if (a != 0) != (b != 0) then 1 else 0, vars)
    ensures Answers(Two(inp, a, Comma, b), vars) == Answer(b, vars)
  {
    hide Answers, Two, Sign, PLAIN;
    PlainAll();
    TwoIs(inp, a, DAnd, b, vars);
    TwoIs(inp, a, DOr, b, vars);
    TwoIs(inp, a, DXor, b, vars);
    TwoIs(inp, a, Comma, b, vars);
  }

  lemma Bitwise(inp: Input, op: Tok, a: int, b: int, vars: Vars)
    requires op in BITWISE
    ensures Answers(Two(inp, a, op, b), vars) == Answer(inp.env.bits(op, a, b), vars)
  {
    hide Answers, Two, Sign, PLAIN;
    PlainAll();
    TwoIs(inp, a, op, b, vars);
  }
}
