/** Signs, the conditional operator, assignments and the comma in arithmetic texts, and the
    values of some of the texts of Doc/zsh.texi in plain arithmetic. */
module MathForms {
  import opened MathTokens
  import opened MathOps
  import opened MathExpr
  import opened MathMachine
  import opened MathCorrect
  import opened MathEvaluator
  import opened MathTexts

  /** e is written t, with at most n operands; level and grip bound what may stand around
      it, and plain says that it may follow a binary sign. */
  ghost predicate Shape(e: Expr, t: seq<Lexeme>, n: nat, level: nat, grip: int, plain: bool) {
    Wf(e, true) && (plain ==> Wf(e, false)) && Level(e) <= level && Grip(e) <= grip && Print(e) == t &&
    1 <= Need(e) <= n && Names(e) <= n
  }

  lemma LeafShape(l: Lexeme)
    requires Operand1(l)
    ensures Shape(Leaf(l), [l], 1, 0, -1, true)
  {}

  lemma ParenShape(e: Expr, t: seq<Lexeme>, n: nat, level: nat, grip: int, plain: bool)
    requires Shape(e, t, n, level, grip, plain)
    ensures Shape(Paren(e), [LTok(Inpar)] + t + [LTok(Outpar)], n, 1, -1, true)
  {}

  lemma PrefixShape(op: Tok, l: Lexeme, e: Expr, t: seq<Lexeme>, n: nat)
    requires Shape(e, t, n, 0, -1, true) && IsPrefix(op) && Spell(op) == l && Operand(op) == 2
    ensures Shape(Prefix(op, e), [l] + t, n, 2, 2, op == Not || op == Comp)
  {
    hide IsPrefix, Spell, Operand;
  }

  lemma PostfixShape(e: Expr, t: seq<Lexeme>, n: nat, minus: bool)
    requires Shape(e, t, n, 0, -1, true)
    ensures Shape(Postfix(e, minus), t + [LDouble(minus)], n, 2, 2, true)
  {}

  lemma InfixShape(op: Tok, lex: Lexeme, p: nat, o: int, l: Expr, tl: seq<Lexeme>, nl: nat, ll: nat, gl: int, pl: bool,
                   r: Expr, tr: seq<Lexeme>, nr: nat, lr: nat, gr: int, pr: bool)
    requires Shape(l, tl, nl, ll, gl, pl) && Shape(r, tr, nr, lr, gr, pr)
    requires IsInfix(op) && Spell(op) == lex && Prec(op) == p && Operand(op) == o
    requires gl < p && lr <= o && (pr || SignsAfter(op))
    ensures Shape(Infix(op, l, r), tl + [lex] + tr, nl + nr, p, o, pl)
  {
    hide IsInfix, Spell, Operand, Prec;
  }

  lemma CondShape(c: Expr, tc: seq<Lexeme>, nc: nat, lc: nat, gc: int, pc: bool, a: Expr, ta: seq<Lexeme>, na: nat,
                  la: nat, ga: int, pa: bool, b: Expr, tb: seq<Lexeme>, nb: nat, lb: nat, gb: int, pb: bool)
    requires Shape(c, tc, nc, lc, gc, pc) && Shape(a, ta, na, la, ga, pa) && Shape(b, tb, nb, lb, gb, pb)
    requires gc < 14 && la <= 13 && lb <= 14
    ensures Shape(Cond(c, a, b), tc + [LQuest] + ta + [LTok(Colon)] + tb, nc + na + nb, 14, 14, pc)
  {}

  /** Two operands with an operator of the levels between them. */
  lemma PairShape(y: Lexeme, op: Tok, z: Lexeme, i: nat)
    requires Operand1(y) && Operand1(z) && i < |LEVELS| && op in LEVELS[i]
    ensures Shape(Infix(op, Leaf(y), Leaf(z)), [y, Sign(op), z], 2, i + 3, i + 3, true) && i < 11
  {
    hide Shape, Leaf, Prec, Operand, IsInfix, Spell, Sign;
    assert |LEVELS| == 11;
    hide LEVELS;
    LevelPrec(i, op);
    LeafShape(y);
    LeafShape(z);
    var o := if i == POWERS then i + 3 else i + 2;
    InfixShape(op, Sign(op), i + 3, o, Leaf(y), [y], 1, 0, -1, true, Leaf(z), [z], 1, 0, -1, true);
    assert [y] + [Sign(op)] + [z] == [y, Sign(op), z];
    ShapeUp(Infix(op, Leaf(y), Leaf(z)), [y, Sign(op), z], 2, i + 3, o, true, i + 3, i + 3);
  }

  lemma ShapeUp(e: Expr, t: seq<Lexeme>, n: nat, level: nat, grip: int, plain: bool, level': nat, grip': int)
    requires Shape(e, t, n, level, grip, plain) && level <= level' && grip <= grip'
    ensures Shape(e, t, n, level', grip', plain)
  {}

  /** Two texts mean the same if their trees differ in parentheses only. */
  lemma SameAnswer(e: Expr, t: seq<Lexeme>, n: nat, l: nat, g: int, q: bool, e': Expr, t': seq<Lexeme>, n': nat,
                   l': nat, g': int, q': bool, inp: Input, vars: Vars)
    requires Shape(e, t, n, l, g, q) && Shape(e', t', n', l', g', q') && n <= 10 && n' <= 10
    requires Walk(inp.env, e, vars, false) == Walk(inp.env, e', vars, false)
    ensures Answers(inp.(text := t), vars) == Answers(inp.(text := t'), vars)
  {
    AnswerTo(e, t, n, l, g, q, inp, vars);
    AnswerTo(e', t', n', l', g', q', inp, vars);
  }

  lemma AnswerTo(e: Expr, t: seq<Lexeme>, n: nat, l: nat, g: int, q: bool, inp: Input, vars: Vars)
    requires Shape(e, t, n, l, g, q) && n <= 10
    ensures Answers(inp.(text := t), vars) == AnswerOf(Walk(inp.env, e, vars, false))
  {
    hide Answers, Walk, Wf, Need, Names, Print;
    AnswerIs(e, inp.(text := t), vars);
  }

  // ----- Signs -----

  const SIGNS: set<Tok> := {UMinus, UPlus, Not, Comp}

  function Mark(t: Tok): Lexeme {
    if t == UMinus then LSign(true) else if t == UPlus then LSign(false) else LTok(t)
  }

  lemma SignShape(sign: Tok, a: int)
    requires sign in SIGNS
    ensures Shape(Prefix(sign, Lit(a)), [Mark(sign), LNum(a)], 1, 2, 2, sign == Not || sign == Comp)
  {
    hide Shape;
    LeafShape(LNum(a));
    PrefixShape(sign, Mark(sign), Lit(a), [LNum(a)], 1);
    assert [Mark(sign)] + [LNum(a)] == [Mark(sign), LNum(a)];
  }

  lemma Signed(op: Tok, a: int, inp: Input, vars: Vars)
    requires op in SIGNS
    ensures Answers(inp.(text := [Mark(op), LNum(a)]), vars) ==
            Answer(if op == UMinus then -a else if op == UPlus then a
                   else if op == Not then if a == 0 then 1 else 0 else -a - 1, vars)
  {
    hide Answers, Shape;
    SignShape(op, a);
    IsLit(inp.env, a, vars);
    IsPrefixed(inp.env, op, Lit(a), vars, a);
    AnswerTo(Prefix(op, Lit(a)), [Mark(op), LNum(a)], 1, 2, 2, op == Not || op == Comp, inp, vars);
  }

  /** A sign belongs to the operand after it alone. */
  lemma SignFirst(sign: Tok, a: int, op: Tok, b: int, inp: Input, vars: Vars)
    requires sign in SIGNS && op in PLAIN
    ensures Answers(inp.(text := [Mark(sign), LNum(a), Sign(op), LNum(b)]), vars) ==
            Answers(inp.(text := [LTok(Inpar), Mark(sign), LNum(a), LTok(Outpar), Sign(op), LNum(b)]), vars)
  {
    hide Answers, Shape, PLAIN, SIGNS, Walk, Sign, Mark, IsInfix, Prec, Operand, Spell;
    var e, q := Prefix(sign, Lit(a)), sign == Not || sign == Comp;
    var t, u := [Mark(sign), LNum(a)], [LTok(Inpar)] + [Mark(sign), LNum(a)] + [LTok(Outpar)];
    PlainFacts(op);
    PlainText(op);
    SignShape(sign, a);
    LeafShape(LNum(b));
    ParenShape(e, t, 1, 2, 2, q);
    InfixShape(op, Sign(op), Prec(op), Operand(op), e, t, 1, 2, 2, q, Lit(b), [LNum(b)], 1, 0, -1, true);
    InfixShape(op, Sign(op), Prec(op), Operand(op), Paren(e), u, 1, 1, -1, true, Lit(b), [LNum(b)], 1, 0, -1, true);
    ParenLeft(inp.env, op, e, Lit(b), vars);
    SameAnswer(Infix(op, e, Lit(b)), t + [Sign(op)] + [LNum(b)], 2, Prec(op), Operand(op), q,
               Infix(op, Paren(e), Lit(b)), u + [Sign(op)] + [LNum(b)], 2, Prec(op), Operand(op), true, inp, vars);
    assert t + [Sign(op)] + [LNum(b)] == [Mark(sign), LNum(a), Sign(op), LNum(b)];
    assert u + [Sign(op)] + [LNum(b)] == [LTok(Inpar), Mark(sign), LNum(a), LTok(Outpar), Sign(op), LNum(b)];
  }

  /** After an operator a sign is one, but a plus or minus sign after a binary plus or minus
      is not (see DoubleSign). */
  lemma SignLater(a: int, op: Tok, sign: Tok, b: int, inp: Input, vars: Vars)
    requires sign in SIGNS && op in PLAIN && (op == Plus || op == Minus ==> sign == Not || sign == Comp)
    ensures Answers(inp.(text := [LNum(a), Sign(op), Mark(sign), LNum(b)]), vars) ==
            Answers(inp.(text := [LNum(a), Sign(op), LTok(Inpar), Mark(sign), LNum(b), LTok(Outpar)]), vars)
  {
    hide Answers, Shape, PLAIN, SIGNS, Walk, Sign, Mark, IsInfix, Prec, Operand, Spell;
    var e, q := Prefix(sign, Lit(b)), sign == Not || sign == Comp;
    var t, u := [Mark(sign), LNum(b)], [LTok(Inpar)] + [Mark(sign), LNum(b)] + [LTok(Outpar)];
    PlainFacts(op);
    PlainText(op);
    SignShape(sign, b);
    LeafShape(LNum(a));
    ParenShape(e, t, 1, 2, 2, q);
    InfixShape(op, Sign(op), Prec(op), Operand(op), Lit(a), [LNum(a)], 1, 0, -1, true, e, t, 1, 2, 2, q);
    InfixShape(op, Sign(op), Prec(op), Operand(op), Lit(a), [LNum(a)], 1, 0, -1, true, Paren(e), u, 1, 1, -1, true);
    ParenRight(inp.env, op, Lit(a), e, vars);
    SameAnswer(Infix(op, Lit(a), e), [LNum(a)] + [Sign(op)] + t, 2, Prec(op), Operand(op), true,
               Infix(op, Lit(a), Paren(e)), [LNum(a)] + [Sign(op)] + u, 2, Prec(op), Operand(op), true, inp, vars);
    assert [LNum(a)] + [Sign(op)] + t == [LNum(a), Sign(op), Mark(sign), LNum(b)];
    assert [LNum(a)] + [Sign(op)] + u == [LNum(a), Sign(op), LTok(Inpar), Mark(sign), LNum(b), LTok(Outpar)];
  }

  /** A sign after a binary plus or minus is lexed as a binary one too, so that a - -b is an
      error. */
  lemma DoubleSign(a: int, m: bool, m': bool, b: int, inp: Input, vars: Vars)
    requires inp.text == [LNum(a), LSign(m), LSign(m'), LNum(b)]
    ensures Answers(inp, vars) == Wrong
  {
    hide Loop, Lex;
    var s0 := Initial(vars);
    var s1 := Lex(s0, inp);
    NumberLexed(s0, a, inp);
    assert s1 == s1.(noeval := 0);
    SignLexed(PushOperand(s1, inp), m, inp);
    NumberRead(s1, inp);
    NoOperand(Lex(PushOperand(s1, inp), inp), m', inp);
    assert Parse(s0, TOPPREC, inp) == Loop(s1, TOPPREC, inp);
  }

  lemma NumberLexed(st: State, a: int, inp: Input)
    requires Ok(st, inp) && st.ptr < |inp.text| && inp.text[st.ptr] == LNum(a)
    ensures var r := Lex(st, inp);
            r.mtok == Num && !r.unary && r.ptr == st.ptr + 1 && r.stack == st.stack && r.noeval == st.noeval &&
            r.err == st.err
  {}

  lemma NumberRead(st: State, inp: Input)
    requires Ok(st, inp) && st.mtok == Num && !st.err && st.noeval >= 0 && st.stack == []
    requires !Lex(PushOperand(st, inp), inp).err
    ensures Loop(st, TOPPREC, inp) == Loop(Lex(PushOperand(st, inp), inp), TOPPREC, inp)
    ensures |PushOperand(st, inp).stack| == 1 && PushOperand(st, inp) == st.(stack := PushOperand(st, inp).stack)
  {
    hide Lex, Operator, Group, Conditional;
  }

  /** A binary sign right after a binary sign: there is no operand. */
  lemma NoOperand(st: State, m: bool, inp: Input)
    requires Ok(st, inp) && st.noeval == 0 && !st.err && !st.unary && |st.stack| == 1
    requires (st.mtok == Plus || st.mtok == Minus) && st.ptr < |inp.text| && inp.text[st.ptr] == LSign(m)
    ensures Loop(st, TOPPREC, inp).err
  {
    hide Op, Loop, Lex;
    var s3 := Lex(st, inp);
    SignLexed(st, m, inp);
    LoosePlus(s3, inp);
    OneOnly(s3, st.mtok, inp.env.bits);
    assert Operand(st.mtok) == 8 && Base(st.mtok) == st.mtok && st.(noeval := 0) == st && s3.(noeval := 0) == s3;
    assert Operator(st, inp).err;
    OperatorErr(st, inp);
  }

  lemma SignLexed(st: State, m: bool, inp: Input)
    requires Ok(st, inp) && !st.unary && st.ptr < |inp.text| && inp.text[st.ptr] == LSign(m)
    ensures var r := Lex(st, inp);
            (r.mtok == Plus || r.mtok == Minus) && !r.unary && r.ptr == st.ptr + 1 && r.stack == st.stack &&
            r.noeval == st.noeval && r.err == st.err
  {}

  lemma LoosePlus(st: State, inp: Input)
    requires Ok(st, inp) && st.noeval >= 0 && (st.mtok == Plus || st.mtok == Minus)
    ensures Loop(st, 8, inp) == st
  {
    hide Lex, Operator, Group, Conditional, PushOperand;
  }

  lemma OperatorErr(st: State, inp: Input)
    requires Ok(st, inp) && st.noeval >= 0 && !st.err && (st.mtok == Plus || st.mtok == Minus) && Operator(st, inp).err
    ensures Loop(st, TOPPREC, inp).err
  {
    hide Lex, Operator, Group, Conditional, PushOperand;
  }

  lemma OneOnly(st: State, op: Tok, bits: Bits)
    requires |st.stack| == 1 && (op == Plus || op == Minus)
    ensures Op(st, op, bits).err
  {}

  /** ++ and -- before and after a name. */
  lemma Steps(x: string, minus: bool, inp: Input, vars: Vars)
    ensures var v := Read(vars, x) + if minus then -1 else 1;
            Answers(inp.(text := [LDouble(minus), LName(x, false)]), vars) == Answer(v, vars[x := v]) &&
            Answers(inp.(text := [LName(x, false), LDouble(minus)]), vars) == Answer(Read(vars, x), vars[x := v])
  {
    hide Answers, Shape;
    var op, t := if minus then PreMinus else PrePlus, LName(x, false);
    LeafShape(t);
    PrefixShape(op, LDouble(minus), Name(x, false), [t], 1);
    PostfixShape(Name(x, false), [t], 1, minus);
    AnswerTo(Prefix(op, Name(x, false)), [LDouble(minus)] + [t], 1, 2, 2, false, inp, vars);
    AnswerTo(Postfix(Name(x, false), minus), [t] + [LDouble(minus)], 1, 2, 2, true, inp, vars);
    assert [LDouble(minus)] + [t] == [LDouble(minus), t] && [t] + [LDouble(minus)] == [t, LDouble(minus)];
  }

  // ----- Assignments -----

  /** The operator that an assignment operator applies; Eoi for the others. */
  function Applied(op: Tok): Tok {
    match op
    case PlusEq => Plus
    case MinusEq => Minus
    case MulEq => Mul
    case DivEq => Div
    case ModEq => Mod
    case AndEq => And
    case XorEq => Xor
    case OrEq => Or
    case ShLeftEq => ShLeft
    case ShRightEq => ShRight
    case DAndEq => DAnd
    case DOrEq => DOr
    case DXorEq => DXor
    case PowerEq => Power
    case _ => Eoi
  }

  predicate Assigns(op: Tok) {
    op == Tok.Eq || Applied(op) != Eoi
  }

  lemma AssignFacts(op: Tok)
    requires Assigns(op)
    ensures IsInfix(op) && IsAssign(op) && Spell(op) == LTok(op) && Prec(op) == 15 && 14 <= Operand(op) <= 15
    ensures Applied(op) != Eoi ==> Base(op) == Applied(op) && Applied(op) in PLAIN
    ensures SignsAfter(op) && (op == Tok.Eq ==> Operand(op) == 15)
  {}

  /** An assignment gives the name its value, and has it. */
  lemma Stores(x: string, b: int, inp: Input, vars: Vars)
    ensures Answers(inp.(text := [LName(x, false), LTok(Tok.Eq), LNum(b)]), vars) == Answer(b, vars[x := b])
  {
    hide Answers, Shape;
    AssignShape(x, Tok.Eq, LNum(b));
    AnswerTo(Infix(Tok.Eq, Name(x, false), Lit(b)), [LName(x, false), LTok(Tok.Eq), LNum(b)], 2, 15, Operand(Tok.Eq),
             true, inp, vars);
  }

  lemma AssignShape(x: string, op: Tok, z: Lexeme)
    requires Assigns(op) && Operand1(z)
    ensures Shape(Infix(op, Name(x, false), Leaf(z)), [LName(x, false), LTok(op), z], 2, 15, Operand(op), true)
  {
    hide Shape, Assigns, IsInfix, Prec, Operand, Spell, Leaf;
    AssignFacts(op);
    NameLeaf(x);
    LeafShape(LName(x, false));
    LeafShape(z);
    InfixShape(op, LTok(op), 15, Operand(op), Name(x, false), [LName(x, false)], 1, 0, -1, true,
               Leaf(z), [z], 1, 0, -1, true);
    assert [LName(x, false)] + [LTok(op)] + [z] == [LName(x, false), LTok(op), z];
  }

  lemma NameLeaf(x: string)
    ensures Leaf(LName(x, false)) == Name(x, false)
  {}

  /** x op= b assigns what x op b gives, and is wrong where that is. */
  lemma Applies(x: string, op: Tok, b: int, inp: Input, vars: Vars)
    requires Applied(op) != Eoi
    ensures var r := Answers(Two(inp, Read(vars, x), Applied(op), b), vars);
            Answers(inp.(text := [LName(x, false), LTok(op), LNum(b)]), vars) ==
            if r == Wrong then Wrong else Answer(r.val, vars[x := r.val])
  {
    hide Answers, Shape, PLAIN, IsInfix, IsAssign, Spell, Prec, Operand, Applied, Base, Arith, Traps, Two, Sign;
    AssignFacts(op);
    TwoIs(inp, Read(vars, x), Applied(op), b, vars);
    AssignShape(x, op, LNum(b));
    AnswerTo(Infix(op, Name(x, false), Lit(b)), [LName(x, false), LTok(op), LNum(b)], 2, 15, Operand(op), true, inp,
             vars);
  }

  /** Every operator binds tighter than an assignment. */
  lemma AssignLast(x: Lexeme, eq: Tok, y: Lexeme, op: Tok, z: Lexeme, i: nat, inp: Input, vars: Vars)
    requires Operand1(x) && Operand1(y) && Operand1(z) && Assigns(eq) && i < |LEVELS| && op in LEVELS[i]
    ensures Answers(inp.(text := [x, LTok(eq), y, Sign(op), z]), vars) ==
            Answers(inp.(text := [x, LTok(eq), LTok(Inpar), y, Sign(op), z, LTok(Outpar)]), vars)
  {
    hide Answers, Shape, Walk, Sign, LEVELS, Leaf, Assigns, IsInfix, Prec, Operand, Spell;
    var e, t := Infix(op, Leaf(y), Leaf(z)), [y, Sign(op), z];
    PairShape(y, op, z, i);
    Right(x, eq, e, t, 2, i + 3, i + 3, true, inp, vars);
    assert [x] + [LTok(eq)] + t == [x, LTok(eq), y, Sign(op), z];
    assert [x] + [LTok(eq)] + ([LTok(Inpar)] + t + [LTok(Outpar)]) ==
           [x, LTok(eq), LTok(Inpar), y, Sign(op), z, LTok(Outpar)];
  }

  /** What an assignment takes as its right operand needs no parentheses. */
  lemma Right(x: Lexeme, eq: Tok, e: Expr, t: seq<Lexeme>, n: nat, level: nat, grip: int, plain: bool, inp: Input,
              vars: Vars)
    requires Operand1(x) && Assigns(eq) && Shape(e, t, n, level, grip, plain) && n <= 9
    requires level <= 14 || (level == 15 && eq == Tok.Eq)
    ensures Answers(inp.(text := [x] + [LTok(eq)] + t), vars) ==
            Answers(inp.(text := [x] + [LTok(eq)] + ([LTok(Inpar)] + t + [LTok(Outpar)])), vars)
  {
    hide Answers, Shape, Walk, Leaf, Assigns, IsInfix, Prec, Operand, Spell;
    var u := [LTok(Inpar)] + t + [LTok(Outpar)];
    AssignFacts(eq);
    LeafShape(x);
    ParenShape(e, t, n, level, grip, plain);
    InfixShape(eq, LTok(eq), 15, Operand(eq), Leaf(x), [x], 1, 0, -1, true, e, t, n, level, grip, plain);
    InfixShape(eq, LTok(eq), 15, Operand(eq), Leaf(x), [x], 1, 0, -1, true, Paren(e), u, n, 1, -1, true);
    ParenRight(inp.env, eq, Leaf(x), e, vars);
    SameAnswer(Infix(eq, Leaf(x), e), [x] + [LTok(eq)] + t, 1 + n, 15, Operand(eq), true,
               Infix(eq, Leaf(x), Paren(e)), [x] + [LTok(eq)] + u, 1 + n, 15, Operand(eq), true, inp, vars);
  }

  /** Assignments group to the right. */
  lemma AssignRight(x: string, y: string, z: Lexeme, inp: Input, vars: Vars)
    requires Operand1(z)
    ensures var t, u := LName(x, false), LName(y, false);
            Answers(inp.(text := [t, LTok(Tok.Eq), u, LTok(Tok.Eq), z]), vars) ==
            Answers(inp.(text := [t, LTok(Tok.Eq), LTok(Inpar), u, LTok(Tok.Eq), z, LTok(Outpar)]), vars)
  {
    hide Answers, Shape, Leaf;
    var t, u, eq := LName(x, false), LName(y, false), LTok(Tok.Eq);
    AssignShape(y, Tok.Eq, z);
    Right(t, Tok.Eq, Infix(Tok.Eq, Name(y, false), Leaf(z)), [u, eq, z], 2, 15, Operand(Tok.Eq), true, inp, vars);
    assert [t] + [eq] + [u, eq, z] == [t, eq, u, eq, z];
    assert [t] + [eq] + ([LTok(Inpar)] + [u, eq, z] + [LTok(Outpar)]) ==
           [t, eq, LTok(Inpar), u, eq, z, LTok(Outpar)];
  }

  /** The two sides of a comma need no parentheses. */
  lemma Commas(x: Lexeme, e: Expr, t: seq<Lexeme>, n: nat, level: nat, grip: int, plain: bool, inp: Input, vars: Vars)
    requires Operand1(x) && Shape(e, t, n, level, grip, plain) && n <= 9 && level <= 15 && grip <= 15
    ensures Answers(inp.(text := t + [LTok(Comma)] + [x]), vars) ==
            Answers(inp.(text := [LTok(Inpar)] + t + [LTok(Outpar)] + [LTok(Comma)] + [x]), vars)
    ensures Answers(inp.(text := [x] + [LTok(Comma)] + t), vars) ==
            Answers(inp.(text := [x] + [LTok(Comma)] + ([LTok(Inpar)] + t + [LTok(Outpar)])), vars)
  {
    hide Answers, Shape, Walk, Leaf;
    var u, c := [LTok(Inpar)] + t + [LTok(Outpar)], LTok(Comma);
    LeafShape(x);
    ParenShape(e, t, n, level, grip, plain);
    var o := Operand(Comma);
    InfixShape(Comma, c, 16, o, e, t, n, level, grip, plain, Leaf(x), [x], 1, 0, -1, true);
    InfixShape(Comma, c, 16, o, Paren(e), u, n, 1, -1, true, Leaf(x), [x], 1, 0, -1, true);
    InfixShape(Comma, c, 16, o, Leaf(x), [x], 1, 0, -1, true, e, t, n, level, grip, plain);
    InfixShape(Comma, c, 16, o, Leaf(x), [x], 1, 0, -1, true, Paren(e), u, n, 1, -1, true);
    ParenLeft(inp.env, Comma, e, Leaf(x), vars);
    ParenRight(inp.env, Comma, Leaf(x), e, vars);
    SameAnswer(Infix(Comma, e, Leaf(x)), t + [c] + [x], n + 1, 16, o, plain,
               Infix(Comma, Paren(e), Leaf(x)), u + [c] + [x], n + 1, 16, o, true, inp, vars);
    SameAnswer(Infix(Comma, Leaf(x), e), [x] + [c] + t, 1 + n, 16, o, true,
               Infix(Comma, Leaf(x), Paren(e)), [x] + [c] + u, 1 + n, 16, o, true, inp, vars);
  }

  /** The comma comes last of all. */
  lemma CommaLast(x: string, y: Lexeme, z: Lexeme, inp: Input, vars: Vars)
    requires Operand1(y) && Operand1(z)
    ensures var t, eq := LName(x, false), LTok(Tok.Eq);
            Answers(inp.(text := [t, eq, y, LTok(Comma), z]), vars) ==
            Answers(inp.(text := [LTok(Inpar), t, eq, y, LTok(Outpar), LTok(Comma), z]), vars)
    ensures var t, eq := LName(x, false), LTok(Tok.Eq);
            Answers(inp.(text := [z, LTok(Comma), t, eq, y]), vars) ==
            Answers(inp.(text := [z, LTok(Comma), LTok(Inpar), t, eq, y, LTok(Outpar)]), vars)
  {
    hide Answers, Shape, Leaf;
    var t, eq, c := LName(x, false), LTok(Tok.Eq), LTok(Comma);
    AssignShape(x, Tok.Eq, y);
    Commas(z, Infix(Tok.Eq, Name(x, false), Leaf(y)), [t, eq, y], 2, 15, Operand(Tok.Eq), true, inp, vars);
    assert [t, eq, y] + [c] + [z] == [t, eq, y, c, z] && [z] + [c] + [t, eq, y] == [z, c, t, eq, y];
    assert [LTok(Inpar)] + [t, eq, y] + [LTok(Outpar)] + [c] + [z] == [LTok(Inpar), t, eq, y, LTok(Outpar), c, z];
    assert [z] + [c] + ([LTok(Inpar)] + [t, eq, y] + [LTok(Outpar)]) == [z, c, LTok(Inpar), t, eq, y, LTok(Outpar)];
  }

  // ----- The conditional operator -----

  /** u ? v : z */
  lemma ChoiceShape(u: Lexeme, v: Lexeme, z: Lexeme)
    requires Operand1(u) && Operand1(v) && Operand1(z)
    ensures Shape(Cond(Leaf(u), Leaf(v), Leaf(z)), [u, LQuest, v, LTok(Colon), z], 3, 14, 14, true)
  {
    hide Shape, Leaf;
    LeafShape(u);
    LeafShape(v);
    LeafShape(z);
    CondShape(Leaf(u), [u], 1, 0, -1, true, Leaf(v), [v], 1, 0, -1, true, Leaf(z), [z], 1, 0, -1, true);
    assert [u] + [LQuest] + [v] + [LTok(Colon)] + [z] == [u, LQuest, v, LTok(Colon), z];
  }

  lemma Chooses(c: int, a: int, b: int, inp: Input, vars: Vars)
    ensures Answers(inp.(text := [LNum(c), LQuest, LNum(a), LTok(Colon), LNum(b)]), vars) ==
            Answer(if c != 0 then a else b, vars)
  {
    hide Answers, Shape;
    ChoiceShape(LNum(c), LNum(a), LNum(b));
    IsLit(inp.env, c, vars);
    IsLit(inp.env, a, vars);
    IsLit(inp.env, b, vars);
    IsChosen(inp.env, Lit(c), Lit(a), Lit(b), vars, c, a, b);
    AnswerTo(Cond(Lit(c), Lit(a), Lit(b)), [LNum(c), LQuest, LNum(a), LTok(Colon), LNum(b)], 3, 14, 14, true, inp,
             vars);
  }

  lemma ParenFirst(env: Env, c: Expr, a: Expr, b: Expr, vars: Vars)
    ensures Walk(env, Cond(Paren(c), a, b), vars, false) == Walk(env, Cond(c, a, b), vars, false)
  {}

  lemma ParenLast(env: Env, c: Expr, a: Expr, b: Expr, vars: Vars)
    ensures Walk(env, Cond(c, a, Paren(b)), vars, false) == Walk(env, Cond(c, a, b), vars, false)
  {}

  /** What is before a question mark and after a colon needs no parentheses. */
  lemma Choice(u: Lexeme, v: Lexeme, e: Expr, t: seq<Lexeme>, n: nat, level: nat, grip: int, inp: Input, vars: Vars)
    requires Operand1(u) && Operand1(v) && Shape(e, t, n, level, grip, true) && n <= 8 && level <= 14
    ensures grip < 14 ==>
      Answers(inp.(text := t + [LQuest] + [u] + [LTok(Colon)] + [v]), vars) ==
      Answers(inp.(text := [LTok(Inpar)] + t + [LTok(Outpar)] + [LQuest] + [u] + [LTok(Colon)] + [v]), vars)
    ensures Answers(inp.(text := [u] + [LQuest] + [v] + [LTok(Colon)] + t), vars) ==
            Answers(inp.(text := [u] + [LQuest] + [v] + [LTok(Colon)] + ([LTok(Inpar)] + t + [LTok(Outpar)])), vars)
  {
    hide Answers, Shape, Walk, Leaf;
    var w := [LTok(Inpar)] + t + [LTok(Outpar)];
    var q, k := [LQuest], [LTok(Colon)];
    LeafShape(u);
    LeafShape(v);
    ParenShape(e, t, n, level, grip, true);
    CondShape(Leaf(u), [u], 1, 0, -1, true, Leaf(v), [v], 1, 0, -1, true, e, t, n, level, grip, true);
    CondShape(Leaf(u), [u], 1, 0, -1, true, Leaf(v), [v], 1, 0, -1, true, Paren(e), w, n, 1, -1, true);
    ParenLast(inp.env, Leaf(u), Leaf(v), e, vars);
    SameAnswer(Cond(Leaf(u), Leaf(v), e), [u] + q + [v] + k + t, 2 + n, 14, 14, true,
               Cond(Leaf(u), Leaf(v), Paren(e)), [u] + q + [v] + k + w, 2 + n, 14, 14, true, inp, vars);
    if grip < 14 {
      CondShape(e, t, n, level, grip, true, Leaf(u), [u], 1, 0, -1, true, Leaf(v), [v], 1, 0, -1, true);
      CondShape(Paren(e), w, n, 1, -1, true, Leaf(u), [u], 1, 0, -1, true, Leaf(v), [v], 1, 0, -1, true);
      ParenFirst(inp.env, e, Leaf(u), Leaf(v), vars);
      SameAnswer(Cond(e, Leaf(u), Leaf(v)), t + q + [u] + k + [v], n + 2, 14, 14, true,
                 Cond(Paren(e), Leaf(u), Leaf(v)), w + q + [u] + k + [v], n + 2, 14, 14, true, inp, vars);
    }
  }

  /** Every operator of the levels binds tighter than a conditional, on both sides. */
  lemma ChoiceLater(y: Lexeme, op: Tok, z: Lexeme, u: Lexeme, v: Lexeme, i: nat, inp: Input, vars: Vars)
    requires Operand1(y) && Operand1(z) && Operand1(u) && Operand1(v) && i < |LEVELS| && op in LEVELS[i]
    ensures Answers(inp.(text := [y, Sign(op), z, LQuest, u, LTok(Colon), v]), vars) ==
            Answers(inp.(text := [LTok(Inpar), y, Sign(op), z, LTok(Outpar), LQuest, u, LTok(Colon), v]), vars)
    ensures Answers(inp.(text := [u, LQuest, v, LTok(Colon), y, Sign(op), z]), vars) ==
            Answers(inp.(text := [u, LQuest, v, LTok(Colon), LTok(Inpar), y, Sign(op), z, LTok(Outpar)]), vars)
  {
    hide Answers, Shape, Leaf, LEVELS, Sign;
    var t, q, k := [y, Sign(op), z], [LQuest], [LTok(Colon)];
    PairShape(y, op, z, i);
    Choice(u, v, Infix(op, Leaf(y), Leaf(z)), t, 2, i + 3, i + 3, inp, vars);
    assert t + q + [u] + k + [v] == [y, Sign(op), z, LQuest, u, LTok(Colon), v];
    assert [u] + q + [v] + k + t == [u, LQuest, v, LTok(Colon), y, Sign(op), z];
    assert [LTok(Inpar)] + t + [LTok(Outpar)] + q + [u] + k + [v] ==
           [LTok(Inpar), y, Sign(op), z, LTok(Outpar), LQuest, u, LTok(Colon), v];
    assert [u] + q + [v] + k + ([LTok(Inpar)] + t + [LTok(Outpar)]) ==
           [u, LQuest, v, LTok(Colon), LTok(Inpar), y, Sign(op), z, LTok(Outpar)];
  }

  /** The conditional operator groups to the right. */
  lemma ChoiceRight(u: Lexeme, v: Lexeme, x: Lexeme, y: Lexeme, z: Lexeme, inp: Input, vars: Vars)
    requires Operand1(u) && Operand1(v) && Operand1(x) && Operand1(y) && Operand1(z)
    ensures Answers(inp.(text := [u, LQuest, v, LTok(Colon), x, LQuest, y, LTok(Colon), z]), vars) ==
            Answers(inp.(text := [u, LQuest, v, LTok(Colon), LTok(Inpar), x, LQuest, y, LTok(Colon), z, LTok(Outpar)]),
                    vars)
  {
    hide Answers, Shape, Leaf;
    var t, q, k := [x, LQuest, y, LTok(Colon), z], [LQuest], [LTok(Colon)];
    ChoiceShape(x, y, z);
    Choice(u, v, Cond(Leaf(x), Leaf(y), Leaf(z)), t, 3, 14, 14, inp, vars);
    assert [u] + q + [v] + k + t == [u, LQuest, v, LTok(Colon), x, LQuest, y, LTok(Colon), z];
    assert [u] + q + [v] + k + ([LTok(Inpar)] + t + [LTok(Outpar)]) ==
           [u, LQuest, v, LTok(Colon), LTok(Inpar), x, LQuest, y, LTok(Colon), z, LTok(Outpar)];
  }

  /** An assignment takes a whole conditional; the comma does not belong to it. */
  lemma ChoiceFirst(x: Lexeme, u: Lexeme, v: Lexeme, z: Lexeme, inp: Input, vars: Vars)
    requires Operand1(x) && Operand1(u) && Operand1(v) && Operand1(z)
    ensures Answers(inp.(text := [x, LTok(Tok.Eq), u, LQuest, v, LTok(Colon), z]), vars) ==
            Answers(inp.(text := [x, LTok(Tok.Eq), LTok(Inpar), u, LQuest, v, LTok(Colon), z, LTok(Outpar)]), vars)
    ensures Answers(inp.(text := [u, LQuest, v, LTok(Colon), z, LTok(Comma), x]), vars) ==
            Answers(inp.(text := [LTok(Inpar), u, LQuest, v, LTok(Colon), z, LTok(Outpar), LTok(Comma), x]), vars)
  {
    hide Answers, Shape, Leaf;
    var t, eq, c := [u, LQuest, v, LTok(Colon), z], LTok(Tok.Eq), LTok(Comma);
    ChoiceShape(u, v, z);
    Right(x, Tok.Eq, Cond(Leaf(u), Leaf(v), Leaf(z)), t, 3, 14, 14, true, inp, vars);
    Commas(x, Cond(Leaf(u), Leaf(v), Leaf(z)), t, 3, 14, 14, true, inp, vars);
    assert [x] + [eq] + t == [x, eq, u, LQuest, v, LTok(Colon), z];
    assert t + [c] + [x] == [u, LQuest, v, LTok(Colon), z, c, x];
    assert [x] + [eq] + ([LTok(Inpar)] + t + [LTok(Outpar)]) ==
           [x, eq, LTok(Inpar), u, LQuest, v, LTok(Colon), z, LTok(Outpar)];
    assert [LTok(Inpar)] + t + [LTok(Outpar)] + [c] + [x] ==
           [LTok(Inpar), u, LQuest, v, LTok(Colon), z, LTok(Outpar), c, x];
  }

  // ----- Whole texts in plain arithmetic -----

  /** The text a op b op' c. */
  function Three(inp: Input, a: int, op: Tok, b: int, op': Tok, c: int): Input {
    inp.(text := [LNum(a), Sign(op), LNum(b), Sign(op'), LNum(c)])
  }

  lemma LeftValue(a: int, op: Tok, b: int, op': Tok, c: int, i: nat, j: nat, inp: Input, vars: Vars)
    requires i < |LEVELS| && j < |LEVELS| && op in LEVELS[i] && op' in LEVELS[j] && i <= j && (i == j ==> i != POWERS)
    requires !Traps(op, b) && !Traps(op', c)
    ensures Answers(Three(inp, a, op, b, op', c), vars) ==
            Answer(Arith(inp.env.bits, op', Arith(inp.env.bits, op, a, b), c), vars)
  {
    hide Answers, Shape, LEVELS, Sign, Arith, Traps, IsInfix, Prec, Operand, Spell, Is;
    var e, t := Infix(op, Lit(a), Lit(b)), [LNum(a), Sign(op), LNum(b)];
    PairShape(LNum(a), op, LNum(b), i);
    LeafShape(LNum(c));
    LevelPrec(i, op);
    LevelPrec(j, op');
    LevelPlain(i, op);
    LevelPlain(j, op');
    ParenShape(e, t, 2, i + 3, i + 3, true);
    var u, o := [LTok(Inpar)] + t + [LTok(Outpar)], Operand(op');
    InfixShape(op', Sign(op'), j + 3, o, Paren(e), u, 2, 1, -1, true, Lit(c), [LNum(c)], 1, 0, -1, true);
    IsLit(inp.env, a, vars);
    IsLit(inp.env, b, vars);
    IsLit(inp.env, c, vars);
    IsInfixed(inp.env, op, Lit(a), Lit(b), vars, a, b);
    var v := Arith(inp.env.bits, op, a, b);
    IsParen(inp.env, e, vars, v);
    IsInfixed(inp.env, op', Paren(e), Lit(c), vars, v, c);
    ValueTo(Infix(op', Paren(e), Lit(c)), u + [Sign(op')] + [LNum(c)], 3, j + 3, o, true, inp, vars,
            Arith(inp.env.bits, op', v, c));
    GroupsLeft(LNum(a), op, LNum(b), op', LNum(c), i, j, inp, vars);
    assert u + [Sign(op')] + [LNum(c)] ==
           [LTok(Inpar), LNum(a), Sign(op), LNum(b), LTok(Outpar), Sign(op'), LNum(c)];
  }

  lemma RightValue(a: int, op: Tok, b: int, op': Tok, c: int, i: nat, j: nat, inp: Input, vars: Vars)
    requires i < |LEVELS| && j < |LEVELS| && op in LEVELS[i] && op' in LEVELS[j] && j <= i && (i == j ==> i == POWERS)
    requires !Traps(op', c) && !Traps(op, Arith(inp.env.bits, op', b, c))
    ensures Answers(Three(inp, a, op, b, op', c), vars) ==
            Answer(Arith(inp.env.bits, op, a, Arith(inp.env.bits, op', b, c)), vars)
  {
    hide Answers, Shape, LEVELS, Sign, Arith, Traps, IsInfix, Prec, Operand, Spell, Is;
    var e, t := Infix(op', Lit(b), Lit(c)), [LNum(b), Sign(op'), LNum(c)];
    PairShape(LNum(b), op', LNum(c), j);
    LeafShape(LNum(a));
    LevelPrec(i, op);
    LevelPrec(j, op');
    LevelPlain(i, op);
    LevelPlain(j, op');
    ParenShape(e, t, 2, j + 3, j + 3, true);
    var u, o := [LTok(Inpar)] + t + [LTok(Outpar)], Operand(op);
    InfixShape(op, Sign(op), i + 3, o, Lit(a), [LNum(a)], 1, 0, -1, true, Paren(e), u, 2, 1, -1, true);
    IsLit(inp.env, a, vars);
    IsLit(inp.env, b, vars);
    IsLit(inp.env, c, vars);
    IsInfixed(inp.env, op', Lit(b), Lit(c), vars, b, c);
    var v := Arith(inp.env.bits, op', b, c);
    IsParen(inp.env, e, vars, v);
    IsInfixed(inp.env, op, Lit(a), Paren(e), vars, a, v);
    ValueTo(Infix(op, Lit(a), Paren(e)), [LNum(a)] + [Sign(op)] + u, 3, i + 3, o, true, inp, vars,
            Arith(inp.env.bits, op, a, v));
    GroupsRight(LNum(a), op, LNum(b), op', LNum(c), i, j, inp, vars);
    assert [LNum(a)] + [Sign(op)] + u ==
           [LNum(a), Sign(op), LTok(Inpar), LNum(b), Sign(op'), LNum(c), LTok(Outpar)];
  }

  lemma LevelPlain(i: nat, op: Tok)
    requires i < |LEVELS| && op in LEVELS[i]
    ensures Base(op) == op
  {
    hide LEVELS;
    LevelPrec(i, op);
  }

  lemma IsParen(env: Env, e: Expr, vars: Vars, v: int)
    requires Is(env, e, vars, v)
    ensures Is(env, Paren(e), vars, v)
  {}

  lemma ValueTo(e: Expr, t: seq<Lexeme>, n: nat, l: nat, g: int, q: bool, inp: Input, vars: Vars, v: int)
    requires Shape(e, t, n, l, g, q) && n <= 10 && Is(inp.env, e, vars, v)
    ensures Answers(inp.(text := t), vars) == Answer(v, vars)
  {
    hide Answers, Shape, Walk;
    AnswerTo(e, t, n, l, g, q, inp, vars);
  }

  /** Products before sums, and differences from the left. */
  lemma Sums(a: int, b: int, c: int, inp: Input, vars: Vars)
    ensures Answers(Three(inp, a, Plus, b, Mul, c), vars) == Answer(a + b * c, vars)
    ensures Answers(Three(inp, a, Mul, b, Plus, c), vars) == Answer(a * b + c, vars)
    ensures Answers(Three(inp, a, Minus, b, Minus, c), vars) == Answer(a - b - c, vars)
  {
    hide Answers, Three, LEVELS, Base, Quotient, Remainder, Pow;
    LevelsAre();
    RightValue(a, Plus, b, Mul, c, 6, 5, inp, vars);
    LeftValue(a, Mul, b, Plus, c, 5, 6, inp, vars);
    LeftValue(a, Minus, b, Minus, c, 6, 6, inp, vars);
  }

  /** Comparisons before equality. */
  lemma Equalities(a: int, b: int, c: int, inp: Input, vars: Vars)
    ensures Answers(Three(inp, a, Les, b, Deq, c), vars) == Answer(if (if a < b then 1 else 0) == c then 1 else 0, vars)
    ensures Answers(Three(inp, a, Deq, b, Les, c), vars) == Answer(if a == (if b < c then 1 else 0) then 1 else 0, vars)
  {
    hide Answers, Three, LEVELS, Base, Quotient, Remainder, Pow;
    LevelsAre();
    LeftValue(a, Les, b, Deq, c, 7, 8, inp, vars);
    RightValue(a, Deq, b, Les, c, 8, 7, inp, vars);
  }

  /** && before ||. */
  lemma Logic(a: int, b: int, c: int, inp: Input, vars: Vars)
    ensures Answers(Three(inp, a, DAnd, b, DOr, c), vars) ==
            Answer(if (a != 0 && b != 0) || c != 0 then 1 else 0, vars)
    ensures Answers(Three(inp, a, DOr, b, DAnd, c), vars) ==
            Answer(if a != 0 || (b != 0 && c != 0) then 1 else 0, vars)
  {
    hide Answers, Three, LEVELS, Base, Quotient, Remainder, Pow;
    LevelsAre();
    LeftValue(a, DAnd, b, DOr, c, 9, 10, inp, vars);
    RightValue(a, DOr, b, DAnd, c, 10, 9, inp, vars);
  }

  lemma LevelsAre()
    ensures |LEVELS| == 11 && Power in LEVELS[4] && Mul in LEVELS[5] && Plus in LEVELS[6] && Minus in LEVELS[6]
    ensures Les in LEVELS[7] && Deq in LEVELS[8] && DAnd in LEVELS[9] && DOr in LEVELS[10]
  {}

  lemma {:induction false} PowPositive(a: int, n: nat)
    requires a >= 0
    ensures Pow(a, n) >= 0
  {
    if n > 0 { PowPositive(a, n - 1); }
  }

  /** Powers group to the right, and a sign before one belongs to its base. */
  lemma PowerTexts(a: int, b: nat, c: nat, inp: Input, vars: Vars)
    ensures Answers(Three(inp, a, Power, b, Power, c), vars) == Answers(Two(inp, a, Power, Pow(b, c)), vars)
    ensures Answers(inp.(text := [LSign(true), LNum(a), LTok(Power), LNum(b)]), vars) ==
            Answers(Two(inp, -a, Power, b), vars)
  {
    hide Answers, Three, Two, LEVELS, Pow, Shape, PLAIN;
    LevelsAre();
    PlainAll();
    PowPositive(b, c);
    RightValue(a, Power, b, Power, c, 4, 4, inp, vars);
    TwoIs(inp, a, Power, Pow(b, c), vars);
    TwoIs(inp, -a, Power, b, vars);
    var e := Prefix(UMinus, Lit(a));
    SignShape(UMinus, a);
    LeafShape(LNum(b));
    InfixShape(Power, LTok(Power), 7, 7, e, [LSign(true), LNum(a)], 1, 2, 2, false, Lit(b), [LNum(b)], 1, 0, -1, true);
    IsLit(inp.env, a, vars);
    IsLit(inp.env, b, vars);
    IsPrefixed(inp.env, UMinus, Lit(a), vars, a);
    IsInfixed(inp.env, Power, e, Lit(b), vars, -a, b);
    ValueTo(Infix(Power, e, Lit(b)), [LSign(true), LNum(a)] + [LTok(Power)] + [LNum(b)], 2, 7, 7, false, inp, vars,
            Pow(-a, b));
    assert [LSign(true), LNum(a)] + [LTok(Power)] + [LNum(b)] == [LSign(true), LNum(a), LTok(Power), LNum(b)];
  }

  lemma WalkChain(env: Env, x: string, y: string, a: int, vars: Vars)
    ensures Walk(env, Infix(Tok.Eq, Name(x, false), Infix(Tok.Eq, Name(y, false), Lit(a))), vars, false) ==
            Done(a, LValue(x), vars[y := a][x := a])
  {
    assert Walk(env, Infix(Tok.Eq, Name(y, false), Lit(a)), vars, false) == Done(a, LValue(y), vars[y := a]);
  }

  /** x = y = a sets both. */
  lemma StoresTwice(x: string, y: string, a: int, inp: Input, vars: Vars)
    ensures Answers(inp.(text := [LName(x, false), LTok(Tok.Eq), LName(y, false), LTok(Tok.Eq), LNum(a)]), vars) ==
            Answer(a, vars[y := a][x := a])
  {
    hide Answers, Shape, Walk;
    var t, u, eq := LName(x, false), LName(y, false), LTok(Tok.Eq);
    var r := Infix(Tok.Eq, Name(y, false), Lit(a));
    AssignShape(y, Tok.Eq, LNum(a));
    LeafShape(t);
    InfixShape(Tok.Eq, eq, 15, 15, Name(x, false), [t], 1, 0, -1, true, r, [u, eq, LNum(a)], 2, 15, 15, true);
    AnswerTo(Infix(Tok.Eq, Name(x, false), r), [t] + [eq] + [u, eq, LNum(a)], 3, 15, 15, true, inp, vars);
    WalkChain(inp.env, x, y, a, vars);
    assert [t] + [eq] + [u, eq, LNum(a)] == [t, eq, u, eq, LNum(a)];
  }

  /** a ? b : c ? d : e */
  lemma TwoChoices(a: int, b: int, c: int, d: int, e: int, inp: Input, vars: Vars)
    ensures Answers(inp.(text := [LNum(a), LQuest, LNum(b), LTok(Colon), LNum(c), LQuest, LNum(d), LTok(Colon),
                                  LNum(e)]), vars) ==
            Answer(if a != 0 then b else if c != 0 then d else e, vars)
  {
    hide Answers, Shape, Is;
    var l, q, k := Cond(Lit(c), Lit(d), Lit(e)), [LQuest], [LTok(Colon)];
    var t := [LNum(c), LQuest, LNum(d), LTok(Colon), LNum(e)];
    ChoiceShape(LNum(c), LNum(d), LNum(e));
    LeafShape(LNum(a));
    LeafShape(LNum(b));
    CondShape(Lit(a), [LNum(a)], 1, 0, -1, true, Lit(b), [LNum(b)], 1, 0, -1, true, l, t, 3, 14, 14, true);
    IsLit(inp.env, a, vars);
    IsLit(inp.env, b, vars);
    IsLit(inp.env, c, vars);
    IsLit(inp.env, d, vars);
    IsLit(inp.env, e, vars);
    IsChosen(inp.env, Lit(c), Lit(d), Lit(e), vars, c, d, e);
    IsChosen(inp.env, Lit(a), Lit(b), l, vars, a, b, if c != 0 then d else e);
    ValueTo(Cond(Lit(a), Lit(b), l), [LNum(a)] + q + [LNum(b)] + k + t, 5, 14, 14, true, inp, vars,
            if a != 0 then b else if c != 0 then d else e);
    assert [LNum(a)] + q + [LNum(b)] + k + t ==
           [LNum(a), LQuest, LNum(b), LTok(Colon), LNum(c), LQuest, LNum(d), LTok(Colon), LNum(e)];
  }
}
