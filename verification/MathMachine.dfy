/** mathparse of Src/math.c as a function on its global state: an operator
    precedence parser that executes while it parses. */
module MathMachine {
  import opened MathTokens
  import opened MathOps
  import opened MathExpr

  const STACKSZ := 100
  const LVCOUNT := 32

  /** One stack cell; lv indexes the names seen so far, or is -1. */
  datatype Cell = Cell(val: int, lv: int)

  /** stack holds the cells up to the stack pointer. */
  datatype State = State(
    ptr: nat, unary: bool, mtok: Tok, yyval: int, yylval: int,
    stack: seq<Cell>, noeval: int, lvals: seq<string>, vars: Vars, err: bool)

  /** The text, the meaning of the parameters of the model, the last exit status
      that a leading `?` stands for, and what lies in memory below the stack. */
  datatype Input = Input(text: seq<Lexeme>, env: Env, lastval: int, below: nat -> int)

  predicate Ok(st: State, inp: Input) {
    st.ptr <= |inp.text| && |st.stack| <= STACKSZ && |st.lvals| <= LVCOUNT
  }

  // ----- Lexing -----

  /** zzlex. */
  function Lex(st: State, inp: Input): (r: State)
    requires Ok(st, inp)
    ensures Ok(r, inp) && r.stack == st.stack && r.noeval == st.noeval && r.vars == st.vars
    ensures st.err ==> r.err
    ensures r.mtok == Eoi || (r.ptr == st.ptr + 1 && r.mtok == TokenOf(inp.text[st.ptr], st.unary))
    ensures st.lvals <= r.lvals && st.ptr <= r.ptr
  {
    if st.ptr == |inp.text| then st.(mtok := Eoi, unary := true)
    else
      var l := inp.text[st.ptr];
      var t := TokenOf(l, st.unary);
      if t == Eoi then st.(mtok := Eoi)
      else if l.LName? && |st.lvals| == LVCOUNT then st.(mtok := Eoi, err := true)
      else Take(st.(ptr := st.ptr + 1, unary := UnaryAfter(l, st.unary), mtok := t), l, inp.lastval)
  }

  /** The value that comes with a lexeme. */
  function Take(st: State, l: Lexeme, lastval: int): State {
    if l.LNum? then st.(yyval := l.n)
    else if l.LName? then st.(yylval := |st.lvals|, lvals := st.lvals + [l.id])
    else if l.LQuest? && st.mtok == Num then st.(yyval := lastval)
    else st
  }

  // ----- The value stack -----

  function Top(st: State): Cell
    requires |st.stack| > 0
  {
    st.stack[|st.stack| - 1]
  }

  /** What reading stack[sp] gives, even if the stack is empty. */
  function Peek(st: State, inp: Input): int {
    if |st.stack| > 0 then Top(st).val else inp.below(st.ptr)
  }

  function Push(st: State, v: int, lv: int): (r: State)
    ensures |st.stack| <= STACKSZ ==> |r.stack| <= STACKSZ
  {
    if |st.stack| == STACKSZ then st.(stack := st.stack[..STACKSZ - 1] + [Cell(v, lv)], err := true)
    else st.(stack := st.stack + [Cell(v, lv)])
  }

  function SetTop(st: State, v: int, lv: int): State
    requires |st.stack| > 0
  {
    st.(stack := st.stack[|st.stack| - 1 := Cell(v, lv)])
  }

  function Pop(st: State, n: nat): State
    requires n <= |st.stack|
  {
    st.(stack := st.stack[..|st.stack| - n])
  }

  function Fail(st: State): State {
    st.(err := true)
  }

  predicate ValidLv(st: State, lv: int) {
    0 <= lv < |st.lvals|
  }

  /** setvar: the value it returns, and the state after it. */
  function SetVarValue(st: State, lv: int, v: int): int {
    if ValidLv(st, lv) then v else 0
  }

  function SetVar(st: State, lv: int, v: int): State {
    if !ValidLv(st, lv) then Fail(st)
    else if st.noeval != 0 then st
    else st.(vars := st.vars[st.lvals[lv] := v])
  }

  /** What executing an operator keeps. */
  predicate Quiet(st: State, r: State) {
    |r.stack| <= STACKSZ && r.ptr == st.ptr && r.unary == st.unary && r.mtok == st.mtok && r.yyval == st.yyval &&
    r.yylval == st.yylval && r.noeval == st.noeval && r.lvals == st.lvals && (st.err ==> r.err) &&
    (st.noeval != 0 ==> r.vars == st.vars)
  }

  predicate IsUnary(t: Tok) {
    t == Not || t == Comp || t == UPlus || t == UMinus
  }

  function UnaryValue(t: Tok, v: int): int {
    if t == Not then Truth(v == 0) else if t == Comp then -v - 1 else if t == UPlus then v else -v
  }

  predicate IsStep(t: Tok) {
    t == PostPlus || t == PostMinus || t == PrePlus || t == PreMinus
  }

  /** ++ and --, before or after their operand. */
  function StepTop(st: State, t: Tok): (r: State)
    requires 0 < |st.stack| <= STACKSZ
    ensures Quiet(st, r)
  {
    var v, lv := Top(st).val + (if t == PostPlus || t == PrePlus then 1 else -1), Top(st).lv;
    if t == PrePlus || t == PreMinus then SetTop(SetVar(st, lv, v), SetVarValue(st, lv, v), lv) else SetVar(st, lv, v)
  }

  /** op for the operators that work on the top of the stack. */
  function OpTop(st: State, t: Tok): (r: State)
    requires 0 < |st.stack| <= STACKSZ
    ensures Quiet(st, r)
  {
    if IsUnary(t) then SetTop(st, UnaryValue(t, Top(st).val), -1)
    else if IsStep(t) then StepTop(st, t)
    else if t == Colon then st
    else Fail(st)
  }

  /** op for the operators that take two values. */
  function OpInfix(st: State, t: Tok, bits: Bits): (r: State)
    requires 2 <= |st.stack| <= STACKSZ
    ensures Quiet(st, r)
  {
    var n := |st.stack|;
    var a, b := st.stack[n - 2], st.stack[n - 1].val;
    var st1 := Pop(st, 2);
    if Traps(Base(t), b) then Fail(st1)
    else
      var x := Arith(bits, Base(t), a.val, b);
      if IsAssign(t) then Push(SetVar(st1, a.lv, x), SetVarValue(st1, a.lv, x), a.lv) else Push(st1, x, -1)
  }

  /** op for the conditional, with all three values on the stack. */
  function OpQuest(st: State): (r: State)
    requires 3 <= |st.stack| <= STACKSZ
    ensures Quiet(st, r)
  {
    var n := |st.stack|;
    Push(Pop(st, 3), if st.stack[n - 3].val != 0 then st.stack[n - 2].val else st.stack[n - 1].val, -1)
  }

  /** op: executes one operator on the stack. */
  function Op(st: State, t: Tok, bits: Bits): (r: State)
    requires |st.stack| <= STACKSZ
    ensures Quiet(st, r)
  {
    if |st.stack| == 0 then Fail(st)
    else if t == Quest then (if |st.stack| < 3 then Fail(st) else OpQuest(st))
    else if IsInfix(t) then (if |st.stack| < 2 then Fail(st) else OpInfix(st, t, bits))
    else OpTop(st, t)
  }

  // ----- Parsing -----

  /** What is still to be read. */
  function Rest(st: State, inp: Input): nat
    requires Ok(st, inp)
  {
    2 * (|inp.text| - st.ptr) + (if st.mtok == Eoi then 0 else 1)
  }

  /** What every step keeps: errors stick, suppression is undone, suppressed
      evaluation assigns nothing, and only unread text remains. */
  predicate Keeps(st: State, r: State, inp: Input) {
    Ok(st, inp) && Ok(r, inp) && (st.err ==> r.err) && r.noeval == st.noeval &&
    (st.noeval > 0 ==> r.vars == st.vars) && st.lvals <= r.lvals && st.ptr <= r.ptr
  }

  /** mathparse: reads a token and goes on while it binds tightly enough. */
  function Parse(st: State, pc: int, inp: Input): (r: State)
    requires Ok(st, inp) && pc <= TOPPREC && st.noeval >= 0
    ensures Keeps(st, r, inp)
    ensures !r.err ==> Rest(r, inp) <= 2 * (|inp.text| - st.ptr)
    decreases 2 * (|inp.text| - st.ptr), 1
  {
    if st.err then st else Loop(Lex(st, inp), pc, inp)
  }

  /** The loop of mathparse, with its token read. */
  function Loop(st: State, pc: int, inp: Input): (r: State)
    requires Ok(st, inp) && pc <= TOPPREC && st.noeval >= 0
    ensures Keeps(st, r, inp)
    ensures !r.err ==> Rest(r, inp) <= Rest(st, inp)
    decreases Rest(st, inp), 0
  {
    if Prec(st.mtok) > pc || st.err then st
    else
      var st1 := if Prec(st.mtok) == 0 then Lex(PushOperand(st, inp), inp)
                 else if st.mtok == Inpar then Group(st, inp)
                 else if st.mtok == Quest then Conditional(st, inp)
                 else Operator(st, inp);
      if st1.err then st1 else Loop(st1, pc, inp)
  }

  /** A number or a name. */
  function PushOperand(st: State, inp: Input): (r: State)
    requires Ok(st, inp)
    ensures Keeps(st, r, inp) && r.ptr == st.ptr && r.mtok == st.mtok
  {
    if st.mtok == Num then Push(st, st.yyval, -1) else Push(st, LoadName(st, st.mtok == Cid, inp), st.yylval)
  }

  /** A parenthesised expression. */
  function Group(st: State, inp: Input): (r: State)
    requires Ok(st, inp) && st.noeval >= 0 && st.mtok != Eoi
    ensures Keeps(st, r, inp)
    ensures !r.err ==> Rest(r, inp) < Rest(st, inp)
    decreases 2 * (|inp.text| - st.ptr), 2
  {
    var st1 := Parse(st, TOPPREC, inp);
    if st1.mtok != Outpar then Fail(st1) else Lex(st1, inp)
  }

  /** A conditional, after its condition. */
  function Conditional(st: State, inp: Input): (r: State)
    requires Ok(st, inp) && st.noeval >= 0 && st.mtok != Eoi
    ensures Keeps(st, r, inp)
    ensures !r.err ==> Rest(r, inp) < Rest(st, inp)
    decreases 2 * (|inp.text| - st.ptr), 2
  {
    var q := Peek(st, inp);
    var st1 := Parse(st.(noeval := st.noeval + Truth(q == 0)), Prec(Quest) - 1, inp);
    var st2 := Parse(st1.(noeval := st.noeval + Truth(q != 0)), Prec(Quest), inp);
    Op(st2.(noeval := st.noeval), Quest, inp.env.bits)
  }

  /** Any other operator, with the operand after it. */
  function Operator(st: State, inp: Input): (r: State)
    requires Ok(st, inp) && st.noeval >= 0 && 0 < Prec(st.mtok) <= TOPPREC
    ensures Keeps(st, r, inp)
    ensures !r.err ==> Rest(r, inp) < Rest(st, inp)
    decreases 2 * (|inp.text| - st.ptr), 2
  {
    var st1 := Parse(st.(noeval := st.noeval + Truth(Shorts(st.mtok, Peek(st, inp)))), Operand(st.mtok), inp);
    Op(st1.(noeval := st.noeval), st.mtok, inp.env.bits)
  }

  /** The value of the name just lexed. */
  function LoadName(st: State, code: bool, inp: Input): int {
    if st.noeval != 0 || !ValidLv(st, st.yylval) then 0
    else Load(inp.env, st.vars, st.lvals[st.yylval], code)
  }
}
