/** The evaluator of Src/math.c with its global state: zzlex, push, setvar, op,
    bop, mathparse and mathevall. */
module MathEvaluator {
  import opened MathTokens
  import opened MathOps
  import opened MathExpr
  import opened MathMachine
  import opened MathCorrect

  class Evaluator {
    const inp: Input
    var ptr: nat
    var unary: bool
    var mtok: Tok
    var yyval: int
    var yylval: int
    var stack: array<Cell>
    var sp: int
    var noeval: int
    var lvals: seq<string>
    var vars: Vars
    var errflag: bool

    ghost predicate Valid()
      reads this
    {
      stack.Length == STACKSZ && -1 <= sp < STACKSZ && ptr <= |inp.text| && |lvals| <= LVCOUNT && noeval >= 0
    }

    ghost function Abs(): (st: State)
      reads this, stack
      requires Valid()
      ensures Ok(st, inp)
    {
      State(ptr, unary, mtok, yyval, yylval, stack[..sp + 1], noeval, lvals, vars, errflag)
    }

    /** The state mathevall sets up. */
    constructor (inp: Input, vars: Vars)
      ensures Valid() && fresh(stack) && this.inp == inp
      ensures Abs() == State(0, true, Eoi, 0, 0, [], 0, [], vars, false)
    {
      this.inp, this.vars := inp, vars;
      ptr, unary, mtok, yyval, yylval := 0, true, Eoi, 0, 0;
      sp, noeval, lvals, errflag := -1, 0, [], false;
      stack := new Cell[STACKSZ](_ => Cell(0, -1));
      new;
      assert stack[..0] == [];
    }

    method ZzLex()
      requires Valid()
      modifies this
      ensures Valid() && stack == old(stack) && sp == old(sp) && Abs() == Lex(old(Abs()), inp)
    {
      hide TokenOf, UnaryAfter, Take;
      ghost var st := Abs();
      if ptr == |inp.text| {
        mtok, unary := Eoi, true;
        return;
      }
      var l := inp.text[ptr];
      mtok := TokenOf(l, unary);
      if mtok == Eoi { return; }
      if l.LName? && |lvals| == LVCOUNT {
        mtok, errflag := Eoi, true;
        return;
      }
      unary, ptr := UnaryAfter(l, unary), ptr + 1;
      assert Abs() == st.(ptr := st.ptr + 1, unary := UnaryAfter(l, st.unary), mtok := TokenOf(l, st.unary));
      TakeValue(l);
    }

    method TakeValue(l: Lexeme)
      requires Valid() && (l.LName? ==> |lvals| < LVCOUNT)
      modifies this`yyval, this`yylval, this`lvals
      ensures Valid() && Abs() == Take(old(Abs()), l, inp.lastval)
    {
      if l.LNum? {
        yyval := l.n;
      } else if l.LName? {
        yylval := |lvals|;
        lvals := lvals + [l.id];
      } else if l.LQuest? && mtok == Num {
        yyval := inp.lastval;
      }
    }

    method PushValue(v: int, lv: int)
      requires Valid()
      modifies this`sp, this`errflag, stack
      ensures Valid() && Abs() == Push(old(Abs()), v, lv)
    {
      if sp == STACKSZ - 1 {
        errflag := true;
      } else {
        sp := sp + 1;
      }
      stack[sp] := Cell(v, lv);
      assert stack[..sp + 1] == stack[..sp] + [stack[sp]];
    }

    method SetVariable(lv: int, v: int) returns (r: int)
      requires Valid()
      modifies this`vars, this`errflag
      ensures Valid() && r == SetVarValue(old(Abs()), lv, v) && Abs() == SetVar(old(Abs()), lv, v)
    {
      if lv < 0 || lv >= |lvals| {
        errflag := true;
        return 0;
      }
      if noeval == 0 { vars := vars[lvals[lv] := v]; }
      return v;
    }

    /** nolval and an assignment to the top of the stack. */
    method ReplaceTop(v: int, lv: int)
      requires Valid() && sp >= 0
      modifies stack
      ensures Abs() == SetTop(old(Abs()), v, lv)
    {
      stack[sp] := Cell(v, lv);
    }

    method Drop(n: nat)
      requires Valid() && n <= sp + 1
      modifies this`sp
      ensures Valid() && Abs() == Pop(old(Abs()), n)
    {
      sp := sp - n;
      assert stack[..sp + 1] == old(stack[..sp + 1])[..old(sp) + 1 - n];
    }

    /** c = 1; b times c *= a. */
    method Power(a: int, b: nat) returns (c: int)
      ensures c == Pow(a, b)
    {
      c := 1;
      var n := b;
      while n > 0
        invariant 0 <= n <= b && c * Pow(a, n) == Pow(a, b)
      {
        assert c * Pow(a, n) == c * (a * Pow(a, n - 1)) == (c * a) * Pow(a, n - 1);
        c, n := c * a, n - 1;
      }
    }

    method Execute(t: Tok)
      requires Valid()
      modifies this`sp, this`errflag, this`vars, stack
      ensures Valid() && Abs() == Op(old(Abs()), t, inp.env.bits)
    {
      hide Arith, IsAssign, IsInfix, Base, Traps, OpInfix, OpTop;
      if sp < 0 {
        errflag := true;
      } else if t == Quest {
        if sp < 2 { errflag := true; return; }
        var v := if stack[sp - 2].val != 0 then stack[sp - 1].val else stack[sp].val;
        Drop(3);
        PushValue(v, -1);
      } else if IsInfix(t) {
        if sp < 1 { errflag := true; return; }
        ExecuteInfix(t);
      } else {
        ExecuteTop(t);
      }
    }

    method ExecuteInfix(t: Tok)
      requires Valid() && sp >= 1
      modifies this`sp, this`errflag, this`vars, stack
      ensures Valid() && Abs() == OpInfix(old(Abs()), t, inp.env.bits)
    {
      hide Arith, IsAssign, Base, Traps, Pop, Push, SetVar, SetVarValue;
      ghost var st := Abs();
      var a, b := stack[sp - 1], stack[sp].val;
      assert a == st.stack[|st.stack| - 2] && b == Top(st).val;
      Drop(2);
      if Traps(Base(t), b) {
        errflag := true;
        return;
      }
      var x := Compute(Base(t), a.val, b);
      if IsAssign(t) {
        var v := SetVariable(a.lv, x);
        PushValue(v, a.lv);
      } else {
        PushValue(x, -1);
      }
    }

    method Compute(t: Tok, a: int, b: int) returns (x: int)
      requires !Traps(t, b)
      ensures x == Arith(inp.env.bits, t, a, b)
    {
      if t == Tok.Power {
        x := Power(a, b);
      } else {
        x := Arith(inp.env.bits, t, a, b);
      }
    }

    method ExecuteTop(t: Tok)
      requires Valid() && sp >= 0
      modifies this`errflag, this`vars, stack
      ensures Valid() && Abs() == OpTop(old(Abs()), t)
    {
      hide SetTop, StepTop, UnaryValue, IsUnary, IsStep;
      if IsUnary(t) {
        ReplaceTop(UnaryValue(t, stack[sp].val), -1);
      } else if IsStep(t) {
        Increment(t);
      } else if t != Colon {
        errflag := true;
      }
    }

    method Increment(t: Tok)
      requires Valid() && sp >= 0
      modifies this`errflag, this`vars, stack
      ensures Valid() && Abs() == StepTop(old(Abs()), t)
    {
      hide SetTop, SetVar, SetVarValue;
      ghost var st := Abs();
      assert stack[sp] == Top(st);
      var v, lv := stack[sp].val + (if t == PostPlus || t == PrePlus then 1 else -1), stack[sp].lv;
      var r := SetVariable(lv, v);
      if t == PrePlus || t == PreMinus { ReplaceTop(r, lv); }
    }

    /** The value that reading stack[sp] gives. */
    method Look() returns (q: int)
      requires Valid()
      ensures q == Peek(Abs(), inp)
    {
      q := if sp >= 0 then stack[sp].val else inp.below(ptr);
    }

    /** bop: suppresses evaluation of an operand that is not needed. */
    method BeforeOp(t: Tok)
      requires Valid()
      modifies this`noeval
      ensures Valid() && Abs() == old(Abs()).(noeval := old(noeval) + Truth(Shorts(t, Peek(old(Abs()), inp))))
    {
      hide Peek, Base;
      BaseBool(t);
      var q := Look();
      if t == DAnd || t == DAndEq {
        if q == 0 { noeval := noeval + 1; }
      } else if t == DOr || t == DOrEq {
        if q != 0 { noeval := noeval + 1; }
      }
    }

    /** A number or a name, and the token after it. */
    method ParseOperand()
      requires Valid() && Prec(mtok) == 0
      modifies this, stack
      ensures Valid() && stack == old(stack) && Abs() == Lex(PushOperand(old(Abs()), inp), inp)
    {
      hide Lex, Push;
      if mtok == Num {
        PushValue(yyval, -1);
      } else {
        var v := if noeval != 0 || !(0 <= yylval < |lvals|) then 0
                 else Load(inp.env, vars, lvals[yylval], mtok == Cid);
        PushValue(v, yylval);
      }
      ZzLex();
    }

    method ParseGroup()
      requires Valid() && mtok == Inpar
      modifies this, stack
      ensures Valid() && stack == old(stack) && Abs() == Group(old(Abs()), inp)
      decreases 2 * (|inp.text| - ptr), 2
    {
      hide Lex, Parse;
      MathParse(TOPPREC);
      if mtok != Outpar {
        errflag := true;
        return;
      }
      ZzLex();
    }

    method ParseConditional()
      requires Valid() && mtok == Quest
      modifies this, stack
      ensures Valid() && stack == old(stack) && Abs() == Conditional(old(Abs()), inp)
      decreases 2 * (|inp.text| - ptr), 3
    {
      hide Lex, Parse, Op, Peek;
      var q := Look();
      ParseBranch(q == 0, Prec(Quest) - 1);
      ParseBranch(q != 0, Prec(Quest));
      Execute(Quest);
    }

    /** A branch of a conditional, suppressed if it is not taken. */
    method ParseBranch(suppress: bool, pc: int)
      requires Valid() && pc <= TOPPREC
      modifies this, stack
      ensures Valid() && stack == old(stack)
      ensures var st := old(Abs());
              Abs() == Parse(st.(noeval := st.noeval + Truth(suppress)), pc, inp).(noeval := st.noeval)
      ensures old(ptr) <= ptr
      decreases 2 * (|inp.text| - ptr), 2
    {
      hide Lex, Parse, Rest;
      ghost var st := Abs();
      if suppress { noeval := noeval + 1; }
      assert Abs() == st.(noeval := st.noeval + Truth(suppress));
      MathParse(pc);
      if suppress { noeval := noeval - 1; }
    }

    method ParseOperator()
      requires Valid() && 0 < Prec(mtok) <= TOPPREC
      modifies this, stack
      ensures Valid() && stack == old(stack) && Abs() == Operator(old(Abs()), inp)
      decreases 2 * (|inp.text| - ptr), 2
    {
      hide Lex, Parse, Op, Shorts, Peek, Prec, Operand, Type;
      OperandBelow(mtok);
      var otok, onoeval := mtok, noeval;
      ghost var st := Abs();
      if Type(otok) == BOOL { BeforeOp(otok); } else { NotShort(otok, Peek(st, inp)); }
      assert Abs() == st.(noeval := st.noeval + Truth(Shorts(otok, Peek(st, inp))));
      MathParse(Operand(otok));
      ghost var st1 := Abs();
      noeval := onoeval;
      assert Abs() == st1.(noeval := onoeval);
      Execute(otok);
    }

    /** mathparse: reads and executes while operators bind tightly enough. */
    method MathParse(pc: int)
      requires Valid() && pc <= TOPPREC
      modifies this, stack
      ensures Valid() && stack == old(stack) && Abs() == Parse(old(Abs()), pc, inp)
      decreases 2 * (|inp.text| - ptr), 1
    {
      hide Lex, Loop, PushOperand, Group, Conditional, Operator;
      if errflag { return; }
      ghost var goal := Parse(Abs(), pc, inp);
      ZzLex();
      while Prec(mtok) <= pc
        invariant Valid() && stack == old(stack) && Loop(Abs(), pc, inp) == goal
        invariant Rest(Abs(), inp) <= 2 * (|inp.text| - old(ptr))
        decreases Rest(Abs(), inp)
      {
        LoopStep(Abs(), pc, inp);
        if errflag { return; }
        if Prec(mtok) == 0 {
          ParseOperand();
        } else if mtok == Inpar {
          ParseGroup();
        } else if mtok == Quest {
          ParseConditional();
        } else {
          ParseOperator();
        }
        if errflag { return; }
      }
      LoopStep(Abs(), pc, inp);
    }
  }

  lemma BaseBool(t: Tok)
    ensures (Base(t) == DAnd <==> t == DAnd || t == DAndEq) && (Base(t) == DOr <==> t == DOr || t == DOrEq)
  {}

  lemma OperandBelow(t: Tok)
    requires Prec(t) <= TOPPREC
    ensures Operand(t) <= TOPPREC
  {
    hide Prec, Type;
  }

  /** Only the boolean operators suppress their operand. */
  lemma NotShort(t: Tok, q: int)
    requires Type(t) != BOOL
    ensures !Shorts(t, q)
  {}

  /** One round of the loop of mathparse. */
  lemma LoopStep(st: State, pc: int, inp: Input)
    requires Ok(st, inp) && pc <= TOPPREC && st.noeval >= 0
    ensures Prec(st.mtok) > pc || st.err ==> Loop(st, pc, inp) == st
    ensures Prec(st.mtok) <= pc && !st.err ==>
      var st1 := if Prec(st.mtok) == 0 then Lex(PushOperand(st, inp), inp)
                 else if st.mtok == Inpar then Group(st, inp)
                 else if st.mtok == Quest then Conditional(st, inp)
                 else Operator(st, inp);
      Loop(st, pc, inp) == (if st1.err then st1 else Loop(st1, pc, inp)) &&
      (!st1.err ==> Rest(st1, inp) < Rest(st, inp))
  {
    hide Group, Conditional, Operator;
  }

  // ----- Whole expressions -----

  /** The state in which a whole expression is read. */
  function Initial(vars: Vars): State {
    State(0, true, Eoi, 0, 0, [], 0, [], vars, false)
  }

  lemma WholeStarts(e: Expr, inp: Input, vars: Vars)
    requires Wf(e, true) && Need(e) <= STACKSZ && Names(e) <= LVCOUNT && inp.text == Print(e)
    ensures Starts(Initial(vars), e, TOPPREC, inp)
  {
    hide Wf, Print, Need, Names, Grip, Level;
    GripLevel(e, true);
    assert Placed(inp.text, 0, Print(e));
  }

  lemma WholeEnds(sx: State, names: nat, w: Outcome, inp: Input, vars: Vars)
    requires HasRead(Initial(vars), names, |inp.text|, w, sx, inp)
    ensures !sx.err && |sx.stack| == 1 && Top(sx).val == w.val && sx.vars == w.vars && sx.ptr == |inp.text|
    ensures Loop(sx, TOPPREC, inp) == sx
  {
    hide Loop, LvMatches;
    LoopStops(sx, TOPPREC, inp);
  }

  /** A printed tree of the table grammar that fits the evaluator's limits is
      reported as an error exactly if something traps in it, and else leaves one
      value: its standard one, with the standard assignments. */
  lemma WholeExpression(e: Expr, inp: Input, vars: Vars)
    requires Wf(e, true) && Need(e) <= STACKSZ && Names(e) <= LVCOUNT && inp.text == Print(e)
    ensures var w, r := Walk(inp.env, e, vars, false), Parse(Initial(vars), TOPPREC, inp);
            if w.Trap? then r.err
            else !r.err && |r.stack| == 1 && Top(r).val == w.val && r.vars == w.vars && r.ptr == |inp.text| &&
                 Value(inp.env, e, vars) == w
  {
    hide Loop, Lex, Walk, Value, Print, Need, Names, Wf, HasRead, Starts, Parse;
    WholeStarts(e, inp, vars);
    var st := Initial(vars);
    var sx := ReadExpr(e, st, TOPPREC, inp);
    ParseIs(st, TOPPREC, inp);
    var w := Walk(inp.env, e, vars, false);
    if w.Done? {
      WalkIsValue(inp.env, e, vars);
      WholeEnds(sx, Names(e), w, inp, vars);
    }
  }

  /** Whatever the text, evaluation leaves suppression as it was, stays within the
      stack, and assigns nothing if it was suppressed from the start. */
  lemma AnyText(st: State, pc: int, inp: Input)
    requires Ok(st, inp) && pc <= TOPPREC && st.noeval >= 0
    ensures var r := Parse(st, pc, inp);
            r.noeval == st.noeval && |r.stack| <= STACKSZ && |r.lvals| <= LVCOUNT && r.ptr <= |inp.text| &&
            (st.noeval > 0 ==> r.vars == st.vars) && (st.err ==> r == st)
  {}

  /** What matheval gives: an error, or the value and the variables after it. */
  datatype Answer = Wrong | Answer(val: int, vars: Vars)

  /** The answer to a text: one value must be left, and nothing of the text. */
  function Answers(inp: Input, vars: Vars): Answer {
    if inp.text == [] then Answer(0, vars)
    else
      var r := Parse(Initial(vars), TOPPREC, inp);
      if r.err || |r.stack| != 1 || r.ptr < |inp.text| then Wrong else Answer(Top(r).val, r.vars)
  }

  function AnswerOf(w: Outcome): Answer {
    if w.Trap? then Wrong else Answer(w.val, w.vars)
  }

  /** The answer to a printed tree of the table grammar within the limits. */
  lemma AnswerIs(e: Expr, inp: Input, vars: Vars)
    requires Wf(e, true) && Need(e) <= STACKSZ && Names(e) <= LVCOUNT && inp.text == Print(e)
    ensures Answers(inp, vars) == AnswerOf(Walk(inp.env, e, vars, false))
  {
    hide Parse, Walk, Wf, Need, Names, Print;
    WholeExpression(e, inp, vars);
  }

  /** matheval: the value of a whole text, the variables after it, and whether an
      error was reported. */
  method MathEval(inp: Input, vars: Vars, ghost e: Expr) returns (val: int, vars': Vars, err: bool)
    ensures Wf(e, true) && Need(e) <= STACKSZ && Names(e) <= LVCOUNT && inp.text == Print(e) ==>
              (err <==> Walk(inp.env, e, vars, false).Trap?) &&
              (!err ==> Value(inp.env, e, vars).Done? && val == Value(inp.env, e, vars).val &&
                        vars' == Value(inp.env, e, vars).vars)
    ensures inp.text == [] ==> val == 0 && vars' == vars && !err
    ensures Answers(inp, vars) == if err then Wrong else Answer(val, vars')
  {
    hide Parse, Loop, Wf, Need, Names, Print, Walk, Value;
    if inp.text == [] { return 0, vars, false; }
    var ev := new Evaluator(inp, vars);
    ev.MathParse(TOPPREC);
    err := ev.errflag || ev.sp != 0 || ev.ptr < |inp.text|;
    val, vars' := ev.stack[0].val, ev.vars;
    if Wf(e, true) && Need(e) <= STACKSZ && Names(e) <= LVCOUNT && inp.text == Print(e) {
      WholeExpression(e, inp, vars);
    }
  }
}
