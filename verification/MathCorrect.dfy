/** The operator-precedence evaluator computes the value of the tree that was
    printed. */
module MathCorrect {
  import opened MathTokens
  import opened MathOps
  import opened MathExpr
  import opened MathMachine

  // ----- What an expression needs -----

  function Max(a: nat, b: nat): nat {
    if a < b then b else a
  }

  /** Stack cells. */
  function Need(e: Expr): nat {
    match e
    case Lit(_) => 1
    case Name(_, _) => 1
    case Paren(e1) => Need(e1)
    case Prefix(_, e1) => Need(e1)
    case Postfix(e1, _) => Need(e1)
    case Infix(_, l, r) => Max(Need(l), 1 + Need(r))
    case Cond(c, a, b) => Max(Need(c), Max(1 + Need(a), 2 + Need(b)))
  }

  /** Occurrences of names. */
  function Names(e: Expr): nat {
    match e
    case Lit(_) => 0
    case Name(_, _) => 1
    case Paren(e1) => Names(e1)
    case Prefix(_, e1) => Names(e1)
    case Postfix(e1, _) => Names(e1)
    case Infix(_, l, r) => Names(l) + Names(r)
    case Cond(c, a, b) => Names(c) + Names(a) + Names(b)
  }

  predicate Room(st: State, e: Expr) {
    |st.stack| + Need(e) <= STACKSZ && |st.lvals| + Names(e) <= LVCOUNT
  }

  // ----- Where a printed expression is -----

  predicate Placed(t: seq<Lexeme>, i: nat, u: seq<Lexeme>) {
    i + |u| <= |t| && forall k :: 0 <= k < |u| ==> t[i + k] == u[k]
  }

  lemma PlacedBoth(t: seq<Lexeme>, i: nat, u: seq<Lexeme>, v: seq<Lexeme>)
    requires Placed(t, i, u + v)
    ensures Placed(t, i, u) && Placed(t, i + |u|, v)
  {
    forall k | 0 <= k < |u| ensures t[i + k] == u[k] { assert (u + v)[k] == u[k]; }
    forall k | 0 <= k < |v| ensures t[i + |u| + k] == v[k] { assert t[i + (|u| + k)] == (u + v)[|u| + k]; }
  }

  lemma PlacedOne(t: seq<Lexeme>, i: nat, l: Lexeme)
    requires Placed(t, i, [l])
    ensures i < |t| && t[i] == l
  {
    assert t[i + 0] == [l][0];
  }

  /** The token after an operand. */
  function Next(t: seq<Lexeme>, j: nat): Tok
    requires j <= |t|
  {
    if j == |t| then Eoi else TokenOf(t[j], false)
  }

  /** An operator, a closing token or the end comes at j. */
  predicate Follows(t: seq<Lexeme>, j: nat) {
    j <= |t| && (j < |t| ==> !t[j].LName? && TokenOf(t[j], false) != Eoi)
  }

  // ----- States -----

  predicate Ready(st: State, inp: Input) {
    Ok(st, inp) && !st.err && st.noeval >= 0
  }

  /** The token at j has been read, right after an operand. */
  predicate Ahead(st: State, j: nat, inp: Input) {
    Follows(inp.text, j) && st.mtok == Next(inp.text, j) &&
    (j < |inp.text| ==> st.ptr == j + 1 && st.unary == UnaryAfter(inp.text[j], false)) &&
    (j == |inp.text| ==> st.ptr == j)
  }

  predicate LvMatches(st: State, lv: int, name: LValue) {
    match name
    case NoLValue => lv == -1
    case LValue(id) => ValidLv(st, lv) && st.lvals[lv] == id
  }

  /** e has been read from st on, with outcome w, up to the token after it. */
  predicate HasRead(st: State, names: nat, size: nat, w: Outcome, sx: State, inp: Input) {
    w.Done? && Ready(sx, inp) && sx.noeval == st.noeval && sx.vars == w.vars &&
    |sx.stack| == |st.stack| + 1 && sx.stack[..|st.stack|] == st.stack &&
    Top(sx).val == w.val && LvMatches(sx, Top(sx).lv, w.lv) &&
    st.lvals <= sx.lvals && |sx.lvals| == |st.lvals| + names && Ahead(sx, st.ptr + size, inp)
  }

  function WalkFrom(e: Expr, st: State, inp: Input): Outcome {
    Walk(inp.env, e, st.vars, st.noeval > 0)
  }

  /** st is at the printed expression e, which its surroundings leave whole. */
  predicate Starts(st: State, e: Expr, pc: int, inp: Input) {
    Ready(st, inp) && Wf(e, st.unary) && Level(e) <= pc <= TOPPREC && Room(st, e) &&
    Placed(inp.text, st.ptr, Print(e)) && Follows(inp.text, st.ptr + |Print(e)|) &&
    Grip(e) < Prec(Next(inp.text, st.ptr + |Print(e)|))
  }

  lemma StartsFacts(st: State, e: Expr, pc: int, inp: Input)
    requires Starts(st, e, pc, inp)
    ensures Ready(st, inp) && Wf(e, st.unary) && Level(e) <= pc <= TOPPREC && Room(st, e)
    ensures Follows(inp.text, st.ptr + |Print(e)|) && Grip(e) < Prec(Next(inp.text, st.ptr + |Print(e)|))
  {
    hide Placed, Print, Wf, Level, Grip, Prec, Next, Room;
  }

  lemma StartsPlaced(st: State, e: Expr, pc: int, inp: Input)
    requires Starts(st, e, pc, inp)
    ensures Placed(inp.text, st.ptr, Print(e))
  {
    hide Placed, Print, Wf, Level, Grip, Prec, Next, Room, Follows;
  }

  lemma StartsAt(st: State, e: Expr, pc: int, inp: Input, i: nat, j: nat)
    requires Ready(st, inp) && Wf(e, st.unary) && Level(e) <= pc <= TOPPREC && Room(st, e)
    requires st.ptr == i && j == i + |Print(e)| && Placed(inp.text, i, Print(e))
    requires Follows(inp.text, j) && Grip(e) < Prec(Next(inp.text, j))
    ensures Starts(st, e, pc, inp)
  {
    hide Placed, Print, Wf, Level, Grip, Prec, Next, Room;
  }

  lemma {:induction false} GripLevel(e: Expr, unary: bool)
    requires Wf(e, unary)
    ensures -1 <= Grip(e) <= Level(e) <= TOPPREC
  {
    match e
    case Infix(op, _, _) => assert Prec(op) <= TOPPREC;
    case _ =>
  }

  /** Reading the token that follows an operand. */
  lemma LexAhead(st: State, j: nat, inp: Input)
    requires Ready(st, inp) && st.ptr == j && !st.unary && Follows(inp.text, j)
    ensures var sx := Lex(st, inp);
            Ready(sx, inp) && Ahead(sx, j, inp) && sx.stack == st.stack && sx.vars == st.vars &&
            sx.lvals == st.lvals && sx.noeval == st.noeval
  {}

  /** Reading an operator where an operand starts. */
  lemma LexOp(st: State, l: Lexeme, inp: Input)
    requires Ready(st, inp) && st.ptr < |inp.text| && inp.text[st.ptr] == l
    requires !l.LName? && !l.LNum? && TokenOf(l, st.unary) != Eoi && TokenOf(l, st.unary) != Num
    ensures Lex(st, inp) == st.(ptr := st.ptr + 1, unary := UnaryAfter(l, st.unary), mtok := TokenOf(l, st.unary))
  {}

  // ----- Cases -----

  lemma LexOperand(e: Expr, st: State, inp: Input) returns (s1: State)
    requires Ready(st, inp) && (e.Lit? || e.Name?) && st.ptr < |inp.text| && inp.text[st.ptr] == Print(e)[0] &&
      Room(st, e)
    ensures s1 == Lex(st, inp) && Ready(s1, inp) && !s1.unary && s1.ptr == st.ptr + 1 && Prec(s1.mtok) == 0
    ensures e.Lit? ==> s1.mtok == Num && s1.yyval == e.n && s1.lvals == st.lvals
    ensures e.Name? ==>
      s1.mtok == (if e.code then Cid else Id) && s1.lvals == st.lvals + [e.id] && s1.yylval == |st.lvals|
  {
    s1 := Lex(st, inp);
  }

  lemma LoopOperand(st: State, pc: int, inp: Input)
    requires Ready(st, inp) && 0 <= pc <= TOPPREC && Prec(st.mtok) == 0
    ensures var r := Lex(PushOperand(st, inp), inp);
            Loop(st, pc, inp) == if r.err then r else Loop(r, pc, inp)
  {}

  lemma ReadOperand(e: Expr, st: State, pc: int, inp: Input) returns (sx: State)
    requires Starts(st, e, pc, inp) && (e.Lit? || e.Name?)
    ensures Reads(st, e, pc, sx, inp)
  {
    hide Placed, Operator, Conditional, Group, Wf, Prec, TokenOf, Loop, Lex;
    PlacedOne(inp.text, st.ptr, Print(e)[0]);
    var s1 := LexOperand(e, st, inp);
    var s2 := PushOperand(s1, inp);
    LexAhead(s2, st.ptr + 1, inp);
    sx := Lex(s2, inp);
    assert Top(sx) == Top(s2) && sx.stack[..|st.stack|] == st.stack;
    LoopOperand(s1, pc, inp);
  }

  // ----- Executing operators on what has been read -----

  lemma TopIs(sy: State, t: Tok, bits: Bits)
    requires (IsPrefix(t) || t == PostPlus || t == PostMinus) && 0 < |sy.stack| <= STACKSZ
    ensures Op(sy, t, bits) == OpTop(sy, t)
  {
    hide OpTop, OpInfix, OpQuest;
  }

  lemma AheadSame(s: State, r: State, j: nat, inp: Input)
    requires Ahead(s, j, inp) && r.ptr == s.ptr && r.unary == s.unary && r.mtok == s.mtok
    ensures Ahead(r, j, inp)
  {
    hide Next, Follows;
  }

  lemma LvSame(s: State, r: State, lv: int, name: LValue)
    requires LvMatches(s, lv, name) && r.lvals == s.lvals
    ensures LvMatches(r, lv, name)
  {}

  lemma LvFound(s: State, lv: int, name: LValue)
    requires LvMatches(s, lv, name)
    ensures name == NoLValue ==> !ValidLv(s, lv)
    ensures name != NoLValue ==> ValidLv(s, lv) && s.lvals[lv] == name.id
  {}

  lemma NoLv(s: State)
    ensures LvMatches(s, -1, NoLValue)
  {}

  /** A value, or a name and its value, takes the place of the one on the top. */
  lemma TopSet(st: State, names: nat, size: nat, w: Outcome, sy: State, v: int, lv: int, name: LValue, inp: Input)
    requires HasRead(st, names, size, w, sy, inp) && LvMatches(sy, lv, name)
    ensures HasRead(st, names, size, Done(v, name, w.vars), SetTop(sy, v, lv), inp)
  {
    hide Ahead, LvMatches;
    var sx := SetTop(sy, v, lv);
    AheadSame(sy, sx, st.ptr + size, inp);
    LvSame(sy, sx, lv, name);
  }

  /** The variable that was read is assigned to. */
  lemma VarSet(st: State, names: nat, size: nat, w: Outcome, sy: State, v: int, inp: Input)
    requires HasRead(st, names, size, w, sy, inp)
    ensures w.lv == NoLValue <==> !ValidLv(sy, Top(sy).lv)
    ensures w.lv != NoLValue ==>
      LvMatches(sy, Top(sy).lv, w.lv) &&
      HasRead(st, names, size, Kept(Done(w.val, w.lv, w.vars[w.lv.id := v]), w.vars, st.noeval > 0),
              SetVar(sy, Top(sy).lv, v), inp)
  {
    hide Ahead, LvMatches;
    LvFound(sy, Top(sy).lv, w.lv);
    if w.lv != NoLValue {
      var sx := SetVar(sy, Top(sy).lv, v);
      AheadSame(sy, sx, st.ptr + size, inp);
      LvSame(sy, sx, Top(sy).lv, w.lv);
    }
  }

  lemma HasTop(st: State, names: nat, size: nat, w: Outcome, sy: State, inp: Input)
    requires HasRead(st, names, size, w, sy, inp)
    ensures w.Done? && 0 < |sy.stack| <= STACKSZ && Top(sy).val == w.val && !sy.err && sy.noeval == st.noeval
    ensures sy.vars == w.vars
  {}

  lemma UnaryOp(st: State, names: nat, size: nat, w: Outcome, sy: State, t: Tok, inp: Input)
    requires HasRead(st, names, size, w, sy, inp) && IsUnary(t)
    ensures w.Done? && PrefixValue(t, w).Done?
    ensures HasRead(st, names, size, Kept(PrefixValue(t, w), w.vars, st.noeval > 0), Op(sy, t, inp.env.bits), inp)
  {
    hide HasRead, Op, SetTop, LvMatches;
    HasTop(st, names, size, w, sy, inp);
    TopIs(sy, t, inp.env.bits);
    NoLv(sy);
    TopSet(st, names, size, w, sy, UnaryValue(t, w.val), -1, NoLValue, inp);
  }

  lemma PrefixOp(st: State, names: nat, size: nat, w: Outcome, sy: State, minus: bool, inp: Input)
    requires HasRead(st, names, size, w, sy, inp)
    ensures var w' := Kept(PrefixValue(if minus then PreMinus else PrePlus, w), w.vars, st.noeval > 0);
            var sx := Op(sy, if minus then PreMinus else PrePlus, inp.env.bits);
            w.Done? && if w'.Trap? then sx.err else HasRead(st, names, size, w', sx, inp)
  {
    hide HasRead, Op, SetTop, SetVar, LvMatches, OpTop, StepTop, PrefixValue;
    HasTop(st, names, size, w, sy, inp);
    var t := if minus then PreMinus else PrePlus;
    TopIs(sy, t, inp.env.bits);
    TopStep(sy, t);
    var v := w.val + if minus then -1 else 1;
    if ValidLv(sy, Top(sy).lv) { StepIs(sy, minus); }
    PrefixIs(w, minus);
    VarSet(st, names, size, w, sy, v, inp);
    if w.lv != NoLValue {
      var lv := Top(sy).lv;
      var sz := SetVar(sy, lv, v);
      SetVarKeeps(sy, lv, v);
      LvSame(sy, sz, lv, w.lv);
      TopSet(st, names, size, Kept(Done(w.val, w.lv, w.vars[w.lv.id := v]), w.vars, st.noeval > 0), sz, v, lv, w.lv,
             inp);
    } else {
      StepFails(sy, t);
    }
  }

  lemma SetVarKeeps(sy: State, lv: int, v: int)
    ensures var sz := SetVar(sy, lv, v); sz.lvals == sy.lvals && sz.stack == sy.stack
  {}

  lemma StepIs(sy: State, minus: bool)
    requires 0 < |sy.stack| <= STACKSZ && ValidLv(sy, Top(sy).lv)
    ensures var v, lv := Top(sy).val + (if minus then -1 else 1), Top(sy).lv;
            SetVar(sy, lv, v).stack == sy.stack &&
            StepTop(sy, if minus then PreMinus else PrePlus) == SetTop(SetVar(sy, lv, v), v, lv)
  {}

  lemma PrefixIs(w: Outcome, minus: bool)
    requires w.Done?
    ensures var t := if minus then PreMinus else PrePlus;
            PrefixValue(t, w) == Assign(w.lv, w.val + (if minus then -1 else 1), w.vars)
  {}

  lemma TopStep(sy: State, t: Tok)
    requires 0 < |sy.stack| <= STACKSZ && IsStep(t)
    ensures OpTop(sy, t) == StepTop(sy, t)
  {
    hide StepTop, SetTop;
  }

  lemma StepFails(sy: State, t: Tok)
    requires 0 < |sy.stack| <= STACKSZ && IsStep(t) && !ValidLv(sy, Top(sy).lv)
    ensures StepTop(sy, t).err
  {}

  lemma TopOp(st: State, names: nat, size: nat, w: Outcome, sy: State, t: Tok, inp: Input)
    requires HasRead(st, names, size, w, sy, inp) && IsPrefix(t)
    ensures w.Done?
    ensures var w' := Kept(PrefixValue(t, w), w.vars, st.noeval > 0);
            var sx := Op(sy, t, inp.env.bits);
            if w'.Trap? then sx.err else HasRead(st, names, size, w', sx, inp)
  {
    hide HasRead, Op, PrefixValue;
    HasTop(st, names, size, w, sy, inp);
    if IsUnary(t) {
      UnaryOp(st, names, size, w, sy, t, inp);
    } else {
      PrefixOp(st, names, size, w, sy, t == PreMinus, inp);
    }
  }

  lemma PostOp(st: State, names: nat, size: nat, w: Outcome, sy: State, minus: bool, inp: Input)
    requires HasRead(st, names, size, w, sy, inp)
    ensures var sx := Op(sy, if minus then PostMinus else PostPlus, inp.env.bits);
            w.Done? &&
            if w.lv == NoLValue then sx.err
            else HasRead(st, names, size,
                         Kept(Done(w.val, w.lv, w.vars[w.lv.id := w.val + (if minus then -1 else 1)]), w.vars,
                              st.noeval > 0),
                         sx, inp)
  {
    hide HasRead, Op, SetTop, LvMatches, OpTop;
    HasTop(st, names, size, w, sy, inp);
    var t := if minus then PostMinus else PostPlus;
    TopIs(sy, t, inp.env.bits);
    TopStep(sy, t);
    VarSet(st, names, size, w, sy, w.val + (if minus then -1 else 1), inp);
    if w.lv == NoLValue { StepFails(sy, t); }
  }

  lemma PushIs(st: State, v: int, lv: int)
    requires |st.stack| < STACKSZ
    ensures Push(st, v, lv) == st.(stack := st.stack + [Cell(v, lv)])
  {}

  lemma OpIsInfix(sy: State, t: Tok, bits: Bits)
    requires IsInfix(t) && 2 <= |sy.stack| <= STACKSZ
    ensures Op(sy, t, bits) == OpInfix(sy, t, bits)
  {
    hide OpInfix;
    NotQuest(t);
  }

  /** Both operands are on the stack. */
  lemma InfixOp(base: seq<Cell>, x: Outcome, y: int, sy: State, t: Tok, bits: Bits, env: Env)
    requires IsInfix(t) && x.Done? && bits == env.bits && |base| + 2 <= STACKSZ
    requires |sy.stack| == |base| + 2 && sy.stack[..|base|] == base && sy.stack[|base| + 1].val == y
    requires sy.stack[|base|].val == x.val && LvMatches(sy, sy.stack[|base|].lv, x.lv)
    requires !sy.err && sy.noeval >= 0
    ensures var w := Kept(Combine(env, t, x, y, sy.vars), sy.vars, sy.noeval > 0);
            var sx := Op(sy, t, bits);
            if w.Trap? then sx.err
            else !sx.err && sx.vars == w.vars && |sx.stack| == |base| + 1 && sx.stack[..|base|] == base &&
                 Top(sx).val == w.val && LvMatches(sx, Top(sx).lv, w.lv)
  {
    hide Arith, Base, Traps, IsAssign, Op, LvMatches, Push, SetVar, SetVarValue;
    OpIsInfix(sy, t, bits);
    var st1 := Pop(sy, 2);
    assert st1.stack == base;
    var lv := sy.stack[|base|].lv;
    LvSame(sy, st1, lv, x.lv);
    if !Traps(Base(t), y) {
      var v := Arith(bits, Base(t), x.val, y);
      if IsAssign(t) {
        AssignOp(st1, lv, v, x.lv);
        var sx := Push(SetVar(st1, lv, v), SetVarValue(st1, lv, v), lv);
        if x.lv != NoLValue { LvSame(st1, sx, lv, x.lv); }
      } else {
        PushIs(st1, v, -1);
        NoLv(Push(st1, v, -1));
      }
    }
  }

  lemma NotQuest(t: Tok)
    requires IsInfix(t)
    ensures t != Quest && 3 <= Prec(t) <= TOPPREC && Prec(t) - 1 <= Operand(t) <= Prec(t)
  {
    if IsAssign(t) {} else {}
  }

  lemma InfixToken(t: Tok)
    requires IsInfix(t)
    ensures TokenOf(Spell(t), false) == t && UnaryAfter(Spell(t), false) == SignsAfter(t)
    ensures !Spell(t).LName? && t != Eoi
  {
    if IsAssign(t) {} else {}
  }

  lemma AssignOp(st: State, lv: int, v: int, name: LValue)
    requires LvMatches(st, lv, name) && !st.err && st.noeval >= 0 && |st.stack| < STACKSZ
    ensures var w := Kept(Assign(name, v, st.vars), st.vars, st.noeval > 0);
            var sx := Push(SetVar(st, lv, v), SetVarValue(st, lv, v), lv);
            if w.Trap? then sx.err
            else !sx.err && sx.vars == w.vars && sx.stack == st.stack + [Cell(v, lv)] && sx.lvals == st.lvals
  {}

  // ----- Steps of the parser -----

  lemma LoopOperator(st: State, pc: int, inp: Input)
    requires Ready(st, inp) && pc <= TOPPREC && 2 <= Prec(st.mtok) <= pc && st.mtok != Quest
    ensures var r := Operator(st, inp);
            Loop(st, pc, inp) == if r.err then r else Loop(r, pc, inp)
  {}

  lemma LoopStops(st: State, pc: int, inp: Input)
    requires Ok(st, inp) && pc <= TOPPREC && st.noeval >= 0 && Prec(st.mtok) > pc
    ensures Loop(st, pc, inp) == st
  {}

  /** The state in which the operand after an operator is read. */
  function Inner(st: State, inp: Input): State {
    st.(noeval := st.noeval + Truth(Shorts(st.mtok, Peek(st, inp))))
  }

  lemma OperatorIs(st: State, inp: Input)
    requires Ready(st, inp) && 0 < Prec(st.mtok) <= TOPPREC
    ensures Operator(st, inp) ==
            Op(Loop(Lex(Inner(st, inp), inp), Operand(st.mtok), inp).(noeval := st.noeval), st.mtok, inp.env.bits)
  {}

  /** What a reading lemma promises. */
  ghost predicate Reads(st: State, e: Expr, pc: int, sx: State, inp: Input)
    requires Ok(st, inp) && pc <= TOPPREC && st.noeval >= 0
  {
    var w := WalkFrom(e, st, inp);
    if w.Trap? then Loop(Lex(st, inp), pc, inp).err
    else HasRead(st, Names(e), |Print(e)|, w, sx, inp) && Loop(Lex(st, inp), pc, inp) == Loop(sx, pc, inp)
  }

  // ----- Compound expressions -----

  lemma {:induction false} ReadPrefix(e: Expr, st: State, pc: int, inp: Input) returns (sx: State)
    requires Starts(st, e, pc, inp) && e.Prefix?
    ensures Reads(st, e, pc, sx, inp)
    decreases e, 0
  {
    hide Loop, Lex, Op, Operator, HasRead, Wf, Room, Print, Placed, Follows, Inner, Next, Grip, Level, Prec;
    PrefixStart(e, st, pc, inp);
    var s1 := Lex(st, inp);
    LoopOperator(s1, pc, inp);
    OperatorIs(s1, inp);
    var sy := ReadExpr(e.e, s1, Operand(e.op), inp);
    sx := st;
    if WalkFrom(e.e, s1, inp).Done? {
      PrefixEnd(e, st, s1, sy, inp);
      LoopStops(sy, Operand(e.op), inp);
      sx := Op(sy, e.op, inp.env.bits);
    }
  }

  lemma PrefixEnd(e: Expr, st: State, s1: State, sy: State, inp: Input)
    requires e.Prefix? && IsPrefix(e.op) && Ready(st, inp) && s1 == st.(ptr := st.ptr + 1, mtok := e.op)
    requires HasRead(s1, Names(e.e), |Print(e.e)|, WalkFrom(e.e, s1, inp), sy, inp)
    requires Operand(e.op) < Prec(Next(inp.text, st.ptr + |Print(e)|))
    ensures Ok(sy, inp) && sy.noeval == s1.noeval && Prec(sy.mtok) > Operand(e.op)
    ensures sy.(noeval := s1.noeval) == sy
    ensures var w := WalkFrom(e, st, inp);
            var sx := Op(sy, e.op, inp.env.bits);
            if w.Trap? then sx.err else HasRead(st, Names(e), |Print(e)|, w, sx, inp) && !sx.err
  {
    PrefixPrint(e);
    WalkPrefix(e, st, inp);
    PrefixNext(e, st, s1, sy, WalkFrom(e.e, s1, inp), inp);
    hide Print, Prec, Operand, Op, Next, PrefixValue, IsPrefix, HasRead, Walk, WalkFrom;
    HasTop(s1, Names(e.e), |Print(e.e)|, WalkFrom(e.e, s1, inp), sy, inp);
    TopOp(st, Names(e.e), |Print(e)|, WalkFrom(e.e, s1, inp), sy, e.op, inp);
  }

  lemma WalkPrefix(e: Expr, st: State, inp: Input)
    requires e.Prefix?
    ensures var v := WalkFrom(e.e, st, inp);
            WalkFrom(e, st, inp) == if v.Trap? then Trap else Kept(PrefixValue(e.op, v), v.vars, st.noeval > 0)
    ensures Names(e) == Names(e.e)
  {
    hide PrefixValue;
  }

  /** What was read after the operator, seen from before it. */
  lemma PrefixNext(e: Expr, st: State, s1: State, sy: State, w: Outcome, inp: Input)
    requires e.Prefix? && s1 == st.(ptr := st.ptr + 1, mtok := e.op)
    requires HasRead(s1, Names(e.e), |Print(e.e)|, w, sy, inp)
    ensures HasRead(st, Names(e.e), |Print(e)|, w, sy, inp) && Ok(sy, inp) &&
      sy.mtok == Next(inp.text, st.ptr + |Print(e)|)
    ensures WalkFrom(e.e, s1, inp) == WalkFrom(e.e, st, inp)
  {
    hide LvMatches, Next, Follows, Print, Walk;
    PrefixPrint(e);
  }

  lemma PrefixPrint(e: Expr)
    requires e.Prefix?
    ensures |Print(e)| == 1 + |Print(e.e)|
  {}

  lemma PrefixTok(e: Expr, unary: bool)
    requires e.Prefix? && Wf(e, unary)
    ensures IsPrefix(e.op) && Prec(e.op) == 2 == Operand(e.op) == Level(e) == Grip(e) && e.op != Quest
    ensures Wf(e.e, unary) && Level(e.e) <= 2 && Grip(e.e) <= 2
    ensures !Spell(e.op).LName? && !Spell(e.op).LNum? && TokenOf(Spell(e.op), unary) == e.op &&
      UnaryAfter(Spell(e.op), unary) == unary
    ensures e.op != Eoi && e.op != Num
  {
    GripLevel(e.e, unary);
  }

  lemma PrefixStart(e: Expr, st: State, pc: int, inp: Input)
    requires Starts(st, e, pc, inp) && e.Prefix?
    ensures Ready(st, inp) && IsPrefix(e.op) && e.op != Quest && |Print(e)| == 1 + |Print(e.e)|
    ensures 2 <= Prec(e.op) <= pc <= TOPPREC && Operand(e.op) <= TOPPREC
    ensures Lex(st, inp) == st.(ptr := st.ptr + 1, mtok := e.op) && Inner(Lex(st, inp), inp) == Lex(st, inp)
    ensures Ready(Lex(st, inp), inp) && Starts(Lex(st, inp), e.e, Operand(e.op), inp)
    ensures st.ptr + |Print(e)| <= |inp.text| && Operand(e.op) < Prec(Next(inp.text, st.ptr + |Print(e)|))
  {
    hide Starts, Placed, Print, Room, Prec, Operand, Lex, Next, Follows, Wf, Level, Grip, IsPrefix, Inner;
    StartsFacts(st, e, pc, inp);
    PrefixTok(e, st.unary);
    PrefixLexed(e, st, pc, inp);
    StartsAt(Lex(st, inp), e.e, 2, inp, st.ptr + 1, st.ptr + |Print(e)|);
  }

  lemma PrefixLexed(e: Expr, st: State, pc: int, inp: Input)
    requires Starts(st, e, pc, inp) && e.Prefix?
    ensures Ready(st, inp) && |Print(e)| == 1 + |Print(e.e)| && st.ptr + |Print(e)| <= |inp.text|
    ensures Lex(st, inp) == st.(ptr := st.ptr + 1, mtok := e.op) && Inner(Lex(st, inp), inp) == Lex(st, inp)
    ensures Placed(inp.text, st.ptr + 1, Print(e.e)) && Room(Lex(st, inp), e.e)
  {
    hide Starts, Placed, Print, Room, Prec, Operand, Lex, Next, Follows, Wf, Level, Grip, Spell, TokenOf, UnaryAfter;
    hide IsPrefix, Inner;
    StartsFacts(st, e, pc, inp);
    StartsPlaced(st, e, pc, inp);
    PrefixTok(e, st.unary);
    PrefixPlaced(e, st.ptr, inp.text);
    LexOp(st, Spell(e.op), inp);
    PrefixRoom(e, st, Lex(st, inp));
    NotShorts(Lex(st, inp), inp);
  }

  lemma NotShorts(s1: State, inp: Input)
    requires IsPrefix(s1.mtok) || s1.mtok == PostPlus || s1.mtok == PostMinus
    ensures Inner(s1, inp) == s1
  {
    hide Peek;
  }

  lemma PrefixPlaced(e: Expr, i: nat, t: seq<Lexeme>)
    requires e.Prefix? && Placed(t, i, Print(e))
    ensures i + |Print(e)| == i + 1 + |Print(e.e)| <= |t| && t[i] == Spell(e.op) && Placed(t, i + 1, Print(e.e))
  {
    hide Placed;
    PlacedBoth(t, i, [Spell(e.op)], Print(e.e));
    PlacedOne(t, i, Spell(e.op));
    PlacedFits(t, i + 1, Print(e.e));
  }

  lemma PrefixRoom(e: Expr, st: State, s1: State)
    requires e.Prefix? && st.stack == s1.stack && st.lvals == s1.lvals && Room(st, e)
    ensures Room(s1, e.e)
  {}

  lemma {:induction false} ReadPostfix(e: Expr, st: State, pc: int, inp: Input) returns (sx: State)
    requires Starts(st, e, pc, inp) && e.Postfix?
    ensures Reads(st, e, pc, sx, inp)
    decreases e, 0
  {
    hide Loop, Lex, Op, Operator, HasRead, Wf, Room, Print, Placed, Follows, Inner, Next, Grip, Level, Prec;
    PostfixStart(e, st, pc, inp);
    var s1 := ReadExpr(e.e, st, pc, inp);
    sx := st;
    if WalkFrom(e.e, st, inp).Done? {
      PostfixEnd(e, st, s1, pc, inp);
      var t := if e.minus then PostMinus else PostPlus;
      LoopOperator(s1, pc, inp);
      OperatorIs(s1, inp);
      var sy := Lex(s1, inp);
      LoopStops(sy, Operand(t), inp);
      sx := Op(sy, t, inp.env.bits);
    }
  }

  lemma PostfixStart(e: Expr, st: State, pc: int, inp: Input)
    requires Starts(st, e, pc, inp) && e.Postfix?
    ensures Starts(st, e.e, pc, inp) && |Print(e)| == |Print(e.e)| + 1
    ensures st.ptr + |Print(e)| <= |inp.text| && inp.text[st.ptr + |Print(e.e)|] == LDouble(e.minus)
  {
    hide Placed;
    PlacedBoth(inp.text, st.ptr, Print(e.e), [LDouble(e.minus)]);
    PlacedOne(inp.text, st.ptr + |Print(e.e)|, LDouble(e.minus));
    GripLevel(e.e, st.unary);
  }

  lemma PostfixEnd(e: Expr, st: State, s1: State, pc: int, inp: Input)
    requires Starts(st, e, pc, inp) && e.Postfix?
    requires st.ptr + |Print(e.e)| < |inp.text| && inp.text[st.ptr + |Print(e.e)|] == LDouble(e.minus)
    requires HasRead(st, Names(e.e), |Print(e.e)|, WalkFrom(e.e, st, inp), s1, inp)
    ensures var t := if e.minus then PostMinus else PostPlus;
            Ready(s1, inp) && s1.mtok == t && 2 <= Prec(t) <= pc <= TOPPREC && Inner(s1, inp) == s1 &&
            Operand(t) <= TOPPREC
    ensures var t := if e.minus then PostMinus else PostPlus;
            var sy := Lex(s1, inp);
            var w := WalkFrom(e, st, inp);
            Ok(sy, inp) && sy.noeval == s1.noeval && sy.(noeval := s1.noeval) == sy && Prec(sy.mtok) > Operand(t) &&
            var sx := Op(sy, t, inp.env.bits);
            if w.Trap? then sx.err else HasRead(st, Names(e), |Print(e)|, w, sx, inp) && !sx.err
  {
    hide Starts, Op, Print, Lex, HasRead, Prec, Inner, Walk;
    PostfixRead(e, st, s1, pc, inp);
    PostfixPrec(e.minus);
    WalkPostfix(e, st, inp);
    var sy := Lex(s1, inp);
    PostOp(st, Names(e.e), |Print(e)|, WalkFrom(e.e, st, inp), sy, e.minus, inp);
    NotShorts(s1, inp);
    var w, sx := WalkFrom(e, st, inp), Op(sy, s1.mtok, inp.env.bits);
    if w.Done? { HasTop(st, Names(e), |Print(e)|, w, sx, inp); }
  }

  lemma WalkPostfix(e: Expr, st: State, inp: Input)
    requires e.Postfix?
    ensures var v := WalkFrom(e.e, st, inp);
            WalkFrom(e, st, inp) ==
            if v.Trap? || v.lv == NoLValue then Trap
            else Kept(Done(v.val, v.lv, v.vars[v.lv.id := v.val + (if e.minus then -1 else 1)]), v.vars, st.noeval > 0)
    ensures Names(e) == Names(e.e)
  {}

  lemma PostfixPrec(minus: bool)
    ensures var t := if minus then PostMinus else PostPlus; Prec(t) == 2 == Operand(t)
  {}

  /** The token after the operator has been read. */
  lemma PostfixRead(e: Expr, st: State, s1: State, pc: int, inp: Input)
    requires Starts(st, e, pc, inp) && e.Postfix?
    requires st.ptr + |Print(e.e)| < |inp.text| && inp.text[st.ptr + |Print(e.e)|] == LDouble(e.minus)
    requires HasRead(st, Names(e.e), |Print(e.e)|, WalkFrom(e.e, st, inp), s1, inp)
    ensures var t, sy := if e.minus then PostMinus else PostPlus, Lex(s1, inp);
            Ready(s1, inp) && s1.mtok == t && 2 <= pc <= TOPPREC &&
            Ok(sy, inp) && sy.noeval == s1.noeval && Prec(sy.mtok) > 2 &&
            HasRead(st, Names(e.e), |Print(e)|, WalkFrom(e.e, st, inp), sy, inp)
    ensures s1.stack != [] && 0 < |s1.stack|
  {
    hide Placed, Wf, Op, Print, Room, Follows, Next, Lex, Grip, Level, LvMatches, Walk;
    PostfixToken(e, st, s1, pc, inp);
    var sy := Lex(s1, inp);
    LexAhead(s1, st.ptr + |Print(e)|, inp);
    LvSame(s1, sy, Top(s1).lv, WalkFrom(e.e, st, inp).lv);
  }

  lemma PostfixToken(e: Expr, st: State, s1: State, pc: int, inp: Input)
    requires Starts(st, e, pc, inp) && e.Postfix?
    requires st.ptr + |Print(e.e)| < |inp.text| && inp.text[st.ptr + |Print(e.e)|] == LDouble(e.minus)
    requires Ready(s1, inp) && Ahead(s1, st.ptr + |Print(e.e)|, inp)
    ensures s1.mtok == (if e.minus then PostMinus else PostPlus) && s1.ptr == st.ptr + |Print(e)| && !s1.unary
    ensures Follows(inp.text, st.ptr + |Print(e)|) && Prec(Next(inp.text, st.ptr + |Print(e)|)) > 2 &&
      2 <= pc <= TOPPREC
  {
    hide Placed, Wf, Room;
  }

  lemma {:induction false} ReadParen(e: Expr, st: State, pc: int, inp: Input) returns (sx: State)
    requires Starts(st, e, pc, inp) && e.Paren?
    ensures Reads(st, e, pc, sx, inp)
    decreases e, 0
  {
    hide Loop, Lex, Op, Operator, HasRead, Wf, Room, Print, Placed, Follows, Inner, Next, Grip, Level, Prec;
    ParenStart(e, st, pc, inp);
    var s1 := Lex(st, inp);
    var sy := ReadExpr(e.e, s1, TOPPREC, inp);
    LoopGroup(s1, pc, inp);
    sx := st;
    if WalkFrom(e.e, s1, inp).Done? {
      ParenEnd(e, st, s1, sy, inp);
      LoopStops(sy, TOPPREC, inp);
      sx := Lex(sy, inp);
    }
  }

  lemma LoopGroup(st: State, pc: int, inp: Input)
    requires Ready(st, inp) && st.mtok == Inpar && 1 <= pc <= TOPPREC
    ensures var s1 := Loop(Lex(st, inp), TOPPREC, inp);
            Loop(st, pc, inp) ==
              if s1.mtok != Outpar then Fail(s1) else if Lex(s1, inp).err then Lex(s1, inp)
              else Loop(Lex(s1, inp), pc, inp)
  {
    hide Lex, Operator, Conditional;
    assert Parse(st, TOPPREC, inp) == Loop(Lex(st, inp), TOPPREC, inp);
    assert Loop(st, pc, inp) == if Group(st, inp).err then Group(st, inp) else Loop(Group(st, inp), pc, inp);
  }

  lemma ParenStart(e: Expr, st: State, pc: int, inp: Input)
    requires Starts(st, e, pc, inp) && e.Paren?
    ensures var s1 := Lex(st, inp);
            s1 == st.(ptr := st.ptr + 1, mtok := Inpar, unary := true) && Starts(s1, e.e, TOPPREC, inp)
    ensures |Print(e)| == |Print(e.e)| + 2 && Ready(st, inp) && Ready(Lex(st, inp), inp) && 1 <= pc <= TOPPREC
    ensures st.ptr + |Print(e)| <= |inp.text| && inp.text[st.ptr + 1 + |Print(e.e)|] == LTok(Outpar)
    ensures Follows(inp.text, st.ptr + |Print(e)|)
  {
    hide Placed, Room, Print, Prec, Operand;
    ParenPlaced(e, st.ptr, inp.text);
    LexOp(st, LTok(Inpar), inp);
    SameRoom(st, Lex(st, inp), e);
    GripLevel(e.e, true);
    ParenPrec();
    ParenRoom(e, Lex(st, inp));
  }

  lemma ParenPrec()
    ensures Prec(Inpar) == 1 && Prec(Outpar) == 137
  {}

  lemma ParenPlaced(e: Expr, i: nat, t: seq<Lexeme>)
    requires e.Paren? && Placed(t, i, Print(e))
    ensures |Print(e)| == |Print(e.e)| + 2 && i + |Print(e)| <= |t|
    ensures t[i] == LTok(Inpar) && t[i + 1 + |Print(e.e)|] == LTok(Outpar) && Placed(t, i + 1, Print(e.e))
  {
    hide Placed;
    assert Print(e) == [LTok(Inpar)] + (Print(e.e) + [LTok(Outpar)]);
    PlacedBoth(t, i, [LTok(Inpar)], Print(e.e) + [LTok(Outpar)]);
    PlacedOne(t, i, LTok(Inpar));
    PlacedBoth(t, i + 1, Print(e.e), [LTok(Outpar)]);
    PlacedOne(t, i + 1 + |Print(e.e)|, LTok(Outpar));
  }

  lemma SameRoom(st: State, s1: State, e: Expr)
    requires st.stack == s1.stack && st.lvals == s1.lvals
    ensures Room(st, e) <==> Room(s1, e)
  {}

  lemma ParenRoom(e: Expr, st: State)
    requires e.Paren?
    ensures Room(st, e) <==> Room(st, e.e)
  {}

  lemma ParenEnd(e: Expr, st: State, s1: State, sy: State, inp: Input)
    requires e.Paren? && Ready(st, inp) && s1 == st.(ptr := st.ptr + 1, mtok := Inpar, unary := true)
    requires |Print(e)| == |Print(e.e)| + 2 && st.ptr + |Print(e)| <= |inp.text|
    requires inp.text[st.ptr + 1 + |Print(e.e)|] == LTok(Outpar) && Follows(inp.text, st.ptr + |Print(e)|)
    requires HasRead(s1, Names(e.e), |Print(e.e)|, WalkFrom(e.e, s1, inp), sy, inp)
    ensures Ok(sy, inp) && sy.noeval >= 0 && sy.mtok == Outpar && Prec(sy.mtok) > TOPPREC
    ensures var sx := Lex(sy, inp);
            !sx.err && HasRead(st, Names(e), |Print(e)|, WalkFrom(e, st, inp), sx, inp)
  {
    LexAhead(sy, st.ptr + |Print(e)|, inp);
  }

  lemma {:induction false} ReadInfix(e: Expr, st: State, pc: int, inp: Input) returns (sx: State)
    requires Starts(st, e, pc, inp) && e.Infix?
    ensures Reads(st, e, pc, sx, inp)
    decreases e, 0
  {
    hide Loop, Lex, Op, Operator, HasRead, Wf, Room, Print, Placed, Follows, Inner, Next, Grip, Level, Prec;
    InfixStart(e, st, pc, inp);
    var s1 := ReadExpr(e.l, st, pc, inp);
    sx := st;
    if WalkFrom(e.l, st, inp).Done? {
      InfixMid(e, st, pc, s1, inp);
      LoopOperator(s1, pc, inp);
      OperatorIs(s1, inp);
      var s2 := Inner(s1, inp);
      var sy := ReadExpr(e.r, s2, Operand(e.op), inp);
      if WalkFrom(e.r, s2, inp).Done? {
        InfixEnd(e, st, s1, sy, pc, inp);
        LoopStops(sy, Operand(e.op), inp);
        sx := Op(sy.(noeval := s1.noeval), e.op, inp.env.bits);
      }
    }
  }

  lemma InfixStart(e: Expr, st: State, pc: int, inp: Input)
    requires Starts(st, e, pc, inp) && e.Infix?
    ensures Starts(st, e.l, pc, inp)
    ensures var j := st.ptr + |Print(e.l)|;
            st.ptr + |Print(e)| == j + 1 + |Print(e.r)| <= |inp.text| && inp.text[j] == Spell(e.op) &&
            Placed(inp.text, j + 1, Print(e.r))
  {
    hide Placed, Room, Print, TokenOf, Spell;
    InfixPlaced(e, st.ptr, inp.text);
    InfixRoom(e, st);
    InfixToken(e.op);
    NotQuest(e.op);
    GripBelow(e.l, st.unary, Prec(e.op));
  }

  lemma InfixRoom(e: Expr, st: State)
    requires e.Infix? && Room(st, e)
    ensures Room(st, e.l)
  {}

  lemma InfixPlaced(e: Expr, i: nat, t: seq<Lexeme>)
    requires e.Infix? && Placed(t, i, Print(e))
    ensures var j := i + |Print(e.l)|;
            i + |Print(e)| == j + 1 + |Print(e.r)| <= |t| && t[j] == Spell(e.op) &&
            Placed(t, i, Print(e.l)) && Placed(t, j + 1, Print(e.r))
  {
    hide Placed, Spell;
    assert Print(e) == Print(e.l) + ([Spell(e.op)] + Print(e.r));
    PlacedBoth(t, i, Print(e.l), [Spell(e.op)] + Print(e.r));
    PlacedBoth(t, i + |Print(e.l)|, [Spell(e.op)], Print(e.r));
    PlacedOne(t, i + |Print(e.l)|, Spell(e.op));
    PlacedFits(t, i + |Print(e.l)| + 1, Print(e.r));
  }

  /** What does not grip an operator needs no more than its precedence. */
  lemma GripBelow(e: Expr, unary: bool, p: nat)
    requires Wf(e, unary) && Grip(e) < p && 2 <= p
    ensures Level(e) <= p
  {
    if e.Infix? { NotQuest(e.op); }
  }

  lemma InfixMid(e: Expr, st: State, pc: int, s1: State, inp: Input)
    requires Starts(st, e, pc, inp) && e.Infix?
    requires HasRead(st, Names(e.l), |Print(e.l)|, WalkFrom(e.l, st, inp), s1, inp)
    requires var j := st.ptr + |Print(e.l)|;
             st.ptr + |Print(e)| == j + 1 + |Print(e.r)| <= |inp.text| && inp.text[j] == Spell(e.op) &&
             Placed(inp.text, j + 1, Print(e.r))
    ensures Ready(s1, inp) && s1.mtok == e.op && 2 <= Prec(e.op) <= pc <= TOPPREC && e.op != Quest
    ensures Operand(e.op) <= TOPPREC && Starts(Inner(s1, inp), e.r, Operand(e.op), inp)
    ensures IsInfix(e.op) && s1.ptr == st.ptr + |Print(e.l)| + 1
    ensures var x := WalkFrom(e.l, st, inp);
            WalkFrom(e.r, Inner(s1, inp), inp) == Walk(inp.env, e.r, x.vars, st.noeval > 0 || Shorts(e.op, x.val))
  {
    hide Placed, Walk, Print, Spell, TokenOf, UnaryAfter, Operand, Prec, IsInfix;
    InfixToken(e.op);
    NotQuest(e.op);
    GripLevel(e.r, SignsAfter(e.op));
  }

  lemma InfixEnd(e: Expr, st: State, s1: State, sy: State, pc: int, inp: Input)
    requires Starts(st, e, pc, inp) && e.Infix?
    requires HasRead(st, Names(e.l), |Print(e.l)|, WalkFrom(e.l, st, inp), s1, inp)
    requires WalkFrom(e.r, Inner(s1, inp), inp) ==
             Walk(inp.env, e.r, WalkFrom(e.l, st, inp).vars, st.noeval > 0 || Shorts(e.op, WalkFrom(e.l, st, inp).val))
    requires HasRead(Inner(s1, inp), Names(e.r), |Print(e.r)|, WalkFrom(e.r, Inner(s1, inp), inp), sy, inp)
    requires IsInfix(e.op) && s1.ptr + |Print(e.r)| == st.ptr + |Print(e)|
    ensures Ok(sy, inp) && sy.noeval >= 0 && Prec(sy.mtok) > Operand(e.op)
    ensures var w := WalkFrom(e, st, inp);
            var sx := Op(sy.(noeval := s1.noeval), e.op, inp.env.bits);
            if w.Trap? then sx.err else HasRead(st, Names(e), |Print(e)|, w, sx, inp) && !sx.err
  {
    hide Placed, Wf, Op, Combine, Shorts;
    var x, y := WalkFrom(e.l, st, inp), WalkFrom(e.r, Inner(s1, inp), inp);
    var n := |st.stack|;
    assert sy.stack[..n] == st.stack by { assert sy.stack[..n + 1][..n] == sy.stack[..n]; }
    assert sy.stack[n] == Top(s1) by { assert sy.stack[..n + 1][n] == sy.stack[n]; }
    InfixOp(st.stack, x, y.val, sy.(noeval := s1.noeval), e.op, inp.env.bits, inp.env);
  }

  // The conditional: its condition, then the first branch up to the colon, then
  // the second branch, each with the suppression of the other.

  function BranchA(s1: State): State
    requires |s1.stack| > 0
  {
    s1.(noeval := s1.noeval + Truth(Top(s1).val == 0))
  }

  function BranchB(s1: State, ra: State): State
    requires |s1.stack| > 0
  {
    ra.(noeval := s1.noeval + Truth(Top(s1).val != 0))
  }

  lemma {:induction false} ReadCond(e: Expr, st: State, pc: int, inp: Input) returns (sx: State)
    requires Starts(st, e, pc, inp) && e.Cond?
    ensures Reads(st, e, pc, sx, inp)
    decreases e, 0
  {
    hide Loop, Lex, Op, Conditional, HasRead, Wf, Room, Print, Placed, Follows, Next, Grip, Level;
    CondStart(e, st, pc, inp);
    var s1 := ReadExpr(e.c, st, pc, inp);
    sx := st;
    if WalkFrom(e.c, st, inp).Done? {
      CondFirst(e, st, pc, s1, inp);
      var sa := BranchA(s1);
      LoopConditional(s1, pc, inp);
      var ra := ReadExpr(e.a, sa, Prec(Quest) - 1, inp);
      if WalkFrom(e.a, sa, inp).Done? {
        CondSecond(e, st, pc, s1, ra, inp);
        LoopStops(ra, Prec(Quest) - 1, inp);
        var sb := BranchB(s1, ra);
        var rb := ReadExpr(e.b, sb, Prec(Quest), inp);
        if WalkFrom(e.b, sb, inp).Done? {
          CondEnd(e, st, s1, ra, rb, inp);
          LoopStops(rb, Prec(Quest), inp);
          sx := Op(rb.(noeval := s1.noeval), Quest, inp.env.bits);
        }
      }
    }
  }

  lemma LoopConditional(s1: State, pc: int, inp: Input)
    requires Ready(s1, inp) && s1.mtok == Quest && Prec(Quest) <= pc <= TOPPREC && |s1.stack| > 0
    ensures Ready(BranchA(s1), inp)
    ensures var ra := Loop(Lex(BranchA(s1), inp), Prec(Quest) - 1, inp);
            var sb := BranchB(s1, ra);
            var rb := if ra.err then sb else Loop(Lex(sb, inp), Prec(Quest), inp);
            var r := Op(rb.(noeval := s1.noeval), Quest, inp.env.bits);
            Loop(s1, pc, inp) == if r.err then r else Loop(r, pc, inp)
  {
    hide Lex, Loop, Parse, Conditional, Op, Prec;
    var sa := BranchA(s1);
    ConditionalIs(s1, inp);
    var ra := Parse(sa, Prec(Quest) - 1, inp);
    ParseIs(sa, Prec(Quest) - 1, inp);
    ParseIs(BranchB(s1, ra), Prec(Quest), inp);
    LoopQuest(s1, pc, inp);
  }

  lemma ParseIs(st: State, pc: int, inp: Input)
    requires Ok(st, inp) && pc <= TOPPREC && st.noeval >= 0
    ensures Parse(st, pc, inp) == if st.err then st else Loop(Lex(st, inp), pc, inp)
  {
    hide Loop, Lex;
  }

  lemma LoopQuest(s1: State, pc: int, inp: Input)
    requires Ready(s1, inp) && s1.mtok == Quest && Prec(Quest) <= pc <= TOPPREC
    ensures var r := Conditional(s1, inp); Loop(s1, pc, inp) == if r.err then r else Loop(r, pc, inp)
  {
    hide Conditional, Lex, Operator, Group;
  }

  lemma ConditionalIs(s1: State, inp: Input)
    requires Ready(s1, inp) && s1.mtok == Quest && |s1.stack| > 0
    ensures Ready(BranchA(s1), inp)
    ensures var ra := Parse(BranchA(s1), Prec(Quest) - 1, inp);
            var rb := Parse(BranchB(s1, ra), Prec(Quest), inp);
            Conditional(s1, inp) == Op(rb.(noeval := s1.noeval), Quest, inp.env.bits)
  {
    hide Parse, Op, Prec;
    QuestPrec();
  }

  /** Where the parts of a printed conditional are. */
  predicate CondParts(e: Expr, i: nat, t: seq<Lexeme>)
    requires e.Cond?
  {
    var j := i + |Print(e.c)|;
    var k := j + 1 + |Print(e.a)|;
    i + |Print(e)| == k + 1 + |Print(e.b)| <= |t| && t[j] == LQuest && t[k] == LTok(Colon) &&
    Placed(t, i, Print(e.c)) && Placed(t, j + 1, Print(e.a)) && Placed(t, k + 1, Print(e.b))
  }

  lemma CondStart(e: Expr, st: State, pc: int, inp: Input)
    requires Starts(st, e, pc, inp) && e.Cond?
    ensures Starts(st, e.c, pc, inp) && CondParts(e, st.ptr, inp.text)
    ensures Ready(st, inp) && Prec(Next(inp.text, st.ptr + |Print(e)|)) > Prec(Quest)
  {
    hide Placed, Room, Print, Prec, Operand;
    QuestPrec();
    CondPlaced(e, st.ptr, inp.text);
    CondRoom(e, st);
    GripBelow(e.c, st.unary, Prec(Quest));
  }

  lemma QuestPrec()
    ensures Prec(Quest) == 14 && Prec(Colon) == 14
  {}

  lemma CondRoom(e: Expr, st: State)
    requires e.Cond? && Room(st, e)
    ensures Room(st, e.c)
  {}

  lemma CondPlaced(e: Expr, i: nat, t: seq<Lexeme>)
    requires e.Cond? && Placed(t, i, Print(e))
    ensures CondParts(e, i, t)
  {
    hide Placed;
    var u := Print(e.a) + ([LTok(Colon)] + Print(e.b));
    assert Print(e) == Print(e.c) + ([LQuest] + u);
    PlacedBoth(t, i, Print(e.c), [LQuest] + u);
    var j := i + |Print(e.c)|;
    PlacedBoth(t, j, [LQuest], u);
    PlacedOne(t, j, LQuest);
    PlacedBoth(t, j + 1, Print(e.a), [LTok(Colon)] + Print(e.b));
    var k := j + 1 + |Print(e.a)|;
    PlacedBoth(t, k, [LTok(Colon)], Print(e.b));
    PlacedOne(t, k, LTok(Colon));
    PlacedFits(t, k + 1, Print(e.b));
  }

  lemma PlacedFits(t: seq<Lexeme>, i: nat, u: seq<Lexeme>)
    requires Placed(t, i, u)
    ensures i + |u| <= |t|
  {}

  lemma CondWf(e: Expr, unary: bool)
    requires e.Cond? && Wf(e, unary)
    ensures Wf(e.a, true) && Level(e.a) <= 13 && Grip(e.a) <= 13 && Wf(e.b, true) && Level(e.b) <= 14 && Grip(e.b) <= 14
  {
    GripLevel(e.a, true);
    GripLevel(e.b, true);
  }

  lemma CondRooms(e: Expr, st: State, names: nat, s1: State)
    requires e.Cond? && Room(st, e)
    ensures |s1.stack| == |st.stack| + 1 && |s1.lvals| == |st.lvals| + Names(e.c) ==> Room(s1, e.a)
    ensures |s1.stack| == |st.stack| + 2 && |s1.lvals| == |st.lvals| + Names(e.c) + Names(e.a) ==> Room(s1, e.b)
  {}

  lemma AheadTok(s1: State, j: nat, inp: Input)
    requires Ahead(s1, j, inp) && j < |inp.text|
    ensures inp.text[j] == LQuest ==> s1.mtok == Quest && s1.ptr == j + 1 && s1.unary
    ensures inp.text[j] == LTok(Colon) ==> s1.mtok == Colon && s1.ptr == j + 1 && s1.unary
  {}

  /** What comes after the parts of a conditional. */
  lemma CondFollows(e: Expr, i: nat, t: seq<Lexeme>)
    requires e.Cond? && CondParts(e, i, t)
    ensures var j := i + |Print(e.c)|; var k := j + 1 + |Print(e.a)|;
            Follows(t, k) && Prec(Next(t, k)) == 14 && Placed(t, j + 1, Print(e.a)) && Placed(t, k + 1, Print(e.b)) &&
            t[j] == LQuest && t[k] == LTok(Colon) && j < k < i + |Print(e)| == k + 1 + |Print(e.b)| <= |t|
  {
    hide Print, Placed;
  }

  /** The state after the question mark. */
  lemma CondOpen(e: Expr, st: State, s1: State, inp: Input)
    requires Ready(st, inp) && Room(st, e) && e.Cond? && CondParts(e, st.ptr, inp.text)
    requires HasRead(st, Names(e.c), |Print(e.c)|, WalkFrom(e.c, st, inp), s1, inp)
    ensures |s1.stack| > 0 && Ready(s1, inp) && Ready(BranchA(s1), inp) && s1.mtok == Quest
    ensures var sa := BranchA(s1); sa.ptr == st.ptr + |Print(e.c)| + 1 && sa.unary && Room(sa, e.a)
    ensures var x := WalkFrom(e.c, st, inp);
            WalkFrom(e.a, BranchA(s1), inp) == Walk(inp.env, e.a, x.vars, st.noeval > 0 || x.val == 0)
  {
    hide Placed, Walk, Print, Room, Prec, Next, Follows, LvMatches, Ahead;
    CondFollows(e, st.ptr, inp.text);
    AheadTok(s1, st.ptr + |Print(e.c)|, inp);
    CondRooms(e, st, 0, BranchA(s1));
  }

  lemma CondFirst(e: Expr, st: State, pc: int, s1: State, inp: Input)
    requires Starts(st, e, pc, inp) && e.Cond? && CondParts(e, st.ptr, inp.text)
    requires HasRead(st, Names(e.c), |Print(e.c)|, WalkFrom(e.c, st, inp), s1, inp)
    ensures Ready(s1, inp) && s1.mtok == Quest && Prec(Quest) <= pc <= TOPPREC && |s1.stack| > 0
    ensures Starts(BranchA(s1), e.a, Prec(Quest) - 1, inp)
    ensures var x := WalkFrom(e.c, st, inp);
            WalkFrom(e.a, BranchA(s1), inp) == Walk(inp.env, e.a, x.vars, st.noeval > 0 || x.val == 0)
  {
    hide Starts, HasRead, CondParts, Placed, Walk, WalkFrom, Print, Room, Prec, Next, Follows, Wf, Level, Grip, BranchA;
    CondLevel(e);
    StartsFacts(st, e, pc, inp);
    QuestPrec();
    CondWf(e, st.unary);
    CondOpen(e, st, s1, inp);
    CondFollows(e, st.ptr, inp.text);
    var j := st.ptr + |Print(e.c)|;
    StartsAt(BranchA(s1), e.a, 13, inp, j + 1, j + 1 + |Print(e.a)|);
  }

  lemma CondLevel(e: Expr)
    requires e.Cond?
    ensures Level(e) >= Prec(Quest) && Grip(e) == Prec(Quest)
  {}

  /** The state after the colon. */
  lemma CondMiddle(e: Expr, st: State, s1: State, ra: State, inp: Input)
    requires Ready(st, inp) && Room(st, e) && e.Cond? && CondParts(e, st.ptr, inp.text)
    requires HasRead(st, Names(e.c), |Print(e.c)|, WalkFrom(e.c, st, inp), s1, inp)
    requires HasRead(BranchA(s1), Names(e.a), |Print(e.a)|, WalkFrom(e.a, BranchA(s1), inp), ra, inp)
    ensures |s1.stack| > 0 && Ready(BranchB(s1, ra), inp) && ra.mtok == Colon && Ready(ra, inp)
    ensures var k := st.ptr + |Print(e.c)| + 1 + |Print(e.a)|;
            var sb := BranchB(s1, ra);
            sb.ptr == k + 1 && sb.unary && Room(sb, e.b)
    ensures var x, y := WalkFrom(e.c, st, inp), WalkFrom(e.a, BranchA(s1), inp);
            WalkFrom(e.b, BranchB(s1, ra), inp) == Walk(inp.env, e.b, y.vars, st.noeval > 0 || x.val != 0)
  {
    hide Placed, Walk, Print, Room, Prec, Next, Follows, LvMatches, Ahead;
    CondFollows(e, st.ptr, inp.text);
    AheadTok(s1, st.ptr + |Print(e.c)|, inp);
    AheadTok(ra, st.ptr + |Print(e.c)| + 1 + |Print(e.a)|, inp);
    CondRooms(e, st, 0, BranchB(s1, ra));
  }

  lemma CondSecond(e: Expr, st: State, pc: int, s1: State, ra: State, inp: Input)
    requires Starts(st, e, pc, inp) && e.Cond? && CondParts(e, st.ptr, inp.text)
    requires HasRead(st, Names(e.c), |Print(e.c)|, WalkFrom(e.c, st, inp), s1, inp)
    requires HasRead(BranchA(s1), Names(e.a), |Print(e.a)|, WalkFrom(e.a, BranchA(s1), inp), ra, inp)
    ensures Ok(ra, inp) && ra.noeval >= 0 && Prec(ra.mtok) > Prec(Quest) - 1 && !ra.err
    ensures Starts(BranchB(s1, ra), e.b, Prec(Quest), inp)
    ensures var x, y := WalkFrom(e.c, st, inp), WalkFrom(e.a, BranchA(s1), inp);
            WalkFrom(e.b, BranchB(s1, ra), inp) == Walk(inp.env, e.b, y.vars, st.noeval > 0 || x.val != 0)
  {
    hide Starts, HasRead, CondParts, Placed, Walk, WalkFrom, Print, Room, Prec, Next, Follows, Wf, Level, Grip, BranchB;
    CondLevel(e);
    StartsFacts(st, e, pc, inp);
    QuestPrec();
    CondWf(e, st.unary);
    CondMiddle(e, st, s1, ra, inp);
    CondFollows(e, st.ptr, inp.text);
    var k := st.ptr + |Print(e.c)| + 1 + |Print(e.a)|;
    StartsAt(BranchB(s1, ra), e.b, 14, inp, k + 1, st.ptr + |Print(e)|);
  }

  lemma CondEnd(e: Expr, st: State, s1: State, ra: State, rb: State, inp: Input)
    requires Ready(st, inp) && e.Cond? && CondParts(e, st.ptr, inp.text)
    requires HasRead(st, Names(e.c), |Print(e.c)|, WalkFrom(e.c, st, inp), s1, inp)
    requires var x := WalkFrom(e.c, st, inp);
             WalkFrom(e.a, BranchA(s1), inp) == Walk(inp.env, e.a, x.vars, st.noeval > 0 || x.val == 0)
    requires HasRead(BranchA(s1), Names(e.a), |Print(e.a)|, WalkFrom(e.a, BranchA(s1), inp), ra, inp)
    requires var x, y := WalkFrom(e.c, st, inp), WalkFrom(e.a, BranchA(s1), inp);
             WalkFrom(e.b, BranchB(s1, ra), inp) == Walk(inp.env, e.b, y.vars, st.noeval > 0 || x.val != 0)
    requires HasRead(BranchB(s1, ra), Names(e.b), |Print(e.b)|, WalkFrom(e.b, BranchB(s1, ra), inp), rb, inp)
    requires Prec(Next(inp.text, st.ptr + |Print(e)|)) > Prec(Quest)
    ensures Ok(rb, inp) && rb.noeval >= 0 && Prec(rb.mtok) > Prec(Quest)
    ensures var sx := Op(rb.(noeval := s1.noeval), Quest, inp.env.bits);
            !sx.err && HasRead(st, Names(e), |Print(e)|, WalkFrom(e, st, inp), sx, inp)
  {
    hide Placed, Op, Prec, Next, Follows, Ahead, LvMatches, Print, CondParts, Walk;
    CondFollows(e, st.ptr, inp.text);
    var j := st.ptr + |Print(e.c)|;
    AheadTok(s1, j, inp);
    AheadTok(ra, j + 1 + |Print(e.a)|, inp);
    CondStack(st, s1, ra, rb);
    var sy := rb.(noeval := s1.noeval);
    QuestIs(sy, inp.env.bits);
    var sx := Op(sy, Quest, inp.env.bits);
    AheadNext(rb, st.ptr + |Print(e)|, inp);
    AheadSame(rb, sx, st.ptr + |Print(e)|, inp);
    NoLv(sx);
    WalkCond(e, st, inp);
  }

  lemma AheadNext(s: State, j: nat, inp: Input)
    requires Ahead(s, j, inp)
    ensures j <= |inp.text| && s.mtok == Next(inp.text, j)
  {}

  lemma WalkCond(e: Expr, st: State, inp: Input)
    requires e.Cond?
    ensures var dry := st.noeval > 0;
            var x := WalkFrom(e.c, st, inp);
            WalkFrom(e, st, inp) ==
            if x.Trap? then Trap
            else
              var y := Walk(inp.env, e.a, x.vars, dry || x.val == 0);
              if y.Trap? then Trap
              else
                var z := Walk(inp.env, e.b, y.vars, dry || x.val != 0);
                if z.Trap? then Trap else Done(if x.val != 0 then y.val else z.val, NoLValue, z.vars)
  {}

  /** The three values on the stack. */
  lemma CondStack(st: State, s1: State, ra: State, rb: State)
    requires |s1.stack| == |st.stack| + 1 && s1.stack[..|st.stack|] == st.stack
    requires |ra.stack| == |s1.stack| + 1 && ra.stack[..|s1.stack|] == s1.stack
    requires |rb.stack| == |ra.stack| + 1 && rb.stack[..|ra.stack|] == ra.stack
    ensures var n := |st.stack|; rb.stack[..n] == st.stack && rb.stack[n] == Top(s1) && rb.stack[n + 1] == Top(ra)
  {
    var n := |st.stack|;
    assert rb.stack[n + 1] == ra.stack[n + 1] && rb.stack[n] == ra.stack[n] == s1.stack[n];
    assert rb.stack[..n] == st.stack by { assert rb.stack[..n + 2][..n + 1][..n] == rb.stack[..n]; }
  }

  lemma QuestIs(sy: State, bits: Bits)
    requires 3 <= |sy.stack| <= STACKSZ
    ensures var n := |sy.stack|;
            Op(sy, Quest, bits) ==
            sy.(stack := sy.stack[..n - 3] +
              [Cell(if sy.stack[n - 3].val != 0 then sy.stack[n - 2].val else sy.stack[n - 1].val, -1)])
  {
    hide OpInfix, OpTop;
  }

  // ----- Main results -----

  lemma {:induction false} ReadExpr(e: Expr, st: State, pc: int, inp: Input) returns (sx: State)
    requires Starts(st, e, pc, inp)
    ensures Reads(st, e, pc, sx, inp)
    decreases e, 1
  {
    hide *;
    match e
    case Lit(_) => sx := ReadOperand(e, st, pc, inp);
    case Name(_, _) => sx := ReadOperand(e, st, pc, inp);
    case Paren(_) => sx := ReadParen(e, st, pc, inp);
    case Prefix(_, _) => sx := ReadPrefix(e, st, pc, inp);
    case Postfix(_, _) => sx := ReadPostfix(e, st, pc, inp);
    case Infix(_, _, _) => sx := ReadInfix(e, st, pc, inp);
    case Cond(_, _, _) => sx := ReadCond(e, st, pc, inp);
  }
}
