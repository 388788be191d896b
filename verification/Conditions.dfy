/** Conditions [[ ... ]]: getcond of Src/text.c prints them, par_cond of Src/parse.c
    reads them, evalcond of Src/cond.c evaluates them.  On the level of tokens. */
module Conditions {

  /** The binary tests, COND_STREQ to COND_GE, in that order. */
  datatype Op = STREQ | STRNEQ | STRLT | STRGTR | NT | OT | EF | EQ | NE | LT | GT | LE | GE

  datatype Cond =
    | Not(c: Cond)
    | And(left: Cond, right: Cond)
    | Or(left: Cond, right: Cond)
    | Binary(op: Op, a: string, b: string)
    | Unary(t: char, s: string)

  datatype Tok = Bang | Inpar | Outpar | Damper | Dbar | Seper | Inang | Outang | Str(s: string) | Other

  // ----- getcond -----

  function OpTok(op: Op): Tok {
    match op
    case STREQ => Str("=")
    case STRNEQ => Str("!=")
    case STRLT => Inang
    case STRGTR => Outang
    case NT => Str("-nt")
    case OT => Str("-ot")
    case EF => Str("-ef")
    case EQ => Str("-eq")
    case NE => Str("-ne")
    case LT => Str("-lt")
    case GT => Str("-gt")
    case LE => Str("-le")
    case GE => Str("-ge")
  }

  /** The tokens of a condition. */
  function Print(c: Cond): seq<Tok>
    decreases c, 0
  {
    match c
    case Not(x) => [Bang] + Operand(x, x.Not? || x.And? || x.Or?)
    case And(l, r) => Operand(l, l.Or?) + [Damper] + Operand(r, r.Or?)
    case Or(l, r) => Operand(l, l.And?) + [Dbar] + Operand(r, r.And?)
    case Binary(op, a, b) => [Str(a), OpTok(op), Str(b)]
    case Unary(t, s) => [Str(['-', t]), Str(s)]
  }

  function Operand(c: Cond, addpar: bool): seq<Tok>
    decreases c, 1
  {
    if addpar then [Inpar] + Print(c) + [Outpar] else Print(c)
  }

  /** The text buffer. */
  class Text {
    var tbuf: seq<Tok>

    constructor ()
      ensures tbuf == []
    {
      tbuf := [];
    }

    /** getcond. */
    method Getcond(c: Cond, addpar: bool)
      modifies this
      ensures tbuf == old(tbuf) + Operand(c, addpar)
      decreases c, 1
    {
      hide Print;
      if addpar { tbuf := tbuf + [Inpar]; }
      GetSwitch(c);
      if addpar { tbuf := tbuf + [Outpar]; }
    }

    /** The switch of getcond. */
    method GetSwitch(c: Cond)
      modifies this
      ensures tbuf == old(tbuf) + Print(c)
      decreases c, 0
    {
      hide Operand;
      match c
      case Not(x) =>
        tbuf := tbuf + [Bang];
        Getcond(x, x.Not? || x.And? || x.Or?);
      case And(l, r) =>
        Getcond(l, l.Or?);
        tbuf := tbuf + [Damper];
        Getcond(r, r.Or?);
      case Or(l, r) =>
        Getcond(l, l.And?);
        tbuf := tbuf + [Dbar];
        Getcond(r, r.And?);
      case Binary(op, a, b) =>
        tbuf := tbuf + [Str(a)];
        tbuf := tbuf + [OpTok(op)];
        tbuf := tbuf + [Str(b)];
      case Unary(t, s) =>
        tbuf := tbuf + [Str(['-', t])];
        tbuf := tbuf + [Str(s)];
    }
  }

  // ----- par_cond -----

  /** A condition and the position after it; None after a syntax error. */
  datatype Parsed = None | Some(c: Cond, j: nat)

  function TokAt(t: seq<Tok>, i: nat): Tok {
    if i < |t| then t[i] else Other
  }

  /** while (tok == SEPER) condlex(); */
  function Skip(t: seq<Tok>, i: nat): (j: nat)
    ensures i <= j && TokAt(t, j) != Seper
    decreases |t| - i
  {
    if TokAt(t, i) == Seper then Skip(t, i + 1) else i
  }

  function Cond0(t: seq<Tok>, i: nat): (r: Parsed)
    ensures r.Some? ==> i < r.j
    decreases |t| - i, 2
  {
    var p := Cond1(t, i);
    if p.None? then None
    else
      var j := Skip(t, p.j);
      if TokAt(t, j) != Dbar then Some(p.c, j)
      else
        var q := Cond0(t, Skip(t, j + 1));
        if q.None? then None else Some(Or(p.c, q.c), q.j)
  }

  function Cond1(t: seq<Tok>, i: nat): (r: Parsed)
    ensures r.Some? ==> i < r.j
    decreases |t| - i, 1
  {
    var p := Cond2(t, i);
    if p.None? then None
    else
      var j := Skip(t, p.j);
      if TokAt(t, j) != Damper then Some(p.c, j)
      else
        var q := Cond1(t, Skip(t, j + 1));
        if q.None? then None else Some(And(p.c, q.c), q.j)
  }

  function Cond2(t: seq<Tok>, i: nat): (r: Parsed)
    ensures r.Some? ==> i < r.j
    decreases |t| - i, 0
  {
    match TokAt(t, i)
    case Bang =>
      var p := Cond2(t, i + 1);
      if p.None? then None else Some(Not(p.c), p.j)
    case Inpar =>
      var p := Cond0(t, Skip(t, i + 1));
      if p.None? then None
      else
        var j := Skip(t, p.j);
        if TokAt(t, j) == Outpar then Some(p.c, j + 1) else None
    case Str(s1) =>
      var u := TokAt(t, i + 1);
      if u == Inang || u == Outang then
        if TokAt(t, i + 2).Str? then Some(Binary(if u == Inang then STRLT else STRGTR, s1, TokAt(t, i + 2).s), i + 3)
        else None
      else if !u.Str? then None
      else if TokAt(t, i + 2).Str? then Triple(s1, u.s, TokAt(t, i + 2).s, i + 3)
      else Double(s1, u.s, i + 2)
    case _ => None
  }

  /** par_cond_double */
  function Double(a: string, b: string, j: nat): Parsed {
    if |a| == 2 && a[0] == '-' then Some(Unary(a[1], b), j) else None
  }

  /** get_cond_num and par_cond_triple */
  function Triple(a: string, b: string, c: string, j: nat): Parsed {
    if b == "=" || b == "==" then Some(Binary(STREQ, a, c), j)
    else if b == "!=" then Some(Binary(STRNEQ, a, c), j)
    else if b == "-nt" then Some(Binary(NT, a, c), j)
    else if b == "-ot" then Some(Binary(OT, a, c), j)
    else if b == "-ef" then Some(Binary(EF, a, c), j)
    else if b == "-eq" then Some(Binary(EQ, a, c), j)
    else if b == "-ne" then Some(Binary(NE, a, c), j)
    else if b == "-lt" then Some(Binary(LT, a, c), j)
    else if b == "-gt" then Some(Binary(GT, a, c), j)
    else if b == "-le" then Some(Binary(LE, a, c), j)
    else if b == "-ge" then Some(Binary(GE, a, c), j)
    else None
  }

  /** The parser: tok is the token at pos.  A syntax error sets tok to LEXERR, after
      which nothing more is read. */
  class Parser {
    const toks: seq<Tok>
    var pos: nat
    var lexerr: bool

    constructor (toks: seq<Tok>)
      ensures this.toks == toks && pos == 0 && !lexerr
    {
      this.toks, pos, lexerr := toks, 0, false;
    }

    function Tok(): Tok
      reads this
    {
      if lexerr then Other else TokAt(toks, pos)
    }

    ghost predicate Left(p: Parsed)
      reads this
    {
      if p.Some? then !lexerr && pos == p.j else lexerr
    }

    method SkipSeper()
      requires !lexerr
      modifies this`pos
      ensures pos == Skip(toks, old(pos)) && old(pos) <= pos
    {
      while Tok() == Seper
        invariant old(pos) <= pos && Skip(toks, pos) == Skip(toks, old(pos))
        decreases |toks| - pos
      {
        pos := pos + 1;
      }
    }

    /** par_cond */
    method ParCond() returns (c: Cond)
      requires !lexerr
      modifies this
      ensures Left(Cond0(toks, old(pos))) && (!lexerr ==> c == Cond0(toks, old(pos)).c)
      decreases |toks| - pos, 2
    {
      c := ParCond1();
      if lexerr { return; }
      SkipSeper();
      if Tok() == Dbar {
        pos := pos + 1;
        SkipSeper();
        var r := ParCond();
        c := Or(c, r);
      }
    }

    /** par_cond_1 */
    method ParCond1() returns (c: Cond)
      requires !lexerr
      modifies this
      ensures Left(Cond1(toks, old(pos))) && (!lexerr ==> c == Cond1(toks, old(pos)).c)
      decreases |toks| - pos, 1
    {
      c := ParCond2();
      if lexerr { return; }
      SkipSeper();
      if Tok() == Damper {
        pos := pos + 1;
        SkipSeper();
        var r := ParCond1();
        c := And(c, r);
      }
    }

    /** par_cond_2, in [[ ... ]] */
    method ParCond2() returns (c: Cond)
      requires !lexerr
      modifies this
      ensures Left(Cond2(toks, old(pos))) && (!lexerr ==> c == Cond2(toks, old(pos)).c)
      decreases |toks| - pos, 0
    {
      c := Unary('n', "");
      if Tok() == Bang {
        pos := pos + 1;
        c := ParCond2();
        c := Not(c);
        return;
      }
      if Tok() == Inpar {
        pos := pos + 1;
        SkipSeper();
        c := ParCond();
        if lexerr { return; }
        SkipSeper();
        if Tok() != Outpar { lexerr := true; return; }
        pos := pos + 1;
        return;
      }
      if !Tok().Str? { lexerr := true; return; }
      var s1 := Tok().s;
      pos := pos + 1;
      if Tok() == Inang || Tok() == Outang {
        var op := if Tok() == Inang then STRLT else STRGTR;
        pos := pos + 1;
        if !Tok().Str? { lexerr := true; return; }
        c := Binary(op, s1, Tok().s);
        pos := pos + 1;
        return;
      }
      if !Tok().Str? { lexerr := true; return; }
      var s2 := Tok().s;
      pos := pos + 1;
      var p;
      if Tok().Str? {
        var s3 := Tok().s;
        pos := pos + 1;
        p := Triple(s1, s2, s3, pos);
      } else {
        p := Double(s1, s2, pos);
      }
      if p.Some? { c := p.c; } else { lexerr := true; }
    }
  }

  // ----- evalcond -----

  /** The result of a test may depend on the tests made before. */
  type Oracle = (seq<Cond>, Cond) -> bool

  /** The result of a condition, and the tests made, after those of `done`. */
  function Eval(c: Cond, test: Oracle, done: seq<Cond>): (bool, seq<Cond>)
    decreases c
  {
    match c
    case Not(x) => var (b, log) := Eval(x, test, done); (!b, log)
    case And(l, r) => var (b, log) := Eval(l, test, done); if b then Eval(r, test, log) else (false, log)
    case Or(l, r) => var (b, log) := Eval(l, test, done); if b then (true, log) else Eval(r, test, log)
    case _ => (test(done, c), done + [c])
  }

  // ----- What a condition means -----

  /** The tests of a condition, from left to right. */
  function Leaves(c: Cond): (r: seq<Cond>)
    ensures r != []
    decreases c
  {
    match c
    case Not(x) => Leaves(x)
    case And(l, r) => Leaves(l) + Leaves(r)
    case Or(l, r) => Leaves(l) + Leaves(r)
    case _ => [c]
  }

  /** The Boolean value of a condition, with an answer to each of its tests. */
  predicate Holds(c: Cond, v: seq<bool>)
    requires |v| == |Leaves(c)|
    decreases c
  {
    match c
    case Not(x) => !Holds(x, v)
    case And(l, r) => Holds(l, v[..|Leaves(l)|]) && Holds(r, v[|Leaves(l)|..])
    case Or(l, r) => Holds(l, v[..|Leaves(l)|]) || Holds(r, v[|Leaves(l)|..])
    case _ => v[0]
  }

  /** Which tests have to be made: those of a right operand if the left one of an && is
      true, or that of an || false. */
  function Asked(c: Cond, v: seq<bool>): (m: seq<bool>)
    requires |v| == |Leaves(c)|
    ensures |m| == |v|
    decreases c
  {
    match c
    case Not(x) => Asked(x, v)
    case And(l, r) =>
      var a, b := v[..|Leaves(l)|], v[|Leaves(l)|..];
      Asked(l, a) + if Holds(l, a) then Asked(r, b) else Unasked(|b|)
    case Or(l, r) =>
      var a, b := v[..|Leaves(l)|], v[|Leaves(l)|..];
      Asked(l, a) + if !Holds(l, a) then Asked(r, b) else Unasked(|b|)
    case _ => [true]
  }

  function Unasked(n: nat): (m: seq<bool>)
    ensures |m| == n && forall k :: 0 <= k < n ==> !m[k]
  {
    seq(n, _ => false)
  }

  /** The marked ones, in order. */
  function Pick(s: seq<Cond>, m: seq<bool>): seq<Cond>
    requires |m| == |s|
  {
    if s == [] then [] else Pick(s[..|s| - 1], m[..|s| - 1]) + if m[|s| - 1] then [s[|s| - 1]] else []
  }

  /** Each test that was made had the answer v, after the tests made before it. */
  ghost predicate Answered(s: seq<Cond>, m: seq<bool>, v: seq<bool>, test: Oracle, done: seq<Cond>)
    requires |m| == |s| == |v|
  {
    forall k :: 0 <= k < |s| && m[k] ==> v[k] == test(done + Pick(s[..k], m[..k]), s[k])
  }

  /** b is the value of c, and log what was tested for it after `done`: just the tests that
      had to be made, in their order, with the answers v. */
  ghost predicate Means(c: Cond, test: Oracle, done: seq<Cond>, v: seq<bool>, b: bool, log: seq<Cond>) {
    |v| == |Leaves(c)| && b == Holds(c, v) && log == done + Pick(Leaves(c), Asked(c, v)) &&
    Answered(Leaves(c), Asked(c, v), v, test, done)
  }

  lemma {:induction false} PickPlus(s: seq<Cond>, m: seq<bool>, s': seq<Cond>, m': seq<bool>)
    requires |m| == |s| && |m'| == |s'|
    ensures Pick(s + s', m + m') == Pick(s, m) + Pick(s', m')
    decreases |s'|
  {
    if s' == [] {
      assert s + s' == s && m + m' == m;
    } else {
      var n := |s'| - 1;
      assert (s + s')[..|s + s'| - 1] == s + s'[..n] && (m + m')[..|s + s'| - 1] == m + m'[..n];
      PickPlus(s, m, s'[..n], m'[..n]);
    }
  }

  lemma {:induction false} PickNone(s: seq<Cond>)
    ensures Pick(s, Unasked(|s|)) == []
  {
    if s != [] {
      assert Unasked(|s|)[..|s| - 1] == Unasked(|s| - 1);
      PickNone(s[..|s| - 1]);
    }
  }

  lemma AnsweredPlus(s: seq<Cond>, m: seq<bool>, v: seq<bool>, s': seq<Cond>, m': seq<bool>, v': seq<bool>,
                     test: Oracle, done: seq<Cond>)
    requires |m| == |s| == |v| && |m'| == |s'| == |v'|
    requires Answered(s, m, v, test, done) && Answered(s', m', v', test, done + Pick(s, m))
    ensures Answered(s + s', m + m', v + v', test, done)
  {
    forall k | 0 <= k < |s + s'| && (m + m')[k]
      ensures (v + v')[k] == test(done + Pick((s + s')[..k], (m + m')[..k]), (s + s')[k])
    {
      if k < |s| {
        assert (s + s')[..k] == s[..k] && (m + m')[..k] == m[..k];
      } else {
        var n := k - |s|;
        assert (s + s')[..k] == s + s'[..n] && (m + m')[..k] == m + m'[..n];
        PickPlus(s, m, s'[..n], m'[..n]);
        assert done + (Pick(s, m) + Pick(s'[..n], m'[..n])) == done + Pick(s, m) + Pick(s'[..n], m'[..n]);
      }
    }
  }

  /** The two operands of && or ||: the right one has been evaluated, or need not be. */
  lemma MeansBoth(c: Cond, l: Cond, r: Cond, test: Oracle, done: seq<Cond>, v: seq<bool>, a: bool, log: seq<Cond>,
                  v': seq<bool>, b: bool, log': seq<Cond>, goes: bool)
    requires (c == And(l, r) && goes == a) || (c == Or(l, r) && goes == !a)
    requires Means(l, test, done, v, a, log)
    requires if goes then Means(r, test, log, v', b, log') else |v'| == |Leaves(r)| && log' == log && b == c.Or?
    ensures Means(c, test, done, v + v', b, log')
  {
    hide Leaves, Answered, Pick, Holds, Asked, Unasked;
    var m, m' := Asked(l, v), if goes then Asked(r, v') else Unasked(|v'|);
    assert (v + v')[..|v|] == v && (v + v')[|v|..] == v';
    OfBoth(c, l, r, v + v', m, m');
    PickPlus(Leaves(l), m, Leaves(r), m');
    if !goes {
      PickNone(Leaves(r));
      NotAnswered(Leaves(r), v', test, log);
    }
    AnsweredPlus(Leaves(l), m, v, Leaves(r), m', v', test, done);
  }

  lemma NotAnswered(s: seq<Cond>, v: seq<bool>, test: Oracle, done: seq<Cond>)
    requires |v| == |s|
    ensures Answered(s, Unasked(|s|), v, test, done)
  {}

  lemma OfBoth(c: Cond, l: Cond, r: Cond, v: seq<bool>, m: seq<bool>, m': seq<bool>)
    requires (c == And(l, r) || c == Or(l, r)) && |v| == |Leaves(l)| + |Leaves(r)|
    requires var a, b := v[..|Leaves(l)|], v[|Leaves(l)|..];
             m == Asked(l, a) && m' == if Holds(l, a) == c.And? then Asked(r, b) else Unasked(|b|)
    ensures Leaves(c) == Leaves(l) + Leaves(r) && Asked(c, v) == m + m'
    ensures var a, b := v[..|Leaves(l)|], v[|Leaves(l)|..];
            Holds(c, v) == if c.And? then Holds(l, a) && Holds(r, b) else Holds(l, a) || Holds(r, b)
  {}

  /** Evaluation gives the Boolean value under the answers v of the tests made, and makes
      just the tests that are needed. */
  lemma {:induction false} EvalMeans(c: Cond, test: Oracle, done: seq<Cond>) returns (v: seq<bool>)
    ensures Means(c, test, done, v, Eval(c, test, done).0, Eval(c, test, done).1)
    decreases c
  {
    hide Means;
    match c
    case Not(x) =>
      v := EvalMeans(x, test, done);
      MeansNot(x, test, done, v, Eval(x, test, done).0, Eval(x, test, done).1);
    case And(l, r) => v := EvalBoth(c, l, r, test, done);
    case Or(l, r) => v := EvalBoth(c, l, r, test, done);
    case _ =>
      v := [test(done, c)];
      MeansLeaf(c, test, done);
  }

  lemma {:induction false} EvalBoth(c: Cond, l: Cond, r: Cond, test: Oracle, done: seq<Cond>) returns (v: seq<bool>)
    requires c == And(l, r) || c == Or(l, r)
    ensures Means(c, test, done, v, Eval(c, test, done).0, Eval(c, test, done).1)
    decreases c, 0
  {
    hide Means;
    var v0 := EvalMeans(l, test, done);
    var a, log := Eval(l, test, done).0, Eval(l, test, done).1;
    if a == c.And? {
      var v1 := EvalMeans(r, test, log);
      v := v0 + v1;
      MeansBoth(c, l, r, test, done, v0, a, log, v1, Eval(r, test, log).0, Eval(r, test, log).1, true);
    } else {
      v := v0 + Unasked(|Leaves(r)|);
      MeansBoth(c, l, r, test, done, v0, a, log, Unasked(|Leaves(r)|), c.Or?, log, false);
    }
  }

  lemma MeansNot(x: Cond, test: Oracle, done: seq<Cond>, v: seq<bool>, b: bool, log: seq<Cond>)
    requires Means(x, test, done, v, b, log)
    ensures Means(Not(x), test, done, v, !b, log)
  {}

  lemma MeansLeaf(c: Cond, test: Oracle, done: seq<Cond>)
    requires c.Binary? || c.Unary?
    ensures Means(c, test, done, [test(done, c)], test(done, c), done + [c])
  {
    assert Leaves(c) == [c] && Pick([c], [true]) == [c] && Pick([c][..0], [true][..0]) == [];
    assert done + [] == done;
  }

  class Evaluator {
    const test: Oracle
    var log: seq<Cond>

    constructor (test: Oracle)
      ensures this.test == test && log == []
    {
      this.test, log := test, [];
    }

    method Evalcond(c: Cond) returns (b: bool)
      modifies this
      ensures (b, log) == Eval(c, test, old(log)) && exists v :: Means(c, test, old(log), v, b, log)
      decreases c
    {
      hide Means;
      ghost var v := EvalMeans(c, test, log);
      match c
      case Not(x) =>
        b := Evalcond(x);
        b := !b;
      case And(l, r) =>
        b := Evalcond(l);
        if b { b := Evalcond(r); }
      case Or(l, r) =>
        b := Evalcond(l);
        if !b { b := Evalcond(r); }
      case _ =>
        b := test(log, c);
        log := log + [c];
    }
  }

  /** par_cond and evalcond on the tokens between the brackets. */
  method EvalText(toks: seq<Tok>, test: Oracle) returns (ok: bool, b: bool, log: seq<Cond>)
    ensures var p := Cond0(toks, 0);
            (ok <==> p.Some? && p.j == |toks|) &&
            (ok ==> (b, log) == Eval(p.c, test, []) && exists v :: Means(p.c, test, [], v, b, log))
  {
    hide Cond0, Eval, Means;
    var parser := new Parser(toks);
    var c := parser.ParCond();
    ok, b, log := !parser.lexerr && parser.pos == |toks|, false, [];
    if ok {
      var evaluator := new Evaluator(test);
      b := evaluator.Evalcond(c);
      log := evaluator.log;
    }
  }

  function Test(a: char, s: string): seq<Tok> {
    [Str(['-', a]), Str(s)]
  }

  lemma TestAt(t: seq<Tok>, i: nat, a: char, s: string)
    requires i + 1 < |t| && t[i] == Str(['-', a]) && t[i + 1] == Str(s) && !TokAt(t, i + 2).Str?
    ensures Cond2(t, i) == Some(Unary(a, s), i + 2) && Skip(t, i) == i
  {}

  /** What stands between two tests means what it says: the second test is made exactly if
      the first one holds, for &&, or does not, for ||. */
  lemma TwoTests(a: char, s: string, b: char, u: string, test: Oracle)
    ensures var x, y := Unary(a, s), Unary(b, u);
            var both := Cond0(Test(a, s) + [Damper] + Test(b, u), 0);
            both.Some? && both.j == 5 &&
            Eval(both.c, test, []) ==
            (test([], x) && test([x], y), if test([], x) then [x, y] else [x])
    ensures var x, y := Unary(a, s), Unary(b, u);
            var either := Cond0(Test(a, s) + [Dbar] + Test(b, u), 0);
            either.Some? && either.j == 5 &&
            Eval(either.c, test, []) ==
            (test([], x) || test([x], y), if test([], x) then [x] else [x, y])
  {
    hide Cond0, Cond1, Cond2;
    var x, y := Unary(a, s), Unary(b, u);
    var t, t' := Test(a, s) + [Damper] + Test(b, u), Test(a, s) + [Dbar] + Test(b, u);
    TestAt(t, 0, a, s);
    TestAt(t, 3, b, u);
    Cond1Stop(t, 3, y, 5);
    Cond1More(t, 0, x, 2);
    Cond0Stop(t, 0, And(x, y), 5);
    TestAt(t', 0, a, s);
    TestAt(t', 3, b, u);
    Cond1Stop(t', 0, x, 2);
    Cond1Stop(t', 3, y, 5);
    Cond0Stop(t', 3, y, 5);
    Cond0More(t', 0, x, 2);
    assert [] + [x] == [x] && [x] + [y] == [x, y];
  }

  /** && binds tighter than || on either side of it. */
  lemma AndFirst(a: char, s: string, b: char, u: string, c: char, w: string)
    ensures var x, y, z := Unary(a, s), Unary(b, u), Unary(c, w);
            Cond0(Test(a, s) + [Dbar] + Test(b, u) + [Damper] + Test(c, w), 0) == Some(Or(x, And(y, z)), 8) &&
            Cond0(Test(a, s) + [Damper] + Test(b, u) + [Dbar] + Test(c, w), 0) == Some(Or(And(x, y), z), 8)
  {
    hide Cond0, Cond1, Cond2;
    var x, y, z := Unary(a, s), Unary(b, u), Unary(c, w);
    var t := Test(a, s) + [Dbar] + Test(b, u) + [Damper] + Test(c, w);
    TestAt(t, 0, a, s);
    TestAt(t, 3, b, u);
    TestAt(t, 6, c, w);
    Cond1Stop(t, 0, x, 2);
    Cond1Stop(t, 6, z, 8);
    Cond1More(t, 3, y, 5);
    Cond0Stop(t, 3, And(y, z), 8);
    Cond0More(t, 0, x, 2);
    var t' := Test(a, s) + [Damper] + Test(b, u) + [Dbar] + Test(c, w);
    TestAt(t', 0, a, s);
    TestAt(t', 3, b, u);
    TestAt(t', 6, c, w);
    Cond1Stop(t', 3, y, 5);
    Cond1More(t', 0, x, 2);
    Cond1Stop(t', 6, z, 8);
    Cond0Stop(t', 6, z, 8);
    Cond0More(t', 0, And(x, y), 5);
  }

  /** ! takes the next test or parenthesis only, and parentheses group. */
  lemma Grouped(a: char, s: string, b: char, u: string, c: char, w: string)
    ensures var x, y, z := Unary(a, s), Unary(b, u), Unary(c, w);
            Cond0([Bang] + Test(a, s) + [Damper] + Test(b, u), 0) == Some(And(Not(x), y), 6) &&
            Cond0([Bang, Inpar] + Test(a, s) + [Dbar] + Test(b, u) + [Outpar, Damper] + Test(c, w), 0) ==
            Some(And(Not(Or(x, y)), z), 11)
  {
    hide Cond0, Cond1, Cond2;
    var x, y, z := Unary(a, s), Unary(b, u), Unary(c, w);
    var t := [Bang] + Test(a, s) + [Damper] + Test(b, u);
    TestAt(t, 1, a, s);
    TestAt(t, 4, b, u);
    NotAt(t, 0, x, 3);
    Cond1Stop(t, 4, y, 6);
    Cond1More(t, 0, Not(x), 3);
    Cond0Stop(t, 0, And(Not(x), y), 6);
    var t' := [Bang, Inpar] + Test(a, s) + [Dbar] + Test(b, u) + [Outpar, Damper] + Test(c, w);
    TestAt(t', 2, a, s);
    TestAt(t', 5, b, u);
    TestAt(t', 9, c, w);
    Cond1Stop(t', 2, x, 4);
    Cond1Stop(t', 5, y, 7);
    Cond0Stop(t', 5, y, 7);
    Cond0More(t', 2, x, 4);
    ParenAt(t', 1, Or(x, y), 7);
    NotAt(t', 0, Or(x, y), 8);
    Cond1Stop(t', 9, z, 11);
    Cond1More(t', 0, Not(Or(x, y)), 8);
    Cond0Stop(t', 0, And(Not(Or(x, y)), z), 11);
  }

  lemma NotAt(t: seq<Tok>, i: nat, c: Cond, j: nat)
    requires TokAt(t, i) == Bang && Cond2(t, i + 1) == Some(c, j)
    ensures Cond2(t, i) == Some(Not(c), j)
  {}

  lemma ParenAt(t: seq<Tok>, i: nat, c: Cond, j: nat)
    requires TokAt(t, i) == Inpar && Skip(t, i + 1) == i + 1 && Cond0(t, i + 1) == Some(c, j) && TokAt(t, j) == Outpar
    ensures Cond2(t, i) == Some(c, j + 1)
  {}

  /** Which test each operator stands for. */
  lemma Operators(a: string, b: string)
    ensures forall m :: m in ["=", "=="] ==> Cond0([Str(a), Str(m), Str(b)], 0) == Some(Binary(STREQ, a, b), 3)
    ensures Cond0([Str(a), Str("!="), Str(b)], 0) == Some(Binary(STRNEQ, a, b), 3)
    ensures Cond0([Str(a), Inang, Str(b)], 0) == Some(Binary(STRLT, a, b), 3)
    ensures Cond0([Str(a), Outang, Str(b)], 0) == Some(Binary(STRGTR, a, b), 3)
    ensures forall op :: op in NAMED.Keys ==> Cond0([Str(a), Str(NAMED[op]), Str(b)], 0) == Some(Binary(op, a, b), 3)
  {
    hide Cond0, Cond1;
    forall m | m in ["=", "=="] ensures Cond0([Str(a), Str(m), Str(b)], 0) == Some(Binary(STREQ, a, b), 3) {
      OneTest([Str(a), Str(m), Str(b)], Binary(STREQ, a, b), 3);
    }
    OneTest([Str(a), Str("!="), Str(b)], Binary(STRNEQ, a, b), 3);
    OneTest([Str(a), Inang, Str(b)], Binary(STRLT, a, b), 3);
    OneTest([Str(a), Outang, Str(b)], Binary(STRGTR, a, b), 3);
    forall op | op in NAMED.Keys ensures Cond0([Str(a), Str(NAMED[op]), Str(b)], 0) == Some(Binary(op, a, b), 3) {
      OneTest([Str(a), Str(NAMED[op]), Str(b)], Binary(op, a, b), 3);
    }
  }

  const NAMED: map<Op, string> := map[NT := "-nt", OT := "-ot", EF := "-ef", EQ := "-eq", NE := "-ne", LT := "-lt",
    GT := "-gt", LE := "-le", GE := "-ge"]

  lemma OneTest(t: seq<Tok>, c: Cond, j: nat)
    requires Cond2(t, 0) == Some(c, j) && TokAt(t, j) == Other
    ensures Cond0(t, 0) == Some(c, j)
  {
    Cond1Stop(t, 0, c, j);
    Cond0Stop(t, 0, c, j);
  }

  // ----- Re-association -----

  function JoinAnd(a: Cond, b: Cond): Cond
    decreases a
  {
    match a
    case And(l, r) => And(l, JoinAnd(r, b))
    case _ => And(a, b)
  }

  function JoinOr(a: Cond, b: Cond): Cond
    decreases a
  {
    match a
    case Or(l, r) => Or(l, JoinOr(r, b))
    case _ => Or(a, b)
  }

  /** The condition with && and || grouped to the right. */
  function Norm(c: Cond): (r: Cond)
    ensures r.And? == c.And? && r.Or? == c.Or? && r.Not? == c.Not?
    decreases c
  {
    match c
    case Not(x) => Not(Norm(x))
    case And(l, r) => JoinAnd(Norm(l), Norm(r))
    case Or(l, r) => JoinOr(Norm(l), Norm(r))
    case _ => c
  }

  lemma {:induction false} JoinAndAssoc(a: Cond, b: Cond, c: Cond)
    ensures JoinAnd(JoinAnd(a, b), c) == JoinAnd(a, JoinAnd(b, c))
    decreases a
  {
    if a.And? { JoinAndAssoc(a.right, b, c); }
  }

  lemma {:induction false} JoinOrAssoc(a: Cond, b: Cond, c: Cond)
    ensures JoinOr(JoinOr(a, b), c) == JoinOr(a, JoinOr(b, c))
    decreases a
  {
    if a.Or? { JoinOrAssoc(a.right, b, c); }
  }

  lemma {:induction false} JoinAndEval(a: Cond, b: Cond, test: Oracle, done: seq<Cond>)
    ensures Eval(JoinAnd(a, b), test, done) == Eval(And(a, b), test, done)
    decreases a
  {
    if a.And? {
      var (v, log) := Eval(a.left, test, done);
      JoinAndEval(a.right, b, test, log);
    }
  }

  lemma {:induction false} JoinOrEval(a: Cond, b: Cond, test: Oracle, done: seq<Cond>)
    ensures Eval(JoinOr(a, b), test, done) == Eval(Or(a, b), test, done)
    decreases a
  {
    if a.Or? {
      var (v, log) := Eval(a.left, test, done);
      JoinOrEval(a.right, b, test, log);
    }
  }

  /** Grouped to the right, a condition makes the same tests in the same order, with
      the same result. */
  lemma {:induction false} NormEval(c: Cond, test: Oracle, done: seq<Cond>)
    ensures Eval(Norm(c), test, done) == Eval(c, test, done)
    decreases c
  {
    match c
    case Not(x) => NormEval(x, test, done);
    case And(l, r) =>
      NormEval(l, test, done);
      NormEval(r, test, Eval(l, test, done).1);
      JoinAndEval(Norm(l), Norm(r), test, done);
    case Or(l, r) =>
      NormEval(l, test, done);
      NormEval(r, test, Eval(l, test, done).1);
      JoinOrEval(Norm(l), Norm(r), test, done);
    case _ =>
  }

  lemma {:induction false} JoinAndPrint(a: Cond, b: Cond)
    ensures Print(JoinAnd(a, b)) == Print(And(a, b))
    decreases a
  {
    if a.And? {
      JoinAndPrint(a.right, b);
      var l, r, s := Operand(a.left, a.left.Or?), Operand(a.right, a.right.Or?), Operand(b, b.Or?);
      assert Print(a) == l + [Damper] + r && Print(And(a.right, b)) == r + [Damper] + s;
      assert Print(JoinAnd(a, b)) == l + [Damper] + Print(JoinAnd(a.right, b));
      assert l + [Damper] + (r + [Damper] + s) == (l + [Damper] + r) + [Damper] + s;
    }
  }

  lemma {:induction false} JoinOrPrint(a: Cond, b: Cond)
    ensures Print(JoinOr(a, b)) == Print(Or(a, b))
    decreases a
  {
    if a.Or? {
      JoinOrPrint(a.right, b);
      var l, r, s := Operand(a.left, a.left.And?), Operand(a.right, a.right.And?), Operand(b, b.And?);
      assert Print(a) == l + [Dbar] + r && Print(Or(a.right, b)) == r + [Dbar] + s;
      assert Print(JoinOr(a, b)) == l + [Dbar] + Print(JoinOr(a.right, b));
      assert l + [Dbar] + (r + [Dbar] + s) == (l + [Dbar] + r) + [Dbar] + s;
    }
  }

  /** It prints as the same text. */
  lemma {:induction false} NormPrint(c: Cond)
    ensures Print(Norm(c)) == Print(c)
    decreases c
  {
    match c
    case Not(x) => NormPrint(x);
    case And(l, r) =>
      NormPrint(l);
      NormPrint(r);
      JoinAndPrint(Norm(l), Norm(r));
    case Or(l, r) =>
      NormPrint(l);
      NormPrint(r);
      JoinOrPrint(Norm(l), Norm(r));
    case _ =>
  }

  // ----- Reading what was printed -----

  /** u stands in t from i on. */
  ghost predicate Placed(t: seq<Tok>, i: nat, u: seq<Tok>) {
    i + |u| <= |t| && forall k :: 0 <= k < |u| ==> t[i + k] == u[k]
  }

  lemma PlacedPlus(t: seq<Tok>, i: nat, a: seq<Tok>, x: Tok, b: seq<Tok>)
    requires Placed(t, i, a + [x] + b)
    ensures Placed(t, i, a) && i + |a| < |t| && t[i + |a|] == x && Placed(t, i + |a| + 1, b)
  {
    var u := a + [x] + b;
    forall k | 0 <= k < |a| ensures t[i + k] == a[k] { assert u[k] == a[k]; }
    assert u[|a|] == x;
    forall k | 0 <= k < |b| ensures t[i + |a| + 1 + k] == b[k] { assert u[|a| + 1 + k] == b[k]; }
  }

  lemma PlacedAt(t: seq<Tok>, i: nat, u: seq<Tok>, k: nat)
    requires Placed(t, i, u) && k < |u|
    ensures i + k < |t| && t[i + k] == u[k]
  {}

  lemma Cond1Stop(t: seq<Tok>, i: nat, c: Cond, j: nat)
    requires Cond2(t, i) == Some(c, j) && (Stops(TokAt(t, j)) || TokAt(t, j) == Dbar)
    ensures Cond1(t, i) == Some(c, j)
  {}

  lemma Cond1More(t: seq<Tok>, i: nat, c: Cond, j: nat)
    requires Cond2(t, i) == Some(c, j) && TokAt(t, j) == Damper && Skip(t, j + 1) == j + 1 && Cond1(t, j + 1).Some?
    ensures Cond1(t, i) == Some(And(c, Cond1(t, j + 1).c), Cond1(t, j + 1).j)
  {}

  lemma Cond0Stop(t: seq<Tok>, i: nat, c: Cond, j: nat)
    requires Cond1(t, i) == Some(c, j) && Stops(TokAt(t, j))
    ensures Cond0(t, i) == Some(c, j)
  {}

  lemma Cond0More(t: seq<Tok>, i: nat, c: Cond, j: nat)
    requires Cond1(t, i) == Some(c, j) && TokAt(t, j) == Dbar && Skip(t, j + 1) == j + 1 && Cond0(t, j + 1).Some?
    ensures Cond0(t, i) == Some(Or(c, Cond0(t, j + 1).c), Cond0(t, j + 1).j)
  {}

  /** What comes after a condition does not belong to it. */
  predicate Stops(x: Tok) {
    x == Outpar || x == Other
  }

  /** A condition that stands alone as an operand of !, && or ||. */
  lemma {:induction false} ReadUnit(t: seq<Tok>, i: nat, c: Cond, par: bool)
    requires Placed(t, i, Operand(c, par)) && (!par ==> !c.And? && !c.Or?)
    requires !TokAt(t, i + |Operand(c, par)|).Str?
    ensures Cond2(t, i) == Some(Norm(c), i + |Operand(c, par)|)
    decreases c, if par then 4 else 1
  {
    hide Placed, Norm, Cond0, Cond1;
    if par {
      assert Operand(c, true) == [] + [Inpar] + (Print(c) + [Outpar]);
      PlacedPlus(t, i, [], Inpar, Print(c) + [Outpar]);
      assert Print(c) + [Outpar] == Print(c) + [Outpar] + [];
      PlacedPlus(t, i + 1, Print(c), Outpar, []);
      StartsUnit(t, i + 1, c, false);
      ReadOr(t, i + 1, c);
    } else {
      match c
      case Not(x) =>
        var p := x.Not? || x.And? || x.Or?;
        assert Print(c) == [] + [Bang] + Operand(x, p);
        PlacedPlus(t, i, [], Bang, Operand(x, p));
        ReadUnit(t, i + 1, x, p);
        NormNot(x);
      case _ =>
        NormTest(c);
        ReadTest(t, i, c);
    }
  }

  lemma ReadTest(t: seq<Tok>, i: nat, c: Cond)
    requires Placed(t, i, Print(c)) && (c.Binary? || c.Unary?) && !TokAt(t, i + |Print(c)|).Str?
    ensures Cond2(t, i) == Some(c, i + |Print(c)|)
  {
    hide Placed;
    var u := Print(c);
    PlacedAt(t, i, u, 0);
    PlacedAt(t, i, u, 1);
    if c.Binary? { PlacedAt(t, i, u, 2); }
  }

  /** A printed condition does not start with a separator. */
  lemma {:induction false} StartsUnit(t: seq<Tok>, i: nat, c: Cond, par: bool)
    requires Placed(t, i, Operand(c, par))
    ensures Skip(t, i) == i && |Operand(c, par)| > 0
    decreases c
  {
    hide Placed;
    PlacedAt(t, i, Operand(c, par), 0) by { PrintSome(c); }
    if !par {
      match c
      case And(l, r) =>
        PlacedPlus(t, i, Operand(l, l.Or?), Damper, Operand(r, r.Or?));
        StartsUnit(t, i, l, l.Or?);
      case Or(l, r) =>
        PlacedPlus(t, i, Operand(l, l.And?), Dbar, Operand(r, r.And?));
        StartsUnit(t, i, l, l.And?);
      case Not(x) => assert Print(c)[0] == Bang;
      case Binary(_, a, _) => assert Print(c)[0] == Str(a);
      case Unary(u, _) => assert Print(c)[0] == Str(['-', u]);
    }
  }

  lemma PrintSome(c: Cond)
    ensures |Print(c)| > 0
  {}

  /** The && level: after c the list of operands stops, or goes on with what is read
      after the next &&. */
  lemma {:induction false} ReadAnd(t: seq<Tok>, i: nat, c: Cond, par: bool)
    requires Placed(t, i, Operand(c, par)) && (!par ==> !c.Or?)
    ensures var j := i + |Operand(c, par)|;
            var x := TokAt(t, j);
            (Stops(x) || x == Dbar ==> Cond1(t, i) == Some(Norm(c), j)) &&
            (x == Damper && Skip(t, j + 1) == j + 1 && Cond1(t, j + 1).Some? ==>
              Cond1(t, i) ==
              Some(if par then And(Norm(c), Cond1(t, j + 1).c)
                   else JoinAnd(Norm(c), Cond1(t, j + 1).c), Cond1(t, j + 1).j))
    decreases c, if par then 5 else 2
  {
    hide Cond0, Cond1, Cond2, Skip, Norm, Placed;
    var j := i + |Operand(c, par)|;
    var x := TokAt(t, j);
    if !(Stops(x) || x == Dbar || x == Damper) { return; }
    if par || !c.And? {
      ReadUnit(t, i, c, par);
      if x == Damper {
        if Skip(t, j + 1) == j + 1 && Cond1(t, j + 1).Some? { Cond1More(t, i, Norm(c), j); }
      } else {
        Cond1Stop(t, i, Norm(c), j);
      }
    } else {
      var l, r := c.left, c.right;
      PlacedPlus(t, i, Operand(l, l.Or?), Damper, Operand(r, r.Or?));
      var m := i + |Operand(l, l.Or?)|;
      StartsUnit(t, m + 1, r, r.Or?);
      ReadAnd(t, m + 1, r, r.Or?);
      ReadAnd(t, i, l, l.Or?);
      NormAnd(l, r);
      if x == Damper && Skip(t, j + 1) == j + 1 && Cond1(t, j + 1).Some? {
        JoinAndAssoc(Norm(l), Norm(r), Cond1(t, j + 1).c);
      }
    }
  }

  lemma NormNot(x: Cond)
    ensures Norm(Not(x)) == Not(Norm(x))
  {}

  lemma NormTest(c: Cond)
    requires c.Binary? || c.Unary?
    ensures Norm(c) == c
  {}

  lemma NormAnd(l: Cond, r: Cond)
    ensures Norm(And(l, r)) == JoinAnd(Norm(l), Norm(r))
  {}

  lemma NormOr(l: Cond, r: Cond)
    ensures Norm(Or(l, r)) == JoinOr(Norm(l), Norm(r))
  {}

  /** The || level. */
  lemma {:induction false} ReadOr(t: seq<Tok>, i: nat, c: Cond)
    requires Placed(t, i, Print(c))
    ensures var j := i + |Print(c)|;
            var x := TokAt(t, j);
            (Stops(x) ==> Cond0(t, i) == Some(Norm(c), j)) &&
            (x == Dbar && Skip(t, j + 1) == j + 1 && Cond0(t, j + 1).Some? ==>
              Cond0(t, i) == Some(JoinOr(Norm(c), Cond0(t, j + 1).c), Cond0(t, j + 1).j))
    decreases c, 3
  {
    hide Cond0, Cond1, Cond2, Skip, Norm, Placed;
    var j := i + |Print(c)|;
    var x := TokAt(t, j);
    if !(Stops(x) || x == Dbar) { return; }
    if c.Or? {
      var l, r := c.left, c.right;
      PlacedPlus(t, i, Operand(l, l.And?), Dbar, Operand(r, r.And?));
      var m := i + |Operand(l, l.And?)|;
      StartsUnit(t, m + 1, r, r.And?);
      ReadOrOperand(t, m + 1, r);
      ReadOrOperand(t, i, l);
      NormOr(l, r);
      if x == Dbar && Skip(t, j + 1) == j + 1 && Cond0(t, j + 1).Some? {
        JoinOrAssoc(Norm(l), Norm(r), Cond0(t, j + 1).c);
      }
    } else {
      ReadAnd(t, i, c, false);
      OneOr(t, i, c, j);
    }
  }

  /** A condition that is not an || by itself is an operand of ||. */
  lemma OneOr(t: seq<Tok>, i: nat, c: Cond, j: nat)
    requires !c.Or? && ((Stops(TokAt(t, j)) || TokAt(t, j) == Dbar) ==> Cond1(t, i) == Some(Norm(c), j))
    ensures var x := TokAt(t, j);
            (Stops(x) ==> Cond0(t, i) == Some(Norm(c), j)) &&
            (x == Dbar && Skip(t, j + 1) == j + 1 && Cond0(t, j + 1).Some? ==>
              Cond0(t, i) == Some(JoinOr(Norm(c), Cond0(t, j + 1).c), Cond0(t, j + 1).j))
  {
    hide Cond0, Cond1, Skip, Norm;
    var x := TokAt(t, j);
    if Stops(x) { Cond0Stop(t, i, Norm(c), j); }
    if x == Dbar && Skip(t, j + 1) == j + 1 && Cond0(t, j + 1).Some? { Cond0More(t, i, Norm(c), j); }
  }

  /** An operand of ||, in parentheses if it is an &&. */
  lemma {:induction false} ReadOrOperand(t: seq<Tok>, i: nat, c: Cond)
    requires Placed(t, i, Operand(c, c.And?))
    ensures var j := i + |Operand(c, c.And?)|;
            var x := TokAt(t, j);
            (Stops(x) ==> Cond0(t, i) == Some(Norm(c), j)) &&
            (x == Dbar && Skip(t, j + 1) == j + 1 && Cond0(t, j + 1).Some? ==>
              Cond0(t, i) == Some(JoinOr(Norm(c), Cond0(t, j + 1).c), Cond0(t, j + 1).j))
    decreases c, 6
  {
    hide Cond0, Cond1, Cond2, Skip, Norm, Placed;
    if c.And? {
      ReadAnd(t, i, c, true);
      OneOr(t, i, c, i + |Operand(c, true)|);
    } else {
      ReadOr(t, i, c);
    }
  }

  /** Reading the tokens of a printed condition gives the condition grouped to the
      right: it makes the same tests in the same order with the same result, and
      prints as the same text. */
  lemma RoundTrip(c: Cond, test: Oracle, done: seq<Cond>)
    ensures var p := Cond0(Print(c), 0);
            p.Some? && p.j == |Print(c)| && Eval(p.c, test, done) == Eval(c, test, done) && Print(p.c) == Print(c)
  {
    ReadOr(Print(c), 0, c);
    NormEval(c, test, done);
    NormPrint(c);
  }
}
