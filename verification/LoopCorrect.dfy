/** The flags do what the structured outcomes say: the same commands are run, with
    the same status, and the flags encode the outcome. */
module LoopCorrect {
  import opened LoopPrograms
  import opened LoopMachine

  /** The flags for an outcome, in d loops. */
  ghost predicate Shows(o: Outcome, s: State, d: nat, m: Shell) {
    m.loops == d && m.trace == s.trace && m.lastval == s.lastval && m.breaks <= d &&
    match o
    case Normal => m.breaks == 0 && !m.contflag && !m.retflag
    case Break(k) => 1 <= k == m.breaks && !m.contflag && !m.retflag
    case Continue(k) => 1 <= k == m.breaks && m.contflag && !m.retflag
    case Return => m.breaks == d && !m.contflag && m.retflag
  }

  ghost predicate Same(r: Result, m: Ran, d: nat) {
    if r.None? then m.Out? else m.Ran? && Shows(r.o, r.s, d, m.s)
  }

  /** No loop and no function is being left. */
  function Start(s: State, d: nat): Shell {
    Shell(d, 0, false, false, s.lastval, s.trace)
  }

  // ----- Programs for which this holds -----

  /** How commands may leave the loops around them: not at all; by return; in any way, but
      with status 0; by return with another status. */
  datatype Leave = Never | ByReturn | WithZero | WithNonZero

  /** A ! changes the status of what leaves. */
  function Denying(how: Leave): Leave {
    if how == ByReturn then ByReturn else Never
  }

  /** The commands stay within k loops of their own, but for what `how` allows; only
      functions in `safe` are called. */
  predicate InList(l: List, k: nat, how: Leave, safe: set<nat>) {
    match l
    case Nil => true
    case Cons(sub, rest) => InSub(sub, k, how, safe) && InList(rest, k, how, safe)
  }

  predicate InSub(sub: Sublist, k: nat, how: Leave, safe: set<nat>) {
    InCmd(sub.p.cmd, k, if sub.p.neg then Denying(how) else how, safe) && (sub.End? || InSub(sub.next, k, how, safe))
  }

  predicate InCmd(c: Cmd, k: nat, how: Leave, safe: set<nat>) {
    match c
    case Simple(_) => true
    case BreakCmd(n) => n <= k || how == WithZero
    case ContinueCmd(n) => n <= k || how == WithZero
    case ReturnCmd(v) => how == ByReturn || (how == WithZero && v == 0) || (how == WithNonZero && v != 0)
    case For(_, body) => InList(body, k + 1, how, safe)
    case While(_, cont, body) => InList(cont, k + 1, how, safe) && InList(body, k + 1, how, safe)
    case Repeat(_, body) => InList(body, k + 1, how, safe)
    case Call(f) => f in safe
  }

  /** break and continue have arguments of 1 or more; what leaves from the condition of a
      loop has a status that does not end the loop; and after a pipeline that may leave
      there is no ! in its sublist. */
  predicate TameList(l: List, safe: set<nat>) {
    match l
    case Nil => true
    case Cons(sub, rest) => TameSub(sub, true, safe) && TameList(rest, safe)
  }

  /** calm: no pipeline before this one may leave. */
  predicate TameSub(sub: Sublist, calm: bool, safe: set<nat>) {
    (calm || !sub.p.neg) && TameCmd(sub.p.cmd, safe) &&
    (sub.End? || TameSub(sub.next, calm && InCmd(sub.p.cmd, 0, Never, safe), safe))
  }

  predicate TameCmd(c: Cmd, safe: set<nat>) {
    match c
    case Simple(_) => true
    case BreakCmd(n) => n >= 1
    case ContinueCmd(n) => n >= 1
    case ReturnCmd(_) => true
    case For(_, body) => TameList(body, safe)
    case While(until, cont, body) =>
      InList(cont, 0, if until then WithNonZero else WithZero, safe) && TameList(cont, safe) && TameList(body, safe)
    case Repeat(_, body) => TameList(body, safe)
    case Call(_) => true
  }

  predicate TameEnv(e: Env, safe: set<nat>) {
    (forall f :: 0 <= f < |e.funs| ==> TameList(e.funs[f], safe)) &&
    (forall f :: 0 <= f < |e.funs| && f in safe ==> InList(e.funs[f], 0, ByReturn, safe))
  }

  // ----- Commands that stay within their own loops -----

  ghost predicate Within(r: Result, k: nat, how: Leave) {
    r.Some? ==>
      match r.o
      case Normal => true
      case Break(j) => j <= k || (how == WithZero && r.s.lastval == 0)
      case Continue(j) => j <= k || (how == WithZero && r.s.lastval == 0)
      case Return =>
        how == ByReturn || (how == WithZero && r.s.lastval == 0) || (how == WithNonZero && r.s.lastval != 0)
  }

  lemma {:induction false} WithinList(e: Env, l: List, k: nat, how: Leave, safe: set<nat>, d: nat, s: State, n: nat)
    requires TameEnv(e, safe) && InList(l, k, how, safe) && k <= d
    ensures Within(SemList(e, l, d, s, n), k, how)
    decreases n, l, 1, 0
  {
    match l
    case Nil =>
    case Cons(sub, rest) =>
      WithinSub(e, sub, k, how, safe, d, s, n);
      var r := SemSub(e, sub, d, s, n);
      if r.Some? { WithinList(e, rest, k, how, safe, d, r.s, n); }
  }

  lemma {:induction false} WithinSub(e: Env, sub: Sublist, k: nat, how: Leave, safe: set<nat>, d: nat, s: State, n: nat)
    requires TameEnv(e, safe) && InSub(sub, k, how, safe) && k <= d
    ensures Within(SemSub(e, sub, d, s, n), k, how)
    decreases n, sub, 2, 0
  {
    WithinPipe(e, sub.p, k, how, safe, d, s, n);
    var r := SemPipe(e, sub.p, d, s, n);
    if r.Some? && !sub.End? { WithinNext(e, sub.AndNext?, sub.next, k, how, safe, d, r.s, n); }
  }

  lemma {:induction false} WithinNext(e: Env, and: bool, sub: Sublist, k: nat, how: Leave, safe: set<nat>, d: nat,
                                      s: State, n: nat)
    requires TameEnv(e, safe) && InSub(sub, k, how, safe) && k <= d
    ensures Within(SemNext(e, and, sub, d, s, n), k, how)
    decreases n, sub, 1, 0
  {
    WithinPipe(e, sub.p, k, how, safe, d, s, n);
    var r := if and == (s.lastval == 0) then SemPipe(e, sub.p, d, s, n) else Some(Normal, s);
    if r.Some? && !sub.End? { WithinNext(e, sub.AndNext?, sub.next, k, how, safe, d, r.s, n); }
  }

  lemma {:induction false} WithinPipe(e: Env, p: Pipe, k: nat, how: Leave, safe: set<nat>, d: nat, s: State, n: nat)
    requires TameEnv(e, safe) && InCmd(p.cmd, k, if p.neg then Denying(how) else how, safe) && k <= d
    ensures Within(SemPipe(e, p, d, s, n), k, how)
    decreases n, p, 1, 0
  {
    WithinCmd(e, p.cmd, k, if p.neg then Denying(how) else how, safe, d, s, n);
  }

  lemma {:induction false} WithinCmd(e: Env, c: Cmd, k: nat, how: Leave, safe: set<nat>, d: nat, s: State, n: nat)
    requires TameEnv(e, safe) && InCmd(c, k, how, safe) && k <= d
    ensures Within(SemCmd(e, c, d, s, n), k, how)
    decreases n, c, 1, 0
  {
    match c
    case For(words, body) => WithinFor(e, words, body, k, how, safe, d, s.(lastval := 0), n);
    case While(until, cont, body) => WithinWhile(e, until, cont, body, k, how, safe, d, 0, s, n);
    case Repeat(count, body) => WithinRepeat(e, count, body, k, how, safe, d, s.(lastval := 0), n);
    case Call(f) => if f < |e.funs| && n > 0 { WithinList(e, e.funs[f], 0, ByReturn, safe, d, s, n - 1); }
    case _ =>
  }

  lemma {:induction false} WithinFor(e: Env, words: seq<int>, body: List, k: nat, how: Leave, safe: set<nat>, d: nat,
                                     s: State, n: nat)
    requires TameEnv(e, safe) && InList(body, k + 1, how, safe) && k <= d
    ensures Within(SemFor(e, words, body, d, s, n), k, how)
    decreases n, body, 2, |words|
  {
    if words != [] {
      var s1 := s.(trace := s.trace + [Set(words[0])]);
      WithinList(e, body, k + 1, how, safe, d + 1, s1, n);
      var r := SemList(e, body, d + 1, s1, n);
      if r.Some? && GoesOn(r.o) { WithinFor(e, words[1..], body, k, how, safe, d, r.s, n); }
    }
  }

  lemma {:induction false} WithinRepeat(e: Env, count: nat, body: List, k: nat, how: Leave, safe: set<nat>, d: nat,
                                        s: State, n: nat)
    requires TameEnv(e, safe) && InList(body, k + 1, how, safe) && k <= d
    ensures Within(SemRepeat(e, count, body, d, s, n), k, how)
    decreases n, body, 2, count
  {
    if count > 0 {
      WithinList(e, body, k + 1, how, safe, d + 1, s, n);
      var r := SemList(e, body, d + 1, s, n);
      if r.Some? && GoesOn(r.o) { WithinRepeat(e, count - 1, body, k, how, safe, d, r.s, n); }
    }
  }

  lemma {:induction false} WithinWhile(e: Env, until: bool, cont: List, body: List, k: nat, how: Leave, safe: set<nat>,
                                       d: nat, oldval: int, s: State, n: nat)
    requires TameEnv(e, safe) && InList(cont, k + 1, how, safe) && InList(body, k + 1, how, safe) && k <= d
    ensures Within(SemWhile(e, until, cont, body, d, oldval, s, n), k, how)
    decreases n, body, 2, 0
  {
    if n > 0 {
      WithinList(e, cont, k + 1, how, safe, d + 1, s, n - 1);
      var c := SemList(e, cont, d + 1, s, n - 1);
      if c.Some? {
        if c.o != Normal {
          if GoesOn(c.o) { WithinWhile(e, until, cont, body, k, how, safe, d, c.s.lastval, c.s, n - 1); }
        } else if (c.s.lastval == 0) != until {
          WithinList(e, body, k + 1, how, safe, d + 1, c.s, n - 1);
          var r := SemList(e, body, d + 1, c.s, n - 1);
          if r.Some? && GoesOn(r.o) { WithinWhile(e, until, cont, body, k, how, safe, d, r.s.lastval, r.s, n - 1); }
        }
      }
    }
  }

  // ----- The flags agree with the outcomes -----

  predicate Quiet(sub: Sublist) {
    !sub.p.neg && (sub.End? || Quiet(sub.next))
  }

  lemma {:induction false} TameQuiet(sub: Sublist, safe: set<nat>)
    requires TameSub(sub, false, safe)
    ensures Quiet(sub)
    decreases sub
  {
    if !sub.End? { TameQuiet(sub.next, safe); }
  }

  lemma {:induction false} SkipSmaller(sub: Sublist, or: bool)
    requires Finds(sub, or)
    ensures SkipTo(sub, or) < sub && (Quiet(sub) ==> Quiet(SkipTo(sub, or)))
    decreases sub
  {
    match sub
    case AndNext(_, next) => if or { SkipSmaller(next, or); }
    case OrNext(_, next) => if !or { SkipSmaller(next, or); }
  }

  /** The status that the text of a sublist makes of v while nothing in it is run. */
  function Idle(sub: Sublist, v: int): int
    decreases sub
  {
    var w := if sub.p.neg then Denied(v) else v;
    if sub.End? then w
    else if (w == 0) == sub.AndNext? then Idle(sub.next, w)
    else if Finds(sub.next, sub.AndNext?) then
      SkipSmaller(sub.next, sub.AndNext?); Idle(SkipTo(sub.next, sub.AndNext?), w)
    else w
  }

  /** The same from the && or || before the sublist on. */
  function IdleWalk(and: bool, sub: Sublist, v: int): int {
    if and == (v == 0) then Idle(sub, v) else if Finds(sub, and) then Idle(SkipTo(sub, and), v) else v
  }

  lemma {:induction false} QuietIdle(sub: Sublist, v: int)
    requires Quiet(sub)
    ensures Idle(sub, v) == v
    decreases sub
  {
    if !sub.End? {
      if (v == 0) == sub.AndNext? {
        QuietIdle(sub.next, v);
      } else if Finds(sub.next, sub.AndNext?) {
        SkipSmaller(sub.next, sub.AndNext?);
        QuietIdle(SkipTo(sub.next, sub.AndNext?), v);
      }
    }
  }

  /** While something is being left, the rest of a sublist runs nothing, but every ! that
      the walk comes to changes the status. */
  lemma {:induction false} LeavingSub(e: Env, sub: Sublist, m: Shell, n: nat)
    requires m.breaks > 0 || m.retflag
    ensures ExecSub(e, sub, m, n) == Ran(m.(lastval := Idle(sub, m.lastval)))
    decreases sub
  {
    if !sub.End? {
      var m1 := m.(lastval := if sub.p.neg then Denied(m.lastval) else m.lastval);
      if (m1.lastval == 0) == sub.AndNext? {
        LeavingSub(e, sub.next, m1, n);
      } else if Finds(sub.next, sub.AndNext?) {
        SkipSmaller(sub.next, sub.AndNext?);
        LeavingSub(e, SkipTo(sub.next, sub.AndNext?), m1, n);
      }
    }
  }

  /** The walk after a pipeline that is followed by && or ||. */
  function Walk(e: Env, and: bool, sub: Sublist, m: Shell, n: nat): Ran {
    if and == (m.lastval == 0) then ExecSub(e, sub, m, n)
    else if Finds(sub, and) then ExecSub(e, SkipTo(sub, and), m, n)
    else Ran(m)
  }

  lemma WalkLeaving(e: Env, and: bool, sub: Sublist, m: Shell, n: nat)
    requires m.breaks > 0 || m.retflag
    ensures Walk(e, and, sub, m, n) == Ran(m.(lastval := IdleWalk(and, sub, m.lastval)))
    ensures Quiet(sub) ==> Walk(e, and, sub, m, n) == Ran(m)
  {
    if and == (m.lastval == 0) {
      LeavingSub(e, sub, m, n);
      if Quiet(sub) { QuietIdle(sub, m.lastval); }
    } else if Finds(sub, and) {
      SkipSmaller(sub, and);
      LeavingSub(e, SkipTo(sub, and), m, n);
      if Quiet(sub) { QuietIdle(SkipTo(sub, and), m.lastval); }
    }
  }

  /** When a pipeline leaves, the flags end as the outcome says exactly if the text after
      it makes no other status of its status: whatever the program, and wherever a ! is. */
  lemma DenialExact(e: Env, and: bool, sub: Sublist, d: nat, r: Result, m: Ran, n: nat)
    requires r.Some? && m.Ran? && Shows(r.o, r.s, d, m.s) && r.o != Normal
    ensures Same(r, Walk(e, and, sub, m.s, n), d) <==> IdleWalk(and, sub, r.s.lastval) == r.s.lastval
  {
    Leaving(r.o, r.s, d, m.s);
    WalkLeaving(e, and, sub, m.s, n);
  }

  lemma Leaving(o: Outcome, s: State, d: nat, m: Shell)
    requires Shows(o, s, d, m)
    ensures o == Normal ==> m == Start(s, d)
    ensures o != Normal ==> m.breaks > 0 || m.retflag
  {}

  lemma {:induction false} ListSame(e: Env, l: List, safe: set<nat>, d: nat, s: State, n: nat)
    requires TameEnv(e, safe) && TameList(l, safe)
    ensures Same(SemList(e, l, d, s, n), ExecList(e, l, Start(s, d), n), d)
    decreases n, l, 1, 0
  {
    match l
    case Nil =>
    case Cons(sub, rest) =>
      SubSame(e, sub, safe, d, s, n);
      var r, m := SemSub(e, sub, d, s, n), ExecSub(e, sub, Start(s, d), n);
      if r.Some? {
        Leaving(r.o, r.s, d, m.s);
        if r.o == Normal { ListSame(e, rest, safe, d, r.s, n); }
      }
  }

  lemma {:induction false} SubSame(e: Env, sub: Sublist, safe: set<nat>, d: nat, s: State, n: nat)
    requires TameEnv(e, safe) && TameSub(sub, true, safe)
    ensures Same(SemSub(e, sub, d, s, n), ExecSub(e, sub, Start(s, d), n), d)
    decreases n, sub, 2, 0
  {
    PipeSame(e, sub.p, safe, d, s, n);
    var r, m := SemPipe(e, sub.p, d, s, n), ExecPipe(e, sub.p, Start(s, d), n);
    if r.Some? && !sub.End? {
      var calm := InCmd(sub.p.cmd, 0, Never, safe);
      if calm { WithinCmd(e, sub.p.cmd, 0, Never, safe, d, s, n); }
      assert ExecSub(e, sub, Start(s, d), n) == Walk(e, sub.AndNext?, sub.next, m.s, n);
      AfterPipe(e, sub.AndNext?, sub.next, calm, safe, d, r, m, n);
    }
  }

  /** After a pipeline, the walk goes on with what is to be run, or nothing is. */
  lemma {:induction false} AfterPipe(e: Env, and: bool, sub: Sublist, calm: bool, safe: set<nat>,
                                     d: nat, r: Result, m: Ran, n: nat)
    requires TameEnv(e, safe) && TameSub(sub, calm, safe) && r.Some? && m.Ran? && Shows(r.o, r.s, d, m.s)
    requires calm ==> r.o == Normal
    ensures Same(if r.o != Normal then r else SemNext(e, and, sub, d, r.s, n), Walk(e, and, sub, m.s, n), d)
    decreases n, sub, 2, 0
  {
    Leaving(r.o, r.s, d, m.s);
    if r.o != Normal {
      TameQuiet(sub, safe);
      WalkLeaving(e, and, sub, m.s, n);
    } else {
      NextSame(e, and, sub, calm, safe, d, r.s, n);
    }
  }

  lemma {:induction false} NextSame(e: Env, and: bool, sub: Sublist, calm: bool, safe: set<nat>, d: nat, s: State,
                                    n: nat)
    requires TameEnv(e, safe) && TameSub(sub, calm, safe)
    ensures Same(SemNext(e, and, sub, d, s, n), Walk(e, and, sub, Start(s, d), n), d)
    decreases n, sub, 1, 0
  {
    var calm' := calm && InCmd(sub.p.cmd, 0, Never, safe);
    if and == (s.lastval == 0) {
      PipeSame(e, sub.p, safe, d, s, n);
      var r, m := SemPipe(e, sub.p, d, s, n), ExecPipe(e, sub.p, Start(s, d), n);
      if calm' { WithinCmd(e, sub.p.cmd, 0, Never, safe, d, s, n); }
      if r.Some? && !sub.End? {
        assert ExecSub(e, sub, Start(s, d), n) == Walk(e, sub.AndNext?, sub.next, m.s, n);
        AfterPipe(e, sub.AndNext?, sub.next, calm', safe, d, r, m, n);
      }
    } else if !sub.End? {
      assert Walk(e, and, sub, Start(s, d), n) == Walk(e, sub.AndNext?, sub.next, Start(s, d), n);
      NextSame(e, sub.AndNext?, sub.next, calm', safe, d, s, n);
    }
  }

  lemma {:induction false} PipeSame(e: Env, p: Pipe, safe: set<nat>, d: nat, s: State, n: nat)
    requires TameEnv(e, safe) && TameCmd(p.cmd, safe)
    ensures Same(SemPipe(e, p, d, s, n), ExecPipe(e, p, Start(s, d), n), d)
    decreases n, p, 1, 0
  {
    CmdSame(e, p.cmd, safe, d, s, n);
  }

  lemma {:induction false} CmdSame(e: Env, c: Cmd, safe: set<nat>, d: nat, s: State, n: nat)
    requires TameEnv(e, safe) && TameCmd(c, safe)
    ensures Same(SemCmd(e, c, d, s, n), ExecCmd(e, c, Start(s, d), n), d)
    decreases n, c, 1, 0
  {
    match c
    case For(words, body) => ForSame(e, words, body, safe, d, s.(lastval := 0), n);
    case While(until, cont, body) => WhileSame(e, until, cont, body, safe, d, 0, s, n);
    case Repeat(count, body) => RepeatSame(e, count, body, safe, d, s.(lastval := 0), n);
    case Call(f) => if f < |e.funs| && n > 0 { ListSame(e, e.funs[f], safe, d, s, n - 1); }
    case _ =>
  }

  /** The end of a turn: the flags say to go on exactly when the outcome does. */
  lemma TurnSame(o: Outcome, s: State, d: nat, m: Shell)
    requires Shows(o, s, d + 1, m)
    ensures var (m1, left) := EndTurn(m);
            left == !GoesOn(o) && (left ==> Shows(Leaves(o), s, d, Down(Ran(m1)).s)) &&
            (!left ==> m1 == Start(s, d + 1))
  {}

  lemma {:induction false} ForSame(e: Env, words: seq<int>, body: List, safe: set<nat>, d: nat, s: State, n: nat)
    requires TameEnv(e, safe) && TameList(body, safe)
    ensures Same(SemFor(e, words, body, d, s, n), Down(ExecFor(e, words, body, Start(s, d + 1), n)), d)
    decreases n, body, 2, |words|
  {
    if words != [] {
      var s1 := s.(trace := s.trace + [Set(words[0])]);
      ListSame(e, body, safe, d + 1, s1, n);
      var r, m := SemList(e, body, d + 1, s1, n), ExecList(e, body, Start(s1, d + 1), n);
      if r.Some? {
        TurnSame(r.o, r.s, d, m.s);
        if GoesOn(r.o) { ForSame(e, words[1..], body, safe, d, r.s, n); }
      }
    }
  }

  lemma {:induction false} RepeatSame(e: Env, count: nat, body: List, safe: set<nat>, d: nat, s: State, n: nat)
    requires TameEnv(e, safe) && TameList(body, safe)
    ensures Same(SemRepeat(e, count, body, d, s, n), Down(ExecRepeat(e, count, body, Start(s, d + 1), n)), d)
    decreases n, body, 2, count
  {
    if count > 0 {
      ListSame(e, body, safe, d + 1, s, n);
      var r, m := SemList(e, body, d + 1, s, n), ExecList(e, body, Start(s, d + 1), n);
      if r.Some? {
        TurnSame(r.o, r.s, d, m.s);
        if GoesOn(r.o) { RepeatSame(e, count - 1, body, safe, d, r.s, n); }
      }
    }
  }

  lemma SkippedBody(e: Env, body: List, m: Shell, n: nat)
    requires m.breaks > 0 || m.retflag
    ensures ExecList(e, body, m, n) == Ran(m)
  {}

  /** A condition that leaves. If it leaves the loop or the function, the flags end as the
      outcome says exactly if its status does not end the loop or is the status that the
      loop would have then. If it goes on with the loop itself, its status must not end the
      loop, and the rest is the next turn. */
  lemma ConditionExact(e: Env, until: bool, cont: List, body: List, d: nat, oldval: int, s: State, n: nat)
    requires n > 0
    requires var c, k := SemList(e, cont, d + 1, s, n - 1), ExecList(e, cont, Start(s, d + 1), n - 1);
      c.Some? && k.Ran? && Shows(c.o, c.s, d + 1, k.s) && c.o != Normal
    ensures var c := SemList(e, cont, d + 1, s, n - 1);
      var r := SemWhile(e, until, cont, body, d, oldval, s, n);
      var m := Down(ExecWhile(e, until, cont, body, oldval, Start(s, d + 1), n));
      if !GoesOn(c.o) then Same(r, m, d) <==> (c.s.lastval == 0) != until || c.s.lastval == oldval
      else if (c.s.lastval == 0) == until then !Same(r, m, d)
      else
        r == SemWhile(e, until, cont, body, d, c.s.lastval, c.s, n - 1) &&
        m == Down(ExecWhile(e, until, cont, body, c.s.lastval, Start(c.s, d + 1), n - 1))
  {
    var c, k := SemList(e, cont, d + 1, s, n - 1), ExecList(e, cont, Start(s, d + 1), n - 1);
    Leaving(c.o, c.s, d + 1, k.s);
    SkippedBody(e, body, k.s, n - 1);
    TurnSame(c.o, c.s, d, k.s);
  }

  lemma {:induction false} WhileSame(e: Env, until: bool, cont: List, body: List, safe: set<nat>,
                                     d: nat, oldval: int, s: State, n: nat)
    requires TameEnv(e, safe) && TameCmd(While(until, cont, body), safe)
    ensures Same(SemWhile(e, until, cont, body, d, oldval, s, n),
                 Down(ExecWhile(e, until, cont, body, oldval, Start(s, d + 1), n)), d)
    decreases n, body, 2, 0
  {
    if n > 0 {
      WithinList(e, cont, 0, if until then WithNonZero else WithZero, safe, d + 1, s, n - 1);
      ListSame(e, cont, safe, d + 1, s, n - 1);
      var c, k := SemList(e, cont, d + 1, s, n - 1), ExecList(e, cont, Start(s, d + 1), n - 1);
      if c.Some? {
        if c.o != Normal {
          ConditionExact(e, until, cont, body, d, oldval, s, n);
          if GoesOn(c.o) { WhileSame(e, until, cont, body, safe, d, c.s.lastval, c.s, n - 1); }
        } else if (c.s.lastval == 0) != until {
          Leaving(c.o, c.s, d + 1, k.s);
          ListSame(e, body, safe, d + 1, c.s, n - 1);
          var r, m := SemList(e, body, d + 1, c.s, n - 1), ExecList(e, body, Start(c.s, d + 1), n - 1);
          if r.Some? {
            TurnSame(r.o, r.s, d, m.s);
            if GoesOn(r.o) { WhileSame(e, until, cont, body, safe, d, r.s.lastval, r.s, n - 1); }
          }
        }
      }
    }
  }

  /** Every run of a program, function calls included: the flags end as the outcome
      says, with 0 <= breaks <= loops, and contflag set only while breaks > 0. */
  lemma FlagsAreOutcomes(e: Env, l: List, safe: set<nat>, d: nat, s: State, n: nat)
    requires TameEnv(e, safe) && TameList(l, safe)
    ensures var r, m := SemList(e, l, d, s, n), ExecList(e, l, Start(s, d), n);
            Same(r, m, d) && (m.Ran? ==> m.s.breaks <= m.s.loops && (m.s.contflag ==> m.s.breaks > 0))
  {
    ListSame(e, l, safe, d, s, n);
  }

  // ----- Where it does not hold -----

  function One(c: Cmd): List {
    Cons(End(Pipe(false, c)), Nil)
  }

  lemma OneSem(e: Env, c: Cmd, d: nat, s: State, n: nat)
    ensures SemList(e, One(c), d, s, n) == SemCmd(e, c, d, s, n)
  {
    var p := Pipe(false, c);
    assert SemPipe(e, p, d, s, n) == SemCmd(e, c, d, s, n);
    assert SemSub(e, End(p), d, s, n) == SemPipe(e, p, d, s, n);
  }

  lemma OneExec(e: Env, c: Cmd, m: Shell, n: nat)
    requires m.breaks == 0 && !m.retflag
    ensures ExecList(e, One(c), m, n) == ExecCmd(e, c, m, n)
  {
    var p := Pipe(false, c);
    assert ExecPipe(e, p, m, n) == ExecCmd(e, c, m, n);
    assert ExecSub(e, End(p), m, n) == ExecPipe(e, p, m, n);
  }

  /** for w in 1; do break && ! x; done: x is not run, but its ! changes the status. */
  lemma LateDenial(e: Env, s: State, n: nat)
    ensures var c := For([1], Cons(AndNext(Pipe(false, BreakCmd(1)), End(Pipe(true, Simple(0)))), Nil));
            var r, m := SemCmd(e, c, 0, s, n), ExecCmd(e, c, Start(s, 0), n);
            r.Some? && m.Ran? && r.s.lastval == 0 && m.s.lastval == 1 && r.s.trace == m.s.trace
  {
    var sub := AndNext(Pipe(false, BreakCmd(1)), End(Pipe(true, Simple(0))));
    var body := Cons(sub, Nil);
    var s1 := State(s.trace + [Set(1)], 0);
    var m1 := Start(s1, 1);
    var b := m1.(breaks := 1);
    assert SemPipe(e, sub.p, 1, s1, n) == Some(Break(1), s1) by {
      assert SemCmd(e, sub.p.cmd, 1, s1, n) == Some(Break(1), s1);
    }
    assert SemSub(e, sub, 1, s1, n) == Some(Break(1), s1);
    assert SemList(e, body, 1, s1, n) == Some(Break(1), s1);
    assert ExecPipe(e, sub.p, m1, n) == Ran(b) by { assert ExecCmd(e, sub.p.cmd, m1, n) == Ran(b); }
    assert ExecSub(e, sub.next, b, n) == Ran(b.(lastval := 1));
    assert ExecSub(e, sub, m1, n) == Ran(b.(lastval := 1));
    assert ExecList(e, body, m1, n) == Ran(b.(lastval := 1));
  }

  /** A function with while return 5; do ...; done returns 0, not 5. */
  lemma ReturnInCondition(e: Env, s: State, n: nat)
    requires n >= 3 && e.funs == [One(While(false, One(ReturnCmd(5)), Nil))]
    ensures var r, m := SemCmd(e, Call(0), 0, s, n), ExecCmd(e, Call(0), Start(s, 0), n);
            r.Some? && m.Ran? && r.s.lastval == 5 && m.s.lastval == 0
  {
    var c, cont := While(false, One(ReturnCmd(5)), Nil), One(ReturnCmd(5));
    var m1 := Entered(Start(s, 0));
    OneSem(e, ReturnCmd(5), 1, s, n - 2);
    assert SemWhile(e, false, cont, Nil, 0, 0, s, n - 1) == Some(Return, s.(lastval := 5));
    assert SemCmd(e, c, 0, s, n - 1) == Some(Return, s.(lastval := 5));
    OneSem(e, c, 0, s, n - 1);
    var left := m1.(retflag := true, breaks := 1, lastval := 5);
    OneExec(e, ReturnCmd(5), m1, n - 2);
    assert ExecList(e, cont, m1, n - 2) == Ran(left);
    var done := left.(breaks := 0, lastval := 0);
    assert ExecWhile(e, false, cont, Nil, 0, m1, n - 1) == Ran(done);
    assert ExecCmd(e, c, Start(s, 0), n - 1) == Ran(done.(loops := 0));
    OneExec(e, c, Start(s, 0), n - 1);
  }

  /** until continue; do ...; done ends, and leaves contflag set with no loop to leave. */
  lemma ContinueInCondition(e: Env, s: State, n: nat)
    requires n >= 2
    ensures var m := ExecCmd(e, While(true, One(ContinueCmd(1)), Nil), Start(s, 0), n);
            m.Ran? && m.s.contflag && m.s.breaks == 0 && m.s.loops == 0
    ensures SemCmd(e, While(true, One(ContinueCmd(1)), Nil), 0, s, n).None?
  {
    var cont := One(ContinueCmd(1));
    var m1 := Entered(Start(s, 0));
    OneExec(e, ContinueCmd(1), m1, n - 1);
    assert ExecList(e, cont, m1, n - 1) == Ran(m1.(contflag := true, breaks := 1, lastval := 0));
    NeverEnds(e, 0, s, n);
  }

  lemma {:induction false} NeverEnds(e: Env, oldval: int, s: State, n: nat)
    ensures SemWhile(e, true, One(ContinueCmd(1)), Nil, 0, oldval, s, n).None?
    decreases n
  {
    if n > 0 {
      OneSem(e, ContinueCmd(1), 1, s, n - 1);
      NeverEnds(e, 0, s.(lastval := 0), n - 1);
    }
  }
}
