/** Shell programs with loops, function calls, break, continue and return, and what
    they do in terms of structured outcomes. */
module LoopPrograms {

  datatype Cmd =
    | Simple(id: nat)
    | BreakCmd(n: nat)
    | ContinueCmd(n: nat)
    | ReturnCmd(value: int)
    | For(words: seq<int>, body: List)
    | While(until: bool, cont: List, body: List)
    | Repeat(count: nat, body: List)
    | Call(f: nat)

  /** A pipeline of one command, with a ! before it or not. */
  datatype Pipe = Pipe(neg: bool, cmd: Cmd)

  /** Pipelines joined by && and ||. */
  datatype Sublist = End(p: Pipe) | AndNext(p: Pipe, next: Sublist) | OrNext(p: Pipe, next: Sublist)
  datatype List = Nil | Cons(sub: Sublist, rest: List)

  /** A command that was run, or a word that a for loop assigned. */
  datatype Event = Run(id: nat) | Set(word: int)

  /** The functions that are defined, and the status of a simple command, which may
      depend on everything that was done before. */
  datatype Env = Env(funs: seq<List>, status: (seq<Event>, nat) -> int)

  datatype State = State(trace: seq<Event>, lastval: int)

  /** How a command ends: normally, or leaving k loops, or going on with the k-th
      loop around it, or leaving the function. */
  datatype Outcome = Normal | Break(k: nat) | Continue(k: nat) | Return

  /** None: the steps given did not suffice. */
  datatype Result = None | Some(o: Outcome, s: State)

  function Min(a: nat, b: nat): nat {
    if a < b then a else b
  }

  /** What ! makes of a status: 1 of success, and 0 of every failure. */
  function Denied(v: int): (r: int)
    ensures (r == 0 || r == 1) && (r == 0 <==> v != 0)
  {
    if v == 0 then 1 else 0
  }

  /** What a loop makes of the outcome of its body: the outcome of the loop, or
      Normal to go on. */
  predicate GoesOn(o: Outcome) {
    o == Normal || o == Continue(1)
  }

  function Leaves(o: Outcome): Outcome {
    match o
    case Normal => Normal
    case Break(k) => if k <= 1 then Normal else Break(k - 1)
    case Continue(k) => if k <= 1 then Normal else Continue(k - 1)
    case Return => Return
  }

  // d is the number of loops around; n bounds the turns of while loops and the calls.

  function SemList(e: Env, l: List, d: nat, s: State, n: nat): Result
    decreases n, l, 1, 0
  {
    match l
    case Nil => Some(Normal, s)
    case Cons(sub, rest) =>
      var r := SemSub(e, sub, d, s, n);
      if r.None? || r.o != Normal then r else SemList(e, rest, d, r.s, n)
  }

  function SemSub(e: Env, sub: Sublist, d: nat, s: State, n: nat): Result
    decreases n, sub, 1, 0
  {
    var r := SemPipe(e, sub.p, d, s, n);
    if r.None? || r.o != Normal || sub.End? then r else SemNext(e, sub.AndNext?, sub.next, d, r.s, n)
  }

  /** The pipeline after && is run if the status is 0, after || if it is not. */
  function SemNext(e: Env, and: bool, sub: Sublist, d: nat, s: State, n: nat): Result
    decreases n, sub, 1, 0
  {
    var r := if and == (s.lastval == 0) then SemPipe(e, sub.p, d, s, n) else Some(Normal, s);
    if r.None? || r.o != Normal || sub.End? then r else SemNext(e, sub.AndNext?, sub.next, d, r.s, n)
  }

  function SemPipe(e: Env, p: Pipe, d: nat, s: State, n: nat): Result
    decreases n, p, 1, 0
  {
    var r := SemCmd(e, p.cmd, d, s, n);
    if r.Some? && p.neg then Some(r.o, r.s.(lastval := Denied(r.s.lastval))) else r
  }

  function SemCmd(e: Env, c: Cmd, d: nat, s: State, n: nat): Result
    decreases n, c, 1, 0
  {
    match c
    case Simple(id) => Some(Normal, State(s.trace + [Run(id)], e.status(s.trace, id)))
    case BreakCmd(k) => if d == 0 then Some(Normal, s.(lastval := 1)) else Some(Break(Min(k, d)), s.(lastval := 0))
    case ContinueCmd(k) => if d == 0 then Some(Normal, s.(lastval := 1))
      else Some(Continue(Min(k, d)), s.(lastval := 0))
    case ReturnCmd(v) => Some(Return, s.(lastval := v))
    case For(words, body) => SemFor(e, words, body, d, s.(lastval := 0), n)
    case While(until, cont, body) => SemWhile(e, until, cont, body, d, 0, s, n)
    case Repeat(count, body) => SemRepeat(e, count, body, d, s.(lastval := 0), n)
    case Call(f) =>
      if f >= |e.funs| then Some(Normal, s.(lastval := 127))
      else if n == 0 then None
      else
        var r := SemList(e, e.funs[f], d, s, n - 1);
        if r.Some? && r.o == Return then Some(Normal, r.s) else r
  }

  function SemFor(e: Env, words: seq<int>, body: List, d: nat, s: State, n: nat): Result
    decreases n, body, 2, |words|
  {
    if words == [] then Some(Normal, s)
    else
      var r := SemList(e, body, d + 1, s.(trace := s.trace + [Set(words[0])]), n);
      if r.None? then None
      else if GoesOn(r.o) then SemFor(e, words[1..], body, d, r.s, n)
      else Some(Leaves(r.o), r.s)
  }

  function SemRepeat(e: Env, count: nat, body: List, d: nat, s: State, n: nat): Result
    decreases n, body, 2, count
  {
    if count == 0 then Some(Normal, s)
    else
      var r := SemList(e, body, d + 1, s, n);
      if r.None? then None
      else if GoesOn(r.o) then SemRepeat(e, count - 1, body, d, r.s, n)
      else Some(Leaves(r.o), r.s)
  }

  /** The status of the loop is that of the last turn of the body. */
  function SemWhile(e: Env, until: bool, cont: List, body: List, d: nat, oldval: int, s: State, n: nat): Result
    decreases n, body, 2, 0
  {
    if n == 0 then None
    else
      var c := SemList(e, cont, d + 1, s, n - 1);
      if c.None? then None
      else if c.o != Normal then
        if GoesOn(c.o) then SemWhile(e, until, cont, body, d, c.s.lastval, c.s, n - 1) else Some(Leaves(c.o), c.s)
      else if (c.s.lastval == 0) == until then Some(Normal, c.s.(lastval := oldval))
      else
        var r := SemList(e, body, d + 1, c.s, n - 1);
        if r.None? then None
        else if GoesOn(r.o) then SemWhile(e, until, cont, body, d, r.s.lastval, r.s, n - 1)
        else Some(Leaves(r.o), r.s)
  }
}
