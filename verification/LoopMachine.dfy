/** The flags of Src/loop.c, Src/exec.c and bin_break in Src/builtin.c: loops counts
    the loops around, breaks those still to be left, contflag says that the last of
    them goes on, retflag that a function is being left. */
module LoopMachine {
  import opened LoopPrograms

  datatype Shell = Shell(loops: nat, breaks: nat, contflag: bool, retflag: bool, lastval: int, trace: seq<Event>)

  /** None: the steps given did not suffice. */
  datatype Ran = Out | Ran(s: Shell)

  /** bin_break */
  function BinBreak(c: Cmd, s: Shell): Shell
    requires c.BreakCmd? || c.ContinueCmd? || c.ReturnCmd?
  {
    match c
    case ReturnCmd(v) => s.(retflag := true, breaks := s.loops, lastval := v)
    case _ =>
      if s.loops == 0 then s.(lastval := 1)
      else s.(contflag := c.ContinueCmd? || s.contflag, breaks := Min(c.n, s.loops), lastval := 0)
  }

  /** The end of a turn of a loop: the flags, and whether the loop is left. */
  function EndTurn(s: Shell): (Shell, bool) {
    if s.breaks > 0 then
      var s1 := s.(breaks := s.breaks - 1);
      if s1.breaks > 0 || !s1.contflag then (s1, true) else (s1.(contflag := false), false)
    else (s, false)
  }

  function ExecList(e: Env, l: List, s: Shell, n: nat): Ran
    decreases n, l, 1, 0
  {
    match l
    case Nil => Ran(s)
    case Cons(sub, rest) =>
      if s.breaks > 0 || s.retflag then Ran(s)
      else
        var r := ExecSub(e, sub, s, n);
        if r.Out? then Out else ExecList(e, rest, r.s, n)
  }

  /** The sublist after the next one that is followed by || (or by &&). */
  function SkipTo(sub: Sublist, or: bool): (r: Sublist)
    ensures r == sub || r < sub
  {
    match sub
    case End(_) => sub
    case AndNext(_, next) => if or then SkipTo(next, or) else next
    case OrNext(_, next) => if or then next else SkipTo(next, or)
  }

  /** Whether there is one. */
  predicate Finds(sub: Sublist, or: bool) {
    match sub
    case End(_) => false
    case AndNext(_, next) => !or || Finds(next, or)
    case OrNext(_, next) => or || Finds(next, or)
  }

  function ExecSub(e: Env, sub: Sublist, s: Shell, n: nat): Ran
    decreases n, sub, 1, 0
  {
    var r := ExecPipe(e, sub.p, s, n);
    if r.Out? || sub.End? then r
    else if (r.s.lastval == 0) == sub.AndNext? then ExecSub(e, sub.next, r.s, n)
    else if Finds(sub.next, sub.AndNext?) then ExecSub(e, SkipTo(sub.next, sub.AndNext?), r.s, n)
    else r
  }

  /** execpline with execpline2: nothing is run while loops or a function are being
      left, but a ! has its effect. */
  function ExecPipe(e: Env, p: Pipe, s: Shell, n: nat): Ran
    decreases n, p, 1, 0
  {
    var r := if s.breaks > 0 || s.retflag then Ran(s) else ExecCmd(e, p.cmd, s, n);
    if r.Ran? && p.neg then Ran(r.s.(lastval := Denied(r.s.lastval))) else r
  }

  function ExecCmd(e: Env, c: Cmd, s: Shell, n: nat): Ran
    decreases n, c, 1, 0
  {
    match c
    case Simple(id) => Ran(s.(trace := s.trace + [Run(id)], lastval := e.status(s.trace, id)))
    case BreakCmd(_) => Ran(BinBreak(c, s))
    case ContinueCmd(_) => Ran(BinBreak(c, s))
    case ReturnCmd(_) => Ran(BinBreak(c, s))
    case For(words, body) => Down(ExecFor(e, words, body, Entered(s.(lastval := 0)), n))
    case While(until, cont, body) => Down(ExecWhile(e, until, cont, body, 0, Entered(s), n))
    case Repeat(count, body) => Down(ExecRepeat(e, count, body, Entered(s.(lastval := 0)), n))
    case Call(f) =>
      if f >= |e.funs| then Ran(s.(lastval := 127))
      else if n == 0 then Out
      else
        var r := ExecList(e, e.funs[f], s, n - 1);
        if r.Ran? && r.s.retflag then Ran(r.s.(retflag := false, breaks := s.breaks)) else r
  }

  /** loops++ */
  function Entered(s: Shell): Shell {
    s.(loops := s.loops + 1)
  }

  /** loops-- */
  function Down(r: Ran): Ran {
    if r.Ran? && r.s.loops > 0 then Ran(r.s.(loops := r.s.loops - 1)) else r
  }

  function ExecFor(e: Env, words: seq<int>, body: List, s: Shell, n: nat): Ran
    decreases n, body, 2, |words|
  {
    if words == [] then Ran(s)
    else
      var r := ExecList(e, body, s.(trace := s.trace + [Set(words[0])]), n);
      if r.Out? then Out
      else
        var (s1, left) := EndTurn(r.s);
        if left then Ran(s1) else ExecFor(e, words[1..], body, s1, n)
  }

  function ExecRepeat(e: Env, count: nat, body: List, s: Shell, n: nat): Ran
    decreases n, body, 2, count
  {
    if count == 0 then Ran(s)
    else
      var r := ExecList(e, body, s, n);
      if r.Out? then Out
      else
        var (s1, left) := EndTurn(r.s);
        if left then Ran(s1) else ExecRepeat(e, count - 1, body, s1, n)
  }

  function ExecWhile(e: Env, until: bool, cont: List, body: List, oldval: int, s: Shell, n: nat): Ran
    decreases n, body, 2, 0
  {
    if n == 0 then Out
    else
      var c := ExecList(e, cont, s, n - 1);
      if c.Out? then Out
      else if (c.s.lastval == 0) == until then
        Ran(c.s.(breaks := if c.s.breaks > 0 then c.s.breaks - 1 else 0, lastval := oldval))
      else
        var r := ExecList(e, body, c.s, n - 1);
        if r.Out? then Out
        else
          var (s1, left) := EndTurn(r.s);
          if left then Ran(s1) else ExecWhile(e, until, cont, body, s1.lastval, s1, n - 1)
  }

  // ----- The same on the shell's variables -----

  class Vars {
    const e: Env
    var loops: nat
    var breaks: nat
    var contflag: bool
    var retflag: bool
    var lastval: int
    var trace: seq<Event>

    constructor (e: Env)
      ensures this.e == e && Now() == Shell(0, 0, false, false, 0, [])
    {
      this.e := e;
      loops, breaks, contflag, retflag, lastval, trace := 0, 0, false, false, 0, [];
    }

    function Now(): Shell
      reads this
    {
      Shell(loops, breaks, contflag, retflag, lastval, trace)
    }

    /** What a method did, from what it was to do. */
    ghost predicate Did(ok: bool, r: Ran)
      reads this
    {
      if ok then r == Ran(Now()) else r.Out?
    }

    method RunBreak(c: Cmd)
      requires c.BreakCmd? || c.ContinueCmd? || c.ReturnCmd?
      modifies this
      ensures Now() == BinBreak(c, old(Now()))
    {
      if c.ReturnCmd? {
        retflag := true;
        breaks := loops;
        lastval := c.value;
        return;
      }
      if loops == 0 {
        lastval := 1;
        return;
      }
      if c.ContinueCmd? { contflag := true; }
      breaks := if c.n < loops then c.n else loops;
      lastval := 0;
    }

    /** What every loop does after its body. */
    method AfterBody() returns (left: bool)
      modifies this
      ensures (Now(), left) == EndTurn(old(Now()))
    {
      if breaks > 0 {
        breaks := breaks - 1;
        if breaks > 0 || !contflag { return true; }
        contflag := false;
      }
      left := false;
    }

    /** loops-- */
    method EndLoop()
      modifies this`loops
      ensures Ran(Now()) == Down(Ran(old(Now())))
    {
      if loops > 0 { loops := loops - 1; }
    }

    /** execlist */
    method RunList(l: List, n: nat) returns (ok: bool)
      modifies this
      ensures Did(ok, ExecList(e, l, old(Now()), n))
      decreases n, l, 1, 0
    {
      var list := l;
      while list.Cons? && breaks == 0 && !retflag
        invariant ExecList(e, list, Now(), n) == ExecList(e, l, old(Now()), n)
        invariant list == l || list < l
        decreases list
      {
        ok := RunSub(list.sub, n);
        if !ok { return; }
        list := list.rest;
      }
      ok := true;
    }

    /** The walk over the pipelines of a sublist. */
    method RunSub(sub: Sublist, n: nat) returns (ok: bool)
      modifies this
      ensures Did(ok, ExecSub(e, sub, old(Now()), n))
      decreases n, sub, 1, 0
    {
      var slist := sub;
      var more := true;
      while more
        invariant if more then ExecSub(e, slist, Now(), n) == ExecSub(e, sub, old(Now()), n)
          else ExecSub(e, sub, old(Now()), n) == Ran(Now())
        invariant slist == sub || slist < sub
        decreases more, slist
      {
        ok := RunPipe(slist.p, n);
        if !ok { return; }
        if slist.End? {
          more := false;
        } else if (lastval == 0) == slist.AndNext? {
          slist := slist.next;
        } else {
          more := Finds(slist.next, slist.AndNext?);
          slist := SkipTo(slist.next, slist.AndNext?);
        }
      }
      ok := true;
    }

    /** execpline and execpline2 */
    method RunPipe(p: Pipe, n: nat) returns (ok: bool)
      modifies this
      ensures Did(ok, ExecPipe(e, p, old(Now()), n))
      decreases n, p, 1, 0
    {
      ok := true;
      if breaks == 0 && !retflag {
        ok := RunCmd(p.cmd, n);
        if !ok { return; }
      }
      if p.neg { lastval := if lastval == 0 then 1 else 0; }
    }

    method RunCmd(c: Cmd, n: nat) returns (ok: bool)
      modifies this
      ensures Did(ok, ExecCmd(e, c, old(Now()), n))
      decreases n, c, 1, 0
    {
      ok := true;
      match c
      case Simple(id) =>
        lastval := e.status(trace, id);
        trace := trace + [Run(id)];
      case BreakCmd(_) => RunBreak(c);
      case ContinueCmd(_) => RunBreak(c);
      case ReturnCmd(_) => RunBreak(c);
      case For(words, body) => ok := RunFor(words, body, n);
      case While(until, cont, body) => ok := RunWhile(until, cont, body, n);
      case Repeat(count, body) => ok := RunRepeat(count, body, n);
      case Call(f) =>
        if f >= |e.funs| {
          lastval := 127;
        } else if n == 0 {
          ok := false;
        } else {
          ok := RunCall(f, n - 1);
        }
    }

    /** doshfunc */
    method RunCall(f: nat, n: nat) returns (ok: bool)
      requires f < |e.funs|
      modifies this
      ensures Did(ok, ExecCmd(e, Call(f), old(Now()), n + 1))
      decreases n, e.funs[f], 2, 0
    {
      var obreaks := breaks;
      ok := RunList(e.funs[f], n);
      if ok && retflag {
        retflag := false;
        breaks := obreaks;
      }
    }

    /** execfor */
    method RunFor(words: seq<int>, body: List, n: nat) returns (ok: bool)
      modifies this
      ensures Did(ok, Down(ExecFor(e, words, body, Entered(old(Now()).(lastval := 0)), n)))
      decreases n, body, 2, 0
    {
      hide ExecList, ExecCmd, ExecSub, ExecPipe, EndTurn;
      lastval := 0;
      loops := loops + 1;
      ghost var all := ExecFor(e, words, body, Now(), n);
      var args := words;
      while args != []
        invariant ExecFor(e, args, body, Now(), n) == all
        decreases |args|
      {
        trace := trace + [Set(args[0])];
        ok := RunList(body, n);
        if !ok { return; }
        args := args[1..];
        var left := AfterBody();
        if left { break; }
      }
      assert Ran(Now()) == all;
      EndLoop();
      ok := true;
    }

    /** execrepeat */
    method RunRepeat(count: nat, body: List, n: nat) returns (ok: bool)
      modifies this
      ensures Did(ok, Down(ExecRepeat(e, count, body, Entered(old(Now()).(lastval := 0)), n)))
      decreases n, body, 2, 0
    {
      hide ExecList, ExecCmd, ExecSub, ExecPipe, EndTurn;
      lastval := 0;
      loops := loops + 1;
      ghost var all := ExecRepeat(e, count, body, Now(), n);
      var left := count;
      while left > 0
        invariant ExecRepeat(e, left, body, Now(), n) == all
      {
        ok := RunList(body, n);
        if !ok { return; }
        left := left - 1;
        var done := AfterBody();
        if done { break; }
      }
      assert Ran(Now()) == all;
      EndLoop();
      ok := true;
    }

    /** execwhile */
    method RunWhile(until: bool, cont: List, body: List, n: nat) returns (ok: bool)
      modifies this
      ensures Did(ok, Down(ExecWhile(e, until, cont, body, 0, Entered(old(Now())), n)))
      decreases n, body, 2, 0
    {
      hide ExecList, ExecCmd, ExecSub, ExecPipe, EndTurn;
      var oldval := 0;
      loops := loops + 1;
      ghost var all := ExecWhile(e, until, cont, body, 0, Now(), n);
      var left: nat := n;
      while left > 0
        invariant left <= n && ExecWhile(e, until, cont, body, oldval, Now(), left) == all
      {
        left := left - 1;
        ok := RunList(cont, left);
        if !ok { return; }
        if (lastval == 0) == until {
          if breaks > 0 { breaks := breaks - 1; }
          lastval := oldval;
          EndLoop();
          return true;
        }
        ok := RunList(body, left);
        if !ok { return; }
        var done := AfterBody();
        if done {
          EndLoop();
          return true;
        }
        oldval := lastval;
      }
      ok := false;
    }
  }
}
