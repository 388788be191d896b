/** What the signal queue of Src/signals.h and the handler of Src/signals.c do over a whole
    run: regions that defer signals, signals that come at any point, and handlers that
    open regions of their own. The queue is a sequence here; SignalQueue has the array. */
module SignalRuns {

  const MAX_QUEUE_SIZE := 16

  /** queue_signals; unqueue_signals; a new signal mask; a signal caught, with all that
      happens while its handler runs, whenever that is. */
  datatype Act = Queue | Unqueue | Block(mask: int) | Caught(sig: int, body: seq<Act>)

  /** A signal with the mask in force when it was caught. */
  datatype Saved = Saved(sig: int, mask: int, body: seq<Act>)

  /** A signal is put aside; a handler begins, for one put aside or for one just caught. */
  datatype Event = Defer(s: Saved) | Begin(s: Saved, deferred: bool)

  /** full: a signal found no room in the queue, and the run is not followed any further. */
  datatype State = State(depth: int, pend: seq<Saved>, mask: int, log: seq<Event>, full: bool)

  // ----- The size of what is still to happen -----

  function Weight(acts: seq<Act>): nat {
    if acts == [] then 0 else (match acts[0] case Caught(_, body) => 3 + Weight(body) case _ => 1) + Weight(acts[1..])
  }

  function Waiting(pend: seq<Saved>): nat {
    if pend == [] then 0 else 1 + Weight(pend[0].body) + Waiting(pend[1..])
  }

  lemma {:induction false} WaitingPlus(pend: seq<Saved>, s: Saved)
    ensures Waiting(pend + [s]) == Waiting(pend) + 1 + Weight(s.body)
  {
    if pend == [] {
      assert (pend + [s])[1..] == [];
    } else {
      assert (pend + [s])[1..] == pend[1..] + [s];
      WaitingPlus(pend[1..], s);
    }
  }

  // ----- Runs -----

  function Run(acts: seq<Act>, st: State): (r: State)
    ensures Waiting(r.pend) <= Waiting(st.pend) + Weight(acts)
    decreases Waiting(st.pend) + Weight(acts), 2, |acts|
  {
    if acts == [] || st.full then st
    else
      assert Weight(acts) == Weight([acts[0]]) + Weight(acts[1..]) by { assert [acts[0]][1..] == []; }
      Run(acts[1..], Step(acts[0], st))
  }

  function Step(a: Act, st: State): (r: State)
    ensures Waiting(r.pend) < Waiting(st.pend) + Weight([a])
    decreases Waiting(st.pend) + Weight([a]), 1
  {
    match a
    case Queue => st.(depth := st.depth + 1)
    case Unqueue => if st.depth == 1 then Drain(st.(depth := 0)) else st.(depth := st.depth - 1)
    case Block(m) => st.(mask := m)
    case Caught(sig, body) =>
      var s := Saved(sig, st.mask, body);
      assert Weight([a]) == 3 + Weight(body) + Weight([a][1..]);
      if st.depth != 0 then
        if |st.pend| == MAX_QUEUE_SIZE - 1 then st.(full := true)
        else WaitingPlus(st.pend, s); st.(pend := st.pend + [s], log := st.log + [Defer(s)])
      else Run(body, st.(log := st.log + [Begin(s, false)])).(mask := st.mask)
  }

  /** All that is pending is handled in turn, each under its own mask. */
  function Drain(st: State): (r: State)
    ensures Waiting(r.pend) <= Waiting(st.pend)
    decreases Waiting(st.pend), 0
  {
    if st.pend == [] || st.full then st
    else
      var s := st.pend[0];
      var t := Run(s.body, State(st.depth, st.pend[1..], s.mask, st.log + [Begin(s, true)], false));
      Drain(t.(mask := st.mask))
  }

  // ----- What the log tells -----

  /** The signals put aside, in the order they came. */
  function Deferred(log: seq<Event>): seq<Saved> {
    if log == [] then []
    else var e := log[|log| - 1]; Deferred(log[..|log| - 1]) + if e.Defer? then [e.s] else []
  }

  /** The signals put aside whose handlers have begun, in that order. */
  function Resumed(log: seq<Event>): seq<Saved> {
    if log == [] then []
    else var e := log[|log| - 1]; Resumed(log[..|log| - 1]) + if e.Begin? && e.deferred then [e.s] else []
  }

  /** Every handler that has begun. */
  function Begun(log: seq<Event>): multiset<Saved> {
    if log == [] then multiset{}
    else var e := log[|log| - 1]; Begun(log[..|log| - 1]) + if e.Begin? then multiset{e.s} else multiset{}
  }

  lemma LogPlus(log: seq<Event>, e: Event)
    ensures Deferred(log + [e]) == Deferred(log) + if e.Defer? then [e.s] else []
    ensures Resumed(log + [e]) == Resumed(log) + if e.Begin? && e.deferred then [e.s] else []
    ensures Begun(log + [e]) == Begun(log) + if e.Begin? then multiset{e.s} else multiset{}
  {
    assert (log + [e])[..|log|] == log;
  }

  // ----- In the order of arrival, and once each -----

  ghost predicate Fifo(st: State) {
    Deferred(st.log) == Resumed(st.log) + st.pend
  }

  lemma {:induction false} RunFifo(acts: seq<Act>, st: State)
    requires Fifo(st)
    ensures Fifo(Run(acts, st))
    decreases Waiting(st.pend) + Weight(acts), 2, |acts|
  {
    if acts != [] && !st.full {
      assert Weight(acts) == Weight([acts[0]]) + Weight(acts[1..]) by { assert [acts[0]][1..] == []; }
      StepFifo(acts[0], st);
      RunFifo(acts[1..], Step(acts[0], st));
    }
  }

  lemma PutFifo(st: State, s: Saved)
    requires Fifo(st)
    ensures Fifo(st.(pend := st.pend + [s], log := st.log + [Defer(s)]))
    ensures Fifo(st.(log := st.log + [Begin(s, false)]))
  {
    LogPlus(st.log, Defer(s));
    LogPlus(st.log, Begin(s, false));
    assert Resumed(st.log) + (st.pend + [s]) == Resumed(st.log) + st.pend + [s];
  }

  lemma {:induction false} StepFifo(a: Act, st: State)
    requires Fifo(st)
    ensures Fifo(Step(a, st))
    decreases Waiting(st.pend) + Weight([a]), 1
  {
    hide Deferred, Resumed;
    match a
    case Queue =>
    case Unqueue =>
      if st.depth == 1 {
        DrainFifo(st.(depth := 0));
      }
    case Block(m) =>
    case Caught(sig, body) =>
      var s := Saved(sig, st.mask, body);
      assert Weight([a]) == 3 + Weight(body) + Weight([a][1..]);
      PutFifo(st, s);
      if st.depth == 0 {
        RunFifo(body, st.(log := st.log + [Begin(s, false)]));
      }
  }

  /** The front moves before the handler runs, so that a handler which drains the queue
      finds what is after its own signal. */
  lemma {:induction false} DrainFifo(st: State)
    requires Fifo(st)
    ensures Fifo(Drain(st))
    decreases Waiting(st.pend), 0
  {
    if st.pend != [] && !st.full {
      var s := st.pend[0];
      var u := State(st.depth, st.pend[1..], s.mask, st.log + [Begin(s, true)], false);
      LogPlus(st.log, Begin(s, true));
      assert Resumed(st.log) + st.pend == Resumed(st.log) + [s] + st.pend[1..];
      RunFifo(s.body, u);
      DrainFifo(Run(s.body, u).(mask := st.mask));
    }
  }

  // ----- Nothing is left, and nothing is lost -----

  /** Regions match, here and in every handler. */
  ghost predicate Nested(acts: seq<Act>, depth: nat) {
    if acts == [] then depth == 0
    else match acts[0]
      case Queue => Nested(acts[1..], depth + 1)
      case Unqueue => depth > 0 && Nested(acts[1..], depth - 1)
      case Block(_) => Nested(acts[1..], depth)
      case Caught(_, body) => Nested(body, 0) && Nested(acts[1..], depth)
  }

  /** The signals of a list of actions, with those of their handlers, each with the mask
      at its time. */
  function Inside(acts: seq<Act>, mask: int): multiset<Saved> {
    if acts == [] then multiset{}
    else match acts[0]
      case Block(m) => Inside(acts[1..], m)
      case Caught(sig, body) => multiset{Saved(sig, mask, body)} + Inside(body, mask) + Inside(acts[1..], mask)
      case _ => Inside(acts[1..], mask)
  }

  function InsideAll(pend: seq<Saved>): multiset<Saved> {
    if pend == [] then multiset{}
    else multiset{pend[0]} + Inside(pend[0].body, pend[0].mask) + InsideAll(pend[1..])
  }

  function MaskAfter(acts: seq<Act>, mask: int): int {
    if acts == [] then mask else MaskAfter(acts[1..], if acts[0].Block? then acts[0].mask else mask)
  }

  lemma {:induction false} InsidePlus(pend: seq<Saved>, s: Saved)
    ensures InsideAll(pend + [s]) == InsideAll(pend) + multiset{s} + Inside(s.body, s.mask)
  {
    if pend == [] {
      assert (pend + [s])[1..] == [];
    } else {
      assert (pend + [s])[1..] == pend[1..] + [s];
      InsidePlus(pend[1..], s);
    }
  }

  /** Handlers that have begun, and those that will. */
  function Account(st: State): multiset<Saved> {
    Begun(st.log) + InsideAll(st.pend)
  }

  lemma {:induction false} RunKeeps(acts: seq<Act>, st: State)
    requires !Run(acts, st).full
    ensures Account(Run(acts, st)) == Account(st) + Inside(acts, st.mask) &&
      Run(acts, st).mask == MaskAfter(acts, st.mask)
    decreases Waiting(st.pend) + Weight(acts), 2, |acts|
  {
    if acts != [] {
      assert Weight(acts) == Weight([acts[0]]) + Weight(acts[1..]) by { assert [acts[0]][1..] == []; }
      StepKeeps(acts[0], st);
      RunKeeps(acts[1..], Step(acts[0], st));
    }
  }

  lemma PutKeeps(st: State, s: Saved)
    ensures Account(st.(pend := st.pend + [s], log := st.log + [Defer(s)])) ==
      Account(st) + multiset{s} + Inside(s.body, s.mask)
    ensures Account(st.(log := st.log + [Begin(s, false)])) == Account(st) + multiset{s}
  {
    LogPlus(st.log, Defer(s));
    LogPlus(st.log, Begin(s, false));
    InsidePlus(st.pend, s);
  }

  lemma {:induction false} StepKeeps(a: Act, st: State)
    requires !st.full && !Step(a, st).full
    ensures a.Caught? ==>
      Account(Step(a, st)) == Account(st) + multiset{Saved(a.sig, st.mask, a.body)} + Inside(a.body, st.mask)
    ensures !a.Caught? ==> Account(Step(a, st)) == Account(st)
    ensures Step(a, st).mask == if a.Block? then a.mask else st.mask
    decreases Waiting(st.pend) + Weight([a]), 1
  {
    hide Begun, Inside, InsideAll;
    match a
    case Queue =>
    case Unqueue =>
      if st.depth == 1 {
        DrainKeeps(st.(depth := 0));
      }
    case Block(m) =>
    case Caught(sig, body) =>
      var s := Saved(sig, st.mask, body);
      assert Weight([a]) == 3 + Weight(body) + Weight([a][1..]);
      PutKeeps(st, s);
      if st.depth == 0 {
        RunKeeps(body, st.(log := st.log + [Begin(s, false)]));
      }
  }

  lemma {:induction false} DrainKeeps(st: State)
    requires !st.full && !Drain(st).full
    ensures Account(Drain(st)) == Account(st) && Drain(st).mask == st.mask && Drain(st).pend == []
    decreases Waiting(st.pend), 0
  {
    if st.pend != [] {
      var s := st.pend[0];
      var u := State(st.depth, st.pend[1..], s.mask, st.log + [Begin(s, true)], false);
      LogPlus(st.log, Begin(s, true));
      RunKeeps(s.body, u);
      DrainKeeps(Run(s.body, u).(mask := st.mask));
    }
  }

  ghost predicate AllNested(pend: seq<Saved>) {
    forall k :: 0 <= k < |pend| ==> Nested(pend[k].body, 0)
  }

  /** Outside every region nothing is pending. */
  ghost predicate Settled(st: State) {
    st.depth == 0 ==> st.pend == []
  }

  lemma {:induction false} RunSettles(acts: seq<Act>, st: State)
    requires st.depth >= 0 && Nested(acts, st.depth) && AllNested(st.pend) && !Run(acts, st).full
    ensures var r := Run(acts, st); r.depth == 0 && AllNested(r.pend) && (Settled(st) ==> r.pend == [])
    decreases Waiting(st.pend) + Weight(acts), 2, |acts|
  {
    if acts != [] {
      assert Weight(acts) == Weight([acts[0]]) + Weight(acts[1..]) by { assert [acts[0]][1..] == []; }
      StepSettles(acts[0], st);
      RunSettles(acts[1..], Step(acts[0], st));
    }
  }

  lemma {:induction false} StepSettles(a: Act, st: State)
    requires st.depth >= 0 && (a.Unqueue? ==> st.depth > 0) && (a.Caught? ==> Nested(a.body, 0)) && AllNested(st.pend)
    requires !st.full && !Step(a, st).full
    ensures var r := Step(a, st); AllNested(r.pend) && (Settled(st) ==> Settled(r))
    ensures Step(a, st).depth == match a case Queue => st.depth + 1 case Unqueue => st.depth - 1 case _ => st.depth
    decreases Waiting(st.pend) + Weight([a]), 1
  {
    match a
    case Queue =>
    case Unqueue =>
      if st.depth == 1 {
        DrainSettles(st.(depth := 0));
      }
    case Block(m) =>
    case Caught(sig, body) =>
      assert Weight([a]) == 3 + Weight(body) + Weight([a][1..]);
      if st.depth == 0 {
        RunSettles(body, st.(log := st.log + [Begin(Saved(sig, st.mask, body), false)]));
      }
  }

  lemma {:induction false} DrainSettles(st: State)
    requires st.depth == 0 && AllNested(st.pend) && !st.full && !Drain(st).full
    ensures var r := Drain(st); r.depth == 0 && r.pend == []
    decreases Waiting(st.pend), 0
  {
    if st.pend != [] {
      var s := st.pend[0];
      var u := State(st.depth, st.pend[1..], s.mask, st.log + [Begin(s, true)], false);
      RunSettles(s.body, u);
      DrainSettles(Run(s.body, u).(mask := st.mask));
    }
  }

  function Start(mask: int): State {
    State(0, [], mask, [], false)
  }

  /** A run whose regions match, and in which the queue has always room: at its end every
      signal that was caught, in a region or in a handler or anywhere else, has been handled
      once, with the mask that was in force when it was caught; those that had been put
      aside were taken up in the order they had come; and the mask is what the run itself
      has set. */
  lemma EverySignalOnce(acts: seq<Act>, mask: int)
    requires Nested(acts, 0) && !Run(acts, Start(mask)).full
    ensures var r := Run(acts, Start(mask));
      r.depth == 0 && r.pend == [] && Begun(r.log) == Inside(acts, mask) && Resumed(r.log) == Deferred(r.log) &&
      r.mask == MaskAfter(acts, mask)
  {
    hide Run, Inside, Nested, MaskAfter;
    RunFifo(acts, Start(mask));
    RunKeeps(acts, Start(mask));
    RunSettles(acts, Start(mask));
    assert Account(Start(mask)) == multiset{};
    var r := Run(acts, Start(mask));
    assert r.pend == [];
    assert Account(r) == Begun(r.log);
    assert Resumed(r.log) + [] == Resumed(r.log);
  }

  // ----- Inside a region, and how much room it needs -----

  /** The outermost region is not left. */
  ghost predicate Held(acts: seq<Act>, depth: int) {
    if acts == [] then depth > 0
    else depth > 0 && Held(acts[1..], match acts[0] case Queue => depth + 1 case Unqueue => depth - 1 case _ => depth)
  }

  function Catches(acts: seq<Act>, mask: int): seq<Saved> {
    if acts == [] then []
    else match acts[0]
      case Block(m) => Catches(acts[1..], m)
      case Caught(sig, body) => [Saved(sig, mask, body)] + Catches(acts[1..], mask)
      case _ => Catches(acts[1..], mask)
  }

  /** As long as a region is not left no handler begins, and what is caught is put aside in
      order; there is room for it exactly if no more than fifteen signals are pending then. */
  lemma {:induction false} RegionHolds(acts: seq<Act>, st: State)
    requires Held(acts, st.depth) && !st.full && |st.pend| < MAX_QUEUE_SIZE
    ensures var r := Run(acts, st); r.full <==> |st.pend| + |Catches(acts, st.mask)| >= MAX_QUEUE_SIZE
    ensures var r := Run(acts, st); !r.full ==>
      r.pend == st.pend + Catches(acts, st.mask) && Begun(r.log) == Begun(st.log) && r.depth > 0
    decreases |acts|
  {
    if acts != [] {
      var a := acts[0];
      if a.Caught? {
        var s := Saved(a.sig, st.mask, a.body);
        LogPlus(st.log, Defer(s));
        assert st.pend + [s] + Catches(acts[1..], st.mask) == st.pend + Catches(acts, st.mask);
      }
      if !Step(a, st).full {
        RegionHolds(acts[1..], Step(a, st));
      }
    }
  }

  /** How many signals there are, with those of the handlers. */
  function Many(acts: seq<Act>): nat {
    if acts == [] then 0 else (if acts[0].Caught? then 1 + Many(acts[0].body) else 0) + Many(acts[1..])
  }

  function ManyLeft(pend: seq<Saved>): nat {
    if pend == [] then 0 else 1 + Many(pend[0].body) + ManyLeft(pend[1..])
  }

  lemma {:induction false} ManyPlus(pend: seq<Saved>, s: Saved)
    ensures ManyLeft(pend + [s]) == ManyLeft(pend) + 1 + Many(s.body)
  {
    if pend == [] {
      assert (pend + [s])[1..] == [];
    } else {
      assert (pend + [s])[1..] == pend[1..] + [s];
      ManyPlus(pend[1..], s);
    }
  }

  lemma {:induction false} ManyAtLeast(pend: seq<Saved>)
    ensures |pend| <= ManyLeft(pend)
  {
    if pend != [] {
      ManyAtLeast(pend[1..]);
    }
  }

  /** A run with no more than fifteen signals in all cannot fill the queue. */
  lemma {:induction false} RunHasRoom(acts: seq<Act>, st: State)
    requires !st.full && ManyLeft(st.pend) + Many(acts) < MAX_QUEUE_SIZE
    ensures var r := Run(acts, st); !r.full && ManyLeft(r.pend) <= ManyLeft(st.pend) + Many(acts)
    decreases Waiting(st.pend) + Weight(acts), 2, |acts|
  {
    if acts != [] {
      assert Weight(acts) == Weight([acts[0]]) + Weight(acts[1..]) by { assert [acts[0]][1..] == []; }
      StepHasRoom(acts[0], st);
      RunHasRoom(acts[1..], Step(acts[0], st));
    }
  }

  lemma {:induction false} StepHasRoom(a: Act, st: State)
    requires !st.full && ManyLeft(st.pend) + (if a.Caught? then 1 + Many(a.body) else 0) < MAX_QUEUE_SIZE
    ensures var r := Step(a, st); !r.full && ManyLeft(r.pend) <= ManyLeft(st.pend) + if a.Caught? then 1 + Many(a.body)
      else 0
    decreases Waiting(st.pend) + Weight([a]), 1
  {
    match a
    case Queue =>
    case Unqueue =>
      if st.depth == 1 {
        DrainHasRoom(st.(depth := 0));
      }
    case Block(m) =>
    case Caught(sig, body) =>
      var s := Saved(sig, st.mask, body);
      assert Weight([a]) == 3 + Weight(body) + Weight([a][1..]);
      if st.depth == 0 {
        RunHasRoom(body, st.(log := st.log + [Begin(s, false)]));
      } else {
        ManyAtLeast(st.pend);
        ManyPlus(st.pend, s);
      }
  }

  lemma {:induction false} DrainHasRoom(st: State)
    requires !st.full && ManyLeft(st.pend) < MAX_QUEUE_SIZE
    ensures var r := Drain(st); !r.full && ManyLeft(r.pend) <= ManyLeft(st.pend)
    decreases Waiting(st.pend), 0
  {
    if st.pend != [] {
      var s := st.pend[0];
      var u := State(st.depth, st.pend[1..], s.mask, st.log + [Begin(s, true)], false);
      RunHasRoom(s.body, u);
      DrainHasRoom(Run(s.body, u).(mask := st.mask));
    }
  }
}
