/** The circular queue of Src/signals.h and the handler of Src/signals.c. */
module SignalQueue {
  import opened SignalRuns

  // ----- Places of the circle -----

  /** The place of entry i of a queue whose front is at f: the front is before the first. */
  function Place(f: nat, i: nat): (p: nat)
    ensures p < MAX_QUEUE_SIZE
  {
    (f + 1 + i) % MAX_QUEUE_SIZE
  }

  function Length(front: nat, rear: nat): (n: nat)
    ensures n < MAX_QUEUE_SIZE
  {
    (rear + MAX_QUEUE_SIZE - front % MAX_QUEUE_SIZE) % MAX_QUEUE_SIZE
  }

  lemma LengthIs(f: nat, r: nat)
    requires f < MAX_QUEUE_SIZE && r < MAX_QUEUE_SIZE
    ensures Length(f, r) == if r >= f then r - f else r + MAX_QUEUE_SIZE - f
  {
  }

  lemma PlaceIs(f: nat, i: nat)
    requires f < MAX_QUEUE_SIZE && i < MAX_QUEUE_SIZE
    ensures Place(f, i) == if f + 1 + i < MAX_QUEUE_SIZE then f + 1 + i else f + 1 + i - MAX_QUEUE_SIZE
  {
  }

  /** The entry after the last one is the one the rear moves to. */
  lemma PlaceOfRear(f: nat, r: nat)
    requires f < MAX_QUEUE_SIZE && r < MAX_QUEUE_SIZE
    ensures var s := (r + 1) % MAX_QUEUE_SIZE;
      s == Place(f, Length(f, r)) && (s == f <==> Length(f, r) == MAX_QUEUE_SIZE - 1) &&
      (s != f ==> Length(f, s) == Length(f, r) + 1)
    ensures f == r <==> Length(f, r) == 0
  {
    LengthIs(f, r);
    LengthIs(f, (r + 1) % MAX_QUEUE_SIZE);
    PlaceIs(f, Length(f, r));
  }

  lemma PlacesDiffer(f: nat, i: nat, j: nat)
    requires f < MAX_QUEUE_SIZE && i < j < MAX_QUEUE_SIZE
    ensures Place(f, i) != Place(f, j)
  {
    PlaceIs(f, i);
    PlaceIs(f, j);
  }

  /** When the front moves the first entry is gone and the others are one nearer. */
  lemma FrontMoves(f: nat, r: nat, i: nat)
    requires f < MAX_QUEUE_SIZE && r < MAX_QUEUE_SIZE && f != r && i + 1 < MAX_QUEUE_SIZE
    ensures var g := Place(f, 0); Length(g, r) == Length(f, r) - 1 && Place(g, i) == Place(f, i + 1)
  {
    LengthIs(f, r);
    PlaceIs(f, 0);
    PlaceIs(f, i + 1);
    PlaceIs(Place(f, 0), i);
    LengthIs(Place(f, 0), r);
  }

  // ----- What the queue holds -----

  function Ring(sigs: seq<int>, masks: seq<int>, bodies: seq<seq<Act>>, f: nat, n: nat): (r: seq<Saved>)
    requires |sigs| == |masks| == |bodies| == MAX_QUEUE_SIZE
    ensures |r| == n && forall i :: 0 <= i < n ==>
      r[i] == Saved(sigs[Place(f, i)], masks[Place(f, i)], bodies[Place(f, i)])
  {
    if n == 0 then []
    else var p := Place(f, n - 1); Ring(sigs, masks, bodies, f, n - 1) + [Saved(sigs[p], masks[p], bodies[p])]
  }

  lemma RingPut(sigs: seq<int>, masks: seq<int>, bodies: seq<seq<Act>>, f: nat, n: nat, s: Saved)
    requires |sigs| == |masks| == |bodies| == MAX_QUEUE_SIZE && f < MAX_QUEUE_SIZE && n < MAX_QUEUE_SIZE - 1
    ensures var p := Place(f, n);
      Ring(sigs[p := s.sig], masks[p := s.mask], bodies[p := s.body], f, n + 1) == Ring(sigs, masks, bodies, f, n) + [s]
  {
    var p := Place(f, n);
    forall i | 0 <= i < n ensures Place(f, i) != p {
      PlacesDiffer(f, i, n);
    }
  }

  lemma RingNext(sigs: seq<int>, masks: seq<int>, bodies: seq<seq<Act>>, f: nat, r: nat)
    requires |sigs| == |masks| == |bodies| == MAX_QUEUE_SIZE && f < MAX_QUEUE_SIZE && r < MAX_QUEUE_SIZE && f != r
    ensures Length(f, r) > 0
    ensures var g, q := Place(f, 0), Ring(sigs, masks, bodies, f, Length(f, r));
      q[0] == Saved(sigs[g], masks[g], bodies[g]) && q[1..] == Ring(sigs, masks, bodies, g, Length(g, r))
  {
    PlaceOfRear(f, r);
    FrontMoves(f, r, 0);
    forall i | 0 <= i < Length(f, r) - 1 ensures Place(Place(f, 0), i) == Place(f, i + 1) {
      FrontMoves(f, r, i);
    }
  }

  /** The queue, the mask of the process and the level of nesting. The bodies stand for
      what will happen while the handlers run. */
  class Signals {
    const sigs: array<int>
    const masks: array<int>
    const bodies: array<seq<Act>>
    var front: nat
    var rear: nat
    var queueing: int
    var mask: int
    ghost var log: seq<Event>

    ghost predicate Valid()
      reads this
    {
      && sigs.Length == masks.Length == bodies.Length == MAX_QUEUE_SIZE
      && sigs != masks
      && front < MAX_QUEUE_SIZE && rear < MAX_QUEUE_SIZE
    }

    ghost function Pending(): seq<Saved>
      reads this, sigs, masks, bodies
      requires Valid()
    {
      Ring(sigs[..], masks[..], bodies[..], front, Length(front, rear))
    }

    ghost function Now(): State
      reads this, sigs, masks, bodies
      requires Valid()
    {
      State(queueing, Pending(), mask, log, false)
    }

    constructor (m: int)
      ensures Valid() && fresh(sigs) && fresh(masks) && fresh(bodies) && Now() == Start(m)
    {
      sigs := new int[MAX_QUEUE_SIZE];
      masks := new int[MAX_QUEUE_SIZE];
      bodies := new seq<Act>[MAX_QUEUE_SIZE];
      front, rear, queueing, mask, log := 0, 0, 0, m, [];
    }

    method QueueSignals()
      requires Valid()
      modifies this
      ensures Valid() && Now() == old(Now()).(depth := old(queueing) + 1)
    {
      queueing := queueing + 1;
    }

    /** The queueing branch of the handler. The rear is moved before the test: with fifteen
        signals pending it catches up with the front, and all of them are forgotten, or it
        goes to a place the front never reaches, so that the queue has no end. */
    method Defer(sig: int, body: seq<Act>)
      requires Valid()
      modifies this`rear, this`log, sigs, masks, bodies
      ensures |old(Pending())| < MAX_QUEUE_SIZE - 1 ==>
        Valid() && Pending() == old(Pending()) + [Saved(sig, mask, body)]
      ensures |old(Pending())| < MAX_QUEUE_SIZE - 1 ==> log == old(log) + [SignalRuns.Defer(Saved(sig, mask, body))]
      ensures |old(Pending())| == MAX_QUEUE_SIZE - 1 && front > 0 ==> Valid() && Pending() == [] && log == old(log)
      ensures |old(Pending())| == MAX_QUEUE_SIZE - 1 && front == 0 ==> rear == MAX_QUEUE_SIZE && log == old(log)
    {
      hide Ring, Place;
      ghost var n, s := Length(front, rear), Saved(sig, mask, body);
      ghost var a, b, c, p := sigs[..], masks[..], bodies[..], Place(front, n);
      PlaceOfRear(front, rear);
      LengthIs(front, rear);
      rear := rear + 1;
      var tempRear := rear % MAX_QUEUE_SIZE;
      if tempRear != front {
        RingPut(a, b, c, front, n, s);
        rear := tempRear;
        sigs[rear] := sig;
        masks[rear] := mask;
        bodies[rear] := body;
        assert sigs[..] == a[p := sig] && masks[..] == b[p := mask] && bodies[..] == c[p := body];
        log := log + [SignalRuns.Defer(s)];
      }
    }

    /** handler: puts the signal aside, or lets its handler run. */
    method Handler(sig: int, body: seq<Act>)
      requires Valid() && !Step(Caught(sig, body), Now()).full
      modifies this, sigs, masks, bodies
      ensures Valid() && Now() == Step(Caught(sig, body), old(Now()))
      decreases Waiting(Pending()) + Weight([Caught(sig, body)]), 0
    {
      if queueing != 0 {
        Defer(sig, body);
      } else {
        var was := mask;
        assert Weight([Caught(sig, body)]) == 3 + Weight(body) + Weight([Caught(sig, body)][1..]);
        log := log + [Begin(Saved(sig, mask, body), false)];
        RunActs(body);
        mask := was;
      }
    }

    /** The front moves to the first entry, and the mask saved there is set. */
    method TakeFirst() returns (body: seq<Act>)
      requires Valid() && front != rear
      modifies this`front, this`mask, this`log
      ensures Valid() && old(Pending()) != []
      ensures var st := old(Now()); var s := st.pend[0];
        body == s.body && Now() == State(st.depth, st.pend[1..], s.mask, st.log + [Begin(s, true)], false)
    {
      RingNext(sigs[..], masks[..], bodies[..], front, rear);
      front := (front + 1) % MAX_QUEUE_SIZE;
      mask := masks[front];
      body := bodies[front];
      log := log + [Begin(Saved(sigs[front], mask, body), true)];
    }

    /** unqueue_signals. The front moves before the handler runs. */
    method UnqueueSignals()
      requires Valid() && !Step(Unqueue, Now()).full
      modifies this, sigs, masks, bodies
      ensures Valid() && Now() == Step(Unqueue, old(Now()))
      decreases Waiting(Pending()) + Weight([Unqueue]), 0
    {
      hide Ring, Length, Run, Weight;
      queueing := queueing - 1;
      if queueing == 0 {
        ghost var st := Now();
        while front != rear
          invariant Valid() && Drain(Now()) == Drain(st) && Waiting(Pending()) <= Waiting(st.pend)
          decreases Waiting(Pending())
        {
          var oset := mask;
          var body := TakeFirst();
          RunActs(body);
          mask := oset;
        }
        PlaceOfRear(front, rear);
      }
    }

    /** What happens, one action after the other. */
    method RunActs(acts: seq<Act>)
      requires Valid() && !Run(acts, Now()).full
      modifies this, sigs, masks, bodies
      ensures Valid() && Now() == Run(acts, old(Now()))
      decreases Waiting(Pending()) + Weight(acts), 1, |acts|
    {
      if acts != [] {
        ghost var a := acts[0];
        assert Weight(acts) == Weight([a]) + Weight(acts[1..]) by { assert [a][1..] == []; }
        match acts[0] {
          case Queue => QueueSignals();
          case Unqueue => UnqueueSignals();
          case Block(m) => mask := m;
          case Caught(sig, body) => Handler(sig, body);
        }
        RunActs(acts[1..]);
      }
    }
  }
}
