/** The heap regions of Src/mem.c: pushheap saves how much of each heap is used,
    popheap and freeheap go back to that, halloc takes memory from the first heap
    with room.  Here on values; class HeapList does the same on heap records. */
module HeapStack {

  /** HEAP_ARENA_SIZE, in bytes, with sizeof(zlong) 8 and sizeof(struct heap) 24. */
  const ISIZE := 8
  const ARENA := 8192 - ISIZE - 24

  /** A heap: where its arena is and how large, what is used of it, and the marks
      saved by pushheap, latest first. */
  datatype Heap = Heap(at: int, size: nat, used: nat, sp: seq<nat>)

  function Push(s: seq<Heap>): (r: seq<Heap>)
    ensures |r| == |s| && forall k :: 0 <= k < |s| ==> r[k] == s[k].(sp := [s[k].used] + s[k].sp)
  {
    seq(|s|, k requires 0 <= k < |s| => s[k].(sp := [s[k].used] + s[k].sp))
  }

  function Reset(h: Heap): Heap {
    h.(used := if h.sp != [] then h.sp[0] else 0)
  }

  function Free(s: seq<Heap>): (r: seq<Heap>)
    ensures |r| == |s| && forall k :: 0 <= k < |s| ==> r[k] == Reset(s[k])
  {
    seq(|s|, k requires 0 <= k < |s| => Reset(s[k]))
  }

  /** The heaps before the last one with a saved mark, and that one. */
  function Saved(s: seq<Heap>): (n: nat)
    ensures n <= |s| && (n > 0 ==> s[n - 1].sp != []) && forall k :: n <= k < |s| ==> s[k].sp == []
  {
    if s == [] then 0 else if s[|s| - 1].sp != [] then |s| else Saved(s[..|s| - 1])
  }

  function Popped(h: Heap): Heap {
    if h.sp == [] then h else h.(used := h.sp[0], sp := h.sp[1..])
  }

  function Pop(s: seq<Heap>): (r: seq<Heap>)
    ensures |r| == Saved(s) && forall k :: 0 <= k < |r| ==> r[k] == Popped(s[k])
  {
    seq(Saved(s), k requires 0 <= k < Saved(s) => Popped(s[k]))
  }

  /** Sizes are rounded up to a multiple of H_ISIZE. */
  function Round(n: nat): (r: nat)
    ensures n <= r < n + ISIZE && r % ISIZE == 0
  {
    (n + ISIZE - 1) / ISIZE * ISIZE
  }

  /** The first heap with room for n more bytes. */
  function Room(s: seq<Heap>, n: nat): (k: nat)
    ensures k <= |s| && (k < |s| ==> n + s[k].used <= ARENA) && forall j :: 0 <= j < k ==> n + s[j].used > ARENA
  {
    if s == [] || n + s[0].used <= ARENA then 0 else 1 + Room(s[1..], n)
  }

  /** halloc of n bytes, rounded; `at` is where malloc puts a new heap if one is needed. */
  function Halloc(s: seq<Heap>, n: nat, at: int): (seq<Heap>, int) {
    var k := Room(s, n);
    if k < |s| then (s[k := s[k].(used := s[k].used + n)], s[k].at + s[k].used)
    else (s + [Heap(at, if ARENA > n then ARENA else n, n, [])], at)
  }

  // ----- What every step keeps -----

  /** The saved marks do not exceed one another, nor what is used, nor the size. */
  ghost predicate Marks(h: Heap) {
    h.used <= h.size && ARENA <= h.size && (h.sp != [] ==> h.sp[0] <= h.used) &&
    forall i, j :: 0 <= i < j < |h.sp| ==> h.sp[j] <= h.sp[i]
  }

  ghost predicate Disjoint(h: Heap, g: Heap) {
    h.at + h.size <= g.at || g.at + g.size <= h.at
  }

  /** Later heaps have no more saved marks than earlier ones. */
  ghost predicate Valid(s: seq<Heap>) {
    (forall k :: 0 <= k < |s| ==> Marks(s[k])) &&
    Descending(s) && AllApart(s)
  }

  datatype Step = PushHeap | PopHeap | FreeHeap | Alloc(n: nat, at: int)

  /** malloc does not put a new heap over an old one. */
  ghost predicate Fresh(s: seq<Heap>, step: Step) {
    step.Alloc? ==> forall k :: 0 <= k < |s| ==>
    Disjoint(s[k], Heap(step.at, if ARENA > step.n then ARENA else step.n, 0, []))
  }

  function Do(s: seq<Heap>, step: Step): seq<Heap> {
    match step
    case PushHeap => Push(s)
    case PopHeap => Pop(s)
    case FreeHeap => Free(s)
    case Alloc(n, at) => Halloc(s, n, at).0
  }

  ghost predicate Descending(s: seq<Heap>) {
    forall j, k :: 0 <= j < k < |s| ==> |s[k].sp| <= |s[j].sp|
  }

  ghost predicate AllApart(s: seq<Heap>) {
    forall j, k :: 0 <= j < k < |s| ==> Disjoint(s[j], s[k])
  }

  lemma Ordered(s: seq<Heap>, j: nat, k: nat)
    requires Descending(s) && j <= k < |s|
    ensures |s[k].sp| <= |s[j].sp|
  {
  }

  /** The heaps without saved marks form the end of the list: no heap that popheap
      frees is on the list it leaves. */
  lemma UnsavedSuffix(s: seq<Heap>, k: nat)
    requires Valid(s) && k < |s|
    ensures s[k].sp == [] <==> k >= Saved(s)
  {
    hide Marks, AllApart, Descending;
    if k < Saved(s) {
      Ordered(s, k, Saved(s) - 1);
    }
  }

  /** Every step keeps the invariant. */
  lemma StepValid(s: seq<Heap>, step: Step)
    requires Valid(s) && Fresh(s, step)
    ensures Valid(Do(s, step))
  {
    hide AllApart, Descending, Marks, Fresh;
    match step
    case PushHeap => PushValid(s);
    case PopHeap => PopValid(s);
    case FreeHeap => FreeValid(s);
    case Alloc(n, at) => AllocValid(s, n, at);
  }

  lemma PushValid(s: seq<Heap>)
    requires Valid(s)
    ensures Valid(Push(s))
  {
    var r := Push(s);
    forall j, k | 0 <= j < k < |r|
      ensures Disjoint(r[j], r[k]) && |r[k].sp| <= |r[j].sp|
    {
      assert Disjoint(s[j], s[k]) && |s[k].sp| <= |s[j].sp|;
    }
    forall k | 0 <= k < |r| ensures Marks(r[k]) { assert Marks(s[k]); }
  }

  lemma FreeValid(s: seq<Heap>)
    requires Valid(s)
    ensures Valid(Free(s))
  {
    var r := Free(s);
    forall j, k | 0 <= j < k < |r|
      ensures Disjoint(r[j], r[k]) && |r[k].sp| <= |r[j].sp|
    {
      assert Disjoint(s[j], s[k]) && |s[k].sp| <= |s[j].sp|;
    }
    forall k | 0 <= k < |r| ensures Marks(r[k]) { assert Marks(s[k]); }
  }

  lemma PopValid(s: seq<Heap>)
    requires Valid(s)
    ensures Valid(Pop(s))
  {
    var r := Pop(s);
    forall k | 0 <= k < |r| ensures r[k] == Popped(s[k]) && s[k].sp != [] { UnsavedSuffix(s, k); }
    forall j, k | 0 <= j < k < |r|
      ensures Disjoint(r[j], r[k]) && |r[k].sp| <= |r[j].sp|
    {
      assert Disjoint(s[j], s[k]) && |s[k].sp| <= |s[j].sp|;
    }
    forall k | 0 <= k < |r| ensures Marks(r[k]) { assert Marks(s[k]); }
  }

  lemma AllocValid(s: seq<Heap>, n: nat, at: int)
    requires Valid(s) && Fresh(s, Alloc(n, at))
    ensures Valid(Halloc(s, n, at).0)
  {
    var r, k := Halloc(s, n, at).0, Room(s, n);
    forall i, j | 0 <= i < j < |r| ensures Disjoint(r[i], r[j]) && |r[j].sp| <= |r[i].sp| {
      if j < |s| { assert Disjoint(s[i], s[j]) && |s[j].sp| <= |s[i].sp|; }
    }
    forall i | 0 <= i < |r| ensures Marks(r[i]) { if i < |s| { assert Marks(s[i]); } }
  }

  lemma FreePrefix(s: seq<Heap>)
    requires Valid(s)
    ensures |Push(Pop(s))| == Saved(s) && Free(s)[..Saved(s)] == Push(Pop(s))
    ensures forall k :: 0 <= k < Saved(s) ==> s[k].sp != []
  {
    var p := Push(Pop(s));
    forall k | 0 <= k < Saved(s) ensures Free(s)[k] == p[k] && s[k].sp != [] {
      UnsavedSuffix(s, k);
      assert [s[k].sp[0]] + s[k].sp[1..] == s[k].sp;
    }
  }

  /** freeheap is popheap and then pushheap, but for the heaps without saved marks:
      freeheap keeps them, with nothing used. */
  lemma FreeIsPopPush(s: seq<Heap>)
    requires Valid(s)
    ensures |Push(Pop(s))| == Saved(s) && Free(s)[..Saved(s)] == Push(Pop(s))
    ensures forall k :: Saved(s) <= k < |s| ==> Free(s)[k].used == 0 && Free(s)[k].sp == []
    ensures Free(s) == Push(Pop(s)) <==> forall k :: 0 <= k < |s| ==> s[k].sp != []
  {
    FreePrefix(s);
    hide Push, Pop, Valid;
    if forall k :: 0 <= k < |s| ==> s[k].sp != [] {
      assert Saved(s) == |s|;
      assert Free(s)[..|s|] == Free(s);
    }
  }

  // ----- Runs -----

  /** s is reached from `base` by pushheap and steps with d pushes pending: the
      heaps of base are there, with their marks and one more, and d newer ones. */
  ghost predicate Above(base: seq<Heap>, s: seq<Heap>, d: nat) {
    |base| <= |s| &&
    (forall k :: 0 <= k < |base| ==> Extends(base[k], s[k], d)) &&
    (forall k :: |base| <= k < |s| ==> |s[k].sp| <= d)
  }

  ghost predicate Extends(b: Heap, h: Heap, d: nat) {
    h.at == b.at && h.size == b.size && |h.sp| == |b.sp| + 1 + d && h.sp[d] == b.used && h.sp[d + 1..] == b.sp
  }

  /** The pending pushes after a step, inside the bracket. */
  function Level(d: int, step: Step): int {
    match step
    case PushHeap => d + 1
    case PopHeap => d - 1
    case FreeHeap => d
    case Alloc(_, _) => d
  }

  lemma StepAbove(base: seq<Heap>, s: seq<Heap>, d: nat, step: Step)
    requires Valid(s) && Above(base, s, d) && Fresh(s, step) && Level(d, step) >= 0
    ensures Above(base, Do(s, step), Level(d, step))
  {
    hide Valid, Fresh;
    var r := Do(s, step);
    if step.PopHeap? {
      PopAbove(base, s, d);
    } else {
      forall k | 0 <= k < |base| ensures Extends(base[k], r[k], Level(d, step)) {
        assert Extends(base[k], s[k], d);
        assert step.PushHeap? ==> r[k].sp[d + 2..] == s[k].sp[d + 1..];
      }
    }
  }

  lemma PopAbove(base: seq<Heap>, s: seq<Heap>, d: nat)
    requires Valid(s) && Above(base, s, d) && d > 0
    ensures Above(base, Pop(s), d - 1)
  {
    hide Valid;
    AboveSaved(base, s, d);
    var r := Pop(s);
    forall k | 0 <= k < |base| ensures Extends(base[k], r[k], d - 1) {
      assert Extends(base[k], s[k], d);
      assert s[k].sp[1..][d..] == s[k].sp[d + 1..];
    }
    forall k | |base| <= k < |r| ensures |r[k].sp| <= d - 1 { UnsavedSuffix(s, k); }
  }

  lemma AboveSaved(base: seq<Heap>, s: seq<Heap>, d: nat)
    requires Valid(s) && Above(base, s, d)
    ensures |base| <= Saved(s)
  {
    hide Valid;
    if base != [] {
      assert Extends(base[|base| - 1], s[|base| - 1], d);
      UnsavedSuffix(s, |base| - 1);
    }
  }

  /** The bracket is closed: the list and every used mark are as they were. */
  lemma PopRestores(base: seq<Heap>, s: seq<Heap>)
    requires Valid(s) && Above(base, s, 0)
    ensures Pop(s) == base
  {
    hide Valid;
    AboveSaved(base, s, 0);
    forall k | 0 <= k < |base| ensures Pop(s)[k] == base[k] { assert Extends(base[k], s[k], 0); }
    if |base| < |s| { UnsavedSuffix(s, |base|); }
  }

  ghost predicate FreshRun(s: seq<Heap>, steps: seq<Step>)
    decreases |steps|
  {
    steps != [] ==> Fresh(s, steps[0]) && FreshRun(Do(s, steps[0]), steps[1..])
  }

  function Run(s: seq<Heap>, steps: seq<Step>): seq<Heap>
    decreases |steps|
  {
    if steps == [] then s else Run(Do(s, steps[0]), steps[1..])
  }

  /** The steps never pop more than they pushed, and end with d pushes pending. */
  ghost predicate Bracketed(d: int, steps: seq<Step>, end: int)
    decreases |steps|
  {
    d >= 0 && if steps == [] then d == end else Bracketed(Level(d, steps[0]), steps[1..], end)
  }

  lemma {:induction false} RunAbove(base: seq<Heap>, s: seq<Heap>, d: nat, steps: seq<Step>, end: nat)
    requires Valid(s) && Above(base, s, d) && FreshRun(s, steps) && Bracketed(d, steps, end)
    ensures Valid(Run(s, steps)) && Above(base, Run(s, steps), end)
    decreases |steps|
  {
    if steps != [] {
      StepValid(s, steps[0]);
      StepAbove(base, s, d, steps[0]);
      RunAbove(base, Do(s, steps[0]), Level(d, steps[0]), steps[1..], end);
    }
  }

  lemma PushAbove(s: seq<Heap>)
    requires Valid(s)
    ensures Valid(Push(s)) && Above(s, Push(s), 0)
  {
    StepValid(s, PushHeap);
    forall k | 0 <= k < |s| ensures Extends(s[k], Push(s)[k], 0) {}
  }

  /** Whatever happens between a pushheap and the popheap that belongs to it, the
      popheap gives back the list of heaps and every used mark. */
  lemma BracketRestores(s: seq<Heap>, steps: seq<Step>)
    requires Valid(s) && FreshRun(Push(s), steps) && Bracketed(0, steps, 0)
    ensures Pop(Run(Push(s), steps)) == s
  {
    PushAbove(s);
    RunAbove(s, Push(s), 0, steps, 0);
    PopRestores(s, Run(Push(s), steps));
  }

  /** Byte b is in memory that was handed out. */
  ghost predicate Handed(s: seq<Heap>, b: int) {
    exists k :: 0 <= k < |s| && InUse(s[k], b)
  }

  ghost predicate InUse(h: Heap, b: int) {
    h.at <= b < h.at + h.used
  }

  /** What was handed out before the pushheap stays handed out until the popheap. */
  lemma HandedStays(s: seq<Heap>, steps: seq<Step>, d: nat, b: int)
    requires Valid(s) && FreshRun(Push(s), steps) && Bracketed(0, steps, d) && Handed(s, b)
    ensures Handed(Run(Push(s), steps), b)
  {
    PushAbove(s);
    RunAbove(s, Push(s), 0, steps, d);
    var r := Run(Push(s), steps);
    var k :| 0 <= k < |s| && InUse(s[k], b);
    assert Extends(s[k], r[k], d);
    assert Marks(r[k]) && r[k].sp[d] <= r[k].used;
    assert InUse(r[k], b);
  }

  /** halloc hands out bytes that are not in use, and marks exactly them as used. */
  lemma HallocFresh(s: seq<Heap>, n: nat, at: int)
    requires Valid(s) && Fresh(s, Alloc(n, at))
    ensures var (r, p) := Halloc(s, n, at);
            (forall b :: p <= b < p + n ==> !Handed(s, b)) &&
            (forall b :: Handed(r, b) <==> Handed(s, b) || p <= b < p + n)
  {
    var (r, p) := Halloc(s, n, at);
    var k := Room(s, n);
    forall b | p <= b < p + n ensures !Handed(s, b) {
      forall j | 0 <= j < |s| ensures !InUse(s[j], b) {
        assert Marks(s[j]);
        if k < |s| {
          assert Marks(s[k]) && ARENA <= s[k].size;
          if j != k { assert Disjoint(s[if j < k then j else k], s[if j < k then k else j]); }
        }
      }
    }
    forall b ensures Handed(r, b) <==> Handed(s, b) || p <= b < p + n {
      if Handed(s, b) { var j :| 0 <= j < |s| && InUse(s[j], b); assert InUse(r[j], b); }
      if p <= b < p + n { assert InUse(r[k], b); }
      if Handed(r, b) {
        var j :| 0 <= j < |r| && InUse(r[j], b);
        if j < |s| && !(p <= b < p + n) { assert InUse(s[j], b); }
      }
    }
  }
}
