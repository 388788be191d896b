/** pushheap, freeheap, popheap and halloc of Src/mem.c on linked heap records. */
module HeapList {
  import opened HeapStack

  /** struct heap; the saved states are a list of marks. */
  class Node {
    var next: Node?
    var used: nat
    var sp: seq<nat>
    const at: int
    const size: nat

    constructor (at: int, size: nat, used: nat)
      ensures next == null && View() == Heap(at, size, used, [])
    {
      this.at, this.size, this.used := at, size, used;
      next, sp := null, [];
    }

    function View(): Heap
      reads this`used, this`sp
    {
      Heap(at, size, used, sp)
    }
  }

  ghost function After(list: seq<Node>, k: nat): Node? {
    if k < |list| then list[k] else null
  }

  ghost predicate NextAt(list: seq<Node>, k: nat)
    reads list`next
  {
    k < |list| ==> list[k].next == After(list, k + 1)
  }

  ghost predicate LinkedNodes(list: seq<Node>)
    reads list`next
  {
    forall k: nat {:trigger NextAt(list, k)} :: NextAt(list, k)
  }

  ghost predicate Distinct(list: seq<Node>) {
    forall j, k :: 0 <= j < k < |list| ==> list[j] != list[k]
  }

  ghost function Views(list: seq<Node>): (r: seq<Heap>)
    reads list
    ensures |r| == |list| && forall k :: 0 <= k < |list| ==> r[k] == list[k].View()
  {
    seq(|list|, k requires 0 <= k < |list| reads list => list[k].View())
  }

  /** The first k heaps have lost their latest mark. */
  ghost predicate SweptTo(list: seq<Node>, was: seq<Heap>, k: nat)
    reads list`used, list`sp
  {
    |was| == |list| && k <= |list| &&
    (forall j :: 0 <= j < k ==> list[j].View() == Popped(was[j])) &&
    (forall j :: k <= j < |list| ==> list[j].View() == was[j])
  }

  /** Of the first k heaps, the n first have marks. */
  ghost predicate MarkedTo(was: seq<Heap>, n: nat, k: nat) {
    n <= k <= |was| && (n > 0 ==> was[n - 1].sp != []) && (n < k ==> was[n].sp == [])
  }

  ghost predicate FreedFrom(list: seq<Node>, freed: seq<Node>, n: nat, k: nat) {
    n <= k <= |list| && freed == list[n..k]
  }

  lemma SweepStart(list: seq<Node>)
    ensures SweptTo(list, Views(list), 0) && MarkedTo(Views(list), 0, 0) && FreedFrom(list, [], 0, 0)
  {}

  lemma SweepEnd(was: seq<Heap>, list: seq<Node>, freed: seq<Node>, n: nat)
    requires Descending(was) && MarkedTo(was, n, |list|) && |was| == |list| && FreedFrom(list, freed, n, |list|)
    ensures Saved(was) == n && freed == list[n..]
  {
    SavedIs(was, n);
  }

  lemma MarkedNext(was: seq<Heap>, n: nat, k: nat)
    requires Descending(was) && MarkedTo(was, n, k) && k < |was|
    ensures was[k].sp != [] ==> n == k && MarkedTo(was, k + 1, k + 1)
    ensures was[k].sp == [] ==> MarkedTo(was, n, k + 1)
  {
    if n < k { Deeper(was, n, k); }
  }

  lemma FreedNext(list: seq<Node>, freed: seq<Node>, n: nat, k: nat)
    requires FreedFrom(list, freed, n, k) && k < |list|
    ensures FreedFrom(list, freed + [list[k]], n, k + 1) && (n == k ==> FreedFrom(list, freed, k + 1, k + 1))
  {}

  class Heaps {
    var heaps: Node?
    ghost var list: seq<Node>

    ghost predicate Linked()
      reads this, list`next
    {
      Distinct(list) && LinkedNodes(list) && heaps == After(list, 0)
    }

    constructor ()
      ensures Linked() && list == []
    {
      heaps, list := null, [];
    }

    method Pushheap()
      requires Linked()
      modifies list`sp
      ensures Linked() && Views(list) == Push(old(Views(list)))
    {
      var h := heaps;
      ghost var k := 0;
      while h != null
        invariant k <= |list| && h == After(list, k) && LinkedNodes(list)
        invariant forall j :: 0 <= j < k ==>
          list[j].View() == old(list[j].View()).(sp := [old(list[j].used)] + old(list[j].sp))
        invariant forall j :: k <= j < |list| ==> list[j].View() == old(list[j].View())
        decreases |list| - k
      {
        assert NextAt(list, k);
        h.sp := [h.used] + h.sp;
        h := h.next;
        k := k + 1;
      }
    }

    method Freeheap()
      requires Linked()
      modifies list`used
      ensures Linked() && Views(list) == Free(old(Views(list)))
    {
      var h := heaps;
      ghost var k := 0;
      while h != null
        invariant k <= |list| && h == After(list, k) && LinkedNodes(list)
        invariant forall j :: 0 <= j < k ==> list[j].View() == Reset(old(list[j].View()))
        invariant forall j :: k <= j < |list| ==> list[j].View() == old(list[j].View())
        decreases |list| - k
      {
        assert NextAt(list, k);
        h.used := if h.sp != [] then h.sp[0] else 0;
        h := h.next;
        k := k + 1;
      }
    }

    /** The loop of popheap: marks are taken off, heaps without one are freed, and
        the last one with a mark is found. */
    method Sweep() returns (hl: Node?, freed: seq<Node>, ghost n: nat)
      requires Linked() && Descending(Views(list))
      modifies list`used, list`sp
      ensures n <= |list| && hl == (if n == 0 then null else list[n - 1])
      ensures Saved(old(Views(list))) == n && freed == list[n..]
      ensures SweptTo(list, old(Views(list)), |list|)
    {
      hide Saved, Descending, MarkedTo, SweptTo;
      freed, n := [], 0;
      ghost var was := Views(list);
      SweepStart(list);
      hide Views, FreedFrom;
      var h := heaps;
      hl := null;
      ghost var k := 0;
      while h != null
        invariant k <= |list| && h == After(list, k)
        invariant n <= k && hl == (if n == 0 then null else list[n - 1])
        invariant FreedFrom(list, freed, n, k) && MarkedTo(was, n, k) && SweptTo(list, was, k)
        decreases |list| - k
      {
        assert NextAt(list, k);
        MarkedNext(was, n, k);
        FreedNext(list, freed, n, k);
        var hn := h.next;
        var saved := PopOne(h, was, k);
        if saved {
          hl := h;
          n := k + 1;
        } else {
          freed := freed + [h];
        }
        h := hn;
        k := k + 1;
      }
      SweepEnd(was, list, freed, n);
    }

    method PopOne(h: Node, ghost was: seq<Heap>, ghost k: nat) returns (saved: bool)
      requires Distinct(list) && SweptTo(list, was, k) && k < |list| && h == list[k]
      modifies h`used, h`sp
      ensures SweptTo(list, was, k + 1) && (saved <==> was[k].sp != [])
    {
      assert h.View() == was[k];
      saved := h.sp != [];
      if saved { h.used, h.sp := h.sp[0], h.sp[1..]; }
    }

    method CutAt(hl: Node?, ghost n: nat)
      requires Linked() && n <= |list| && hl == (if n == 0 then null else list[n - 1])
      modifies this, list`next
      ensures Linked() && list == old(list)[..n]
    {
      label Swept:
      if hl != null { hl.next := null; } else { heaps := null; }
      forall k: nat | k + 1 < n ensures NextAt(list, k) { assert old@Swept(NextAt(list, k)); }
      CutLinks(list, n, hl);
      list := list[..n];
    }

    /** Heaps without a saved mark are freed; the last one with a mark ends the list.
        No heap that stays on the list is freed. */
    method Popheap() returns (freed: seq<Node>)
      requires Linked() && Valid(Views(list))
      modifies this, list
      ensures Linked() && Views(list) == Pop(old(Views(list)))
      ensures list + freed == old(list)
    {
      hide Linked, Saved, Descending, Valid, SweptTo, Views, Pop;
      Deep(Views(list));
      ghost var was := Views(list);
      var hl;
      ghost var n;
      hl, freed, n := Sweep();
      assert list[..n] + freed == list;
      CutAt(hl, n);
      PoppedViews(old(list), was, n);
    }

    /** The first heap with room, and the one before it. */
    method FindRoom(size: nat) returns (h: Node?, hp: Node?, ghost k: nat)
      requires Linked()
      ensures k == Room(Views(list), size) && k <= |list| && h == After(list, k)
      ensures hp == (if k == 0 then null else list[k - 1])
    {
      h, hp, k := heaps, null, 0;
      ghost var was := Views(list);
      while h != null && !(ARENA >= size + h.used)
        invariant k <= |list| && h == After(list, k) && hp == (if k == 0 then null else list[k - 1])
        invariant forall j :: 0 <= j < k ==> size + was[j].used > ARENA
        decreases |list| - k
      {
        assert NextAt(list, k);
        hp, h := h, h.next;
        k := k + 1;
      }
      RoomIs(was, size, k);
    }

    method AddHeap(hp: Node?, at: int, size: nat)
      requires Linked() && hp == (if list == [] then null else list[|list| - 1])
      modifies this, list
      ensures Linked() && Views(list) == old(Views(list)) + [Heap(at, if ARENA > size then ARENA else size, size, [])]
    {
      label Before:
      var h := new Node(at, if ARENA > size then ARENA else size, size);
      ghost var was := list;
      if hp != null { hp.next := h; } else { heaps := h; }
      list := list + [h];
      forall k: nat ensures NextAt(list, k) { assert old@Before(NextAt(was, k)); }
    }

    /** halloc; `at` is where malloc puts a new heap. */
    method Halloc(bytes: nat, at: int) returns (p: int)
      requires Linked()
      modifies this, list
      ensures Linked() && (Views(list), p) == HeapStack.Halloc(old(Views(list)), Round(bytes), at)
    {
      hide Room, Round, Linked;
      var size := Round(bytes);
      var h, hp;
      ghost var k;
      h, hp, k := FindRoom(size);
      if h != null {
        UseRoom(h, size, k);
        return h.at + h.used - size;
      }
      AddHeap(hp, at, size);
      return at;
    }

    method UseRoom(h: Node, size: nat, ghost k: nat)
      requires Linked() && k < |list| && h == list[k]
      modifies h`used
      ensures Linked() && h.used == old(h.used) + size
      ensures Views(list) == old(Views(list))[k := old(Views(list))[k].(used := old(h.used) + size)]
    {
      h.used := size + h.used;
    }
  }

  lemma SavedIs(s: seq<Heap>, n: nat)
    requires Descending(s) && n <= |s| && (n > 0 ==> s[n - 1].sp != []) && (n < |s| ==> s[n].sp == [])
    ensures Saved(s) == n
  {
    hide Saved, Descending;
    forall k | n < k < |s| ensures s[k].sp == [] { Deeper(s, n, k); }
  }

  lemma Deeper(s: seq<Heap>, j: nat, k: nat)
    requires Descending(s) && j < k < |s|
    ensures |s[k].sp| <= |s[j].sp|
  {}

  lemma RoomIs(s: seq<Heap>, n: nat, k: nat)
    requires k <= |s| && (k < |s| ==> n + s[k].used <= ARENA) && forall j :: 0 <= j < k ==> n + s[j].used > ARENA
    ensures Room(s, n) == k
  {}

  lemma CutLinks(list: seq<Node>, n: nat, hl: Node?)
    requires Distinct(list) && n <= |list| && (n == 0 <==> hl == null) &&
      (n > 0 ==> hl == list[n - 1] && hl.next == null)
    requires forall k: nat {:trigger NextAt(list, k)} :: k + 1 < n ==> NextAt(list, k)
    ensures LinkedNodes(list[..n]) && Distinct(list[..n])
  {
    var cut := list[..n];
    forall k: nat ensures NextAt(cut, k) { assert k + 1 < n ==> NextAt(list, k); }
  }

  lemma PoppedViews(list: seq<Node>, was: seq<Heap>, n: nat)
    requires SweptTo(list, was, |list|) && n == Saved(was)
    ensures n <= |list| && Views(list[..n]) == Pop(was)
  {
    hide Saved;
  }

  lemma Deep(s: seq<Heap>)
    requires Valid(s)
    ensures Descending(s)
  {}
}
