/** The small blocks of Src/mem.c: arrays of fifty equal slots, each array in one
    block of the segment allocator, one list of arrays for each slot size. */
module MemSmall {
  import opened MemSegments
  import opened MemAllocator
  import opened MemTheorems

  /** M_SNUM and M_NSMALL. */
  const SNUM := 50
  const NSMALL := 8

  /** M_SBLEN: the size of a block for an array of slots of s words. */
  function Sblen(s: int): int {
    s * SNUM + 3
  }

  /** M_BSLEN: the slot size, from the length of the block. */
  function Bslen(len: int): int {
    (len - 3) / SNUM
  }

  /** The header of an array: its free slots in list order, and the count of used ones. */
  datatype Hdr = Hdr(free: seq<int>, used: int)

  /** Slot number q of the array at t. */
  function Slot(t: int, s: int, q: int): int {
    t + 4 + q * s
  }

  function Slots(t: int, s: int, n: nat): (r: set<int>) {
    set q | 0 <= q < n :: Slot(t, s, q)
  }

  ghost predicate NoDup(s: seq<int>) {
    forall j, k :: 0 <= j < k < |s| ==> s[j] != s[k]
  }

  function Elements(s: seq<int>): set<int> {
    set x | x in s
  }

  /** An array of slots of s words at t. */
  ghost predicate ArrayAt(tiles: Tiles, used: set<int>, t: int, s: int, h: Hdr) {
    t in used && t in tiles && 1 <= s < NSMALL && Sblen(s) <= tiles[t] <= Sblen(s) + MIN &&
    NoDup(h.free) && Elements(h.free) <= Slots(t, s, SNUM) && h.used + |h.free| == SNUM && h.used >= 1
  }

  /** Arrays with free slots come before those without. */
  ghost predicate RoomFirst(list: seq<int>, hdr: map<int, Hdr>) {
    forall j, k :: 0 <= j < k < |list| && list[j] in hdr && list[k] in hdr && hdr[list[k]].free != [] ==>
    hdr[list[j]].free != []
  }

  /** The lists, one for each slot size, and the headers of the arrays on them. */
  ghost predicate Lists(small: seq<seq<int>>, hdr: map<int, Hdr>, tiles: Tiles, used: set<int>) {
    |small| == NSMALL &&
    (forall s, k :: 0 <= s < NSMALL && 0 <= k < |small[s]| ==>
     small[s][k] in hdr && ArrayAt(tiles, used, small[s][k], s, hdr[small[s][k]])) &&
    (forall s :: 0 <= s < NSMALL ==> NoDup(small[s]) && RoomFirst(small[s], hdr)) &&
    (forall t :: t in hdr ==> Listed(small, t))
  }

  ghost predicate Listed(small: seq<seq<int>>, t: int) {
    exists s :: 0 <= s < |small| && t in small[s]
  }

  /** A block that malloc returned and that was not freed: n words from p on. */
  ghost predicate Live(hdr: map<int, Hdr>, tiles: Tiles, used: set<int>, p: int, n: int) {
    (exists t :: BusySlot(hdr, tiles, t, p, n)) ||
    (p - 1 in used && p - 1 !in hdr && p - 1 in tiles && n == tiles[p - 1])
  }

  ghost predicate BusySlot(hdr: map<int, Hdr>, tiles: Tiles, t: int, p: int, n: int) {
    t in hdr && t in tiles && n == Bslen(tiles[t]) && p in Slots(t, n, SNUM) && p !in hdr[t].free
  }

  /** The slot size is recovered from the length of the block, with whatever the
      segment allocator added to it. */
  lemma SlotSize(s: int, len: int)
    requires Sblen(s) <= len
    ensures Bslen(len) == s <==> len < Sblen(s) + SNUM
  {}

  /** A slot lies inside its block. */
  lemma SlotInside(tiles: Tiles, used: set<int>, t: int, s: int, h: Hdr, p: int)
    requires ArrayAt(tiles, used, t, s, h) && p in Slots(t, s, SNUM)
    ensures t + 4 <= p && p + s <= End(tiles, t)
  {
    var q :| 0 <= q < SNUM && p == Slot(t, s, q);
    assert 0 <= q * s <= (SNUM - 1) * s;
  }

  lemma Stretch(q: int, q': int, s: int)
    requires q < q' && s >= 0
    ensures q * s + s <= q' * s
  {
    var d := q' - q - 1;
    assert q' * s == q * s + s + d * s;
    assert d * s >= 0;
  }

  /** Two slots of one array do not overlap. */
  lemma SlotsApart(t: int, s: int, p: int, p': int)
    requires s >= 1 && p in Slots(t, s, SNUM) && p' in Slots(t, s, SNUM) && p != p'
    ensures p + s <= p' || p' + s <= p
  {
    var q :| 0 <= q < SNUM && p == Slot(t, s, q);
    var q' :| 0 <= q' < SNUM && p' == Slot(t, s, q');
    if q < q' { Stretch(q, q', s); } else { Stretch(q', q, s); }
  }

  /** Blocks handed out do not overlap, whatever their kind; they lie in blocks of
      the segment allocator that are in use. */
  lemma LiveApart(a: Segments, small: seq<seq<int>>, hdr: map<int, Hdr>, p: int, n: int, p': int, n': int)
    requires a.Valid() && Lists(small, hdr, a.tiles, a.used)
    requires Live(hdr, a.tiles, a.used, p, n) && Live(hdr, a.tiles, a.used, p', n')
    ensures (p == p' && n == n') || p + n <= p' || p' + n' <= p
  {
    var t := Host(a, small, hdr, p, n);
    var t' := Host(a, small, hdr, p', n');
    if t != t' {
      TilesApart(a, t, t');
    } else if t in hdr {
      if p != p' { SlotsApart(t, n, p, p'); }
    }
  }

  lemma TilesApart(a: Segments, t: int, t': int)
    requires a.Valid() && t in a.tiles && t' in a.tiles && t != t'
    ensures End(a.tiles, t) <= t' || End(a.tiles, t') <= t
  {
    Apart(a.tiles, a.low, |a.mem|, t, t');
  }

  /** The block of the segment allocator that a live block lies in. */
  lemma HostOf(small: seq<seq<int>>, hdr: map<int, Hdr>, tiles: Tiles, used: set<int>, p: int, n: int) returns (t: int)
    requires Lists(small, hdr, tiles, used) && Live(hdr, tiles, used, p, n)
    ensures t in used && t in tiles && t < p && p + n <= End(tiles, t)
    ensures t in hdr ==> BusySlot(hdr, tiles, t, p, n) && n >= 1
    ensures t !in hdr ==> p == t + 1 && n == tiles[t]
  {
    if t' :| BusySlot(hdr, tiles, t', p, n) {
      t := t';
      var s := ClassOf(small, hdr, tiles, used, t);
      SlotSize(s, tiles[t]);
      SlotInside(tiles, used, t, s, hdr[t], p);
    } else {
      t := p - 1;
    }
  }

  lemma Host(a: Segments, small: seq<seq<int>>, hdr: map<int, Hdr>, p: int, n: int) returns (t: int)
    requires a.Valid() && Lists(small, hdr, a.tiles, a.used) && Live(hdr, a.tiles, a.used, p, n)
    ensures t in a.used && t in a.tiles && t < p && p + n <= End(a.tiles, t) && n >= 1
    ensures t in hdr ==> BusySlot(hdr, a.tiles, t, p, n)
    ensures t !in hdr ==> p == t + 1 && n == a.tiles[t]
  {
    hide Segments.Valid;
    t := HostOf(small, hdr, a.tiles, a.used, p, n);
    UsedTile(a, t);
  }

  lemma ClassOf(small: seq<seq<int>>, hdr: map<int, Hdr>, tiles: Tiles, used: set<int>, t: int) returns (s: int)
    requires Lists(small, hdr, tiles, used) && t in hdr
    ensures 1 <= s < NSMALL && t in small[s] && ArrayAt(tiles, used, t, s, hdr[t]) && Bslen(tiles[t]) == s
  {
    assert Listed(small, t);
    s :| 0 <= s < |small| && t in small[s];
    var k :| 0 <= k < |small[s]| && small[s][k] == t;
    assert ArrayAt(tiles, used, small[s][k], s, hdr[small[s][k]]);
    SlotSize(s, tiles[t]);
  }

  // ----- Counting slots -----

  lemma {:induction false} SlotsCount(t: int, s: int, n: nat)
    requires s >= 1
    ensures |Slots(t, s, n)| == n
  {
    if n > 0 {
      SlotsCount(t, s, n - 1);
      var x := Slot(t, s, n - 1);
      forall q | 0 <= q < n - 1 ensures Slot(t, s, q) != x { Stretch(q, n - 1, s); }
      assert Slots(t, s, n) == Slots(t, s, n - 1) + {x};
    } else {
      assert Slots(t, s, 0) == {};
    }
  }

  lemma {:induction false} NoDupCount(f: seq<int>)
    requires NoDup(f)
    ensures |Elements(f)| == |f|
  {
    if f != [] {
      NoDupCount(f[1..]);
      assert f[0] !in f[1..];
      assert Elements(f) == {f[0]} + Elements(f[1..]);
    }
  }

  /** With fifty free slots, every slot is free. */
  lemma AllFree(t: int, s: int, f: seq<int>)
    requires s >= 1 && NoDup(f) && Elements(f) <= Slots(t, s, SNUM) && |f| == SNUM
    ensures Elements(f) == Slots(t, s, SNUM)
  {
    SlotsCount(t, s, SNUM);
    NoDupCount(f);
    SameSize(Elements(f), Slots(t, s, SNUM));
  }

  lemma SameSize(a: set<int>, b: set<int>)
    requires a <= b && |a| == |b|
    ensures a == b
  {
    var d := b - a;
    assert b == a + d && |a + d| == |a| + |d|;
    assert d == {};
  }

  // ----- Changing one list -----

  /** Blocks in use stay as they are. */
  ghost predicate Stays(tiles: Tiles, used: set<int>, tiles': Tiles, used': set<int>) {
    forall t :: t in used && t in tiles ==> t in used' && t in tiles' && tiles'[t] == tiles[t]
  }

  lemma Update(small: seq<seq<int>>, hdr: map<int, Hdr>, tiles: Tiles, used: set<int>, s: int,
               list: seq<int>, hdr': map<int, Hdr>, tiles': Tiles, used': set<int>)
    requires Lists(small, hdr, tiles, used) && 0 <= s < NSMALL && NoDup(list) && RoomFirst(list, hdr')
    requires forall k :: 0 <= k < |list| ==> list[k] in hdr' && ArrayAt(tiles', used', list[k], s, hdr'[list[k]])
    requires forall t :: t in hdr && t !in small[s] ==>
      t in hdr' && hdr'[t] == hdr[t] && t in used' && t in tiles' && t in tiles && tiles'[t] == tiles[t]
    requires forall t :: t in hdr' ==> t in list || (t in hdr && t !in small[s])
    ensures Lists(small[s := list], hdr', tiles', used')
  {
    var small' := small[s := list];
    forall r, k | 0 <= r < NSMALL && 0 <= k < |small'[r]|
      ensures small'[r][k] in hdr' && ArrayAt(tiles', used', small'[r][k], r, hdr'[small'[r][k]])
    {
      if r != s { OtherList(small, hdr, tiles, used, s, r, k); }
    }
    forall r | 0 <= r < NSMALL ensures NoDup(small'[r]) && RoomFirst(small'[r], hdr') {
      if r != s {
        forall k | 0 <= k < |small[r]| ensures small[r][k] in hdr && hdr'[small[r][k]] == hdr[small[r][k]] {
          OtherList(small, hdr, tiles, used, s, r, k);
        }
      }
    }
    forall t | t in hdr' ensures Listed(small', t) {
      if t in list {
        assert t in small'[s];
      } else {
        assert Listed(small, t);
        var r :| 0 <= r < |small| && t in small[r];
        assert t in small'[r];
      }
    }
  }

  lemma OtherList(small: seq<seq<int>>, hdr: map<int, Hdr>, tiles: Tiles, used: set<int>, s: int, r: int, k: int)
    requires Lists(small, hdr, tiles, used) && 0 <= s < NSMALL && 0 <= r < NSMALL && r != s && 0 <= k < |small[r]|
    ensures small[r][k] !in small[s] && small[r][k] in hdr && ArrayAt(tiles, used, small[r][k], r, hdr[small[r][k]])
  {
    var t := small[r][k];
    assert ArrayAt(tiles, used, t, r, hdr[t]);
    SlotSize(r, tiles[t]);
    forall j | 0 <= j < |small[s]| ensures small[s][j] != t {
      var u := small[s][j];
      assert ArrayAt(tiles, used, u, s, hdr[u]);
      SlotSize(s, tiles[u]);
    }
  }

  /** More blocks are handed out by the segment allocator. */
  lemma ListsStay(small: seq<seq<int>>, hdr: map<int, Hdr>, tiles: Tiles, used: set<int>, tiles': Tiles,
                  used': set<int>)
    requires Lists(small, hdr, tiles, used) && Stays(tiles, used, tiles', used')
    ensures Lists(small, hdr, tiles', used')
  {
    forall s, k | 0 <= s < NSMALL && 0 <= k < |small[s]|
      ensures small[s][k] in hdr && ArrayAt(tiles', used', small[s][k], s, hdr[small[s][k]])
    {
      assert ArrayAt(tiles, used, small[s][k], s, hdr[small[s][k]]);
    }
  }

  /** The header of the array at t changes, and its place on the list. */
  lemma Reheader(small: seq<seq<int>>, hdr: map<int, Hdr>, tiles: Tiles, used: set<int>, s: int, t: int, h: Hdr,
                 list: seq<int>)
    requires Lists(small, hdr, tiles, used) && 0 <= s < NSMALL && t in small[s] && ArrayAt(tiles, used, t, s, h)
    requires (forall x :: x in list <==> x in small[s]) && NoDup(list) && RoomFirst(list, hdr[t := h])
    ensures Lists(small[s := list], hdr[t := h], tiles, used)
  {
    forall k | 0 <= k < |list| ensures list[k] in hdr && ArrayAt(tiles, used, list[k], s, hdr[t := h][list[k]]) {
      assert list[k] in small[s];
      var j :| 0 <= j < |small[s]| && small[s][j] == list[k];
      assert ArrayAt(tiles, used, small[s][j], s, hdr[list[k]]);
    }
    forall x | x in hdr && x !in small[s] ensures x in used && x in tiles {
      var r := ClassOf(small, hdr, tiles, used, x);
    }
    Update(small, hdr, tiles, used, s, list, hdr[t := h], tiles, used);
  }

  // ----- The lists -----

  function Without(list: seq<int>, k: nat): seq<int>
    requires k < |list|
  {
    list[..k] + list[k + 1..]
  }

  lemma WithoutNoDup(list: seq<int>, k: nat)
    requires NoDup(list) && k < |list|
    ensures NoDup(Without(list, k)) && NoDup(Without(list, k) + [list[k]]) && NoDup([list[k]] + Without(list, k))
    ensures forall x :: x in Without(list, k) <==> x in list && x != list[k]
  {
    var w := Without(list, k);
    forall j | 0 <= j < |w| ensures w[j] == list[if j < k then j else j + 1] && w[j] != list[k] {}
    forall x | x in list && x != list[k] ensures x in w {
      var j :| 0 <= j < |list| && list[j] == x;
      assert w[if j < k then j else j - 1] == x;
    }
    var e, f := w + [list[k]], [list[k]] + w;
    forall i, j | 0 <= i < j < |e| ensures e[i] != e[j] {}
    forall i, j | 0 <= i < j < |f| ensures f[i] != f[j] {}
  }

  lemma WithoutRoom(list: seq<int>, k: nat, hdr: map<int, Hdr>, hdr': map<int, Hdr>)
    requires RoomFirst(list, hdr) && k < |list| && forall x :: x in list ==> x in hdr
    requires forall x :: x in list && x != list[k] ==> x in hdr' && hdr'[x] == hdr[x]
    requires NoDup(list)
    ensures RoomFirst(Without(list, k), hdr')
    ensures list[k] in hdr' && hdr'[list[k]].free == [] ==> RoomFirst(Without(list, k) + [list[k]], hdr')
    ensures list[k] in hdr' && hdr'[list[k]].free != [] ==> RoomFirst([list[k]] + Without(list, k), hdr')
  {
    var w := Without(list, k);
    forall j | 0 <= j < |w| ensures w[j] == list[if j < k then j else j + 1] && w[j] in list && w[j] != list[k] {}
    forall i, j | 0 <= i < j < |w| && w[i] in hdr' && w[j] in hdr' && hdr'[w[j]].free != []
      ensures hdr'[w[i]].free != []
    {
      var i', j' := if i < k then i else i + 1, if j < k then j else j + 1;
      assert list[i'] == w[i] && list[j'] == w[j];
    }
  }

  // ----- What the operations do to the live blocks -----

  /** The first slot on the free list of the array at t is taken. */
  function Take(h: Hdr): Hdr
    requires h.free != []
  {
    Hdr(h.free[1..], h.used + 1)
  }

  /** Slot p goes to the front of the free list. */
  function Give(h: Hdr, p: int): Hdr {
    Hdr([p] + h.free, h.used - 1)
  }

  lemma TakeArray(tiles: Tiles, used: set<int>, t: int, s: int, h: Hdr)
    requires ArrayAt(tiles, used, t, s, h) && h.free != []
    ensures ArrayAt(tiles, used, t, s, Take(h)) && h.free[0] in Slots(t, s, SNUM) && h.free[0] !in Take(h).free
    ensures forall x :: x in h.free <==> x in Take(h).free || x == h.free[0]
  {
    var f := h.free[1..];
    assert h.free[0] in Elements(h.free);
    forall x | x in f ensures x in h.free { var j :| 0 <= j < |f| && f[j] == x; assert h.free[j + 1] == x; }
    assert Elements(f) <= Elements(h.free);
    forall x | x in h.free ensures x in f || x == h.free[0] {
      var j :| 0 <= j < |h.free| && h.free[j] == x;
      if j > 0 { assert f[j - 1] == x; }
    }
  }

  lemma GiveArray(tiles: Tiles, used: set<int>, t: int, s: int, h: Hdr, p: int)
    requires ArrayAt(tiles, used, t, s, h) && p in Slots(t, s, SNUM) && p !in h.free && h.used >= 2
    ensures ArrayAt(tiles, used, t, s, Give(h, p))
  {
    var f := [p] + h.free;
    forall j, k | 0 <= j < k < |f| ensures f[j] != f[k] { assert f[k] == h.free[k - 1]; }
    assert Elements(f) == {p} + Elements(h.free);
  }

  /** Taking a slot adds it to the live blocks. */
  lemma TakeLive(hdr: map<int, Hdr>, tiles: Tiles, used: set<int>, t: int, s: int, p: int, n: int)
    requires t in hdr && ArrayAt(tiles, used, t, s, hdr[t]) && hdr[t].free != []
    ensures Live(hdr[t := Take(hdr[t])], tiles, used, p, n) <==>
      Live(hdr, tiles, used, p, n) || (p == hdr[t].free[0] && n == s)
  {
    var hdr' := hdr[t := Take(hdr[t])];
    TakeArray(tiles, used, t, s, hdr[t]);
    SlotSize(s, tiles[t]);
    hide ArrayAt, Slots;
    forall u
      ensures BusySlot(hdr', tiles, u, p, n) <==>
        BusySlot(hdr, tiles, u, p, n) || (u == t && p == hdr[t].free[0] && n == s)
    {}
    if p == hdr[t].free[0] && n == s { assert BusySlot(hdr', tiles, t, p, n); }
  }

  /** Giving a slot back removes it from the live blocks, and nothing else. */
  lemma GiveLive(a: Segments, small: seq<seq<int>>, hdr: map<int, Hdr>, t: int, s: int, x: int, p: int, n: int)
    requires a.Valid() && Lists(small, hdr, a.tiles, a.used) && t in hdr && BusySlot(hdr, a.tiles, t, x, s)
    ensures Live(hdr[t := Give(hdr[t], x)], a.tiles, a.used, p, n) <==> Live(hdr, a.tiles, a.used, p, n) && p != x
  {
    var hdr' := hdr[t := Give(hdr[t], x)];
    OnlyHere(a, small, hdr, t, s, x, n);
    hide Segments.Valid, Lists, Slots;
    assert forall y :: y in hdr'[t].free <==> y == x || y in hdr[t].free;
    forall u ensures BusySlot(hdr', a.tiles, u, p, n) <==> BusySlot(hdr, a.tiles, u, p, n) && (u != t || p != x) {}
  }

  /** A slot is live in its own array only. */
  lemma OnlyHere(a: Segments, small: seq<seq<int>>, hdr: map<int, Hdr>, t: int, s: int, x: int, n: int)
    requires a.Valid() && Lists(small, hdr, a.tiles, a.used) && t in hdr && BusySlot(hdr, a.tiles, t, x, s)
    ensures x - 1 !in a.used && forall u :: BusySlot(hdr, a.tiles, u, x, n) ==> u == t
  {
    var r := ClassOf(small, hdr, a.tiles, a.used, t);
    SlotInside(a.tiles, a.used, t, r, hdr[t], x);
    if x - 1 in a.used { UsedTile(a, x - 1); TilesApart(a, t, x - 1); }
    forall u | BusySlot(hdr, a.tiles, u, x, n) ensures u == t {
      var r' := ClassOf(small, hdr, a.tiles, a.used, u);
      SlotInside(a.tiles, a.used, u, r', hdr[u], x);
      if u != t { TilesApart(a, t, u); }
    }
  }

  lemma UsedTile(a: Segments, t: int)
    requires a.Valid() && t in a.used
    ensures t in a.tiles && a.tiles[t] >= 1 && t > 0
  {}

  /** When the last used slot is given back, no slot of the array is live. */
  lemma LastSlot(tiles: Tiles, used: set<int>, hdr: map<int, Hdr>, t: int, s: int, x: int, p: int, n: int)
    requires t in hdr && ArrayAt(tiles, used, t, s, hdr[t]) && hdr[t].used == 1 && BusySlot(hdr, tiles, t, x, s)
    ensures BusySlot(hdr, tiles, t, p, n) <==> p == x && n == s
  {
    var f := [x] + hdr[t].free;
    SlotSize(s, tiles[t]);
    forall j, k | 0 <= j < k < |f| ensures f[j] != f[k] { assert f[k] == hdr[t].free[k - 1]; }
    assert Elements(f) == {x} + Elements(hdr[t].free);
    AllFree(t, s, f);
    if BusySlot(hdr, tiles, t, p, n) { assert p in Elements(f); }
  }

  /** Without the array at t, its slots are not live; nor is its block. */
  lemma DropLive(a: Segments, small: seq<seq<int>>, hdr: map<int, Hdr>, t: int, s: int, x: int, tiles': Tiles,
                 used': set<int>, p: int, n: int)
    requires a.Valid() && Lists(small, hdr, a.tiles, a.used) && t in hdr && ArrayAt(a.tiles, a.used, t, s, hdr[t])
    requires hdr[t].used == 1 && BusySlot(hdr, a.tiles, t, x, s)
    requires used' == a.used - {t} && forall u :: u in used' ==> u in a.tiles && u in tiles' && tiles'[u] == a.tiles[u]
    ensures Live(hdr - {t}, tiles', used', p, n) <==> Live(hdr, a.tiles, a.used, p, n) && p != x
  {
    OnlyHere(a, small, hdr, t, s, x, n);
    LastSlot(a.tiles, a.used, hdr, t, s, x, p, n);
    forall u | u in hdr ensures u in a.used && u in a.tiles { var r := ClassOf(small, hdr, a.tiles, a.used, u); }
    hide Segments.Valid, Lists, Slots, ArrayAt;
    forall u ensures BusySlot(hdr - {t}, tiles', u, p, n) <==> BusySlot(hdr, a.tiles, u, p, n) && u != t {}
  }
}
