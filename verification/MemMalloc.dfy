/** malloc, zfree and realloc of Src/mem.c: small blocks come from the arrays,
    all others from the segment allocator. */
module MemMalloc {
  import opened MemChains
  import opened MemSegments
  import opened MemAllocator
  import opened MemSmall

  /** p is in the block at t, which has len words. */
  ghost predicate Touches(t: int, len: int, p: int) {
    t <= p <= t + len
  }

  /** Word i of the block at p is word i of the block at r afterwards. */
  ghost predicate MovedWord(mem: seq<int>, p: int, mem': seq<int>, r: int, i: int) {
    0 <= p + i < |mem| && 0 <= r + i < |mem'| && mem'[r + i] == mem[p + i]
  }

  class Malloc {
    const a: Segments
    /** m_small: the lists of arrays, and the headers of the arrays. */
    var small: seq<seq<int>>
    var hdr: map<int, Hdr>

    ghost predicate Valid()
      reads this, a
    {
      a.Valid() && Lists(small, hdr, a.tiles, a.used)
    }

    ghost predicate IsLive(p: int, n: int)
      reads this, a
    {
      Live(hdr, a.tiles, a.used, p, n)
    }

    /** No live block starts at p. */
    ghost predicate Unused(p: int)
      reads this, a
    {
      forall n :: !IsLive(p, n)
    }

    constructor (a: Segments)
      requires a.Valid()
      ensures Valid() && this.a == a && hdr == map[]
    {
      this.a := a;
      small, hdr := seq(NSMALL, _ => []), map[];
    }

    /** The first array on the list with a free slot. */
    method FindRoom(s: int) returns (k: nat)
      requires Valid() && 1 <= s < NSMALL
      ensures k == 0 || k == |small[s]|
      ensures k < |small[s]| ==> small[s][k] in hdr && hdr[small[s][k]].free != []
    {
      k := 0;
      while k < |small[s]| && hdr[small[s][k]].free == []
        invariant k <= |small[s]|
        invariant forall j :: 0 <= j < k ==> small[s][j] in hdr && hdr[small[s][j]].free == []
      {
        k := k + 1;
      }
      assert RoomFirst(small[s], hdr) && (k > 0 ==> small[s][0] in hdr && hdr[small[s][0]].free == []);
    }

    /** A slot of array k of the list is handed out; an array that is full now
        goes to the end of the list. */
    method TakeSlot(s: int, k: nat) returns (p: int)
      requires Valid() && 1 <= s < NSMALL && k < |small[s]| && small[s][k] in hdr && hdr[small[s][k]].free != []
      modifies this
      ensures Valid()
      ensures forall x, n :: IsLive(x, n) <==> old(IsLive(x, n)) || (x == p && n == s)
      ensures p != 0 && old(Unused(p))
    {
      hide Live, Segments.Valid, Lists;
      UsedKept(this);
      var list, t := small[s], small[s][k];
      SlotFacts(this, s, k);
      p := hdr[t].free[0];
      hdr := hdr[t := Take(hdr[t])];
      if hdr[t].used == SNUM && k + 1 < |list| {
        small := small[s := Without(list, k) + [t]];
      }
    }

    /** A new array: its first slot is handed out, the others are linked. */
    method NewArray(s: int, granted: bool, fill: nat -> int) returns (p: int)
      requires Valid() && 1 <= s < NSMALL
      modifies this, a
      ensures Valid() && Kept(old(a.mem), old(a.tiles), a.mem, a.tiles, old(a.used))
      ensures p == 0 ==> forall x, n :: IsLive(x, n) <==> old(IsLive(x, n))
      ensures granted ==> p != 0
      ensures p != 0 ==> forall x, n :: IsLive(x, n) <==> old(IsLive(x, n)) || (x == p && n == s)
      ensures p != 0 ==> old(Unused(p))
    {
      hide Live, Segments.Valid, Lists, Kept;
      UsedKept(this);
      ghost var k;
      var b;
      label L: b, k := a.Obtain(Sblen(s), granted, fill);
      if b == 0 { return 0; }
      var t := b - 1;
      var free: seq<int> := [];
      var q := 1;
      while q < SNUM
        invariant 1 <= q <= SNUM && |free| == q - 1 && forall j :: 0 <= j < q - 1 ==> free[j] == Slot(t, s, j + 1)
      {
        free := free + [Slot(t, s, q)];
        q := q + 1;
      }
      NewFacts(this, old(a.tiles), old(a.used), old(a.held), old(a.mem), s, t, free, t + 4);
      hdr := hdr[t := Hdr(free, 1)];
      small := small[s := [t] + small[s]];
      p := t + 4;
    }

    /** malloc; sizes in words.  With size 0 the highest address is returned. */
    method Alloc(size: nat, granted: bool, fill: nat -> int) returns (p: int, ghost n: int)
      requires Valid()
      modifies this, a
      ensures Valid() && Kept(old(a.mem), old(a.tiles), a.mem, a.tiles, old(a.used))
      ensures size == 0 ==> p == a.m_high && n == 0
      ensures size == 0 || p == 0 ==> forall x, len :: IsLive(x, len) <==> old(IsLive(x, len))
      ensures size > 0 && granted ==> p != 0
      ensures size > 0 && p != 0 ==> n >= size && forall x, len :: IsLive(x, len) <==>
        old(IsLive(x, len)) || (x == p && len == n)
      ensures size > 0 && p != 0 ==> old(Unused(p))
    {
      hide Live, Segments.Valid, Lists, Kept;
      UsedKept(this);
      if size == 0 { return a.m_high, 0; }
      if size < NSMALL {
        var k := FindRoom(size);
        if k < |small[size]| {
          p := TakeSlot(size, k);
        } else {
          p := NewArray(size, granted, fill);
        }
        return p, size;
      }
      ghost var k;
      p, k := a.Obtain(size, granted, fill);
      if p != 0 { BigFacts(this, old(a.tiles), old(a.used), old(a.held), old(a.mem), p - 1, p); }
      n := if p == 0 then 0 else a.tiles[p - 1];
    }

    /** p is in the block of array k on list s. */
    ghost predicate Has(s: int, k: int, p: int)
      reads this, a
    {
      0 <= s < |small| && 0 <= k < |small[s]| && small[s][k] in a.tiles &&
      Touches(small[s][k], a.tiles[small[s][k]], p)
    }

    /** The array whose block p is in, if any, and there is only one.  The search starts with the list for
        `hint` words; if p is not in an array of that size, all lists are searched;
        a hint of NSMALL words or more says that p is not in an array. */
    method FindArray(p: int, hint: nat) returns (found: bool, s: int, k: nat)
      requires Valid()
      ensures found ==> Has(s, k, p) && forall r, j :: Has(r, j, p) <==> r == s && j == k
      ensures !found && hint < NSMALL ==> forall r, j :: !Has(r, j, p)
      ensures hint >= NSMALL ==> !found
    {
      UsedKept(this);
      ArrayTiles(this);
      hide Segments.Valid, Lists;
      found, s, k := false, 0, 0;
      if hint >= NSMALL { return; }
      var sz: nat := hint;
      s := hint;
      while s < NSMALL
        invariant 0 <= s <= NSMALL && (sz > 0 ==> s < NSMALL)
        invariant sz == 0 ==> forall r, j :: 0 <= r < s && 0 <= j < |small[r]| ==>
          !Touches(small[r][j], a.tiles[small[r][j]], p)
        decreases sz, NSMALL - s
      {
        k := 0;
        while k < |small[s]| && !(small[s][k] <= p <= small[s][k] + a.mem[small[s][k]])
          invariant k <= |small[s]|
          invariant forall j :: 0 <= j < k ==> !Touches(small[s][j], a.tiles[small[s][j]], p)
        {
          k := k + 1;
        }
        if k < |small[s]| {
          OnePlace(this, s, k, p);
          return true, s, k;
        }
        if sz != 0 {
          sz, s := 0, 0;
        } else {
          s := s + 1;
        }
      }
      k := 0;
    }

    /** The lists, headers and blocks in use after slot p of array k on list s was
        given back: the array comes first on its list, or is gone if it was the last. */
    ghost predicate Gave(lists: seq<seq<int>>, had: map<int, Hdr>, used: set<int>, s: int, k: int, p: int)
      reads this, a
    {
      0 <= s < |lists| && 0 <= k < |lists[s]| && lists[s][k] in had &&
      var t, others := lists[s][k], Without(lists[s], k);
      if had[t].used != 1 then
        small == lists[s := [t] + others] && hdr == had[t := Give(had[t], p)] && a.used == used
      else small == lists[s := others] && hdr == had - {t} && a.used == used - {t}
    }

    /** Slot p of array k on the list is given back. */
    method GiveSlot(s: int, k: nat, p: int)
      requires Valid() && 1 <= s < NSMALL && k < |small[s]| && small[s][k] in hdr &&
        BusySlot(hdr, a.tiles, small[s][k], p, s)
      modifies this, a
      ensures Valid() && Kept(old(a.mem), old(a.tiles), a.mem, a.tiles, a.used) && a.used <= old(a.used)
      ensures forall x, n :: IsLive(x, n) <==> old(IsLive(x, n)) && x != p
      ensures Gave(old(small), old(hdr), old(a.used), s, k, p)
      ensures old(hdr[small[s][k]].used) != 1 ==> a.mem == old(a.mem) && a.tiles == old(a.tiles) && a.fl == old(a.fl)
    {
      hide Live, Segments.Valid, Lists, Kept;
      UsedKept(this);
      var list, t := small[s], small[s][k];
      if hdr[t].used - 1 != 0 {
        GiveFacts(this, s, k, p);
        hdr := hdr[t := Give(hdr[t], p)];
        if k > 0 {
          small := small[s := [t] + Without(list, k)];
        } else {
          assert [t] + Without(list, k) == list && small[s := list] == small;
        }
      } else {
        EmptyFacts(this, s, k, p);
        hdr := hdr - {t};
        small := small[s := Without(list, k)];
        ghost var mem0, tiles0, used0, held0 := a.mem, a.tiles, a.used, a.held;
        a.Release(t + 1);
        ReleasedKept(mem0, tiles0, a.mem, a.tiles, a.held, a.used);
        DroppedFacts(this, tiles0, used0, t);
      }
    }

    /** zfree; n is the size of the live block p.  The hint is the size in words, or
        0 for "don't know".  Whatever it is below NSMALL, the lists, the headers and the
        blocks in use afterwards are the same. */
    method Free(p: int, hint: nat, ghost n: int)
      requires Valid()
      requires p == 0 || p < a.m_low || p > a.m_high || (IsLive(p, n) && (hint < NSMALL || p - 1 in a.used))
      modifies this, a
      ensures Valid()
      ensures old(IsLive(p, n)) ==> Kept(old(a.mem), old(a.tiles), a.mem, a.tiles, a.used) && a.used <= old(a.used)
      ensures old(IsLive(p, n)) ==> forall x, len :: IsLive(x, len) <==> old(IsLive(x, len)) && x != p
      ensures forall s, k :: old(IsLive(p, n)) && old(Has(s, k, p)) ==> Gave(old(small), old(hdr), old(a.used), s, k, p)
      ensures old(IsLive(p, n)) && (forall s, k :: !old(Has(s, k, p))) ==>
        small == old(small) && hdr == old(hdr) && a.used == old(a.used) - {p - 1}
      ensures !old(IsLive(p, n)) ==>
        small == old(small) && hdr == old(hdr) && a.mem == old(a.mem) && a.used == old(a.used) &&
        a.tiles == old(a.tiles)
    {
      hide Live, Segments.Valid, Lists, Kept;
      if IsLive(p, n) { InRange(this, p, n); }
      if p == 0 { return; }
      if p < a.m_low || p > a.m_high { return; }
      var found, s, k := FindArray(p, hint);
      assert forall r, j :: Has(r, j, p) <==> old(Has(r, j, p));
      if found {
        FoundFacts(this, p, n, s, k);
        GiveSlot(s, k, p);
      } else {
        BigFound(this, p, n, hint);
        UsedKept(this);
        ghost var mem0, tiles0, used0 := a.mem, a.tiles, a.used;
        a.Release(p);
        ReleasedKept(mem0, tiles0, a.mem, a.tiles, a.held, a.used);
        DroppedFacts(this, tiles0, used0, p - 1);
      }
    }

    /** The size of a live block, as realloc finds it. */
    method SizeOf(p: int, ghost n: int) returns (l: int)
      requires Valid() && IsLive(p, n)
      ensures l == n
    {
      hide Live, Segments.Valid, Lists;
      UsedKept(this);
      ArrayTiles(this);
      var found, s, k := FindArray(p, 0);
      if found {
        FoundFacts(this, p, n, s, k);
        l := Bslen(a.mem[small[s][k]]);
      } else {
        BigFound(this, p, n, 0);
        BigLength(this, p, n);
        l := a.mem[p - 1];
      }
    }

    /** realloc, while the system has memory to give: a new live block that starts
        with the words of the old one, as far as they fit; the old one is freed, and
        all others keep their words. */
    method Realloc(p: int, size: nat, fill: nat -> int, ghost n: int) returns (r: int, ghost len: int)
      requires Valid() && (p == 0 || IsLive(p, n))
      modifies this, a
      ensures Valid()
      ensures size == 0 ==> r == p && forall x, k :: IsLive(x, k) <==> old(IsLive(x, k))
      ensures size > 0 ==> r != 0 && r != p && len >= size && forall x, k :: IsLive(x, k) <==>
        (old(IsLive(x, k)) && x != p) || (x == r && k == len)
      ensures size > 0 && p != 0 ==> forall i :: 0 <= i < size && i < n ==> MovedWord(old(a.mem), p, a.mem, r, i)
      ensures forall x, k, w :: old(IsLive(x, k)) && x != p && x <= w < x + k ==> SameWord(old(a.mem), a.mem, w)
    {
      hide Live, Segments.Valid, Lists, Kept;
      UsedKept(this);
      LiveWords(a.mem, a.tiles, a.mem, a.tiles, small, hdr, a.tiles, a.used);
      if size == 0 { return p, n; }
      NullNotLive(this);
      ghost var mem0, tiles0, used0, hdr0, small0 := a.mem, a.tiles, a.used, hdr, small;
      if p == 0 {
        r, len := Alloc(size, true, fill);
        LiveWords(mem0, tiles0, a.mem, a.tiles, small0, hdr0, tiles0, used0);
        return;
      }
      var l := SizeOf(p, n);
      LiveBelow(this, p, n);
      r, len := Alloc(size, true, fill);
      LiveWords(mem0, tiles0, a.mem, a.tiles, small0, hdr0, tiles0, used0);
      ghost var mem1, tiles1, used1, hdr1 := a.mem, a.tiles, a.used, hdr;
      forall x, k | Live(hdr0, tiles0, used0, x, k) ensures Live(hdr1, tiles1, used1, x, k) && x != r {
        assert old(IsLive(x, k)) && IsLive(x, k);
      }
      label Grown:
      Replace(p, if size > l then l else size, r, n, len);
      forall x, k, w | Live(hdr0, tiles0, used0, x, k) && x != p && x <= w < x + k ensures SameWord(mem0, a.mem, w) {
        assert old@Grown(IsLive(x, k)) && x != r;
        assert SameWord(mem0, mem1, w) && SameWord(mem1, a.mem, w);
      }
      forall i | 0 <= i < size && i < n ensures MovedWord(mem0, p, a.mem, r, i) {
        assert SameWord(mem0, mem1, p + i) && MovedWord(mem1, p, a.mem, r, i);
      }
    }

    /** memcpy of cnt words from p to r, and free(p). */
    method Replace(p: int, cnt: nat, r: int, ghost n: int, ghost len: int)
      requires Valid() && IsLive(p, n) && IsLive(r, len) && r != p && cnt <= n && cnt <= len
      modifies this, a
      ensures Valid() && forall x, k :: IsLive(x, k) <==> old(IsLive(x, k)) && x != p
      ensures forall i :: 0 <= i < cnt ==> MovedWord(old(a.mem), p, a.mem, r, i)
      ensures forall x, k, w :: old(IsLive(x, k)) && x != p && x != r && x <= w < x + k ==>
        SameWord(old(a.mem), a.mem, w)
    {
      hide Live, Segments.Valid, Lists, Kept;
      ghost var mem1, tiles1, used1, hdr1, small1 := a.mem, a.tiles, a.used, hdr, small;
      ghost var t := Host(a, small, hdr, r, len);
      LiveApart(a, small, hdr, p, n, r, len);
      LiveBelow(this, p, n);
      OthersApart(this, r, len);
      a.Copy(r, p, cnt, t);
      ghost var mem2, tiles2 := a.mem, a.tiles;
      Free(p, 0, n);
      LiveWords(mem2, tiles2, a.mem, a.tiles, small, hdr, a.tiles, a.used);
      forall i | 0 <= i < cnt ensures MovedWord(mem1, p, a.mem, r, i) {
        assert mem2[r + i] == mem2[r..r + cnt][i];
        assert IsLive(r, len);
        assert SameWord(mem2, a.mem, r + i);
      }
      forall x, k, w | Live(hdr1, tiles1, used1, x, k) && x != p && x != r && x <= w < x + k
        ensures SameWord(mem1, a.mem, w)
      {
        assert old(IsLive(x, k)) && IsLive(x, k);
        assert SameWord(mem2, a.mem, w) && mem2[w] == mem1[w];
      }
    }
  }

  lemma SlotFacts(m: Malloc, s: int, k: nat)
    requires m.Valid() && 1 <= s < NSMALL && k < |m.small[s]| && m.small[s][k] in m.hdr &&
      m.hdr[m.small[s][k]].free != []
    ensures var list, t := m.small[s], m.small[s][k];
            var hdr' := m.hdr[t := Take(m.hdr[t])];
            Lists(if hdr'[t].used == SNUM && k + 1 < |list| then m.small[s := Without(list, k) + [t]]
                  else m.small, hdr', m.a.tiles, m.a.used) &&
            (forall x, n :: Live(hdr', m.a.tiles, m.a.used, x, n) <==>
             m.IsLive(x, n) || (x == m.hdr[t].free[0] && n == s)) &&
            m.hdr[t].free[0] != 0 && forall n :: !m.IsLive(m.hdr[t].free[0], n)
  {
    var list, t, hdr := m.small[s], m.small[s][k], m.hdr;
    assert ArrayAt(m.a.tiles, m.a.used, t, s, hdr[t]);
    TakeArray(m.a.tiles, m.a.used, t, s, hdr[t]);
    var hdr', w := hdr[t := Take(hdr[t])], Without(list, k);
    WithoutNoDup(list, k);
    WithoutRoom(list, k, hdr, hdr') by { ListHeaders(m, s); }
    if hdr'[t].used == SNUM && k + 1 < |list| {
      Reheader(m.small, hdr, m.a.tiles, m.a.used, s, t, Take(hdr[t]), w + [t]);
    } else {
      SamePlace(list, k, hdr, hdr');
      Reheader(m.small, hdr, m.a.tiles, m.a.used, s, t, Take(hdr[t]), list);
      assert m.small[s := list] == m.small;
    }
    forall x, n ensures Live(hdr', m.a.tiles, m.a.used, x, n) <==> m.IsLive(x, n) || (x == hdr[t].free[0] && n == s) {
      TakeLive(hdr, m.a.tiles, m.a.used, t, s, x, n);
    }
    UsedTile(m.a, t);
    SlotInside(m.a.tiles, m.a.used, t, s, hdr[t], hdr[t].free[0]);
    forall n ensures !m.IsLive(hdr[t].free[0], n) { FreeNotLive(m, t, s, hdr[t].free[0], n); }
  }

  lemma ListHeaders(m: Malloc, s: int)
    requires m.Valid() && 0 <= s < NSMALL
    ensures forall x :: x in m.small[s] ==> x in m.hdr
  {
    forall x | x in m.small[s] ensures x in m.hdr { var j :| 0 <= j < |m.small[s]| && m.small[s][j] == x; }
  }

  lemma SamePlace(list: seq<int>, k: nat, hdr: map<int, Hdr>, hdr': map<int, Hdr>)
    requires RoomFirst(list, hdr) && NoDup(list) && k < |list| && list[k] in hdr && hdr[list[k]].free != []
    requires hdr' == hdr[list[k] := Take(hdr[list[k]])] && (hdr'[list[k]].free == [] ==> k + 1 == |list|)
    ensures RoomFirst(list, hdr')
  {}

  lemma FreeNotLive(m: Malloc, t: int, s: int, p: int, n: int)
    requires m.Valid() && t in m.hdr && ArrayAt(m.a.tiles, m.a.used, t, s, m.hdr[t]) && p in m.hdr[t].free
    ensures !m.IsLive(p, n)
  {
    hide Segments.Valid;
    assert p in Elements(m.hdr[t].free);
    SlotInside(m.a.tiles, m.a.used, t, s, m.hdr[t], p);
    if m.IsLive(p, n) {
      var u := Host(m.a, m.small, m.hdr, p, n);
      UsedTile(m.a, u);
      if u != t { TilesApart(m.a, t, u); }
    }
  }

  lemma UsedKept(m: Malloc)
    requires m.Valid()
    ensures Kept(m.a.mem, m.a.tiles, m.a.mem, m.a.tiles, m.a.used) && |m.small| == NSMALL && m.a.used <= m.a.held
  {
    hide Full, LastFree;
    KeptSame(m.a.mem, m.a.low, m.a.tiles, m.a.held, m.a.fl);
  }

  lemma StaysKept(mem: seq<int>, tiles: Tiles, mem': seq<int>, tiles': Tiles, held: set<int>, used: set<int>,
                  used': set<int>)
    requires Kept(mem, tiles, mem', tiles', held) && used <= held && used <= used'
    ensures Stays(tiles, used, tiles', used') && Kept(mem, tiles, mem', tiles', used)
  {}

  /** The state between the segment allocator's malloc and the writing of the header. */
  ghost predicate Obtained(m: Malloc, tiles: Tiles, used: set<int>, held: set<int>, mem: seq<int>, t: int)
    reads m, m.a
  {
    m.a.Valid() && Lists(m.small, m.hdr, tiles, used) && m.a.used == used + {t} && t in m.a.tiles && t !in held &&
    used <= held &&
    Kept(mem, tiles, m.a.mem, m.a.tiles, held)
  }

  lemma HdrHeld(m: Malloc, tiles: Tiles, used: set<int>)
    requires Lists(m.small, m.hdr, tiles, used)
    ensures forall t :: t in m.hdr ==> t in used && t in tiles
  {
    forall t | t in m.hdr ensures t in used && t in tiles { var s := ClassOf(m.small, m.hdr, tiles, used, t); }
  }

  lemma BigFacts(m: Malloc, tiles: Tiles, used: set<int>, held: set<int>, mem: seq<int>, t: int, p: int)
    requires Obtained(m, tiles, used, held, mem, t) && p == t + 1
    ensures m.Valid() && Kept(mem, tiles, m.a.mem, m.a.tiles, used)
    ensures forall x, n :: m.IsLive(x, n) <==> Live(m.hdr, tiles, used, x, n) || (x == p && n == m.a.tiles[t])
    ensures forall n :: !Live(m.hdr, tiles, used, p, n)
  {
    hide Segments.Valid, Lists;
    StaysKept(mem, tiles, m.a.mem, m.a.tiles, held, used, m.a.used);
    ListsStay(m.small, m.hdr, tiles, used, m.a.tiles, m.a.used);
    HdrHeld(m, tiles, used);
    forall x, n ensures m.IsLive(x, n) <==> Live(m.hdr, tiles, used, x, n) || (x == p && n == m.a.tiles[t]) {
      SameBusy(m.hdr, tiles, used, m.a.tiles, x, n);
    }
    UsedTile(m.a, t);
    forall n ensures !Live(m.hdr, tiles, used, p, n) {
      NewNotLive(m, tiles, used, held, mem, t, p, n);
    }
  }

  lemma SameBusy(hdr: map<int, Hdr>, tiles: Tiles, used: set<int>, tiles': Tiles, p: int, n: int)
    requires forall t :: t in hdr ==> t in used && t in tiles && t in tiles' && tiles'[t] == tiles[t]
    ensures (exists t :: BusySlot(hdr, tiles', t, p, n)) <==> (exists t :: BusySlot(hdr, tiles, t, p, n))
  {
    forall t ensures BusySlot(hdr, tiles', t, p, n) <==> BusySlot(hdr, tiles, t, p, n) {}
  }

  /** An address inside the new block was not live. */
  lemma NewNotLive(m: Malloc, tiles: Tiles, used: set<int>, held: set<int>, mem: seq<int>, t: int, p: int, n: int)
    requires Obtained(m, tiles, used, held, mem, t) && t < p < End(m.a.tiles, t)
    ensures !Live(m.hdr, tiles, used, p, n)
  {
    hide Segments.Valid, Lists;
    HdrHeld(m, tiles, used);
    if u :| BusySlot(m.hdr, tiles, u, p, n) {
      var s := ClassOf(m.small, m.hdr, tiles, used, u);
      SlotInside(tiles, used, u, s, m.hdr[u], p);
      TilesApart(m.a, t, u);
    }
    if p - 1 in used {
      UsedTile(m.a, p - 1);
      TilesApart(m.a, t, p - 1);
    }
  }

  lemma NewFacts(m: Malloc, tiles: Tiles, used: set<int>, held: set<int>, mem: seq<int>, s: int, t: int,
                 free: seq<int>, p: int)
    requires Obtained(m, tiles, used, held, mem, t) && p == t + 4 && 1 <= s < NSMALL &&
      Sblen(s) <= m.a.tiles[t] <= Sblen(s) + MIN
    requires |free| == SNUM - 1 && forall j :: 0 <= j < SNUM - 1 ==> free[j] == Slot(t, s, j + 1)
    ensures |m.small| == NSMALL
    ensures var hdr', small' := m.hdr[t := Hdr(free, 1)], m.small[s := [t] + m.small[s]];
            Lists(small', hdr', m.a.tiles, m.a.used) && Kept(mem, tiles, m.a.mem, m.a.tiles, used) &&
            (forall x, n :: Live(hdr', m.a.tiles, m.a.used, x, n) <==>
             Live(m.hdr, tiles, used, x, n) || (x == p && n == s)) && t > 0
    ensures forall n :: !Live(m.hdr, tiles, used, p, n)
  {
    var hdr', list' := m.hdr[t := Hdr(free, 1)], [t] + m.small[s];
    UsedTile(m.a, t);
    StaysKept(mem, tiles, m.a.mem, m.a.tiles, held, used, m.a.used);
    ListsStay(m.small, m.hdr, tiles, used, m.a.tiles, m.a.used);
    HdrHeld(m, tiles, used);
    FreshArray(m.a.tiles, m.a.used, t, s, free);
    NewList(m.small, m.hdr, m.a.tiles, m.a.used, s, t, free);
    hide Segments.Valid, Lists, ArrayAt;
    SlotSize(s, m.a.tiles[t]);
    forall x, n
      ensures Live(hdr', m.a.tiles, m.a.used, x, n) <==> Live(m.hdr, tiles, used, x, n) || (x == p && n == s)
    {
      NewLive(m, tiles, used, held, mem, s, t, free, x, n);
    }
    forall n ensures !Live(m.hdr, tiles, used, p, n) {
      NewNotLive(m, tiles, used, held, mem, t, p, n);
    }
  }

  lemma FreshArray(tiles: Tiles, used: set<int>, t: int, s: int, free: seq<int>)
    requires t in used && t in tiles && 1 <= s < NSMALL && Sblen(s) <= tiles[t] <= Sblen(s) + MIN
    requires |free| == SNUM - 1 && forall j :: 0 <= j < SNUM - 1 ==> free[j] == Slot(t, s, j + 1)
    ensures ArrayAt(tiles, used, t, s, Hdr(free, 1))
    ensures forall x :: x in Slots(t, s, SNUM) && x !in free <==> x == t + 4
  {
    forall j, k | 0 <= j < k < |free| ensures free[j] != free[k] { Stretch(j + 1, k + 1, s); }
    forall x | x in Elements(free) ensures x in Slots(t, s, SNUM) {
      var j :| 0 <= j < |free| && free[j] == x;
    }
    forall x ensures x in Slots(t, s, SNUM) && x !in free <==> x == t + 4 {
      if x in Slots(t, s, SNUM) {
        var q :| 0 <= q < SNUM && x == Slot(t, s, q);
        if q > 0 { assert free[q - 1] == x; Stretch(0, q, s); }
      }
      if x == t + 4 {
        assert Slot(t, s, 0) == x;
        forall j | 0 <= j < |free| ensures free[j] != x { Stretch(0, j + 1, s); }
      }
    }
  }

  lemma NewList(small: seq<seq<int>>, hdr: map<int, Hdr>, tiles: Tiles, used: set<int>, s: int, t: int, free: seq<int>)
    requires Lists(small, hdr, tiles, used) && t !in hdr && ArrayAt(tiles, used, t, s, Hdr(free, 1)) && free != []
    ensures Lists(small[s := [t] + small[s]], hdr[t := Hdr(free, 1)], tiles, used)
  {
    var list, hdr' := [t] + small[s], hdr[t := Hdr(free, 1)];
    forall k | 0 <= k < |small[s]|
      ensures small[s][k] in hdr && small[s][k] != t && ArrayAt(tiles, used, small[s][k], s, hdr[small[s][k]])
    {}
    forall x | x in hdr ensures x in used && x in tiles { var r := ClassOf(small, hdr, tiles, used, x); }
    forall k | 0 <= k < |list| ensures list[k] in hdr' && ArrayAt(tiles, used, list[k], s, hdr'[list[k]]) {
      if k > 0 { assert list[k] == small[s][k - 1]; }
    }
    assert NoDup(list) && RoomFirst(list, hdr') by { assert NoDup(small[s]) && RoomFirst(small[s], hdr); }
    Update(small, hdr, tiles, used, s, list, hdr', tiles, used);
  }

  lemma NewLive(m: Malloc, tiles: Tiles, used: set<int>, held: set<int>, mem: seq<int>, s: int, t: int, free: seq<int>,
                x: int, n: int)
    requires Obtained(m, tiles, used, held, mem, t) && Bslen(m.a.tiles[t]) == s && t !in m.hdr
    requires forall y :: y in Slots(t, s, SNUM) && y !in free <==> y == t + 4
    ensures Live(m.hdr[t := Hdr(free, 1)], m.a.tiles, m.a.used, x, n) <==>
      Live(m.hdr, tiles, used, x, n) || (x == t + 4 && n == s)
  {
    hide Segments.Valid, Lists;
    var hdr' := m.hdr[t := Hdr(free, 1)];
    HdrHeld(m, tiles, used);
    forall u
      ensures BusySlot(hdr', m.a.tiles, u, x, n) <==>
        BusySlot(m.hdr, tiles, u, x, n) || (u == t && x == t + 4 && n == s)
    {}
    if x == t + 4 && n == s { assert BusySlot(hdr', m.a.tiles, t, x, n); }
  }

  // ----- Freeing -----

  lemma ArrayTiles(m: Malloc)
    requires m.Valid()
    ensures forall s, k :: 0 <= s < |m.small| && 0 <= k < |m.small[s]| ==>
      var t := m.small[s][k]; t in m.hdr && t in m.a.tiles && 0 <= t < |m.a.mem| && m.a.mem[t] == m.a.tiles[t]
  {
    hide Segments.Valid;
    forall s, k | 0 <= s < |m.small| && 0 <= k < |m.small[s]|
      ensures var t := m.small[s][k]; t in m.hdr && t in m.a.tiles && 0 <= t < |m.a.mem| && m.a.mem[t] == m.a.tiles[t]
    {
      var t := m.small[s][k];
      assert ArrayAt(m.a.tiles, m.a.used, t, s, m.hdr[t]);
      HeaderWord(m.a, t);
    }
  }

  lemma HeaderWord(a: Segments, t: int)
    requires a.Valid() && t in a.tiles
    ensures 0 <= t && End(a.tiles, t) <= |a.mem| && a.mem[t] == a.tiles[t]
  {
    Headed(a.mem, a.tiles, t);
  }

  lemma GiveFacts(m: Malloc, s: int, k: nat, p: int)
    requires m.Valid() && 1 <= s < NSMALL && k < |m.small[s]| && m.small[s][k] in m.hdr
    requires BusySlot(m.hdr, m.a.tiles, m.small[s][k], p, s) && m.hdr[m.small[s][k]].used != 1
    ensures var list, t := m.small[s], m.small[s][k];
            var hdr' := m.hdr[t := Give(m.hdr[t], p)];
            Lists(if k > 0 then m.small[s := [t] + Without(list, k)] else m.small, hdr', m.a.tiles, m.a.used) &&
            (forall x, n :: Live(hdr', m.a.tiles, m.a.used, x, n) <==> m.IsLive(x, n) && x != p)
  {
    var list, t, hdr := m.small[s], m.small[s][k], m.hdr;
    assert ArrayAt(m.a.tiles, m.a.used, t, s, hdr[t]);
    GiveArray(m.a.tiles, m.a.used, t, s, hdr[t], p);
    var hdr', w := hdr[t := Give(hdr[t], p)], Without(list, k);
    WithoutNoDup(list, k);
    WithoutRoom(list, k, hdr, hdr') by { ListHeaders(m, s); }
    Reheader(m.small, hdr, m.a.tiles, m.a.used, s, t, Give(hdr[t], p), [t] + w);
    if k == 0 {
      assert [t] + w == list;
      assert m.small[s := list] == m.small;
    }
    forall x, n ensures Live(hdr', m.a.tiles, m.a.used, x, n) <==> m.IsLive(x, n) && x != p {
      GiveLive(m.a, m.small, hdr, t, s, p, x, n);
    }
  }

  /** Without the array at t. */
  lemma EmptyFacts(m: Malloc, s: int, k: nat, p: int)
    requires m.Valid() && 1 <= s < NSMALL && k < |m.small[s]| && m.small[s][k] in m.hdr
    requires BusySlot(m.hdr, m.a.tiles, m.small[s][k], p, s) && m.hdr[m.small[s][k]].used == 1
    ensures var list, t := m.small[s], m.small[s][k];
            t in m.a.used && Lists(m.small[s := Without(list, k)], m.hdr - {t}, m.a.tiles, m.a.used) &&
            forall tiles', used', x, n {:trigger Live(m.hdr - {t}, tiles', used', x, n)} ::
              used' == m.a.used - {t} &&
              (forall u :: u in used' ==> u in m.a.tiles && u in tiles' && tiles'[u] == m.a.tiles[u]) ==>
              (Live(m.hdr - {t}, tiles', used', x, n) <==> m.IsLive(x, n) && x != p)
  {
    var list, t, hdr := m.small[s], m.small[s][k], m.hdr;
    assert ArrayAt(m.a.tiles, m.a.used, t, s, hdr[t]);
    RemoveList(m.small, hdr, m.a.tiles, m.a.used, s, k);
    forall tiles', used', x, n | used' == m.a.used - {t} &&
        (forall u :: u in used' ==> u in m.a.tiles && u in tiles' && tiles'[u] == m.a.tiles[u])
      ensures Live(hdr - {t}, tiles', used', x, n) <==> m.IsLive(x, n) && x != p
    {
      DropLive(m.a, m.small, hdr, t, s, p, tiles', used', x, n);
    }
  }

  lemma RemoveList(small: seq<seq<int>>, hdr: map<int, Hdr>, tiles: Tiles, used: set<int>, s: int, k: nat)
    requires Lists(small, hdr, tiles, used) && 0 <= s < NSMALL && k < |small[s]|
    ensures Lists(small[s := Without(small[s], k)], hdr - {small[s][k]}, tiles, used)
  {
    var list, t := small[s], small[s][k];
    var w, hdr' := Without(list, k), hdr - {t};
    WithoutNoDup(list, k);
    forall x | x in list
      ensures x in hdr && ArrayAt(tiles, used, x, s, hdr[x])
    {
      var j :| 0 <= j < |list| && list[j] == x;
    }
    WithoutRoom(list, k, hdr, hdr');
    forall j | 0 <= j < |w| ensures w[j] in hdr' && ArrayAt(tiles, used, w[j], s, hdr'[w[j]]) { assert w[j] in w; }
    forall x | x in hdr ensures x in used && x in tiles { var r := ClassOf(small, hdr, tiles, used, x); }
    Update(small, hdr, tiles, used, s, w, hdr', tiles, used);
  }

  lemma ReleasedKept(mem: seq<int>, tiles: Tiles, mem': seq<int>, tiles': Tiles, held: set<int>, used: set<int>)
    requires Kept(mem, tiles, mem', tiles', held) && used <= held
    ensures Kept(mem, tiles, mem', tiles', used)
  {}

  /** The block of an array that is not listed any more was given back. */
  lemma DroppedFacts(m: Malloc, tiles: Tiles, used: set<int>, t: int)
    requires Lists(m.small, m.hdr, tiles, used) && t !in m.hdr && m.a.used == used - {t}
    requires forall u :: u in m.a.used ==> u in tiles && u in m.a.tiles && m.a.tiles[u] == tiles[u]
    ensures Lists(m.small, m.hdr, m.a.tiles, m.a.used)
  {
    forall s, k | 0 <= s < NSMALL && 0 <= k < |m.small[s]|
      ensures m.small[s][k] in m.hdr && ArrayAt(m.a.tiles, m.a.used, m.small[s][k], s, m.hdr[m.small[s][k]])
    {
      assert ArrayAt(tiles, used, m.small[s][k], s, m.hdr[m.small[s][k]]);
    }
  }

  lemma InRange(m: Malloc, p: int, n: int)
    requires m.Valid() && m.IsLive(p, n)
    ensures p != 0 && m.a.m_low <= p <= m.a.m_high
  {
    var t := Host(m.a, m.small, m.hdr, p, n);
    UsedTile(m.a, t);
    ReleaseFacts(m.a, t + 1);
    HeaderWord(m.a, t);
    HighEnd(m.a, t);
  }

  lemma HighEnd(a: Segments, t: int)
    requires a.Valid() && t in a.tiles
    ensures a.m_low <= t && a.m_high == |a.mem|
  {
    hide Full, LastFree, Spaced, Chain, Headers;
  }

  /** No address is in the blocks of two arrays. */
  lemma OnePlace(m: Malloc, s: int, k: int, p: int)
    requires m.Valid() && m.Has(s, k, p)
    ensures forall r, j :: m.Has(r, j, p) <==> r == s && j == k
  {
    hide Segments.Valid;
    var t := m.small[s][k];
    assert ArrayAt(m.a.tiles, m.a.used, t, s, m.hdr[t]);
    SlotSize(s, m.a.tiles[t]);
    forall r, j | m.Has(r, j, p) ensures r == s && j == k {
      var u := m.small[r][j];
      assert ArrayAt(m.a.tiles, m.a.used, u, r, m.hdr[u]);
      SlotSize(r, m.a.tiles[u]);
      if u != t { TilesApart(m.a, t, u); }
      assert NoDup(m.small[s]);
    }
  }

  lemma FoundFacts(m: Malloc, p: int, n: int, s: int, k: nat)
    requires m.Valid() && m.IsLive(p, n) && 0 <= s < |m.small| && k < |m.small[s]|
    requires m.Has(s, k, p)
    ensures 1 <= s < NSMALL && m.small[s][k] in m.hdr && BusySlot(m.hdr, m.a.tiles, m.small[s][k], p, s) && n == s
  {
    hide Segments.Valid;
    var t := m.small[s][k];
    assert ArrayAt(m.a.tiles, m.a.used, t, s, m.hdr[t]);
    SlotSize(s, m.a.tiles[t]);
    var u := Host(m.a, m.small, m.hdr, p, n);
    UsedTile(m.a, u);
    if u != t { TilesApart(m.a, t, u); }
  }

  /** The array of a slot is on a list. */
  lemma PlaceOf(m: Malloc, t: int, p: int, n: int) returns (s: int, j: int)
    requires m.Valid() && BusySlot(m.hdr, m.a.tiles, t, p, n)
    ensures m.Has(s, j, p) && p - 1 !in m.a.used
  {
    hide Segments.Valid;
    s := ClassOf(m.small, m.hdr, m.a.tiles, m.a.used, t);
    SlotInside(m.a.tiles, m.a.used, t, s, m.hdr[t], p);
    j :| 0 <= j < |m.small[s]| && m.small[s][j] == t;
    OnlyHere(m.a, m.small, m.hdr, t, n, p, n);
  }

  lemma BigFound(m: Malloc, p: int, n: int, hint: nat)
    requires m.Valid() && m.IsLive(p, n) && (hint < NSMALL || p - 1 in m.a.used)
    requires hint < NSMALL ==> forall r, j :: !m.Has(r, j, p)
    ensures p - 1 in m.a.used && p - 1 !in m.hdr && forall r, j :: !m.Has(r, j, p)
    ensures forall tiles', used', x, len {:trigger Live(m.hdr, tiles', used', x, len)} ::
      used' == m.a.used - {p - 1} &&
      (forall u :: u in used' ==> u in m.a.tiles && u in tiles' && tiles'[u] == m.a.tiles[u]) ==>
      (Live(m.hdr, tiles', used', x, len) <==> m.IsLive(x, len) && x != p)
  {
    hide Segments.Valid;
    var t := Host(m.a, m.small, m.hdr, p, n);
    if t in m.hdr { var s, j := PlaceOf(m, t, p, n); }
    UsedTile(m.a, t);
    forall r, j | m.Has(r, j, p) ensures false {
      var u := m.small[r][j];
      assert ArrayAt(m.a.tiles, m.a.used, u, r, m.hdr[u]);
      TilesApart(m.a, t, u);
    }
    HdrHeld(m, m.a.tiles, m.a.used);
    NotSlot(m, p);
    hide Lists, Slots, ArrayAt;
    forall tiles', used', x, len | used' == m.a.used - {p - 1} &&
        (forall u :: u in used' ==> u in m.a.tiles && u in tiles' && tiles'[u] == m.a.tiles[u])
      ensures Live(m.hdr, tiles', used', x, len) <==> m.IsLive(x, len) && x != p
    {
      forall u ensures BusySlot(m.hdr, tiles', u, x, len) <==> BusySlot(m.hdr, m.a.tiles, u, x, len) {}
    }
  }

  lemma NotSlot(m: Malloc, p: int)
    requires m.Valid() && p - 1 in m.a.used
    ensures forall t, n :: !BusySlot(m.hdr, m.a.tiles, t, p, n)
  {
    forall t, n | BusySlot(m.hdr, m.a.tiles, t, p, n) ensures false {
      OnlyHere(m.a, m.small, m.hdr, t, n, p, n);
    }
  }

  // ----- Resizing -----

  lemma BigLength(m: Malloc, p: int, n: int)
    requires m.Valid() && m.IsLive(p, n) && p - 1 in m.a.used && p - 1 !in m.hdr
    ensures p - 1 in m.a.tiles && n == m.a.tiles[p - 1] && 0 <= p - 1 < |m.a.mem| && m.a.mem[p - 1] == n
  {
    NotSlot(m, p);
    HeaderWord(m.a, p - 1);
  }

  lemma NullNotLive(m: Malloc)
    requires m.Valid()
    ensures forall n :: !m.IsLive(0, n)
  {
    forall n ensures !m.IsLive(0, n) { if m.IsLive(0, n) { InRange(m, 0, n); } }
  }

  lemma LiveBelow(m: Malloc, p: int, n: int)
    requires m.Valid() && m.IsLive(p, n)
    ensures 0 < p && p + n <= |m.a.mem| && n >= 1
  {
    var t := Host(m.a, m.small, m.hdr, p, n);
    HeaderWord(m.a, t);
  }

  lemma OthersApart(m: Malloc, r: int, len: int)
    requires m.Valid() && m.IsLive(r, len)
    ensures forall x, k :: m.IsLive(x, k) && x != r ==> x + k <= r || r + len <= x
  {
    forall x, k | m.IsLive(x, k) && x != r
      ensures x + k <= r || r + len <= x
    {
      LiveApart(m.a, m.small, m.hdr, x, k, r, len);
    }
  }

  /** Live blocks keep their words when the blocks that host them do. */
  lemma LiveWords(mem: seq<int>, tiles: Tiles, mem': seq<int>, tiles': Tiles, small: seq<seq<int>>, hdr: map<int, Hdr>,
                  here: Tiles, used: set<int>)
    requires Kept(mem, tiles, mem', tiles', used) && Lists(small, hdr, here, used) && (here == tiles || here == tiles')
    ensures forall x, k, w :: Live(hdr, here, used, x, k) && x <= w < x + k ==> SameWord(mem, mem', w)
  {
    forall x, k, w | Live(hdr, here, used, x, k) && x <= w < x + k ensures SameWord(mem, mem', w) {
      var t := HostOf(small, hdr, here, used, x, k);
      assert tiles[t] == here[t];
    }
  }
}
