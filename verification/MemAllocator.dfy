/** The segment allocator of Src/mem.c as it runs: malloc and zfree for blocks
    that are not small. */
module MemAllocator {
  import opened MemChains
  import opened MemSegments
  import opened MemReturn

  /** Every block is held or on the free list. */
  ghost predicate Full(tiles: Tiles, held: set<int>, fl: seq<int>) {
    forall t :: t in tiles ==> t in held || t in fl
  }

  /** The blocks after `size` words were taken from block m, and what is left of it. */
  function Taken(tiles: Tiles, m: int, size: int): Tiles
    requires m in tiles
  {
    if tiles[m] - size > MIN then Split(tiles, m, size) else tiles
  }

  function Remainder(tiles: Tiles, m: int, size: int): seq<int>
    requires m in tiles
  {
    if tiles[m] - size > MIN then [m + 1 + size] else []
  }

  /** The listed blocks above the one m_lfree points to. */
  function Forgotten(fl: seq<int>, last: int): set<int> {
    set x | x in fl && x > last
  }

  /** The list up to and with the block m_lfree points to. */
  function UpTo(fl: seq<int>, last: int): seq<int> {
    if fl == [] then [] else if fl[0] == last then [last] else [fl[0]] + UpTo(fl[1..], last)
  }

  function Elems(s: seq<int>): set<int> {
    set x | x in s
  }

  function RoundUp(n: int, page: int): int
    requires page >= 1
  {
    (n + page - 1) / page * page
  }

  lemma RoundedUp(n: int, page: int)
    requires page >= 1 && n >= 0
    ensures n <= RoundUp(n, page) < n + page && RoundUp(n, page) % page == 0
  {
    var x := n + page - 1;
    assert x == x / page * page + x % page;
    Pages(x / page, page);
  }

  lemma Pages(k: int, page: int)
    requires page >= 1
    ensures k * page % page == 0
  {
    var q, r := k * page / page, k * page % page;
    assert (k - q) * page == r;
    if k > q { AtLeast(k - q, page); } else if k < q { AtLeast(q - k, page); }
  }

  lemma AtLeast(n: int, page: int)
    requires n >= 1 && page >= 1
    ensures n * page >= page
  {
    assert n * page == (n - 1) * page + page;
  }

  function RoundDown(n: int, page: int): int
    requires page >= 1
  {
    n / page * page
  }

  lemma RoundedDown(n: int, page: int)
    requires page >= 1 && n >= 0
    ensures 0 <= RoundDown(n, page) <= n < RoundDown(n, page) + page && RoundDown(n, page) % page == 0
  {
    assert n == n / page * page + n % page;
    Pages(n / page, page);
  }

  /** A sequence ends in x. */
  ghost predicate EndsIn(s: seq<int>, x: int) {
    s != [] && s[|s| - 1] == x
  }

  /** Where m_lfree may point: with `exact`, to the last block on the list. */
  ghost predicate LastFree(fl: seq<int>, last: int, exact: bool) {
    (fl == [] ==> last == 0) && (fl != [] ==> last in fl) && (exact && fl != [] ==> EndsIn(fl, last))
  }

  /** m is element k of the list, mp the one before it; NULL where there is none. */
  ghost predicate At(fl: seq<int>, mp: int, m: int, k: nat) {
    k <= |fl| && mp == (if k == 0 then 0 else fl[k - 1]) && m == (if k < |fl| then fl[k] else 0)
  }

  /** The first k blocks of the list have less than `size` words. */
  ghost predicate TooSmall(tiles: Tiles, fl: seq<int>, k: nat, size: int) {
    k <= |fl| && forall j :: 0 <= j < k ==> fl[j] in tiles && tiles[fl[j]] < size
  }

  /** `size` words were taken from element k of the list. */
  ghost predicate TookListed(tiles: Tiles, fl: seq<int>, k: nat, size: int, tiles': Tiles, fl': seq<int>) {
    k < |fl| && fl[k] in tiles && tiles' == Taken(tiles, fl[k], size) &&
    fl' == fl[..k] + Remainder(tiles, fl[k], size) + fl[k + 1..]
  }

  /** `size` words were taken from a new block m of `len` words, which had been
      linked to the block `last`. */
  ghost predicate TookNew(tiles: Tiles, fl: seq<int>, last: int, m: int, len: int, size: int, tiles': Tiles,
                          fl': seq<int>) {
    var grown := tiles[m := len];
    tiles' == Taken(grown, m, size) && fl' == UpTo(fl, last) + Remainder(grown, m, size)
  }

  /** The first k blocks of the list are below m. */
  ghost predicate AllBelow(fl: seq<int>, k: nat, m: int) {
    k <= |fl| && forall j :: 0 <= j < k ==> fl[j] < m
  }

  /** Where m_lfree points while m is not linked to the list yet. */
  ghost predicate LastStage(pre: seq<int>, m: int, post: seq<int>, last: int, exact: bool) {
    ((last == 0 && pre == [] && post == []) || last == m || last in pre || last in post) &&
    (exact && post != [] ==> EndsIn(post, last)) &&
    (exact && post == [] && pre != [] ==> last == m || EndsIn(pre, last))
  }

  ghost predicate Readable(mem: seq<int>, tiles: Tiles, fl: seq<int>, m: int, k: nat) {
    k <= |fl| && (m == 0 <==> k == |fl|) &&
    (m != 0 ==> m in tiles && 0 <= m && m + 1 < |mem| && mem[m] == tiles[m])
  }

  class Segments {
    /** The words below the break. */
    var mem: seq<int>
    var m_free: int
    var m_lfree: int
    var m_low: int
    var m_high: int
    const page: int
    /** False for the code as it is.  True for the variant in which zfree also
        moves m_lfree to a block it adds at the end of the list. */
    const moves: bool

    ghost const low: int
    ghost var tiles: Tiles
    ghost var fl: seq<int>
    /** The blocks that are not on the free list, and those of them handed out. */
    ghost var held: set<int>
    ghost var used: set<int>

    ghost predicate Bounds()
      reads this
    {
      if m_low == 0 then m_high == 0 && tiles == map[] && low == |mem| else m_low == low && m_high == |mem|
    }

    ghost predicate Valid()
      reads this
    {
      page >= 1 && Consistent(mem, low, tiles, held, fl) && Full(tiles, held, fl) && used <= held &&
      m_free == Head(fl, 0) && LastFree(fl, m_lfree, moves) && Bounds()
    }

    /** The blocks that are neither handed out nor on the free list. */
    ghost function Lost(): set<int>
      reads this
    {
      held - used
    }

    constructor (page: int, initial: seq<int>, moves: bool)
      requires page >= 1 && initial != []
      ensures Valid() && tiles == map[] && fl == [] && held == {} && used == {} && mem == initial
      ensures this.page == page && this.moves == moves && m_lfree == 0 && m_low == 0 && low == |initial|
    {
      this.page, this.moves := page, moves;
      mem, m_free, m_lfree, m_low, m_high := initial, 0, 0, 0, 0;
      low, tiles, fl, held, used := |initial|, map[], [], {}, {};
      new;
      ChainNone(mem);
    }

    method FindFit(size: int) returns (mp: int, m: int, ghost k: nat)
      requires Valid()
      ensures At(fl, mp, m, k) && TooSmall(tiles, fl, k, size)
      ensures (m == 0 <==> k == |fl|) && (m != 0 ==> m in tiles && tiles[m] >= size)
    {
      mp, m, k := 0, m_free, 0;
      hide Full, LastFree;
      ListedFirst(mem, low, tiles, held, fl);
      hide Valid, Consistent, TooSmall;
      while m != 0 && mem[m] < size
        invariant At(fl, mp, m, k) && TooSmall(tiles, fl, k, size) && Readable(mem, tiles, fl, m, k)
        decreases |fl| - k
      {
        ListedNext(mem, low, tiles, held, fl, mp, m, k, size);
        mp, m := m, mem[m + 1];
        k := k + 1;
      }
    }

    /** What Carve is called with. */
    ghost predicate CarveReady(mp: int, m: int, size: int, pre: seq<int>, post: seq<int>)
      reads this
    {
      page >= 1 && Holding(mem, low, tiles, held, pre, m, post, m) && Clear(tiles, m, post) &&
      Full(tiles, held, pre + [m] + post) && used <= held && Bounds() &&
      mp == Before(pre) && (pre != [] ==> m_free == pre[0]) &&
      size >= 1 && tiles[m] >= size && LastFree(pre + [m] + post, m_lfree, moves)
    }

    /** The rest of block m takes its place on the list. */
    method LeaveRest(mp: int, m: int, size: int, ghost pre: seq<int>, ghost post: seq<int>)
      requires CarveReady(mp, m, size, pre, post) && 0 <= m < |mem| && mem[m] == tiles[m] && mem[m] - size > MIN
      modifies this`mem, this`m_free, this`m_lfree, this`tiles, this`fl, this`held, this`used
      ensures Valid() && m in old(tiles) && tiles == Split(old(tiles), m, size) && fl == pre + [m + 1 + size] + post
      ensures held == old(held) + {m} && used == old(used) + {m} && Kept(old(mem), old(tiles), mem, tiles, old(held)) &&
        |mem| == old(|mem|)
      ensures m_lfree == if old(m_lfree) != m then old(m_lfree) else m + 1 + size
    {
      hide Consistent, Full, LastFree, Kept, Split, CarveReady;
      RestFacts(this, mp, m, size, pre, post);
      var r := m + 1 + size;
      ghost var was := mem;
      mem := mem[r := mem[m] - size - 1];
      mem := mem[r + 1 := mem[m + 1]];
      mem := mem[m := size];
      if m_lfree == m { m_lfree := r; }
      if mp != 0 { mem := mem[mp + 1 := r]; } else { m_free := r; }
      assert mem == SplitWords(was, mp, m, size);
      hide SplitWords;
      tiles := Split(tiles, m, size);
      fl := pre + [r] + post;
      held, used := held + {m}, used + {m};
    }

    /** Block m is taken as a whole. */
    method TakeWhole(mp: int, m: int, size: int, ghost pre: seq<int>, ghost post: seq<int>)
      requires CarveReady(mp, m, size, pre, post) && 0 <= m && m + 1 < |mem|
      modifies this`mem, this`m_free, this`m_lfree, this`fl, this`held, this`used
      ensures Valid() && fl == pre + post && m in tiles
      ensures held == old(held) + {m} && used == old(used) + {m} && Kept(old(mem), tiles, mem, tiles, old(held)) &&
        |mem| == old(|mem|)
      ensures m_lfree == if old(m_lfree) != m then old(m_lfree) else if pre != [] then mp else Head(post, 0)
    {
      hide Consistent, Full, LastFree, Kept, CarveReady;
      TakeFacts(this, mp, m, size, pre, post);
      if mp != 0 {
        if m == m_lfree { m_lfree := mp; }
        mem := mem[mp + 1 := mem[m + 1]];
      } else {
        m_free := mem[m + 1];
        if m == m_lfree { m_lfree := m_free; }
      }
      fl := pre + post;
      held, used := held + {m}, used + {m};
    }

    /** Take `size` words from block m; the rest stays on the list. */
    method Carve(mp: int, m: int, size: int, ghost pre: seq<int>, ghost post: seq<int>)
      requires CarveReady(mp, m, size, pre, post)
      modifies this`mem, this`m_free, this`m_lfree, this`tiles, this`fl, this`held, this`used
      ensures Valid() && m in old(tiles) && held == old(held) + {m} && used == old(used) + {m}
      ensures tiles == Taken(old(tiles), m, size) && fl == pre + Remainder(old(tiles), m, size) + post
      ensures Kept(old(mem), old(tiles), mem, tiles, old(held)) && |mem| == old(|mem|)
      ensures m_lfree == if old(m_lfree) != m then old(m_lfree)
        else Head(Remainder(old(tiles), m, size), if pre != [] then mp else Head(post, 0))
      ensures 0 < m && m in tiles && size <= tiles[m] <= size + MIN && m !in old(held)
    {
      hide CarveReady, Valid, Kept, Split;
      CarveFacts(this, mp, m, size, pre, post);
      if mem[m] - size > MIN {
        LeaveRest(mp, m, size, pre, post);
      } else {
        TakeWhole(mp, m, size, pre, post);
      }
    }

    /** No block fits: the system is asked for more, and the new block is put
        after the one m_lfree points to. */
    method Extend(size: int, fill: nat -> int, ghost pre: seq<int>, ghost rest: seq<int>) returns (mp: int, m: int)
      requires Valid() && size >= 1 && fl == pre + rest && m_lfree == Before(pre) && (pre == [] ==> fl == [])
      modifies this
      ensures CarveReady(mp, m, size, pre, []) && m == old(|mem|) && used == old(used)
      ensures |mem| == old(|mem|) + RoundUp(size + HSIZE, page) && (|mem| - old(|mem|)) % page == 0
      ensures old(|mem|) + size + HSIZE <= |mem| < old(|mem|) + size + HSIZE + page
      ensures tiles == old(tiles)[m := RoundUp(size + HSIZE, page) - 1] && m !in old(tiles)
      ensures held == old(held) + Elems(rest) && m_lfree == m
      ensures Kept(old(mem), old(tiles), mem, tiles, held)
    {
      hide Valid, RoundUp, GrowWords, Elems, Holding, Kept, Full, LastFree, Clear;
      GrowthSize(this, size);
      var n := RoundUp(size + HSIZE, page);
      var more := seq(n, fill);
      ExtendFacts(this, size, more, pre, rest);
      m := |mem|;
      mp := m_lfree;
      var words := (mem + more)[m := n - 1][m + 1 := 0];
      if mp != 0 { words := words[mp + 1 := m]; }
      GrownWords(mem, more, mp, n);
      mem, m_lfree, m_high := words, m, m + n;
      if m_low == 0 { m_low := m; }
      tiles, fl, held := tiles[m := n - 1], pre + [m], held + Elems(rest);
    }

    /** malloc for a block that is not small (p is NULL if nothing fits and the
        system has no more memory).  k is the place on the list of the first
        block that is large enough. */
    method Obtain(size: int, granted: bool, fill: nat -> int) returns (p: int, ghost k: nat)
      requires Valid() && size >= 1
      modifies this
      ensures Valid() && k <= |old(fl)| && TooSmall(old(tiles), old(fl), k, size)
      ensures p == 0 <==> k == |old(fl)| && !granted
      ensures p == 0 ==>
        mem == old(mem) && tiles == old(tiles) && fl == old(fl) && held == old(held) && used == old(used)
      ensures p != 0 ==> p - 1 in tiles && p - 1 !in old(held) && size <= tiles[p - 1] <= size + MIN
      ensures p != 0 ==> used == old(used) + {p - 1} && Kept(old(mem), old(tiles), mem, tiles, old(held))
      ensures k < |old(fl)| ==> p - 1 == old(fl)[k] && held == old(held) + {p - 1} && |mem| == old(|mem|)
      ensures k < |old(fl)| ==> TookListed(old(tiles), old(fl), k, size, tiles, fl)
      ensures p != 0 && k == |old(fl)| ==> p - 1 == old(|mem|) && |mem| == old(|mem|) + RoundUp(size + HSIZE, page)
      ensures p != 0 && k == |old(fl)| ==> held == old(held) + Forgotten(old(fl), old(m_lfree)) + {p - 1}
      ensures moves && p != 0 ==> held == old(held) + {p - 1}
      ensures p != 0 && k == |old(fl)| ==>
        TookNew(old(tiles), old(fl), old(m_lfree), p - 1, RoundUp(size + HSIZE, page) - 1, size, tiles, fl)
    {
      hide Valid, CarveReady, Kept, Split, RoundUp, Forgotten;
      ObtainFacts(this);
      var mp, m;
      mp, m, k := FindFit(size);
      if m == 0 && !granted { return 0, k; }
      ghost var pre, post;
      if m != 0 {
        pre, post := fl[..k], fl[k + 1..];
        FitReady(this, mp, m, size, k);
      } else {
        ghost var rest;
        pre, rest := CutFacts(this);
        post := [];
        mp, m := Extend(size, fill, pre, rest);
      }
      ghost var mem1, tiles1, held1 := mem, tiles, held;
      Carve(mp, m, size, pre, post);
      KeptTrans(old(mem), old(tiles), mem1, tiles1, mem, tiles, old(held)) by {
        KeptLess(old(mem), old(tiles), mem1, tiles1, held1, old(held));
        KeptLess(mem1, tiles1, mem, tiles, held1, old(held));
      }
      p := m + 1;
    }

    // ----- zfree -----

    /** The place of m on the list: k blocks are before it. */
    method FindPlace(m: int) returns (mp: int, mt: int, ghost k: nat)
      requires Valid()
      ensures At(fl, mp, mt, k) && AllBelow(fl, k, m)
      ensures (mt == 0 <==> k == |fl|) && (mt != 0 ==> mt >= m)
    {
      mp, mt, k := 0, m_free, 0;
      hide Full, LastFree;
      ListedFirst(mem, low, tiles, held, fl);
      hide Valid, Consistent, AllBelow;
      assert AllBelow(fl, 0, m) by { NoneBelow(fl, m); }
      while mt != 0 && mt < m
        invariant At(fl, mp, mt, k) && AllBelow(fl, k, m) && Readable(mem, tiles, fl, mt, k)
        decreases |fl| - k
      {
        PlaceNext(mem, low, tiles, held, fl, mp, mt, k, m);
        mp, mt := mt, mem[mt + 1];
        k := k + 1;
      }
    }

    /** Block m is free, merged with the block after it if it could be; the last
        block before it still points to c. */
    ghost predicate InsertReady(mp: int, m: int, pre: seq<int>, post: seq<int>, c: int)
      reads this
    {
      page >= 1 && Holding(mem, low, tiles, held, pre, m, post, c) && Clear(tiles, m, post) &&
      Full(tiles, held, pre + [m] + post) && used <= held && Bounds() &&
      mp == Before(pre) && (pre != [] ==> m_free == pre[0]) && LastStage(pre, m, post, m_lfree, moves)
    }

    /** What JoinAfter is called with. */
    ghost predicate JoinReady(mp: int, m: int, mt: int, pre: seq<int>, post: seq<int>)
      reads this
    {
      Valid() && fl == pre + post && m in used && Between(tiles, pre, m, post) && mp == Before(pre) &&
      mt == Head(post, 0)
    }

    method JoinAfter(mp: int, m: int, mt: int, ghost pre: seq<int>, ghost post: seq<int>)
      returns (ghost post': seq<int>)
      requires JoinReady(mp, m, mt, pre, post)
      modifies this`mem, this`m_lfree, this`tiles, this`held, this`used
      ensures InsertReady(mp, m, pre, post', mt) && held == old(held) - {m} && used == old(used) - {m}
      ensures Kept(old(mem), old(tiles), mem, tiles, held) && |mem| == old(|mem|)
      ensures tiles.Keys <= old(tiles).Keys && (m_lfree == old(m_lfree) || old(m_lfree) !in tiles)
    {
      hide JoinReady, Valid, Holding, Kept, Full, LastStage, Clear, Merge, JoinWords;
      JoinFacts(this, mp, m, mt, pre, post);
      post' := post;
      if mt != 0 && mt == m + 1 + mem[m] {
        JoinNextFacts(this, mp, m, mt, pre, post);
        post' := post[1..];
        tiles := Merge(tiles, m, mt);
        mem := JoinWords(mem, m, mt);
        if mt == m_lfree { m_lfree := m; }
      } else {
        JoinNoneFacts(this, mp, m, mt, pre, post);
        mem := mem[m + 1 := mt];
      }
      held, used := held - {m}, used - {m};
    }

    /** Block m is merged with the block before it, or linked to it.  In the
        variant, m_lfree is moved to a block that is added at the end. */
    method LinkIn(mp: int, m: int, ghost pre: seq<int>, ghost post: seq<int>, ghost c: int)
      requires InsertReady(mp, m, pre, post, c)
      modifies this`mem, this`m_free, this`m_lfree, this`tiles, this`fl
      ensures Valid() && fl != [] && m in old(tiles)
      ensures Kept(old(mem), old(tiles), mem, tiles, held) && |mem| == old(|mem|)
      ensures tiles.Keys <= old(tiles).Keys
      ensures !moves && old(m_lfree) != 0 ==> m_lfree == old(m_lfree) || old(m_lfree) !in tiles
    {
      hide InsertReady, Consistent, Full, LastFree, Kept;
      LinkFacts(this, mp, m, pre, post, c);
      if mp != 0 && m == mp + 1 + mem[mp] {
        LinkPrevFacts(this, mp, m, pre, post, c);
        tiles := Merge(tiles, mp, m);
        mem := JoinWords(mem, mp, m);
        if m == m_lfree { m_lfree := mp; }
        fl := pre + post;
      } else {
        LinkNoneFacts(this, mp, m, pre, post, c);
        if mp != 0 {
          mem := mem[mp + 1 := m];
        } else {
          m_free := m;
          if m_lfree == 0 { m_lfree := m; }
        }
        if moves && mem[m + 1] == 0 { m_lfree := m; }
        fl := pre + [m] + post;
      }
    }

    /** More than a page at the end is given back to the system. */
    method GiveBack()
      requires Valid() && fl != []
      modifies this`mem, this`m_high, this`tiles
      ensures Valid() && m_lfree in tiles && |mem| <= old(|mem|) && tiles.Keys == old(tiles.Keys) && page >= 1
      ensures m_lfree + 1 + tiles[m_lfree] == |mem| ==> tiles[m_lfree] < page + MIN
      ensures |mem| < old(|mem|) ==> tiles[m_lfree] >= MIN
      ensures (old(|mem|) - |mem|) % page == 0
      ensures Kept(old(mem), old(tiles), mem, tiles, held)
    {
      hide Consistent, Full, LastFree, Kept, RoundDown;
      LastFacts(this);
      if m_lfree + 1 + mem[m_lfree] == m_high && mem[m_lfree] >= page + MIN {
        RoundedDown(mem[m_lfree] - MIN, page);
        var n := RoundDown(mem[m_lfree] - MIN, page);
        ShrinkFacts(this, n);
        mem := mem[m_lfree := mem[m_lfree] - n];
        m_high := m_high - n;
        mem := mem[..m_high];
        tiles := tiles[m_lfree := tiles[m_lfree] - n];
      }
    }

    /** zfree for a block that is not small: p is an address malloc returned, one
        that is free already, NULL, or an address that never was in use. */
    method Release(p: int)
      requires Valid() && (p == 0 || p < m_low || p > m_high || p - 1 in used || p - 1 in fl)
      modifies this
      ensures Valid()
      ensures p - 1 in old(used) ==> held == old(held) - {p - 1} && used == old(used) - {p - 1}
      ensures p - 1 in old(used) ==> Kept(old(mem), old(tiles), mem, tiles, held) && |mem| <= old(|mem|)
      ensures p - 1 in old(used) ==> fl != [] && m_lfree in tiles
      ensures p - 1 in old(used) && m_lfree + 1 + tiles[m_lfree] == |mem| ==> tiles[m_lfree] < page + MIN
      ensures !moves && old(m_lfree) != 0 && old(m_lfree) in fl ==> m_lfree == old(m_lfree)
      ensures p - 1 !in old(used) ==>
        mem == old(mem) && tiles == old(tiles) && fl == old(fl) && held == old(held) && used == old(used)
    {
      hide Valid, JoinReady, InsertReady, Kept;
      if p - 1 in used { ReleaseFacts(this, p); }
      if p == 0 { return; }
      if p < m_low || p > m_high { return; }
      var m := p - 1;
      var mp, mt;
      ghost var k;
      mp, mt, k := FindPlace(m);
      PlaceFacts(this, mp, m, mt, k);
      if m == mt { return; }
      ghost var pre, post := fl[..k], fl[k..];
      post := JoinAfter(mp, m, mt, pre, post);
      ghost var mem1, tiles1 := mem, tiles;
      LinkIn(mp, m, pre, post, mt);
      KeptTrans(old(mem), old(tiles), mem1, tiles1, mem, tiles, held);
      ghost var mem2, tiles2 := mem, tiles;
      GiveBack();
      ListedTiles(this);
      KeptTrans(old(mem), old(tiles), mem2, tiles2, mem, tiles, held);
    }

    /** memcpy of n words into the block at t, which is in use. */
    method Copy(dst: int, src: int, n: nat, ghost t: int)
      requires Valid() && t in used && t in tiles && t < dst && dst + n <= End(tiles, t)
      requires 0 <= src && src + n <= |mem| && (src + n <= dst || dst + n <= src)
      modifies this`mem
      ensures Valid() && |mem| == old(|mem|)
      ensures 0 <= dst && dst + n <= |mem| && mem[dst..dst + n] == old(mem)[src..src + n]
      ensures forall w :: 0 <= w < |mem| && !(dst <= w < dst + n) ==> mem[w] == old(mem)[w]
    {
      StoreFacts(this, t);
      hide Consistent, Full, LastFree;
      var words := mem[..dst] + mem[src..src + n] + mem[dst + n..];
      assert forall w :: 0 <= w < |mem| && !(t < w < End(tiles, t)) ==> words[w] == mem[w];
      StoreConsistent(mem, words, low, tiles, held, fl, t);
      mem := words;
    }
  }

  lemma ChainNone(mem: seq<int>)
    ensures Chain(mem, [], 1, 0)
  {
    forall k: nat ensures Points(mem, [], 1, 0, k) {}
  }

  /** What following the free list reads. */
  lemma ListedAt(mem: seq<int>, low: int, tiles: Tiles, held: set<int>, fl: seq<int>, k: nat)
    requires Consistent(mem, low, tiles, held, fl) && k < |fl|
    ensures fl[k] in tiles && 0 < fl[k] && fl[k] + 1 < |mem|
    ensures mem[fl[k]] == tiles[fl[k]] && mem[fl[k] + 1] == Next(fl, 0, k)
  {
    ChainAt(mem, fl, 1, 0, k);
    Headed(mem, tiles, fl[k]);
  }

  lemma ListedFirst(mem: seq<int>, low: int, tiles: Tiles, held: set<int>, fl: seq<int>)
    requires Consistent(mem, low, tiles, held, fl)
    ensures At(fl, 0, Head(fl, 0), 0) && Readable(mem, tiles, fl, Head(fl, 0), 0)
  {
    if fl != [] { ListedAt(mem, low, tiles, held, fl, 0); }
  }

  lemma ListedNext(mem: seq<int>, low: int, tiles: Tiles, held: set<int>, fl: seq<int>, mp: int, m: int, k: nat,
                   size: int)
    requires Consistent(mem, low, tiles, held, fl) && At(fl, mp, m, k) && Readable(mem, tiles, fl, m, k) && m != 0
    requires TooSmall(tiles, fl, k, size) && mem[m] < size
    ensures At(fl, m, mem[m + 1], k + 1) && Readable(mem, tiles, fl, mem[m + 1], k + 1) &&
      TooSmall(tiles, fl, k + 1, size)
  {
    ListedAt(mem, low, tiles, held, fl, k);
    if k + 1 < |fl| { ListedAt(mem, low, tiles, held, fl, k + 1); }
  }

  lemma DropFull(tiles: Tiles, held: set<int>, pre: seq<int>, m: int, post: seq<int>)
    requires Full(tiles, held, pre + [m] + post)
    ensures Full(tiles, held + {m}, pre + post)
  {
    forall t | t in tiles ensures t in held + {m} || t in pre + post {
      if t !in held && t != m { assert t in pre + [m] + post; }
    }
  }

  lemma SplitFull(tiles: Tiles, held: set<int>, pre: seq<int>, m: int, post: seq<int>, size: int)
    requires m in tiles && Full(tiles, held, pre + [m] + post)
    ensures Full(Split(tiles, m, size), held + {m}, pre + [m + 1 + size] + post)
  {
    forall t | t in Split(tiles, m, size) ensures t in held + {m} || t in pre + [m + 1 + size] + post {
      if t in tiles && t !in held && t != m { assert t in pre + [m] + post; }
    }
  }

  lemma LastAfter(tiles: Tiles, pre: seq<int>, m: int, post: seq<int>, rest: seq<int>, last: int, exact: bool)
    requires Between(tiles, pre, m, post) && tiles[m] >= 1 && (forall k :: 0 <= k < |pre| ==> pre[k] < m)
    requires LastFree(pre + [m] + post, last, exact) && |rest| <= 1
    ensures LastFree(pre + rest + post, if last != m then last
                     else Head(rest, if pre != [] then Before(pre) else Head(post, 0)), exact)
  {
    var s, s' := pre + [m] + post, pre + rest + post;
    assert last in pre || last == m || last in post;
    assert post != [] ==> s[|s| - 1] == post[|post| - 1] && s'[|s'| - 1] == post[|post| - 1];
    assert post == [] ==> s[|s| - 1] == m;
    assert s[|pre|] == m;
    if last == m {
      if rest != [] { assert s'[|pre|] == rest[0]; } else if pre != [] { assert s'[|pre| - 1] == Before(pre); }
    }
  }

  lemma LastDropped(tiles: Tiles, pre: seq<int>, m: int, post: seq<int>, last: int, exact: bool)
    requires Between(tiles, pre, m, post) && tiles[m] >= 1 && (forall k :: 0 <= k < |pre| ==> pre[k] < m)
    requires LastFree(pre + [m] + post, last, exact)
    ensures LastFree(pre + post, if last != m then last else if pre != [] then Before(pre) else Head(post, 0), exact)
    ensures Head(pre + post, 0) == if pre != [] then pre[0] else Head(post, 0)
  {
    LastAfter(tiles, pre, m, post, [], last, exact);
    assert pre + [] + post == pre + post;
  }

  lemma CutList(mem: seq<int>, low: int, tiles: Tiles, held: set<int>, pre: seq<int>, rest: seq<int>)
    requires Consistent(mem, low, tiles, held, pre + rest)
    ensures Consistent(mem, low, tiles, {}, pre + rest) && held + Elems(rest) <= tiles.Keys
    ensures forall x :: x in pre ==> x !in held + Elems(rest)
  {
    var s := pre + rest;
    forall j | 0 <= j < |rest| ensures rest[j] == s[|pre| + j] && rest[j] in tiles {}
    forall i | 0 <= i < |pre| ensures pre[i] == s[i] && pre[i] !in held && pre[i] !in rest {
      forall j | 0 <= j < |rest| ensures rest[j] != pre[i] {
        ListedAt(mem, low, tiles, held, s, i);
        assert End(tiles, s[i]) < s[|pre| + j];
        Headed(mem, tiles, s[i]);
      }
    }
  }

  lemma CutFull(tiles: Tiles, held: set<int>, pre: seq<int>, rest: seq<int>, m: int, len: int)
    requires Full(tiles, held, pre + rest)
    ensures Full(tiles[m := len], held + Elems(rest), pre + [m] + [])
  {
    forall t | t in tiles[m := len] ensures t in held + Elems(rest) || t in pre + [m] + [] {
      if t == m {
        assert (pre + [m] + [])[|pre|] == m;
      } else if t !in held {
        assert t in pre + rest;
        assert t in pre || t in rest;
      }
    }
  }

  lemma NewLast(pre: seq<int>, m: int, exact: bool)
    ensures LastFree(pre + [m] + [], m, exact) && pre + [m] + [] == pre + [m]
  {
    var s := pre + [m] + [];
    assert s[|pre|] == m && |s| == |pre| + 1;
  }

  lemma KeptLess(mem: seq<int>, tiles: Tiles, mem': seq<int>, tiles': Tiles, used: set<int>, less: set<int>)
    requires Kept(mem, tiles, mem', tiles', used) && less <= used
    ensures Kept(mem, tiles, mem', tiles', less)
  {}

  lemma KeptSame(mem: seq<int>, low: int, tiles: Tiles, used: set<int>, fl: seq<int>)
    requires Consistent(mem, low, tiles, used, fl)
    ensures Kept(mem, tiles, mem, tiles, used)
  {}

  lemma CarveFacts(a: Segments, mp: int, m: int, size: int, pre: seq<int>, post: seq<int>)
    requires a.CarveReady(mp, m, size, pre, post)
    ensures m in a.tiles && 0 <= m && m + 1 < |a.mem| && a.mem[m] == a.tiles[m] && m !in a.held
    ensures 0 < m && m in Taken(a.tiles, m, size) && size <= Taken(a.tiles, m, size)[m] <= size + MIN
    ensures pre + [] + post == pre + post
  {
    hide Spaced, Chain, Full, LastFree, Taken;
    Headed(a.mem, a.tiles, m);
    TakenSize(a.tiles, a.low, |a.mem|, m, size);
  }

  lemma GrownWords(mem: seq<int>, more: seq<int>, mp: int, n: int)
    requires |more| == n >= 4 && (mp != 0 ==> 0 <= mp && mp + 1 < |mem|)
    ensures var words := (mem + more)[|mem| := n - 1][|mem| + 1 := 0];
            GrowWords(mem, more, mp) == if mp != 0 then words[mp + 1 := |mem|] else words
  {}

  lemma GrowthSize(a: Segments, size: int)
    requires a.Valid() && size >= 1
    ensures a.page >= 1 && size + HSIZE <= RoundUp(size + HSIZE, a.page) < size + HSIZE + a.page
    ensures RoundUp(size + HSIZE, a.page) % a.page == 0
  {
    RoundedUp(size + HSIZE, a.page);
  }

  lemma Below(mem: seq<int>, low: int, tiles: Tiles, held: set<int>, fl: seq<int>)
    requires Consistent(mem, low, tiles, held, fl)
    ensures 0 < low <= |mem|
  {}

  lemma ExtendFacts(a: Segments, size: int, more: seq<int>, pre: seq<int>, rest: seq<int>)
    requires a.Valid() && |more| == RoundUp(size + HSIZE, a.page) && size >= 1 && a.fl == pre + rest &&
      a.m_lfree == Before(pre) && (pre == [] ==> a.fl == [])
    ensures var n, mp, m, held' := |more|, Before(pre), |a.mem|, a.held + Elems(rest);
            n >= size + HSIZE && (mp != 0 ==> 0 <= mp && mp + 1 < m) && m !in a.tiles && a.used <= held' &&
            var mem', tiles' := GrowWords(a.mem, more, mp), a.tiles[m := n - 1];
            Holding(mem', a.low, tiles', held', pre, m, [], m) && Kept(a.mem, a.tiles, mem', tiles', held') &&
            Full(tiles', held', pre + [m] + []) && Clear(tiles', m, [])
    ensures LastFree(pre + [|a.mem|] + [], |a.mem|, a.moves) && pre + [|a.mem|] + [] == pre + [|a.mem|]
    ensures a.page >= 1 && (pre != [] ==> a.m_free == pre[0]) && a.Bounds() && |a.mem| > 0
  {
    Below(a.mem, a.low, a.tiles, a.held, a.fl);
    hide Consistent, LastFree, Kept, RoundUp, Elems, Full, Holding, GrowWords;
    RoundedUp(size + HSIZE, a.page);
    CutList(a.mem, a.low, a.tiles, a.held, pre, rest);
    GrowHolding(a.mem, a.low, a.tiles, pre, rest, more, a.held + Elems(rest));
    CutFull(a.tiles, a.held, pre, rest, |a.mem|, |more| - 1);
    NewLast(pre, |a.mem|, a.moves);
  }

  lemma ObtainFacts(a: Segments)
    requires a.Valid()
    ensures Kept(a.mem, a.tiles, a.mem, a.tiles, a.held) && a.used <= a.held && |a.mem| > 0
    ensures a.moves ==> Forgotten(a.fl, a.m_lfree) == {}
  {
    KeptSame(a.mem, a.low, a.tiles, a.held, a.fl);
    Below(a.mem, a.low, a.tiles, a.held, a.fl);
    hide Full, Kept;
    NoneForgotten(a.mem, a.low, a.tiles, a.held, a.fl, a.m_lfree);
  }

  /** sbrk loses nothing exactly when m_lfree is the last block on the list. */
  lemma NoneForgotten(mem: seq<int>, low: int, tiles: Tiles, held: set<int>, fl: seq<int>, last: int)
    requires Consistent(mem, low, tiles, held, fl) && LastFree(fl, last, false)
    ensures Forgotten(fl, last) == {} <==> fl == [] || EndsIn(fl, last)
  {
    hide Spaced, Chain, Tiled, Headers;
    if fl != [] {
      var n := |fl| - 1;
      var i :| 0 <= i < |fl| && fl[i] == last;
      forall j | 0 <= j < n ensures fl[j] < fl[n] { Ascends(tiles, low, |mem|, fl, j, n); }
      assert fl[n] != last ==> fl[n] in Forgotten(fl, last);
      assert fl[n] == last ==> forall x :: x in fl ==> x <= last;
    }
  }

  lemma CutFacts(a: Segments) returns (pre: seq<int>, rest: seq<int>)
    requires a.Valid()
    ensures a.fl == pre + rest && a.m_lfree == Before(pre) && (pre == [] ==> a.fl == []) &&
      Elems(rest) == Forgotten(a.fl, a.m_lfree)
    ensures pre == UpTo(a.fl, a.m_lfree)
  {
    hide Consistent, Full, Forgotten, Elems;
    pre, rest := LastCut(a.mem, a.low, a.tiles, a.held, a.fl, a.m_lfree);
    assert a.fl[..|pre|] == pre;
    if a.fl != [] {
      FirstOnly(a.mem, a.low, a.tiles, a.held, a.fl, |pre| - 1);
      UpToPrefix(a.fl, |pre| - 1);
    }
  }

  lemma TakeFacts(a: Segments, mp: int, m: int, size: int, pre: seq<int>, post: seq<int>)
    requires a.CarveReady(mp, m, size, pre, post)
    ensures 0 <= m && m + 1 < |a.mem| && a.mem[m + 1] == Head(post, 0) && m in a.tiles
    ensures 0 <= mp && (mp != 0 ==> mp + 1 < |a.mem|) && mp == Before(pre) && (mp != 0 <==> pre != []) && a.page >= 1 &&
      a.used <= a.held && a.Bounds()
    ensures var mem' := if mp != 0 then a.mem[mp + 1 := a.mem[m + 1]] else a.mem;
            Consistent(mem', a.low, a.tiles, a.held + {m}, pre + post) && Kept(a.mem, a.tiles, mem', a.tiles, a.held)
    ensures Full(a.tiles, a.held + {m}, pre + post)
    ensures (if pre != [] then a.m_free else Head(post, 0)) == Head(pre + post, 0)
    ensures LastFree(pre + post, if a.m_lfree != m then a.m_lfree else if pre != [] then mp else Head(post, 0), a.moves)
  {
    hide Consistent, Full, LastFree, Kept, Spaced, Chain, Tiled, Headers;
    LinksClear(a.mem, a.low, a.tiles, pre, m, post);
    DropConsistent(a.mem, a.low, a.tiles, a.held, pre, m, post);
    DropFull(a.tiles, a.held, pre, m, post);
    LastDropped(a.tiles, pre, m, post, a.m_lfree, a.moves);
  }

  lemma RestFacts(a: Segments, mp: int, m: int, size: int, pre: seq<int>, post: seq<int>)
    requires a.CarveReady(mp, m, size, pre, post) && 0 <= m < |a.mem| && a.mem[m] == a.tiles[m] && a.mem[m] - size > MIN
    ensures m in a.tiles && size >= 1 && m + 2 + size < |a.mem|
    ensures 0 <= mp && mp + 1 < |a.mem| && (mp != 0 <==> pre != [])
    ensures a.page >= 1 && a.used <= a.held && a.m_low == a.low != 0 && a.m_high == |a.mem|
    ensures var mem' := SplitWords(a.mem, mp, m, size);
            Consistent(mem', a.low, Split(a.tiles, m, size), a.held + {m}, pre + [m + 1 + size] + post) &&
            Kept(a.mem, a.tiles, mem', Split(a.tiles, m, size), a.held)
    ensures Full(Split(a.tiles, m, size), a.held + {m}, pre + [m + 1 + size] + post)
    ensures (if pre != [] then a.m_free else m + 1 + size) == Head(pre + [m + 1 + size] + post, 0)
    ensures LastFree(pre + [m + 1 + size] + post, if a.m_lfree != m then a.m_lfree else m + 1 + size, a.moves)
  {
    hide Consistent, Full, LastFree, Kept, Split, Spaced, Chain, Tiled, Headers, SplitWords;
    LinksClear(a.mem, a.low, a.tiles, pre, m, post);
    SplitConsistent(a.mem, a.low, a.tiles, a.held, pre, m, post, size);
    SplitFull(a.tiles, a.held, pre, m, post, size);
    LastAfter(a.tiles, pre, m, post, [m + 1 + size], a.m_lfree, a.moves);
  }

  lemma TakenSize(tiles: Tiles, low: int, high: int, m: int, size: int)
    requires Tiled(tiles, low, high) && m in tiles && tiles[m] >= size >= 1
    ensures 0 < m && m in Taken(tiles, m, size) && size <= Taken(tiles, m, size)[m] <= size + MIN
  {}

  lemma FitReady(a: Segments, mp: int, m: int, size: int, k: nat)
    requires a.Valid() && At(a.fl, mp, m, k) && k < |a.fl| && m in a.tiles && a.tiles[m] >= size >= 1
    ensures a.CarveReady(mp, m, size, a.fl[..k], a.fl[k + 1..])
  {
    hide Consistent, Full, LastFree, Holding, Clear;
    var pre, post := a.fl[..k], a.fl[k + 1..];
    assert a.fl == pre + [m] + post;
    FitHolding(a.mem, a.low, a.tiles, a.held, a.fl, k);
  }

  lemma FitHolding(mem: seq<int>, low: int, tiles: Tiles, held: set<int>, fl: seq<int>, k: nat)
    requires Consistent(mem, low, tiles, held, fl) && k < |fl|
    ensures fl[k] in tiles && Holding(mem, low, tiles, held, fl[..k], fl[k], fl[k + 1..], fl[k]) &&
      Clear(tiles, fl[k], fl[k + 1..])
  {
    var pre, m, post := fl[..k], fl[k], fl[k + 1..];
    assert fl == pre + ([m] + post);
    FitBetween(mem, low, tiles, held, fl, k);
    hide Spaced, Tiled, Headers, Between, Clear, Chain;
    ChainSplit(mem, pre, [m] + post, 1, 0);
    ChainSplit(mem, [m], post, 1, 0);
    ListedAt(mem, low, tiles, held, fl, k);
  }

  lemma FitBetween(mem: seq<int>, low: int, tiles: Tiles, held: set<int>, fl: seq<int>, k: nat)
    requires Consistent(mem, low, tiles, held, fl) && k < |fl|
    ensures fl[k] in tiles && Between(tiles, fl[..k], fl[k], fl[k + 1..]) && Clear(tiles, fl[k], fl[k + 1..])
  {
    hide Chain, Tiled, Headers;
    var pre, m, post := fl[..k], fl[k], fl[k + 1..];
    assert fl == pre + ([m] + post);
    SpacedRemove(tiles, tiles, pre, m, post);
  }

  lemma FirstOnly(mem: seq<int>, low: int, tiles: Tiles, held: set<int>, fl: seq<int>, i: nat)
    requires Consistent(mem, low, tiles, held, fl) && i < |fl|
    ensures forall j :: 0 <= j < i ==> fl[j] != fl[i]
  {
    hide Spaced, Chain, Tiled, Headers;
    forall j | 0 <= j < i ensures fl[j] != fl[i] { Ascends(tiles, low, |mem|, fl, j, i); }
  }

  lemma {:induction false} UpToPrefix(fl: seq<int>, i: nat)
    requires i < |fl| && forall j :: 0 <= j < i ==> fl[j] != fl[i]
    ensures UpTo(fl, fl[i]) == fl[..i + 1]
  {
    if i > 0 {
      UpToPrefix(fl[1..], i - 1);
      assert fl[..i + 1] == [fl[0]] + fl[1..][..i];
    }
  }

  lemma LastCut(mem: seq<int>, low: int, tiles: Tiles, held: set<int>, fl: seq<int>, last: int)
    returns (pre: seq<int>, rest: seq<int>)
    requires Consistent(mem, low, tiles, held, fl) && LastFree(fl, last, false)
    ensures fl == pre + rest && last == Before(pre) && (pre == [] ==> fl == []) && Elems(rest) == Forgotten(fl, last)
  {
    hide Spaced, Chain, Tiled, Headers;
    if fl == [] { return [], []; }
    var i :| 0 <= i < |fl| && fl[i] == last;
    pre, rest := fl[..i + 1], fl[i + 1..];
    forall a, b | 0 <= a < b < |fl| ensures fl[a] < fl[b] { Ascends(tiles, low, |mem|, fl, a, b); }
    Above(fl, i);
  }

  lemma Above(fl: seq<int>, i: nat)
    requires i < |fl| && forall a, b :: 0 <= a < b < |fl| ==> fl[a] < fl[b]
    ensures Elems(fl[i + 1..]) == Forgotten(fl, fl[i])
  {
    var rest := fl[i + 1..];
    forall x | x in rest ensures x in Forgotten(fl, fl[i]) {
      var j :| 0 <= j < |rest| && rest[j] == x;
      assert fl[i + 1 + j] == x;
    }
    forall x | x in Forgotten(fl, fl[i]) ensures x in rest {
      var j :| 0 <= j < |fl| && fl[j] == x;
      assert j > i;
      assert rest[j - i - 1] == x;
    }
  }

  lemma Ascends(tiles: Tiles, low: int, high: int, fl: seq<int>, i: nat, j: nat)
    requires Tiled(tiles, low, high) && Spaced(tiles, fl) && i < |fl| && j < |fl|
    ensures i < j ==> fl[i] < fl[j]
  {
    assert fl[i] in tiles;
  }

  // ----- zfree -----

  lemma NoneBelow(fl: seq<int>, m: int)
    ensures AllBelow(fl, 0, m)
  {}

  lemma PlaceNext(mem: seq<int>, low: int, tiles: Tiles, held: set<int>, fl: seq<int>, mp: int, mt: int, k: nat, m: int)
    requires Consistent(mem, low, tiles, held, fl) && At(fl, mp, mt, k) && Readable(mem, tiles, fl, mt, k) && mt != 0
    requires AllBelow(fl, k, m) && mt < m
    ensures At(fl, mt, mem[mt + 1], k + 1) && Readable(mem, tiles, fl, mem[mt + 1], k + 1) && AllBelow(fl, k + 1, m)
  {
    ListedAt(mem, low, tiles, held, fl, k);
    if k + 1 < |fl| { ListedAt(mem, low, tiles, held, fl, k + 1); }
  }

  lemma JoinFacts(a: Segments, mp: int, m: int, mt: int, pre: seq<int>, post: seq<int>)
    requires a.JoinReady(mp, m, mt, pre, post)
    ensures m in a.tiles && 0 < m && m + 1 < |a.mem| && a.mem[m] == a.tiles[m] >= 1 && m in a.used && m in a.held &&
      a.used <= a.held
    ensures a.page >= 1 && mp == Before(pre) && (pre != [] ==> a.m_free == pre[0]) && a.Bounds() && mt == Head(post, 0)
    ensures Loose(a.mem, a.low, a.tiles, a.held, pre, m, post) && (post != [] <==> mt != 0)
    ensures Full(a.tiles, a.held, pre + post) && LastFree(pre + post, a.m_lfree, a.moves)
  {
    hide Full, LastFree, Spaced, Chain, Between;
    Headed(a.mem, a.tiles, m);
    if post != [] {
      assert a.fl[|pre|] == mt;
      ListedAt(a.mem, a.low, a.tiles, a.held, a.fl, |pre|);
    }
    assert pre != [] ==> a.fl[0] == pre[0];
  }

  lemma JoinNextFacts(a: Segments, mp: int, m: int, mt: int, pre: seq<int>, post: seq<int>)
    requires a.JoinReady(mp, m, mt, pre, post) && mt != 0 && m in a.tiles && mt == End(a.tiles, m)
    ensures post != [] && 0 <= m && m + 1 < |a.mem| && 0 <= mt && mt + 1 < |a.mem| && m in a.tiles && mt in a.tiles
    ensures var mem', tiles' := JoinWords(a.mem, m, mt), Merge(a.tiles, m, mt);
            Holding(mem', a.low, tiles', a.held - {m}, pre, m, post[1..], mt) && Clear(tiles', m, post[1..]) &&
            Kept(a.mem, a.tiles, mem', tiles', a.held - {m}) && Full(tiles', a.held - {m}, pre + [m] + post[1..]) &&
            m in tiles'
    ensures LastStage(pre, m, post[1..], if mt == a.m_lfree then m else a.m_lfree, a.moves)
    ensures Merge(a.tiles, m, mt).Keys <= a.tiles.Keys && mt !in Merge(a.tiles, m, mt)
  {
    hide Segments.JoinReady, Segments.Valid, Full, LastFree, Loose, Kept, LastStage, Holding, Clear, Merge, JoinWords;
    JoinFacts(a, mp, m, mt, pre, post);
    var rest := post[1..];
    assert post == [mt] + rest;
    NextTile(a.mem, a.low, a.tiles, a.held, pre, m, post);
    JoinNext(a.mem, a.low, a.tiles, a.held, pre, m, mt, rest);
    JoinFull(a.tiles, a.held, pre, m, mt, rest);
    JoinLast(pre, m, mt, rest, a.m_lfree, a.moves);
  }

  lemma NextTile(mem: seq<int>, low: int, tiles: Tiles, held: set<int>, pre: seq<int>, m: int, post: seq<int>)
    requires Loose(mem, low, tiles, held, pre, m, post) && post != []
    ensures post[0] in tiles && post[0] !in post[1..]
  {
    hide Chain, Headers;
    var s := pre + post;
    forall k | 1 <= k < |post| ensures post[k] > post[0] {
      assert s[|pre|] == post[0] && s[|pre| + k] == post[k];
      assert End(tiles, s[|pre|]) < s[|pre| + k];
    }
  }

  lemma JoinFull(tiles: Tiles, held: set<int>, pre: seq<int>, m: int, q: int, rest: seq<int>)
    requires Full(tiles, held, pre + ([q] + rest)) && m in tiles && q in tiles && m != q
    ensures m in Merge(tiles, m, q) && Merge(tiles, m, q).Keys <= tiles.Keys && q !in Merge(tiles, m, q)
    ensures Full(Merge(tiles, m, q), held - {m}, pre + [m] + rest)
  {
    forall t | t in Merge(tiles, m, q) ensures t in held - {m} || t in pre + [m] + rest {
      if t == m {
        assert (pre + [m] + rest)[|pre|] == m;
      } else if t !in held {
        assert t in pre + ([q] + rest);
        assert t in pre || t in rest;
      }
    }
  }

  lemma JoinLast(pre: seq<int>, m: int, q: int, rest: seq<int>, last: int, exact: bool)
    requires LastFree(pre + ([q] + rest), last, exact) && q !in rest
    ensures LastStage(pre, m, rest, if q == last then m else last, exact)
  {
    var s := pre + ([q] + rest);
    assert s[|pre|] == q;
    assert last in pre || last == q || last in rest;
    assert rest != [] ==> s[|s| - 1] == rest[|rest| - 1];
    assert rest == [] ==> s[|s| - 1] == q;
  }

  lemma JoinNoneFacts(a: Segments, mp: int, m: int, mt: int, pre: seq<int>, post: seq<int>)
    requires a.JoinReady(mp, m, mt, pre, post) && m in a.tiles && (mt != 0 ==> mt != End(a.tiles, m))
    ensures 0 <= m && m + 1 < |a.mem|
    ensures var mem' := a.mem[m + 1 := mt];
            Holding(mem', a.low, a.tiles, a.held - {m}, pre, m, post, mt) && Clear(a.tiles, m, post) &&
            Kept(a.mem, a.tiles, mem', a.tiles, a.held - {m}) && Full(a.tiles, a.held - {m}, pre + [m] + post)
    ensures LastStage(pre, m, post, a.m_lfree, a.moves)
  {
    hide Segments.JoinReady, Segments.Valid, Full, LastFree, Loose, Kept, LastStage, Holding, Clear;
    JoinFacts(a, mp, m, mt, pre, post);
    JoinNone(a.mem, a.low, a.tiles, a.held, pre, m, post);
    NoneFull(a.tiles, a.held, pre, m, post);
    NoneLast(pre, m, post, a.m_lfree, a.moves);
  }

  lemma NoneFull(tiles: Tiles, held: set<int>, pre: seq<int>, m: int, post: seq<int>)
    requires Full(tiles, held, pre + post)
    ensures Full(tiles, held - {m}, pre + [m] + post)
  {
    forall t | t in tiles ensures t in held - {m} || t in pre + [m] + post {
      if t == m {
        assert (pre + [m] + post)[|pre|] == m;
      } else if t !in held {
        assert t in pre + post;
        assert t in pre || t in post;
      }
    }
  }

  lemma NoneLast(pre: seq<int>, m: int, post: seq<int>, last: int, exact: bool)
    requires LastFree(pre + post, last, exact)
    ensures LastStage(pre, m, post, last, exact)
  {
    var s := pre + post;
    assert s != [] ==> last in pre || last in post;
    assert post != [] ==> s[|s| - 1] == post[|post| - 1];
    assert post == [] ==> s == pre;
  }

  lemma LinkFacts(a: Segments, mp: int, m: int, pre: seq<int>, post: seq<int>, c: int)
    requires a.InsertReady(mp, m, pre, post, c)
    ensures 0 < m && m + 1 < |a.mem| && a.mem[m + 1] == Head(post, 0) && m in a.tiles &&
      (post == [] <==> Head(post, 0) == 0)
    ensures 0 <= mp && mp == Before(pre) && (mp != 0 <==> pre != []) && a.page >= 1 && a.used <= a.held && a.Bounds()
    ensures mp != 0 ==> mp + 1 < |a.mem| && mp in a.tiles && a.mem[mp] == a.tiles[mp] && a.m_free == pre[0]
  {
    hide Full, LastStage, Spaced, Chain;
    LinksClear(a.mem, a.low, a.tiles, pre, m, post);
    Headed(a.mem, a.tiles, m);
    if mp != 0 { Headed(a.mem, a.tiles, mp); }
  }

  lemma LinkPrevFacts(a: Segments, mp: int, m: int, pre: seq<int>, post: seq<int>, c: int)
    requires a.InsertReady(mp, m, pre, post, c) && mp != 0 && mp in a.tiles && End(a.tiles, mp) == m
    ensures 0 <= m && m + 1 < |a.mem| && 0 <= mp && mp + 1 < |a.mem| && m in a.tiles && pre != []
    ensures var mem', tiles' := JoinWords(a.mem, mp, m), Merge(a.tiles, mp, m);
            Consistent(mem', a.low, tiles', a.held, pre + post) && Kept(a.mem, a.tiles, mem', tiles', a.held) &&
            Full(tiles', a.held, pre + post) && mp in tiles'
    ensures LastFree(pre + post, if m == a.m_lfree then mp else a.m_lfree, a.moves) && Head(pre + post, 0) == a.m_free
  {
    hide Segments.InsertReady, Consistent, Full, LastFree, LastStage, Holding, Clear, Kept, Merge, JoinWords;
    LinkFacts(a, mp, m, pre, post, c);
    StageFacts(a, mp, m, pre, post, c);
    LinkPrev(a.mem, a.low, a.tiles, a.held, pre, m, post, c);
    PrevFull(a.tiles, a.held, pre, mp, m, post);
    PrevLast(pre, m, post, a.m_lfree, a.moves);
  }

  lemma StageFacts(a: Segments, mp: int, m: int, pre: seq<int>, post: seq<int>, c: int)
    requires a.InsertReady(mp, m, pre, post, c)
    ensures m in a.tiles && Holding(a.mem, a.low, a.tiles, a.held, pre, m, post, c) && Clear(a.tiles, m, post)
    ensures Full(a.tiles, a.held, pre + [m] + post) && LastStage(pre, m, post, a.m_lfree, a.moves)
    ensures m !in pre && m !in post && 0 !in pre && 0 !in post
  {
    hide Full, LastStage, Headers, Chain, Spaced;
    assert a.tiles[m] >= 1;
    forall k | 0 <= k < |pre| ensures pre[k] != m { assert a.tiles[pre[k]] >= 1; }
  }

  lemma PrevFull(tiles: Tiles, held: set<int>, pre: seq<int>, mp: int, m: int, post: seq<int>)
    requires Full(tiles, held, pre + [m] + post) && m in tiles && mp in tiles && pre != [] && mp == Before(pre) &&
      m != mp
    ensures mp in Merge(tiles, mp, m) && Full(Merge(tiles, mp, m), held, pre + post)
  {
    forall t | t in Merge(tiles, mp, m) ensures t in held || t in pre + post {
      if t == mp {
        assert (pre + post)[|pre| - 1] == mp;
      } else if t !in held {
        assert t in pre + [m] + post;
        assert t in pre || t in post;
      }
    }
  }

  lemma PrevLast(pre: seq<int>, m: int, post: seq<int>, last: int, exact: bool)
    requires LastStage(pre, m, post, last, exact) && pre != [] && m !in pre && m !in post
    ensures LastFree(pre + post, if m == last then Before(pre) else last, exact) && Head(pre + post, 0) == pre[0]
  {
    var s := pre + post;
    assert s[|pre| - 1] == Before(pre);
    assert post != [] ==> s[|s| - 1] == post[|post| - 1];
    assert post == [] ==> s == pre;
    assert forall x :: x in s <==> x in pre || x in post;
  }

  lemma LinkNoneFacts(a: Segments, mp: int, m: int, pre: seq<int>, post: seq<int>, c: int)
    requires a.InsertReady(mp, m, pre, post, c) && (mp != 0 ==> mp in a.tiles && End(a.tiles, mp) != m)
    ensures 0 <= m && m + 1 < |a.mem| && (mp != 0 ==> 0 <= mp && mp + 1 < |a.mem|) && m in a.tiles
    ensures var mem' := if mp != 0 then a.mem[mp + 1 := m] else a.mem;
            Consistent(mem', a.low, a.tiles, a.held, pre + [m] + post) && Kept(a.mem, a.tiles, mem', a.tiles, a.held) &&
            mem'[m + 1] == Head(post, 0)
    ensures Full(a.tiles, a.held, pre + [m] + post)
    ensures LastFree(pre + [m] + post, if a.moves && post == [] then m else if mp == 0 && a.m_lfree == 0 then m
                     else a.m_lfree, a.moves)
    ensures Head(pre + [m] + post, 0) == if mp != 0 then a.m_free else m
  {
    hide Segments.InsertReady, Consistent, Full, LastFree, LastStage, Holding, Clear, Kept;
    LinkFacts(a, mp, m, pre, post, c);
    StageFacts(a, mp, m, pre, post, c);
    LinkNone(a.mem, a.low, a.tiles, a.held, pre, m, post, c);
    assert mp != 0 ==> mp + 1 != m + 1;
    NoneStage(pre, m, post, a.m_lfree, a.moves);
  }

  lemma NoneStage(pre: seq<int>, m: int, post: seq<int>, last: int, exact: bool)
    requires LastStage(pre, m, post, last, exact) && m != 0
    requires 0 !in pre && 0 !in post
    ensures LastFree(pre + [m] + post, if exact && post == [] then m else if pre == [] && last == 0 then m
                     else last, exact)
    ensures Head(pre + [m] + post, 0) == if pre != [] then pre[0] else m
  {
    var s := pre + [m] + post;
    assert s[|pre|] == m;
    assert post != [] ==> s[|s| - 1] == post[|post| - 1];
    assert forall x :: x in s <==> x in pre || x == m || x in post;
  }

  lemma LastFacts(a: Segments)
    requires a.Valid() && a.fl != []
    ensures a.m_lfree in a.tiles && 0 <= a.m_lfree && a.m_lfree + 1 < |a.mem| && a.mem[a.m_lfree] == a.tiles[a.m_lfree]
    ensures a.m_high == |a.mem| && a.page >= 1 && a.m_low != 0
    ensures Kept(a.mem, a.tiles, a.mem, a.tiles, a.held)
  {
    hide Full, Spaced, Chain, Tiled, Headers;
    KeptSame(a.mem, a.low, a.tiles, a.held, a.fl);
    var k :| 0 <= k < |a.fl| && a.fl[k] == a.m_lfree;
    ListedAt(a.mem, a.low, a.tiles, a.held, a.fl, k);
  }

  lemma ShrinkFacts(a: Segments, n: int)
    requires a.Valid() && a.fl != [] && a.m_lfree in a.tiles && End(a.tiles, a.m_lfree) == |a.mem| && 0 <= n &&
      a.tiles[a.m_lfree] - n >= 1
    ensures 0 <= a.m_lfree < |a.mem| && 0 <= n <= |a.mem|
    ensures var mem', tiles' := ShrinkWords(a.mem, a.m_lfree, n), a.tiles[a.m_lfree := a.tiles[a.m_lfree] - n];
            Consistent(mem', a.low, tiles', a.held, a.fl) && Kept(a.mem, a.tiles, mem', tiles', a.held) &&
            Full(tiles', a.held, a.fl)
    ensures a.used <= a.held && a.m_free == Head(a.fl, 0) && LastFree(a.fl, a.m_lfree, a.moves) && a.m_low == a.low
  {
    hide Consistent, Kept, Spaced, Chain, Tiled, Headers;
    ShrinkConsistent(a.mem, a.low, a.tiles, a.held, a.fl, a.m_lfree, n);
  }

  lemma ReleaseFacts(a: Segments, p: int)
    requires a.Valid() && p - 1 in a.used
    ensures p != 0 && a.m_low <= p <= a.m_high && p - 1 in a.held
  {
    hide Full, LastFree, Spaced, Chain;
    Headed(a.mem, a.tiles, p - 1);
  }

  lemma Positive(a: Segments, m: int)
    requires a.Valid() && (m in a.used || m in a.fl)
    ensures m > 0 && m in a.tiles
  {
    hide Full, LastFree, Headers, Chain;
  }

  lemma ListedTiles(a: Segments)
    requires a.Valid()
    ensures forall x :: x in a.fl ==> x in a.tiles
  {
    hide Full, LastFree, Headers, Chain, Tiled;
  }

  lemma PlaceFacts(a: Segments, mp: int, m: int, mt: int, k: nat)
    requires a.Valid() && (m in a.used || m in a.fl) && At(a.fl, mp, mt, k) && AllBelow(a.fl, k, m) &&
      (mt != 0 ==> mt >= m)
    requires mt == 0 <==> k == |a.fl|
    ensures m in a.fl <==> m == mt
    ensures m in a.used ==> m !in a.fl && a.JoinReady(mp, m, mt, a.fl[..k], a.fl[k..])
  {
    hide Full, LastFree, Headers, Chain, Tiled, Spaced, Between;
    Positive(a, m);
    if m in a.fl {
      var j :| 0 <= j < |a.fl| && a.fl[j] == m;
      Ascends(a.tiles, a.low, |a.mem|, a.fl, k, j);
    }
    var pre, post := a.fl[..k], a.fl[k..];
    assert a.fl == pre + post;
    if m in a.used { PlaceBetween(a.tiles, a.low, |a.mem|, a.fl, m, k); }
  }

  lemma PlaceBetween(tiles: Tiles, low: int, high: int, fl: seq<int>, m: int, k: nat)
    requires Tiled(tiles, low, high) && Spaced(tiles, fl) && m in tiles && m !in fl
    requires AllBelow(fl, k, m) && (k < |fl| ==> fl[k] >= m)
    ensures Between(tiles, fl[..k], m, fl[k..])
  {
    var pre, post := fl[..k], fl[k..];
    assert fl == pre + post;
    forall i | 0 <= i < |pre| ensures pre[i] in tiles && End(tiles, pre[i]) <= m {
      assert pre[i] == fl[i];
      Apart(tiles, low, high, m, pre[i]);
    }
    forall i | 0 <= i < |post| ensures post[i] in tiles && End(tiles, m) <= post[i] {
      assert post[i] == fl[k + i];
      Ascends(tiles, low, high, fl, k, k + i);
      Apart(tiles, low, high, m, post[i]);
    }
    hide Tiled, Spaced;
    BetweenAll(tiles, pre, m, post);
  }

  lemma StoreFacts(a: Segments, t: int)
    requires a.Valid() && t in a.used && t in a.tiles
    ensures 0 <= t && End(a.tiles, t) <= |a.mem| && t in a.held
  {
    hide Full, LastFree, Spaced, Chain;
    Headed(a.mem, a.tiles, t);
  }

  /** Writing to a block in use disturbs nothing. */
  lemma StoreConsistent(mem: seq<int>, mem': seq<int>, low: int, tiles: Tiles, held: set<int>, fl: seq<int>, t: int)
    requires Consistent(mem, low, tiles, held, fl) && t in held && |mem'| == |mem|
    requires forall w :: 0 <= w < |mem| && !(t < w < End(tiles, t)) ==> mem'[w] == mem[w]
    ensures Consistent(mem', low, tiles, held, fl)
  {
    forall u | u in tiles ensures mem'[u] == mem[u] {
      if t < u < End(tiles, t) { Apart(tiles, low, |mem|, t, u); }
    }
    forall k | 0 <= k < |fl| ensures fl[k] + 1 < |mem'| && mem'[fl[k] + 1] == mem[fl[k] + 1] {
      ListedAt(mem, low, tiles, held, fl, k);
      Apart(tiles, low, |mem|, t, fl[k]);
    }
    hide Spaced, Tiled;
    ChainFrame(mem, mem', fl, 1, 0);
  }
}
