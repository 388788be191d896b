/** The segment allocator of Src/mem.c (ZSH_MEM): blocks with a one-word header,
    an address-ordered free list whose neighbours are merged, growth by sbrk and
    shrinking by brk.

    Memory is a sequence of words, an address is a word number, NULL is 0, and
    the system break is the length of the memory.  The header of the block at t
    is the word t, holding the number of words after it; a free block keeps the
    next free one in word t + 1. */
module MemSegments {
  import opened MemChains

  /** M_MIN: a block is split only if more than this would be left over. */
  const MIN := 2
  /** M_HSIZE: the whole of struct m_hdr. */
  const HSIZE := 4

  /** The blocks: the words after the header, by address. */
  type Tiles = map<int, int>

  function End(tiles: Tiles, t: int): int
    requires t in tiles
  {
    t + 1 + tiles[t]
  }

  /** The block at t ends where another begins, or at high. */
  ghost predicate Meets(tiles: Tiles, high: int, t: int) {
    t in tiles ==> End(tiles, t) == high || End(tiles, t) in tiles
  }

  /** Blocks follow one another from low to high without gaps or overlaps. */
  ghost predicate Tiled(tiles: Tiles, low: int, high: int) {
    0 < low <= high && (low < high ==> low in tiles) &&
    (forall t :: t in tiles ==> low <= t && tiles[t] >= 1 && End(tiles, t) <= high) &&
    (forall t {:trigger Meets(tiles, high, t)} :: Meets(tiles, high, t)) &&
    (forall t, u :: t in tiles && u in tiles && t < u ==> End(tiles, t) <= u)
  }

  /** Blocks in ascending order, no two of them adjacent. */
  ghost predicate Spaced(tiles: Tiles, fl: seq<int>) {
    (forall k :: 0 <= k < |fl| ==> fl[k] in tiles) &&
    (forall j, k :: 0 <= j < k < |fl| ==> End(tiles, fl[j]) < fl[k])
  }

  /** Memory holds the headers of the blocks. */
  ghost predicate Headers(mem: seq<int>, tiles: Tiles) {
    forall t :: t in tiles ==> 0 <= t && tiles[t] >= 1 && End(tiles, t) <= |mem| && mem[t] == tiles[t]
  }

  ghost predicate SameWord(mem: seq<int>, mem': seq<int>, a: int) {
    0 <= a < |mem| && a < |mem'| && mem'[a] == mem[a]
  }

  /** The blocks in `used` are still there, with the same words. */
  ghost predicate Kept(mem: seq<int>, tiles: Tiles, mem': seq<int>, tiles': Tiles, used: set<int>) {
    (forall t :: t in used ==> t in tiles && t in tiles' && tiles'[t] == tiles[t]) &&
    (forall t, a :: t in used && t in tiles && t <= a < End(tiles, t) ==> SameWord(mem, mem', a))
  }

  lemma KeptTrans(mem0: seq<int>, tiles0: Tiles, mem1: seq<int>, tiles1: Tiles, mem2: seq<int>, tiles2: Tiles,
                  used: set<int>)
    requires Kept(mem0, tiles0, mem1, tiles1, used) && Kept(mem1, tiles1, mem2, tiles2, used)
    ensures Kept(mem0, tiles0, mem2, tiles2, used)
  {
    forall t, a | t in used && t in tiles0 && t <= a < End(tiles0, t)
      ensures SameWord(mem0, mem2, a)
    {
      assert SameWord(mem0, mem1, a) && SameWord(mem1, mem2, a);
    }
  }

  /** Two blocks do not overlap. */
  lemma Apart(tiles: Tiles, low: int, high: int, t: int, u: int)
    requires Tiled(tiles, low, high) && t in tiles && u in tiles && t != u
    ensures End(tiles, u) <= t || End(tiles, t) <= u
  {}

  // ----- Splitting and merging blocks -----

  function Split(tiles: Tiles, m: int, size: int): Tiles
    requires m in tiles
  {
    tiles[m := size][m + 1 + size := tiles[m] - size - 1]
  }

  lemma SplitTiled(tiles: Tiles, low: int, high: int, m: int, size: int)
    requires Tiled(tiles, low, high) && m in tiles && size >= 1 && tiles[m] - size > MIN
    ensures m + 1 + size !in tiles && Tiled(Split(tiles, m, size), low, high)
  {
    var r := m + 1 + size;
    assert m < r < End(tiles, m);
    assert r !in tiles;
    var tiles' := Split(tiles, m, size);
    forall t ensures Meets(tiles', high, t) {
      assert Meets(tiles, high, if t == r then m else t);
    }
  }

  function Merge(tiles: Tiles, m: int, q: int): Tiles
    requires m in tiles && q in tiles
  {
    (map t | t in tiles && t != q :: tiles[t])[m := tiles[m] + 1 + tiles[q]]
  }

  lemma MergeTiled(tiles: Tiles, low: int, high: int, m: int, q: int)
    requires Tiled(tiles, low, high) && m in tiles && q in tiles && q == End(tiles, m)
    ensures Tiled(Merge(tiles, m, q), low, high) && End(Merge(tiles, m, q), m) == End(tiles, q)
  {
    var tiles' := Merge(tiles, m, q);
    forall t ensures Meets(tiles', high, t) {
      assert Meets(tiles, high, t) && Meets(tiles, high, q);
      if t in tiles' && t != m && End(tiles, t) == q {
        Apart(tiles, low, high, t, m);
      }
    }
  }

  // ----- The free list around a block -----

  /** m lies between the blocks of pre and those of post. */
  ghost predicate Between(tiles: Tiles, pre: seq<int>, m: int, post: seq<int>) {
    m in tiles && Spaced(tiles, pre + post) &&
    (forall k :: 0 <= k < |pre| ==> pre[k] in tiles && End(tiles, pre[k]) <= m) &&
    (forall k :: 0 <= k < |post| ==> post[k] in tiles && End(tiles, m) <= post[k])
  }

  /** The list is linked up to `c` before m and from m on. */
  ghost predicate Around(mem: seq<int>, pre: seq<int>, m: int, post: seq<int>, c: int) {
    Chain(mem, pre, 1, c) && Chain(mem, post, 1, 0) && 0 <= m && m + 1 < |mem| && mem[m + 1] == Head(post, 0)
  }

  /** Memory agrees with the blocks, the ones in use, and the list around m. */
  ghost predicate Holding(mem: seq<int>, low: int, tiles: Tiles, used: set<int>,
                          pre: seq<int>, m: int, post: seq<int>, c: int)
  {
    Tiled(tiles, low, |mem|) && Headers(mem, tiles) && used <= tiles.Keys &&
    Between(tiles, pre, m, post) && Around(mem, pre, m, post, c) &&
    m !in used && (forall x :: x in pre + post ==> x !in used)
  }

  /** Memory agrees with the blocks, the ones in use, and the free list. */
  ghost predicate Consistent(mem: seq<int>, low: int, tiles: Tiles, used: set<int>, fl: seq<int>) {
    Tiled(tiles, low, |mem|) && Headers(mem, tiles) && used <= tiles.Keys &&
    Spaced(tiles, fl) && Chain(mem, fl, 1, 0) && forall x :: x in fl ==> x !in used
  }

  /** Only these words were written. */
  ghost predicate Wrote(mem: seq<int>, mem': seq<int>, written: set<int>) {
    |mem'| == |mem| && forall a :: 0 <= a < |mem| && a !in written ==> mem'[a] == mem[a]
  }

  lemma ChainWrote(mem: seq<int>, mem': seq<int>, s: seq<int>, c: int, written: set<int>)
    requires Chain(mem, s, 1, c) && Wrote(mem, mem', written) && forall k :: 0 <= k < |s| ==> s[k] + 1 !in written
    ensures Chain(mem', s, 1, c)
  {
    ChainFrame(mem, mem', s, 1, c);
  }

  /** The last block before m, if any, is made to point to c'. */
  lemma ChainTail(mem: seq<int>, mem': seq<int>, s: seq<int>, c: int, c': int, written: set<int>)
    requires Chain(mem, s, 1, c) && Wrote(mem, mem', written)
    requires s != [] ==> 0 <= s[|s| - 1] + 1 < |mem'| && mem'[s[|s| - 1] + 1] == c'
    requires forall k :: 0 <= k < |s| - 1 ==> s[k] + 1 !in written
    ensures Chain(mem', s, 1, c')
  {
    if s != [] {
      var a, x := s[..|s| - 1], s[|s| - 1];
      assert s == a + [x];
      ChainAt(mem, s, 1, c, |s| - 1);
      ChainRelink(mem, mem', a, x, 1, c, c');
    } else {
      forall k: nat ensures Points(mem', s, 1, c', k) {}
    }
  }

  // ----- Taking a block -----

  /** The memory after block m is split, leaving the rest in its place. */
  function SplitWords(mem: seq<int>, mp: int, m: int, size: int): (mem': seq<int>)
    requires 0 <= m && size >= 1 && m + 2 + size < |mem| && -1 <= mp && mp + 1 < |mem|
    ensures |mem'| == |mem|
  {
    var r := m + 1 + size;
    var m1 := mem[r := mem[m] - size - 1][r + 1 := mem[m + 1]][m := size];
    if mp != 0 then m1[mp + 1 := r] else m1
  }

  /** The address of the block before m on the list, or NULL. */
  function Before(pre: seq<int>): int {
    if pre == [] then 0 else pre[|pre| - 1]
  }

  /** A word inside a block is not the header of another one. */
  lemma Inside(tiles: Tiles, low: int, high: int, t: int, a: int)
    requires Tiled(tiles, low, high) && t in tiles && t < a < End(tiles, t)
    ensures a !in tiles
  {}

  lemma HeadersWrote(mem: seq<int>, mem': seq<int>, tiles: Tiles, written: set<int>)
    requires Headers(mem, tiles) && Wrote(mem, mem', written) && written !! tiles.Keys
    ensures Headers(mem', tiles)
  {}

  /** Writing only to blocks that are not in use keeps those that are. */
  lemma WroteKept(mem: seq<int>, mem': seq<int>, tiles: Tiles, low: int, used: set<int>, m: int, q: int,
                  written: set<int>)
    requires Tiled(tiles, low, |mem|) && Wrote(mem, mem', written) && used <= tiles.Keys
    requires m in tiles && m !in used && q in tiles && q !in used
    requires forall a :: a in written ==> m <= a < End(tiles, m) || q <= a < End(tiles, q)
    ensures Kept(mem, tiles, mem', tiles, used)
  {
    forall t | t in used ensures End(tiles, m) <= t || End(tiles, t) <= m
                         ensures End(tiles, q) <= t || End(tiles, t) <= q
    {
      Apart(tiles, low, |mem|, t, m);
      Apart(tiles, low, |mem|, t, q);
    }
  }

  /** Of the list around m, only the last block before m is near these words. */
  lemma LinksClear(mem: seq<int>, low: int, tiles: Tiles, pre: seq<int>, m: int, post: seq<int>)
    requires Tiled(tiles, low, |mem|) && Between(tiles, pre, m, post)
    ensures 0 < low && forall k :: 0 <= k < |pre| ==> low <= pre[k] && pre[k] + 1 < m
    ensures forall k :: 0 <= k < |pre| - 1 ==> pre[k] + 1 < Before(pre)
    ensures forall k :: 0 <= k < |post| ==> End(tiles, m) <= post[k]
    ensures pre != [] ==>
      Before(pre) in pre && Before(pre) in tiles && low <= Before(pre) && Before(pre) + 1 < End(tiles, Before(pre)) <= m
  {
    var s := pre + post;
    forall k | 0 <= k < |pre| ensures pre[k] == s[k] && low <= pre[k] && pre[k] + 1 < m {}
    forall k | 0 <= k < |pre| - 1 ensures pre[k] + 1 < Before(pre) {
      assert s[k] == pre[k] && s[|pre| - 1] == Before(pre);
    }
  }

  lemma SpacedInsert(tiles: Tiles, pre: seq<int>, r: int, post: seq<int>)
    requires Spaced(tiles, pre + post) && r in tiles
    requires forall k :: 0 <= k < |pre| ==> pre[k] in tiles && End(tiles, pre[k]) < r
    requires forall k :: 0 <= k < |post| ==> post[k] in tiles && End(tiles, r) < post[k]
    ensures Spaced(tiles, pre + [r] + post)
  {
    var s, fl := pre + post, pre + [r] + post;
    forall k | 0 <= k < |fl| ensures fl[k] == (if k < |pre| then s[k] else if k == |pre| then r else s[k - 1]) {}
    forall j, k | 0 <= j < k < |fl| ensures fl[j] in tiles && End(tiles, fl[j]) < fl[k] {
      if j == |pre| {
        assert fl[k] == post[k - |pre| - 1];
      } else if k == |pre| {
        assert fl[j] == pre[j];
      } else {
        var j', k' := if j < |pre| then j else j - 1, if k < |pre| then k else k - 1;
        assert End(tiles, s[j']) < s[k'];
      }
    }
  }

  lemma SplitConsistent(mem: seq<int>, low: int, tiles: Tiles, used: set<int>, pre: seq<int>, m: int, post: seq<int>,
                        size: int)
    requires Holding(mem, low, tiles, used, pre, m, post, m) && size >= 1 && mem[m] - size > MIN
    requires forall k :: 0 <= k < |post| ==> End(tiles, m) < post[k]
    ensures var r := m + 1 + size;
            m + 2 + size < |mem| && 0 <= Before(pre) && Before(pre) + 1 < |mem| &&
            var mem' := SplitWords(mem, Before(pre), m, size);
            Consistent(mem', low, Split(tiles, m, size), used + {m}, pre + [r] + post) &&
            Kept(mem, tiles, mem', Split(tiles, m, size), used)
  {
    hide Spaced, Chain, Tiled, Split, Headers, SplitWords, Kept;
    Headed(mem, tiles, m);
    LinksClear(mem, low, tiles, pre, m, post);
    SplitTiled(tiles, low, |mem|, m, size);
    SplitHeaders(mem, low, tiles, pre, m, post, size);
    SplitChain(mem, low, tiles, pre, m, post, size);
    SplitSpaced(tiles, low, |mem|, pre, m, post, size);
    SplitKept(mem, low, tiles, used, pre, m, post, size);
    SplitUsed(tiles, low, |mem|, used, pre, m, post, size);
  }

  lemma SplitUsed(tiles: Tiles, low: int, high: int, used: set<int>, pre: seq<int>, m: int, post: seq<int>, size: int)
    requires Tiled(tiles, low, high) && Between(tiles, pre, m, post) && size >= 1 && tiles[m] - size > MIN
    requires used <= tiles.Keys && m !in used && forall x :: x in pre + post ==> x !in used
    ensures used + {m} <= Split(tiles, m, size).Keys
    ensures forall x :: x in pre + [m + 1 + size] + post ==> x !in used + {m}
  {
    Inside(tiles, low, high, m, m + 1 + size);
    forall x | x in pre + [m + 1 + size] + post ensures x !in used + {m} {
      if x != m + 1 + size { assert x in pre + post; }
    }
  }

  lemma SplitKept(mem: seq<int>, low: int, tiles: Tiles, used: set<int>, pre: seq<int>, m: int, post: seq<int>,
                  size: int)
    requires Holding(mem, low, tiles, used, pre, m, post, m) && size >= 1 && mem[m] - size > MIN
    requires m + 2 + size < |mem| && 0 <= Before(pre) && Before(pre) + 1 < |mem|
    ensures Kept(mem, tiles, SplitWords(mem, Before(pre), m, size), Split(tiles, m, size), used)
  {
    hide Spaced, Chain;
    var r, mp := m + 1 + size, Before(pre);
    Headed(mem, tiles, m);
    LinksClear(mem, low, tiles, pre, m, post);
    Inside(tiles, low, |mem|, m, r);
    var mem' := SplitWords(mem, mp, m, size);
    var written := if mp != 0 then {m, r, r + 1, mp + 1} else {m, r, r + 1};
    assert Wrote(mem, mem', written);
    if mp != 0 { assert mp in pre + post; }
    WroteKept(mem, mem', tiles, low, used, m, if mp != 0 then mp else m, written);
  }

  lemma SplitHeaders(mem: seq<int>, low: int, tiles: Tiles, pre: seq<int>, m: int, post: seq<int>, size: int)
    requires Holding(mem, low, tiles, {}, pre, m, post, m) && size >= 1 && mem[m] - size > MIN
    requires m + 2 + size < |mem| && 0 <= Before(pre) && Before(pre) + 1 < |mem|
    ensures Headers(SplitWords(mem, Before(pre), m, size), Split(tiles, m, size))
  {
    hide Spaced, Chain, Headers;
    var r, mp := m + 1 + size, Before(pre);
    var mem' := SplitWords(mem, mp, m, size);
    Headed(mem, tiles, m);
    LinksClear(mem, low, tiles, pre, m, post);
    Inside(tiles, low, |mem|, m, r);
    Inside(tiles, low, |mem|, m, r + 1);
    if mp != 0 { Inside(tiles, low, |mem|, mp, mp + 1); }
    hide Tiled, Between;
    forall t | t in Split(tiles, m, size)
      ensures 0 <= t && Split(tiles, m, size)[t] >= 1 && End(Split(tiles, m, size), t) <= |mem| &&
        mem'[t] == Split(tiles, m, size)[t]
    {
      if t != m && t != r { Headed(mem, tiles, t); }
    }
    HeadersAll(mem', Split(tiles, m, size));
  }

  lemma HeadersAll(mem: seq<int>, tiles: Tiles)
    requires forall t | t in tiles :: 0 <= t && tiles[t] >= 1 && End(tiles, t) <= |mem| && mem[t] == tiles[t]
    ensures Headers(mem, tiles)
  {}

  lemma SplitChain(mem: seq<int>, low: int, tiles: Tiles, pre: seq<int>, m: int, post: seq<int>, size: int)
    requires Holding(mem, low, tiles, {}, pre, m, post, m) && size >= 1 && mem[m] - size > MIN
    requires m + 2 + size < |mem| && 0 <= Before(pre) && Before(pre) + 1 < |mem|
    ensures Chain(SplitWords(mem, Before(pre), m, size), pre + [m + 1 + size] + post, 1, 0)
  {
    hide Spaced, Chain, Headers;
    var r, mp := m + 1 + size, Before(pre);
    assert tiles[m] == mem[m] by { assert Headers(mem, tiles); Headed(mem, tiles, m); }
    var mem' := SplitWords(mem, mp, m, size);
    LinksClear(mem, low, tiles, pre, m, post);
    var written := if mp != 0 then {m, r, r + 1, mp + 1} else {m, r, r + 1};
    assert Wrote(mem, mem', written);
    ChainTail(mem, mem', pre, m, r, written);
    ChainWrote(mem, mem', post, 0, written);
    ChainOne(mem', r, 1, Head(post, 0));
    ChainJoin(mem', [r], post, 1, 0);
    assert Head([r] + post, 0) == r;
    ChainJoin(mem', pre, [r] + post, 1, 0);
    assert pre + [r] + post == pre + ([r] + post);
  }

  lemma Headed(mem: seq<int>, tiles: Tiles, m: int)
    requires Headers(mem, tiles) && m in tiles
    ensures 0 <= m && tiles[m] >= 1 && End(tiles, m) <= |mem| && mem[m] == tiles[m]
  {}

  lemma SplitSpaced(tiles: Tiles, low: int, high: int, pre: seq<int>, m: int, post: seq<int>, size: int)
    requires Tiled(tiles, low, high) && Between(tiles, pre, m, post) && size >= 1 && tiles[m] - size > MIN
    requires forall k :: 0 <= k < |post| ==> End(tiles, m) < post[k]
    ensures Spaced(Split(tiles, m, size), pre + [m + 1 + size] + post)
  {
    var r, tiles' := m + 1 + size, Split(tiles, m, size);
    Inside(tiles, low, high, m, r);
    var s := pre + post;
    forall k | 0 <= k < |s| ensures s[k] in tiles && s[k] != m && s[k] != r {
      if k < |pre| { assert s[k] == pre[k]; } else { assert s[k] == post[k - |pre|]; }
    }
    assert Spaced(tiles', s);
    SpacedInsert(tiles', pre, r, post);
  }

  /** The memory after the whole of block m is taken off the list. */
  function DropWords(mem: seq<int>, mp: int, m: int): (mem': seq<int>)
    requires 0 <= m && m + 1 < |mem| && -1 <= mp && mp + 1 < |mem|
    ensures |mem'| == |mem|
  {
    if mp != 0 then mem[mp + 1 := mem[m + 1]] else mem
  }

  lemma DropConsistent(mem: seq<int>, low: int, tiles: Tiles, used: set<int>, pre: seq<int>, m: int, post: seq<int>)
    requires Holding(mem, low, tiles, used, pre, m, post, m)
    ensures 0 <= Before(pre) && Before(pre) + 1 < |mem| &&
            var mem' := DropWords(mem, Before(pre), m);
            Consistent(mem', low, tiles, used + {m}, pre + post) && Kept(mem, tiles, mem', tiles, used)
  {
    hide Spaced, Chain, Tiled, Headers, Kept;
    LinksClear(mem, low, tiles, pre, m, post);
    var mp := Before(pre);
    Headed(mem, tiles, m);
    if mp != 0 { Headed(mem, tiles, mp); }
    var mem' := DropWords(mem, mp, m);
    var written := if mp != 0 then {mp + 1} else {};
    assert Wrote(mem, mem', written);
    ChainTail(mem, mem', pre, m, Head(post, 0), written);
    ChainWrote(mem, mem', post, 0, written);
    ChainJoin(mem', pre, post, 1, 0);
    if mp != 0 {
      Inside(tiles, low, |mem|, mp, mp + 1);
      assert mp in pre + post;
    }
    HeadersWrote(mem, mem', tiles, written);
    WroteKept(mem, mem', tiles, low, used, m, if mp != 0 then mp else m, written);
    forall x | x in pre + post ensures x !in used + {m} {
      if x in pre { var k :| 0 <= k < |pre| && x == pre[k]; } else { var k :| 0 <= k < |post| && x == post[k]; }
    }
  }
}
