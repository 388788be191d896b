/** Giving blocks of Src/mem.c back: merging with the neighbours, and exchanging
    memory with the system. */
module MemReturn {
  import opened MemChains
  import opened MemSegments

  /** A block in use, and the free list around it. */
  ghost predicate Loose(mem: seq<int>, low: int, tiles: Tiles, used: set<int>, pre: seq<int>, m: int, post: seq<int>) {
    Tiled(tiles, low, |mem|) && Headers(mem, tiles) && used <= tiles.Keys && Chain(mem, pre + post, 1, 0) &&
    Between(tiles, pre, m, post) && m in used && (forall x :: x in pre + post ==> x !in used)
  }

  /** The blocks after m do not touch it. */
  ghost predicate Clear(tiles: Tiles, m: int, post: seq<int>)
    requires m in tiles
  {
    forall k :: 0 <= k < |post| ==> End(tiles, m) < post[k]
  }

  lemma ClearFirst(tiles: Tiles, low: int, high: int, pre: seq<int>, m: int, post: seq<int>)
    requires Tiled(tiles, low, high) && Between(tiles, pre, m, post) && (post != [] ==> End(tiles, m) != post[0])
    ensures Clear(tiles, m, post)
  {
    var s := pre + post;
    forall k | 0 <= k < |post| ensures End(tiles, m) < post[k] {
      assert s[|pre|] == post[0] && s[|pre| + k] == post[k];
      assert k > 0 ==> End(tiles, s[|pre|]) < s[|pre| + k];
    }
  }

  lemma MergeHeaders(mem: seq<int>, mem': seq<int>, low: int, tiles: Tiles, m: int, q: int)
    requires Tiled(tiles, low, |mem|) && Headers(mem, tiles) && m in tiles && q in tiles && q == End(tiles, m)
    requires Wrote(mem, mem', {m, m + 1}) && mem'[m] == mem[m] + mem[q] + 1
    ensures Headers(mem', Merge(tiles, m, q))
  {
    Headed(mem, tiles, m);
    Headed(mem, tiles, q);
    Inside(tiles, low, |mem|, m, m + 1);
    hide Tiled, Headers;
    var tiles' := Merge(tiles, m, q);
    forall t | t in tiles'
      ensures 0 <= t && tiles'[t] >= 1 && End(tiles', t) <= |mem'| && mem'[t] == tiles'[t]
    {
      if t != m { Headed(mem, tiles, t); }
    }
    HeadersAll(mem', tiles');
  }

  lemma MergeKept(mem: seq<int>, mem': seq<int>, low: int, tiles: Tiles, used: set<int>, m: int, q: int)
    requires Tiled(tiles, low, |mem|) && m in tiles && q in tiles && used <= tiles.Keys && m !in used && q !in used
    requires Wrote(mem, mem', {m, m + 1})
    ensures Kept(mem, tiles, mem', Merge(tiles, m, q), used)
  {
    WroteKept(mem, mem', tiles, low, used, m, m, {m, m + 1});
  }

  lemma UsedAround(used: set<int>, m: int, pre: seq<int>, post: seq<int>, post': seq<int>)
    requires forall x :: x in pre + post ==> x !in used
    requires forall x :: x in post' ==> x in post
    ensures forall x :: x in pre + post' ==> x !in used - {m}
  {
    forall x | x in pre + post' ensures x !in used {
      assert x in pre + post;
    }
  }

  // ----- Merging with the block after -----

  function JoinWords(mem: seq<int>, m: int, q: int): (mem': seq<int>)
    requires 0 <= m && m + 1 < |mem| && 0 <= q && q + 1 < |mem|
    ensures |mem'| == |mem|
  {
    mem[m := mem[m] + mem[q] + 1][m + 1 := mem[q + 1]]
  }

  lemma JoinNext(mem: seq<int>, low: int, tiles: Tiles, used: set<int>, pre: seq<int>, m: int, q: int, rest: seq<int>)
    requires Loose(mem, low, tiles, used, pre, m, [q] + rest) && q in tiles && q == End(tiles, m)
    ensures 0 <= m && m + 1 < |mem| && 0 <= q && q + 1 < |mem| &&
            var mem', tiles' := JoinWords(mem, m, q), Merge(tiles, m, q);
            Holding(mem', low, tiles', used - {m}, pre, m, rest, q) && Clear(tiles', m, rest) &&
            Kept(mem, tiles, mem', tiles', used - {m})
  {
    var post := [q] + rest;
    assert post[0] == q;
    JoinSpaced(tiles, low, |mem|, pre, m, q, rest);
    Headed(mem, tiles, m);
    Headed(mem, tiles, q);
    JoinChain(mem, low, tiles, pre, m, q, rest);
    hide Spaced, Chain, Tiled, Headers, Kept, Between, Merge, Clear;
    var mem' := JoinWords(mem, m, q);
    assert Wrote(mem, mem', {m, m + 1});
    MergeHeaders(mem, mem', low, tiles, m, q);
    MergeTiled(tiles, low, |mem|, m, q);
    MergeKept(mem, mem', low, tiles, used - {m}, m, q) by { assert q in pre + post; }
    JoinUsed(tiles, used, pre, m, q, rest);
  }

  lemma JoinUsed(tiles: Tiles, used: set<int>, pre: seq<int>, m: int, q: int, rest: seq<int>)
    requires used <= tiles.Keys && m in tiles && q in tiles && forall x :: x in pre + ([q] + rest) ==> x !in used
    ensures used - {m} <= Merge(tiles, m, q).Keys && forall x :: x in pre + rest ==> x !in used - {m}
  {
    assert q in pre + ([q] + rest);
    forall x | x in pre + rest ensures x !in used {
      assert x in pre + ([q] + rest);
    }
  }

  lemma ChainParts(mem: seq<int>, pre: seq<int>, q: int, rest: seq<int>)
    requires Chain(mem, pre + ([q] + rest), 1, 0)
    ensures Chain(mem, pre, 1, q) && Chain(mem, rest, 1, 0) && 0 <= q && q + 1 < |mem| && mem[q + 1] == Head(rest, 0)
  {
    ChainSplit(mem, pre, [q] + rest, 1, 0);
    ChainSplit(mem, [q], rest, 1, 0);
    ChainAt(mem, [q], 1, Head(rest, 0), 0);
  }

  lemma JoinChain(mem: seq<int>, low: int, tiles: Tiles, pre: seq<int>, m: int, q: int, rest: seq<int>)
    requires Tiled(tiles, low, |mem|) && Headers(mem, tiles) && Chain(mem, pre + ([q] + rest), 1, 0)
    requires Between(tiles, pre, m, [q] + rest) && q in tiles && q == End(tiles, m)
    ensures 0 <= m && m + 1 < |mem| && 0 <= q && q + 1 < |mem| &&
            Around(JoinWords(mem, m, q), pre, m, rest, q)
  {
    var post := [q] + rest;
    LinksClear(mem, low, tiles, pre, m, post);
    Headed(mem, tiles, m);
    Headed(mem, tiles, q);
    hide Spaced, Chain, Tiled, Headers, Between;
    var mem' := JoinWords(mem, m, q);
    assert Wrote(mem, mem', {m, m + 1});
    ChainParts(mem, pre, q, rest);
    forall k | 0 <= k < |rest| ensures rest[k] == post[k + 1] && rest[k] + 1 !in {m, m + 1} {}
    ChainWrote(mem, mem', pre, q, {m, m + 1});
    ChainWrote(mem, mem', rest, 0, {m, m + 1});
  }

  lemma SpacedRemove(tiles: Tiles, tiles': Tiles, pre: seq<int>, q: int, rest: seq<int>)
    requires Spaced(tiles, pre + ([q] + rest))
    requires forall k :: 0 <= k < |pre| ==> pre[k] in tiles && pre[k] in tiles' && tiles'[pre[k]] == tiles[pre[k]]
    requires forall k :: 0 <= k < |rest| ==> rest[k] in tiles && rest[k] in tiles' && tiles'[rest[k]] == tiles[rest[k]]
    ensures Spaced(tiles', pre + rest)
  {
    var s, s' := pre + ([q] + rest), pre + rest;
    forall k | 0 <= k < |s'|
      ensures s'[k] == s[if k < |pre| then k else k + 1] && s'[k] in tiles && s'[k] in tiles' &&
        tiles'[s'[k]] == tiles[s'[k]]
    {
      if k >= |pre| { assert s'[k] == rest[k - |pre|]; } else { assert s'[k] == pre[k]; }
    }
    forall j, k | 0 <= j < k < |s'| ensures End(tiles', s'[j]) < s'[k] {
      var j', k' := if j < |pre| then j else j + 1, if k < |pre| then k else k + 1;
      assert s'[j] == s[j'] && s'[k] == s[k'];
    }
  }

  lemma JoinSpaced(tiles: Tiles, low: int, high: int, pre: seq<int>, m: int, q: int, rest: seq<int>)
    requires Tiled(tiles, low, high) && Between(tiles, pre, m, [q] + rest) && q in tiles && q == End(tiles, m)
    ensures Between(Merge(tiles, m, q), pre, m, rest) && Clear(Merge(tiles, m, q), m, rest)
  {
    var post := [q] + rest;
    var s := pre + post;
    assert tiles[m] >= 1 && tiles[q] >= 1;
    forall k | 0 <= k < |pre| ensures pre[k] in tiles && End(tiles, pre[k]) <= m && pre[k] != m {}
    hide Tiled;
    forall k | 0 <= k < |rest| ensures rest[k] in tiles && End(tiles, q) < rest[k] {
      assert rest[k] == post[k + 1] && rest[k] == s[|pre| + 1 + k] && s[|pre|] == q;
    }
    hide Between, Spaced;
    SpacedRemove(tiles, Merge(tiles, m, q), pre, q, rest) by {
      assert Spaced(tiles, s) by { SpacedAll(tiles, pre, m, post); }
    }
    BetweenAll(Merge(tiles, m, q), pre, m, rest);
  }

  lemma SpacedAll(tiles: Tiles, pre: seq<int>, m: int, post: seq<int>)
    requires Between(tiles, pre, m, post)
    ensures Spaced(tiles, pre + post)
  {}

  lemma BetweenAll(tiles: Tiles, pre: seq<int>, m: int, post: seq<int>)
    requires m in tiles && Spaced(tiles, pre + post)
    requires forall k :: 0 <= k < |pre| ==> pre[k] in tiles && End(tiles, pre[k]) <= m
    requires forall k :: 0 <= k < |post| ==> post[k] in tiles && End(tiles, m) <= post[k]
    ensures Between(tiles, pre, m, post)
  {}

  lemma JoinNone(mem: seq<int>, low: int, tiles: Tiles, used: set<int>, pre: seq<int>, m: int, post: seq<int>)
    requires Loose(mem, low, tiles, used, pre, m, post) && (post != [] ==> End(tiles, m) != post[0])
    ensures 0 <= m && m + 1 < |mem| &&
            var mem' := mem[m + 1 := Head(post, 0)];
            Holding(mem', low, tiles, used - {m}, pre, m, post, Head(post, 0)) && Clear(tiles, m, post) &&
            Kept(mem, tiles, mem', tiles, used - {m})
  {
    ClearFirst(tiles, low, |mem|, pre, m, post);
    LinksClear(mem, low, tiles, pre, m, post);
    Headed(mem, tiles, m);
    hide Spaced, Chain, Tiled, Headers, Kept;
    var mem' := mem[m + 1 := Head(post, 0)];
    assert Wrote(mem, mem', {m + 1});
    Inside(tiles, low, |mem|, m, m + 1);
    HeadersWrote(mem, mem', tiles, {m + 1});
    WroteKept(mem, mem', tiles, low, used - {m}, m, m, {m + 1});
    UsedAround(used, m, pre, post, post);
    ChainSplit(mem, pre, post, 1, 0);
    ChainWrote(mem, mem', pre, Head(post, 0), {m + 1});
    ChainWrote(mem, mem', post, 0, {m + 1});
  }

  // ----- Merging with the block before -----

  lemma LinkPrev(mem: seq<int>, low: int, tiles: Tiles, used: set<int>, pre: seq<int>, m: int, post: seq<int>, c: int)
    requires Holding(mem, low, tiles, used, pre, m, post, c) && Clear(tiles, m, post)
    requires pre != [] && Before(pre) in tiles && End(tiles, Before(pre)) == m
    ensures var p := Before(pre);
            0 <= m && m + 1 < |mem| && 0 <= p && p + 1 < |mem| &&
            var mem', tiles' := JoinWords(mem, p, m), Merge(tiles, p, m);
            Consistent(mem', low, tiles', used, pre + post) && Kept(mem, tiles, mem', tiles', used)
  {
    var p := Before(pre);
    LinkSpaced(tiles, low, |mem|, pre, m, post);
    LinksClear(mem, low, tiles, pre, m, post);
    Headed(mem, tiles, m);
    Headed(mem, tiles, p);
    hide Spaced, Chain, Tiled, Headers, Kept;
    var mem' := JoinWords(mem, p, m);
    assert Wrote(mem, mem', {p, p + 1});
    assert p in pre + post;
    MergeHeaders(mem, mem', low, tiles, p, m);
    MergeTiled(tiles, low, |mem|, p, m);
    MergeKept(mem, mem', low, tiles, used, p, m);
    ChainTail(mem, mem', pre, c, Head(post, 0), {p, p + 1});
    ChainWrote(mem, mem', post, 0, {p, p + 1});
    ChainJoin(mem', pre, post, 1, 0);
  }

  lemma LinkSpaced(tiles: Tiles, low: int, high: int, pre: seq<int>, m: int, post: seq<int>)
    requires Tiled(tiles, low, high) && Between(tiles, pre, m, post) && Clear(tiles, m, post)
    requires pre != [] && Before(pre) in tiles && End(tiles, Before(pre)) == m
    ensures Spaced(Merge(tiles, Before(pre), m), pre + post)
  {
    var p, s := Before(pre), pre + post;
    var tiles' := Merge(tiles, p, m);
    assert s[|pre| - 1] == p;
    forall k | 0 <= k < |s| ensures s[k] in tiles' && s[k] != m && (s[k] == p <==> k == |pre| - 1) {
      if k < |pre| { assert s[k] == pre[k]; } else { assert s[k] == post[k - |pre|]; }
    }
    forall j, k | 0 <= j < k < |s| ensures End(tiles', s[j]) < s[k] {
      if j == |pre| - 1 { assert s[k] == post[k - |pre|]; }
    }
  }

  function LinkWords(mem: seq<int>, mp: int, m: int): (mem': seq<int>)
    requires -1 <= mp && mp + 1 < |mem|
    ensures |mem'| == |mem|
  {
    if mp != 0 then mem[mp + 1 := m] else mem
  }

  lemma LinkNone(mem: seq<int>, low: int, tiles: Tiles, used: set<int>, pre: seq<int>, m: int, post: seq<int>, c: int)
    requires Holding(mem, low, tiles, used, pre, m, post, c) && Clear(tiles, m, post)
    requires pre != [] ==> Before(pre) in tiles && End(tiles, Before(pre)) != m
    ensures var mp := Before(pre);
            0 <= m && 0 <= mp && mp + 1 < |mem| &&
            var mem' := LinkWords(mem, mp, m);
            Consistent(mem', low, tiles, used, pre + [m] + post) && Kept(mem, tiles, mem', tiles, used)
  {
    var mp := Before(pre);
    LinksClear(mem, low, tiles, pre, m, post);
    BeforeClear(tiles, low, |mem|, pre, m, post);
    SpacedInsert(tiles, pre, m, post);
    Headed(mem, tiles, m);
    hide Spaced, Chain, Tiled, Headers, Kept;
    var mem' := LinkWords(mem, mp, m);
    var written := if mp != 0 then {mp + 1} else {};
    assert Wrote(mem, mem', written);
    if mp != 0 {
      Inside(tiles, low, |mem|, mp, mp + 1);
      assert mp in pre + post;
    }
    HeadersWrote(mem, mem', tiles, written);
    WroteKept(mem, mem', tiles, low, used, m, if mp != 0 then mp else m, written);
    ChainTail(mem, mem', pre, c, m, written);
    ChainWrote(mem, mem', post, 0, written);
    ChainOne(mem', m, 1, Head(post, 0));
    ChainJoin(mem', [m], post, 1, 0);
    assert Head([m] + post, 0) == m;
    ChainJoin(mem', pre, [m] + post, 1, 0);
    assert pre + [m] + post == pre + ([m] + post);
    forall x | x in pre + [m] + post ensures x !in used { if x != m { assert x in pre + post; } }
  }

  lemma BeforeClear(tiles: Tiles, low: int, high: int, pre: seq<int>, m: int, post: seq<int>)
    requires Tiled(tiles, low, high) && Between(tiles, pre, m, post)
    requires pre != [] ==> Before(pre) in tiles && End(tiles, Before(pre)) != m
    ensures forall k :: 0 <= k < |pre| ==> End(tiles, pre[k]) < m
  {
    var s := pre + post;
    forall k | 0 <= k < |pre| ensures End(tiles, pre[k]) < m {
      assert s[k] == pre[k] && s[|pre| - 1] == Before(pre);
    }
  }

  // ----- The system's memory -----

  /** The memory after sbrk gave the words `more`, and block mp was linked to them. */
  function GrowWords(mem: seq<int>, more: seq<int>, mp: int): (mem': seq<int>)
    requires |more| >= 4 && (mp != 0 ==> 0 <= mp && mp + 1 < |mem|)
    ensures |mem'| == |mem| + |more|
  {
    var m := |mem|;
    var m1 := (mem + more)[m := |more| - 1][m + 1 := 0];
    if mp != 0 then m1[mp + 1 := m] else m1
  }

  /** The new block becomes the one after the last of pre: whatever was listed
      after that one is not listed any more. */
  lemma GrowHolding(mem: seq<int>, low: int, tiles: Tiles, pre: seq<int>, rest: seq<int>, more: seq<int>,
                    held: set<int>)
    requires Consistent(mem, low, tiles, {}, pre + rest) && |more| >= 4
    requires held <= tiles.Keys && forall x :: x in pre ==> x !in held
    ensures |mem| !in tiles && (Before(pre) != 0 ==> 0 <= Before(pre) && Before(pre) + 1 < |mem|) &&
            var m, mem', tiles' := |mem|, GrowWords(mem, more, Before(pre)), tiles[|mem| := |more| - 1];
            Holding(mem', low, tiles', held, pre, m, [], m) && Kept(mem, tiles, mem', tiles', held)
  {
    var mp, m := Before(pre), |mem|;
    GrowSpaced(mem, low, tiles, pre, rest, m, |more| - 1);
    GrowChain(mem, low, tiles, pre, rest, more);
    hide Spaced, Chain, Between, Kept, GrowWords, Headers, Tiled;
    GrowTiled(mem, low, tiles, pre, |more|, m);
    GrowKept(mem, low, tiles, more, mp, held);
  }

  lemma GrowTiled(mem: seq<int>, low: int, tiles: Tiles, pre: seq<int>, n: int, m: int)
    requires Tiled(tiles, low, m) && m == |mem| && n >= 4 && m !in tiles
    ensures Tiled(tiles[m := n - 1], low, m + n)
  {
    var tiles', high := tiles[m := n - 1], m + n;
    forall t ensures Meets(tiles', high, t) { assert Meets(tiles, m, t); }
  }

  lemma GrowKept(mem: seq<int>, low: int, tiles: Tiles, more: seq<int>, mp: int, held: set<int>)
    requires Tiled(tiles, low, |mem|) && Headers(mem, tiles) && |mem| !in tiles && |more| >= 4 && held <= tiles.Keys
    requires mp != 0 ==> mp in tiles && mp !in held && 0 <= mp && mp + 1 < End(tiles, mp) <= |mem|
    ensures var mem', tiles' := GrowWords(mem, more, mp), tiles[|mem| := |more| - 1];
      Headers(mem', tiles') && Kept(mem, tiles, mem', tiles', held)
  {
    forall t | t in tiles && mp != 0 ensures t != mp + 1 {
      Inside(tiles, low, |mem|, mp, mp + 1);
    }
    forall t | t in tiles && mp != 0 && t != mp ensures !(t <= mp + 1 < End(tiles, t)) {
      Apart(tiles, low, |mem|, t, mp);
    }
    hide Tiled;
  }

  lemma GrowSpaced(mem: seq<int>, low: int, tiles: Tiles, pre: seq<int>, rest: seq<int>, m: int, len: int)
    requires Consistent(mem, low, tiles, {}, pre + rest) && m == |mem|
    ensures m !in tiles && Between(tiles[m := len], pre, m, [])
    ensures pre != [] ==> Before(pre) in tiles && 0 < Before(pre) && Before(pre) + 1 < End(tiles, Before(pre)) <= m
  {
    var s := pre + rest;
    assert pre + [] == pre;
    hide Chain;
    forall k | 0 <= k < |pre| ensures pre[k] == s[k] && pre[k] in tiles && End(tiles, pre[k]) <= m {}
  }

  lemma GrowChain(mem: seq<int>, low: int, tiles: Tiles, pre: seq<int>, rest: seq<int>, more: seq<int>)
    requires Consistent(mem, low, tiles, {}, pre + rest) && |more| >= 4
    requires Before(pre) != 0 ==> 0 <= Before(pre) && Before(pre) + 1 < |mem|
    ensures Chain(GrowWords(mem, more, Before(pre)), pre, 1, |mem|)
  {
    var mp, s := Before(pre), pre + rest;
    var mem' := GrowWords(mem, more, mp);
    ChainSplit(mem, pre, rest, 1, 0);
    hide Chain;
    if pre == [] {
      forall k: nat ensures Points(mem', pre, 1, |mem|, k) {}
      ChainAll(mem', pre, 1, |mem|);
    } else {
      var a := pre[..|pre| - 1];
      assert pre == a + [mp];
      forall k | 0 <= k < |pre| ensures pre[k] == s[k] && low <= s[k] && s[k] + 1 < |mem| {}
      forall k | 0 <= k < |a| ensures a[k] + 1 < mp { assert a[k] == s[k] && s[|pre| - 1] == mp; }
      assert mp == pre[|pre| - 1];
      ChainRelink(mem, mem', a, mp, 1, Head(rest, 0), |mem|);
    }
  }

  lemma ChainAll(mem: seq<int>, s: seq<int>, off: nat, stop: int)
    requires forall k: nat {:trigger Points(mem, s, off, stop, k)} :: Points(mem, s, off, stop, k)
    ensures Chain(mem, s, off, stop)
  {}

  /** The memory after the last block x gave n words back. */
  function ShrinkWords(mem: seq<int>, x: int, n: int): (mem': seq<int>)
    requires 0 <= x < |mem| && 0 <= n <= |mem|
    ensures |mem'| == |mem| - n
  {
    mem[x := mem[x] - n][..|mem| - n]
  }

  lemma ShrinkConsistent(mem: seq<int>, low: int, tiles: Tiles, used: set<int>, fl: seq<int>, x: int, n: int)
    requires Consistent(mem, low, tiles, used, fl) && x in fl && End(tiles, x) == |mem| && 0 <= n && tiles[x] - n >= 1
    ensures 0 <= x < |mem| && 0 <= n <= |mem| &&
            var mem', tiles' := ShrinkWords(mem, x, n), tiles[x := tiles[x] - n];
            Consistent(mem', low, tiles', used, fl) && Kept(mem, tiles, mem', tiles', used)
  {
    var mem', tiles', high := ShrinkWords(mem, x, n), tiles[x := tiles[x] - n], |mem|;
    forall t | t in tiles && t != x ensures End(tiles, t) <= x { Apart(tiles, low, high, t, x); }
    var high' := high - n;
    forall t ensures Meets(tiles', high', t) { assert Meets(tiles, high, t); }
    ShrinkSpaced(tiles, tiles', fl);
    hide Spaced;
    ShrinkChain(mem, low, tiles, used, fl, x, n);
    hide Chain;
    forall t, a | t in used && t in tiles && t <= a < End(tiles, t) ensures SameWord(mem, mem', a) {}
  }

  lemma ShrinkSpaced(tiles: Tiles, tiles': Tiles, fl: seq<int>)
    requires Spaced(tiles, fl) && tiles'.Keys == tiles.Keys && forall t :: t in tiles ==> tiles'[t] <= tiles[t]
    ensures Spaced(tiles', fl)
  {
    forall k | 0 <= k < |fl| ensures fl[k] in tiles' { assert fl[k] in tiles; }
    forall j, k | 0 <= j < k < |fl| ensures End(tiles', fl[j]) < fl[k] { assert End(tiles, fl[j]) < fl[k]; }
  }

  lemma ShrinkChain(mem: seq<int>, low: int, tiles: Tiles, used: set<int>, fl: seq<int>, x: int, n: int)
    requires Consistent(mem, low, tiles, used, fl) && x in fl && End(tiles, x) == |mem| && 0 <= n && tiles[x] - n >= 1
    requires 0 <= x < |mem| && 0 <= n <= |mem|
    ensures Chain(ShrinkWords(mem, x, n), fl, 1, 0)
  {
    var mem' := ShrinkWords(mem, x, n);
    forall k | 0 <= k < |fl| ensures fl[k] + 1 < |mem'| && mem'[fl[k] + 1] == mem[fl[k] + 1] {
      assert fl[k] in tiles;
      if fl[k] != x { Apart(tiles, low, |mem|, fl[k], x); Inside(tiles, low, |mem|, fl[k], fl[k] + 1); }
    }
    hide Spaced, Tiled, Headers;
    ChainFrame(mem, mem', fl, 1, 0);
  }
}
