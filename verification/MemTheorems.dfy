/** What the segment allocator of Src/mem.c guarantees, and the block it loses. */
module MemTheorems {
  import opened MemChains
  import opened MemSegments
  import opened MemReturn
  import opened MemAllocator

  ghost predicate In(tiles: Tiles, t: int, a: int) {
    t in tiles && t <= a < End(tiles, t)
  }

  /** Every word between low and high is in exactly one block. */
  lemma EveryWord(tiles: Tiles, low: int, high: int, a: int)
    requires Tiled(tiles, low, high) && low <= a < high
    ensures exists t :: In(tiles, t, a) && forall u :: In(tiles, u, a) ==> u == t
  {
    var t := WordAfter(tiles, low, high, a, low);
    assert In(tiles, t, a);
    forall u | In(tiles, u, a) ensures u == t {
      if u != t { Apart(tiles, low, high, t, u); }
    }
  }

  lemma WordAfter(tiles: Tiles, low: int, high: int, a: int, t: int) returns (u: int)
    requires Tiled(tiles, low, high) && low <= t <= a < high && t in tiles
    ensures In(tiles, u, a)
    decreases a - t
  {
    u := t;
    if a >= End(tiles, t) {
      assert Meets(tiles, high, t);
      u := WordAfter(tiles, low, high, a, End(tiles, t));
    }
  }

  /** A word of the process heap is in a block handed out, in a listed block, or in
      a lost one, and only one of these; the headers of all of them are intact. */
  lemma WordsPartitioned(a: Segments, w: int)
    requires a.Valid() && a.low <= w < |a.mem|
    ensures exists t :: In(a.tiles, t, w) && a.mem[t] == a.tiles[t] && (forall u :: In(a.tiles, u, w) ==> u == t) &&
              ((t in a.used && t !in a.fl && t !in a.Lost()) || (t in a.fl && t !in a.used && t !in a.Lost()) ||
               (t in a.Lost() && t !in a.used && t !in a.fl))
  {
    EveryWord(a.tiles, a.low, |a.mem|, w);
    var t :| In(a.tiles, t, w) && forall u :: In(a.tiles, u, w) ==> u == t;
    Headed(a.mem, a.tiles, t);
    hide LastFree, Tiled, Headers, Spaced, Chain;
  }

  /** The blocks on the list are the free ones: all that is not held, merged as
      far as possible.  So the list follows from the held blocks alone. */
  lemma FreeListCanonical(tiles: Tiles, fl: seq<int>, tiles': Tiles, fl': seq<int>, low: int, high: int, held: set<int>)
    requires Tiled(tiles, low, high) && Spaced(tiles, fl) && Full(tiles, held, fl) && held <= tiles.Keys
    requires Tiled(tiles', low, high) && Spaced(tiles', fl') && Full(tiles', held, fl') && held <= tiles'.Keys
    requires forall x :: x in fl ==> x !in held
    requires forall x :: x in fl' ==> x !in held
    requires forall t :: t in held ==> tiles'[t] == tiles[t]
    ensures fl == fl' && tiles == tiles'
  {
    forall x | x in fl ensures x in fl' { SameStart(tiles, fl, tiles', fl', low, high, held, x); }
    forall x | x in fl' ensures x in fl { SameStart(tiles', fl', tiles, fl, low, high, held, x); }
    forall x | x in fl ensures tiles'[x] == tiles[x] {
      SameEnd(tiles, fl, tiles', fl', low, high, held, x);
      SameEnd(tiles', fl', tiles, fl, low, high, held, x);
    }
    assert forall x :: x in fl ==> x in tiles;
    assert forall x :: x in fl' ==> x in tiles';
    Rising(tiles, fl, low, high);
    Rising(tiles', fl', low, high);
    hide Tiled, Spaced;
    SameSorted(fl, fl');
    forall t ensures t in tiles <==> t in tiles' {}
    assert tiles.Keys == tiles'.Keys;
    assert forall t :: t in tiles ==> tiles[t] == tiles'[t];
  }

  lemma Rising(tiles: Tiles, fl: seq<int>, low: int, high: int)
    requires Tiled(tiles, low, high) && Spaced(tiles, fl)
    ensures forall j, k :: 0 <= j < k < |fl| ==> fl[j] < fl[k]
  {
    forall j, k | 0 <= j < k < |fl| ensures fl[j] < fl[k] { Ascends(tiles, low, high, fl, j, k); }
  }

  lemma {:induction false} SameSorted(a: seq<int>, b: seq<int>)
    requires forall j, k :: 0 <= j < k < |a| ==> a[j] < a[k]
    requires forall j, k :: 0 <= j < k < |b| ==> b[j] < b[k]
    requires forall x :: x in a <==> x in b
    ensures a == b
  {
    assert b != [] ==> b[0] in b;
    if a != [] {
      assert a[0] in a;
      assert a[0] in b;
      assert b[0] in a;
      var i :| 0 <= i < |b| && b[i] == a[0];
      var j :| 0 <= j < |a| && a[j] == b[0];
      assert a[0] == b[0];
      forall x ensures x in a[1..] <==> x in b[1..] {
        if x in a[1..] { var k :| 0 <= k < |a[1..]| && a[1..][k] == x; assert a[k + 1] == x; assert x in b; }
        if x in b[1..] { var k :| 0 <= k < |b[1..]| && b[1..][k] == x; assert b[k + 1] == x; assert x in a; }
      }
      SameSorted(a[1..], b[1..]);
      assert a == [a[0]] + a[1..] && b == [b[0]] + b[1..];
    }
  }

  /** No free block ends where another begins. */
  lemma NotAdjacent(tiles: Tiles, fl: seq<int>, x: int, y: int)
    requires Spaced(tiles, fl) && x in fl && y in fl && (forall t :: t in tiles ==> tiles[t] >= 1)
    ensures x in tiles && End(tiles, x) != y
  {
    var i :| 0 <= i < |fl| && fl[i] == x;
    var j :| 0 <= j < |fl| && fl[j] == y;
  }

  /** The word before the block x, if any, is in a held block. */
  lemma HeldBefore(tiles: Tiles, fl: seq<int>, low: int, high: int, held: set<int>, x: int) returns (h: int)
    requires Tiled(tiles, low, high) && Spaced(tiles, fl) && Full(tiles, held, fl) && x in fl && x > low && x in tiles
    ensures h in held && h in tiles && End(tiles, h) == x
  {
    EveryWord(tiles, low, high, x - 1);
    h :| In(tiles, h, x - 1);
    Apart(tiles, low, high, h, x);
    if h in fl { NotAdjacent(tiles, fl, h, x); }
  }

  lemma SameStart(tiles: Tiles, fl: seq<int>, tiles': Tiles, fl': seq<int>, low: int, high: int, held: set<int>, x: int)
    requires Tiled(tiles, low, high) && Spaced(tiles, fl) && Full(tiles, held, fl) && held <= tiles.Keys
    requires Tiled(tiles', low, high) && Spaced(tiles', fl') && Full(tiles', held, fl') && held <= tiles'.Keys
    requires forall t :: t in held ==> tiles'[t] == tiles[t]
    requires x in fl && x !in held
    ensures x in fl'
  {
    assert x in tiles;
    EveryWord(tiles', low, high, x);
    var f :| In(tiles', f, x);
    if f in held {
      Apart(tiles, low, high, f, x);
    } else if f != x {
      var h := HeldBefore(tiles, fl, low, high, held, x);
      Apart(tiles', low, high, f, h);
    }
  }

  lemma SameEnd(tiles: Tiles, fl: seq<int>, tiles': Tiles, fl': seq<int>, low: int, high: int, held: set<int>, x: int)
    requires Tiled(tiles, low, high) && Spaced(tiles, fl) && Full(tiles, held, fl) && held <= tiles.Keys
    requires Tiled(tiles', low, high) && Spaced(tiles', fl') && Full(tiles', held, fl') && held <= tiles'.Keys
    requires forall t :: t in held ==> tiles'[t] == tiles[t]
    requires x in fl && x in fl'
    ensures x in tiles && x in tiles' && End(tiles', x) <= End(tiles, x)
  {
    assert x in tiles && x in tiles' && Meets(tiles, high, x);
    var e := End(tiles, x);
    if e in fl { NotAdjacent(tiles, fl, x, e); }
    if e in tiles' { Apart(tiles', low, high, x, e); }
  }

  /** Two blocks in a row, and nothing free. */
  method TwoBlocks(fill: nat -> int) returns (a: Segments)
    ensures fresh(a) && !a.moves && a.Valid() && a.page == 8 && |a.mem| == 9 && a.low == 1
    ensures a.tiles == map[1 := 4, 6 := 2] && a.fl == [] && a.used == a.held == {1, 6}
  {
    hide Segments.Valid, Kept, RoundUp;
    a := new Segments(8, [0], false);
    ghost var k;
    var p;
    Eight();
    p, k := a.Obtain(4, true, fill);
    assert a.tiles == map[1 := 4, 6 := 2] && a.fl == [6];
    p, k := a.Obtain(1, true, fill);
    assert k == 0;
    assert a.tiles == map[1 := 4, 6 := 2];
  }

  /** Four blocks in a row, and nothing free. */
  method FourBlocks(fill: nat -> int) returns (a: Segments)
    ensures fresh(a) && !a.moves && a.Valid() && |a.mem| == 17 && a.low == 1
    ensures a.tiles == map[1 := 4, 6 := 2, 9 := 1, 11 := 5] && a.fl == [] && a.used == a.held == {1, 6, 9, 11}
  {
    hide Segments.Valid, Kept, RoundUp;
    a := TwoBlocks(fill);
    ghost var k;
    var p;
    Eight();
    p, k := a.Obtain(1, true, fill);
    assert a.tiles == map[1 := 4, 6 := 2, 9 := 1, 11 := 5] && a.fl == [11];
    p, k := a.Obtain(5, true, fill);
    assert k == 0;
    assert a.tiles == map[1 := 4, 6 := 2, 9 := 1, 11 := 5];
  }

  lemma Eight()
    ensures RoundUp(8, 8) == 8 && RoundUp(5, 8) == 8
  {}

  lemma FreeIs(a: Segments, was: Tiles, fl: seq<int>)
    requires a.Valid() && a.low == 1 && |a.mem| <= 17 && was == map[1 := 4, 6 := 2, 9 := 1, 11 := 5]
    requires (fl == [1] && a.held == {6, 9, 11}) || (fl == [1, 9] && a.held == {6, 11})
    requires forall t :: t in a.held ==> t in a.tiles && a.tiles[t] == was[t]
    ensures a.fl == fl && a.tiles == was && |a.mem| == 17
  {
    hide LastFree, Chain;
    assert 11 in a.held && End(a.tiles, 11) == 17;
    Headed(a.mem, a.tiles, 11);
    WasTiled(was);
    FreeListCanonical(was, fl, a.tiles, a.fl, 1, 17, a.held);
  }

  lemma WasTiled(was: Tiles)
    requires was == map[1 := 4, 6 := 2, 9 := 1, 11 := 5]
    ensures Tiled(was, 1, 17) && Spaced(was, [1]) && Spaced(was, [1, 9])
  {
    forall t ensures Meets(was, 17, t) {}
  }

  /** As the code is, a run loses a block: freed blocks at 1 and 9 with one in use
      between them, and then a request that needs sbrk. */
  method LosesBlock(fill: nat -> int) returns (a: Segments)
    ensures fresh(a) && !a.moves && a.Valid() && a.Lost() == {9}
  {
    hide Segments.Valid, TooSmall;
    a := FourBlocks(fill);
    ghost var was := a.tiles;
    a.Release(2);
    FreeIs(a, was, [1]);
    OnlyFree(a);
    a.Release(10);
    FreeIs(a, was, [1, 9]);
    ghost var k;
    var t;
    t, k := a.Obtain(100, true, fill);
    assert Forgotten([1, 9], 1) == {9};
  }

  lemma OnlyFree(a: Segments)
    requires a.Valid() && a.fl == [1]
    ensures a.m_lfree == 1
  {}
}
