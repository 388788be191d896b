/** The hash tables of Src/hashtable.c: chains of nodes, selected by a hash value, in
    an array that grows to four times its size when it is full. */
module HashTables {

  /** A node: its name, the flag DISABLED, and what else it holds. */
  datatype Node = Node(nam: string, disabled: bool, data: int)
  datatype Found = NotFound | Found(node: Node)

  type Chain = seq<Node>

  /** The place of a name in a chain; its length if it is not there. */
  function Place(c: Chain, nam: string): (k: nat)
    ensures k <= |c| && (k < |c| ==> c[k].nam == nam) && forall j :: 0 <= j < k ==> c[j].nam != nam
  {
    if c == [] || c[0].nam == nam then 0 else 1 + Place(c[1..], nam)
  }

  /** The chain with a node added: in the place of one with the same name, or at the front. */
  function Added(c: Chain, e: Node): Chain {
    var k := Place(c, e.nam);
    if k < |c| then c[k := e] else [e] + c
  }

  function Removed(c: Chain, nam: string): Chain {
    var k := Place(c, nam);
    if k < |c| then c[..k] + c[k + 1..] else c
  }

  /** The chain that a name belongs to. */
  function Index(hash: string -> nat, nam: string, n: nat): (i: nat)
    requires n > 0
    ensures i < n
  {
    hash(nam) % n
  }

  ghost predicate OnceEach(c: Chain) {
    forall j, k :: 0 <= j < k < |c| ==> c[j].nam != c[k].nam
  }

  ghost function Total(t: seq<Chain>): nat {
    if t == [] then 0 else |t[0]| + Total(t[1..])
  }

  /** The nodes of chain i of n belong there, and agree with m. */
  ghost predicate ChainOk(c: Chain, i: nat, n: nat, m: map<string, Node>, hash: string -> nat)
    requires n > 0
  {
    OnceEach(c) && forall k :: 0 <= k < |c| ==> Index(hash, c[k].nam, n) == i && c[k].nam in m && m[c[k].nam] == c[k]
  }

  ghost predicate InChain(nam: string, c: Chain, m: map<string, Node>) {
    nam in m && m[nam].nam == nam && m[nam] in c
  }

  /** The chains hold m: each name of it once, in the chain that its hash selects. */
  ghost predicate Holds(t: seq<Chain>, m: map<string, Node>, hash: string -> nat) {
    |t| > 0 &&
    (forall i :: 0 <= i < |t| ==> ChainOk(t[i], i, |t|, m, hash)) &&
    (forall nam :: nam in m ==> InChain(nam, t[Index(hash, nam, |t|)], m))
  }

  /** Looking a name up in the chain its hash selects finds what m has. */
  lemma Lookup(t: seq<Chain>, m: map<string, Node>, hash: string -> nat, nam: string)
    requires Holds(t, m, hash)
    ensures var c := t[Index(hash, nam, |t|)]; var k := Place(c, nam);
            (k < |c| <==> nam in m) && (k < |c| ==> c[k] == m[nam])
  {
    var c := t[Index(hash, nam, |t|)];
    assert ChainOk(c, Index(hash, nam, |t|), |t|, m, hash);
    if nam in m {
      assert InChain(nam, c, m);
      var j :| 0 <= j < |c| && c[j] == m[nam];
      assert Place(c, nam) <= j;
    }
  }

  lemma {:induction false} TotalUpdate(t: seq<Chain>, i: nat, c: Chain)
    requires i < |t|
    ensures Total(t[i := c]) == Total(t) - |t[i]| + |c|
  {
    if i == 0 {
      assert t[0 := c][1..] == t[1..];
    } else {
      TotalUpdate(t[1..], i - 1, c);
      assert t[i := c][1..] == t[1..][i - 1 := c];
    }
  }

  lemma {:induction false} TotalEmpty(t: seq<Chain>)
    requires forall i :: 0 <= i < |t| ==> t[i] == []
    ensures Total(t) == 0
  {
    if t != [] { TotalEmpty(t[1..]); }
  }

  /** One chain changes, and with it what is known of one name. */
  lemma HoldsUpdate(t: seq<Chain>, m: map<string, Node>, hash: string -> nat, nam: string, c: Chain,
                    m': map<string, Node>)
    requires Holds(t, m, hash)
    requires ChainOk(c, Index(hash, nam, |t|), |t|, m', hash)
    requires forall x :: x != nam ==> (x in m' <==> x in m) && (x in m ==> m'[x] == m[x])
    requires forall x :: x in m' && Index(hash, x, |t|) == Index(hash, nam, |t|) ==> InChain(x, c, m')
    ensures Holds(t[Index(hash, nam, |t|) := c], m', hash)
  {
    var i := Index(hash, nam, |t|);
    var t': seq<Chain> := t[i := c];
    forall a | 0 <= a < |t'| ensures ChainOk(t'[a], a, |t'|, m', hash) {
      if a != i {
        assert ChainOk(t[a], a, |t|, m, hash);
        forall k | 0 <= k < |t[a]| ensures t[a][k].nam != nam {}
      }
    }
    forall x | x in m' ensures InChain(x, t'[Index(hash, x, |t'|)], m') {
      if Index(hash, x, |t|) != i { assert InChain(x, t[Index(hash, x, |t|)], m); }
    }
  }

  /** Adding a node adds its name to the map, or replaces the one with the same name. */
  lemma AddHolds(t: seq<Chain>, m: map<string, Node>, hash: string -> nat, e: Node)
    requires Holds(t, m, hash)
    ensures var i := Index(hash, e.nam, |t|); var t' := t[i := Added(t[i], e)];
            Holds(t', m[e.nam := e], hash) && Total(t') == Total(t) + (if e.nam in m then 0 else 1) &&
            |m[e.nam := e]| == |m| + (if e.nam in m then 0 else 1)
  {
    var i := Index(hash, e.nam, |t|);
    var c, m' := t[i], m[e.nam := e];
    Lookup(t, m, hash, e.nam);
    TotalUpdate(t, i, Added(c, e));
    KeysAdded(m, e);
    HoldsChain(t, m, hash, i);
    AddedChain(c, i, |t|, m, hash, e);
    forall x | x in m' && Index(hash, x, |t|) == i ensures InChain(x, Added(c, e), m') {
      if x != e.nam { HoldsName(t, m, hash, x); }
      AddedIn(c, e, m, x);
    }
    hide Holds, ChainOk, Added, InChain, Index, Total, Place;
    HoldsUpdate(t, m, hash, e.nam, Added(c, e), m');
  }

  lemma KeysAdded(m: map<string, Node>, e: Node)
    ensures |m[e.nam := e]| == |m| + (if e.nam in m then 0 else 1)
  {
    var m' := m[e.nam := e];
    if e.nam in m { assert m'.Keys == m.Keys; } else { assert m'.Keys == m.Keys + {e.nam}; }
  }

  lemma HoldsChain(t: seq<Chain>, m: map<string, Node>, hash: string -> nat, i: nat)
    requires Holds(t, m, hash) && i < |t|
    ensures ChainOk(t[i], i, |t|, m, hash)
  {}

  lemma HoldsName(t: seq<Chain>, m: map<string, Node>, hash: string -> nat, x: string)
    requires Holds(t, m, hash) && x in m
    ensures InChain(x, t[Index(hash, x, |t|)], m)
  {}

  lemma AddedChain(c: Chain, i: nat, n: nat, m: map<string, Node>, hash: string -> nat, e: Node)
    requires n > 0 && ChainOk(c, i, n, m, hash) && Index(hash, e.nam, n) == i
    ensures ChainOk(Added(c, e), i, n, m[e.nam := e], hash)
  {
    var c', k := Added(c, e), Place(c, e.nam);
    forall b | 0 <= b < |c'| && c'[b] != e ensures c'[b] in c && c'[b].nam != e.nam {
      if k == |c| { assert c'[b] == c[b - 1]; } else { assert c'[b] == c[b]; }
    }
    assert OnceEach(c');
  }

  lemma AddedIn(c: Chain, e: Node, m: map<string, Node>, x: string)
    requires x != e.nam ==> InChain(x, c, m)
    ensures InChain(x, Added(c, e), m[e.nam := e])
  {
    var c', k := Added(c, e), Place(c, e.nam);
    if x == e.nam {
      assert c'[if k < |c| then k else 0] == e;
    } else {
      var j :| 0 <= j < |c| && c[j] == m[x];
      assert c'[if k < |c| then j else j + 1] == c[j];
    }
  }

  /** Removing a node removes its name from the map. */
  lemma RemoveHolds(t: seq<Chain>, m: map<string, Node>, hash: string -> nat, nam: string)
    requires Holds(t, m, hash) && nam in m
    ensures var i := Index(hash, nam, |t|); var t' := t[i := Removed(t[i], nam)];
            Holds(t', m - {nam}, hash) && Total(t') == Total(t) - 1 && |m - {nam}| == |m| - 1
  {
    var i := Index(hash, nam, |t|);
    var c, m' := t[i], m - {nam};
    Lookup(t, m, hash, nam);
    TotalUpdate(t, i, Removed(c, nam));
    assert m.Keys == m'.Keys + {nam};
    assert ChainOk(c, i, |t|, m, hash);
    RemovedChain(c, i, |t|, m, hash, nam);
    hide Removed, ChainOk, InChain, Index;
    forall x | x in m' && Index(hash, x, |t|) == i ensures InChain(x, Removed(c, nam), m') {
      assert InChain(x, c, m);
      RemovedIn(c, m, nam, x);
    }
    hide Holds;
    HoldsUpdate(t, m, hash, nam, Removed(c, nam), m');
  }

  lemma RemovedChain(c: Chain, i: nat, n: nat, m: map<string, Node>, hash: string -> nat, nam: string)
    requires n > 0 && ChainOk(c, i, n, m, hash) && Place(c, nam) < |c|
    ensures ChainOk(Removed(c, nam), i, n, m - {nam}, hash)
  {
    var c', k := Removed(c, nam), Place(c, nam);
    forall b | 0 <= b < |c'| ensures c'[b] == c[if b < k then b else b + 1] && c'[b].nam != nam {}
  }

  lemma RemovedIn(c: Chain, m: map<string, Node>, nam: string, x: string)
    requires InChain(x, c, m) && x != nam && Place(c, nam) < |c|
    ensures InChain(x, Removed(c, nam), m - {nam})
  {
    var c', k := Removed(c, nam), Place(c, nam);
    var j :| 0 <= j < |c| && c[j] == m[x];
    assert c'[if j < k then j else j - 1] == c[j];
  }

  lemma AddFacts(t: seq<Chain>, m: map<string, Node>, hash: string -> nat, e: Node, i: nat, k: nat)
    requires Holds(t, m, hash) && |t| > 0 && i == Index(hash, e.nam, |t|) && k == Place(t[i], e.nam)
    ensures k < |t[i]| <==> e.nam in m
    ensures k < |t[i]| ==> t[i][k] == m[e.nam] && t[i][k := e] == Added(t[i], e)
    ensures k == |t[i]| ==> [e] + t[i] == Added(t[i], e)
    ensures Holds(t[i := Added(t[i], e)], m[e.nam := e], hash)
    ensures Total(t[i := Added(t[i], e)]) == Total(t) + (if k < |t[i]| then 0 else 1)
    ensures |m[e.nam := e]| == |m| + (if k < |t[i]| then 0 else 1)
  {
    hide Holds, Total, Place, Index;
    Lookup(t, m, hash, e.nam);
    AddHolds(t, m, hash, e);
  }

  lemma RemoveFacts(t: seq<Chain>, m: map<string, Node>, hash: string -> nat, nam: string, i: nat, k: nat)
    requires Holds(t, m, hash) && |t| > 0 && i == Index(hash, nam, |t|) && k == Place(t[i], nam)
    ensures k < |t[i]| <==> nam in m
    ensures k == |t[i]| ==> m - {nam} == m
    ensures k < |t[i]| ==> t[i][k] == m[nam] && t[i][..k] + t[i][k + 1..] == Removed(t[i], nam)
    ensures k < |t[i]| ==> Holds(t[i := Removed(t[i], nam)], m - {nam}, hash)
    ensures k < |t[i]| ==> Total(t[i := Removed(t[i], nam)]) == Total(t) - 1 && |m - {nam}| == |m| - 1
  {
    hide Holds, Total, Place, Index;
    Lookup(t, m, hash, nam);
    if nam in m { RemoveHolds(t, m, hash, nam); } else { assert m - {nam} == m; }
  }

  class HashTable {
    var nodes: seq<Chain>
    var hsize: nat
    var ct: nat
    const hash: string -> nat
    /** What the table holds. */
    ghost var m: map<string, Node>

    ghost predicate Valid()
      reads this
    {
      |nodes| == hsize && hsize >= 1 && Holds(nodes, m, hash) && ct == Total(nodes) == |m| && ct < 2 * hsize
    }

    /** newhashtable */
    constructor (size: nat, hash: string -> nat)
      requires size >= 1
      ensures Valid() && m == map[] && hsize == size && this.hash == hash
    {
      nodes, hsize, ct, m := NoChains(size), size, 0, map[];
      this.hash := hash;
      new;
      HoldsNone(size, hash);
    }

    /** gethashnode2 */
    method GetNode2(nam: string) returns (r: Found)
      requires Valid()
      ensures r == if nam in m then Found(m[nam]) else NotFound
    {
      var i := Index(hash, nam, hsize);
      Lookup(nodes, m, hash, nam);
      var k := Search(nodes[i], nam);
      r := if k < |nodes[i]| then Found(nodes[i][k]) else NotFound;
    }

    /** gethashnode: a disabled node is not found. */
    method GetNode(nam: string) returns (r: Found)
      requires Valid()
      ensures r == if nam in m && !m[nam].disabled then Found(m[nam]) else NotFound
    {
      r := GetNode2(nam);
      if r.Found? && r.node.disabled { r := NotFound; }
    }

    /** addhashnode; the node with the same name, if there was one, is freed.  While
        the table is rehashed it is far from full. */
    method AddNode(e: Node, ghost rehash: bool) returns (freed: Found)
      requires Valid() && (rehash ==> ct + 1 < 2 * hsize)
      modifies this
      ensures Valid() && m == old(m)[e.nam := e]
      ensures freed == if e.nam in old(m) then Found(old(m)[e.nam]) else NotFound
      ensures hsize == if ct == 2 * old(hsize) then 4 * old(hsize) else old(hsize)
      ensures rehash ==> ct <= old(ct) + 1
      decreases !rehash, 1
    {
      hide Holds, Total, Place, Index, Added;
      var i := Index(hash, e.nam, hsize);
      var k := Search(nodes[i], e.nam);
      AddFacts(nodes, m, hash, e, i, k);
      m := m[e.nam := e];
      if k < |nodes[i]| {
        freed := Found(nodes[i][k]);
        nodes := nodes[i := nodes[i][k := e]];
      } else {
        freed := NotFound;
        nodes := nodes[i := [e] + nodes[i]];
        ct := ct + 1;
        if ct == hsize * 2 { Expand(); }
      }
    }

    /** The nodes of the table are given up for an array without any. */
    method NewNodes(size: nat)
      requires size >= 1
      modifies this
      ensures Valid() && m == map[] && hsize == size && ct == 0
    {
      hsize := size;
      nodes := NoChains(size);
      ct, m := 0, map[];
      HoldsNone(size, hash);
    }

    /** expandhashtable: all nodes are rehashed into an array of four times the size.
        It never comes to another expansion. */
    method Expand()
      requires |nodes| == hsize && hsize >= 1 && Holds(nodes, m, hash) && ct == Total(nodes) == |m| == 2 * hsize
      modifies this
      ensures Valid() && m == old(m) && hsize == 4 * old(hsize) && ct == old(ct)
      decreases true, 0
    {
      hide Holds, Total, Part, Valid;
      PartStart(m, nodes, hash);
      var osize, onodes := hsize, nodes;
      ghost var all := m;
      NewNodes(osize * 4);
      var i := 0;
      while i < osize
        invariant 0 <= i <= osize && Valid() && hsize == 4 * osize && Part(m, all, onodes, i, 0, hash)
      {
        Rehash(onodes, i, all);
        i := i + 1;
      }
      PartAll(m, all, onodes, hash);
      CountIs(this);
    }

    /** The nodes of one old chain. */
    method Rehash(onodes: seq<Chain>, i: nat, ghost all: map<string, Node>)
      requires Valid() && i < |onodes| && hsize == 4 * |onodes| && |all| == 2 * |onodes| &&
        Part(m, all, onodes, i, 0, hash)
      modifies this
      ensures Valid() && hsize == old(hsize) && Part(m, all, onodes, i + 1, 0, hash)
      decreases true, -1
    {
      hide Holds, Total, Part;
      var k := 0;
      while k < |onodes[i]|
        invariant 0 <= k <= |onodes[i]| && Valid() && hsize == 4 * |onodes| && Part(m, all, onodes, i, k, hash)
      {
        PartSmall(m, all, onodes, i, k, hash);
        PartNext(m, all, onodes, i, k, hash);
        var freed := AddNode(onodes[i][k], true);
        k := k + 1;
      }
      PartChain(m, all, onodes, i, hash);
    }

    /** removehashnode */
    method RemoveNode(nam: string) returns (r: Found)
      requires Valid()
      modifies this`ct, this`m, this`nodes
      ensures Valid() && m == old(m) - {nam}
      ensures r == if nam in old(m) then Found(old(m)[nam]) else NotFound
    {
      hide Holds, Total, Place, Index, Removed;
      var i := Index(hash, nam, hsize);
      var k := Search(nodes[i], nam);
      RemoveFacts(nodes, m, hash, nam, i, k);
      if k == |nodes[i]| { return NotFound; }
      r := Found(nodes[i][k]);
      nodes := nodes[i := nodes[i][..k] + nodes[i][k + 1..]];
      m := m - {nam};
      ct := ct - 1;
    }

    /** emptyhashtable */
    method Empty(newsize: nat)
      requires Valid() && newsize >= 1
      modifies this
      ensures Valid() && m == map[] && hsize == newsize && ct == 0
    {
      NewNodes(newsize);
    }
  }

  /** The loop over a chain. */
  method Search(c: Chain, nam: string) returns (k: nat)
    ensures k == Place(c, nam)
  {
    k := 0;
    while k < |c| && c[k].nam != nam
      invariant k <= |c| && forall j :: 0 <= j < k ==> c[j].nam != nam
    {
      k := k + 1;
    }
    var p := Place(c, nam);
  }

  // ----- Rehashing -----

  /** m is what the first i chains and k nodes of the next one have. */
  ghost predicate Part(m: map<string, Node>, all: map<string, Node>, t: seq<Chain>, i: nat, k: nat,
                       hash: string -> nat) {
    Holds(t, all, hash) && i <= |t| && (i < |t| ==> k <= |t[i]|) && (i == |t| ==> k == 0) &&
    (forall x :: x in m ==> x in all && m[x] == all[x]) &&
    (forall x :: x in all ==> (x in m <==> Index(hash, x, |t|) < i || (Index(hash, x, |t|) == i && Place(t[i], x) < k)))
  }

  function NoChains(n: nat): seq<Chain> {
    seq(n, _ => [])
  }

  lemma HoldsNone(n: nat, hash: string -> nat)
    requires n > 0
    ensures Holds(NoChains(n), map[], hash) && Total(NoChains(n)) == 0
  {
    TotalEmpty(NoChains(n));
  }

  lemma CountIs(t: HashTable)
    requires t.Valid()
    ensures t.ct == |t.m|
  {}

  lemma PartStart(all: map<string, Node>, t: seq<Chain>, hash: string -> nat)
    requires Holds(t, all, hash)
    ensures Part(map[], all, t, 0, 0, hash)
  {}

  lemma PartSmall(m: map<string, Node>, all: map<string, Node>, t: seq<Chain>, i: nat, k: nat, hash: string -> nat)
    requires Part(m, all, t, i, k, hash)
    ensures |m| <= |all|
  {
    assert m.Keys <= all.Keys;
    Smaller(m.Keys, all.Keys);
    assert |m.Keys| == |m| && |all.Keys| == |all|;
  }

  lemma Smaller(a: set<string>, b: set<string>)
    requires a <= b
    ensures |a| <= |b|
  {
    var d := b - a;
    assert b == a + d && |a + d| == |a| + |d|;
  }

  lemma PartNext(m: map<string, Node>, all: map<string, Node>, t: seq<Chain>, i: nat, k: nat, hash: string -> nat)
    requires Part(m, all, t, i, k, hash) && i < |t| && k < |t[i]|
    ensures Part(m[t[i][k].nam := t[i][k]], all, t, i, k + 1, hash)
  {
    var e := t[i][k];
    assert ChainOk(t[i], i, |t|, all, hash);
    assert Place(t[i], e.nam) == k;
    forall x | x in all && Index(hash, x, |t|) == i && Place(t[i], x) == k
      ensures x == e.nam
    {
      Lookup(t, all, hash, x);
    }
  }

  lemma PartChain(m: map<string, Node>, all: map<string, Node>, t: seq<Chain>, i: nat, hash: string -> nat)
    requires i < |t| && Part(m, all, t, i, |t[i]|, hash)
    ensures Part(m, all, t, i + 1, 0, hash)
  {
    forall x | x in all && Index(hash, x, |t|) == i ensures Place(t[i], x) < |t[i]| { Lookup(t, all, hash, x); }
  }

  lemma PartAll(m: map<string, Node>, all: map<string, Node>, t: seq<Chain>, hash: string -> nat)
    requires Part(m, all, t, |t|, 0, hash)
    ensures m == all
  {
    forall x | x in all ensures x in m { assert Index(hash, x, |t|) < |t|; }
  }
}
