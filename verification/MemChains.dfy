/** Singly linked lists in word-addressed memory: element x keeps the address of
    the next one in word x + off, and the last one keeps `stop`. */
module MemChains {

  function Head(s: seq<int>, stop: int): int {
    if s == [] then stop else s[0]
  }

  function Next(s: seq<int>, stop: int, k: nat): int {
    if k + 1 < |s| then s[k + 1] else stop
  }

  ghost predicate Points(mem: seq<int>, s: seq<int>, off: nat, stop: int, k: nat) {
    k < |s| ==> 0 <= s[k] && s[k] + off < |mem| && mem[s[k] + off] == Next(s, stop, k)
  }

  ghost predicate Chain(mem: seq<int>, s: seq<int>, off: nat, stop: int) {
    forall k: nat {:trigger Points(mem, s, off, stop, k)} :: Points(mem, s, off, stop, k)
  }

  lemma ChainAt(mem: seq<int>, s: seq<int>, off: nat, stop: int, k: nat)
    requires Chain(mem, s, off, stop) && k < |s|
    ensures 0 <= s[k] && s[k] + off < |mem| && mem[s[k] + off] == Next(s, stop, k)
  {
    assert Points(mem, s, off, stop, k);
  }

  lemma ChainOne(mem: seq<int>, x: int, off: nat, stop: int)
    requires 0 <= x && x + off < |mem| && mem[x + off] == stop
    ensures Chain(mem, [x], off, stop)
  {
    forall k: nat ensures Points(mem, [x], off, stop, k) {}
  }

  lemma ChainJoin(mem: seq<int>, a: seq<int>, b: seq<int>, off: nat, stop: int)
    requires Chain(mem, a, off, Head(b, stop)) && Chain(mem, b, off, stop)
    ensures Chain(mem, a + b, off, stop)
  {
    var s := a + b;
    forall k: nat ensures Points(mem, s, off, stop, k) {
      if k < |a| {
        assert Points(mem, a, off, Head(b, stop), k);
      } else if k < |s| {
        assert Points(mem, b, off, stop, k - |a|);
      }
    }
  }

  lemma ChainSplit(mem: seq<int>, a: seq<int>, b: seq<int>, off: nat, stop: int)
    requires Chain(mem, a + b, off, stop)
    ensures Chain(mem, a, off, Head(b, stop)) && Chain(mem, b, off, stop)
  {
    var s := a + b;
    forall k: nat ensures Points(mem, a, off, Head(b, stop), k) {
      if k < |a| { assert Points(mem, s, off, stop, k) && s[k] == a[k]; }
    }
    forall k: nat ensures Points(mem, b, off, stop, k) {
      if k < |b| { assert Points(mem, s, off, stop, |a| + k) && s[|a| + k] == b[k]; }
    }
  }

  /** Nothing happened to the words that hold the links. */
  lemma ChainFrame(mem: seq<int>, mem': seq<int>, s: seq<int>, off: nat, stop: int)
    requires Chain(mem, s, off, stop)
    requires forall k :: 0 <= k < |s| && 0 <= s[k] + off < |mem| ==>
      s[k] + off < |mem'| && mem'[s[k] + off] == mem[s[k] + off]
    ensures Chain(mem', s, off, stop)
  {
    forall k: nat ensures Points(mem', s, off, stop, k) {
      assert Points(mem, s, off, stop, k);
    }
  }

  /** The last element is made to point elsewhere. */
  lemma ChainRelink(mem: seq<int>, mem': seq<int>, a: seq<int>, x: int, off: nat, stop: int, stop': int)
    requires Chain(mem, a + [x], off, stop)
    requires 0 <= x && x + off < |mem'| && mem'[x + off] == stop'
    requires forall k :: 0 <= k < |a| && 0 <= a[k] + off < |mem| ==>
      a[k] + off < |mem'| && mem'[a[k] + off] == mem[a[k] + off]
    ensures Chain(mem', a + [x], off, stop')
  {
    ChainSplit(mem, a, [x], off, stop);
    ChainFrame(mem, mem', a, off, x);
    ChainOne(mem', x, off, stop');
    ChainJoin(mem', a, [x], off, stop');
  }
}
