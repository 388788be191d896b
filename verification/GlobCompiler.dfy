/** The pattern compiler of Src/glob.c: parsereg, parsecompsw and parsecomp,
    which hand the code after a group to the inside of the group through `tail`. */
module GlobCompiler {
  import opened GlobPattern
  import opened GlobGraph
  import opened GlobMatcher

  // ----- Where a printed pattern is -----

  /** u stands in t at position i. */
  predicate Placed(t: seq<Tok>, i: nat, u: seq<Tok>) {
    i + |u| <= |t| && forall k :: 0 <= k < |u| ==> t[i + k] == u[k]
  }

  /** What may follow a sequence of pieces. */
  predicate StopsAt(t: seq<Tok>, e: nat) {
    e <= |t| && (e < |t| ==> t[e] == Bar || t[e] == Outpar)
  }

  /** The pieces of p stand at i, and there are no more of them. */
  predicate Reads(t: seq<Tok>, i: nat, p: Pat, e: nat) {
    Placed(t, i, PrintPat(p)) && e == i + |PrintPat(p)| && StopsAt(t, e)
  }

  predicate ReadsAlts(t: seq<Tok>, i: nat, a: Alts, e: nat) {
    Placed(t, i, PrintAlts(a)) && e == i + |PrintAlts(a)| && StopsAt(t, e) && (e < |t| ==> t[e] == Outpar)
  }

  lemma PlacedBoth(t: seq<Tok>, i: nat, u: seq<Tok>, v: seq<Tok>)
    requires Placed(t, i, u + v)
    ensures Placed(t, i, u) && Placed(t, i + |u|, v)
  {
    forall k | 0 <= k < |u| ensures t[i + k] == u[k] { assert (u + v)[k] == u[k]; }
    forall k | 0 <= k < |v| ensures t[i + |u| + k] == v[k] { assert t[i + (|u| + k)] == (u + v)[|u| + k]; }
  }

  lemma PlacedSize(t: seq<Tok>, i: nat, u: seq<Tok>)
    requires Placed(t, i, u)
    ensures i + |u| <= |t|
  {}

  lemma PlacedAt(t: seq<Tok>, i: nat, u: seq<Tok>, k: nat)
    requires Placed(t, i, u) && k < |u|
    ensures i + |u| <= |t| && t[i + k] == u[k]
  {}

  /** The first token tells the kind of the first piece. */
  lemma FirstToken(t: seq<Tok>, i: nat, p: Pat, e: nat)
    requires Reads(t, i, p, e)
    ensures i == |t| || t[i] == Bar || t[i] == Outpar <==> p.Nil?
    ensures i < |t| ==> t[i] != Pound && (t[i] == Star <==> p.Cons? && p.head.Stars?) &&
                        (t[i] == Inpar <==> p.Cons? && (p.head.Group? || p.head.GroupRep?))
    ensures p.Cons? ==> Placed(t, i, PrintPiece(p.head)) && Reads(t, i + |PrintPiece(p.head)|, p.tail, e)
  {
    hide Placed;
    if p.Cons? {
      PlacedBoth(t, i, PrintPiece(p.head), PrintPat(p.tail));
      PlacedAt(t, i, PrintPiece(p.head), 0);
    }
  }

  // ----- Balanced parentheses -----

  /** Where `level` open parentheses are closed, reading on from i; -1 if they are not. */
  function Skip(t: seq<Tok>, i: nat, level: nat): (e: int)
    requires i <= |t|
    ensures e == -1 || i <= e <= |t|
    decreases |t| - i
  {
    if level == 0 then i
    else if i == |t| then -1
    else Skip(t, i + 1, if t[i] == Inpar then level + 1 else if t[i] == Outpar then level - 1 else level)
  }

  /** Reading on in u from k is the same where u stands in t. */
  lemma {:induction false} SkipMoved(t: seq<Tok>, i: nat, u: seq<Tok>, k: nat, level: nat)
    requires Placed(t, i, u) && k <= |u| && Skip(u, k, level) >= 0
    ensures Skip(t, i + k, level) == i + Skip(u, k, level)
    decreases |u| - k
  {
    if level > 0 && k < |u| {
      assert t[i + k] == u[k];
      SkipMoved(t, i, u, k + 1, if u[k] == Inpar then level + 1 else if u[k] == Outpar then level - 1 else level);
    }
  }

  /** The parentheses that skipparens counts inside are balanced, so that it finds the end:
      it counts those in classes too. */
  predicate Even(a: Alts) {
    Skip(PrintAlts(a) + [Outpar], 0, 1) == |PrintAlts(a)| + 1
  }

  /** Every group is even. */
  predicate Closed(p: Pat) {
    p.Cons? ==> (p.head.Group? || p.head.GroupRep? ==> Even(p.head.alts) && ClosedAlts(p.head.alts)) && Closed(p.tail)
  }

  predicate ClosedAlts(a: Alts) {
    Closed(a.p) && (a.Or? ==> ClosedAlts(a.rest))
  }

  /** How many # follow a group. */
  function HashCount(h: Piece): nat {
    match h
    case GroupRep(_, plus) => if plus then 2 else 1
    case _ => 0
  }

  // ----- Where skipparens finds the end -----

  /** As many parentheses are closed in a class as are opened. */
  predicate Balanced(b: seq<Tok>, open: nat) {
    if b == [] then open == 0
    else if b[0] == Inpar then Balanced(b[1..], open + 1)
    else if b[0] == Outpar then open > 0 && Balanced(b[1..], open - 1)
    else Balanced(b[1..], open)
  }

  predicate BalancedElem(e: Elem) {
    e.Class? ==> Balanced(e.body, 0)
  }

  predicate BalancedPat(p: Pat) {
    p.Cons? ==>
      (p.head.Single? || p.head.Rep? ==> BalancedElem(p.head.e)) &&
      (p.head.Group? || p.head.GroupRep? ==> BalancedAlts(p.head.alts)) && BalancedPat(p.tail)
  }

  /** All classes in it have balanced parentheses. */
  predicate BalancedAlts(a: Alts) {
    BalancedPat(a.p) && (a.Or? ==> BalancedAlts(a.rest))
  }

  lemma {:induction false} SkipBody(t: seq<Tok>, i: nat, b: seq<Tok>, open: nat, level: nat)
    requires Placed(t, i, b) && Balanced(b, open) && level > 0
    ensures Skip(t, i, level + open) == Skip(t, i + |b|, level)
    decreases b
  {
    if b != [] {
      assert t[i + 0] == b[0];
      assert b == [b[0]] + b[1..];
      PlacedBoth(t, i, [b[0]], b[1..]);
      SkipBody(t, i + 1, b[1..], if b[0] == Inpar then open + 1 else if b[0] == Outpar then open - 1 else open, level);
    }
  }

  /** A token that is no parenthesis. */
  lemma SkipOne(t: seq<Tok>, i: nat, x: Tok, level: nat)
    requires Placed(t, i, [x]) && x != Inpar && x != Outpar && level > 0
    ensures i < |t| && Skip(t, i, level) == Skip(t, i + 1, level)
  {
    assert t[i + 0] == [x][0];
  }

  lemma SkipElem(t: seq<Tok>, i: nat, e: Elem, level: nat)
    requires Placed(t, i, PrintElem(e)) && BalancedElem(e) && level > 0
    ensures i + |PrintElem(e)| <= |t| && Skip(t, i, level) == Skip(t, i + |PrintElem(e)|, level)
  {
    hide Placed, Skip;
    if e.Class? {
      assert PrintElem(e) == [Inbrack] + (e.body + [Outbrack]);
      PlacedBoth(t, i, [Inbrack], e.body + [Outbrack]);
      PlacedBoth(t, i + 1, e.body, [Outbrack]);
      SkipOne(t, i, Inbrack, level);
      SkipBody(t, i + 1, e.body, 0, level);
      SkipOne(t, i + 1 + |e.body|, Outbrack, level);
    } else {
      SkipOne(t, i, PrintElem(e)[0], level);
    }
  }

  lemma {:induction false} SkipPat(t: seq<Tok>, i: nat, p: Pat, level: nat)
    requires Placed(t, i, PrintPat(p)) && BalancedPat(p) && level > 0
    ensures i + |PrintPat(p)| <= |t| && Skip(t, i, level) == Skip(t, i + |PrintPat(p)|, level)
    decreases p
  {
    hide Placed, Skip, PrintPiece;
    PlacedSize(t, i, PrintPat(p));
    match p
    case Nil =>
    case Cons(h, q) =>
      PlacedBoth(t, i, PrintPiece(h), PrintPat(q));
      SkipPiece(t, i, h, level);
      SkipPat(t, i + |PrintPiece(h)|, q, level);
  }

  lemma {:induction false} SkipPiece(t: seq<Tok>, i: nat, h: Piece, level: nat)
    requires Placed(t, i, PrintPiece(h)) && level > 0
    requires h.Single? || h.Rep? ==> BalancedElem(h.e)
    requires h.Group? || h.GroupRep? ==> BalancedAlts(h.alts)
    ensures i + |PrintPiece(h)| <= |t| && Skip(t, i, level) == Skip(t, i + |PrintPiece(h)|, level)
    decreases h
  {
    hide Placed, PrintAlts, PrintElem, Skip;
    PlacedSize(t, i, PrintPiece(h));
    match h
    case Single(e) => SkipElem(t, i, e, level);
    case Stars => SkipOne(t, i, Star, level);
    case Rep(e, plus) =>
      var n := RepParts(t, i, h);
      SkipElem(t, i, e, level);
      SkipMarks(t, n, i + |PrintPiece(h)|, level);
    case Group(a) => SkipGroup(t, i, h, level);
    case GroupRep(a, plus) => SkipGroup(t, i, h, level);
  }

  lemma {:induction false} SkipGroup(t: seq<Tok>, i: nat, h: Piece, level: nat)
    requires Placed(t, i, PrintPiece(h)) && (h.Group? || h.GroupRep?) && BalancedAlts(h.alts) && level > 0
    ensures i + |PrintPiece(h)| <= |t| && Skip(t, i, level) == Skip(t, i + |PrintPiece(h)|, level)
    decreases h, 0
  {
    hide Placed, PrintAlts, PrintPiece;
    var n := GroupParts(t, i, h);
    SkipAlts(t, i + 1, h.alts, level + 1);
    SkipMarks(t, n + 1, i + |PrintPiece(h)|, level);
  }

  lemma {:induction false} SkipMarks(t: seq<Tok>, i: nat, e: nat, level: nat)
    requires i <= e <= |t| && level > 0 && forall k :: i <= k < e ==> t[k] == Pound
    ensures Skip(t, i, level) == Skip(t, e, level)
    decreases e - i
  {
    if i < e { SkipMarks(t, i + 1, e, level); }
  }

  lemma {:induction false} SkipAlts(t: seq<Tok>, i: nat, a: Alts, level: nat)
    requires Placed(t, i, PrintAlts(a)) && BalancedAlts(a) && level > 0
    ensures i + |PrintAlts(a)| <= |t| && Skip(t, i, level) == Skip(t, i + |PrintAlts(a)|, level)
    decreases a
  {
    match a
    case One(p) => SkipPat(t, i, p, level);
    case Or(p, rest) =>
      var n := OrParts(t, i, a);
      SkipPat(t, i, p, level);
      SkipAlts(t, n + 1, rest, level);
  }

  /** With balanced classes every group is even, and so is the whole. */
  lemma {:induction false} BalancedClosed(a: Alts)
    requires BalancedAlts(a)
    ensures Even(a) && ClosedAlts(a)
    decreases a, 1
  {
    var t := PrintAlts(a) + [Outpar];
    PlacedBoth(t, 0, PrintAlts(a), [Outpar]);
    SkipAlts(t, 0, a, 1);
    BalancedParts(a);
  }

  lemma {:induction false} BalancedParts(a: Alts)
    requires BalancedAlts(a)
    ensures ClosedAlts(a)
    decreases a, 0
  {
    BalancedPieces(a.p);
    if a.Or? { BalancedParts(a.rest); }
  }

  lemma {:induction false} BalancedPieces(p: Pat)
    requires BalancedPat(p)
    ensures Closed(p)
    decreases p
  {
    hide Even;
    if p.Cons? {
      if p.head.Group? || p.head.GroupRep? { BalancedClosed(p.head.alts); }
      BalancedPieces(p.tail);
    }
  }

  /** The parts of a group: n is its closing parenthesis. */
  lemma GroupParts(t: seq<Tok>, i: nat, h: Piece) returns (n: nat)
    requires (h.Group? || h.GroupRep?) && Placed(t, i, PrintPiece(h))
    ensures n == i + 1 + |PrintAlts(h.alts)| < |t| && t[i] == Inpar && t[n] == Outpar
    ensures Placed(t, i + 1, PrintAlts(h.alts))
    ensures n + 1 + HashCount(h) == i + |PrintPiece(h)| <= |t|
    ensures forall k :: n < k <= n + HashCount(h) ==> t[k] == Pound
  {
    hide Placed, PrintAlts, PrintElem;
    var a := PrintAlts(h.alts);
    var hashes := if h.GroupRep? then Hashes(h.plus) else [];
    assert PrintPiece(h) == [Inpar] + (a + ([Outpar] + hashes));
    PlacedBoth(t, i, [Inpar], a + ([Outpar] + hashes));
    PlacedBoth(t, i + 1, a, [Outpar] + hashes);
    n := i + 1 + |a|;
    PlacedBoth(t, n, [Outpar], hashes);
    PlacedAt(t, i, [Inpar], 0);
    PlacedAt(t, n, [Outpar], 0);
    if |hashes| > 0 { PlacedAt(t, n + 1, hashes, 0); }
    if |hashes| > 1 { PlacedAt(t, n + 1, hashes, 1); }
    PlacedSize(t, n + 1, hashes);
  }

  /** The parts of an alternative: n is its bar. */
  lemma OrParts(t: seq<Tok>, i: nat, a: Alts) returns (n: nat)
    requires a.Or? && Placed(t, i, PrintAlts(a))
    ensures n == i + |PrintPat(a.p)| < |t| && t[n] == Bar
    ensures Placed(t, i, PrintPat(a.p)) && Placed(t, n + 1, PrintAlts(a.rest))
    ensures i + |PrintAlts(a)| == n + 1 + |PrintAlts(a.rest)|
  {
    hide Placed;
    n := i + |PrintPat(a.p)|;
    assert PrintAlts(a) == PrintPat(a.p) + ([Bar] + PrintAlts(a.rest));
    PlacedBoth(t, i, PrintPat(a.p), [Bar] + PrintAlts(a.rest));
    PlacedBoth(t, n, [Bar], PrintAlts(a.rest));
    PlacedAt(t, n, [Bar], 0);
  }

  /** The parts of x# and x##: n is where the marks start. */
  lemma RepParts(t: seq<Tok>, i: nat, h: Piece) returns (n: nat)
    requires h.Rep? && Placed(t, i, PrintPiece(h))
    ensures n == i + |PrintElem(h.e)| < i + |PrintPiece(h)| <= |t|
    ensures Placed(t, i, PrintElem(h.e)) && t[n] == Pound
    ensures i + |PrintPiece(h)| == if h.plus then n + 2 else n + 1
    ensures h.plus ==> t[n + 1] == Pound
  {
    hide Placed, PrintElem;
    n := i + |PrintElem(h.e)|;
    PlacedBoth(t, i, PrintElem(h.e), Hashes(h.plus));
    PlacedSize(t, n, Hashes(h.plus));
    PlacedAt(t, n, Hashes(h.plus), 0);
    if h.plus { PlacedAt(t, n, Hashes(h.plus), 1); }
  }

  /** The first n tokens are the same. */
  predicate SamePrefix(a: seq<Tok>, b: seq<Tok>, n: nat) {
    |a| == |b| && n <= |a| && forall k :: 0 <= k < n ==> a[k] == b[k]
  }

  /** From n on the tokens are the same. */
  predicate SameFrom(a: seq<Tok>, b: seq<Tok>, n: nat) {
    |a| == |b| && forall k :: n <= k < |a| ==> a[k] == b[k]
  }

  /** Some tokens have become the characters they stand for. */
  predicate Softened(a: seq<Tok>, b: seq<Tok>) {
    |a| == |b| && forall k :: 0 <= k < |a| ==> b[k] == a[k] || b[k] == Ch(Untok(a[k]))
  }

  /** A group opens at i that skipparens does not find the end of. */
  predicate Unclosed(t: seq<Tok>, i: nat) {
    i < |t| && t[i] == Inpar && Skip(t, i + 1, 1) < 0
  }

  class Compiler {
    /** The pattern; stray special tokens are turned into characters in place. */
    var input: seq<Tok>
    var pptr: nat
    /** The code that follows the group being compiled. */
    var tail: CompNode?
    ghost var nodes: set<CompNode>

    ghost predicate Valid()
      reads this, nodes
    {
      pptr <= |input| && Arena(nodes) && (tail != null ==> tail in nodes)
    }

    constructor (str: seq<Tok>)
      ensures Valid() && input == str && pptr == 0 && tail == null && nodes == {}
    {
      input, pptr, tail, nodes := str, 0, null, {};
    }

    /** Skips a parenthesised group; false if it is not closed. */
    method SkipParens() returns (ok: bool)
      requires pptr < |input| && input[pptr] == Inpar
      modifies this`pptr
      ensures ok <==> Skip(input, old(pptr) + 1, 1) >= 0
      ensures ok ==> pptr == Skip(input, old(pptr) + 1, 1)
      ensures old(pptr) < pptr <= |input|
    {
      var level: nat := 1;
      pptr := pptr + 1;
      while pptr < |input| && level > 0
        invariant old(pptr) < pptr <= |input|
        invariant Skip(input, old(pptr) + 1, 1) == Skip(input, pptr, level)
        decreases |input| - pptr
      {
        if input[pptr] == Inpar {
          level := level + 1;
        } else if input[pptr] == Outpar {
          level := level - 1;
        }
        pptr := pptr + 1;
      }
      ok := level == 0;
    }

    /** From an opening bracket to its closing one, making everything between
        them ordinary characters; false if there is no closing bracket. */
    method ScanClass(ghost on: bool, ghost body: seq<ClassTok>) returns (ok: bool)
      requires pptr < |input| && input[pptr] == Inbrack
      requires on ==> Placed(input, pptr, PrintElem(Class(body)))
      modifies this`input, this`pptr
      ensures SamePrefix(old(input), input, old(pptr)) && old(pptr) < pptr <= |input|
      ensures SameFrom(old(input), input, pptr) && Softened(old(input), input)
      ensures ok ==> pptr < |input| && Simple(input[old(pptr)..pptr + 1])
      ensures on ==> ok && pptr == old(pptr) + |body| + 1 && input[old(pptr)..pptr + 1] == Settled(Class(body))
    {
      ghost var p0, in0 := pptr, input;
      if on { ClassAt(input, pptr, body); }
      pptr := pptr + 1;
      while pptr < |input| && input[pptr] != Outbrack
        invariant p0 < pptr <= |input| && SamePrefix(in0, input, p0 + 1) && SameFrom(in0, input, pptr)
        invariant forall k :: p0 < k < pptr ==> in0[k] != Outbrack && input[k] == Ch(Untok(in0[k]))
        invariant on ==> pptr <= p0 + |body| + 1
        decreases |input| - pptr
      {
        if !input[pptr].Ch? {
          input := input[pptr := Ch(Untok(input[pptr]))];
        }
        pptr := pptr + 1;
      }
      ok := pptr < |input|;
      if ok { SimpleClass(input, p0, pptr); }
      if on { ClassSettled(in0, input, p0, body); }
    }

    /** One element at the cursor: a class, or any other token, which is made an
        ordinary character unless it is a wildcard. */
    method Element(ghost on: bool, ghost e: Elem) returns (ok: bool)
      requires Valid() && pptr < |input| && (input[pptr] == Star ==> pptr + 1 == |input|)
      requires on ==> Placed(input, pptr, PrintElem(e))
      modifies this`input, this`pptr
      ensures Valid() && SamePrefix(old(input), input, old(pptr)) && old(pptr) < pptr <= |input|
      ensures Softened(old(input), input)
      ensures ok ==> if old(input[pptr]) == Star then input == old(input) && pptr == |input|
                     else Simple(input[old(pptr)..pptr])
      ensures on ==> ok && SameFrom(old(input), input, pptr) && pptr == old(pptr) + |PrintElem(e)| &&
                     input[old(pptr)..pptr] == Settled(e)
      ensures old(input[pptr]) == Star ==> ok
    {
      hide Arena, Simple;
      ghost var p0 := pptr;
      assert on ==> input[pptr + 0] == PrintElem(e)[0];
      ok := true;
      if input[pptr] == Inbrack {
        ok := ScanClass(on, if e.Class? then e.body else []);
        if !ok { return; }
      } else {
        if !input[pptr].Ch? && input[pptr] != Star && input[pptr] != Quest {
          input := input[pptr := Ch(Untok(input[pptr]))];
        }
        SimpleOne(input, p0);
      }
      pptr := pptr + 1;
    }

    /** Allocates a node that points to finished ones. */
    method Make(str: seq<Tok>, hash: Hash, last: bool, left: CompNode?, right: CompNode?, next: CompNode?)
      returns (c: CompNode)
      requires Valid()
      requires (left != null ==> left in nodes) && (right != null ==> right in nodes) &&
               (next != null ==> next in nodes)
      requires WfText(str) && (Starred(str) ==> hash == NoHash && left == null)
      requires (hash != NoHash ==> next != null) && (right != null ==> left != null)
      modifies this`nodes
      ensures Valid() && nodes == old(nodes) + {c} && fresh(c)
      ensures c.view == Node(str, hash, last, View(left), View(right), View(next))
    {
      c := new CompNode(str, hash, last, left, right, next);
      ArenaAdd(nodes, c);
      nodes := nodes + {c};
    }

    /** x# or x## and what follows it. */
    method MakeRep(str: seq<Tok>, rep: seq<Tok>, twice: bool, c3: CompNode) returns (r: CompNode)
      requires Valid() && c3 in nodes && Simple(str) && Simple(rep)
      modifies this`nodes
      ensures Valid() && old(nodes) <= nodes && r in nodes
      ensures r.view == RepGraph(str, rep, twice, c3.view)
    {
      hide Simple, Arena;
      SimpleAppend(rep, []);
      SimpleAppend(str, []);
      var c1 := Make(rep, OneHash, false, null, null, c3);
      if twice { c1 := Make(rep, NoHash, false, null, null, c1); }
      r := Make(str, NoHash, false, null, null, c1);
    }

    /** A group and what follows it. */
    method MakeGroup(str: seq<Tok>, hash: Hash, inside: CompNode, c1: CompNode) returns (r: CompNode)
      requires Valid() && inside in nodes && c1 in nodes && Simple(str)
      modifies this`nodes
      ensures Valid() && old(nodes) <= nodes && r in nodes
      ensures r.view == GroupGraph(str, hash, inside.view, c1.view)
    {
      SimpleAppend(str, []);
      var next := c1;
      if hash == NoHash { next := Make([], NoHash, false, null, null, null); }
      var g := Make([], hash, false, inside, null, next);
      r := Make(str, NoHash, false, null, null, g);
    }

    /** A star with something after it: a closure of the single wildcard. */
    method ParseStar(cstr: nat, ghost on: bool, ghost q: Pat, ghost e: nat) returns (r: CompNode?)
      requires Valid() && cstr <= pptr && Simple(input[cstr..pptr])
      requires pptr + 1 < |input| && input[pptr] == Star
      requires on ==> Reads(input, pptr, q, e) && Closed(q)
      modifies this
      ensures Valid() && old(nodes) <= nodes
      ensures Framed(old(input), input, old(pptr), on, e) && old(pptr) <= pptr
      ensures r != null ==> r in nodes && tail == old(tail)
      ensures on ==> r != null && pptr == e &&
                     r.view == Compile(q, old(input[cstr..pptr]), View(tail), e == |input|)
      decreases |input| - pptr, 1
    {
      hide Reads, Closed, Arena, Simple, Softened, SameFrom, SamePrefix, Framed, Compile, PrintPiece;
      var str := input[cstr..pptr];
      ghost var in0, from := input, pptr;
      if on {
        FirstToken(input, pptr, q, e);
        ClosedTail(q);
        StarAlone(q);
        NilEnds(input, pptr + 1, q.tail, e);
      }
      pptr := pptr + 1;
      var c2 := ParseComp(on, if on then q.tail else Nil, e);
      FramedFrom(in0, input, from + 1, from, on, e);
      if c2 == null { return null; }
      SimpleOne([Quest], 0);
      assert [Quest][0..1] == [Quest];
      if on { StarShape(q, str, View(tail), e == |input|); }
      r := MakeRep(str, [Quest], false, c2);
    }

    /** # or ## after the element that starts at ls. */
    method ParseHash(cstr: nat, ls: nat, ghost on: bool, ghost q: Pat, ghost e: nat) returns (r: CompNode?)
      requires Valid() && cstr <= ls < pptr < |input| && input[pptr] == Pound
      requires Simple(input[cstr..ls]) && Simple(input[ls..pptr])
      requires on ==> MarkedAt(input, ls, pptr, q, e) && Closed(q)
      modifies this
      ensures Valid() && old(nodes) <= nodes
      ensures Framed(old(input), input, old(pptr), on, e) && old(pptr) <= pptr
      ensures r != null ==> r in nodes && tail == old(tail)
      ensures on ==> r != null && pptr == e &&
                     r.view == Compile(q, old(input)[cstr..ls], View(tail), e == |input|)
      decreases |input| - pptr, 1
    {
      hide Reads, Arena, Compile, Simple, Starred, RepGraph, PrintElem, Closed;
      var str, rep := input[cstr..ls], input[ls..pptr];
      ghost var t := Nil;
      if on {
        t := q.tail;
        HashStep(input, ls, pptr, q, e);
        RepShape(q, str, View(tail), e == |input|);
      }
      var twice := pptr + 1 < |input| && input[pptr + 1] == Pound;
      pptr := if twice then pptr + 2 else pptr + 1;
      var c3 := ParseComp(on, t, e);
      if c3 == null { return null; }
      r := MakeRep(str, rep, twice, c3);
    }

    /** The closure marks after a group. */
    method Hashed() returns (hash: Hash)
      requires pptr <= |input|
      modifies this`pptr
      ensures old(pptr) <= pptr <= |input|
      ensures hash == HashAt(input, old(pptr)) && pptr == old(pptr) + HashSize(hash)
    {
      hash := NoHash;
      if pptr < |input| && input[pptr] == Pound {
        hash, pptr := OneHash, pptr + 1;
        if pptr < |input| && input[pptr] == Pound {
          hash, pptr := TwoHash, pptr + 1;
        }
      }
    }

    /** A group: what follows it is compiled first, and is what the inside
        continues with, unless the group is repeated. */
    method ParseGroup(cstr: nat, ghost on: bool, ghost q: Pat, ghost e: nat) returns (r: CompNode?)
      requires Valid() && cstr <= pptr < |input| && input[pptr] == Inpar && Simple(input[cstr..pptr])
      requires on ==> Reads(input, pptr, q, e) && Closed(q)
      modifies this
      ensures Valid() && old(nodes) <= nodes
      ensures Framed(old(input), input, old(pptr), on, e) && old(pptr) <= pptr
      ensures r != null ==> r in nodes && tail == old(tail)
      ensures on ==> r != null && pptr == e &&
                     r.view == Compile(q, old(input[cstr..pptr]), View(tail), e == |input|)
      ensures old(Unclosed(input, pptr)) ==> r == null
      decreases |input| - pptr, 1
    {
      hide Reads, ReadsAlts, Arena, Compile, CompileAlts, Simple, Skip, Closed, ClosedAlts, Softened, SameFrom;
      var startp, stail, str := pptr, tail, input[cstr..pptr];
      ghost var n, in0 := 0, input;
      if on { n := GroupStep(input, pptr, q, e); }
      var hash, c1 := GroupAfter(on, q, e, n);
      ShorterPrefix(in0, input, startp + 1, startp);
      if c1 == null { return null; }
      var endp := pptr;
      if on { ReadsAltsSame(in0, input, startp + 1, q.head.alts, n); }
      ghost var in1 := input;
      var inside := GroupInside(startp, hash, c1, on, if on then q.head.alts else One(Nil), n);
      Frames(in0, in1, input, startp, on, n, e);
      if inside == null { return null; }
      pptr, tail := endp, stail;
      if on { GroupShape(q, str, View(tail), e == |input|); }
      r := MakeGroup(str, hash, inside, c1);
    }

    /** Over the group, and what follows it. */
    method GroupAfter(ghost on: bool, ghost q: Pat, ghost e: nat, ghost n: nat) returns (hash: Hash, c1: CompNode?)
      requires Valid() && pptr < |input| && input[pptr] == Inpar
      requires on ==> GroupAt(input, pptr, q, e, n)
      modifies this
      ensures Valid() && old(nodes) <= nodes && old(pptr) <= pptr
      ensures SamePrefix(old(input), input, old(pptr) + 1) && Softened(old(input), input)
      ensures c1 != null ==> c1 in nodes && tail == old(tail)
      ensures on ==> c1 != null && hash == HashOf(q.head) && pptr == e && SameFrom(old(input), input, e) &&
                     SamePrefix(old(input), input, n + 1) && c1.view == Compile(q.tail, [], View(tail), e == |input|)
      ensures old(Unclosed(input, pptr)) ==> c1 == null
      decreases |input| - pptr, 0
    {
      hide Reads, ReadsAlts, Arena, Compile, CompileAlts, Skip, Closed, ClosedAlts, Softened, SameFrom, SamePrefix;
      ghost var in0, startp := input, pptr;
      Unchanged(input);
      hash := NoHash;
      var ok := SkipParens();
      if !ok { return hash, null; }
      hash := Hashed();
      ghost var from := pptr;
      c1 := ParseComp(on, if on then q.tail else Nil, e);
      ShorterPrefix(in0, input, from, startp + 1);
      if on { ShorterPrefix(in0, input, from, n + 1); }
    }

    /** The inside of the group at startp, which continues with c1 unless it is repeated. */
    method GroupInside(startp: nat, hash: Hash, c1: CompNode, ghost on: bool, ghost a: Alts, ghost n: nat)
      returns (inside: CompNode?)
      requires Valid() && startp < |input| && c1 in nodes
      requires on ==> ReadsAlts(input, startp + 1, a, n) && n < |input| && ClosedAlts(a)
      modifies this
      ensures Valid() && old(nodes) <= nodes && SamePrefix(old(input), input, startp + 1) && Softened(old(input), input)
      ensures startp < pptr && (inside != null ==> inside in nodes)
      ensures on ==> inside != null && SameFrom(old(input), input, n) &&
                     inside.view == CompileAlts(a, if hash == NoHash then Ptr(c1.view) else Null, false)
      decreases |input| - startp, 0
    {
      hide ReadsAlts, Arena, CompileAlts, ClosedAlts, Softened, SameFrom;
      tail := if hash == NoHash then c1 else null;
      pptr := startp + 1;
      inside := ParseCompSw(on, a, n);
    }

    /** A piece that is more than one element, and everything after it. */
    method ParseSpecial(cstr: nat, ls: int, ghost on: bool, ghost q: Pat, ghost e: nat, ghost goal: Graph)
      returns (r: CompNode?)
      requires Valid() && cstr <= pptr < |input| && ls < pptr && Simple(input[cstr..pptr])
      requires input[pptr] == Inpar || input[pptr] == Pound || (input[pptr] == Star && pptr + 1 < |input|)
      requires ls >= 0 ==> cstr <= ls && Simple(input[cstr..ls]) && Simple(input[ls..pptr])
      requires on && input[pptr] == Pound ==>
        cstr <= ls && MarkedAt(input, ls, pptr, q, e) && Closed(q) &&
        goal == Compile(q, input[cstr..ls], View(tail), e == |input|)
      requires on && input[pptr] != Pound ==>
        Reads(input, pptr, q, e) && Closed(q) && goal == Compile(q, input[cstr..pptr], View(tail), e == |input|)
      modifies this
      ensures Valid() && old(nodes) <= nodes
      ensures Framed(old(input), input, old(pptr), on, e) && old(pptr) <= pptr
      ensures r != null ==> r in nodes && tail == old(tail)
      ensures on ==> r != null && pptr == e && r.view == goal
      ensures old(Unclosed(input, pptr)) ==> r == null
      decreases |input| - pptr, 2
    {
      hide Reads, Compile, Simple, Arena, Closed, MarkedAt;
      if input[pptr] == Inpar {
        r := ParseGroup(cstr, on, q, e);
      } else if input[pptr] == Star {
        r := ParseStar(cstr, on, q, e);
      } else if ls < 0 {
        r := null;
      } else {
        r := ParseHash(cstr, ls, on, q, e);
      }
    }

    /** One more element of the text that started at cstr. */
    method NextElement(cstr: nat, ls: int, ghost on: bool, ghost q: Pat, ghost e: nat, ghost k: Link,
                       ghost goal: Graph, ghost stage: Stage)
      returns (ok: bool, ghost q1: Pat, ghost stage1: Stage)
      requires Valid() && cstr <= pptr < |input| && ls < pptr && (ls >= 0 ==> cstr <= ls)
      requires Texts(input, cstr, ls, pptr) && (on ==> Upto(input, cstr, ls, pptr, q, e, k, goal, stage))
      requires input[pptr] != Bar && input[pptr] != Outpar && input[pptr] != Inpar && input[pptr] != Pound
      requires input[pptr] == Star ==> pptr + 1 == |input|
      modifies this`input, this`pptr
      ensures Valid() && Framed(old(input), input, old(pptr), on, e) && old(pptr) < pptr <= |input|
      ensures ok ==> Texts(input, cstr, old(pptr), pptr)
      ensures on ==> ok && pptr <= e &&
                     Upto(input, cstr, old(pptr), pptr, q1, e, k, goal, stage1)
    {
      hide Arena, Upto, Texts, Simple, Settled, PrintElem;
      var star := input[pptr] == Star;
      ghost var e1 := AnyChar;
      q1, stage1 := q, stage;
      if on { e1, q1, stage1 := UptoElem(input, cstr, ls, pptr, q, e, k, goal, stage); }
      ghost var before, from := input, pptr;
      ok := Element(on && !star, e1);
      if ok { TextsStep(before, input, cstr, ls, from, pptr); }
      if on { UptoAfter(before, input, cstr, ls, from, pptr, q, e, k, goal, stage, e1, q1, stage1); }
    }

    /** parsecomp: a sequence of pieces, up to a separator, with the code that
        follows it stored in `tail`. */
    method ParseComp(ghost on: bool, ghost p: Pat, ghost e: nat) returns (r: CompNode?)
      requires Valid()
      requires on ==> Reads(input, pptr, p, e) && Closed(p)
      modifies this
      ensures Valid() && old(nodes) <= nodes
      ensures Framed(old(input), input, old(pptr), on, e) && old(pptr) <= pptr
      ensures r != null ==> r in nodes && tail == old(tail)
      ensures on ==> r != null && pptr == e &&
                     r.view == Compile(p, [], View(tail), e == |input|)
      ensures old(Unclosed(input, pptr)) ==> r == null
      decreases |input| - pptr, 4
    {
      hide Arena, Upto, Reads, Compile, Simple, Starred, Texts, WfText, Closed, MarkedAt, SameFrom, Softened,
        SamePrefix, Unclosed, Framed;
      var cstr := pptr;
      var ls: int := -1;
      ghost var in0, k := input, View(tail);
      ghost var goal, q, stage := Compile(p, [], k, e == |input|), p, Plain;
      TextEmpty(input, pptr);
      NothingDone(input, pptr, on, e);
      UnclosedOpens(input, pptr);
      if on { UptoStart(input, pptr, p, e, k); }
      while pptr < |input| && input[pptr] != Bar && input[pptr] != Outpar
        invariant Valid() && nodes == old(nodes) && tail == old(tail)
        invariant cstr <= pptr <= |input| && Framed(in0, input, cstr, on, e)
        invariant Unclosed(in0, cstr) ==> pptr == cstr && input == in0
        invariant |input| == |in0|
        invariant ls < pptr && (ls >= 0 ==> cstr <= ls)
        invariant Texts(input, cstr, ls, pptr)
        invariant on ==> Upto(input, cstr, ls, pptr, q, e, k, goal, stage)
        decreases |input| - pptr
      {
        ghost var before, from0 := input, pptr;
        if input[pptr] == Inpar || input[pptr] == Pound || (input[pptr] == Star && pptr + 1 < |input|) { break; }
        var from, ok := pptr, false;
        ok, q, stage := NextElement(cstr, ls, on, q, e, k, goal, stage);
        FramesOn(in0, before, input, cstr, from0, on, e);
        if !ok { return null; }
        ls := from;
      }
      r := Rest(cstr, ls, on, q, e, k, goal, stage, in0);
    }

    /** The end of a run of elements: a piece that is more than one, or a separator. */
    method Rest(cstr: nat, ls: int, ghost on: bool, ghost q: Pat, ghost e: nat, ghost k: Link, ghost goal: Graph,
                ghost stage: Stage, ghost in0: seq<Tok>)
      returns (r: CompNode?)
      requires Valid() && cstr <= pptr <= |input| && ls < pptr && (ls >= 0 ==> cstr <= ls) && k == View(tail)
      requires Framed(in0, input, cstr, on, e) && Texts(input, cstr, ls, pptr) && |input| == |in0|
      requires on ==> Upto(input, cstr, ls, pptr, q, e, k, goal, stage)
      requires pptr < |input| && input[pptr] != Bar && input[pptr] != Outpar ==>
        input[pptr] == Inpar || input[pptr] == Pound || (input[pptr] == Star && pptr + 1 < |input|)
      modifies this
      ensures Valid() && old(nodes) <= nodes
      ensures Framed(in0, input, cstr, on, e) && old(pptr) <= pptr && |input| == |in0|
      ensures r != null ==> r in nodes && tail == old(tail)
      ensures on ==> r != null && pptr == e && r.view == goal
      ensures old(Unclosed(input, pptr)) ==> r == null
      decreases |input| - pptr, 3
    {
      hide Arena, Upto, Reads, Compile, Simple, Starred, Texts, WfText, Closed, MarkedAt, SameFrom, Softened,
        SamePrefix, Unclosed, Framed;
      UnclosedOpens(input, pptr);
      if pptr < |input| && input[pptr] != Bar && input[pptr] != Outpar {
        ghost var before, from0 := input, pptr;
        TextsSimple(input, cstr, ls, pptr);
        if on { UptoNext(input, cstr, ls, pptr, q, e, k, goal, stage); }
        r := ParseSpecial(cstr, ls, on, q, e, goal);
        FramesOn(in0, before, input, cstr, from0, on, e);
      } else {
        if on { UptoEnd(input, cstr, ls, pptr, q, e, k, goal, stage); }
        TextsEnd(input, cstr, ls, pptr);
        r := Make(input[cstr..pptr], NoHash, pptr == |input|, null, null, tail);
      }
    }

    /** parsecompsw: alternatives. */
    method ParseCompSw(ghost on: bool, ghost a: Alts, ghost e: nat) returns (r: CompNode?)
      requires Valid()
      requires on ==> ReadsAlts(input, pptr, a, e) && ClosedAlts(a)
      modifies this
      ensures Valid() && old(nodes) <= nodes
      ensures SamePrefix(old(input), input, old(pptr)) && old(pptr) <= pptr && Softened(old(input), input)
      ensures r != null ==> r in nodes && tail == old(tail)
      ensures on ==> r != null && SameFrom(old(input), input, e) && pptr == e &&
                     r.view == CompileAlts(a, View(tail), e == |input|)
      ensures old(Unclosed(input, pptr)) ==> r == null
      decreases |input| - pptr, 5
    {
      hide Reads, ReadsAlts, Arena, Compile, Closed;
      ghost var e1 := e;
      if on { e1 := AltsStep(input, pptr, a, e); }
      r := ParseComp(on, a.p, e1);
      if r == null { return; }
      if pptr < |input| && input[pptr] == Bar {
        pptr := pptr + 1;
        if on { ReadsAltsSame(old(input), input, pptr, a.rest, e); }
        var c3 := ParseCompSw(on, if a.Or? then a.rest else a, e);
        if c3 == null { return null; }
        r := Make([], NoHash, false, r, c3, null);
      }
    }
  }

  function HashOf(h: Piece): Hash {
    match h
    case GroupRep(_, plus) => if plus then TwoHash else OneHash
    case _ => NoHash
  }

  function HashSize(hash: Hash): nat {
    if hash == NoHash then 0 else if hash == OneHash then 1 else 2
  }

  /** The closure marks at position i. */
  function HashAt(t: seq<Tok>, i: nat): (hash: Hash)
    requires i <= |t|
    ensures i + HashSize(hash) <= |t|
  {
    if i < |t| && t[i] == Pound then (if i + 1 < |t| && t[i + 1] == Pound then TwoHash else OneHash) else NoHash
  }

  lemma ClosedTail(q: Pat)
    requires Closed(q) && q.Cons?
    ensures Closed(q.tail)
    ensures q.head.Group? || q.head.GroupRep? ==> Even(q.head.alts) && ClosedAlts(q.head.alts)
  {}

  lemma ReadsAltsSame(t: seq<Tok>, t': seq<Tok>, i: nat, a: Alts, e: nat)
    requires ReadsAlts(t, i, a, e) && |t'| == |t| && (forall k :: i <= k <= e && k < |t| ==> t'[k] == t[k])
    ensures ReadsAlts(t', i, a, e)
  {
    var u := PrintAlts(a);
    forall k | 0 <= k < |u| ensures t'[i + k] == u[k] { assert t[i + k] == u[k]; }
  }

  lemma UnclosedOpens(t: seq<Tok>, i: nat)
    ensures Unclosed(t, i) ==> i < |t| && t[i] == Inpar
  {}

  lemma NilEnds(t: seq<Tok>, i: nat, p: Pat, e: nat)
    requires Reads(t, i, p, e)
    ensures p.Nil? ==> e == i
  {}

  lemma StarAlone(q: Pat)
    requires q.Cons? && q.head.Stars?
    ensures |PrintPiece(q.head)| == 1
  {}

  lemma FramedFrom(a: seq<Tok>, b: seq<Tok>, n: nat, m: nat, on: bool, e: nat)
    requires Framed(a, b, n, on, e) && m <= n
    ensures Framed(a, b, m, on, e) && |a| == |b|
  {}

  lemma ShorterPrefix(a: seq<Tok>, b: seq<Tok>, n: nat, m: nat)
    requires SamePrefix(a, b, n) && m <= n
    ensures SamePrefix(a, b, m)
  {}

  lemma Unchanged(t: seq<Tok>)
    ensures forall n: nat :: n <= |t| ==> SamePrefix(t, t, n)
    ensures forall n: nat :: SameFrom(t, t, n)
    ensures Softened(t, t)
  {}

  /** What is after a group was compiled first, and then what is in it. */
  lemma Frames(a: seq<Tok>, b: seq<Tok>, c: seq<Tok>, i: nat, on: bool, n: nat, e: nat)
    requires SamePrefix(a, b, i + 1) && SamePrefix(b, c, i + 1) && Softened(a, b) && Softened(b, c)
    requires on ==> n <= e && SameFrom(a, b, e) && SameFrom(b, c, n)
    ensures SamePrefix(a, c, i) && Softened(a, c) && (on ==> SameFrom(a, c, e))
  {}

  /** Before n, and for a printed pattern from e on, nothing has changed. */
  predicate Framed(a: seq<Tok>, b: seq<Tok>, n: nat, on: bool, e: nat) {
    SamePrefix(a, b, n) && Softened(a, b) && (on ==> SameFrom(a, b, e))
  }

  lemma NothingDone(t: seq<Tok>, n: nat, on: bool, e: nat)
    requires n <= |t|
    ensures Framed(t, t, n, on, e)
  {}

  lemma FramedOut(a: seq<Tok>, b: seq<Tok>, n: nat, on: bool, e: nat)
    requires Framed(a, b, n, on, e)
    ensures SamePrefix(a, b, n) && |a| == |b| && Softened(a, b) && (on ==> SameFrom(a, b, e))
  {}

  lemma FramesOn(a: seq<Tok>, b: seq<Tok>, c: seq<Tok>, n: nat, m: nat, on: bool, e: nat)
    requires Framed(a, b, n, on, e) && Framed(b, c, m, on, e) && n <= m
    ensures Framed(a, c, n, on, e) && |a| == |b| == |c|
  {}

  lemma ReadsSame(t: seq<Tok>, t': seq<Tok>, i: nat, p: Pat, e: nat)
    requires Reads(t, i, p, e) && SameFrom(t, t', i)
    ensures Reads(t', i, p, e)
  {
    var u := PrintPat(p);
    forall k | 0 <= k < |u| ensures t'[i + k] == u[k] { assert t[i + k] == u[k]; }
  }

  /** What the compiler meets when it is at a printed group: n is where it closes. */
  ghost predicate GroupAt(t: seq<Tok>, i: nat, q: Pat, e: nat, n: nat) {
    q.Cons? && (q.head.Group? || q.head.GroupRep?) && i < n < |t| && n <= e &&
    Skip(t, i + 1, 1) == n + 1 && ReadsAlts(t, i + 1, q.head.alts, n) && HashAt(t, n + 1) == HashOf(q.head) &&
    Reads(t, n + 1 + HashSize(HashOf(q.head)), q.tail, e) && ClosedAlts(q.head.alts) && Closed(q.tail)
  }

  lemma GroupStep(t: seq<Tok>, i: nat, q: Pat, e: nat) returns (n: nat)
    requires Reads(t, i, q, e) && i < |t| && t[i] == Inpar && Closed(q)
    ensures GroupAt(t, i, q, e, n)
  {
    hide Placed, PrintPiece;
    FirstToken(t, i, q, e);
    n := GroupParts(t, i, q.head);
    FirstToken(t, i + |PrintPiece(q.head)|, q.tail, e);
    ClosedTail(q);
    PlacedPlus(t, i + 1, PrintAlts(q.head.alts), Outpar);
    SkipMoved(t, i + 1, PrintAlts(q.head.alts) + [Outpar], 0, 1);
  }

  lemma PlacedPlus(t: seq<Tok>, i: nat, u: seq<Tok>, x: Tok)
    requires Placed(t, i, u) && i + |u| < |t| && t[i + |u|] == x
    ensures Placed(t, i, u + [x])
  {}

  /** The element of the repeated piece that q starts with has been read from ls on. */
  predicate MarkedAt(t: seq<Tok>, ls: nat, pos: nat, q: Pat, e: nat) {
    q.Cons? && q.head.Rep? && ls < pos < |t| && t[ls..pos] == Settled(q.head.e) && t[pos] == Pound &&
    (q.head.plus <==> pos + 1 < |t| && t[pos + 1] == Pound) && Reads(t, pos + |Hashes(q.head.plus)|, q.tail, e)
  }

  /** What the compiler meets when it is at the marks after a repeated element. */
  lemma HashStep(t: seq<Tok>, ls: nat, pos: nat, q: Pat, e: nat)
    requires MarkedAt(t, ls, pos, q, e) && Closed(q)
    ensures pos < |t| && t[ls..pos] == Settled(q.head.e) && Closed(q.tail) && e <= |t| &&
            (q.head.plus <==> pos + 1 < |t| && t[pos + 1] == Pound) &&
            Reads(t, if q.head.plus then pos + 2 else pos + 1, q.tail, e)
  {}

  /** A printed repeated element, and the marks after it. */
  lemma MarksAfter(t: seq<Tok>, i: nat, q: Pat, e: nat)
    requires Reads(t, i, q, e) && q.Cons? && q.head.Rep?
    ensures var n := i + |PrintElem(q.head.e)|;
            n < |t| && Placed(t, i, PrintElem(q.head.e)) && t[n] == Pound &&
            (q.head.plus <==> n + 1 < |t| && t[n + 1] == Pound) &&
            Reads(t, n + |Hashes(q.head.plus)|, q.tail, e) && n < e
  {
    hide PrintPiece, PrintPat, PrintElem;
    FirstToken(t, i, q, e);
    var n := RepParts(t, i, q.head);
    FirstToken(t, i + |PrintPiece(q.head)|, q.tail, e);
  }

  function RepGraph(str: seq<Tok>, rep: seq<Tok>, twice: bool, next: Graph): Graph {
    var loop := Ptr(Node(rep, OneHash, false, Null, Null, Ptr(next)));
    TextNode(str, if twice then Ptr(TextNode(rep, loop)) else loop)
  }

  function GroupGraph(str: seq<Tok>, hash: Hash, inside: Graph, next: Graph): Graph {
    TextNode(str, Ptr(Node([], hash, false, Ptr(inside), Null, if hash == NoHash then Ptr(SINK) else Ptr(next))))
  }

  lemma StarShape(q: Pat, acc: seq<Tok>, k: Link, last: bool)
    requires q.Cons? && q.head.Stars? && !(q.tail.Nil? && last)
    ensures Compile(q, acc, k, last) == RepGraph(acc, [Quest], false, Compile(q.tail, [], k, last))
  {}

  lemma RepShape(q: Pat, acc: seq<Tok>, k: Link, last: bool)
    requires q.Cons? && q.head.Rep?
    ensures Compile(q, acc, k, last) == RepGraph(acc, Settled(q.head.e), q.head.plus, Compile(q.tail, [], k, last))
  {}

  lemma GroupShape(q: Pat, acc: seq<Tok>, k: Link, last: bool)
    requires q.Cons? && (q.head.Group? || q.head.GroupRep?)
    ensures var next := Compile(q.tail, [], k, last);
            var after := if q.head.Group? then Ptr(next) else Null;
            Compile(q, acc, k, last) == GroupGraph(acc, HashOf(q.head), CompileAlts(q.head.alts, after, false), next)
  {}

  /** What the compiler meets when it is at printed alternatives. */
  lemma AltsStep(t: seq<Tok>, i: nat, a: Alts, e: nat) returns (e1: nat)
    requires ReadsAlts(t, i, a, e)
    ensures Reads(t, i, a.p, e1)
    ensures a.One? ==> e1 == e && (e1 < |t| ==> t[e1] != Bar)
    ensures a.Or? ==> e1 < |t| && t[e1] == Bar && ReadsAlts(t, e1 + 1, a.rest, e)
  {
    e1 := e;
    if a.Or? { e1 := OrParts(t, i, a); }
  }

  // ----- How far a sequence of pieces has been read -----

  /** Plain: q is still to come.  Marked: the element of the repeated piece that
      q starts with has been passed.  Final: a last star has been passed. */
  datatype Stage = Plain | Marked | Final

  /** Having read from cstr to pos, what remains leads to the graph `goal`. */
  ghost predicate Upto(t: seq<Tok>, cstr: nat, ls: int, pos: nat, q: Pat, e: nat, k: Link, goal: Graph, stage: Stage) {
    cstr <= pos <= |t| && Closed(q) &&
    match stage
    case Plain => Reads(t, pos, q, e) && goal == Compile(q, t[cstr..pos], k, e == |t|)
    case Marked => cstr <= ls && MarkedAt(t, ls, pos, q, e) && goal == Compile(q, t[cstr..ls], k, e == |t|)
    case Final => pos == e == |t| && goal == Node(t[cstr..pos], NoHash, true, Null, Null, k)
  }

  lemma UptoStart(t: seq<Tok>, i: nat, p: Pat, e: nat, k: Link)
    requires Reads(t, i, p, e) && Closed(p)
    ensures Upto(t, i, -1, i, p, e, k, Compile(p, [], k, e == |t|), Plain) && i <= e
  {
    assert t[i..i] == [];
  }

  /** The next token, and what may be called on it. */
  lemma UptoNext(t: seq<Tok>, cstr: nat, ls: int, pos: nat, q: Pat, e: nat, k: Link, goal: Graph, stage: Stage)
    requires Upto(t, cstr, ls, pos, q, e, k, goal, stage) && pos < |t|
    ensures Closed(q)
    ensures t[pos] == Pound ==>
              cstr <= ls && MarkedAt(t, ls, pos, q, e) && goal == Compile(q, t[cstr..ls], k, e == |t|)
    ensures t[pos] != Pound ==> stage == Plain && Reads(t, pos, q, e) && goal == Compile(q, t[cstr..pos], k, e == |t|)
  {
    if stage == Plain { FirstToken(t, pos, q, e); }
  }

  lemma UptoEnd(t: seq<Tok>, cstr: nat, ls: int, pos: nat, q: Pat, e: nat, k: Link, goal: Graph, stage: Stage)
    requires Upto(t, cstr, ls, pos, q, e, k, goal, stage)
    requires pos < |t| ==> t[pos] == Bar || t[pos] == Outpar
    ensures pos == e && goal == Node(t[cstr..pos], NoHash, pos == |t|, Null, Null, k)
  {
    if stage == Plain { FirstToken(t, pos, q, e); }
  }

  lemma NoTextNil(p: Pat)
    ensures |PrintPat(p)| == 0 ==> p == Nil
  {}

  /** The next element: its pattern, and how far that gets. */
  lemma UptoElem(t: seq<Tok>, cstr: nat, ls: int, pos: nat, q: Pat, e: nat, k: Link, goal: Graph, stage: Stage)
    returns (e1: Elem, q1: Pat, stage1: Stage)
    requires Upto(t, cstr, ls, pos, q, e, k, goal, stage) && pos < |t|
    requires t[pos] != Bar && t[pos] != Outpar && t[pos] != Inpar && t[pos] != Pound
    requires t[pos] == Star ==> pos + 1 == |t|
    ensures stage == Plain && ElemNext(t, pos, q, e, e1, q1, stage1)
    ensures t[pos] != Star ==> Placed(t, pos, PrintElem(e1))
  {
    hide Placed, PrintElem, PrintPat, Compile;
    UptoNext(t, cstr, ls, pos, q, e, k, goal, stage);
    FirstToken(t, pos, q, e);
    e1, q1, stage1 := AnyChar, q, Final;
    if t[pos] != Star {
      e1 := q.head.e;
      if q.head.Single? {
        q1, stage1 := q.tail, Plain;
      } else {
        stage1 := Marked;
        MarksAfter(t, pos, q, e);
      }
    }
  }

  /** The element e1 at pos: a single one, one that is repeated, or a last star. */
  ghost predicate ElemNext(t: seq<Tok>, pos: nat, q: Pat, e: nat, e1: Elem, q1: Pat, stage1: Stage) {
    pos < |t| && Reads(t, pos, q, e) && q.Cons? &&
    match stage1
    case Plain => t[pos] != Star && q.head == Single(e1) && q1 == q.tail
    case Marked => t[pos] != Star && q.head.Rep? && q.head.e == e1 && q1 == q
    case Final => t[pos] == Star && pos + 1 == |t| && q1 == q
  }

  /** After the element has been read, and made characters. */
  lemma UptoAfter(t: seq<Tok>, t': seq<Tok>, cstr: nat, ls: int, pos: nat, n: nat, q: Pat, e: nat, k: Link, goal: Graph,
                  stage: Stage, e1: Elem, q1: Pat, stage1: Stage)
    requires Upto(t, cstr, ls, pos, q, e, k, goal, stage) && stage == Plain && ElemNext(t, pos, q, e, e1, q1, stage1)
    requires SamePrefix(t, t', pos) && pos < n <= |t|
    requires if t[pos] == Star then t' == t && n == |t|
             else SameFrom(t, t', n) && n == pos + |PrintElem(e1)| && t'[pos..n] == Settled(e1)
    ensures Upto(t', cstr, pos, n, q1, e, k, goal, stage1) && n <= e && SameFrom(t, t', e)
  {
    hide Placed, Compile, Closed, Reads, PrintPat, Settled, PrintElem, MarkedAt;
    match stage1
    case Final => FinalText(t, cstr, pos, q, e, k);
    case Plain => AfterSingle(t, t', cstr, pos, n, q, e, k, goal, e1);
    case Marked => AfterMarked(t, t', cstr, pos, n, q, e, k, goal, e1);
  }

  lemma AfterSingle(t: seq<Tok>, t': seq<Tok>, cstr: nat, pos: nat, n: nat, q: Pat, e: nat, k: Link, goal: Graph,
                    e1: Elem)
    requires cstr <= pos < n <= |t| && Reads(t, pos, q, e) && q.Cons? && q.head == Single(e1) && Closed(q)
    requires SamePrefix(t, t', pos) && SameFrom(t, t', n) && n == pos + |PrintElem(e1)| && t'[pos..n] == Settled(e1)
    requires goal == Compile(q, t[cstr..pos], k, e == |t|)
    ensures n <= e && Reads(t', n, q.tail, e) && goal == Compile(q.tail, t'[cstr..n], k, e == |t|) && Closed(q.tail)
  {
    hide Placed, Compile, Settled, PrintElem, PrintPat;
    FirstToken(t, pos, q, e);
    ReadsSame(t, t', n, q.tail, e);
    SingleText(t[cstr..pos], q, e1, k, e == |t|);
    assert t'[cstr..n] == t[cstr..pos] + t'[pos..n];
  }

  lemma AfterMarked(t: seq<Tok>, t': seq<Tok>, cstr: nat, pos: nat, n: nat, q: Pat, e: nat, k: Link, goal: Graph,
                    e1: Elem)
    requires cstr <= pos < n <= |t| && Reads(t, pos, q, e) && q.Cons? && q.head.Rep? && q.head.e == e1
    requires SamePrefix(t, t', pos) && SameFrom(t, t', n) && n == pos + |PrintElem(e1)| && t'[pos..n] == Settled(e1)
    requires goal == Compile(q, t[cstr..pos], k, e == |t|)
    ensures n <= e && MarkedAt(t', pos, n, q, e) && goal == Compile(q, t'[cstr..pos], k, e == |t|)
  {
    hide Placed, Compile, Settled, PrintElem, PrintPat;
    MarksAfter(t, pos, q, e);
    ReadsSame(t, t', n + |Hashes(q.head.plus)|, q.tail, e);
    assert t'[cstr..pos] == t[cstr..pos];
  }

  lemma FinalText(t: seq<Tok>, cstr: nat, pos: nat, q: Pat, e: nat, k: Link)
    requires cstr <= pos && pos + 1 == |t| && t[pos] == Star && Reads(t, pos, q, e)
    ensures e == |t| && Compile(q, t[cstr..pos], k, true) == Node(t[cstr..pos + 1], NoHash, true, Null, Null, k)
  {
    FirstToken(t, pos, q, e);
    NoTextNil(q.tail);
    assert t[cstr..pos + 1] == t[cstr..pos] + [Star];
  }

  lemma SingleText(acc: seq<Tok>, q: Pat, e1: Elem, k: Link, last: bool)
    requires q.Cons? && q.head == Single(e1)
    ensures Compile(q, acc, k, last) == Compile(q.tail, acc + Settled(e1), k, last)
  {}

  // ----- The text read so far is well formed -----

  /** Up to the last element, and that element, unless a last star was read. */
  predicate Texts(t: seq<Tok>, cstr: nat, ls: int, pos: nat)
    requires cstr <= pos <= |t| && ls < pos && (ls >= 0 ==> cstr <= ls)
  {
    WfText(t[cstr..pos]) &&
    (pos < |t| ==> Simple(t[cstr..pos]) && (ls >= 0 ==> Simple(t[cstr..ls]) && Simple(t[ls..pos])))
  }

  lemma TextEmpty(t: seq<Tok>, i: nat)
    requires i <= |t|
    ensures Texts(t, i, -1, i)
  {}

  lemma TextsSimple(t: seq<Tok>, cstr: nat, ls: int, pos: nat)
    requires cstr <= pos < |t| && ls < pos && (ls >= 0 ==> cstr <= ls) && Texts(t, cstr, ls, pos)
    ensures Simple(t[cstr..pos]) && (ls >= 0 ==> Simple(t[cstr..ls]) && Simple(t[ls..pos]))
  {}

  lemma TextsEnd(t: seq<Tok>, cstr: nat, ls: int, pos: nat)
    requires cstr <= pos <= |t| && ls < pos && (ls >= 0 ==> cstr <= ls) && Texts(t, cstr, ls, pos)
    ensures WfText(t[cstr..pos])
  {}

  lemma TextsStep(before: seq<Tok>, t: seq<Tok>, cstr: nat, ls0: int, ls: nat, pos: nat)
    requires cstr <= ls < |before| && ls0 < ls && (ls0 >= 0 ==> cstr <= ls0) && Texts(before, cstr, ls0, ls)
    requires SamePrefix(before, t, ls) && ls < pos <= |t|
    requires if before[ls] == Star then t == before && pos == |t| == ls + 1 else Simple(t[ls..pos])
    ensures Texts(t, cstr, ls, pos)
  {
    assert t[cstr..ls] == before[cstr..ls];
    assert t[cstr..pos] == t[cstr..ls] + t[ls..pos];
    if before[ls] == Star { assert t[ls..pos] == [Star]; }
    SimpleAppend(t[cstr..ls], t[ls..pos]);
  }

  lemma ArenaAdd(nodes: set<CompNode>, c: CompNode)
    requires Arena(nodes)
    requires (c.left != null ==> c.left in nodes) && (c.right != null ==> c.right in nodes) &&
             (c.next != null ==> c.next in nodes)
    requires WfText(c.str) && (Starred(c.str) ==> c.hash == NoHash && c.left == null)
    requires (c.hash != NoHash ==> c.next != null) && (c.right != null ==> c.left != null)
    requires c.view == Node(c.str, c.hash, c.last, View(c.left), View(c.right), View(c.next))
    ensures Arena(nodes + {c})
  {
    assert WfLink(View(c.left)) && WfLink(View(c.right)) && WfLink(View(c.next));
    assert WfGraph(c.view);
  }

  lemma ClassAt(t: seq<Tok>, i: nat, body: seq<ClassTok>)
    requires Placed(t, i, PrintElem(Class(body)))
    ensures i + |body| + 1 < |t| && t[i] == Inbrack && t[i + |body| + 1] == Outbrack
    ensures forall k :: i < k <= i + |body| ==> t[k] == body[k - i - 1] && t[k] != Outbrack
  {
    var u := PrintElem(Class(body));
    assert t[i + 0] == u[0] && t[i + (|body| + 1)] == u[|body| + 1];
    forall k | i < k <= i + |body|
      ensures t[k] == body[k - i - 1] && t[k] != Outbrack
    {
      assert t[i + (k - i)] == u[k - i];
    }
  }

  /** The class with its tokens made characters. */
  lemma ClassSettled(t: seq<Tok>, t': seq<Tok>, i: nat, body: seq<ClassTok>)
    requires Placed(t, i, PrintElem(Class(body))) && |t'| == |t| && i + |body| + 1 < |t|
    requires t'[i] == t[i] && t'[i + |body| + 1] == t[i + |body| + 1]
    requires forall k :: i < k <= i + |body| ==> t'[k] == Ch(Untok(t[k]))
    ensures t'[i..i + |body| + 2] == Settled(Class(body))
  {
    ClassAt(t, i, body);
    var u := t'[i..i + |body| + 2];
    forall k | 0 <= k < |u| ensures u[k] == Settled(Class(body))[k] { assert u[k] == t'[i + k]; }
  }

  lemma SimpleOne(t: seq<Tok>, q: nat)
    requires q < |t| && t[q] != Inbrack
    ensures t[q] != Star ==> Simple(t[q..q + 1])
  {
    assert t[q..q + 1] == [t[q]] && [t[q]][1..] == [];
  }

  lemma SimpleClass(t: seq<Tok>, q: nat, e: nat)
    requires q < e < |t| && t[q] == Inbrack && t[e] == Outbrack
    requires forall k :: q < k < e ==> t[k] != Outbrack
    ensures Simple(t[q..e + 1])
  {
    var u := t[q..e + 1];
    assert u[e - q] == Outbrack;
    forall k | 1 <= k < e - q ensures u[k] != Outbrack { assert u[k] == t[q + k]; }
    assert Close(u, 1) == e - q;
    assert u[e - q + 1..] == [];
  }
}
