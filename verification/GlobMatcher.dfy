/** The backtracking matcher of Src/glob.c: domatch and doesmatch over compiled
    nodes that share their continuations. */
module GlobMatcher {
  import opened GlobPattern
  import opened GlobGraph
  import opened GlobLanguage

  /** struct comp; view is the value the node and everything below it stand for. */
  class CompNode {
    var str: seq<Tok>
    var hash: Hash
    var last: bool
    var left: CompNode?
    var right: CompNode?
    var next: CompNode?
    ghost var view: Graph

    constructor (str: seq<Tok>, hash: Hash, last: bool, left: CompNode?, right: CompNode?, next: CompNode?)
      ensures this.str == str && this.hash == hash && this.last == last
      ensures this.left == left && this.right == right && this.next == next
      ensures view == Node(str, hash, last, View(left), View(right), View(next))
    {
      this.str, this.hash, this.last, this.left, this.right, this.next := str, hash, last, left, right, next;
      view := Node(str, hash, last, View(left), View(right), View(next));
    }
  }

  ghost function View(c: CompNode?): Link
    reads c
  {
    if c == null then Null else Ptr(c.view)
  }

  /** A set of finished nodes, closed under the pointers. */
  ghost predicate Arena(nodes: set<CompNode>)
    reads nodes
  {
    forall c :: c in nodes ==>
      (c.left != null ==> c.left in nodes) && (c.right != null ==> c.right in nodes) &&
      (c.next != null ==> c.next in nodes) &&
      c.view == Node(c.str, c.hash, c.last, View(c.left), View(c.right), View(c.next)) &&
      WfGraph(c.view)
  }

  // ----- When the matcher terminates, and when it is exact -----

  /** No closure body matches the empty string anywhere in s. */
  ghost predicate Progress(g: Graph, s: string) {
    (g.hash != NoHash ==> forall i: nat :: i <= |s| ==> !Body(g, s, i, i)) &&
    (g.left.Ptr? ==> Progress(g.left.g, s)) &&
    (g.right.Ptr? ==> Progress(g.right.g, s)) &&
    (g.next.Ptr? ==> Progress(g.next.g, s))
  }

  /** The body of a repeated group ends in at most one place, and whatever a
      group that is not repeated ends with is accepted. */
  ghost predicate Exact(g: Graph, s: string) {
    (g.left.Ptr? ==>
       if g.hash == NoHash then (g.next.Null? && !g.last) || g.next == Ptr(SINK)
       else forall i: nat, k: nat, k': nat :: i <= |s| && Body(g, s, i, k) && Body(g, s, i, k') ==> k == k') &&
    (g.left.Ptr? ==> Exact(g.left.g, s)) &&
    (g.right.Ptr? ==> Exact(g.right.g, s)) &&
    (g.next.Ptr? ==> Exact(g.next.g, s))
  }

  /** What remains to be matched at a node: for a closure whose body has been
      matched at least once, only its loop. */
  ghost predicate Pending(g: Graph, done: bool, s: string, i: nat, j: nat) {
    if done then Loop(g, s, i, j) else Reach(g, s, i, j)
  }

  ghost predicate SomePending(g: Graph, done: bool, s: string, i: nat) {
    exists j: nat :: Pending(g, done, s, i, j)
  }

  // ----- Steps of the matcher -----

  /** The successor of the closure g is tried before another body. */
  predicate Tries(g: Graph, done: bool) {
    g.hash == OneHash || (done && g.hash == TwoHash)
  }

  /** Going on at (g', done', i') finds only what could be found at (g, done, i),
      and, for exact graphs, something if there was something. */
  ghost predicate Leads(g: Graph, done: bool, i: nat, g': Graph, done': bool, i': nat, s: string) {
    i <= i' <= |s| && (i < i' || g' == g || g' < g) &&
    Progress(g', s) && (done' ==> g'.hash != NoHash) &&
    (forall j: nat :: Pending(g', done', s, i', j) ==> Pending(g, done, s, i, j)) &&
    (Exact(g, s) ==> Exact(g', s) && (SomePending(g, done, s, i) ==> SomePending(g', done', s, i')))
  }

  lemma LeaveClosure(g: Graph, done: bool, s: string, i: nat, j: nat)
    requires i <= |s| && Tries(g, done) && g.next.Ptr? && Reach(g.next.g, s, i, j)
    ensures Pending(g, done, s, i, j)
  {
    assert Cont(g.next, g.last, s, i, j);
  }

  /** If the successor does not lead on, a closure needs another body. */
  lemma NeedBody(g: Graph, done: bool, s: string, i: nat) returns (k: nat, j: nat)
    requires i <= |s| && g.hash != NoHash && g.next.Ptr?
    requires Tries(g, done) ==> !Reaches(g.next.g, s, i)
    requires SomePending(g, done, s, i)
    ensures Between(i, k, |s|) && Body(g, s, i, k) && Loop(g, s, k, j)
  {
    j :| Pending(g, done, s, i, j);
    if Tries(g, done) {
      assert Loop(g, s, i, j);
      assert !Reach(g.next.g, s, i, j);
      assert !Cont(g.next, g.last, s, i, j);
      k :| Beyond(i, k, |s|) && Body(g, s, i, k) && Loop(g, s, k, j);
    } else {
      k :| Between(i, k, |s|) && Body(g, s, i, k) && Loop(g, s, k, j);
    }
  }

  lemma StarredNode(g: Graph)
    requires WfGraph(g)
    ensures Starred(g.str) ==> g.hash == NoHash && g.left.Null?
  {
    if Simple(g.str) { SimpleAppend(g.str, []); }
  }

  /** A final star ends the match. */
  lemma StarDone(g: Graph, s: string, i: nat, k: nat)
    requires g.hash == NoHash && Starred(g.str) && i <= |s| && Body(g, s, i, k)
    ensures Pending(g, false, s, i, k)
  {
    assert Between(i, k, |s|);
  }

  /** Without a body there is no way through. */
  lemma Stuck(g: Graph, done: bool, s: string, i: nat)
    requires i <= |s| && (g.hash != NoHash ==> g.next.Ptr?) && (done ==> g.hash != NoHash)
    requires Tries(g, done) ==> !Reaches(g.next.g, s, i)
    requires forall k: nat :: !Body(g, s, i, k)
    ensures !SomePending(g, done, s, i)
  {
    if g.hash == NoHash {
      forall j: nat ensures !Pending(g, done, s, i, j) { assert Pending(g, done, s, i, j) <==> Reach(g, s, i, j); }
    } else if SomePending(g, done, s, i) {
      var k, j := NeedBody(g, done, s, i);
    }
  }

  lemma BodyOnce(g: Graph, s: string, i: nat, k: nat, k': nat)
    requires i <= |s| && Exact(g, s) && g.hash != NoHash && Body(g, s, i, k) && Body(g, s, i, k')
    ensures k == k'
  {}

  /** A body consumes something, and leaves the closure with its loop to do. */
  lemma ClosureBody(g: Graph, done: bool, s: string, i: nat, k: nat)
    requires i <= |s| && g.hash != NoHash && g.next.Ptr? && Body(g, s, i, k) && Progress(g, s)
    ensures i < k <= |s| && forall j: nat :: Pending(g, true, s, k, j) ==> Pending(g, done, s, i, j)
  {
    assert i < k;
    assert Beyond(i, k, |s|) && Between(i, k, |s|);
    forall j: nat | Pending(g, true, s, k, j) ensures Pending(g, done, s, i, j) {
      assert Loop(g, s, k, j);
      assert Loop(g, s, i, j);
    }
  }

  lemma LoopEnd(g: Graph, s: string)
    requires g.next.Ptr?
    ensures forall j: nat :: Pending(g, true, s, |s|, j) <==> Pending(g.next.g, false, s, |s|, j)
  {
    forall j: nat ensures Pending(g, true, s, |s|, j) <==> Pending(g.next.g, false, s, |s|, j) {
      assert Cont(g.next, g.last, s, |s|, j) <==> Reach(g.next.g, s, |s|, j);
    }
  }

  /** After a body, an exact closure still has its loop to do. */
  lemma AfterClosureBody(g: Graph, done: bool, s: string, i: nat, k: nat)
    requires k <= |s| && g.hash != NoHash && g.next.Ptr? && Body(g, s, i, k) && Progress(g, s)
    requires Exact(g, s) && Tries(g, done) ==> !Reaches(g.next.g, s, i)
    ensures i < k && Leads(g, done, i, g, true, k, s)
  {
    ClosureBody(g, done, s, i, k);
    if Exact(g, s) && SomePending(g, done, s, i) {
      var k', j := NeedBody(g, done, s, i);
      BodyOnce(g, s, i, k, k');
      assert Pending(g, true, s, k, j);
    }
  }

  /** At the end of the subject a loop can only be left. */
  lemma LoopAtEnd(g: Graph, done: bool, s: string, i: nat)
    requires i < |s| && g.next.Ptr? && Leads(g, done, i, g, true, |s|, s)
    ensures Leads(g, done, i, g.next.g, false, |s|, s)
  {
    LoopEnd(g, s);
    if j: nat :| Pending(g, true, s, |s|, j) { assert Pending(g.next.g, false, s, |s|, j); }
  }

  /** After the body of a node that is not repeated comes its successor. */
  lemma AfterBody(g: Graph, s: string, i: nat, k: nat)
    requires Between(i, k, |s|) && g.hash == NoHash && !Starred(g.str) && Body(g, s, i, k) && Progress(g, s)
    ensures match g.next
            case Ptr(n) => Leads(g, false, i, n, false, k, s)
            case Null =>
              if !g.last || k == |s| then Pending(g, false, s, i, k)
              else Exact(g, s) ==> !SomePending(g, false, s, i)
  {
    forall j: nat | Cont(g.next, g.last, s, k, j) ensures Pending(g, false, s, i, j) {}
    if Exact(g, s) && SomePending(g, false, s, i) {
      var j: nat :| Pending(g, false, s, i, j);
      assert Reach(g, s, i, j);
      var k': nat :| Between(i, k', |s|) && Body(g, s, i, k') && Cont(g.next, g.last, s, k', j);
      if g.left.Ptr? && g.next == Ptr(SINK) { ReachSink(s, k, k); }
      var j' := if g.left.Null? then j else k;
      assert Cont(g.next, g.last, s, k, j');
      if g.next.Ptr? { assert Pending(g.next.g, false, s, k, j'); }
    }
    if g.next.Ptr? {
      forall j: nat | Pending(g.next.g, false, s, k, j) ensures Pending(g, false, s, i, j) {
        assert Cont(g.next, g.last, s, k, j);
      }
    } else if !g.last || k == |s| {
      assert Cont(g.next, g.last, s, k, k);
    }
  }

  // ----- The run of the matcher -----

  /** Where the matcher ends when it goes on at node g from i, or -1: the
      successor of a closure first, the first alternative that works, and no way
      back into a body once it has matched. */
  function Run(g: Graph, done: bool, s: string, i: nat): (r: int)
    requires i <= |s| && WfGraph(g) && Progress(g, s) && (done ==> g.hash != NoHash)
    ensures r == -1 || (i <= r <= |s| && Pending(g, done, s, i, r))
    decreases |s| - i, g, 2
  {
    var t := if Tries(g, done) then Run(g.next.g, false, s, i) else -1;
    if t >= 0 then
      LeaveClosure(g, done, s, i, t); t
    else
      var k := RunBody(g, s, i);
      if k < 0 then -1
      else if Starred(g.str) then
        StarredNode(g); StarDone(g, s, i, k); k
      else if g.hash == NoHash then
        AfterBody(g, s, i, k);
        if g.next.Ptr? then Run(g.next.g, false, s, k) else if !g.last || k == |s| then k else -1
      else
        ClosureBody(g, done, s, i, k);
        if k < |s| then Run(g, true, s, k)
        else LoopEnd(g, s); Run(g.next.g, false, s, k)
  }

  function RunBody(g: Graph, s: string, i: nat): (r: int)
    requires i <= |s| && WfGraph(g) && Progress(g, s)
    ensures r == -1 || (i <= r <= |s| && Body(g, s, i, r))
    decreases |s| - i, g, 1
  {
    var m := StrMatch(g.str, s, i);
    if m < 0 || g.left.Null? then m
    else
      var l := Run(g.left.g, false, s, m);
      if l >= 0 || g.right.Null? then l else Run(g.right.g, false, s, m)
  }

  /** One round of the matcher at a node. */
  lemma RunStep(g: Graph, done: bool, s: string, i: nat)
    requires i <= |s| && WfGraph(g) && Progress(g, s) && (done ==> g.hash != NoHash)
    ensures g.next.Ptr? ==> WfGraph(g.next.g) && Progress(g.next.g, s)
    ensures g.hash != NoHash ==> g.next.Ptr?
    ensures var k := RunBody(g, s, i);
            Run(g, done, s, i) ==
              if Tries(g, done) && Run(g.next.g, false, s, i) >= 0 then Run(g.next.g, false, s, i)
              else if k < 0 || Starred(g.str) then k
              else if g.hash != NoHash && k < |s| then Run(g, true, s, k)
              else if g.next.Ptr? then Run(g.next.g, false, s, k)
              else if !g.last || k == |s| then k else -1
    ensures g.hash != NoHash && RunBody(g, s, i) >= 0 ==> i < RunBody(g, s, i)
  {
    var k := RunBody(g, s, i);
    if g.hash != NoHash && k >= 0 {
      StarredNode(g);
      ClosureBody(g, done, s, i, k);
    }
  }

  /** What the arena says about one node. */
  lemma NodeFacts(c: CompNode, nodes: set<CompNode>)
    requires Arena(nodes) && c in nodes
    ensures WfGraph(c.view)
    ensures c.view.str == c.str && c.view.hash == c.hash && c.view.last == c.last
    ensures (c.left == null <==> c.view.left.Null?) &&
      (c.left != null ==> c.left in nodes && c.view.left == Ptr(c.left.view))
    ensures (c.right == null <==> c.view.right.Null?) &&
      (c.right != null ==> c.right in nodes && c.view.right == Ptr(c.right.view))
    ensures (c.next == null <==> c.view.next.Null?) &&
      (c.next != null ==> c.next in nodes && c.view.next == Ptr(c.next.view))
  {}

  /** If the graph is exact and there is a way through, the matcher finds one. */
  lemma {:induction false} RunFinds(g: Graph, done: bool, s: string, i: nat)
    requires i <= |s| && WfGraph(g) && Progress(g, s) && (done ==> g.hash != NoHash)
    requires Exact(g, s) && SomePending(g, done, s, i)
    ensures Run(g, done, s, i) >= 0
    decreases |s| - i, g, 2
  {
    if Tries(g, done) && Reaches(g.next.g, s, i) {
      var j: nat :| Reach(g.next.g, s, i, j);
      assert Pending(g.next.g, false, s, i, j);
      RunFinds(g.next.g, false, s, i);
    } else if Tries(g, done) && Run(g.next.g, false, s, i) >= 0 {
    } else {
      var k := RunBody(g, s, i);
      if k < 0 {
        NoRunBody(g, s, i);
        Stuck(g, done, s, i);
      } else if Starred(g.str) {
      } else if g.hash == NoHash {
        AfterBody(g, s, i, k);
        if g.next.Ptr? { RunFinds(g.next.g, false, s, k); }
      } else {
        AfterClosureBody(g, done, s, i, k);
        if k < |s| {
          RunFinds(g, true, s, k);
        } else {
          LoopAtEnd(g, done, s, i);
          RunFinds(g.next.g, false, s, k);
        }
      }
    }
  }

  lemma {:induction false} NoRunBody(g: Graph, s: string, i: nat)
    requires i <= |s| && WfGraph(g) && Progress(g, s) && Exact(g, s) && RunBody(g, s, i) < 0
    ensures forall k: nat :: !Body(g, s, i, k)
    decreases |s| - i, g, 1
  {
    var m := StrMatch(g.str, s, i);
    if m >= 0 && g.left.Ptr? {
      forall k: nat ensures !Body(g, s, i, k) {
        if Reach(g.left.g, s, m, k) {
          assert Pending(g.left.g, false, s, m, k);
          RunFinds(g.left.g, false, s, m);
        } else if g.right.Ptr? && Reach(g.right.g, s, m, k) {
          assert Pending(g.right.g, false, s, m, k);
          RunFinds(g.right.g, false, s, m);
        }
      }
    }
  }

  // ----- The text of a node -----

  /** One character of the text, outside a class. */
  lemma CharStep(t: seq<Tok>, q: nat, s: string, i: nat)
    requires q < |t| && WfText(t[q..]) && t[q] != Inbrack && t[q] != Star && i <= |s|
    ensures WfText(t[q + 1..])
    ensures Starred(t[q..]) <==> Starred(t[q + 1..])
    ensures StrMatch(t[q..], s, i) ==
            if i < |s| && (t[q] == Quest || t[q] == Ch(s[i])) then StrMatch(t[q + 1..], s, i + 1) else -1
  {
    assert t[q..][1..] == t[q + 1..];
    if Simple(t[q..]) { SimpleAppend(t[q..], []); SimpleAppend(t[q + 1..], []); }
  }

  /** One class of the text. */
  lemma ClassStep(t: seq<Tok>, q: nat, s: string, i: nat) returns (e: nat)
    requires q < |t| && WfText(t[q..]) && t[q] == Inbrack && i <= |s|
    ensures e == Close(t, q + 1) && q < e < |t|
    ensures WfText(t[e + 1..])
    ensures Starred(t[q..]) <==> Starred(t[e + 1..])
    ensures StrMatch(t[q..], s, i) ==
            if i < |s| && ClassAccepts(Text(t[q + 1..e]), s[i]) then StrMatch(t[e + 1..], s, i + 1) else -1
  {
    var u := t[q..];
    e := q + Close(u, 1);
    CloseDrop(t, q, q + 1);
    assert u[1..Close(u, 1)] == t[q + 1..e];
    assert u[Close(u, 1) + 1..] == t[e + 1..];
    if Simple(u) { SimpleAppend(u, []); SimpleAppend(t[e + 1..], []); }
  }

  lemma CloseDrop(t: seq<Tok>, q: nat, k: nat)
    requires q <= k <= |t|
    ensures Close(t, k) == q + Close(t[q..], k - q)
    decreases |t| - k
  {
    if k < |t| && t[k] != Outbrack { CloseDrop(t, q, k + 1); }
  }

  /** The search through a character class: the first position whose character
      or range takes in ch, or the closing bracket. */
  method FindHit(t: seq<Tok>, from: nat, ch: char) returns (q: nat)
    requires from <= |t| && Close(t, from) < |t|
    ensures from <= q <= Close(t, from)
    ensures q < Close(t, from) <==> Member(Text(t[from..Close(t, from)]), ch)
  {
    q := from;
    ghost var e := Close(t, from);
    ghost var b := Text(t[from..e]);
    while t[q] != Outbrack
      invariant from <= q <= e
      decreases e - q
      invariant forall r :: 0 <= r < q - from ==> !Hits(b, r, ch)
    {
      assert b[q - from] == Untok(t[q]);
      if t[q] == Ch('-') && q > from && t[q + 1] != Outbrack {
        if Untok(t[q - 1]) <= ch <= Untok(t[q + 1]) {
          assert Hits(b, q - from, ch);
          return;
        }
      } else if ch == Untok(t[q]) {
        assert Hits(b, q - from, ch);
        return;
      }
      q := q + 1;
    }
  }

  datatype Verdict = Yes | No | GoOn

  class Matcher {
    const s: string
    /** The subject cursor, shared by all recursive calls. */
    var pptr: nat

    constructor (str: string)
      ensures s == str && pptr == 0
    {
      s := str;
      pptr := 0;
    }

    /** Matches the text of one node; everything is true if a final star took
        the rest of the subject. */
    method MatchText(t: seq<Tok>) returns (r: bool, everything: bool)
      requires pptr <= |s| && WfText(t)
      modifies this
      ensures pptr <= |s|
      ensures r <==> StrMatch(t, s, old(pptr)) >= 0
      ensures r ==> pptr == StrMatch(t, s, old(pptr))
      ensures everything <==> r && Starred(t)
    {
      var pat := 0;
      ghost var goal := StrMatch(t, s, pptr);
      assert t[0..] == t;
      while pat < |t|
        invariant pat <= |t| && pptr <= |s|
        invariant WfText(t[pat..]) && (Starred(t) <==> Starred(t[pat..]))
        invariant goal == StrMatch(t[pat..], s, pptr)
        decreases |t| - pat
      {
        if t[pat] == Star {
          pptr := |s|;
          return true, true;
        }
        r, pat := MatchChar(t, pat);
        if !r { return false, false; }
      }
      assert t[pat..] == [];
      return true, false;
    }

    /** Matches the pattern character at pat; nxt is where the next one starts. */
    method MatchChar(t: seq<Tok>, pat: nat) returns (ok: bool, nxt: nat)
      requires pat < |t| && t[pat] != Star && WfText(t[pat..]) && pptr <= |s|
      modifies this
      ensures pat < nxt <= |t|
      ensures ok ==> pptr == old(pptr) + 1 <= |s|
      ensures !ok ==> pptr == old(pptr)
      ensures StrMatch(t[pat..], s, old(pptr)) == if ok then StrMatch(t[nxt..], s, pptr) else -1
      ensures ok ==> WfText(t[nxt..]) && (Starred(t[pat..]) <==> Starred(t[nxt..]))
    {
      hide StrMatch, Simple, Starred, WfText, Text, ClassAccepts, Close;
      if t[pat] == Inbrack {
        ghost var close := ClassStep(t, pat, s, pptr);
        if pptr == |s| { return false, |t|; }
        ok, nxt := MatchClass(t, pat);
        if !ok { return false, |t|; }
        nxt := nxt + 1;
      } else {
        CharStep(t, pat, s, pptr);
        nxt := pat + 1;
        ok := pptr < |s| && (t[pat] == Quest || t[pat] == Ch(s[pptr]));
        if !ok { return; }
      }
      pptr := pptr + 1;
    }

    /** Matches the class opening at pat against the current character; on
        success e is its closing bracket. */
    method MatchClass(t: seq<Tok>, pat: nat) returns (ok: bool, e: nat)
      requires pat < |t| && t[pat] == Inbrack && Close(t, pat + 1) < |t| && pptr < |s|
      ensures ok <==> ClassAccepts(Text(t[pat + 1..Close(t, pat + 1)]), s[pptr])
      ensures ok ==> e == Close(t, pat + 1)
    {
      hide Member, Text, Negated;
      ClassText(t, pat + 1);
      if t[pat + 1] == Ch('^') || t[pat + 1] == Ch('!') {
        e := FindHit(t, pat + 2, s[pptr]);
        ok := t[e] == Outbrack;
      } else {
        e := FindHit(t, pat + 1, s[pptr]);
        ok := t[e] != Outbrack;
        while t[e] != Outbrack
          invariant pat + 1 <= e <= Close(t, pat + 1)
          decreases Close(t, pat + 1) - e
        { e := e + 1; }
      }
    }

    /** The text of c and then its alternatives. */
    method MatchBody(c: CompNode, ghost nodes: set<CompNode>) returns (r: bool, everything: bool)
      requires Arena(nodes) && c in nodes && Progress(c.view, s) && pptr <= |s|
      modifies this
      ensures pptr <= |s|
      ensures everything <==> r && Starred(c.view.str)
      ensures RunBody(c.view, s, old(pptr)) == if r then pptr else -1
      decreases |s| - pptr, c.view, 1
    {
      StarredNode(c.view);
      r, everything := MatchText(c.str);
      if r && !everything && (c.left != null || c.right != null) {
        var saves := pptr;
        r := DoesMatch(c.left, nodes);
        if !r && c.right != null {
          pptr := saves;
          r := DoesMatch(c.right, nodes);
        }
      }
    }

    /** One round of doesmatch at node c: leaving a closure by its successor if
        that works out, else one body; then the place to go on from. */
    method Round(c: CompNode, done: bool, ghost nodes: set<CompNode>)
      returns (verdict: Verdict, c': CompNode, done': bool)
      requires Arena(nodes) && c in nodes && WfGraph(c.view) && Progress(c.view, s) && pptr <= |s|
      requires done ==> c.view.hash != NoHash
      modifies this
      ensures pptr <= |s| && c' in nodes && WfGraph(c'.view) && Progress(c'.view, s) &&
        (done' ==> c'.view.hash != NoHash)
      ensures verdict == GoOn ==> old(pptr) < pptr || (old(pptr) == pptr && c'.view < c.view)
      ensures Run(c.view, done, s, old(pptr)) ==
              match verdict case Yes => pptr case No => -1 case GoOn => Run(c'.view, done', s, pptr)
      decreases |s| - pptr, c.view, 2
    {
      hide Run, RunBody, Arena, WfGraph, Progress, Starred;
      NodeFacts(c, nodes);
      RunStep(c.view, done, s, pptr);
      verdict, c', done' := Yes, c, done;
      var saves := pptr;
      if c.hash == OneHash || (done && c.hash == TwoHash) {
        var r := DoesMatch(c.next, nodes);
        if r { return; }
        pptr := saves;
      }
      var r, everything := MatchBody(c, nodes);
      if !r {
        verdict := No;
      } else if everything {
      } else if pptr < |s| && c.hash != NoHash {
        verdict, done' := GoOn, true;
      } else if c.next == null {
        verdict := if !c.last || pptr == |s| then Yes else No;
      } else {
        verdict, c', done' := GoOn, c.next, false;
      }
    }

    /** doesmatch: tries to get from the cursor through the graph at c0, leaving
        the cursor where it got to. */
    method DoesMatch(c0: CompNode, ghost nodes: set<CompNode>) returns (r: bool)
      requires Arena(nodes) && c0 in nodes && Progress(c0.view, s) && pptr <= |s|
      modifies this
      ensures pptr <= |s|
      ensures WfGraph(c0.view) && Run(c0.view, false, s, old(pptr)) == if r then pptr else -1
      decreases |s| - pptr, c0.view, 3
    {
      hide Run, Arena, WfGraph, Progress;
      NodeFacts(c0, nodes);
      var verdict, c, done := Round(c0, false, nodes);
      while verdict == GoOn
        invariant c in nodes && Arena(nodes) && pptr <= |s| && WfGraph(c.view) && Progress(c.view, s)
        invariant old(pptr) < pptr || c.view == c0.view || c.view < c0.view || verdict != GoOn
        invariant done ==> c.view.hash != NoHash
        invariant Run(c0.view, false, s, old(pptr)) ==
                  match verdict case Yes => pptr case No => -1 case GoOn => Run(c.view, done, s, pptr)
        decreases verdict == GoOn, |s| - pptr, c.view
      {
        verdict, c, done := Round(c, done, nodes);
      }
      r := verdict == Yes;
    }
  }

  /** The text of a class, with and without a leading negation sign. */
  lemma ClassText(t: seq<Tok>, k: nat)
    requires k < |t| && Close(t, k) < |t|
    ensures Negated(Text(t[k..Close(t, k)])) <==> t[k] == Ch('^') || t[k] == Ch('!')
    ensures t[k] != Outbrack ==>
      Close(t, k + 1) == Close(t, k) && Text(t[k..Close(t, k)])[1..] == Text(t[k + 1..Close(t, k)])
  {
    var b := Text(t[k..Close(t, k)]);
    if t[k] != Outbrack { assert b[0] == Untok(t[k]); }
  }
}
