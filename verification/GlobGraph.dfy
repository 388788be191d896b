/** The compiled form of a pattern (struct comp in Src/glob.c) as a value, what
    it means to get from one subject position to another through it, and the
    graph each pattern is meant to compile to. */
module GlobGraph {
  import opened GlobPattern

  /** C_ONEHASH and C_TWOHASH of the stat field. */
  datatype Hash = NoHash | OneHash | TwoHash

  datatype Graph = Node(str: seq<Tok>, hash: Hash, last: bool, left: Link, right: Link, next: Link)

  /** A possibly null pointer to a graph. */
  datatype Link = Null | Ptr(g: Graph)

  const SINK := Node([], NoHash, false, Null, Null, Null)

  // ----- Matching the text of one node -----

  /** The first closing bracket at or after k, or the end. */
  function Close(t: seq<Tok>, k: nat): (e: nat)
    requires k <= |t|
    ensures k <= e <= |t|
    ensures forall q :: k <= q < e ==> t[q] != Outbrack
    ensures e < |t| ==> t[e] == Outbrack
    decreases |t| - k
  {
    if k == |t| || t[k] == Outbrack then k else Close(t, k + 1)
  }

  /** A run of one-character patterns, every class closed. */
  predicate Simple(t: seq<Tok>)
    decreases |t|
  {
    t == [] ||
    (if t[0] == Inbrack then Close(t, 1) < |t| && Simple(t[Close(t, 1) + 1..])
     else t[0] != Star && Simple(t[1..]))
  }

  /** One-character patterns and then a star that was not made a closure. */
  predicate Starred(t: seq<Tok>)
    decreases |t|
  {
    t != [] &&
    if t[0] == Inbrack then Close(t, 1) < |t| && Starred(t[Close(t, 1) + 1..])
    else if t[0] == Star then |t| == 1
    else Starred(t[1..])
  }

  predicate WfText(t: seq<Tok>) {
    Simple(t) || Starred(t)
  }

  /** Where the characters of t, read from i, end in s; -1 if they do not fit. */
  function StrMatch(t: seq<Tok>, s: string, i: nat): (r: int)
    requires i <= |s|
    ensures r == -1 || i <= r <= |s|
    decreases |t|
  {
    if t == [] then i
    else if t[0] == Star then |s|
    else if i == |s| then -1
    else if t[0] == Quest then StrMatch(t[1..], s, i + 1)
    else if t[0] == Inbrack then
      var e := Close(t, 1);
      if e < |t| && ClassAccepts(Text(t[1..e]), s[i]) then StrMatch(t[e + 1..], s, i + 1) else -1
    else if t[0] == Ch(s[i]) then StrMatch(t[1..], s, i + 1)
    else -1
  }

  // ----- Getting through a graph -----

  /** What the compiler always produces: a closure has something after it, a
      second alternative comes with a first one, and the text is well formed. */
  predicate WfGraph(g: Graph) {
    (Simple(g.str) || (Starred(g.str) && g.hash == NoHash && g.left.Null?)) &&
    (g.hash != NoHash ==> g.next.Ptr?) &&
    (g.right.Ptr? ==> g.left.Ptr?) &&
    (g.left.Ptr? ==> WfGraph(g.left.g)) && (g.right.Ptr? ==> WfGraph(g.right.g)) && (g.next.Ptr? ==> WfGraph(g.next.g))
  }

  predicate WfLink(l: Link) {
    l.Ptr? ==> WfGraph(l.g)
  }

  /** From i, the node's own text and then one of its alternatives lead to k. */
  ghost predicate Body(g: Graph, s: string, i: nat, k: nat)
    decreases |s| - i, g, 0
  {
    i <= k <= |s| &&
    var m := StrMatch(g.str, s, i);
    m >= 0 &&
    if g.left.Null? then k == m
    else Reach(g.left.g, s, m, k) || (g.right.Ptr? && Reach(g.right.g, s, m, k))
  }

  /** What is left to do after a node: its successor, or the end of the graph,
      which C_LAST allows only at the end of the subject. */
  ghost predicate Cont(next: Link, last: bool, s: string, k: nat, j: nat)
    decreases |s| - k, next, 0
  {
    k <= j <= |s| &&
    match next
    case Null => j == k && (last ==> k == |s|)
    case Ptr(g) => Reach(g, s, k, j)
  }

  /** Zero or more bodies of the closure g, then its successor. */
  ghost predicate Loop(g: Graph, s: string, i: nat, j: nat)
    decreases |s| - i, g, 1
  {
    i <= j <= |s| &&
    (Cont(g.next, g.last, s, i, j) || exists k: nat :: Beyond(i, k, |s|) && Body(g, s, i, k) && Loop(g, s, k, j))
  }

  /** g leads from position i of s to position j. */
  ghost predicate Reach(g: Graph, s: string, i: nat, j: nat)
    decreases |s| - i, g, 2
  {
    i <= j <= |s| &&
    match g.hash
    case NoHash =>
      exists k: nat :: Between(i, k, |s|) && Body(g, s, i, k) &&
        (if Starred(g.str) then j == k else Cont(g.next, g.last, s, k, j))
    case OneHash => Loop(g, s, i, j)
    case TwoHash => exists k: nat :: Between(i, k, |s|) && Body(g, s, i, k) && Loop(g, s, k, j)
  }

  ghost predicate Reaches(g: Graph, s: string, i: nat) {
    exists j: nat :: Reach(g, s, i, j)
  }

  // ----- The intended graph of a pattern -----

  function Chars(s: string): (t: seq<Tok>)
    ensures |t| == |s|
    ensures forall k :: 0 <= k < |t| ==> t[k] == Ch(s[k])
  {
    seq(|s|, k requires 0 <= k < |s| => Ch(s[k]))
  }

  /** An element as the compiler leaves it: tokens that are nothing special where they
      stand are characters. */
  function Settled(e: Elem): (t: seq<Tok>)
    ensures |t| == |PrintElem(e)|
  {
    match e
    case Lit(c) => [Ch(c)]
    case AnyChar => [Quest]
    case Class(body) => [Inbrack] + Chars(Text(body)) + [Outbrack]
    case Stray => [Ch(']')]
  }

  function TextNode(t: seq<Tok>, next: Link): Graph {
    Node(t, NoHash, false, Null, Null, next)
  }

  /** The graph for p, entered after the pending text acc, continuing at k;
      last says that the pattern text ends here. */
  function Compile(p: Pat, acc: seq<Tok>, k: Link, last: bool): Graph
    decreases p
  {
    match p
    case Nil => Node(acc, NoHash, last, Null, Null, k)
    case Cons(Single(e), t) => Compile(t, acc + Settled(e), k, last)
    case Cons(Stars, t) =>
      if t.Nil? && last then Node(acc + [Star], NoHash, true, Null, Null, k)
      else TextNode(acc, Ptr(Node([Quest], OneHash, false, Null, Null, Ptr(Compile(t, [], k, last)))))
    case Cons(Rep(e, plus), t) =>
      var loop := Ptr(Node(Settled(e), OneHash, false, Null, Null, Ptr(Compile(t, [], k, last))));
      TextNode(acc, if plus then Ptr(TextNode(Settled(e), loop)) else loop)
    case Cons(Group(a), t) =>
      var after := Ptr(Compile(t, [], k, last));
      TextNode(acc, Ptr(Node([], NoHash, false, Ptr(CompileAlts(a, after, false)), Null, Ptr(SINK))))
    case Cons(GroupRep(a, plus), t) =>
      var after := Ptr(Compile(t, [], k, last));
      TextNode(acc, Ptr(Node([], if plus then TwoHash else OneHash, false,
                             Ptr(CompileAlts(a, Null, false)), Null, after)))
  }

  function CompileAlts(a: Alts, k: Link, last: bool): Graph
    decreases a
  {
    match a
    case One(p) => Compile(p, [], k, last)
    case Or(p, rest) =>
      Node([], NoHash, false, Ptr(Compile(p, [], k, false)), Ptr(CompileAlts(rest, k, last)), Null)
  }

  // ----- Texts -----

  lemma CloseAppend(a: seq<Tok>, b: seq<Tok>, k: nat)
    requires k <= |a| && Close(a, k) < |a|
    ensures Close(a + b, k) == Close(a, k)
    decreases |a| - k
  {
    if k < |a| && a[k] != Outbrack { CloseAppend(a, b, k + 1); }
  }

  lemma {:induction false} SimpleAppend(a: seq<Tok>, b: seq<Tok>)
    requires Simple(a)
    ensures Simple(b) ==> Simple(a + b)
    ensures Starred(b) ==> Starred(a + b)
    ensures !Starred(a)
    ensures forall s: string, i: nat :: i <= |s| ==>
      StrMatch(a + b, s, i) == if StrMatch(a, s, i) < 0 then -1 else StrMatch(b, s, StrMatch(a, s, i))
    decreases |a|
  {
    if a == [] {
      assert a + b == b;
    } else if a[0] == Inbrack {
      var e := Close(a, 1);
      CloseAppend(a, b, 1);
      assert (a + b)[1..e] == a[1..e];
      assert (a + b)[e + 1..] == a[e + 1..] + b;
      SimpleAppend(a[e + 1..], b);
    } else {
      assert (a + b)[1..] == a[1..] + b;
      SimpleAppend(a[1..], b);
    }
  }

  lemma ClassClose(body: string)
    ensures Close([Inbrack] + Chars(body) + [Outbrack], 1) == |body| + 1
  {
    var t := [Inbrack] + Chars(body) + [Outbrack];
    assert forall q :: 1 <= q <= |body| ==> t[q] == Ch(body[q - 1]);
    assert t[|body| + 1] == Outbrack;
    assert Close(t, 1) <= |body| + 1;
  }

  lemma ElemText(e: Elem)
    ensures Simple(Settled(e))
    ensures forall s: string, i: nat :: i <= |s| ==>
      StrMatch(Settled(e), s, i) == if i < |s| && ElemAccepts(e, s[i]) then i + 1 else -1
  {
    var t := Settled(e);
    match e
    case Lit(c) => assert t[1..] == [];
    case AnyChar => assert t[1..] == [];
    case Class(body) =>
      ClassClose(Text(body));
      assert t[|body| + 2..] == [];
      assert Text(t[1..|body| + 1]) == Text(body);
    case Stray => assert t[1..] == [];
  }

  lemma ElemAt(e: Elem, s: string, i: nat)
    requires i <= |s|
    ensures Simple(Settled(e))
    ensures StrMatch(Settled(e), s, i) == if i < |s| && ElemAccepts(e, s[i]) then i + 1 else -1
  {
    hide Settled, StrMatch, ElemAccepts, Simple;
    ElemText(e);
  }

  /** An element after other text. */
  lemma ElemAfter(a: seq<Tok>, e: Elem, s: string, i: nat)
    requires Simple(a) && i <= |s|
    ensures Simple(a + Settled(e))
    ensures var m := StrMatch(a, s, i);
            StrMatch(a + Settled(e), s, i) == if 0 <= m < |s| && ElemAccepts(e, s[m]) then m + 1 else -1
  {
    hide Settled, StrMatch, ElemAccepts;
    ElemText(e);
    SimpleAppend(a, Settled(e));
  }
}
