/** matchpat of Src/glob.c: compiling a parenthesised pattern and matching a
    whole string with it. */
module GlobMatchpat {
  import opened GlobPattern
  import opened GlobGraph
  import opened GlobLanguage
  import opened GlobMatcher
  import opened GlobCompiler

  // ----- Conditions on the bodies of repeated groups -----

  /** NonEmpty: a body never matches the empty string; OneEnd: from a given
      place it matches in at most one way (no match is a prefix of another). */
  datatype Claim = NonEmpty | OneEnd

  ghost predicate BodyOk(a: Alts, s: string, c: Claim) {
    match c
    case NonEmpty => forall i: nat :: i <= |s| ==> !MatchesAlts(a, s, i, i)
    case OneEnd => forall i: nat, k: nat, k': nat :: MatchesAlts(a, s, i, k) && MatchesAlts(a, s, i, k') ==> k == k'
  }

  /** Every repeated group in p has a body for which the claim holds on s. */
  ghost predicate Bodies(p: Pat, s: string, c: Claim) {
    match p
    case Nil => true
    case Cons(h, t) =>
      (h.Group? ==> BodiesAlts(h.alts, s, c)) &&
      (h.GroupRep? ==> BodyOk(h.alts, s, c) && BodiesAlts(h.alts, s, c)) &&
      Bodies(t, s, c)
  }

  ghost predicate BodiesAlts(a: Alts, s: string, c: Claim) {
    Bodies(a.p, s, c) && (a.Or? ==> BodiesAlts(a.rest, s, c))
  }

  /** No group is repeated. */
  predicate Plain(p: Pat) {
    p.Cons? ==> !p.head.GroupRep? && (p.head.Group? ==> PlainAlts(p.head.alts)) && Plain(p.tail)
  }

  predicate PlainAlts(a: Alts) {
    Plain(a.p) && (a.Or? ==> PlainAlts(a.rest))
  }

  lemma {:induction false} PlainBodies(p: Pat, s: string, c: Claim)
    requires Plain(p)
    ensures Bodies(p, s, c)
    decreases p
  {
    if p.Cons? {
      if p.head.Group? { PlainBodiesAlts(p.head.alts, s, c); }
      PlainBodies(p.tail, s, c);
    }
  }

  /** Without repeated groups there is nothing to ask of their bodies. */
  lemma {:induction false} PlainBodiesAlts(a: Alts, s: string, c: Claim)
    requires PlainAlts(a)
    ensures BodiesAlts(a, s, c)
    decreases a
  {
    PlainBodies(a.p, s, c);
    if a.Or? { PlainBodiesAlts(a.rest, s, c); }
  }

  // ----- What they mean for the compiled graph -----

  ghost predicate Holds(g: Graph, s: string, c: Claim) {
    match c
    case NonEmpty => Progress(g, s)
    case OneEnd => Exact(g, s)
  }

  ghost predicate HoldsLink(l: Link, s: string, c: Claim) {
    l.Ptr? ==> Holds(l.g, s, c)
  }

  lemma TextHolds(t: seq<Tok>, last: bool, next: Link, s: string, c: Claim)
    requires HoldsLink(next, s, c)
    ensures Holds(Node(t, NoHash, last, Null, Null, next), s, c)
  {}

  lemma LoopHolds(e: Elem, next: Graph, s: string, c: Claim)
    requires Holds(next, s, c)
    ensures Holds(Node(Settled(e), OneHash, false, Null, Null, Ptr(next)), s, c)
  {
    ElemText(e);
  }

  lemma SinkHolds(s: string, c: Claim)
    ensures Holds(SINK, s, c)
  {}

  lemma GroupHolds(inside: Graph, s: string, c: Claim)
    requires Holds(inside, s, c)
    ensures Holds(Node([], NoHash, false, Ptr(inside), Null, Ptr(SINK)), s, c)
  {
    SinkHolds(s, c);
  }

  lemma ClosureHolds(a: Alts, hash: Hash, inside: Graph, next: Graph, s: string, c: Claim)
    requires hash != NoHash && Holds(inside, s, c) && Holds(next, s, c) && BodyOk(a, s, c)
    requires inside == CompileAlts(a, Null, false)
    ensures Holds(Node([], hash, false, Ptr(inside), Null, Ptr(next)), s, c)
  {
    var g := Node([], hash, false, Ptr(inside), Null, Ptr(next));
    BodyLanguage(a, s);
    forall i: nat, k: nat | i <= |s| && Body(g, s, i, k) ensures MatchesAlts(a, s, i, k) {
      assert Reach(inside, s, i, k);
    }
  }

  lemma OrHolds(left: Graph, right: Graph, s: string, c: Claim)
    requires Holds(left, s, c) && Holds(right, s, c)
    ensures Holds(Node([], NoHash, false, Ptr(left), Ptr(right), Null), s, c)
  {}

  lemma {:induction false} CompileHolds(p: Pat, acc: seq<Tok>, k: Link, last: bool, s: string, c: Claim)
    requires Bodies(p, s, c) && HoldsLink(k, s, c)
    ensures Holds(Compile(p, acc, k, last), s, c)
    decreases p
  {
    hide Holds, BodyOk;
    match p
    case Nil => TextHolds(acc, last, k, s, c);
    case Cons(h, t) =>
      if h.Single? {
        CompileHolds(t, acc + Settled(h.e), k, last, s, c);
      } else {
        CompileHolds(t, [], k, last, s, c);
        var next := Compile(t, [], k, last);
        match h {
          case Stars =>
            if t.Nil? && last {
              TextHolds(acc + [Star], true, k, s, c);
            } else {
              LoopHolds(AnyChar, next, s, c);
              TextHolds(acc, false, Compile(p, acc, k, last).next, s, c);
            }
          case Rep(e, plus) =>
            LoopHolds(e, next, s, c);
            if plus { TextHolds(Settled(e), false, Compile(p, acc, k, last).next.g.next, s, c); }
            TextHolds(acc, false, Compile(p, acc, k, last).next, s, c);
          case Group(a) =>
            CompileAltsHolds(a, Ptr(next), false, s, c);
            GroupHolds(CompileAlts(a, Ptr(next), false), s, c);
            TextHolds(acc, false, Compile(p, acc, k, last).next, s, c);
          case GroupRep(a, plus) =>
            CompileAltsHolds(a, Null, false, s, c);
            ClosureHolds(a, if plus then TwoHash else OneHash, CompileAlts(a, Null, false), next, s, c);
            TextHolds(acc, false, Compile(p, acc, k, last).next, s, c);
        }
      }
  }

  lemma {:induction false} CompileAltsHolds(a: Alts, k: Link, last: bool, s: string, c: Claim)
    requires BodiesAlts(a, s, c) && HoldsLink(k, s, c)
    ensures Holds(CompileAlts(a, k, last), s, c)
    decreases a
  {
    match a
    case One(p) => CompileHolds(p, [], k, last, s, c);
    case Or(p, rest) =>
      CompileHolds(p, [], k, false, s, c);
      CompileAltsHolds(rest, k, last, s, c);
      OrHolds(Compile(p, [], k, false), CompileAlts(rest, k, last), s, c);
  }

  // ----- parsereg and domatch -----

  /** parsereg: compiles a whole pattern; null if it is malformed. */
  method ParseReg(str: seq<Tok>, ghost on: bool, ghost a: Alts) returns (c: CompNode?, ghost nodes: set<CompNode>)
    requires on ==> str == PrintAlts(a) && ClosedAlts(a)
    ensures Arena(nodes) && (c != null ==> c in nodes)
    ensures on ==> c != null && c.view == CompileAlts(a, Null, true)
    ensures Unclosed(str, 0) ==> c == null
  {
    var compiler := new Compiler(str);
    c := compiler.ParseCompSw(on, a, |str|);
    nodes := compiler.nodes;
  }

  /** domatch: matches str against the compiled pattern c. */
  method DoMatch(str: string, c: CompNode, ghost nodes: set<CompNode>) returns (r: bool)
    requires Arena(nodes) && c in nodes && Progress(c.view, str)
    ensures r <==> Run(c.view, false, str, 0) >= 0
  {
    var matcher := new Matcher(str);
    r := matcher.DoesMatch(c, nodes);
  }

  // Every alternative but the last hands over to nothing: only the last one is tied to the
  // end of the subject.

  ghost predicate MatchesStart(p: Pat, s: string) {
    exists m: nat :: Between(0, m, |s|) && MatchesPat(p, s, 0, m)
  }

  /** An alternative other than the last matches a beginning of s. */
  ghost predicate MatchesLoosely(a: Alts, s: string) {
    a.Or? && (MatchesStart(a.p, s) || MatchesLoosely(a.rest, s))
  }

  /** The last alternative matches all of s. */
  ghost predicate LastMatches(a: Alts, s: string) {
    if a.Or? then LastMatches(a.rest, s) else MatchesPat(a.p, s, 0, |s|)
  }

  ghost predicate Accepts(a: Alts, s: string) {
    MatchesLoosely(a, s) || LastMatches(a, s)
  }

  lemma OneReaches(p: Pat, last: bool, s: string)
    ensures Reaches(Compile(p, [], Null, last), s, 0) <==> if last then MatchesPat(p, s, 0, |s|) else MatchesStart(p, s)
  {
    hide Reach, MatchesPat, Compile;
    var g := Compile(p, [], Null, last);
    forall j: nat ensures Reach(g, s, 0, j) <==> Via(p, Null, last, s, 0, j) { CompilePat(p, [], Null, last, s, 0, j); }
    if j: nat :| Reach(g, s, 0, j) {
      var x: nat :| 0 <= x <= |s| && MatchesPat(p, s, 0, x) && Cont(Null, last, s, x, j);
      assert Between(0, x, |s|);
    }
    if last && MatchesPat(p, s, 0, |s|) {
      assert Cont(Null, last, s, |s|, |s|);
      assert Via(p, Null, last, s, 0, |s|);
    }
    if !last && MatchesStart(p, s) {
      var m: nat :| Between(0, m, |s|) && MatchesPat(p, s, 0, m);
      assert Cont(Null, last, s, m, m);
      assert Via(p, Null, last, s, 0, m);
    }
  }

  /** What a pattern that is compiled as it stands accepts: some alternative but the last
      matches a beginning of the subject, or the last one matches all of it. */
  lemma {:induction false} BareReaches(a: Alts, s: string)
    ensures Reaches(CompileAlts(a, Null, true), s, 0) <==> Accepts(a, s)
    decreases a
  {
    match a
    case One(p) => OneReaches(p, true, s);
    case Or(p, rest) =>
      OneReaches(p, false, s);
      BareReaches(rest, s);
      var left, right := Compile(p, [], Null, false), CompileAlts(rest, Null, true);
      var g := CompileAlts(a, Null, true);
      hide Reach, MatchesPat, Compile, CompileAlts;
      forall j: nat ensures Reach(g, s, 0, j) <==> Reach(left, s, 0, j) || Reach(right, s, 0, j) {
        ReachOr(left, right, s, 0, j);
      }
  }

  lemma {:induction false} AcceptsWhole(a: Alts, s: string)
    ensures MatchesAlts(a, s, 0, |s|) ==> Accepts(a, s)
    ensures LastMatches(a, s) ==> MatchesAlts(a, s, 0, |s|)
    decreases a
  {
    hide MatchesPat;
    if a.Or? {
      AcceptsWhole(a.rest, s);
      if MatchesPat(a.p, s, 0, |s|) { assert Between(0, |s|, |s|); }
    }
  }

  /** Without parentheses around it, a pattern accepts what it describes, and on s nothing
      else exactly if no alternative but the last matches a mere beginning of s: a pattern
      without a bar always does right. */
  lemma BareExact(a: Alts, s: string)
    ensures MatchesAlts(a, s, 0, |s|) ==> Accepts(a, s)
    ensures (Accepts(a, s) <==> MatchesAlts(a, s, 0, |s|)) <==> (MatchesLoosely(a, s) ==> MatchesAlts(a, s, 0, |s|))
    ensures a.One? ==> (Accepts(a, s) <==> MatchesAlts(a, s, 0, |s|))
  {
    AcceptsWhole(a, s);
  }

  /** parsereg and domatch on a pattern as it stands, which is p printed.  Sound for every
      pattern; exact if no match of the body of a repeated group is a prefix of another. */
  method MatchReg(a: string, b: seq<Tok>, ghost p: Alts) returns (r: bool)
    requires b == PrintAlts(p) && BodiesAlts(p, a, NonEmpty) && ClosedAlts(p)
    ensures r ==> Accepts(p, a)
    ensures BodiesAlts(p, a, OneEnd) ==> (r <==> Accepts(p, a))
  {
    var c, nodes := ParseReg(b, true, p);
    CompileAltsHolds(p, Null, true, a, NonEmpty);
    if BodiesAlts(p, a, OneEnd) { CompileAltsHolds(p, Null, true, a, OneEnd); }
    BareReaches(p, a);
    if BodiesAlts(p, a, OneEnd) && Reaches(c.view, a, 0) {
      var j: nat :| Reach(c.view, a, 0, j);
      assert Pending(c.view, false, a, 0, j);
      RunFinds(c.view, false, a, 0);
    }
    r := DoMatch(a, c, nodes);
    if r { assert Pending(c.view, false, a, 0, Run(c.view, false, a, 0)); }
  }

  // ----- matchpat -----

  /** The pattern with the parentheses that matchpat puts around it. */
  function Parenthesised(p: Alts): Alts {
    One(Cons(Group(p), Nil))
  }

  /** A parenthesised pattern accepts exactly the strings that the pattern describes. */
  lemma WholeMatch(p: Alts, s: string)
    ensures Accepts(Parenthesised(p), s) <==> MatchesAlts(p, s, 0, |s|)
  {
    var q := Cons(Group(p), Nil);
    if MatchesPat(q, s, 0, |s|) {
      var n: nat :| Between(0, n, |s|) && MatchesPiece(Group(p), s, 0, n) && MatchesPat(Nil, s, n, |s|);
      assert n == |s|;
    }
    if MatchesAlts(p, s, 0, |s|) {
      assert MatchesPiece(Group(p), s, 0, |s|) && MatchesPat(Nil, s, |s|, |s|) && Between(0, |s|, |s|);
    }
  }

  lemma WrapBodies(p: Alts, s: string, c: Claim)
    ensures BodiesAlts(Parenthesised(p), s, c) <==> BodiesAlts(p, s, c)
  {
    assert Bodies(Nil, s, c);
    assert Bodies(Cons(Group(p), Nil), s, c) <==> BodiesAlts(p, s, c);
  }

  /** Whether the string a matches the pattern written b, which is p printed.
      Sound for every pattern; exact if no match of the body of a repeated group
      is a prefix of another. */
  method MatchPat(a: string, b: seq<Tok>, ghost p: Alts) returns (r: bool)
    requires b == PrintAlts(p) && BodiesAlts(p, a, NonEmpty) && ClosedAlts(Parenthesised(p))
    ensures r ==> MatchesAlts(p, a, 0, |a|)
    ensures BodiesAlts(p, a, OneEnd) ==> (r <==> MatchesAlts(p, a, 0, |a|))
  {
    var b2 := [Inpar] + b + [Outpar];
    ghost var q := Parenthesised(p);
    assert PrintAlts(q) == b2 by { assert PrintPat(q.p) == PrintPiece(q.p.head) + []; }
    WholeMatch(p, a);
    WrapBodies(p, a, NonEmpty);
    WrapBodies(p, a, OneEnd);
    r := MatchReg(a, b2, q);
  }

  /** Patterns without repeated groups: exactly the declared language. */
  method MatchPlain(a: string, b: seq<Tok>, ghost p: Alts) returns (r: bool)
    requires b == PrintAlts(p) && PlainAlts(p) && ClosedAlts(Parenthesised(p))
    ensures r <==> MatchesAlts(p, a, 0, |a|)
  {
    PlainBodiesAlts(p, a, NonEmpty);
    PlainBodiesAlts(p, a, OneEnd);
    r := MatchPat(a, b, p);
  }

  // ----- Classes that hold tokens -----

  /** The parentheses that matchpat adds close where they should, if the parentheses in each
      class are balanced. */
  lemma BalancedWhole(p: Alts)
    requires BalancedAlts(p)
    ensures ClosedAlts(Parenthesised(p))
  {
    BalancedClosed(p);
    assert Closed(Nil);
    assert Closed(Cons(Group(p), Nil)) <==> Even(p) && ClosedAlts(p);
  }

  function OneElem(e: Elem): Alts {
    One(Cons(Single(e), Nil))
  }

  lemma OneElemPrints(e: Elem)
    ensures PrintAlts(OneElem(e)) == PrintElem(e)
  {
    assert PrintPat(Nil) == [] && PrintElem(e) + [] == PrintElem(e);
    assert PrintPat(Cons(Single(e), Nil)) == PrintPiece(Single(e)) + PrintPat(Nil);
  }

  lemma OneElemMatches(e: Elem, s: string)
    ensures MatchesAlts(OneElem(e), s, 0, |s|) <==> |s| == 1 && ElemAccepts(e, s[0])
  {
    var q := Cons(Single(e), Nil);
    if MatchesPat(q, s, 0, |s|) {
      var k: nat :| Between(0, k, |s|) && MatchesPiece(Single(e), s, 0, k) && MatchesPat(Nil, s, k, |s|);
    }
    if |s| == 1 && ElemAccepts(e, s[0]) {
      assert Between(0, 1, |s|) && MatchesPiece(Single(e), s, 0, 1) && MatchesPat(Nil, s, 1, |s|);
    }
  }

  /** A token in a class stands for the character it is written as. */
  method MatchToken(a: string, x: ClassTok) returns (r: bool)
    ensures x == Star ==> (r <==> a == "*")
    ensures x == Quest ==> (r <==> a == "?")
    ensures x == Inbrack ==> (r <==> a == "[")
    ensures x == Inpar ==> (r <==> a == "(")
    ensures x == Outpar ==> (r <==> a == ")")
    ensures x == Bar ==> (r <==> a == "|")
    ensures x == Pound ==> (r <==> a == "#")
    ensures forall c :: x == Ch(c) && c != '^' && c != '!' ==> (r <==> a == [c])
  {
    ghost var body: seq<ClassTok> := [x];
    ghost var p := OneElem(Class(body));
    OneElemPrints(Class(body));
    assert PrintElem(Class(body)) == [Inbrack, x, Outbrack];
    PlainBodiesAlts(p, a, NonEmpty);
    PlainBodiesAlts(p, a, OneEnd);
    r := MatchReg(a, [Inbrack, x, Outbrack], p);
    OneElemMatches(Class(body), a);
    BareExact(p, a);
    if |a| == 1 {
      assert a == [a[0]];
      assert Text(body) == [Untok(x)];
      if Untok(x) != '^' && Untok(x) != '!' { OneMember(Untok(x), a[0]); }
    }
  }

  lemma OneMember(c: char, ch: char)
    requires c != '^' && c != '!'
    ensures ClassAccepts([c], ch) <==> ch == c
  {
    assert Hits([c], 0, ch) <==> ch == c;
  }

  /** A closing bracket that closes nothing stands for itself. */
  method MatchStray(a: string) returns (r: bool)
    ensures r <==> a == "]"
  {
    ghost var p := OneElem(Stray);
    OneElemPrints(Stray);
    PlainBodiesAlts(p, a, NonEmpty);
    PlainBodiesAlts(p, a, OneEnd);
    r := MatchReg(a, [Outbrack], p);
    OneElemMatches(Stray, a);
    BareExact(p, a);
    if |a| == 1 { assert a == [a[0]]; }
  }

  /** skipparens counts the parentheses in classes too: with those that matchpat adds, the
      class of an opening parenthesis is a bad pattern, although it describes one. */
  method OpenInClass() returns (c: CompNode?, ghost nodes: set<CompNode>)
    ensures c == null && MatchesAlts(OneElem(Class([Inpar])), "(", 0, 1)
  {
    ghost var p := OneElem(Class([Inpar]));
    ghost var b := [Inpar, Inbrack, Inpar, Outbrack, Outpar];
    OneElemMatches(Class([Inpar]), "(");
    assert Text([Inpar]) == ['('];
    OneMember('(', '(');
    assert Skip(b, 5, 1) == -1 && Skip(b, 4, 2) == -1 && Skip(b, 3, 2) == -1 && Skip(b, 2, 1) == -1;
    c, nodes := ParseReg([Inpar, Inbrack, Inpar, Outbrack, Outpar], false, p);
  }

  // ----- Where the matcher is not exact -----

  const LETTER_A := Cons(Single(Lit('a')), Nil)
  const LETTER_B := Cons(Single(Lit('b')), Nil)
  const LETTER_C := Cons(Single(Lit('c')), Nil)
  const A_OR_AB := Or(LETTER_A, One(Cons(Single(Lit('a')), LETTER_B)))

  /** Without the parentheses matchpat adds, only the last alternative is tied to
      the end of the subject: a|b lets "ax" through. */
  lemma BareAlternation()
    ensures var g := CompileAlts(Or(LETTER_A, One(LETTER_B)), Null, true);
            WfGraph(g) && Progress(g, "ax") && Run(g, false, "ax", 0) == 1
    ensures !MatchesAlts(Or(LETTER_A, One(LETTER_B)), "ax", 0, 2)
  {
    var g := CompileAlts(Or(LETTER_A, One(LETTER_B)), Null, true);
    var left := Node([Ch('a')], NoHash, false, Null, Null, Null);
    assert [] + Settled(Lit('a')) == [Ch('a')] && [] + Settled(Lit('b')) == [Ch('b')];
    assert g.left.g == left;
    SimpleOne([Ch('a')], 0);
    SimpleOne([Ch('b')], 0);
    assert [Ch('a')][0..1] == [Ch('a')] && [Ch('b')][0..1] == [Ch('b')];
    OneChar('a', "ax", 0);
    assert RunBody(left, "ax", 0) == 1;
  }

  lemma OneChar(c: char, s: string, i: nat)
    requires i < |s|
    ensures StrMatch([Ch(c)], s, i) == if s[i] == c then i + 1 else -1
    ensures Simple([Ch(c)]) && !Starred([Ch(c)])
  {
    assert [Ch(c)][1..] == [];
  }

  const REPEATED := Cons(GroupRep(A_OR_AB, false), LETTER_C)

  /** A body is not matched again once it has matched: (a|ab)#c describes "abc"
      but does not match it, because "a" is taken and "b" is then stuck. */
  lemma RepeatedNotExact()
    ensures var g := CompileAlts(Parenthesised(One(REPEATED)), Null, true);
            WfGraph(g) && Progress(g, "abc") && Run(g, false, "abc", 0) == -1
    ensures MatchesAlts(One(REPEATED), "abc", 0, 3)
  {
    RepeatedDescribes();
    var after := Compile(Nil, [], Null, true);
    var inside := Compile(REPEATED, [], Ptr(after), false);
    var g := CompileAlts(Parenthesised(One(REPEATED)), Null, true);
    var group := Node([], NoHash, false, Ptr(inside), Null, Ptr(SINK));
    assert g == TextNode([], Ptr(group));
    RepeatedStuck(Ptr(after));
    assert RunBody(group, "abc", 0) == -1;
    assert Run(group, false, "abc", 0) == -1;
    assert RunBody(g, "abc", 0) == 0;
  }

  /** How the body a|ab runs on "abc": it takes "a", and nothing after that. */
  lemma BodyRuns(left: Graph)
    requires left == CompileAlts(A_OR_AB, Null, false)
    ensures WfGraph(left) && Progress(left, "abc")
    ensures Run(left, false, "abc", 0) == 1 && Run(left, false, "abc", 1) == -1
  {
    var s := "abc";
    assert [] + Settled(Lit('a')) == [Ch('a')] && [Ch('a')] + Settled(Lit('b')) == [Ch('a'), Ch('b')];
    OneChar('a', s, 0);
    OneChar('a', s, 1);
    OneChar('b', s, 0);
    assert [Ch('a'), Ch('b')][1..] == [Ch('b')];
    var a := Node([Ch('a')], NoHash, false, Null, Null, Null);
    var ab := Node([Ch('a'), Ch('b')], NoHash, false, Null, Null, Null);
    assert left == Node([], NoHash, false, Ptr(a), Ptr(ab), Null);
    RunStep(a, false, s, 0);
    RunStep(a, false, s, 1);
    RunStep(ab, false, s, 1);
    RunStep(left, false, s, 0);
    RunStep(left, false, s, 1);
  }

  /** What follows the body runs into neither the first nor the second character. */
  lemma RestRuns(c: Graph, k: Link)
    requires k.Ptr? && WfGraph(k.g) && Progress(k.g, "abc") && c == Node([Ch('c')], NoHash, false, Null, Null, k)
    ensures WfGraph(c) && Progress(c, "abc") && Run(c, false, "abc", 0) == -1 && Run(c, false, "abc", 1) == -1
  {
    OneChar('c', "abc", 0);
    OneChar('c', "abc", 1);
    RunStep(c, false, "abc", 0);
    RunStep(c, false, "abc", 1);
  }

  lemma LoopRuns(left: Graph, c: Graph)
    requires WfGraph(left) && Progress(left, "abc") && WfGraph(c) && Progress(c, "abc")
    requires forall i: nat :: i <= 3 ==> !Reach(left, "abc", i, i)
    requires Run(left, false, "abc", 0) == 1 && Run(left, false, "abc", 1) == -1
    requires Run(c, false, "abc", 0) == -1 && Run(c, false, "abc", 1) == -1
    ensures var loop := Node([], OneHash, false, Ptr(left), Null, Ptr(c));
            WfGraph(loop) && Progress(loop, "abc") && Run(loop, false, "abc", 0) == -1
  {
    var s := "abc";
    var loop := Node([], OneHash, false, Ptr(left), Null, Ptr(c));
    assert Progress(loop, s);
    RunStep(loop, true, s, 1);
    RunStep(loop, false, s, 0);
  }

  lemma RepeatedStuck(k: Link)
    requires k.Ptr? && WfGraph(k.g) && Progress(k.g, "abc")
    ensures var g := Compile(REPEATED, [], k, false);
            WfGraph(g) && Progress(g, "abc") && Run(g, false, "abc", 0) == -1
  {
    hide A_OR_AB, Run, RunBody, Reach, StrMatch;
    var left := CompileAlts(A_OR_AB, Null, false);
    var c := Node([Ch('c')], NoHash, false, Null, Null, k);
    var loop := Node([], OneHash, false, Ptr(left), Null, Ptr(c));
    BodyRuns(left);
    RestRuns(c, k);
    forall i: nat | i <= 3 ensures !Reach(left, "abc", i, i) { ABConsumes(i); }
    LoopRuns(left, c);
    assert [] + Settled(Lit('c')) == [Ch('c')];
    TextRuns(loop);
  }

  lemma TextRuns(loop: Graph)
    requires WfGraph(loop) && Progress(loop, "abc")
    ensures var g := TextNode([], Ptr(loop));
            WfGraph(g) && Progress(g, "abc") && Run(g, false, "abc", 0) == Run(loop, false, "abc", 0)
  {
    RunStep(TextNode([], Ptr(loop)), false, "abc", 0);
  }

  lemma ConsumesOne(e: Elem, t: Pat, s: string, i: nat)
    ensures !MatchesPat(Cons(Single(e), t), s, i, i)
  {
    forall k: nat ensures !(Between(i, k, i) && MatchesPiece(Single(e), s, i, k)) {}
  }

  /** The body a|ab always consumes something. */
  lemma ABConsumes(i: nat)
    requires i <= 3
    ensures !Reach(CompileAlts(A_OR_AB, Null, false), "abc", i, i)
  {
    BodyLanguage(A_OR_AB, "abc");
    ConsumesOne(Lit('a'), Nil, "abc", i);
    ConsumesOne(Lit('a'), LETTER_B, "abc", i);
  }

  lemma RepeatedDescribes()
    ensures MatchesAlts(One(REPEATED), "abc", 0, 3)
  {
    var s := "abc";
    var ab := Cons(Single(Lit('a')), LETTER_B);
    assert MatchesPat(Nil, s, 2, 2) && MatchesPat(Nil, s, 3, 3);
    assert Between(1, 2, 2) && MatchesPiece(Single(Lit('b')), s, 1, 2);
    assert MatchesPat(LETTER_B, s, 1, 2);
    assert Between(0, 1, 2) && MatchesPiece(Single(Lit('a')), s, 0, 1);
    assert MatchesPat(ab, s, 0, 2);
    assert MatchesAlts(One(ab), s, 0, 2);
    assert MatchesAlts(A_OR_AB, s, 0, 2);
    assert Beyond(0, 2, 2) && MatchesMany(A_OR_AB, s, 2, 2);
    assert MatchesMany(A_OR_AB, s, 0, 2);
    assert MatchesPiece(GroupRep(A_OR_AB, false), s, 0, 2);
    assert Between(2, 3, 3) && MatchesPiece(Single(Lit('c')), s, 2, 3);
    assert MatchesPat(LETTER_C, s, 2, 3);
    assert Between(0, 2, 3);
  }
}
