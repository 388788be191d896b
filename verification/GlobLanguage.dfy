/** The graph compiled from a pattern leads from one subject position to another
    exactly through the strings of the pattern's language. */
module GlobLanguage {
  import opened GlobPattern
  import opened GlobGraph

  /** p and then the continuation lead from m to j. */
  ghost predicate Via(p: Pat, k: Link, last: bool, s: string, m: nat, j: nat) {
    exists n: nat :: Between(m, n, |s|) && MatchesPat(p, s, m, n) && Cont(k, last, s, n, j)
  }

  ghost predicate ViaAlts(a: Alts, k: Link, last: bool, s: string, m: nat, j: nat) {
    exists n: nat :: Between(m, n, |s|) && MatchesAlts(a, s, m, n) && Cont(k, last, s, n, j)
  }

  ghost predicate Accepted(e: Elem, s: string, i: nat, n: nat) {
    i <= n <= |s| && forall q :: i <= q < n ==> ElemAccepts(e, s[q])
  }

  lemma ReachText(t: seq<Tok>, next: Link, last: bool, s: string, i: nat, j: nat)
    requires Simple(t) && i <= |s|
    ensures Reach(Node(t, NoHash, last, Null, Null, next), s, i, j) <==>
            StrMatch(t, s, i) >= 0 && Cont(next, last, s, StrMatch(t, s, i), j)
  {
    SimpleAppend(t, []);
    var g := Node(t, NoHash, last, Null, Null, next);
    var m := StrMatch(t, s, i);
    if m >= 0 && Cont(next, last, s, m, j) {
      assert Body(g, s, i, m);
    }
  }

  lemma BodyElem(e: Elem, next: Graph, s: string, i: nat)
    requires i <= |s|
    ensures forall k: nat :: Body(Node(Settled(e), OneHash, false, Null, Null, Ptr(next)), s, i, k) <==>
              k == i + 1 && i < |s| && ElemAccepts(e, s[i])
  {
    hide Reach, StrMatch, ElemAccepts;
    ElemText(e);
  }

  /** A one-character closure runs over accepted characters. */
  lemma {:induction false} LoopElem(e: Elem, next: Graph, s: string, i: nat, j: nat)
    requires i <= |s|
    ensures Loop(Node(Settled(e), OneHash, false, Null, Null, Ptr(next)), s, i, j) <==>
            exists n: nat :: Accepted(e, s, i, n) && Reach(next, s, n, j)
    decreases |s| - i
  {
    hide Reach, StrMatch, Body, ElemAccepts, Settled, Loop, Accepted;
    var g := Node(Settled(e), OneHash, false, Null, Null, Ptr(next));
    LoopStep(e, next, s, i, j);
    if i < |s| && ElemAccepts(e, s[i]) { LoopElem(e, next, s, i + 1, j); }
    AcceptedStep(e, s, i);
    if n: nat :| Accepted(e, s, i, n) && Reach(next, s, n, j) {
      if n > i { assert Accepted(e, s, i + 1, n); }
    }
    if i < |s| && ElemAccepts(e, s[i]) && Loop(g, s, i + 1, j) {
      var n: nat :| Accepted(e, s, i + 1, n) && Reach(next, s, n, j);
      assert Accepted(e, s, i, n);
    }
  }

  /** Its end, or one character more. */
  lemma LoopStep(e: Elem, next: Graph, s: string, i: nat, j: nat)
    requires i <= |s|
    ensures var g := Node(Settled(e), OneHash, false, Null, Null, Ptr(next));
            Loop(g, s, i, j) <==>
            Reach(next, s, i, j) || (i < |s| && ElemAccepts(e, s[i]) && Loop(g, s, i + 1, j))
  {
    var g := Node(Settled(e), OneHash, false, Null, Null, Ptr(next));
    BodyElem(e, next, s, i);
    ReachAhead(next, s, i, j);
    hide Reach, StrMatch, Body, ElemAccepts, Settled;
    if i < |s| && ElemAccepts(e, s[i]) && Loop(g, s, i + 1, j) {
      assert Beyond(i, i + 1, |s|) && Body(g, s, i, i + 1);
    }
  }

  lemma ReachAhead(g: Graph, s: string, i: nat, j: nat)
    ensures Reach(g, s, i, j) ==> i <= j <= |s|
  {}

  lemma AcceptedStep(e: Elem, s: string, i: nat)
    requires i <= |s|
    ensures Accepted(e, s, i, i)
    ensures forall n: nat {:trigger Accepted(e, s, i, n)} :: n > i ==>
      (Accepted(e, s, i, n) <==> i < |s| && ElemAccepts(e, s[i]) && Accepted(e, s, i + 1, n))
    ensures forall n: nat {:trigger Accepted(e, s, i + 1, n)} :: n > i ==>
      (Accepted(e, s, i, n) <==> i < |s| && ElemAccepts(e, s[i]) && Accepted(e, s, i + 1, n))
    ensures forall n: nat {:trigger Accepted(e, s, i, n)} :: Accepted(e, s, i, n) ==> n >= i
    ensures forall n: nat {:trigger Accepted(e, s, i + 1, n)} :: Accepted(e, s, i + 1, n) ==> n > i
  {
    hide ElemAccepts;
  }

  lemma ReachSink(s: string, i: nat, j: nat)
    requires i <= |s|
    ensures Reach(SINK, s, i, j) <==> i == j
  {
    ReachText([], Null, false, s, i, j);
  }

  /** A group that is not repeated hands over to its alternatives. */
  lemma ReachGroup(left: Graph, s: string, i: nat, j: nat)
    requires i <= |s|
    ensures Reach(Node([], NoHash, false, Ptr(left), Null, Ptr(SINK)), s, i, j) <==> Reach(left, s, i, j)
  {
    var g := Node([], NoHash, false, Ptr(left), Null, Ptr(SINK));
    forall k: nat | k <= |s| ensures Cont(g.next, g.last, s, k, j) <==> k == j { ReachSink(s, k, j); }
    if Reach(g, s, i, j) {
      var k: nat :| Between(i, k, |s|) && Body(g, s, i, k) && Cont(g.next, g.last, s, k, j);
    }
    if Reach(left, s, i, j) {
      assert Between(i, j, |s|) && Body(g, s, i, j) && Cont(g.next, g.last, s, j, j);
    }
  }

  /** An alternative node is left through either alternative. */
  lemma ReachOr(left: Graph, right: Graph, s: string, i: nat, j: nat)
    requires i <= |s|
    ensures Reach(Node([], NoHash, false, Ptr(left), Ptr(right), Null), s, i, j) <==>
            Reach(left, s, i, j) || Reach(right, s, i, j)
  {
    var g := Node([], NoHash, false, Ptr(left), Ptr(right), Null);
    if Reach(g, s, i, j) {
      var k: nat :| Between(i, k, |s|) && Body(g, s, i, k) && Cont(g.next, g.last, s, k, j);
    }
    if Reach(left, s, i, j) || Reach(right, s, i, j) {
      assert Between(i, j, |s|) && Body(g, s, i, j) && Cont(g.next, g.last, s, j, j);
    }
  }

  /** A repeated group runs over repetitions of its alternatives. */
  lemma {:induction false} LoopGroup(a: Alts, g: Graph, s: string, i: nat, j: nat)
    requires i <= |s| && g.next.Ptr?
    requires forall m: nat, k: nat :: m <= |s| ==> (Body(g, s, m, k) <==> MatchesAlts(a, s, m, k))
    ensures Loop(g, s, i, j) <==> exists n: nat :: MatchesMany(a, s, i, n) && Reach(g.next.g, s, n, j)
    decreases |s| - i
  {
    forall k: nat | i < k <= |s|
      ensures Loop(g, s, k, j) <==> exists n: nat :: MatchesMany(a, s, k, n) && Reach(g.next.g, s, n, j)
    { LoopGroup(a, g, s, k, j); }
    if Loop(g, s, i, j) {
      if Cont(g.next, g.last, s, i, j) {
        assert MatchesMany(a, s, i, i);
      } else {
        var k: nat :| Beyond(i, k, |s|) && Body(g, s, i, k) && Loop(g, s, k, j);
        var n: nat :| MatchesMany(a, s, k, n) && Reach(g.next.g, s, n, j);
        assert MatchesMany(a, s, i, n);
      }
    }
    if n: nat :| MatchesMany(a, s, i, n) && Reach(g.next.g, s, n, j) {
      if n > i {
        var k: nat :| Beyond(i, k, n) && MatchesAlts(a, s, i, k) && MatchesMany(a, s, k, n);
        assert Body(g, s, i, k) && Loop(g, s, k, j);
      }
    }
  }

  /** One piece and then the rest of the pattern lead from m to j. */
  ghost predicate ViaPiece(h: Piece, t: Pat, k: Link, last: bool, s: string, m: nat, j: nat) {
    exists n: nat :: Between(m, n, |s|) && MatchesPiece(h, s, m, n) && Via(t, k, last, s, n, j)
  }

  lemma ViaCons(h: Piece, t: Pat, k: Link, last: bool, s: string, m: nat, j: nat)
    ensures Via(Cons(h, t), k, last, s, m, j) <==> ViaPiece(h, t, k, last, s, m, j)
  {
    if Via(Cons(h, t), k, last, s, m, j) {
      var x: nat :| m <= x <= |s| && MatchesPat(Cons(h, t), s, m, x) && Cont(k, last, s, x, j);
      var n: nat :| Between(m, n, x) && MatchesPiece(h, s, m, n) && MatchesPat(t, s, n, x);
      assert Via(t, k, last, s, n, j);
    }
    if n: nat :| Between(m, n, |s|) && MatchesPiece(h, s, m, n) && Via(t, k, last, s, n, j) {
      var x: nat :| n <= x <= |s| && MatchesPat(t, s, n, x) && Cont(k, last, s, x, j);
      assert MatchesPat(Cons(h, t), s, m, x);
    }
  }

  /** The graph g stands for the pattern t followed by k, seen from position j. */
  ghost predicate Stands(g: Graph, t: Pat, k: Link, last: bool, s: string, j: nat) {
    forall n: nat :: n <= |s| ==> (Reach(g, s, n, j) <==> Via(t, k, last, s, n, j))
  }

  lemma FinalStar(acc: seq<Tok>, s: string, i: nat, j: nat)
    requires Simple(acc) && i <= |s|
    ensures Reach(Node(acc + [Star], NoHash, true, Null, Null, Null), s, i, j) <==>
            StrMatch(acc, s, i) >= 0 && ViaPiece(Stars, Nil, Null, true, s, StrMatch(acc, s, i), j)
  {
    var m := StrMatch(acc, s, i);
    var g := Node(acc + [Star], NoHash, true, Null, Null, Null);
    SimpleAppend(acc, [Star]);
    if m >= 0 {
      assert StrMatch([Star], s, m) == |s|;
      assert MatchesPat(Nil, s, |s|, |s|);
      assert Via(Nil, Null, true, s, |s|, |s|);
      assert MatchesPiece(Stars, s, m, |s|);
      assert Body(g, s, i, |s|);
    }
  }

  lemma StarLoop(after: Graph, t: Pat, acc: seq<Tok>, k: Link, last: bool, s: string, i: nat, j: nat)
    requires Simple(acc) && i <= |s| && Stands(after, t, k, last, s, j)
    ensures Reach(TextNode(acc, Ptr(Node([Quest], OneHash, false, Null, Null, Ptr(after)))), s, i, j) <==>
            StrMatch(acc, s, i) >= 0 && ViaPiece(Stars, t, k, last, s, StrMatch(acc, s, i), j)
  {
    var m := StrMatch(acc, s, i);
    var loop := Node([Quest], OneHash, false, Null, Null, Ptr(after));
    ReachText(acc, Ptr(loop), false, s, i, j);
    if m >= 0 {
      LoopElem(AnyChar, after, s, m, j);
      forall n: nat ensures Accepted(AnyChar, s, m, n) <==> m <= n <= |s| && MatchesPiece(Stars, s, m, n) {}
    }
  }

  lemma RepLoop(e: Elem, after: Graph, t: Pat, acc: seq<Tok>, k: Link, last: bool, s: string, i: nat, j: nat)
    requires Simple(acc) && i <= |s| && Stands(after, t, k, last, s, j)
    ensures Reach(TextNode(acc, Ptr(Node(Settled(e), OneHash, false, Null, Null, Ptr(after)))), s, i, j) <==>
            StrMatch(acc, s, i) >= 0 && ViaPiece(Rep(e, false), t, k, last, s, StrMatch(acc, s, i), j)
  {
    var m := StrMatch(acc, s, i);
    var loop := Node(Settled(e), OneHash, false, Null, Null, Ptr(after));
    ReachText(acc, Ptr(loop), false, s, i, j);
    if m >= 0 {
      LoopElem(e, after, s, m, j);
      forall n: nat
        ensures Accepted(e, s, m, n) <==> Between(m, n, |s|) && MatchesPiece(Rep(e, false), s, m, n)
      {}
    }
  }

  lemma PlusPiece(e: Elem, t: Pat, k: Link, last: bool, s: string, m: nat, j: nat)
    ensures ViaPiece(Rep(e, true), t, k, last, s, m, j) <==>
            m < |s| && ElemAccepts(e, s[m]) && ViaPiece(Rep(e, false), t, k, last, s, m + 1, j)
  {
    if n: nat :| Between(m, n, |s|) && MatchesPiece(Rep(e, true), s, m, n) && Via(t, k, last, s, n, j) {
      assert Between(m + 1, n, |s|) && MatchesPiece(Rep(e, false), s, m + 1, n);
    }
    if m < |s| && ElemAccepts(e, s[m]) {
      if n: nat :| Between(m + 1, n, |s|) && MatchesPiece(Rep(e, false), s, m + 1, n) && Via(t, k, last, s, n, j) {
        assert Between(m, n, |s|) && MatchesPiece(Rep(e, true), s, m, n);
      }
    }
  }

  lemma PlusLoop(e: Elem, after: Graph, t: Pat, acc: seq<Tok>, k: Link, last: bool, s: string, i: nat, j: nat)
    requires Simple(acc) && i <= |s| && Stands(after, t, k, last, s, j)
    ensures var loop := Ptr(Node(Settled(e), OneHash, false, Null, Null, Ptr(after)));
            Reach(TextNode(acc, Ptr(TextNode(Settled(e), loop))), s, i, j) <==>
            StrMatch(acc, s, i) >= 0 && ViaPiece(Rep(e, true), t, k, last, s, StrMatch(acc, s, i), j)
  {
    var m := StrMatch(acc, s, i);
    hide Reach, ViaPiece, Stands, Settled, StrMatch, Simple, ElemAccepts;
    var loop := Ptr(Node(Settled(e), OneHash, false, Null, Null, Ptr(after)));
    ElemAt(e, s, i);
    ReachText(acc, Ptr(TextNode(Settled(e), loop)), false, s, i, j);
    if m >= 0 {
      ElemAt(e, s, m);
      PlusPiece(e, t, k, last, s, m, j);
      RepLoop(e, after, t, Settled(e), k, last, s, m, j);
    }
  }

  lemma GroupOnce(a: Alts, left: Graph, after: Graph, t: Pat, acc: seq<Tok>, k: Link, last: bool, s: string, i: nat,
                  j: nat)
    requires Simple(acc) && i <= |s| && Stands(after, t, k, last, s, j)
    requires forall m: nat :: m <= |s| ==> (Reach(left, s, m, j) <==> ViaAlts(a, Ptr(after), false, s, m, j))
    ensures Reach(TextNode(acc, Ptr(Node([], NoHash, false, Ptr(left), Null, Ptr(SINK)))), s, i, j) <==>
            StrMatch(acc, s, i) >= 0 && ViaPiece(Group(a), t, k, last, s, StrMatch(acc, s, i), j)
  {
    var m := StrMatch(acc, s, i);
    ReachText(acc, Ptr(Node([], NoHash, false, Ptr(left), Null, Ptr(SINK))), false, s, i, j);
    if m >= 0 {
      ReachGroup(left, s, m, j);
      if ViaAlts(a, Ptr(after), false, s, m, j) {
        var n: nat :| Between(m, n, |s|) && MatchesAlts(a, s, m, n) && Cont(Ptr(after), false, s, n, j);
        assert MatchesPiece(Group(a), s, m, n);
      }
      if n: nat :| Between(m, n, |s|) && MatchesPiece(Group(a), s, m, n) && Via(t, k, last, s, n, j) {
        assert Cont(Ptr(after), false, s, n, j);
      }
    }
  }

  lemma GroupLoop(a: Alts, plus: bool, left: Graph, after: Graph, t: Pat, acc: seq<Tok>, k: Link, last: bool,
                  s: string, i: nat, j: nat)
    requires Simple(acc) && i <= |s| && Stands(after, t, k, last, s, j)
    requires forall m: nat, n: nat :: m <= |s| ==> (Reach(left, s, m, n) <==> MatchesAlts(a, s, m, n))
    ensures Reach(TextNode(acc, Ptr(Node([], if plus then TwoHash else OneHash, false, Ptr(left), Null, Ptr(after)))),
                  s, i, j) <==>
            StrMatch(acc, s, i) >= 0 && ViaPiece(GroupRep(a, plus), t, k, last, s, StrMatch(acc, s, i), j)
  {
    var m := StrMatch(acc, s, i);
    var g := Node([], if plus then TwoHash else OneHash, false, Ptr(left), Null, Ptr(after));
    ReachText(acc, Ptr(g), false, s, i, j);
    forall m: nat, n: nat | m <= |s| ensures Body(g, s, m, n) <==> MatchesAlts(a, s, m, n) {
      if MatchesAlts(a, s, m, n) { AltsRange(a, s, m, n); }
    }
    if m >= 0 {
      forall x: nat | x <= |s| ensures Loop(g, s, x, j) <==> ViaMany(a, t, k, last, s, x, j) {
        LoopGroup(a, g, s, x, j);
        if n: nat :| MatchesMany(a, s, x, n) && Reach(after, s, n, j) {
          assert Between(x, n, |s|) && Via(t, k, last, s, n, j);
        }
        if ViaMany(a, t, k, last, s, x, j) {
          var n: nat :| Between(x, n, |s|) && MatchesMany(a, s, x, n) && Via(t, k, last, s, n, j);
          assert Reach(after, s, n, j);
        }
      }
      RepPiece(a, plus, t, k, last, s, m, j);
    }
  }

  ghost predicate ViaMany(a: Alts, t: Pat, k: Link, last: bool, s: string, m: nat, j: nat) {
    exists n: nat :: Between(m, n, |s|) && MatchesMany(a, s, m, n) && Via(t, k, last, s, n, j)
  }

  lemma RepPiece(a: Alts, plus: bool, t: Pat, k: Link, last: bool, s: string, m: nat, j: nat)
    ensures ViaPiece(GroupRep(a, plus), t, k, last, s, m, j) <==>
            if plus then exists x: nat ::
            Between(m, x, |s|) && MatchesAlts(a, s, m, x) && ViaMany(a, t, k, last, s, x, j)
            else ViaMany(a, t, k, last, s, m, j)
  {
    var h := GroupRep(a, plus);
    if n: nat :| Between(m, n, |s|) && MatchesPiece(h, s, m, n) && Via(t, k, last, s, n, j) {
      if plus {
        var x: nat :| Between(m, x, n) && MatchesAlts(a, s, m, x) && MatchesMany(a, s, x, n);
        assert ViaMany(a, t, k, last, s, x, j) by { assert Between(x, n, |s|); }
        assert Between(m, x, |s|);
      } else {
        assert MatchesMany(a, s, m, n);
      }
    }
    if plus {
      if x: nat :| Between(m, x, |s|) && MatchesAlts(a, s, m, x) && ViaMany(a, t, k, last, s, x, j) {
        var n: nat :| Between(x, n, |s|) && MatchesMany(a, s, x, n) && Via(t, k, last, s, n, j);
        assert Between(m, x, n) && Between(m, n, |s|) && MatchesPiece(h, s, m, n);
      }
    } else if ViaMany(a, t, k, last, s, m, j) {
      var n: nat :| Between(m, n, |s|) && MatchesMany(a, s, m, n) && Via(t, k, last, s, n, j);
      assert MatchesPiece(h, s, m, n);
    }
  }

  lemma {:induction false} AltsRange(a: Alts, s: string, i: nat, j: nat)
    requires MatchesAlts(a, s, i, j)
    ensures i <= j <= |s|
  {
    if a.Or? && !MatchesPat(a.p, s, i, j) { AltsRange(a.rest, s, i, j); }
  }

  lemma SinglePiece(e: Elem, t: Pat, k: Link, last: bool, s: string, m: nat, j: nat)
    ensures ViaPiece(Single(e), t, k, last, s, m, j) <==>
            m < |s| && ElemAccepts(e, s[m]) && Via(t, k, last, s, m + 1, j)
  {
    if m < |s| && ElemAccepts(e, s[m]) && Via(t, k, last, s, m + 1, j) {
      assert Between(m, m + 1, |s|) && MatchesPiece(Single(e), s, m, m + 1);
    }
  }

  // ----- Main results -----

  /** The graph of a piece followed by t, given what the graphs of t and of the
      piece's alternatives do. */
  lemma CompilePiece(h: Piece, t: Pat, acc: seq<Tok>, k: Link, last: bool, s: string, i: nat, j: nat)
    requires Simple(acc) && i <= |s| && (last ==> k.Null?) && !h.Single?
    requires Stands(Compile(t, [], k, last), t, k, last, s, j)
    requires h.Group? ==> forall m: nat :: m <= |s| ==>
      var after := Ptr(Compile(t, [], k, last));
      (Reach(CompileAlts(h.alts, after, false), s, m, j) <==> ViaAlts(h.alts, after, false, s, m, j))
    requires h.GroupRep? ==> forall m: nat, n: nat :: m <= |s| ==>
      (Reach(CompileAlts(h.alts, Null, false), s, m, n) <==> MatchesAlts(h.alts, s, m, n))
    ensures Reach(Compile(Cons(h, t), acc, k, last), s, i, j) <==>
            StrMatch(acc, s, i) >= 0 && ViaPiece(h, t, k, last, s, StrMatch(acc, s, i), j)
  {
    var after := Compile(t, [], k, last);
    match h
    case Stars =>
      if t.Nil? && last { FinalStar(acc, s, i, j); } else { StarLoop(after, t, acc, k, last, s, i, j); }
    case Rep(e, plus) =>
      if plus { PlusLoop(e, after, t, acc, k, last, s, i, j); } else { RepLoop(e, after, t, acc, k, last, s, i, j); }
    case Group(a) =>
      GroupOnce(a, CompileAlts(a, Ptr(after), false), after, t, acc, k, last, s, i, j);
    case GroupRep(a, plus) =>
      GroupLoop(a, plus, CompileAlts(a, Null, false), after, t, acc, k, last, s, i, j);
  }

  lemma CompileNil(acc: seq<Tok>, k: Link, last: bool, s: string, i: nat, j: nat)
    requires Simple(acc) && i <= |s| && (last ==> k.Null?)
    ensures Reach(Compile(Nil, acc, k, last), s, i, j) <==>
            StrMatch(acc, s, i) >= 0 && Via(Nil, k, last, s, StrMatch(acc, s, i), j)
  {
    hide Reach, StrMatch;
    ReachText(acc, k, last, s, i, j);
    var m := StrMatch(acc, s, i);
    if m >= 0 { assert MatchesPat(Nil, s, m, m); }
  }

  /** One element is added to the pending text. */
  lemma CompileSingle(e: Elem, t: Pat, acc: seq<Tok>, k: Link, last: bool, s: string, i: nat, j: nat)
    requires Simple(acc) && i <= |s|
    requires Simple(acc + Settled(e)) ==>
      (Reach(Compile(t, acc + Settled(e), k, last), s, i, j) <==>
       StrMatch(acc + Settled(e), s, i) >= 0 && Via(t, k, last, s, StrMatch(acc + Settled(e), s, i), j))
    ensures Simple(acc + Settled(e))
    ensures Reach(Compile(Cons(Single(e), t), acc, k, last), s, i, j) <==>
            StrMatch(acc, s, i) >= 0 && ViaPiece(Single(e), t, k, last, s, StrMatch(acc, s, i), j)
  {
    hide Reach, Via, ViaPiece, Settled, StrMatch, Simple, ElemAccepts;
    ElemAfter(acc, e, s, i);
    var m := StrMatch(acc, s, i);
    if m >= 0 { SinglePiece(e, t, k, last, s, m, j); }
  }

  lemma {:induction false} CompilePat(p: Pat, acc: seq<Tok>, k: Link, last: bool, s: string, i: nat, j: nat)
    requires Simple(acc) && i <= |s| && (last ==> k.Null?)
    ensures Reach(Compile(p, acc, k, last), s, i, j) <==>
            StrMatch(acc, s, i) >= 0 && Via(p, k, last, s, StrMatch(acc, s, i), j)
    decreases p, 0
  {
    hide Reach, Via, ViaPiece, StrMatch, Compile, Simple;
    match p
    case Nil => CompileNil(acc, k, last, s, i, j);
    case Cons(h, t) =>
      var m := StrMatch(acc, s, i);
      if m >= 0 { ViaCons(h, t, k, last, s, m, j); }
      if h.Single? {
        var acc' := acc + Settled(h.e);
        if Simple(acc') { CompilePat(t, acc', k, last, s, i, j); }
        CompileSingle(h.e, t, acc, k, last, s, i, j);
      } else {
        CompileStands(t, k, last, s, j);
        if h.Group? { AlternativesStand(h.alts, Ptr(Compile(t, [], k, last)), s, j); }
        if h.GroupRep? { BodyLanguage(h.alts, s); }
        CompilePiece(h, t, acc, k, last, s, i, j);
      }
  }

  lemma {:induction false} CompileStands(t: Pat, k: Link, last: bool, s: string, j: nat)
    requires last ==> k.Null?
    ensures Stands(Compile(t, [], k, last), t, k, last, s, j)
    decreases t, 1
  {
    forall n: nat | n <= |s| ensures Reach(Compile(t, [], k, last), s, n, j) <==> Via(t, k, last, s, n, j) {
      CompilePat(t, [], k, last, s, n, j);
    }
  }

  lemma {:induction false} AlternativesStand(a: Alts, k: Link, s: string, j: nat)
    ensures forall m: nat :: m <= |s| ==> (Reach(CompileAlts(a, k, false), s, m, j) <==> ViaAlts(a, k, false, s, m, j))
    decreases a, 1
  {
    forall m: nat | m <= |s| ensures Reach(CompileAlts(a, k, false), s, m, j) <==> ViaAlts(a, k, false, s, m, j) {
      CompileAlternatives(a, k, s, m, j);
    }
  }

  /** Inside parentheses every alternative runs into the shared continuation. */
  lemma {:induction false} CompileAlternatives(a: Alts, k: Link, s: string, i: nat, j: nat)
    requires i <= |s|
    ensures Reach(CompileAlts(a, k, false), s, i, j) <==> ViaAlts(a, k, false, s, i, j)
    decreases a, 0
  {
    match a
    case One(p) =>
      CompilePat(p, [], k, false, s, i, j);
    case Or(p, rest) =>
      CompilePat(p, [], k, false, s, i, j);
      CompileAlternatives(rest, k, s, i, j);
      ReachOr(Compile(p, [], k, false), CompileAlts(rest, k, false), s, i, j);
  }

  /** A closure body is compiled without continuation. */
  lemma {:induction false} BodyLanguage(a: Alts, s: string)
    ensures forall m: nat, n: nat :: m <= |s| ==>
      (Reach(CompileAlts(a, Null, false), s, m, n) <==> MatchesAlts(a, s, m, n))
    decreases a, 1
  {
    forall m: nat, n: nat | m <= |s|
      ensures Reach(CompileAlts(a, Null, false), s, m, n) <==> MatchesAlts(a, s, m, n)
    {
      CompileAlternatives(a, Null, s, m, n);
      if MatchesAlts(a, s, m, n) { AltsRange(a, s, m, n); }
    }
  }
}
