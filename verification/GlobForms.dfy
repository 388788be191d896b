/** What patterns of common forms match, in plain words: matchpat of Src/glob.c on the
    tokens of the pattern. */
module GlobForms {
  import opened GlobPattern
  import opened GlobGraph
  import opened GlobLanguage
  import opened GlobMatcher
  import opened GlobCompiler
  import opened GlobMatchpat

  /** The characters of w, then rest. */
  function Then(w: string, rest: Pat): Pat {
    if w == "" then rest else Cons(Single(Lit(w[0])), Then(w[1..], rest))
  }

  function Chars(w: string): (t: seq<Tok>)
    ensures |t| == |w| && forall k :: 0 <= k < |w| ==> t[k] == Ch(w[k])
  {
    if w == "" then [] else [Ch(w[0])] + Chars(w[1..])
  }

  lemma {:induction false} ThenPrints(w: string, rest: Pat)
    ensures PrintPat(Then(w, rest)) == Chars(w) + PrintPat(rest)
    ensures BalancedPat(Then(w, rest)) == BalancedPat(rest)
    ensures GlobMatchpat.Plain(Then(w, rest)) == GlobMatchpat.Plain(rest)
    decreases |w|
  {
    if w != "" { ThenPrints(w[1..], rest); }
  }

  lemma {:induction false} ThenMatches(w: string, rest: Pat, s: string, i: nat, j: nat)
    ensures MatchesPat(Then(w, rest), s, i, j) <==>
            (i + |w| <= j <= |s| && s[i..i + |w|] == w && MatchesPat(rest, s, i + |w|, j))
    decreases |w|
  {
    if w != "" {
      var t := Then(w[1..], rest);
      ThenMatches(w[1..], rest, s, i + 1, j);
      if MatchesPat(Then(w, rest), s, i, j) {
        var k: nat :| Between(i, k, j) && MatchesPiece(Single(Lit(w[0])), s, i, k) && MatchesPat(t, s, k, j);
        assert s[i..i + |w|] == [s[i]] + s[i + 1..i + |w|];
      }
      if i + |w| <= j <= |s| && s[i..i + |w|] == w && MatchesPat(rest, s, i + |w|, j) {
        assert s[i..i + |w|][0] == s[i];
        assert s[i + 1..i + |w|] == w[1..];
        assert Between(i, i + 1, j) && MatchesPiece(Single(Lit(w[0])), s, i, i + 1) && MatchesPat(t, s, i + 1, j);
      }
    }
  }

  lemma WordMatches(w: string, s: string)
    ensures MatchesPat(Then(w, Nil), s, 0, |s|) <==> s == w
  {
    ThenMatches(w, Nil, s, 0, |s|);
    assert s[0..|s|] == s;
  }

  /** u|v matches u and v, and nothing else. */
  method MatchEither(a: string, u: string, v: string) returns (r: bool)
    ensures r <==> a == u || a == v
  {
    ghost var p := Or(Then(u, Nil), One(Then(v, Nil)));
    ThenPrints(u, Nil);
    ThenPrints(v, Nil);
    BalancedWhole(p);
    WordMatches(u, a);
    WordMatches(v, a);
    var b := Chars(u) + [Bar] + Chars(v);
    assert PrintAlts(p) == b by { assert Chars(u) + [] == Chars(u) && Chars(v) + [] == Chars(v); }
    r := MatchPlain(a, b, p);
  }

  /** u*v matches what begins with u and goes on to end with v. */
  method MatchAround(a: string, u: string, v: string) returns (r: bool)
    ensures r <==> |u| + |v| <= |a| && u <= a && a[|a| - |v|..] == v
  {
    ghost var q := Cons(Stars, Then(v, Nil));
    ghost var p := One(Then(u, q));
    ThenPrints(u, q);
    ThenPrints(v, Nil);
    BalancedWhole(p);
    AroundMatches(u, v, a);
    var b := Chars(u) + [Tok.Star] + Chars(v);
    assert PrintAlts(p) == b by { assert Chars(v) + [] == Chars(v); }
    r := MatchPlain(a, b, p);
  }

  lemma StarsMatch(t: Pat, s: string, i: nat, j: nat)
    ensures MatchesPat(Cons(Stars, t), s, i, j) <==>
            (i <= j <= |s| && exists k: nat :: Between(i, k, j) && MatchesPat(t, s, k, j))
  {
    if i <= j <= |s| && exists k: nat :: Between(i, k, j) && MatchesPat(t, s, k, j) {
      var k: nat :| Between(i, k, j) && MatchesPat(t, s, k, j);
      assert MatchesPiece(Stars, s, i, k);
    }
  }

  lemma WordEnds(v: string, a: string, k: nat)
    ensures MatchesPat(Then(v, Nil), a, k, |a|) <==> k + |v| == |a| && a[k..] == v
  {
    ThenMatches(v, Nil, a, k, |a|);
    if k + |v| == |a| { assert a[k..k + |v|] == a[k..]; }
  }

  lemma StarThen(v: string, a: string, i: nat)
    requires i <= |a|
    ensures MatchesPat(Cons(Stars, Then(v, Nil)), a, i, |a|) <==> i + |v| <= |a| && a[|a| - |v|..] == v
  {
    hide MatchesPat, Then;
    var t := Then(v, Nil);
    StarsMatch(t, a, i, |a|);
    if k: nat :| Between(i, k, |a|) && MatchesPat(t, a, k, |a|) { WordEnds(v, a, k); }
    if i + |v| <= |a| {
      var k: nat := |a| - |v|;
      WordEnds(v, a, k);
      assert Between(i, k, |a|);
    }
  }

  lemma AroundMatches(u: string, v: string, a: string)
    ensures MatchesPat(Then(u, Cons(Stars, Then(v, Nil))), a, 0, |a|) <==>
            (|u| + |v| <= |a| && u <= a && a[|a| - |v|..] == v)
  {
    hide MatchesPat, Then;
    ThenMatches(u, Cons(Stars, Then(v, Nil)), a, 0, |a|);
    if |u| <= |a| {
      StarThen(v, a, |u|);
      assert a[0..0 + |u|] == u <==> u <= a;
    }
  }

  /** ? matches each single character. */
  method MatchQuest(a: string) returns (r: bool)
    ensures r <==> |a| == 1
  {
    r := MatchElem(a, AnyChar, [Quest]);
  }

  /** A pattern of one element. */
  method MatchElem(a: string, ghost e: Elem, b: seq<Tok>) returns (r: bool)
    requires b == PrintElem(e) && BalancedElem(e)
    ensures r <==> |a| == 1 && ElemAccepts(e, a[0])
  {
    ghost var p := OneElem(e);
    OneElemPrints(e);
    OneElemMatches(e, a);
    assert BalancedPat(Nil);
    BalancedWhole(p);
    r := MatchPlain(a, b, p);
  }

  /** [lo-hi] matches the characters from lo to hi, and lo and hi themselves; with a ^ before
      them, the others. */
  method MatchRange(a: string, lo: char, hi: char, but: bool) returns (r: bool)
    requires but || (lo != '^' && lo != '!')
    ensures r <==> |a| == 1 && but != (lo <= a[0] <= hi || a[0] == lo || a[0] == hi)
  {
    var range: seq<ClassTok> := [Ch(lo), Ch('-'), Ch(hi)];
    var body: seq<ClassTok> := (if but then [Ch('^')] else []) + range;
    ghost var text := [lo, '-', hi];
    assert Text(range) == text;
    assert Text(body) == (if but then "^" else "") + text;
    NoParentheses(body);
    r := MatchElem(a, Class(body), [Inbrack] + body + [Outbrack]);
    if |a| == 1 {
      RangeMember(lo, hi, a[0]);
      assert Negated(Text(body)) == but;
      assert (if but then Text(body)[1..] else Text(body)) == text;
    }
  }

  lemma {:induction false} NoParentheses(b: seq<Tok>)
    requires forall k :: 0 <= k < |b| ==> b[k].Ch?
    ensures Balanced(b, 0)
  {
    if b != [] { NoParentheses(b[1..]); }
  }

  lemma RangeMember(lo: char, hi: char, ch: char)
    ensures Member([lo, '-', hi], ch) <==> lo <= ch <= hi || ch == lo || ch == hi
  {
    var b := [lo, '-', hi];
    assert Hits(b, 0, ch) <==> ch == lo;
    assert Hits(b, 1, ch) <==> lo <= ch <= hi;
    assert Hits(b, 2, ch) <==> ch == hi;
  }

  /** c# matches any number of c, and c## at least one. */
  method MatchHashes(a: string, c: char, plus: bool) returns (r: bool)
    ensures r <==> (plus ==> a != "") && forall k :: 0 <= k < |a| ==> a[k] == c
  {
    ghost var h := Rep(Lit(c), plus);
    ghost var p := One(Cons(h, Nil));
    assert BalancedPat(Nil) && GlobMatchpat.Plain(Nil);
    BalancedWhole(p);
    var b := [Ch(c)] + if plus then [Pound, Pound] else [Pound];
    assert PrintAlts(p) == b by { assert PrintPat(Cons(h, Nil)) == PrintPiece(h) + PrintPat(Nil); }
    r := MatchPlain(a, b, p);
    if MatchesPiece(h, a, 0, |a|) {
      assert Between(0, |a|, |a|) && MatchesPat(Nil, a, |a|, |a|);
    }
    if MatchesPat(Cons(h, Nil), a, 0, |a|) {
      var k: nat :| Between(0, k, |a|) && MatchesPiece(h, a, 0, k) && MatchesPat(Nil, a, k, |a|);
    }
  }

  function Times(u: string, n: nat): string {
    if n == 0 then "" else u + Times(u, n - 1)
  }

  /** (u)# matches u as often as there is, for a u of one character or more. */
  method MatchRepeated(a: string, u: string) returns (r: bool)
    requires u != ""
    ensures r <==> exists n: nat :: a == Times(u, n)
  {
    ghost var body := One(Then(u, Nil));
    ghost var h := GroupRep(body, false);
    ghost var p := One(Cons(h, Nil));
    ThenPrints(u, Nil);
    assert BalancedPat(Nil);
    BalancedWhole(p);
    var b := [Inpar] + Chars(u) + [Outpar, Pound];
    assert PrintAlts(p) == b by {
      assert PrintPat(Cons(h, Nil)) == PrintPiece(h) + PrintPat(Nil);
      assert PrintAlts(body) == Chars(u) + [];
      assert PrintPiece(h) == [Inpar] + PrintAlts(body) + [Outpar] + [Pound];
    }
    WordBodies(u, a);
    RepeatBodies(body, a);
    r := MatchPat(a, b, p);
    if MatchesPiece(h, a, 0, |a|) { assert Between(0, |a|, |a|) && MatchesPat(Nil, a, |a|, |a|); }
    if MatchesPat(Cons(h, Nil), a, 0, |a|) {
      var k: nat :| Between(0, k, |a|) && MatchesPiece(h, a, 0, k) && MatchesPat(Nil, a, k, |a|);
    }
    RepeatsMatch(u, a, 0);
    assert a[0..] == a;
  }

  lemma RepeatBodies(body: Alts, a: string)
    requires body.One? && Bodies(body.p, a, NonEmpty) && Bodies(body.p, a, OneEnd)
    requires BodyOk(body, a, NonEmpty) && BodyOk(body, a, OneEnd)
    ensures var p := One(Cons(GroupRep(body, false), Nil)); BodiesAlts(p, a, NonEmpty) && BodiesAlts(p, a, OneEnd)
  {
    hide BodyOk;
    var q := Cons(GroupRep(body, false), Nil);
    assert Bodies(Nil, a, NonEmpty) && Bodies(Nil, a, OneEnd);
    assert BodiesAlts(body, a, NonEmpty) && BodiesAlts(body, a, OneEnd);
    assert Bodies(q, a, NonEmpty) && Bodies(q, a, OneEnd);
  }

  lemma WordBodies(u: string, a: string)
    requires u != ""
    ensures var body := One(Then(u, Nil)); BodyOk(body, a, NonEmpty) && BodyOk(body, a, OneEnd)
    ensures Bodies(Then(u, Nil), a, NonEmpty) && Bodies(Then(u, Nil), a, OneEnd)
  {
    ThenPrints(u, Nil);
    PlainBodies(Then(u, Nil), a, NonEmpty);
    PlainBodies(Then(u, Nil), a, OneEnd);
    forall i: nat, k: nat ensures MatchesPat(Then(u, Nil), a, i, k) ==> k == i + |u| {
      ThenMatches(u, Nil, a, i, k);
    }
  }

  /** What is matched from i on is u, some times over. */
  lemma {:induction false} RepeatsMatch(u: string, s: string, i: nat)
    requires u != "" && i <= |s|
    ensures MatchesMany(One(Then(u, Nil)), s, i, |s|) <==> exists n: nat :: s[i..] == Times(u, n)
    decreases |s| - i
  {
    hide MatchesPat, Then;
    var body := One(Then(u, Nil));
    if i == |s| {
      assert s[i..] == Times(u, 0);
    } else {
      if MatchesMany(body, s, i, |s|) {
        var k: nat :| Beyond(i, k, |s|) && MatchesAlts(body, s, i, k) && MatchesMany(body, s, k, |s|);
        OneRepeat(u, s, i, k);
        RepeatsMatch(u, s, k);
        var n: nat :| s[k..] == Times(u, n);
        var m: nat := n + 1;
        assert Times(u, m) == u + Times(u, n);
      }
      if n: nat :| s[i..] == Times(u, n) {
        assert n > 0 && s[i..] != "";
        var m: nat, k: nat := n - 1, i + |u|;
        assert Times(u, n) == u + Times(u, m);
        Shorter(u, s, i, m);
        OneRepeat(u, s, i, k);
        RepeatsMatch(u, s, k);
        assert s[k..] == Times(u, m);
        assert Beyond(i, k, |s|) && MatchesAlts(body, s, i, k) && MatchesMany(body, s, k, |s|);
      }
    }
  }

  lemma OneRepeat(u: string, s: string, i: nat, k: nat)
    requires i <= k <= |s|
    ensures MatchesAlts(One(Then(u, Nil)), s, i, k) <==> k == i + |u| && s[i..] == u + s[k..]
  {
    hide MatchesPat, Then;
    ThenMatches(u, Nil, s, i, k);
    NilHere(s, i + |u|, k);
    if k == i + |u| { Cut(u, s, i); }
  }

  lemma NilHere(s: string, i: nat, k: nat)
    ensures MatchesPat(Nil, s, i, k) <==> i == k <= |s|
  {}

  lemma Cut(u: string, s: string, i: nat)
    requires i + |u| <= |s|
    ensures s[i..i + |u|] == u <==> s[i..] == u + s[i + |u|..]
  {
    var k := i + |u|;
    assert s[i..] == s[i..k] + s[k..];
    if s[i..] == u + s[k..] { assert s[i..k] == s[i..][..|u|] == u; }
  }

  lemma Shorter(u: string, s: string, i: nat, m: nat)
    requires i < |s| && s[i..] == u + Times(u, m)
    ensures i + |u| <= |s| && s[i + |u|..] == Times(u, m) && s[i..] == u + s[i + |u|..]
  {
    assert |s[i..]| == |u| + |Times(u, m)|;
    assert s[i + |u|..] == s[i..][|u|..];
  }
}
