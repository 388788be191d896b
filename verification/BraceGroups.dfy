/** Groups in a string of tokens: which open braces are closed, which groups have a comma
    of their own, and where hasbraces of Src/glob.c gives up looking for one. */
module BraceGroups {
  import opened BraceWords
  import opened BraceExpansion

  /** How many more braces are opened than closed from a up to b. */
  function Balance(s: seq<Tok>, a: nat, b: nat): int
    requires a <= b <= |s|
    decreases b - a
  {
    if a == b then 0 else (if s[a].Inb? then 1 else if s[a].Outb? then -1 else 0) + Balance(s, a + 1, b)
  }

  /** From a to b never fewer than `low` more are opened than closed. */
  ghost predicate Above(s: seq<Tok>, a: nat, b: nat, low: int)
    requires a <= b <= |s|
  {
    forall j :: a <= j <= b ==> Balance(s, a, j) >= low
  }

  /** The brace that opens at g is closed at c. */
  ghost predicate ClosedAt(s: seq<Tok>, g: nat, c: nat) {
    g < c < |s| && s[g].Inb? && s[c].Outb? && Balance(s, g + 1, c) == 0 && Above(s, g + 1, c, 0)
  }

  /** ... and there is a comma of its own in it. */
  ghost predicate CommaAt(s: seq<Tok>, g: nat, k: nat, c: nat) {
    ClosedAt(s, g, c) && g < k < c && s[k].Com? && Balance(s, g + 1, k) == 0
  }

  /** A comma of its own comes before the end of what is open `depth` times more at i. */
  predicate HasComma(s: seq<Tok>, i: nat, depth: nat)
    requires i <= |s|
    decreases |s| - i
  {
    if i == |s| || (depth == 0 && s[i].Outb?) then false
    else if depth == 0 && s[i].Com? then true
    else HasComma(s, i + 1, if s[i].Inb? then depth + 1 else if s[i].Outb? then depth - 1 else depth)
  }

  predicate IsClosed(s: seq<Tok>, g: nat) {
    g < |s| && s[g].Inb? && Close(s, g + 1, 0) < |s|
  }

  /** A closed group with a comma of its own opens at g. */
  predicate IsGroup(s: seq<Tok>, g: nat) {
    IsClosed(s, g) && HasComma(s, g + 1, 0)
  }

  lemma {:induction false} CloseBalance(s: seq<Tok>, i: nat, depth: nat)
    requires i <= |s| && Close(s, i, depth) < |s|
    ensures var c := Close(s, i, depth);
            Balance(s, i, c) == 0 - depth && Above(s, i, c, 0 - depth)
    decreases |s| - i
  {
    var c := Close(s, i, depth);
    if i < c {
      var d := if s[i].Inb? then depth + 1 else if s[i].Outb? then depth - 1 else depth;
      CloseBalance(s, i + 1, d);
      forall j | i <= j <= c ensures Balance(s, i, j) >= 0 - depth {
        if i < j { assert Balance(s, i + 1, j) >= 0 - d; }
      }
    }
  }

  lemma {:induction false} BalanceClose(s: seq<Tok>, i: nat, depth: nat, c: nat)
    requires i <= c < |s| && s[c].Outb? && Balance(s, i, c) == 0 - depth
    requires Above(s, i, c, 0 - depth)
    ensures Close(s, i, depth) == c
    decreases |s| - i
  {
    if i < c {
      var d := if s[i].Inb? then depth + 1 else if s[i].Outb? then depth - 1 else depth;
      assert Balance(s, i, i + 1) >= 0 - depth;
      assert Balance(s, i + 1, i + 1) == 0;
      var a := i + 1;
      forall j | a <= j <= c ensures Balance(s, a, j) >= 0 - d { assert Balance(s, i, j) >= 0 - depth; }
      BalanceClose(s, a, d, c);
    }
  }

  lemma {:induction false} CommaFound(s: seq<Tok>, i: nat, depth: nat) returns (k: nat)
    requires i <= |s| && Close(s, i, depth) < |s| && HasComma(s, i, depth)
    ensures i <= k < Close(s, i, depth) && s[k].Com? && Balance(s, i, k) == 0 - depth
    decreases |s| - i
  {
    if depth == 0 && s[i].Com? {
      k := i;
    } else {
      k := CommaFound(s, i + 1, if s[i].Inb? then depth + 1 else if s[i].Outb? then depth - 1 else depth);
    }
  }

  lemma {:induction false} CommaThere(s: seq<Tok>, i: nat, depth: nat, k: nat)
    requires i <= |s| && i <= k < Close(s, i, depth) < |s| && s[k].Com? && Balance(s, i, k) == 0 - depth
    ensures HasComma(s, i, depth)
    decreases |s| - i
  {
    if !(depth == 0 && s[i].Com?) {
      CommaThere(s, i + 1, if s[i].Inb? then depth + 1 else if s[i].Outb? then depth - 1 else depth, k);
    }
  }

  /** IsGroup says just that. */
  lemma IsGroupMeans(s: seq<Tok>, g: nat)
    ensures IsClosed(s, g) <==> exists c :: ClosedAt(s, g, c)
    ensures IsGroup(s, g) <==> exists c, k :: CommaAt(s, g, k, c)
    ensures forall c :: ClosedAt(s, g, c) ==> c == Close(s, g + 1, 0)
  {
    forall c | ClosedAt(s, g, c) ensures Close(s, g + 1, 0) == c { BalanceClose(s, g + 1, 0, c); }
    if IsClosed(s, g) {
      CloseBalance(s, g + 1, 0);
      assert ClosedAt(s, g, Close(s, g + 1, 0));
      if IsGroup(s, g) {
        var k := CommaFound(s, g + 1, 0);
        assert CommaAt(s, g, k, Close(s, g + 1, 0));
      }
    }
    if c, k :| CommaAt(s, g, k, c) { CommaThere(s, g + 1, 0, k); }
  }

  /** The first open brace from p on that is not closed, or the end. */
  function Unclosed(s: seq<Tok>, p: nat): (u: nat)
    requires p <= |s|
    ensures p <= u <= |s| && (u < |s| ==> s[u].Inb? && !IsClosed(s, u))
    ensures forall k :: p <= k < u && s[k].Inb? ==> IsClosed(s, k)
    decreases |s| - p
  {
    if p == |s| || (s[p].Inb? && Close(s, p + 1, 0) == |s|) then p else Unclosed(s, p + 1)
  }

  /** No tokens from a up to b. */
  predicate NoTokens(s: seq<Tok>, a: nat, b: nat) {
    forall k :: a <= k < b && k < |s| ==> s[k].Char?
  }

  /** Where the scan gives up: behind two braces that are not closed, with nothing but
      characters between them, unless the first one is the second of such a pair. */
  function GivesUp(s: seq<Tok>, p: nat): (e: nat)
    requires p <= |s|
    ensures p <= e <= |s|
    decreases |s| - p
  {
    var u := Unclosed(s, p);
    if u == |s| then |s|
    else
      var v := Unclosed(s, u + 1);
      if v == |s| then |s| else if NoTokens(s, u + 1, v) then v + 1 else GivesUp(s, v + 1)
  }

  /** All that opens in a closed group is closed in it. */
  lemma {:induction false} InnerCloses(s: seq<Tok>, i: nat, depth: nat)
    requires i <= |s| && Close(s, i, depth) < |s|
    ensures forall k :: i <= k < Close(s, i, depth) && s[k].Inb? ==> Close(s, k + 1, 0) < Close(s, i, depth)
    decreases |s| - i
  {
    if i < Close(s, i, depth) {
      InnerCloses(s, i + 1, if s[i].Inb? then depth + 1 else if s[i].Outb? then depth - 1 else depth);
      if s[i].Inb? { CloseLess(s, i + 1, 0, depth + 1); }
    }
  }

  lemma {:induction false} UnclosedOver(s: seq<Tok>, i: nat, j: nat)
    requires i <= j <= |s| && forall k :: i <= k < j && s[k].Inb? ==> Close(s, k + 1, 0) < |s|
    ensures Unclosed(s, i) == Unclosed(s, j)
    decreases j - i
  {
    hide Close;
    if i < j { UnclosedOver(s, i + 1, j); }
  }

  lemma UnclosedInside(s: seq<Tok>, i: nat, depth: nat)
    requires i <= |s| && Close(s, i, depth) < |s|
    ensures Unclosed(s, i) == Unclosed(s, Close(s, i, depth) + 1)
  {
    InnerCloses(s, i, depth);
    hide Close, Unclosed;
    UnclosedOver(s, i, Close(s, i, depth) + 1);
  }

  /** What is open once less is closed earlier. */
  lemma {:induction false} CloseLess(s: seq<Tok>, i: nat, a: nat, b: nat)
    requires i <= |s| && a < b && Close(s, i, b) < |s|
    ensures Close(s, i, a) < Close(s, i, b)
    decreases |s| - i
  {
    if s[i].Inb? {
      CloseLess(s, i + 1, a + 1, b + 1);
    } else if s[i].Outb? {
      if a > 0 { CloseLess(s, i + 1, a - 1, b - 1); }
    } else {
      CloseLess(s, i + 1, a, b);
    }
  }

  lemma {:induction false} CommaSkip(s: seq<Tok>, i: nat, depth: nat)
    requires i <= |s| && depth >= 1 && Close(s, i, depth - 1) < |s|
    ensures HasComma(s, i, depth) == HasComma(s, Close(s, i, depth - 1) + 1, 0)
    decreases |s| - i
  {
    if s[i].Inb? {
      CommaSkip(s, i + 1, depth + 1);
    } else if s[i].Outb? {
      if depth > 1 { CommaSkip(s, i + 1, depth - 1); }
    } else {
      CommaSkip(s, i + 1, depth);
    }
  }

  /** Past a closed group. */
  lemma GroupStep(s: seq<Tok>, p: nat)
    requires IsClosed(s, p)
    ensures Close(s, p, 0) == Close(s, p + 1, 1) && HasComma(s, p, 0) == HasComma(s, p + 1, 1)
    ensures Unclosed(s, p) == Unclosed(s, p + 1)
  {}

  /** What is before an open brace that is not closed is not closed after it. */
  lemma NeverCloses(s: seq<Tok>, p: nat)
    requires p < |s| && s[p].Inb? && Close(s, p + 1, 0) == |s|
    ensures Close(s, p, 0) == |s|
  {
    if Close(s, p + 1, 1) < |s| { CloseLess(s, p + 1, 0, 1); }
  }

  /** Only the open braces that are not closed count. */
  lemma GivesUpBy(s: seq<Tok>, p: nat, q: nat)
    requires p <= |s| && q <= |s| && Unclosed(s, p) == Unclosed(s, q)
    ensures GivesUp(s, p) == GivesUp(s, q)
  {
    hide Unclosed, NoTokens, IsClosed, Close;
  }

  /** What is closed and opens before a brace that is not closed is closed before it. */
  lemma {:induction false} CloseBefore(s: seq<Tok>, i: nat, depth: nat, v: nat)
    requires i <= v < |s| && s[v].Inb? && !IsClosed(s, v) && Close(s, i, depth) < |s|
    ensures Close(s, i, depth) < v
    decreases v - i
  {
    if i == v {
      CloseLess(s, v + 1, 0, depth + 1);
    } else if i < Close(s, i, depth) {
      CloseBefore(s, i + 1, if s[i].Inb? then depth + 1 else if s[i].Outb? then depth - 1 else depth, v);
    }
  }

  lemma Before(s: seq<Tok>, k: nat, v: nat)
    requires k < v < |s| && IsClosed(s, k) && s[v].Inb? && !IsClosed(s, v)
    ensures Close(s, k + 1, 0) < v
  {
    CloseBefore(s, k + 1, 0, v);
  }

  lemma GroupClosed(s: seq<Tok>, g: nat)
    requires IsGroup(s, g)
    ensures g < |s| && s[g].Inb? && IsClosed(s, g)
  {}

  lemma NextUnclosedFrom(s: seq<Tok>, p: nat)
    requires p < |s|
    ensures Unclosed(s, p) == if s[p].Inb? && !IsClosed(s, p) then p else Unclosed(s, p + 1)
  {}

  lemma LastUnclosed(s: seq<Tok>, p: nat)
    requires p < |s| && s[p].Inb? && !IsClosed(s, p) && Unclosed(s, p + 1) == |s|
    ensures GivesUp(s, p) == |s| == GivesUp(s, p + 1)
  {
    NextUnclosedFrom(s, p);
    hide Close, HasComma, Unclosed, NoTokens;
  }

  lemma GivesUpPair(s: seq<Tok>, p: nat)
    requires p < |s| && s[p].Inb? && !IsClosed(s, p) && Unclosed(s, p + 1) < |s|
    ensures var v := Unclosed(s, p + 1);
            v < |s| && GivesUp(s, p) == if NoTokens(s, p + 1, v) then v + 1 else GivesUp(s, v + 1)
  {
    hide Close, IsClosed, NoTokens, GivesUp;
    NextUnclosedFrom(s, p);
    hide Unclosed;
    GivesUpStep(s, p, p, Unclosed(s, p + 1));
  }

  lemma GivesUpStep(s: seq<Tok>, p: nat, u: nat, v: nat)
    requires p <= |s| && Unclosed(s, p) == u < |s| && Unclosed(s, u + 1) == v < |s|
    ensures GivesUp(s, p) == if NoTokens(s, u + 1, v) then v + 1 else GivesUp(s, v + 1)
  {
    hide Close, IsClosed, Unclosed, NoTokens;
  }

  lemma GivesUpEnd(s: seq<Tok>, p: nat)
    requires p <= |s| && (Unclosed(s, p) == |s| || Unclosed(s, Unclosed(s, p) + 1) == |s|)
    ensures GivesUp(s, p) == |s|
  {
    hide Close, IsClosed, Unclosed, NoTokens;
  }

  // ----- The pieces of a group -----

  lemma {:induction false} PiecesComma(s: seq<Tok>, i: nat, depth: nat)
    requires i <= |s|
    ensures HasComma(s, i, depth) <==> |Pieces(s, i, depth)| >= 2
    decreases |s| - i
  {
    if i < |s| && !(depth == 0 && (s[i].Com? || s[i].Outb?)) {
      PiecesComma(s, i + 1, if s[i].Inb? then depth + 1 else if s[i].Outb? then depth - 1 else depth);
    }
  }

  /** The pieces with commas between them. */
  function Join(ps: seq<seq<Tok>>): seq<Tok> {
    if ps == [] then [] else if |ps| == 1 then ps[0] else ps[0] + [Com] + Join(ps[1..])
  }

  /** With `depth` open braces before it all braces in s belong together, and no comma is
      outside of them. */
  ghost predicate Piece(s: seq<Tok>, depth: nat) {
    Balance(s, 0, |s|) == 0 - depth && Above(s, 0, |s|, 0 - depth) &&
    forall k :: 0 <= k < |s| && Balance(s, 0, k) == 0 - depth ==> !s[k].Com?
  }

  lemma {:induction false} BalanceAfter(t: Tok, s: seq<Tok>, a: nat, b: nat)
    requires a <= b <= |s|
    ensures Balance([t] + s, a + 1, b + 1) == Balance(s, a, b)
    decreases b - a
  {
    if a < b { BalanceAfter(t, s, a + 1, b); }
  }

  lemma PieceAfter(t: Tok, s: seq<Tok>, depth: nat, d: nat)
    requires Piece(s, d) && d == depth + (if t.Inb? then 1 else if t.Outb? then -1 else 0)
    requires t.Com? ==> depth > 0
    ensures Piece([t] + s, depth)
  {
    var u := [t] + s;
    forall k | 0 <= k <= |s| ensures Balance(u, 0, k + 1) == Balance(s, 0, k) + (d - depth) {
      BalanceAfter(t, s, 0, k);
    }
    forall j | 0 <= j <= |u| ensures Balance(u, 0, j) >= 0 - depth {
      if j > 0 { assert Balance(u, 0, (j - 1) + 1) == Balance(s, 0, j - 1) + (d - depth); }
    }
    forall k | 0 <= k < |u| && Balance(u, 0, k) == 0 - depth ensures !u[k].Com? {
      if k > 0 { assert Balance(u, 0, (k - 1) + 1) == Balance(s, 0, k - 1) + (d - depth); }
    }
    assert Balance(u, 0, |s| + 1) == Balance(s, 0, |s|) + (d - depth);
  }

  /** What is between the braces of a group falls into its pieces, at the commas outside
      of inner braces, and only there. */
  lemma {:induction false} PiecesAre(s: seq<Tok>, i: nat, depth: nat)
    requires i <= |s| && Close(s, i, depth) < |s|
    ensures Join(Pieces(s, i, depth)) == s[i..Close(s, i, depth)]
    ensures var r := Pieces(s, i, depth); Piece(r[0], depth) && forall k :: 1 <= k < |r| ==> Piece(r[k], 0)
    decreases |s| - i
  {
    hide Piece, Balance;
    var c, r := Close(s, i, depth), Pieces(s, i, depth);
    EmptyPiece();
    if i < c {
      var d := if s[i].Inb? then depth + 1 else if s[i].Outb? then depth - 1 else depth;
      PiecesAre(s, i + 1, d);
      var more := Pieces(s, i + 1, d);
      assert s[i..c] == [s[i]] + s[i + 1..c];
      if depth == 0 && s[i].Com? {
        assert r[1..] == more;
        forall k | 1 <= k < |r| ensures Piece(r[k], 0) { assert r[k] == more[k - 1]; }
      } else {
        assert r[1..] == more[1..] && r[0] == [s[i]] + more[0];
        PieceAfter(s[i], more[0], depth, d);
        forall k | 1 <= k < |r| ensures Piece(r[k], 0) { assert r[k] == more[k]; }
        JoinFirst(r);
        JoinFirst(more);
        JoinAfter(s[i], more[0], if |more| == 1 then [] else [Com] + Join(more[1..]));
      }
    }
  }

  lemma EmptyPiece()
    ensures Piece([], 0)
  {}

  lemma JoinFirst(ps: seq<seq<Tok>>)
    requires ps != []
    ensures Join(ps) == ps[0] + if |ps| == 1 then [] else [Com] + Join(ps[1..])
  {
    if |ps| == 1 {
      assert ps[0] + [] == ps[0];
    } else {
      GatherJoin(ps[0], Join(ps[1..]));
    }
  }

  lemma GatherJoin(a: seq<Tok>, b: seq<Tok>)
    ensures a + [Com] + b == a + ([Com] + b)
  {}

  lemma JoinAfter(t: Tok, a: seq<Tok>, b: seq<Tok>)
    ensures ([t] + a) + b == [t] + (a + b)
  {}

  /** The n tokens from i on are those from j on in t. */
  ghost predicate Alike(s: seq<Tok>, i: nat, t: seq<Tok>, j: nat, n: nat) {
    i + n <= |s| && j + n <= |t| && forall k :: i <= k < i + n ==> s[k] == t[k + (j - i)]
  }

  /** What is read from i on as far as the end of the group is the same from j on in t. */
  lemma {:induction false} SameInside(s: seq<Tok>, i: nat, t: seq<Tok>, j: nat, depth: nat)
    requires i <= |s| && Close(s, i, depth) < |s| && Alike(s, i, t, j, Close(s, i, depth) - i + 1)
    ensures Close(t, j, depth) == j + Close(s, i, depth) - i && HasComma(t, j, depth) == HasComma(s, i, depth)
    ensures Pieces(t, j, depth) == Pieces(s, i, depth)
    decreases |s| - i
  {
    assert s[i] == t[j];
    if i < Close(s, i, depth) {
      SameInside(s, i + 1, t, j + 1, if s[i].Inb? then depth + 1 else if s[i].Outb? then depth - 1 else depth);
    }
  }

  /** s from i on is t from j on. */
  ghost predicate Tails(s: seq<Tok>, i: nat, t: seq<Tok>, j: nat) {
    i <= |s| && |s| - i == |t| - j && Alike(s, i, t, j, |s| - i)
  }

  lemma TailsBack(s: seq<Tok>, i: nat, t: seq<Tok>, j: nat)
    requires Tails(s, i, t, j)
    ensures Tails(t, j, s, i)
  {
    forall k | j <= k < |t| ensures t[k] == s[k + (i - j)] { assert s[k + (i - j)] == t[k + (i - j) + (j - i)]; }
  }

  lemma TailClose(s: seq<Tok>, i: nat, t: seq<Tok>, j: nat, depth: nat)
    requires Tails(s, i, t, j)
    ensures Close(t, j, depth) - j == Close(s, i, depth) - i
  {
    hide Close;
    if Close(s, i, depth) < |s| {
      SameInside(s, i, t, j, depth);
    } else if Close(t, j, depth) < |t| {
      TailsBack(s, i, t, j);
      SameInside(t, j, s, i, depth);
    }
  }

  lemma TailGroup(s: seq<Tok>, i: nat, t: seq<Tok>, j: nat)
    requires Tails(s, i, t, j) && i < |s|
    ensures s[i] == t[j] && Tails(s, i + 1, t, j + 1)
    ensures IsClosed(s, i) == IsClosed(t, j) && IsGroup(s, i) == IsGroup(t, j)
    ensures Close(t, j + 1, 0) - j == Close(s, i + 1, 0) - i
    ensures IsClosed(s, i) ==> Pieces(s, i + 1, 0) == Pieces(t, j + 1, 0)
  {
    hide Close, Pieces, HasComma;
    TailClose(s, i + 1, t, j + 1, 0);
    if IsClosed(s, i) { SameInside(s, i + 1, t, j + 1, 0); }
  }

  lemma {:induction false} TailUnclosed(s: seq<Tok>, i: nat, t: seq<Tok>, j: nat)
    requires Tails(s, i, t, j)
    ensures Unclosed(t, j) - j == Unclosed(s, i) - i
    decreases |s| - i
  {
    hide Close, Unclosed, IsClosed, IsGroup;
    if i < |s| {
      TailGroup(s, i, t, j);
      TailUnclosed(s, i + 1, t, j + 1);
      NextUnclosedFrom(s, i);
      NextUnclosedFrom(t, j);
    }
  }

  lemma TailOf(s: seq<Tok>, i: nat, t: seq<Tok>, j: nat, n: nat)
    requires Tails(s, i, t, j) && i + n <= |s|
    ensures Tails(s, i + n, t, j + n)
  {}

  lemma TailTokens(s: seq<Tok>, i: nat, t: seq<Tok>, j: nat, a: nat, b: nat)
    requires Tails(s, i, t, j) && i <= a && i <= b
    ensures NoTokens(s, a, b) <==> NoTokens(t, a + j - i, b + j - i)
  {
    TailsBack(s, i, t, j);
    assert forall k :: j <= k < |t| ==> t[k] == s[k + (i - j)];
  }

  lemma {:induction false} TailGivesUp(s: seq<Tok>, i: nat, t: seq<Tok>, j: nat)
    requires Tails(s, i, t, j)
    ensures GivesUp(t, j) - j == GivesUp(s, i) - i
    decreases |s| - i
  {
    hide Unclosed, GivesUp, NoTokens, Tails;
    TailUnclosed(s, i, t, j);
    TailLength(s, i, t, j);
    var u, u' := Unclosed(s, i), Unclosed(t, j);
    if u == |s| {
      GivesUpEnd(s, i);
      GivesUpEnd(t, j);
    } else {
      TailOf(s, i, t, j, u + 1 - i);
      TailUnclosed(s, u + 1, t, u' + 1);
      var v, v' := Unclosed(s, u + 1), Unclosed(t, u' + 1);
      if v == |s| {
        GivesUpEnd(s, i);
        GivesUpEnd(t, j);
      } else {
        GivesUpStep(s, i, u, v);
        GivesUpStep(t, j, u', v');
        TailTokens(s, i, t, j, u + 1, v);
        TailOf(s, i, t, j, v + 1 - i);
        TailGivesUp(s, v + 1, t, v' + 1);
      }
    }
  }

  lemma TailLength(s: seq<Tok>, i: nat, t: seq<Tok>, j: nat)
    requires Tails(s, i, t, j)
    ensures i <= |s| && |s| - i == |t| - j
  {}

  // ----- Pieces in their place -----

  lemma {:induction false} BalancePlus(s: seq<Tok>, a: nat, b: nat, c: nat)
    requires a <= b <= c <= |s|
    ensures Balance(s, a, c) == Balance(s, a, b) + Balance(s, b, c)
    decreases b - a
  {
    if a < b { BalancePlus(s, a + 1, b, c); }
  }

  lemma {:induction false} NeverBelow(s: seq<Tok>, i: nat, depth: nat)
    requires i <= |s| && Close(s, i, depth) == |s|
    ensures Balance(s, i, |s|) >= 0 - depth
    decreases |s| - i
  {
    if i < |s| { NeverBelow(s, i + 1, if s[i].Inb? then depth + 1 else if s[i].Outb? then depth - 1 else depth); }
  }

  /** All that opens from i up to m is closed before m. */
  ghost predicate Even(y: seq<Tok>, i: nat, m: nat) {
    m <= |y| && forall k :: i <= k < m && y[k].Inb? ==> Close(y, k + 1, 0) < m
  }

  lemma PieceEven(p: seq<Tok>)
    requires Piece(p, 0)
    ensures Even(p, 0, |p|)
  {
    forall k | 0 <= k < |p| && p[k].Inb? ensures Close(p, k + 1, 0) < |p| {
      if Close(p, k + 1, 0) == |p| {
        NeverBelow(p, k + 1, 0);
        BalancePlus(p, 0, k, |p|);
      }
    }
  }

  lemma EvenAlike(s: seq<Tok>, i: nat, t: seq<Tok>, j: nat, n: nat)
    requires Even(s, i, i + n) && Alike(s, i, t, j, n)
    ensures Even(t, j, j + n)
  {
    hide Close, HasComma, Pieces;
    forall k | j <= k < j + n && t[k].Inb? ensures Close(t, k + 1, 0) < j + n {
      var h := k + i - j;
      assert s[h] == t[h + (j - i)];
      SameInside(s, h + 1, t, k + 1, 0);
    }
  }

  lemma EvenPlus(s: seq<Tok>, a: nat, b: nat, c: nat)
    requires a <= b <= c && Even(s, a, b) && Even(s, b, c)
    ensures Even(s, a, c)
  {
    hide Close;
  }

  /** The scan does not give up there. */
  lemma EvenGivesUp(s: seq<Tok>, i: nat, m: nat)
    requires i <= m && Even(s, i, m)
    ensures GivesUp(s, i) == GivesUp(s, m)
  {
    hide Close, Unclosed;
    UnclosedOver(s, i, m);
    GivesUpBy(s, i, m);
  }

  /** It gives up at a brace that is not closed. */
  lemma {:induction false} GivesUpAt(s: seq<Tok>, p: nat)
    requires p <= |s| && GivesUp(s, p) < |s|
    ensures var v := GivesUp(s, p) - 1; p <= v && s[v].Inb? && !IsClosed(s, v)
    decreases |s| - p
  {
    hide Close, NoTokens, IsClosed, Unclosed, GivesUp;
    var u := Unclosed(s, p);
    if u == |s| || Unclosed(s, u + 1) == |s| {
      GivesUpEnd(s, p);
    } else {
      var v := Unclosed(s, u + 1);
      GivesUpStep(s, p, u, v);
      if !NoTokens(s, u + 1, v) { GivesUpAt(s, v + 1); }
    }
  }
}
