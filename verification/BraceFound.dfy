/** Which group hasbraces of Src/glob.c finds in an arbitrary string, and what becomes of
    the string. */
module BraceFound {
  import opened BraceWords
  import opened BraceExpansion
  import opened BraceGroups

  // ----- The scan, from the outside -----

  /** What hasbraces gives from p on, where no brace is open. */
  function Result(s: seq<Tok>, p: nat): (o: Outcome)
    requires p <= |s|
    ensures o.Done? && |o.s| == |s|
    decreases |s| - p
  {
    if p == |s| then Done(false, s, -1)
    else if s[p].Char? then Result(s, p + 1)
    else if !s[p].Inb? then Result(s[p := Literal(s[p])], p + 1)
    else
      var c := Close(s, p + 1, 0);
      if c < |s| then
        if HasComma(s, p + 1, 0) then Done(true, s, p) else Result(s[p := Char('{')][c := Char('}')], p + 1)
      else
        var v := Unclosed(s, p + 1);
        if v == |s| then Result(s[p := Char('{')], p + 1)
        else if NoTokens(s, p + 1, v) then Done(false, s[p := Char('{')][v := Char('{')], -1)
        else Result(s[p := Char('{')][v := Char('{')], p + 1)
  }

  function Top(s: seq<Tok>, p: nat): (t: Scan)
    requires p <= |s|
    ensures Fits(t)
  {
    Scan(s, p, -1, -1, -1)
  }

  /** Characters are passed over. */
  lemma {:induction false} OverChars(s: seq<Tok>, a: nat, b: nat)
    requires a <= b <= |s| && NoTokens(s, a, b)
    ensures Hasbraces(Top(s, a)) == Hasbraces(Top(s, b))
    decreases b - a
  {
    hide Hasbraces, Close;
    if a < b {
      Turn(Top(s, a));
      OverChars(s, a + 1, b);
    }
  }

  /** The first comma or open brace of the group at i, as far as p. */
  function First(p: nat, mbr: int, comma: int): int {
    if comma >= 0 && (mbr < 0 || comma < mbr) then comma else if mbr >= 0 then mbr else p
  }

  /** What the scan knows at p of the brace at i. */
  ghost predicate Track(s: seq<Tok>, i: nat, p: nat, mbr: int, comma: int) {
    i < p <= |s| && s[i].Inb? && Fits(Scan(s, p, i, mbr, comma)) &&
    Close(s, i + 1, 0) == Close(s, p, 0) && Unclosed(s, i + 1) == Unclosed(s, p) &&
    (HasComma(s, i + 1, 0) <==> comma >= 0 || HasComma(s, p, 0)) &&
    (comma >= 0 ==> i < comma && s[comma].Com?) && (mbr >= 0 ==> i < mbr && s[mbr].Inb?) &&
    NoTokens(s, i + 1, First(p, mbr, comma))
  }

  /** A character, a comma, or a closed group is passed. */
  lemma TrackNext(s: seq<Tok>, i: nat, p: nat, mbr: int, comma: int)
    requires Track(s, i, p, mbr, comma) && p < |s|
    ensures s[p].Char? ==> Track(s, i, p + 1, mbr, comma)
    ensures s[p].Com? ==> Track(s, i, p + 1, mbr, if comma < 0 then p else comma)
    ensures IsClosed(s, p) ==> Track(s, i, Close(s, p + 1, 0) + 1, if mbr < 0 then p else mbr, comma)
  {
    if IsClosed(s, p) {
      TrackGroup(s, i, p, mbr, comma);
    }
    hide IsClosed;
  }

  lemma TrackGroup(s: seq<Tok>, i: nat, p: nat, mbr: int, comma: int)
    requires Track(s, i, p, mbr, comma) && p < |s| && IsClosed(s, p)
    ensures Track(s, i, Close(s, p + 1, 0) + 1, if mbr < 0 then p else mbr, comma)
  {
    hide Close, HasComma, Unclosed;
    CloseSkip(s, p + 1, 1);
    CommaSkip(s, p + 1, 1);
    UnclosedInside(s, p + 1, 0);
    GroupStep(s, p);
  }

  /** The scan does what Result says. */
  lemma {:induction false} ScanIs(s: seq<Tok>, p: nat)
    requires p <= |s|
    ensures Hasbraces(Top(s, p)) == Result(s, p)
    decreases |s| - p, 1, 0
  {
    hide Hasbraces, Close, HasComma, Unclosed;
    Turn(Top(s, p));
    if p < |s| {
      if s[p].Char? {
        ScanIs(s, p + 1);
      } else if !s[p].Inb? {
        ScanIs(s[p := Literal(s[p])], p + 1);
      } else {
        assert Track(s, p, p + 1, -1, -1);
        Inner(s, p, p + 1, -1, -1);
      }
    }
  }

  /** Within the brace at i. */
  lemma {:induction false} Inner(s: seq<Tok>, i: nat, p: nat, mbr: int, comma: int)
    requires Track(s, i, p, mbr, comma)
    ensures Hasbraces(Scan(s, p, i, mbr, comma)) == Result(s, i)
    decreases |s| - i, 0, |s| - p + 1
  {
    hide Hasbraces, Close, HasComma, Unclosed, Track, NoTokens;
    var t := Scan(s, p, i, mbr, comma);
    TrackFits(s, i, p, mbr, comma);
    Turn(t);
    if p == |s| {
      AtEndOf(s, i, mbr, comma);
    } else if s[p].Outb? {
      AtClose(s, i, p, mbr, comma);
    } else if s[p].Inb? && Close(s, p + 1, 0) == |s| {
      AtUnclosed(s, i, p, mbr, comma);
    } else {
      TrackNext(s, i, p, mbr, comma);
      NextInner(t);
      if s[p].Char? {
        Inner(s, i, p + 1, mbr, comma);
      } else if s[p].Com? {
        Inner(s, i, p + 1, mbr, if comma < 0 then p else comma);
      } else {
        Inner(s, i, Close(s, p + 1, 0) + 1, if mbr < 0 then p else mbr, comma);
      }
    }
  }

  lemma TrackFits(s: seq<Tok>, i: nat, p: nat, mbr: int, comma: int)
    requires Track(s, i, p, mbr, comma)
    ensures Fits(Scan(s, p, i, mbr, comma)) && i < p <= |s| && s[i].Inb?
  {}

  lemma NextInner(t: Scan)
    requires Fits(t) && t.lbr >= 0 && t.p < |t.s|
    ensures t.s[t.p].Char? ==> Next(t) == Go(t.(p := t.p + 1))
    ensures t.s[t.p].Com? ==> Next(t) == Go(t.(p := t.p + 1, comma := if t.comma < 0 then t.p else t.comma))
    ensures IsClosed(t.s, t.p) ==>
      Next(t) == Go(t.(p := Close(t.s, t.p + 1, 0) + 1, mbr := if t.mbr < 0 then t.p else t.mbr))
  {
    hide Close;
  }

  /** The rest of the string has no token, so that nothing more happens in it. */
  lemma {:induction false} NothingMore(s: seq<Tok>, p: nat)
    requires p <= |s| && NoTokens(s, p, |s|)
    ensures Result(s, p) == Done(false, s, -1)
    decreases |s| - p
  {
    hide Close, HasComma, Unclosed;
    if p < |s| { NothingMore(s, p + 1); }
  }

  /** The string ends while the brace at i is open. */
  lemma {:induction false} AtEndOf(s: seq<Tok>, i: nat, mbr: int, comma: int)
    requires Track(s, i, |s|, mbr, comma)
    ensures Hasbraces(Scan(s, |s|, i, mbr, comma)) == Result(s, i)
    decreases |s| - i, 0, 0
  {
    hide Hasbraces, HasComma;
    var s1 := s[i := Char('{')];
    Turn(Scan(s, |s|, i, mbr, comma));
    assert Result(s, i) == Result(s1, i + 1);
    if mbr < 0 && comma < 0 {
      NothingMore(s1, i + 1);
    } else {
      var q := First(|s|, mbr, comma);
      OverChars(s1, i + 1, q);
      ScanIs(s1, i + 1);
    }
  }

  /** The brace at i is closed at p. */
  lemma {:induction false} AtClose(s: seq<Tok>, i: nat, p: nat, mbr: int, comma: int)
    requires Track(s, i, p, mbr, comma) && p < |s| && s[p].Outb?
    ensures Hasbraces(Scan(s, p, i, mbr, comma)) == Result(s, i)
    decreases |s| - i, 0, 0
  {
    hide Hasbraces, Unclosed;
    Turn(Scan(s, p, i, mbr, comma));
    assert Close(s, p, 0) == p && !HasComma(s, p, 0);
    if comma < 0 {
      var s1 := s[i := Char('{')][p := Char('}')];
      assert Result(s, i) == Result(s1, i + 1);
      OverChars(s1, i + 1, if mbr >= 0 then mbr else p + 1);
      ScanIs(s1, i + 1);
    }
  }

  /** A brace opens at p that is not closed. */
  lemma {:induction false} AtUnclosed(s: seq<Tok>, i: nat, p: nat, mbr: int, comma: int)
    requires Track(s, i, p, mbr, comma) && p < |s| && s[p].Inb? && Close(s, p + 1, 0) == |s|
    ensures Hasbraces(Scan(s, p, i, mbr, comma)) == Result(s, i)
    decreases |s| - i, 0, 0
  {
    hide Hasbraces, HasComma;
    var s1 := s[i := Char('{')][p := Char('{')];
    NextUnclosed(s, i, p, mbr, comma);
    NeverCloses(s, p);
    assert Unclosed(s, i + 1) == p;
    hide Unclosed, Track;
    Turn(Scan(s, p, i, mbr, comma));
    if mbr < 0 && comma < 0 {
      Turn(Top(s1, |s|));
    } else {
      var q := First(|s|, mbr, comma);
      OverChars(s1, i + 1, q);
      ScanIs(s1, i + 1);
    }
  }

  lemma NextUnclosed(s: seq<Tok>, i: nat, p: nat, mbr: int, comma: int)
    requires Track(s, i, p, mbr, comma) && p < |s| && s[p].Inb? && Close(s, p + 1, 0) == |s|
    ensures var s1 := s[i := Char('{')][p := Char('{')]; var q := First(|s|, mbr, comma);
      Fits(Scan(s, p, i, mbr, comma)) && Unclosed(s, i + 1) == p && Close(s, i + 1, 0) == Close(s, p, 0) &&
      Next(Scan(s, p, i, mbr, comma)) == Go(Top(s1, q)) &&
      if mbr < 0 && comma < 0 then q == |s| && NoTokens(s, i + 1, p)
      else i < q < p && !NoTokens(s, i + 1, p) && NoTokens(s1, i + 1, q)
  {
    hide Close, HasComma, IsClosed;
    var q := First(|s|, mbr, comma);
    if mbr >= 0 || comma >= 0 { assert !s[q].Char?; }
  }

  // ----- What it finds -----

  /** From p on nothing but tokens at p and m has changed; all that opens between
      closes there. */
  ghost predicate Cut(s: seq<Tok>, s1: seq<Tok>, p: nat, m: nat) {
    |s| == |s1| && p <= m < |s| && !s1[m].Inb? && Tails(s, m + 1, s1, m + 1) &&
    (forall k :: p < k < m ==> s1[k] == s[k]) &&
    forall k :: p < k < m && s[k].Inb? ==> Close(s, k + 1, 0) < m
  }

  lemma CutAt(s: seq<Tok>, s1: seq<Tok>, p: nat, m: nat, g: nat)
    requires Cut(s, s1, p, m) && p < g && g != m
    ensures IsClosed(s1, g) == IsClosed(s, g) && IsGroup(s1, g) == IsGroup(s, g)
    ensures g < |s| && s[g].Inb? ==> Close(s1, g + 1, 0) == Close(s, g + 1, 0)
  {
    hide Close, HasComma, Pieces;
    if g < m {
      if s[g].Inb? { SameInside(s, g + 1, s1, g + 1, 0); }
    } else if g < |s| {
      hide IsGroup, IsClosed, Cut;
      CutTail(s, s1, p, m);
      TailOf(s, m + 1, s1, m + 1, g - m - 1);
      TailGroup(s, g, s1, g);
    }
  }

  lemma CutTail(s: seq<Tok>, s1: seq<Tok>, p: nat, m: nat)
    requires Cut(s, s1, p, m)
    ensures |s| == |s1| && p <= m < |s| && Tails(s, m + 1, s1, m + 1)
  {}

  lemma CutUnclosed(s: seq<Tok>, s1: seq<Tok>, p: nat, m: nat)
    requires Cut(s, s1, p, m)
    ensures Unclosed(s1, p + 1) == Unclosed(s, m + 1) && GivesUp(s1, p + 1) == GivesUp(s, m + 1)
  {
    hide Close, Unclosed, GivesUp;
    forall k | p + 1 <= k < m + 1 && s1[k].Inb? ensures Close(s1, k + 1, 0) < |s| { CutAt(s, s1, p, m, k); }
    UnclosedOver(s1, p + 1, m + 1);
    TailUnclosed(s, m + 1, s1, m + 1);
    TailGivesUp(s, m + 1, s1, m + 1);
    GivesUpBy(s1, p + 1, m + 1);
  }

  /** The brace at p is closed at c: between them braces are closed. */
  lemma CutClosed(s: seq<Tok>, p: nat)
    requires IsClosed(s, p)
    ensures var c := Close(s, p + 1, 0); Cut(s, s[p := Char('{')][c := Char('}')], p, c)
    ensures GivesUp(s, p) == GivesUp(s, Close(s, p + 1, 0) + 1)
  {
    hide Close, Unclosed, GivesUp, HasComma;
    InnerCloses(s, p + 1, 0);
    UnclosedInside(s, p + 1, 0);
    GroupStep(s, p);
    GivesUpBy(s, p, Close(s, p + 1, 0) + 1);
  }

  /** ... and so between an open brace and the next one that is not closed. */
  lemma CutUnclosedPair(s: seq<Tok>, p: nat)
    requires p < |s| && s[p].Inb? && !IsClosed(s, p) && Unclosed(s, p + 1) < |s|
    ensures var v := Unclosed(s, p + 1); Cut(s, s[p := Char('{')][v := Char('{')], p, v)
  {
    var v := Unclosed(s, p + 1);
    forall k | p < k < v && s[k].Inb? ensures Close(s, k + 1, 0) < v { Before(s, k, v); }
  }

  /** Braces that are not closed become characters in pairs: the one from g on that does so
      together with one before g; the end of the string if there is none. */
  function Partner(s: seq<Tok>, p: nat, g: nat): (v: nat)
    requires p <= |s|
    ensures v <= |s| && (v < |s| ==> g <= v && s[v].Inb? && !IsClosed(s, v))
    decreases |s| - p
  {
    var u := Unclosed(s, p);
    if u >= g || u == |s| then |s|
    else
      var v := Unclosed(s, u + 1);
      if v >= g || v == |s| then v else Partner(s, v + 1, g)
  }

  /** That brace, or the end of a group from p up to g that has no comma of its own. */
  ghost predicate Stray(s: seq<Tok>, p: nat, g: nat, k: nat)
    requires p <= |s|
  {
    k < |s| && if s[k].Inb? then k == Partner(s, p, g)
      else exists h :: p <= h < g && IsClosed(s, h) && !IsGroup(s, h) && Close(s, h + 1, 0) == k
  }

  /** o is what there is to find from p on.  A group is found if and only if one opens
      before the scan gives up; it is the first one.  What is before it has become
      characters, it is as it was, and behind it the stray braces have become characters, so
      that the scan will give up where it would.  If none is found all has become characters
      up to where the scan gives up.  Nothing else has changed. */
  ghost predicate Finds(s: seq<Tok>, p: nat, o: Outcome)
    requires p <= |s|
  {
    hide GivesUp, HasComma, Close, Stray;
    var e := GivesUp(s, p);
    o.Done? && |o.s| == |s| && (forall k :: 0 <= k < p ==> o.s[k] == s[k]) &&
    if o.found then
      p <= o.at < e && IsGroup(s, o.at) && GivesUp(o.s, o.at) == e && (forall g :: p <= g < o.at ==> !IsGroup(s, g)) &&
      (forall k :: p <= k < o.at ==> o.s[k] == Literal(s[k])) &&
      (forall k :: o.at <= k <= Close(s, o.at + 1, 0) ==> o.s[k] == s[k]) &&
      forall k :: o.at <= k < |s| ==> o.s[k] == if Stray(s, p, o.at, k) then Literal(s[k]) else s[k]
    else
      (forall g :: p <= g < e ==> !IsGroup(s, g)) &&
      (forall k :: p <= k < e ==> o.s[k] == Literal(s[k])) && forall k :: e <= k < |s| ==> o.s[k] == s[k]
  }

  /** The stray braces of s are those of s1, and that at m. */
  ghost predicate StrayAs(s: seq<Tok>, s1: seq<Tok>, p: nat, m: nat)
    requires p < |s| == |s1|
  {
    forall g, k :: p < g <= k < |s| && g != m ==> (Stray(s, p, g, k) <==> k == m || Stray(s1, p + 1, g, k))
  }

  /** A scan of s1 finds for s what it finds for s1. */
  lemma FindsCut(s: seq<Tok>, s1: seq<Tok>, p: nat, m: nat, o: Outcome)
    requires Cut(s, s1, p, m) && s1[p] == Literal(s[p]) && s1[m] == Literal(s[m]) && Finds(s1, p + 1, o)
    requires (forall k :: 0 <= k < p ==> s1[k] == s[k]) && !IsGroup(s, p) && !IsGroup(s, m) && StrayAs(s, s1, p, m)
    requires GivesUp(s, p) == GivesUp(s1, p + 1) && (m > p ==> m < GivesUp(s, p))
    ensures Finds(s, p, o)
  {
    hide Close, HasComma, Unclosed, GivesUp, IsClosed, IsGroup, Stray;
    forall g | p < g && g != m
      ensures IsClosed(s1, g) == IsClosed(s, g) && IsGroup(s1, g) == IsGroup(s, g)
      ensures g < |s| && s[g].Inb? ==> Close(s1, g + 1, 0) == Close(s, g + 1, 0)
    { CutAt(s, s1, p, m, g); }
    if o.found {
      GroupClosed(s1, o.at);
      assert o.at != m;
      forall k | o.at <= k < |s| ensures o.s[k] == if Stray(s, p, o.at, k) then Literal(s[k]) else s[k] {
        assert Stray(s, p, o.at, k) <==> k == m || Stray(s1, p + 1, o.at, k);
      }
    }
  }

  /** The partners are the same, but for a pair at p and m. */
  ghost predicate Partners(s: seq<Tok>, s1: seq<Tok>, p: nat, m: nat)
    requires p < |s| == |s1|
  {
    forall g :: p < g && g != m ==>
      if p < m < |s| && s[m].Inb? && g <= m then Partner(s, p, g) == m && Partner(s1, p + 1, g) == |s|
      else Partner(s, p, g) == Partner(s1, p + 1, g)
  }

  lemma StrayStep(s: seq<Tok>, s1: seq<Tok>, p: nat, m: nat)
    requires Cut(s, s1, p, m) && Partners(s, s1, p, m) && !IsClosed(s, m) && !IsGroup(s, p)
    requires (IsClosed(s, p) ==> Close(s, p + 1, 0) == m) && (p < m && !s[m].Inb? ==> IsClosed(s, p))
    ensures StrayAs(s, s1, p, m)
  {
    hide Close, HasComma, Unclosed, IsGroup, IsClosed, Partner, Stray, Partners;
    forall g, k | p < g <= k < |s| && g != m
      ensures Stray(s, p, g, k) <==> k == m || Stray(s1, p + 1, g, k)
    {
      if k == m {
        StrayHere(s, s1, p, m, g);
      } else if s[k].Inb? {
        StrayBrace(s, s1, p, m, g, k);
      } else {
        StrayEnd(s, s1, p, m, g, k);
      }
    }
  }

  lemma StrayHere(s: seq<Tok>, s1: seq<Tok>, p: nat, m: nat, g: nat)
    requires p < g < m < |s| == |s1| && Partners(s, s1, p, m) && !IsGroup(s, p)
    requires (IsClosed(s, p) ==> Close(s, p + 1, 0) == m) && (!s[m].Inb? ==> IsClosed(s, p))
    ensures Stray(s, p, g, m)
  {
    hide Close, IsGroup, IsClosed, Partner;
  }

  lemma StrayBrace(s: seq<Tok>, s1: seq<Tok>, p: nat, m: nat, g: nat, k: nat)
    requires Cut(s, s1, p, m) && Partners(s, s1, p, m) && p < g <= k < |s| && g != m && k != m && s[k].Inb?
    ensures Stray(s, p, g, k) <==> Stray(s1, p + 1, g, k)
  {
    hide Close, IsGroup, IsClosed, Partner;
    assert s1[k] == s[k];
  }

  lemma StrayEnd(s: seq<Tok>, s1: seq<Tok>, p: nat, m: nat, g: nat, k: nat)
    requires Cut(s, s1, p, m) && !IsClosed(s, m) && p < g <= k < |s| && g != m && k != m && !s[k].Inb?
    requires IsClosed(s, p) ==> Close(s, p + 1, 0) == m
    ensures Stray(s, p, g, k) <==> Stray(s1, p + 1, g, k)
  {
    hide Close, HasComma, Unclosed, IsGroup, Partner;
    assert s1[k] == s[k];
    forall h | p < h < g && h != m
      ensures IsClosed(s1, h) == IsClosed(s, h) && IsGroup(s1, h) == IsGroup(s, h)
      ensures IsClosed(s, h) ==> Close(s1, h + 1, 0) == Close(s, h + 1, 0)
    { CutAt(s, s1, p, m, h); }
  }

  lemma {:induction false} TailPartner(s: seq<Tok>, s1: seq<Tok>, q: nat, g: nat)
    requires Tails(s, q, s1, q)
    ensures q <= |s| == |s1| && Partner(s1, q, g) == Partner(s, q, g)
    decreases |s| - q
  {
    hide Unclosed, Tails, IsClosed;
    TailLength(s, q, s1, q);
    TailUnclosed(s, q, s1, q);
    var u := Unclosed(s, q);
    if u < |s| {
      TailOf(s, q, s1, q, u + 1 - q);
      TailUnclosed(s, u + 1, s1, u + 1);
      var v := Unclosed(s, u + 1);
      if v < |s| {
        TailOf(s, q, s1, q, v + 1 - q);
        TailPartner(s, s1, v + 1, g);
      }
    }
  }

  lemma PartnerBy(s: seq<Tok>, p: nat, q: nat, g: nat)
    requires p <= |s| && q <= |s| && Unclosed(s, p) == Unclosed(s, q)
    ensures Partner(s, p, g) == Partner(s, q, g)
  {
    hide Unclosed, IsClosed;
  }

  /** It ends here, or goes on with the next position in a string with one or two tokens
      fewer. */
  lemma {:induction false} ResultFinds(s: seq<Tok>, p: nat)
    requires p <= |s|
    ensures Finds(s, p, Result(s, p))
    decreases |s| - p
  {
    hide Close, HasComma, Unclosed, GivesUp, Finds, NoTokens;
    if p == |s| {
      Nothing(s);
    } else {
      var s1, m := s[p := Literal(s[p])], p;
      if !s[p].Inb? || (!IsClosed(s, p) && Unclosed(s, p + 1) == |s|) {
        OneStep(s, p);
      } else if IsGroup(s, p) {
        Here(s, p);
        return;
      } else if IsClosed(s, p) {
        m := Close(s, p + 1, 0);
        s1 := s1[m := Char('}')];
        ClosedStep(s, p);
      } else {
        m := Unclosed(s, p + 1);
        s1 := s1[m := Char('{')];
        if NoTokens(s, p + 1, m) {
          Stops(s, p);
          return;
        }
        PairStep(s, p);
      }
      ResultFinds(s1, p + 1);
      assert Result(s, p) == Result(s1, p + 1);
      FindsCut(s, s1, p, m, Result(s1, p + 1));
    }
  }

  lemma Nothing(s: seq<Tok>)
    ensures Finds(s, |s|, Done(false, s, -1))
  {}

  lemma OneStep(s: seq<Tok>, p: nat)
    requires p < |s| && (s[p].Inb? ==> !IsClosed(s, p) && Unclosed(s, p + 1) == |s|)
    ensures var s1 := s[p := Literal(s[p])];
      Cut(s, s1, p, p) && !IsGroup(s, p) && GivesUp(s, p) == GivesUp(s1, p + 1) && (s[p].Char? ==> s1 == s) &&
      StrayAs(s, s1, p, p)
  {
    hide Close, HasComma, Unclosed, GivesUp, StrayAs, Partners;
    var s1 := s[p := Literal(s[p])];
    TailGivesUp(s, p + 1, s1, p + 1);
    TailUnclosed(s, p + 1, s1, p + 1);
    if s[p].Inb? { LastUnclosed(s, p); } else { NextUnclosedFrom(s, p); GivesUpBy(s, p, p + 1); }
    OnePartner(s, p);
    StrayStep(s, s1, p, p);
  }

  lemma OnePartner(s: seq<Tok>, p: nat)
    requires p < |s| && (s[p].Inb? ==> !IsClosed(s, p) && Unclosed(s, p + 1) == |s|)
    ensures Partners(s, s[p := Literal(s[p])], p, p)
  {
    hide Unclosed, IsClosed;
    var s1 := s[p := Literal(s[p])];
    NextUnclosedFrom(s, p);
    forall g | p < g ensures Partner(s, p, g) == Partner(s1, p + 1, g) {
      TailPartner(s, s1, p + 1, g);
      if !s[p].Inb? { PartnerBy(s, p, p + 1, g); }
    }
  }

  lemma ClosedStep(s: seq<Tok>, p: nat)
    requires IsClosed(s, p)
    ensures var c := Close(s, p + 1, 0); var s1 := s[p := Char('{')][c := Char('}')];
      Cut(s, s1, p, c) && !IsGroup(s, c) && GivesUp(s, p) == GivesUp(s1, p + 1) && c < GivesUp(s, p) &&
      (!IsGroup(s, p) ==> StrayAs(s, s1, p, c))
  {
    hide Close, HasComma, Unclosed, GivesUp, StrayAs, Partners;
    var c := Close(s, p + 1, 0);
    var s1 := s[p := Char('{')][c := Char('}')];
    CutClosed(s, p);
    CutUnclosed(s, s1, p, c);
    ClosedPartner(s, p);
    if !IsGroup(s, p) { StrayStep(s, s1, p, c); }
  }

  lemma ClosedPartner(s: seq<Tok>, p: nat)
    requires IsClosed(s, p)
    ensures var c := Close(s, p + 1, 0); c < |s| && Partners(s, s[p := Char('{')][c := Char('}')], p, c)
  {
    hide Close, Unclosed, Partner, Cut, GivesUp, HasComma, IsClosed;
    ClosedShort(s, p);
    var c := Close(s, p + 1, 0);
    var s1 := s[p := Char('{')][c := Char('}')];
    CutClosed(s, p);
    GroupStep(s, p);
    UnclosedInside(s, p + 1, 0);
    forall g | p < g ensures Partner(s, p, g) == Partner(s1, p + 1, g) {
      PartnerBy(s, p, c + 1, g);
      CutPartner(s, s1, p, c, g);
    }
  }

  lemma ClosedShort(s: seq<Tok>, p: nat)
    requires IsClosed(s, p)
    ensures p < |s| && p < Close(s, p + 1, 0) < |s| && s[p].Inb? && s[Close(s, p + 1, 0)].Outb?
  {}

  lemma CutPartner(s: seq<Tok>, s1: seq<Tok>, p: nat, m: nat, g: nat)
    requires Cut(s, s1, p, m)
    ensures |s| == |s1| && m < |s| && p < |s| && Partner(s1, p + 1, g) == Partner(s, m + 1, g)
    ensures Unclosed(s1, p + 1) == Unclosed(s, m + 1)
  {
    hide Unclosed, Partner, Cut, Tails, GivesUp, IsClosed;
    CutTail(s, s1, p, m);
    CutUnclosed(s, s1, p, m);
    TailUnclosed(s, m + 1, s1, m + 1);
    TailPartner(s, s1, m + 1, g);
    PartnerBy(s1, p + 1, m + 1, g);
  }

  lemma Here(s: seq<Tok>, p: nat)
    requires IsGroup(s, p)
    ensures Finds(s, p, Done(true, s, p))
  {
    hide Close, HasComma, Unclosed, GivesUp;
    ClosedStep(s, p);
  }

  lemma PairStep(s: seq<Tok>, p: nat)
    requires p < |s| && s[p].Inb? && !IsClosed(s, p) && Unclosed(s, p + 1) < |s|
    ensures var v := Unclosed(s, p + 1); var s1 := s[p := Char('{')][v := Char('{')];
      Cut(s, s1, p, v) && !IsGroup(s, v) && !IsGroup(s, p) && StrayAs(s, s1, p, v) && v < GivesUp(s, p) &&
      GivesUp(s, p) == if NoTokens(s, p + 1, v) then v + 1 else GivesUp(s1, p + 1)
  {
    hide Close, HasComma, Unclosed, NoTokens, GivesUp, StrayAs, Partners;
    var v := Unclosed(s, p + 1);
    var s1 := s[p := Char('{')][v := Char('{')];
    CutUnclosedPair(s, p);
    CutUnclosed(s, s1, p, v);
    GivesUpPair(s, p);
    PairPartner(s, p);
    StrayStep(s, s1, p, v);
  }

  lemma PairPartner(s: seq<Tok>, p: nat)
    requires p < |s| && s[p].Inb? && !IsClosed(s, p) && Unclosed(s, p + 1) < |s|
    ensures var v := Unclosed(s, p + 1); Partners(s, s[p := Char('{')][v := Char('{')], p, v)
  {
    hide Close, Unclosed, IsClosed, Partner, Cut;
    var v := Unclosed(s, p + 1);
    var s1 := s[p := Char('{')][v := Char('{')];
    NextUnclosedFrom(s, p);
    CutUnclosedPair(s, p);
    forall g | p < g && g != v
      ensures if g <= v then Partner(s, p, g) == v && Partner(s1, p + 1, g) == |s|
              else Partner(s, p, g) == Partner(s1, p + 1, g)
    {
      CutPartner(s, s1, p, v, g);
      PairIs(s, p, v, g);
      if g <= v { PartnerNone(s1, p + 1, g); }
    }
  }

  lemma PairIs(s: seq<Tok>, p: nat, v: nat, g: nat)
    requires p < g && p < |s| && Unclosed(s, p) == p && Unclosed(s, p + 1) == v < |s|
    ensures Partner(s, p, g) == if v >= g then v else Partner(s, v + 1, g)
  {
    hide Unclosed, IsClosed;
  }

  lemma PartnerNone(s: seq<Tok>, p: nat, g: nat)
    requires p <= |s| && Unclosed(s, p) >= g
    ensures Partner(s, p, g) == |s|
  {
    hide Unclosed, IsClosed;
  }

  lemma Stops(s: seq<Tok>, p: nat)
    requires p < |s| && s[p].Inb? && !IsClosed(s, p) && Unclosed(s, p + 1) < |s| &&
      NoTokens(s, p + 1, Unclosed(s, p + 1))
    ensures Finds(s, p, Done(false, s[p := Char('{')][Unclosed(s, p + 1) := Char('{')], -1))
  {
    hide Close, HasComma, Unclosed, GivesUp, IsClosed, IsGroup, Cut;
    var v := Unclosed(s, p + 1);
    PairStep(s, p);
    forall g | p <= g < v + 1 ensures !IsGroup(s, g) {
      if IsGroup(s, g) { GroupClosed(s, g); }
    }
  }

  /** What hasbraces finds in a string, and what it leaves of the string. */
  lemma HasbracesFinds(s: seq<Tok>)
    ensures Finds(s, 0, Hasbraces(Top(s, 0)))
  {
    hide Hasbraces, Finds, Result;
    ScanIs(s, 0);
    ResultFinds(s, 0);
  }

  /** A group is found if and only if one opens before the scan gives up. */
  lemma FoundExactly(s: seq<Tok>)
    ensures Hasbraces(Top(s, 0)).found <==> exists g :: 0 <= g < GivesUp(s, 0) && IsGroup(s, g)
  {
    hide Hasbraces, GivesUp, IsGroup, Stray;
    HasbracesFinds(s);
  }

  /** The group that is found is the first thing in braces that is left. */
  lemma FoundGroup(s: seq<Tok>)
    ensures var o := Hasbraces(Top(s, 0)); o.found ==> GroupAt(o.s, o.at)
  {
    hide Hasbraces, GivesUp, Stray, Pieces, Close, HasComma;
    HasbracesFinds(s);
    var o := Hasbraces(Top(s, 0));
    if o.found {
      SameInside(s, o.at + 1, o.s, o.at + 1, 0);
      PiecesComma(s, o.at + 1, 0);
    }
  }

  /** hasbraces changes nothing but that it makes tokens characters. */
  lemma HasbracesLoosens(s: seq<Tok>)
    ensures Loosened(s, Hasbraces(Top(s, 0)).s)
  {
    hide Hasbraces, GivesUp, IsGroup, Stray, Close;
    HasbracesFinds(s);
  }

  /** hasbraces: is there a group to expand?  Braces and commas that belong to none
      are made characters. */
  method HasBraces(str: seq<Tok>) returns (found: bool, s: seq<Tok>, ghost at: int)
    ensures found <==> exists g :: 0 <= g < GivesUp(str, 0) && IsGroup(str, g)
    ensures Finds(str, 0, Done(found, s, at)) && Loosened(str, s) && (found ==> GroupAt(s, at))
    ensures Done(found, s, at) == Hasbraces(Top(str, 0))
  {
    FoundExactly(str);
    HasbracesFinds(str);
    HasbracesLoosens(str);
    FoundGroup(str);
    hide Finds, Loosened, GroupAt, GivesUp, IsGroup;
    found, s, at := Scanned(str);
  }

  /** The loop. */
  method Scanned(str: seq<Tok>) returns (found: bool, s: seq<Tok>, ghost at: int)
    ensures Done(found, s, at) == Hasbraces(Top(str, 0))
  {
    s, found := str, false;
    var p: nat := 0;
    var lbr, mbr, comma := -1, -1, -1;
    ghost var o := Hasbraces(Scan(str, 0, -1, -1, -1));
    while !found
      invariant !found ==> Fits(Scan(s, p, lbr, mbr, comma)) && Hasbraces(Scan(s, p, lbr, mbr, comma)) == o
      invariant found ==> o.found && s == o.s && lbr == o.at
      decreases !found, Opens(s), |s| - p
    {
      hide Opens, Close, Hasbraces, Next;
      Turn(Scan(s, p, lbr, mbr, comma));
      if p == |s| {
        var done;
        done, s, p := AtEnd(s, lbr, mbr, comma);
        if done { return false, s, -1; }
        lbr, mbr, comma := -1, -1, -1;
      } else {
        found, s, p, lbr, mbr, comma := OneTurn(s, p, lbr, mbr, comma);
      }
    }
    at := lbr;
  }

  const AB := [Char('a'), Com, Char('b'), Outb]

  /** {{{a,b} is not expanded, although {{a,b} is: behind two braces that are not closed
      nothing is looked at. */
  lemma TwoUnclosed()
    ensures var s := [Inb, Inb, Inb] + AB; IsGroup(s, 2) && GivesUp(s, 0) == 2 && !Hasbraces(Top(s, 0)).found
    ensures var s := [Inb, Inb] + AB; var o := Hasbraces(Top(s, 0)); o.found && o.at == 1
  {
    hide Hasbraces;
    var s, t := [Inb, Inb, Inb] + AB, [Inb, Inb] + AB;
    LastGroup(s, 2);
    LastGroup(t, 1);
    assert Close(s, 2, 0) == Close(s, 3, 1) && Close(s, 1, 0) == Close(s, 3, 2) && Close(t, 1, 0) == Close(t, 2, 1);
    assert Unclosed(s, 0) == 0 && Unclosed(s, 1) == 1 && Unclosed(t, 0) == 0;
    assert Unclosed(t, 1) == Unclosed(t, 2) == Unclosed(t, 3) == |t|;
    FoundExactly(s);
    FoundExactly(t);
    HasbracesFinds(t);
  }

  lemma CloseOver(s: seq<Tok>, i: nat, depth: nat)
    requires i + 3 <= |s| && forall k :: i <= k < i + 3 ==> !s[k].Inb? && !s[k].Outb?
    ensures Close(s, i, depth) == Close(s, i + 3, depth)
  {
    assert Close(s, i, depth) == Close(s, i + 1, depth) == Close(s, i + 2, depth);
  }

  /** A group {a,b} at the end of s. */
  lemma LastGroup(s: seq<Tok>, g: nat)
    requires g + 5 == |s| && s[g..] == [Inb] + AB
    ensures IsGroup(s, g) && Close(s, g + 1, 1) == Close(s, g + 1, 2) == |s| && Close(s, g + 1, 0) == |s| - 1
    ensures Unclosed(s, g) == |s|
  {
    var t := [Inb] + AB;
    assert forall k :: 0 <= k < 5 ==> s[g..][k] == s[g + k];
    assert s[g] == t[0] && s[g + 1] == t[1] && s[g + 2] == t[2] && s[g + 3] == t[3] && s[g + 4] == t[4];
    CloseOver(s, g + 1, 0);
    CloseOver(s, g + 1, 1);
    CloseOver(s, g + 1, 2);
    assert Close(s, g + 4, 0) == g + 4 && Close(s, g + 4, 1) == Close(s, g + 4, 2) == |s|;
    assert HasComma(s, g + 2, 0);
  }

  /** A group without a comma is passed: {a}{a,b} has its group at 3. */
  lemma AfterCommaless()
    ensures var s := [Inb, Char('a'), Outb, Inb] + AB; var o := Hasbraces(Top(s, 0)); o.found && o.at == 3
  {
    var s := [Inb, Char('a'), Outb, Inb] + AB;
    hide Hasbraces;
    LastGroup(s, 3);
    assert Close(s, 1, 0) == Close(s, 2, 0) == 2;
    assert !HasComma(s, 1, 0) by { assert !HasComma(s, 2, 0); }
    assert Unclosed(s, 0) == Unclosed(s, 1) == Unclosed(s, 2) == Unclosed(s, 3);
    HasbracesFinds(s);
    FoundExactly(s);
  }
}
