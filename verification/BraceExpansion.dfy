/** hasbraces and xpandbraces of Src/glob.c, and the loop of prefork in Src/subst.c
    that applies them.  Numeric ranges {n..m} and BRACECCL are not part of this
    model. */
module BraceExpansion {
  import opened BraceWords

  /** A token as a character. */
  function Literal(t: Tok): Tok {
    match t
    case Char(c) => t
    case Inb => Char('{')
    case Outb => Char('}')
    case Com => Char(',')
  }

  /** Some tokens have become characters. */
  ghost predicate Loosened(s: seq<Tok>, s': seq<Tok>) {
    |s'| == |s| && forall i :: 0 <= i < |s| ==> s'[i] == s[i] || s'[i] == Literal(s[i])
  }

  function Opens(s: seq<Tok>): nat {
    if s == [] then 0 else Opens(s[..|s| - 1]) + if s[|s| - 1].Inb? then 1 else 0
  }

  /** The end of the group that is open `depth` times more at i; |s| if there is none. */
  function Close(s: seq<Tok>, i: nat, depth: nat): (j: nat)
    requires i <= |s|
    ensures i <= j <= |s| && (j < |s| ==> s[j].Outb?)
    decreases |s| - i
  {
    if i == |s| then i
    else if s[i].Inb? then Close(s, i + 1, depth + 1)
    else if s[i].Outb? then if depth == 0 then i else Close(s, i + 1, depth - 1)
    else Close(s, i + 1, depth)
  }

  /** The pieces between the commas of the group, from i to its end. */
  function Pieces(s: seq<Tok>, i: nat, depth: nat): (r: seq<seq<Tok>>)
    requires i <= |s|
    ensures r != []
    decreases |s| - i
  {
    if i == |s| || (depth == 0 && s[i].Outb?) then [[]]
    else if depth == 0 && s[i].Com? then [[]] + Pieces(s, i + 1, 0)
    else
      var more := Pieces(s, i + 1, if s[i].Inb? then depth + 1 else if s[i].Outb? then depth - 1 else depth);
      [[s[i]] + more[0]] + more[1..]
  }

  // ----- Printed words -----

  /** u stands in s from i on. */
  ghost predicate Placed(s: seq<Tok>, i: nat, u: seq<Tok>) {
    i + |u| <= |s| && forall k :: 0 <= k < |u| ==> s[i + k] == u[k]
  }

  lemma PlacedPlus(s: seq<Tok>, i: nat, a: seq<Tok>, b: seq<Tok>)
    requires Placed(s, i, a + b)
    ensures Placed(s, i, a) && Placed(s, i + |a|, b)
  {
    var u := a + b;
    forall k | 0 <= k < |a| ensures s[i + k] == a[k] { assert u[k] == a[k]; }
    forall k | 0 <= k < |b| ensures s[i + |a| + k] == b[k] { assert u[|a| + k] == b[k]; }
  }

  lemma PlacedOne(s: seq<Tok>, i: nat, t: Tok, b: seq<Tok>)
    requires Placed(s, i, [t] + b)
    ensures i < |s| && s[i] == t && Placed(s, i + 1, b)
  {
    PlacedPlus(s, i, [t], b);
    assert s[i + 0] == [t][0];
  }

  /** The other alternatives of a group, after one of them. */
  function Others(a: seq<Word>): seq<Tok> {
    if a == [] then [Outb] else [Com] + (Print(a[0]) + Others(a[1..]))
  }

  function ListOf(a: Alts): (r: seq<Word>)
    ensures r != [] && (a.More? ==> |r| >= 2)
    decreases a
  {
    match a
    case Last(w) => [w]
    case More(w, more) => [w] + ListOf(more)
  }

  lemma {:induction false} PrintAltsList(a: Alts)
    ensures PrintAlts(a) + [Outb] == Print(ListOf(a)[0]) + Others(ListOf(a)[1..])
    decreases a
  {
    match a
    case Last(w) =>
    case More(w, more) =>
      PrintAltsList(more);
      assert ListOf(a)[1..] == ListOf(more);
      assert PrintAlts(a) + [Outb] == Print(w) + ([Com] + (PrintAlts(more) + [Outb]));
  }

  /** A printed word is skipped as a whole. */
  lemma {:induction false} CloseWord(s: seq<Tok>, i: nat, depth: nat, w: Word)
    requires Placed(s, i, Print(w))
    ensures i + |Print(w)| <= |s| && Close(s, i, depth) == Close(s, i + |Print(w)|, depth)
    decreases w
  {
    match w
    case End =>
    case Chr(c, rest) =>
      PlacedOne(s, i, Char(c), Print(rest));
      CloseWord(s, i + 1, depth, rest);
    case Group(alts, rest) =>
      CloseGroup(s, i, alts, rest);
      CloseAlts(s, i + 1, depth + 1, alts);
      CloseWord(s, i + 2 + |PrintAlts(alts)|, depth, rest);
  }

  lemma CloseGroup(s: seq<Tok>, i: nat, alts: Alts, rest: Word)
    requires Placed(s, i, Print(Group(alts, rest)))
    ensures i < |s| && s[i] == Inb && Placed(s, i + 1, PrintAlts(alts))
    ensures var j := i + 1 + |PrintAlts(alts)|; j < |s| && s[j] == Outb && Placed(s, j + 1, Print(rest))
    ensures |Print(Group(alts, rest))| == 2 + |PrintAlts(alts)| + |Print(rest)|
  {
    var tail := PrintAlts(alts) + ([Outb] + Print(rest));
    assert Print(Group(alts, rest)) == [Inb] + tail;
    PlacedOne(s, i, Inb, tail);
    PlacedPlus(s, i + 1, PrintAlts(alts), [Outb] + Print(rest));
    PlacedOne(s, i + 1 + |PrintAlts(alts)|, Outb, Print(rest));
  }

  lemma {:induction false} CloseAlts(s: seq<Tok>, i: nat, depth: nat, a: Alts)
    requires Placed(s, i, PrintAlts(a))
    ensures i + |PrintAlts(a)| <= |s| && Close(s, i, depth) == Close(s, i + |PrintAlts(a)|, depth)
    decreases a
  {
    match a
    case Last(w) => CloseWord(s, i, depth, w);
    case More(w, more) =>
      assert PrintAlts(a) == Print(w) + ([Com] + PrintAlts(more));
      PlacedPlus(s, i, Print(w), [Com] + PrintAlts(more));
      CloseWord(s, i, depth, w);
      PlacedOne(s, i + |Print(w)|, Com, PrintAlts(more));
      CloseAlts(s, i + |Print(w)| + 1, depth, more);
  }

  // ----- hasbraces -----

  /** skipparens: past the end of the group that opens at p, or to the end of the string. */
  method Skipparens(s: seq<Tok>, p: nat) returns (q: nat, level: nat)
    requires p < |s| && s[p].Inb?
    ensures p < q <= |s| && (level == 0 <==> Close(s, p + 1, 0) < |s|) && (level == 0 ==> q == Close(s, p + 1, 0) + 1)
    ensures level > 0 ==> q == |s|
  {
    q, level := p + 1, 1;
    while q < |s| && level > 0
      invariant p < q <= |s|
      invariant if level > 0 then Close(s, p + 1, 0) == Close(s, q, level - 1) else Close(s, p + 1, 0) == q - 1
    {
      if s[q].Inb? { level := level + 1; } else if s[q].Outb? { level := level - 1; }
      q := q + 1;
    }
  }

  /** The state of hasbraces: the string, the position, and lbr, mbr and comma as
      positions, or -1 for NULL. */
  datatype Scan = Scan(s: seq<Tok>, p: nat, lbr: int, mbr: int, comma: int)
  datatype Outcome = Go(t: Scan) | Done(found: bool, s: seq<Tok>, at: int)

  predicate Fits(t: Scan) {
    t.p <= |t.s| && -1 <= t.lbr < t.p && -1 <= t.mbr < t.p && -1 <= t.comma < t.p &&
    (t.lbr >= 0 ==> t.s[t.lbr].Inb?) && (t.lbr < 0 ==> t.mbr < 0 && t.comma < 0)
  }

  /** Back to the first comma or inner brace, without an open brace. */
  function Back(s: seq<Tok>, p: nat, mbr: int, comma: int): Scan {
    var q: int := if comma >= 0 then comma else p;
    Scan(s, if 0 <= mbr < q then mbr else if q >= 0 then q else 0, -1, -1, -1)
  }

  /** One turn of the loop of hasbraces. */
  function Next(t: Scan): Outcome
    requires Fits(t)
  {
    var s, p := t.s, t.p;
    if p == |s| then
      var s1 := if t.lbr >= 0 then s[t.lbr := Char('{')] else s;
      if t.mbr < 0 && t.comma < 0 then Done(false, s1, -1) else Go(Back(s1, |s|, t.mbr, t.comma))
    else match s[p]
      case Inb =>
        if t.lbr < 0 then Go(t.(lbr := p, p := p + 1))
        else
          var c := Close(s, p + 1, 0);
          if c < |s| then Go(t.(p := c + 1, mbr := if t.mbr < 0 then p else t.mbr))
          else Go(Back(s[t.lbr := Char('{')][p := Char('{')], |s|, t.mbr, t.comma))
      case Outb =>
        if t.lbr < 0 then Go(t.(s := s[p := Char('}')], p := p + 1))
        else if t.comma >= 0 then Done(true, s, t.lbr)
        else Go(Scan(s[t.lbr := Char('{')][p := Char('}')], if t.mbr >= 0 then t.mbr else p + 1, -1, -1, -1))
      case Com =>
        if t.lbr < 0 then Go(t.(s := s[p := Char(',')], p := p + 1))
        else Go(t.(p := p + 1, comma := if t.comma < 0 then p else t.comma))
      case Char(_) => Go(t.(p := p + 1))
  }

  lemma {:induction false} OpensSet(s: seq<Tok>, i: nat, t: Tok)
    requires i < |s| && !t.Inb?
    ensures Opens(s[i := t]) == Opens(s) - if s[i].Inb? then 1 else 0
    ensures s[i].Inb? ==> Opens(s) > 0
  {
    var n := |s| - 1;
    if i < n {
      OpensSet(s[..n], i, t);
      assert s[i := t][..n] == s[..n][i := t];
    } else {
      assert s[i := t][..n] == s[..n];
    }
  }

  /** Each turn goes on in the string, or makes an open brace a character. */
  lemma NextProgress(t: Scan)
    requires Fits(t)
    ensures Next(t).Go? ==>
      var t' := Next(t).t;
        Fits(t') &&
        (Opens(t'.s) < Opens(t.s) || (Opens(t'.s) == Opens(t.s) && |t'.s| - t'.p < |t.s| - t.p))
  {
    hide Opens, Close;
    var s, p := t.s, t.p;
    if t.lbr >= 0 { OpensSet(s, t.lbr, Char('{')); }
    if p < |s| {
      OpensSet(s, p, Literal(s[p]));
      if t.lbr >= 0 { OpensSet(s[t.lbr := Char('{')], p, Literal(s[p])); }
    }
  }

  /** hasbraces, from a state on. */
  function Hasbraces(t: Scan): (o: Outcome)
    requires Fits(t)
    ensures o.Done?
    decreases Opens(t.s), |t.s| - t.p
  {
    var o := Next(t);
    if o.Done? then o else NextProgress(t); Hasbraces(o.t)
  }

  lemma Turn(t: Scan)
    requires Fits(t)
    ensures Next(t).Go? ==> Fits(Next(t).t) && Hasbraces(t) == Hasbraces(Next(t).t)
    ensures Next(t).Done? ==> Hasbraces(t) == Next(t)
    ensures Next(t).Go? ==>
      var t' := Next(t).t; Opens(t'.s) < Opens(t.s) || (Opens(t'.s) == Opens(t.s) && |t'.s| - t'.p < |t.s| - t.p)
  {
    hide Next, Opens;
    NextProgress(t);
  }

  /** The first comma or inner brace, if there is one. */
  method GoBack(ghost s: seq<Tok>, p: nat, mbr: int, comma: int) returns (q: nat)
    ensures Scan(s, q, -1, -1, -1) == Back(s, p, mbr, comma)
  {
    q := p;
    if comma >= 0 { q := comma; }
    if 0 <= mbr < q { q := mbr; }
  }

  /** At the end of the string. */
  method AtEnd(s: seq<Tok>, lbr: int, mbr: int, comma: int) returns (done: bool, r: seq<Tok>, p: nat)
    requires Fits(Scan(s, |s|, lbr, mbr, comma))
    ensures Next(Scan(s, |s|, lbr, mbr, comma)) == if done then Done(false, r, -1) else Go(Scan(r, p, -1, -1, -1))
  {
    r, p, done := s, |s|, mbr < 0 && comma < 0;
    if lbr >= 0 { r := s[lbr := Char('{')]; }
    p := GoBack(r, p, mbr, comma);
  }

  /** One turn of the loop, within the string. */
  method OneTurn(str: seq<Tok>, at: nat, open: int, inner: int, com: int)
    returns (found: bool, s: seq<Tok>, p: nat, lbr: int, mbr: int, comma: int)
    requires at < |str| && Fits(Scan(str, at, open, inner, com))
    ensures Next(Scan(str, at, open, inner, com)) == if found then Done(true, s, lbr)
      else Go(Scan(s, p, lbr, mbr, comma))
  {
    hide Close, Back;
    found, s, p, lbr, mbr, comma := false, str, at, open, inner, com;
    match s[p]
    case Inb =>
      if lbr < 0 {
        lbr := p;
        p := p + 1;
      } else {
        var q, level := Skipparens(s, p);
        if level > 0 {
          s := s[lbr := Char('{')][p := Char('{')];
          p := GoBack(s, q, mbr, comma);
          lbr, mbr, comma := -1, -1, -1;
        } else {
          if mbr < 0 { mbr := p; }
          p := q;
        }
      }
    case Outb =>
      if lbr < 0 {
        s := s[p := Char('}')];
        p := p + 1;
      } else if comma >= 0 {
        found := true;
      } else {
        s := s[lbr := Char('{')][p := Char('}')];
        p := if mbr >= 0 then mbr else p + 1;
        lbr, mbr := -1, -1;
      }
    case Com =>
      if lbr < 0 { s := s[p := Char(',')]; } else if comma < 0 { comma := p; }
      p := p + 1;
    case Char(_) => p := p + 1;
  }

  // ----- Groups -----

  ghost predicate NoOpen(s: seq<Tok>, i: int, j: int) {
    forall k :: i <= k < j && 0 <= k < |s| ==> !s[k].Inb?
  }

  /** There is a group at `at`, the first open brace, with a comma of its own. */
  ghost predicate GroupAt(s: seq<Tok>, at: int) {
    0 <= at < |s| && s[at].Inb? && NoOpen(s, 0, at) && Close(s, at + 1, 0) < |s| && |Pieces(s, at + 1, 0)| >= 2
  }

  lemma {:induction false} CloseSkip(s: seq<Tok>, i: nat, depth: nat)
    requires i <= |s| && depth >= 1 && Close(s, i, depth - 1) < |s|
    ensures Close(s, i, depth) == Close(s, Close(s, i, depth - 1) + 1, 0)
    decreases |s| - i
  {
    if s[i].Inb? {
      CloseSkip(s, i + 1, depth + 1);
    } else if s[i].Outb? {
      if depth > 1 { CloseSkip(s, i + 1, depth - 1); }
    } else {
      CloseSkip(s, i + 1, depth);
    }
  }

  lemma PlacedList(s: seq<Tok>, p: nat, alts: Alts)
    requires Placed(s, p, PrintAlts(alts)) && p + |PrintAlts(alts)| < |s| && s[p + |PrintAlts(alts)|] == Outb
    ensures Placed(s, p, Print(ListOf(alts)[0]) + Others(ListOf(alts)[1..]))
  {
    PrintAltsList(alts);
    var u := PrintAlts(alts) + [Outb];
    forall k | 0 <= k < |u| ensures s[p + k] == u[k] {}
  }

  lemma CloseInner(s: seq<Tok>, p: nat, alts: Alts, rest: Word)
    requires Placed(s, p, Print(Group(alts, rest)))
    ensures var j := p + 1 + |PrintAlts(alts)|;
            j < |s| && s[p] == Inb && Close(s, p + 1, 0) == j && Placed(s, j + 1, Print(rest)) &&
            |Print(Group(alts, rest))| == 2 + |PrintAlts(alts)| + |Print(rest)|
  {
    hide Print, PrintAlts, Placed;
    CloseGroup(s, p, alts, rest);
    CloseAlts(s, p + 1, 0, alts);
  }
}
