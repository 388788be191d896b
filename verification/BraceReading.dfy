/** The word that an arbitrary string of tokens is for brace expansion: the groups that
    hasbraces of Src/glob.c finds are groups, and all else is characters.  What hasbraces
    makes characters does not change it, and xpandbraces makes its choices of it. */
module BraceReading {
  import opened BraceWords
  import opened BraceExpansion
  import opened BraceGroups
  import opened BraceFound
  import opened BracePrefork

  function Letter(t: Tok): char {
    match t
    case Char(c) => c
    case Inb => '{'
    case Outb => '}'
    case Com => ','
  }

  /** The word s[i..], if the scan does not give up in it: closed groups with a comma of
      their own, and characters. */
  function Read(s: seq<Tok>, i: nat): (w: Word)
    requires i <= |s|
    ensures Proper(w)
    decreases |s| - i, 0
  {
    if i == |s| then End
    else if IsGroup(s, i) then
      var c := Close(s, i + 1, 0);
      PiecesAre(s, i + 1, 0);
      PiecesComma(s, i + 1, 0);
      Group(ReadAlts(Pieces(s, i + 1, 0)), Read(s, c + 1))
    else Chr(Letter(s[i]), Read(s, i + 1))
  }

  function ReadAlts(ps: seq<seq<Tok>>): (a: Alts)
    requires ps != []
    ensures ProperAlts(a) && (a.More? <==> |ps| >= 2)
    decreases |Join(ps)|, 1
  {
    if |ps| == 1 then Last(Read(ps[0], 0)) else More(Read(ps[0], 0), ReadAlts(ps[1..]))
  }

  /** As characters. */
  function Literals(s: seq<Tok>): (r: seq<Tok>)
    ensures |r| == |s| && forall k :: 0 <= k < |s| ==> r[k] == Literal(s[k])
  {
    if s == [] then [] else Literals(s[..|s| - 1]) + [Literal(s[|s| - 1])]
  }

  /** From e on characters. */
  function CutOff(s: seq<Tok>, e: nat): (r: seq<Tok>)
    requires e <= |s|
    ensures |r| == |s| && forall k :: 0 <= k < |s| ==> r[k] == if k < e then s[k] else Literal(s[k])
  {
    s[..e] + Literals(s[e..])
  }

  /** Where the scan gives up the rest is characters. */
  function Tame(s: seq<Tok>): (r: seq<Tok>)
    ensures |r| == |s|
    ensures forall k :: 0 <= k < |s| ==> r[k] == if k < GivesUp(s, 0) then s[k] else Literal(s[k])
  {
    hide GivesUp;
    CutOff(s, GivesUp(s, 0))
  }

  function Reading(s: seq<Tok>): (w: Word)
    ensures Proper(w)
  {
    Read(Tame(s), 0)
  }

  // ----- Where a word is read does not matter -----

  lemma {:induction false} ReadTail(s: seq<Tok>, i: nat, t: seq<Tok>, j: nat)
    requires Tails(s, i, t, j)
    ensures Read(s, i) == Read(t, j)
    decreases |s| - i
  {
    hide Close, Pieces, IsGroup, IsClosed;
    if i < |s| {
      TailGroup(s, i, t, j);
      if IsGroup(s, i) {
        GroupClosed(s, i);
        CloseIn(s, i);
        ReadTail(s, Close(s, i + 1, 0) + 1, t, Close(t, j + 1, 0) + 1);
      } else {
        ReadTail(s, i + 1, t, j + 1);
      }
    }
  }

  lemma CloseIn(s: seq<Tok>, i: nat)
    requires IsClosed(s, i)
    ensures i < Close(s, i + 1, 0) < |s| && s[i].Inb?
  {}

  // ----- A word in parts -----

  function Letters(u: seq<Tok>): (w: Word)
    ensures IsChars(w)
  {
    if u == [] then End else Chr(Letter(u[0]), Letters(u[1..]))
  }

  /** What is before the first group is characters. */
  lemma {:induction false} CharsTo(x: seq<Tok>, i: nat, g: nat)
    requires i <= g <= |x| && forall k :: i <= k < g ==> !IsGroup(x, k)
    ensures Read(x, i) == Append(Letters(x[i..g]), Read(x, g))
    decreases g - i
  {
    hide Close, Pieces, IsGroup;
    if i < g {
      CharsTo(x, i + 1, g);
      assert x[i..g][1..] == x[i + 1..g];
    }
  }

  lemma InPrefix(y: seq<Tok>, i: nat, m: nat)
    requires i < m <= |y| && (y[i].Inb? ==> Close(y, i + 1, 0) < m)
    ensures IsGroup(y[..m], i) == IsGroup(y, i) && (y[i].Inb? ==> IsClosed(y, i) && IsClosed(y[..m], i))
    ensures y[i].Inb? ==>
      Close(y[..m], i + 1, 0) == Close(y, i + 1, 0) && Pieces(y[..m], i + 1, 0) == Pieces(y, i + 1, 0)
  {
    hide Close, Pieces, HasComma;
    if y[i].Inb? { SameInside(y, i + 1, y[..m], i + 1, 0); }
  }

  lemma {:induction false} Over(y: seq<Tok>, i: nat, m: nat)
    requires i <= m && Even(y, i, m)
    ensures Read(y, i) == Append(Read(y[..m], i), Read(y, m))
    decreases m - i
  {
    hide Close, Pieces, IsGroup, IsClosed;
    if i < m {
      InPrefix(y, i, m);
      if IsGroup(y, i) {
        GroupClosed(y, i);
        Over(y, Close(y, i + 1, 0) + 1, m);
      } else {
        Over(y, i + 1, m);
      }
    }
  }

  /** The characters that the tokens are, tokens that are left among them. */
  function Spelled(u: seq<Tok>): (r: string)
    ensures |r| == |u| && forall k :: 0 <= k < |u| ==> r[k] == Letter(u[k])
  {
    if u == [] then "" else [Letter(u[0])] + Spelled(u[1..])
  }

  // ----- What hasbraces makes characters -----

  /** A token from i on that is no part of a group from i on. */
  ghost predicate Loose(x: seq<Tok>, i: nat, k: nat) {
    k < |x| && if x[k].Inb? then !IsClosed(x, k)
      else exists h :: 0 <= h < i && IsClosed(x, h) && Close(x, h + 1, 0) == k
  }

  ghost predicate LooseOnly(x: seq<Tok>, x': seq<Tok>, i: nat) {
    i <= |x| == |x'| && forall k :: i <= k < |x| ==> x'[k] == x[k] || (x'[k] == Literal(x[k]) && Loose(x, i, k))
  }

  lemma NotLoose(x: seq<Tok>, i: nat, k: nat)
    requires IsClosed(x, i) && i <= k <= Close(x, i + 1, 0)
    ensures !Loose(x, i, k)
  {
    InnerCloses(x, i + 1, 0);
    hide Close, IsClosed;
    if Loose(x, i, k) {
      if x[k].Inb? {
        CloseIn(x, i);
        ClosedIf(x, k);
      } else {
        var h :| 0 <= h < i && IsClosed(x, h) && Close(x, h + 1, 0) == k;
        CloseIn(x, i);
        CloseIn(x, h);
        InnerCloses(x, h + 1, 0);
      }
    }
  }

  lemma ClosedIf(x: seq<Tok>, k: nat)
    requires k < |x| && x[k].Inb?
    ensures IsClosed(x, k) <==> Close(x, k + 1, 0) < |x|
  {}

  /** Within a group nothing has changed. */
  lemma GroupKept(x: seq<Tok>, x': seq<Tok>, i: nat)
    requires LooseOnly(x, x', i) && IsClosed(x, i)
    ensures x'[i] == x[i] && Close(x', i + 1, 0) == Close(x, i + 1, 0) && IsGroup(x', i) == IsGroup(x, i)
    ensures Pieces(x', i + 1, 0) == Pieces(x, i + 1, 0)
  {
    hide Close, Loose, HasComma, Pieces;
    var c := Close(x, i + 1, 0);
    forall k | i <= k < c + 1 ensures x'[k] == x[k] { NotLoose(x, i, k); }
    SameInside(x, i + 1, x', i + 1, 0);
  }

  /** A brace that is not closed is not closed when tokens have become characters. */
  lemma {:induction false} StaysUnclosed(x: seq<Tok>, x': seq<Tok>, i: nat, from: nat, depth: nat)
    requires from <= i <= |x| && LooseOnly(x, x', from) && Close(x, i, depth) == |x|
    ensures Close(x', i, depth) == |x|
    decreases |x| - i
  {
    if i < |x| {
      var d := if x[i].Inb? then depth + 1 else if x[i].Outb? then depth - 1 else depth;
      if x'[i] == x[i] {
        StaysUnclosed(x, x', i + 1, from, d);
      } else {
        if Close(x, i + 1, depth) < |x| {
          if x[i].Inb? { CloseLess(x, i + 1, 0, depth); } else if x[i].Outb? { CloseLess(x, i + 1, depth - 1, depth); }
        }
        StaysUnclosed(x, x', i + 1, from, depth);
      }
    }
  }

  lemma LooseLater(x: seq<Tok>, x': seq<Tok>, i: nat, j: nat)
    requires LooseOnly(x, x', i) && i <= j <= |x|
    ensures LooseOnly(x, x', j)
  {
    hide IsClosed, Close;
  }

  lemma {:induction false} ReadLoosened(x: seq<Tok>, x': seq<Tok>, i: nat)
    requires LooseOnly(x, x', i)
    ensures Read(x', i) == Read(x, i)
    decreases |x| - i
  {
    hide Close, Pieces, IsGroup, IsClosed, LooseOnly;
    LooseHere(x, x', i);
    if i < |x| {
      if IsGroup(x, i) {
        GroupClosed(x, i);
        CloseIn(x, i);
        GroupKept(x, x', i);
        LooseLater(x, x', i, Close(x, i + 1, 0) + 1);
        ReadLoosened(x, x', Close(x, i + 1, 0) + 1);
      } else {
        StaysNoGroup(x, x', i);
        LooseLater(x, x', i, i + 1);
        ReadLoosened(x, x', i + 1);
      }
    }
  }

  lemma LooseHere(x: seq<Tok>, x': seq<Tok>, i: nat)
    requires LooseOnly(x, x', i)
    ensures i <= |x| == |x'| && (i < |x| ==> Letter(x'[i]) == Letter(x[i]) && (x'[i] == x[i] || !x'[i].Inb?))
  {}

  lemma StaysNoGroup(x: seq<Tok>, x': seq<Tok>, i: nat)
    requires LooseOnly(x, x', i) && i < |x| && !IsGroup(x, i)
    ensures !IsGroup(x', i)
  {
    hide Close, Pieces, LooseOnly, HasComma;
    LooseHere(x, x', i);
    if IsClosed(x, i) {
      GroupKept(x, x', i);
    } else if x[i].Inb? {
      StaysUnclosed(x, x', i + 1, i, 0);
    }
  }

  // ----- The word and the group that is found -----

  lemma TameAlike(s: seq<Tok>, i: nat, n: nat)
    requires i + n <= GivesUp(s, 0)
    ensures Alike(Tame(s), i, s, i, n) && Alike(s, i, Tame(s), i, n)
  {
    hide GivesUp, Tame;
  }

  lemma TameToken(s: seq<Tok>, k: nat)
    requires k < |s| && !Tame(s)[k].Char?
    ensures k < GivesUp(s, 0) && s[k] == Tame(s)[k]
  {
    hide GivesUp, Tame;
  }

  /** The groups before the scan gives up ... */
  lemma TameKeeps(s: seq<Tok>, k: nat)
    requires k < GivesUp(s, 0) && IsClosed(s, k)
    ensures IsClosed(Tame(s), k) && IsGroup(Tame(s), k) == IsGroup(s, k)
    ensures Close(Tame(s), k + 1, 0) == Close(s, k + 1, 0) < GivesUp(s, 0)
    ensures Pieces(Tame(s), k + 1, 0) == Pieces(s, k + 1, 0)
  {
    hide Close, HasComma, Pieces, GivesUp, Tame, Alike;
    ClosedBefore(s, k);
    TameAlike(s, k + 1, Close(s, k + 1, 0) - k);
    SameInside(s, k + 1, Tame(s), k + 1, 0);
  }

  /** ... and no others. */
  lemma TameOnly(s: seq<Tok>, k: nat)
    requires IsClosed(Tame(s), k)
    ensures k < GivesUp(s, 0) && IsClosed(s, k) && IsGroup(s, k) == IsGroup(Tame(s), k)
  {
    hide Close, HasComma, Pieces, GivesUp, Tame, IsGroup, IsClosed, Alike;
    var x := Tame(s);
    CloseIn(x, k);
    TameToken(s, Close(x, k + 1, 0));
    TameToken(s, k);
    TameAlike(s, k + 1, Close(x, k + 1, 0) - k);
    SameInside(x, k + 1, s, k + 1, 0);
    ClosedIf(s, k);
    GroupIf(s, k);
    GroupIf(x, k);
  }

  lemma ClosedBefore(s: seq<Tok>, k: nat)
    requires k < GivesUp(s, 0) && IsClosed(s, k)
    ensures Close(s, k + 1, 0) < GivesUp(s, 0)
  {
    hide GivesUp, Close;
    if GivesUp(s, 0) < |s| {
      GivesUpAt(s, 0);
      Before(s, k, GivesUp(s, 0) - 1);
    }
  }

  /** hasbraces leaves the word as it is. */
  lemma ReadingKept(s: seq<Tok>, o: Outcome)
    requires o.Done? && Finds(s, 0, o) && o.found
    ensures Reading(o.s) == Reading(s) && GivesUp(o.s, 0) == GivesUp(s, 0)
  {
    hide Close, HasComma, Pieces, GivesUp, IsClosed, IsGroup, Tame, Finds, LooseOnly;
    var g, x, x' := o.at, Tame(s), Tame(o.s);
    FoundKept(s, o);
    LooseBehind(s, o);
    TameKeeps(s, g);
    TameKeeps(o.s, g);
    FoundBefore(s, o);
    CharsTo(x, 0, g);
    CharsTo(x', 0, g);
    LettersSame(x[0..g], x'[0..g]);
    ReadLoosened(x, x', Close(s, g + 1, 0) + 1);
  }

  lemma FoundKept(s: seq<Tok>, o: Outcome)
    requires o.Done? && Finds(s, 0, o) && o.found
    ensures |o.s| == |s| && 0 <= o.at < GivesUp(s, 0) == GivesUp(o.s, 0) && IsGroup(s, o.at) && IsGroup(o.s, o.at)
    ensures IsClosed(s, o.at) && IsClosed(o.s, o.at)
    ensures Close(o.s, o.at + 1, 0) == Close(s, o.at + 1, 0) < |s|
    ensures Pieces(o.s, o.at + 1, 0) == Pieces(s, o.at + 1, 0)
  {
    hide Close, HasComma, Pieces, GivesUp, Stray, IsGroup, IsClosed, Finds, Even;
    FoundFacts(s, o);
    var g := o.at;
    GroupClosed(s, g);
    CloseIn(s, g);
    EvenGivesUp(o.s, 0, g);
    SameInside(s, g + 1, o.s, g + 1, 0);
    ClosedIf(o.s, g);
    GroupIf(o.s, g);
    GroupIf(s, g);
  }

  lemma FoundFacts(s: seq<Tok>, o: Outcome)
    requires o.Done? && Finds(s, 0, o) && o.found
    ensures |o.s| == |s| && 0 <= o.at < GivesUp(s, 0) && IsGroup(s, o.at) && o.at < |s| && o.s[o.at].Inb?
    ensures GivesUp(o.s, o.at) == GivesUp(s, 0) && Even(o.s, 0, o.at)
    ensures Alike(s, o.at + 1, o.s, o.at + 1, Close(s, o.at + 1, 0) - o.at)
  {
    hide Close, HasComma, GivesUp, Stray;
  }

  lemma GroupIf(s: seq<Tok>, g: nat)
    ensures IsGroup(s, g) <==> IsClosed(s, g) && HasComma(s, g + 1, 0)
  {}

  lemma FoundBefore(s: seq<Tok>, o: Outcome)
    requires o.Done? && Finds(s, 0, o) && o.found
    ensures 0 <= o.at <= |s| == |o.s|
    ensures forall k :: 0 <= k < o.at ==> !IsGroup(Tame(s), k) && !IsGroup(Tame(o.s), k)
    ensures forall k :: 0 <= k < o.at ==> Letter(Tame(s)[k]) == Letter(Tame(o.s)[k])
  {
    hide Close, HasComma, Pieces, GivesUp, Stray, Tame, IsGroup, IsClosed;
    forall k | 0 <= k < o.at ensures !IsGroup(Tame(s), k) && !IsGroup(Tame(o.s), k) {
      if IsGroup(Tame(s), k) {
        GroupClosed(Tame(s), k);
        TameOnly(s, k);
      }
      if IsGroup(Tame(o.s), k) { GroupClosed(Tame(o.s), k); }
    }
  }

  lemma {:induction false} LettersSame(u: seq<Tok>, v: seq<Tok>)
    requires |u| == |v| && forall k :: 0 <= k < |u| ==> Letter(u[k]) == Letter(v[k])
    ensures Letters(u) == Letters(v)
  {
    if u != [] { LettersSame(u[1..], v[1..]); }
  }

  lemma LooseBehind(s: seq<Tok>, o: Outcome)
    requires o.Done? && Finds(s, 0, o) && o.found
    ensures LooseOnly(Tame(s), Tame(o.s), Close(s, o.at + 1, 0) + 1)
  {
    hide Close, HasComma, Pieces, GivesUp, Tame, IsGroup, IsClosed, Loose, Stray;
    FoundKept(s, o);
    var x, x', i := Tame(s), Tame(o.s), Close(s, o.at + 1, 0) + 1;
    forall k | i <= k < |x| ensures x'[k] == x[k] || (x'[k] == Literal(x[k]) && Loose(x, i, k)) {
      if k < GivesUp(s, 0) && o.s[k] != s[k] { LooseStray(s, o.at, i, k); }
    }
  }

  lemma LooseStray(s: seq<Tok>, g: nat, i: nat, k: nat)
    requires g < i && k < GivesUp(s, 0) && Stray(s, 0, g, k)
    ensures Loose(Tame(s), i, k)
  {
    hide Close, HasComma, Pieces, GivesUp, Tame, IsGroup;
    var x := Tame(s);
    if s[k].Inb? {
      if IsClosed(x, k) { TameOnly(s, k); }
    } else {
      var h :| 0 <= h < g && IsClosed(s, h) && !IsGroup(s, h) && Close(s, h + 1, 0) == k;
      CloseIn(s, h);
      TameKeeps(s, h);
    }
  }

  /** Where hasbraces finds no group the word is characters, and the string is left with
      these characters. */
  lemma ReadingChars(s: seq<Tok>, o: Outcome)
    requires o.Done? && Finds(s, 0, o) && !o.found
    ensures Reading(s) == Letters(s) == Letters(o.s)
    ensures GivesUp(s, 0) == |s| ==> forall k :: 0 <= k < |s| ==> o.s[k].Char?
  {
    hide GivesUp, Tame, IsGroup, IsClosed, Read;
    var x := Tame(s);
    forall k | 0 <= k < |s| ensures !IsGroup(x, k) {
      if IsGroup(x, k) {
        GroupClosed(x, k);
        TameOnly(s, k);
      }
    }
    CharsTo(x, 0, |s|);
    AppendEnd(x);
    LettersSame(x, s);
    LettersSame(o.s, s);
  }

  lemma {:induction false} AppendLetters(u: seq<Tok>)
    ensures Append(Letters(u), End) == Letters(u)
  {
    if u != [] { AppendLetters(u[1..]); }
  }

  lemma AppendEnd(x: seq<Tok>)
    ensures Append(Letters(x[0..|x|]), Read(x, |x|)) == Letters(x)
  {
    AppendLetters(x);
    assert x[0..|x|] == x;
  }

  lemma {:induction false} AppendAssoc(a: Word, b: Word, c: Word)
    ensures Append(Append(a, b), c) == Append(a, Append(b, c))
    decreases a
  {
    match a
    case End =>
    case Chr(_, rest) => AppendAssoc(rest, b, c);
    case Group(_, rest) => AppendAssoc(rest, b, c);
  }

  // ----- The choices of xpandbraces -----

  lemma GroupAtGroup(s: seq<Tok>, at: int)
    requires GroupAt(s, at)
    ensures 0 <= at < |s| && IsGroup(s, at) && IsClosed(s, at) && at < Close(s, at + 1, 0) < |s|
    ensures Even(s, 0, at) && Even(s, 0, Close(s, at + 1, 0) + 1)
    ensures GivesUp(s, 0) == GivesUp(s, Close(s, at + 1, 0) + 1) >= Close(s, at + 1, 0) + 1
    ensures forall k :: 0 <= k < at ==> !s[k].Inb? && !IsGroup(s, k)
  {
    hide Close, Pieces, HasComma, GivesUp;
    var c := Close(s, at + 1, 0);
    PiecesComma(s, at + 1, 0);
    InnerCloses(s, at + 1, 0);
    EvenGivesUp(s, 0, c + 1);
  }

  /** The word in three parts, in characters, the group, and what is after it. */
  lemma ReadingSplit(s: seq<Tok>, at: nat)
    requires GroupAt(s, at)
    ensures Close(s, at + 1, 0) < |s|
    ensures Reading(s) == Append(Letters(s[..at]), Group(ReadAlts(Pieces(s, at + 1, 0)),
                                                         Read(Tame(s), Close(s, at + 1, 0) + 1)))
  {
    hide Close, Pieces, HasComma, GivesUp, Tame, IsGroup, IsClosed, GroupAt;
    GroupAtGroup(s, at);
    var x := Tame(s);
    TameKeeps(s, at);
    forall k | 0 <= k < at ensures !IsGroup(x, k) {
      if IsGroup(x, k) {
        GroupClosed(x, k);
        TameOnly(s, k);
      }
    }
    CharsTo(x, 0, at);
    assert x[0..at] == s[..at];
  }

  /** The word with a piece in place of the group. */
  lemma ReadingSpliced(s: seq<Tok>, at: nat, piece: seq<Tok>)
    requires GroupAt(s, at) && Piece(piece, 0)
    ensures Close(s, at + 1, 0) < |s|
    ensures var c := Close(s, at + 1, 0); var t := s[..at] + piece + s[c + 1..];
            Reading(t) == Append(Letters(s[..at]), Append(Read(piece, 0), Read(Tame(s), c + 1))) &&
            GivesUp(t, 0) - |t| == GivesUp(s, 0) - |s|
  {
    hide Close, Pieces, HasComma, GivesUp, Tame, IsGroup, IsClosed, GroupAt, Even, Tails, Piece;
    GroupAtGroup(s, at);
    var c := Close(s, at + 1, 0);
    var t := s[..at] + piece + s[c + 1..];
    var n := at + |piece|;
    SplicedShape(s, at, piece, c);
    SplicedEven(s, at, piece, t);
    EvenGivesUp(t, 0, n);
    TailGivesUp(s, c + 1, t, n);
    var y := Tame(t);
    EvenAlike(t, 0, y, 0, n);
    Over(y, 0, n);
    assert y[..n] == s[..at] + piece;
    PiecePart(s[..at], piece);
    TameTails(s, c + 1, t, n);
    ReadTail(Tame(s), c + 1, y, n);
    AppendAssoc(Letters(s[..at]), Read(piece, 0), Read(y, n));
  }

  lemma SplicedShape(s: seq<Tok>, at: nat, piece: seq<Tok>, c: nat)
    requires at < c < |s|
    ensures var t := s[..at] + piece + s[c + 1..]; var n := at + |piece|;
            Tails(s, c + 1, t, n) && Alike(s, 0, t, 0, at) && Alike(piece, 0, t, at, |piece|)
  {}

  lemma SplicedEven(s: seq<Tok>, at: nat, piece: seq<Tok>, t: seq<Tok>)
    requires Even(s, 0, at) && Piece(piece, 0) && Alike(s, 0, t, 0, at) && Alike(piece, 0, t, at, |piece|)
    ensures Even(t, 0, at + |piece|)
  {
    hide Even, Piece, Alike;
    PieceEven(piece);
    EvenAlike(s, 0, t, 0, at);
    EvenAlike(piece, 0, t, at, |piece|);
    EvenPlus(t, 0, at, at + |piece|);
  }

  lemma PiecePart(pre: seq<Tok>, piece: seq<Tok>)
    requires forall k :: 0 <= k < |pre| ==> !pre[k].Inb?
    ensures Read(pre + piece, 0) == Append(Letters(pre), Read(piece, 0))
  {
    hide Read;
    var t := pre + piece;
    forall k | 0 <= k < |pre| ensures !IsGroup(t, k) { assert t[k] == pre[k]; }
    CharsTo(t, 0, |pre|);
    assert t[0..|pre|] == pre;
    ReadTail(piece, 0, t, |pre|);
  }

  lemma TameTails(s: seq<Tok>, i: nat, t: seq<Tok>, j: nat)
    requires Tails(s, i, t, j) && GivesUp(s, 0) - i == GivesUp(t, 0) - j
    ensures Tails(Tame(s), i, Tame(t), j)
  {
    hide GivesUp, Tame;
    var x, y := Tame(s), Tame(t);
    forall k | i <= k < |s| ensures x[k] == y[k + (j - i)] { assert s[k] == t[k + (j - i)]; }
  }

  /** The scan does not give up in s. */
  predicate Full(s: seq<Tok>) {
    GivesUp(s, 0) == |s|
  }

  predicate AllFull(list: seq<seq<Tok>>) {
    forall k :: 0 <= k < |list| ==> Full(list[k])
  }

  function Readings(list: seq<seq<Tok>>): (ws: seq<Word>)
    ensures |ws| == |list| && forall k :: 0 <= k < |ws| ==> Proper(ws[k])
  {
    if list == [] then [] else [Reading(list[0])] + Readings(list[1..])
  }

  lemma {:induction false} SplicedReadings(s: seq<Tok>, at: nat, ps: seq<seq<Tok>>)
    requires GroupAt(s, at) && ps != [] && forall k :: 0 <= k < |ps| ==> Piece(ps[k], 0)
    ensures Close(s, at + 1, 0) < |s|
    ensures var c := Close(s, at + 1, 0);
            Readings(Spliced(s[..at], ps, s[c + 1..])) ==
            Choices(Letters(s[..at]), ReadAlts(ps), Read(Tame(s), c + 1)) &&
            (Full(s) ==> AllFull(Spliced(s[..at], ps, s[c + 1..])))
  {
    hide Close, GivesUp, Tame, GroupAt, Reading, Read, Piece;
    ReadingSpliced(s, at, ps[0]);
    var c := Close(s, at + 1, 0);
    if |ps| == 1 {
      assert Spliced(s[..at], ps[1..], s[c + 1..]) == [];
    } else {
      SplicedReadings(s, at, ps[1..]);
    }
    SplicedFirst(s[..at], ps, s[c + 1..]);
  }

  lemma SplicedFirst(pre: seq<Tok>, ps: seq<seq<Tok>>, post: seq<Tok>)
    requires ps != []
    ensures Readings(Spliced(pre, ps, post)) == [Reading(pre + ps[0] + post)] + Readings(Spliced(pre, ps[1..], post))
    ensures Full(pre + ps[0] + post) && AllFull(Spliced(pre, ps[1..], post)) ==> AllFull(Spliced(pre, ps, post))
  {
    hide Reading, Full;
    var r := Spliced(pre, ps, post);
    assert r[1..] == Spliced(pre, ps[1..], post);
    assert forall k :: 1 <= k < |r| ==> r[k] == r[1..][k - 1];
  }

  /** xpandbraces makes the choices of the first group of the word. */
  lemma ExpandReads(s: seq<Tok>, at: nat)
    requires GroupAt(s, at)
    ensures var c := Close(s, at + 1, 0); var pre, alts, post :=
      Letters(s[..at]), ReadAlts(Pieces(s, at + 1, 0)), Read(Tame(s), c + 1);
      Reading(s) == Append(pre, Group(alts, post)) &&
      Readings(Spliced(s[..at], Pieces(s, at + 1, 0), s[c + 1..])) == Choices(pre, alts, post) &&
      (Full(s) ==> AllFull(Spliced(s[..at], Pieces(s, at + 1, 0), s[c + 1..])))
  {
    hide Close, GivesUp, Tame, GroupAt, Reading, Read, Piece, Pieces;
    GroupAtGroup(s, at);
    ReadingSplit(s, at);
    PiecesAre(s, at + 1, 0);
    SplicedReadings(s, at, Pieces(s, at + 1, 0));
  }

  // ----- Groups without a comma -----

  lemma {:induction false} PlainOver(s: seq<Tok>, i: nat, j: nat)
    requires i <= j <= |s| && NoTokens(s, i, j)
    ensures Close(s, i, 0) == Close(s, j, 0) && HasComma(s, i, 0) == HasComma(s, j, 0)
    decreases j - i
  {
    if i < j { PlainOver(s, i + 1, j); }
  }

  /** Characters in braces are read as they stand, and what follows as if it stood alone. */
  lemma Commaless(u: seq<Tok>, v: seq<Tok>)
    requires NoTokens(u, 0, |u|)
    ensures var b := [Inb] + u + [Outb]; Reading(b + v) == Append(Letters(b), Reading(v))
  {
    hide *;
    var b := [Inb] + u + [Outb];
    CommalessShape(u, v);
    NoGroupsIn(b + v, |b|, v);
    assert (b + v)[..|b|] == b;
  }

  lemma CommalessShape(u: seq<Tok>, v: seq<Tok>)
    requires NoTokens(u, 0, |u|)
    ensures var b := [Inb] + u + [Outb]; var s := b + v;
            Even(s, 0, |b|) && Tails(s, |b|, v, 0) && forall k :: 0 <= k < |b| ==> !IsGroup(s, k)
  {
    var b := [Inb] + u + [Outb];
    var s, n := b + v, |b|;
    assert forall k :: 1 <= k < n - 1 ==> s[k] == u[k - 1];
    assert forall k :: n <= k < |s| ==> s[k] == v[k + (0 - n)];
    PlainOver(s, 1, n - 1);
    assert Close(s, n - 1, 0) == n - 1 && !HasComma(s, n - 1, 0);
    hide Close, HasComma;
  }

  /** What comes before v is even and has no group. */
  lemma NoGroupsIn(s: seq<Tok>, n: nat, v: seq<Tok>)
    requires Even(s, 0, n) && Tails(s, n, v, 0) && n <= |s| && forall k :: 0 <= k < n ==> !IsGroup(s, k)
    ensures Reading(s) == Append(Letters(s[..n]), Reading(v))
  {
    hide GivesUp, Tame, Close, HasComma, IsGroup, IsClosed, Read, Tails, Even;
    EvenGivesUp(s, 0, n);
    TailGivesUp(s, n, v, 0);
    TameTails(s, n, v, 0);
    var x := Tame(s);
    forall k | 0 <= k < n ensures !IsGroup(x, k) {
      if IsGroup(x, k) {
        GroupClosed(x, k);
        TameOnly(s, k);
      }
    }
    CharsTo(x, 0, n);
    ReadTail(x, n, Tame(v), 0);
    LettersSame(x[0..n], s[..n]);
  }

  // ----- Printed words -----

  lemma {:induction false} PrintedEven(s: seq<Tok>, i: nat, w: Word)
    requires Placed(s, i, Print(w))
    ensures Even(s, i, i + |Print(w)|)
    decreases w
  {
    hide Close, Placed, Even, PrintAlts;
    match w
    case End => EvenNone(s, i);
    case Chr(c, rest) =>
      PlacedOne(s, i, Char(c), Print(rest));
      PrintedEven(s, i + 1, rest);
      EvenNext(s, i, i + |Print(w)|);
    case Group(alts, rest) =>
      CloseGroup(s, i, alts, rest);
      CloseInner(s, i, alts, rest);
      var j := i + 1 + |PrintAlts(alts)|;
      PrintedEvenAlts(s, i + 1, alts);
      PrintedEven(s, j + 1, rest);
      EvenNext(s, j, i + |Print(w)|);
      EvenPlus(s, i + 1, j, i + |Print(w)|);
      EvenNext(s, i, i + |Print(w)|);
  }

  lemma {:induction false} PrintedEvenAlts(s: seq<Tok>, i: nat, a: Alts)
    requires Placed(s, i, PrintAlts(a))
    ensures Even(s, i, i + |PrintAlts(a)|)
    decreases a
  {
    hide Close, Placed, Even, Print;
    match a
    case Last(w) => PrintedEven(s, i, w);
    case More(w, more) =>
      assert PrintAlts(a) == Print(w) + ([Com] + PrintAlts(more));
      PlacedPlus(s, i, Print(w), [Com] + PrintAlts(more));
      var j := i + |Print(w)|;
      PlacedOne(s, j, Com, PrintAlts(more));
      PrintedEven(s, i, w);
      PrintedEvenAlts(s, j + 1, more);
      EvenNext(s, j, i + |PrintAlts(a)|);
      EvenPlus(s, i, j, i + |PrintAlts(a)|);
  }

  lemma EvenNone(s: seq<Tok>, i: nat)
    requires Placed(s, i, [])
    ensures Even(s, i, i)
  {}

  lemma EvenNext(s: seq<Tok>, i: nat, m: nat)
    requires i < m && Even(s, i + 1, m) && (s[i].Inb? ==> Close(s, i + 1, 0) < m)
    ensures Even(s, i, m)
  {}

  lemma {:induction false} PrintedRead(s: seq<Tok>, i: nat, w: Word)
    requires Proper(w) && Placed(s, i, Print(w)) && i + |Print(w)| == |s|
    ensures Read(s, i) == w
    decreases w
  {
    hide Close, Placed, PrintAlts, Pieces, IsGroup, IsClosed, HasComma;
    match w
    case End =>
    case Chr(c, rest) =>
      PlacedOne(s, i, Char(c), Print(rest));
      PrintedRead(s, i + 1, rest);
      if IsGroup(s, i) {
        GroupClosed(s, i);
        assert false;
      }
    case Group(alts, rest) =>
      CloseGroup(s, i, alts, rest);
      CloseInner(s, i, alts, rest);
      PrintedGroup(s, i, alts, rest);
      PrintedReadAlts(alts);
      PrintedRead(s, i + 2 + |PrintAlts(alts)|, rest);
  }

  lemma PrintedGroup(s: seq<Tok>, i: nat, alts: Alts, rest: Word)
    requires Placed(s, i, Print(Group(alts, rest))) && alts.More?
    ensures i < |s| && IsGroup(s, i) && Pieces(s, i + 1, 0) == PrintAll(ListOf(alts))
  {
    hide Close, Placed, PrintAlts, Pieces, HasComma, ListOf, Print;
    CloseInner(s, i, alts, rest);
    GroupPieces(s, i, alts, rest);
    PrintAllLength(ListOf(alts));
    PiecesComma(s, i + 1, 0);
  }

  lemma {:induction false} PrintAllLength(ws: seq<Word>)
    ensures |PrintAll(ws)| == |ws|
  {
    if ws != [] { PrintAllLength(ws[1..]); }
  }

  lemma {:induction false} PrintedReadAlts(alts: Alts)
    requires ProperAlts(alts)
    ensures PrintAll(ListOf(alts)) != [] && ReadAlts(PrintAll(ListOf(alts))) == alts
    decreases alts
  {
    hide Read, Print;
    PrintedRead(Print(alts.word), 0, alts.word);
    var list := ListOf(alts);
    match alts
    case Last(w) =>
      assert PrintAll(list[1..]) == [];
    case More(w, more) =>
      PrintedReadAlts(more);
      assert list[1..] == ListOf(more);
      assert PrintAll(list)[1..] == PrintAll(ListOf(more));
  }

  /** A printed word is read as itself. */
  lemma PrintedReading(w: Word)
    requires Proper(w)
    ensures Reading(Print(w)) == w && Full(Print(w))
  {
    hide Print, Read, GivesUp, Tame;
    var s := Print(w);
    PrintedEven(s, 0, w);
    EvenGivesUp(s, 0, |s|);
    PrintedRead(s, 0, w);
    assert Tame(s) == s;
  }

  /** In a printed word hasbraces finds the first group, if there is one, and
      changes nothing. */
  lemma {:induction false} PrintedTop(s: seq<Tok>, p: nat, w: Word)
    requires Proper(w) && Placed(s, p, Print(w)) && p + |Print(w)| == |s|
    ensures var o := Hasbraces(Scan(s, p, -1, -1, -1)); o.s == s && o.found == !IsChars(w)
    decreases w
  {
    hide Close, Opens;
    match w
    case End =>
    case Chr(c, rest) =>
      PlacedOne(s, p, Char(c), Print(rest));
      PrintedTop(s, p + 1, rest);
    case Group(alts, rest) =>
      CloseGroup(s, p, alts, rest);
      var list := ListOf(alts);
      PlacedList(s, p + 1, alts);
      ProperList(alts);
      PrintedIn(s, p + 1, p, -1, -1, list[0], list[1..]);
  }

  lemma {:induction false} ProperList(alts: Alts)
    requires ProperAlts(alts)
    ensures forall k :: 0 <= k < |ListOf(alts)| ==> Proper(ListOf(alts)[k])
    decreases alts
  {
    match alts
    case Last(w) =>
    case More(w, more) => ProperList(more);
  }

  lemma {:induction false} PrintedIn(s: seq<Tok>, p: nat, lbr: nat, mbr: int, comma: int, cur: Word, others: seq<Word>)
    requires Fits(Scan(s, p, lbr, mbr, comma)) && Placed(s, p, Print(cur) + Others(others)) &&
      (comma >= 0 || others != [])
    ensures Hasbraces(Scan(s, p, lbr, mbr, comma)) == Done(true, s, lbr)
    decreases |s| - p
  {
    hide Opens, Close, Next, Hasbraces, Placed;
    var t := Scan(s, p, lbr, mbr, comma);
    Turn(t);
    PlacedPlus(s, p, Print(cur), Others(others));
    match cur
    case End =>
      if others == [] {
        PlacedOne(s, p, Outb, []);
        NextIn(t);
      } else {
        PlacedOne(s, p, Com, Print(others[0]) + Others(others[1..]));
        NextIn(t);
        PrintedIn(s, p + 1, lbr, mbr, if comma < 0 then p else comma, others[0], others[1..]);
      }
    case Chr(c, rest) =>
      PlacedOne(s, p, Char(c), Print(rest));
      PlacedAgain(s, p + 1, Print(rest), Others(others));
      NextIn(t);
      PrintedIn(s, p + 1, lbr, mbr, comma, rest, others);
    case Group(alts, rest) =>
      CloseInner(s, p, alts, rest);
      var j := p + 1 + |PrintAlts(alts)|;
      PlacedAgain(s, j + 1, Print(rest), Others(others));
      NextIn(t);
      PrintedIn(s, j + 1, lbr, if mbr < 0 then p else mbr, comma, rest, others);
  }

  lemma NextIn(t: Scan)
    requires Fits(t) && t.lbr >= 0 && t.p < |t.s|
    ensures t.s[t.p].Outb? && t.comma >= 0 ==> Next(t) == Done(true, t.s, t.lbr)
    ensures t.s[t.p].Com? ==> Next(t) == Go(t.(p := t.p + 1, comma := if t.comma < 0 then t.p else t.comma))
    ensures t.s[t.p].Char? ==> Next(t) == Go(t.(p := t.p + 1))
    ensures t.s[t.p].Inb? && Close(t.s, t.p + 1, 0) < |t.s| ==>
      Next(t) == Go(t.(p := Close(t.s, t.p + 1, 0) + 1, mbr := if t.mbr < 0 then t.p else t.mbr))
  {
    hide Close;
  }

  lemma PlacedAgain(s: seq<Tok>, p: nat, a: seq<Tok>, b: seq<Tok>)
    requires Placed(s, p, a) && Placed(s, p + |a|, b)
    ensures Placed(s, p, a + b)
  {
    forall k | 0 <= k < |a + b| ensures s[p + k] == (a + b)[k] {
      if k >= |a| { assert s[p + |a| + (k - |a|)] == b[k - |a|]; }
    }
  }
}
