/** xpandbraces of Src/glob.c, and prefork of Src/subst.c, which applies it to the
    words of a list until no group is left. */
module BracePrefork {
  import opened BraceWords
  import opened BraceExpansion

  /** The pieces of a group, each with what is before and after the group. */
  function Spliced(pre: seq<Tok>, pieces: seq<seq<Tok>>, post: seq<Tok>): seq<seq<Tok>> {
    if pieces == [] then [] else [pre + pieces[0] + post] + Spliced(pre, pieces[1..], post)
  }

  lemma {:induction false} SplicedPlus(pre: seq<Tok>, a: seq<seq<Tok>>, b: seq<seq<Tok>>, post: seq<Tok>)
    ensures Spliced(pre, a + b, post) == Spliced(pre, a, post) + Spliced(pre, b, post)
  {
    if a == [] {
      assert a + b == b;
    } else {
      SplicedPlus(pre, a[1..], b, post);
      assert (a + b)[0] == a[0] && (a + b)[1..] == a[1..] + b;
      var first := [pre + a[0] + post];
      assert first + (Spliced(pre, a[1..], post) + Spliced(pre, b, post)) ==
        (first + Spliced(pre, a[1..], post)) + Spliced(pre, b, post);
    }
  }

  lemma SplicedNext(pre: seq<Tok>, done: seq<seq<Tok>>, piece: seq<Tok>, post: seq<Tok>)
    ensures Spliced(pre, done + [piece], post) == Spliced(pre, done, post) + [pre + piece + post]
  {
    SplicedPlus(pre, done, [piece], post);
    assert Spliced(pre, [piece][1..], post) == [];
  }

  /** One piece of the group: from i to a comma or the end of the group. */
  method NextPiece(s: seq<Tok>, i: nat) returns (j: nat)
    requires i <= |s| && Close(s, i, 0) < |s|
    ensures i <= j < |s| && if s[j].Com? then Close(s, j + 1, 0) == Close(s, i, 0) else j == Close(s, i, 0)
    ensures Pieces(s, i, 0) == [s[i..j]] + if s[j].Com? then Pieces(s, j + 1, 0) else []
  {
    hide Pieces, Close;
    j := i;
    var cnt := 0;
    assert s[i..i] == [];
    while cnt > 0 || !(s[j].Com? || s[j].Outb?)
      invariant i <= j < |s| && cnt >= 0 && Close(s, j, cnt) == Close(s, i, 0)
      invariant Pieces(s, i, 0)[0] == s[i..j] + Pieces(s, j, cnt)[0] && Pieces(s, i, 0)[1..] == Pieces(s, j, cnt)[1..]
      decreases |s| - j
    {
      assert s[i..j + 1] == s[i..j] + [s[j]];
      PieceStep(s, j, cnt);
      if s[j].Inb? { cnt := cnt + 1; } else if s[j].Outb? { cnt := cnt - 1; }
      j := j + 1;
    }
    PieceEnd(s, j);
    var r := Pieces(s, i, 0);
    assert r == [r[0]] + r[1..];
    assert s[i..j] + [] == s[i..j];
  }

  lemma Moved(all: seq<seq<Tok>>, done: seq<seq<Tok>>, left: seq<seq<Tok>>, piece: seq<Tok>, after: seq<seq<Tok>>)
    requires all == done + left && left == [piece] + after
    ensures all == (done + [piece]) + after
  {}

  lemma PieceEnd(s: seq<Tok>, j: nat)
    requires j < |s| && (s[j].Com? || s[j].Outb?)
    ensures Pieces(s, j, 0)[0] == [] && Pieces(s, j, 0)[1..] == if s[j].Com? then Pieces(s, j + 1, 0) else []
    ensures if s[j].Outb? then Close(s, j, 0) == j else Close(s, j, 0) == Close(s, j + 1, 0)
  {}

  lemma PieceStep(s: seq<Tok>, j: nat, cnt: nat)
    requires j < |s| && (cnt > 0 || !(s[j].Com? || s[j].Outb?))
    ensures var cnt' := if s[j].Inb? then cnt + 1 else if s[j].Outb? then cnt - 1 else cnt;
            cnt' >= 0 && Close(s, j, cnt) == Close(s, j + 1, cnt') &&
            Pieces(s, j, cnt)[0] == [s[j]] + Pieces(s, j + 1, cnt')[0] &&
            Pieces(s, j, cnt)[1..] == Pieces(s, j + 1, cnt')[1..]
  {}

  /** The word with a group becomes one word for each piece of its first group. */
  method Xpandbraces(s: seq<Tok>, ghost at: int) returns (words: seq<seq<Tok>>)
    requires GroupAt(s, at)
    ensures words == Spliced(s[..at], Pieces(s, at + 1, 0), s[Close(s, at + 1, 0) + 1..])
  {
    var str := 0;
    while !s[str].Inb?
      invariant 0 <= str <= at
      decreases at - str
    {
      str := str + 1;
    }
    var str2 := str + 1;
    var bc := 1;
    while !(bc == 1 && s[str2].Outb?)
      invariant str < str2 < |s| && bc >= 1 && Close(s, str2, bc - 1) == Close(s, at + 1, 0)
      decreases |s| - str2
    {
      if s[str2].Inb? { bc := bc + 1; } else if s[str2].Outb? { bc := bc - 1; }
      str2 := str2 + 1;
    }
    words := Branches(s, str, str2);
  }

  /** The loop over the pieces. */
  method Branches(s: seq<Tok>, str: nat, str2: nat) returns (words: seq<seq<Tok>>)
    requires str < str2 < |s| && str2 == Close(s, str + 1, 0)
    ensures words == Spliced(s[..str], Pieces(s, str + 1, 0), s[str2 + 1..])
  {
    var pre, post := s[..str], s[str2 + 1..];
    var i: nat := str + 1;
    words := [];
    ghost var all := Pieces(s, i, 0);
    ghost var done: seq<seq<Tok>> := [];
    ghost var left := all;
    var more := true;
    assert Spliced(pre, [], post) == [];
    hide Pieces, Close, Spliced;
    while more
      invariant more ==> i <= |s| && Close(s, i, 0) == str2 && left == Pieces(s, i, 0)
      invariant words == Spliced(pre, done, post) && all == done + left && (!more ==> left == [])
      decreases more, |s| - i
    {
      var j := NextPiece(s, i);
      var piece := s[i..j];
      ghost var after := if s[j].Com? then Pieces(s, j + 1, 0) else [];
      SplicedNext(pre, done, piece, post);
      Moved(all, done, left, piece, after);
      words := words + [pre + piece + post];
      done, left := done + [piece], after;
      more := s[j].Com?;
      i := j + 1;
    }
    assert done + [] == done;
  }

  // ----- Every word has fewer open braces -----

  lemma {:induction false} OpensPlus(a: seq<Tok>, b: seq<Tok>)
    ensures Opens(a + b) == Opens(a) + Opens(b)
  {
    if b == [] {
      assert a + b == a;
    } else {
      var n := |b| - 1;
      assert (a + b)[..|a| + n] == a + b[..n];
      OpensPlus(a, b[..n]);
    }
  }

  lemma OpensOne(t: Tok)
    ensures Opens([t]) == if t.Inb? then 1 else 0
  {
    assert Opens([t][..0]) == 0;
  }

  /** A piece has no more open braces than the group, and no more tokens. */
  lemma {:induction false} PieceOpens(s: seq<Tok>, i: nat, depth: nat)
    requires i <= |s| && Close(s, i, depth) < |s|
    ensures var r, j := Pieces(s, i, depth), Close(s, i, depth);
            |r| <= j - i + 1 && forall k :: 0 <= k < |r| ==> Opens(r[k]) <= Opens(s[i..j]) && |r[k]| <= j - i
    decreases |s| - i
  {
    var j := Close(s, i, depth);
    if depth == 0 && s[i].Outb? {
    } else {
      var d := if s[i].Inb? then depth + 1 else if s[i].Outb? then depth - 1 else depth;
      PieceOpens(s, i + 1, d);
      assert s[i..j] == [s[i]] + s[i + 1..j];
      OpensPlus([s[i]], s[i + 1..j]);
      OpensOne(s[i]);
      var more, r := Pieces(s, i + 1, d), Pieces(s, i, depth);
      OpensPlus([s[i]], more[0]);
      forall k | 0 <= k < |r| ensures Opens(r[k]) <= Opens(s[i..j]) && |r[k]| <= j - i {
        if depth == 0 && s[i].Com? {
          if k > 0 { assert r[k] == more[k - 1]; }
        } else if k > 0 { assert r[k] == more[k]; }
      }
    }
  }

  lemma {:induction false} SplicedAt(pre: seq<Tok>, pieces: seq<seq<Tok>>, post: seq<Tok>, k: nat)
    requires k < |pieces|
    ensures |Spliced(pre, pieces, post)| == |pieces| && Spliced(pre, pieces, post)[k] == pre + pieces[k] + post
  {
    if k > 0 {
      SplicedAt(pre, pieces[1..], post, k - 1);
    } else if |pieces| > 1 { SplicedAt(pre, pieces[1..], post, 0); }
  }

  /** Each word that xpandbraces makes has fewer open braces than the one it had. */
  lemma FewerBraces(s: seq<Tok>, at: int, k: nat)
    requires GroupAt(s, at) && k < |Pieces(s, at + 1, 0)|
    ensures var words := Spliced(s[..at], Pieces(s, at + 1, 0), s[Close(s, at + 1, 0) + 1..]);
            |words| <= |s| && k < |words| && Opens(words[k]) < Opens(s) && |words[k]| < |s|
  {
    hide Opens, Pieces, Close, Spliced, NoOpen;
    var j := Close(s, at + 1, 0);
    var pre, post, pieces := s[..at], s[j + 1..], Pieces(s, at + 1, 0);
    PieceOpens(s, at + 1, 0);
    assert Opens(pieces[k]) <= Opens(s[at + 1..j]) && |pieces[k]| <= j - at - 1;
    SplicedAt(pre, pieces, post, k);
    GroupOpens(s, at, j);
    OpensPlus(pre, pieces[k]);
    OpensPlus(pre + pieces[k], post);
  }

  lemma GroupOpens(s: seq<Tok>, at: nat, j: nat)
    requires at < j < |s| && s[at].Inb?
    ensures Opens(s) >= Opens(s[..at]) + 1 + Opens(s[at + 1..j]) + Opens(s[j + 1..])
  {
    var pre, mid, post := s[..at], s[at + 1..j], s[j + 1..];
    hide Opens;
    assert s == s[..j] + s[j..];
    assert s[..j] == pre + ([s[at]] + mid);
    assert s[j..] == [s[j]] + post;
    OpensPlus(s[..j], s[j..]);
    OpensPlus(pre, [s[at]] + mid);
    OpensPlus([s[at]], mid);
    OpensPlus([s[j]], post);
    OpensOne(s[at]);
  }

  // ----- Printed words -----

  lemma {:induction false} PrintAppend(a: Word, b: Word)
    ensures Print(Append(a, b)) == Print(a) + Print(b)
    decreases a
  {
    match a
    case End =>
    case Chr(c, rest) => PrintAppend(rest, b);
    case Group(alts, rest) =>
      PrintAppend(rest, b);
      var g := [Inb] + PrintAlts(alts) + [Outb];
      assert g + (Print(rest) + Print(b)) == (g + Print(rest)) + Print(b);
  }

  function PrintAll(ws: seq<Word>): seq<seq<Tok>> {
    if ws == [] then [] else [Print(ws[0])] + PrintAll(ws[1..])
  }

  /** A word in a piece is part of the piece as a whole. */
  lemma {:induction false} PiecesWord(s: seq<Tok>, i: nat, depth: nat, w: Word)
    requires Placed(s, i, Print(w))
    ensures var r, more := Pieces(s, i, depth), Pieces(s, i + |Print(w)|, depth);
            r[0] == Print(w) + more[0] && r[1..] == more[1..]
    decreases w
  {
    hide Placed, Pieces, Close;
    match w
    case End =>
    case Chr(c, rest) =>
      PlacedOne(s, i, Char(c), Print(rest));
      PiecesWord(s, i + 1, depth, rest);
      PieceStep(s, i, depth);
    case Group(alts, rest) =>
      CloseGroup(s, i, alts, rest);
      var j := i + 1 + |PrintAlts(alts)|;
      PieceStep(s, i, depth);
      PiecesAlts(s, i + 1, depth + 1, alts);
      PieceStep(s, j, depth + 1);
      PiecesWord(s, j + 1, depth, rest);
      Gather(PrintAlts(alts), Print(rest), Pieces(s, j + 1 + |Print(rest)|, depth)[0]);
  }

  lemma Gather(a: seq<Tok>, b: seq<Tok>, c: seq<Tok>)
    ensures [Inb] + (a + ([Outb] + (b + c))) == ([Inb] + a + [Outb] + b) + c
  {}

  lemma {:induction false} PiecesAlts(s: seq<Tok>, i: nat, depth: nat, a: Alts)
    requires Placed(s, i, PrintAlts(a)) && depth >= 1
    ensures var r, more := Pieces(s, i, depth), Pieces(s, i + |PrintAlts(a)|, depth);
            r[0] == PrintAlts(a) + more[0] && r[1..] == more[1..]
    decreases a
  {
    hide Placed, Pieces, Close;
    match a
    case Last(w) => PiecesWord(s, i, depth, w);
    case More(w, more) =>
      assert PrintAlts(a) == Print(w) + ([Com] + PrintAlts(more));
      PlacedPlus(s, i, Print(w), [Com] + PrintAlts(more));
      PiecesWord(s, i, depth, w);
      var j := i + |Print(w)|;
      PlacedOne(s, j, Com, PrintAlts(more));
      PieceStep(s, j, depth);
      PiecesAlts(s, j + 1, depth, more);
      GatherComma(Print(w), PrintAlts(more), Pieces(s, j + 1 + |PrintAlts(more)|, depth)[0]);
  }

  lemma GatherComma(a: seq<Tok>, b: seq<Tok>, c: seq<Tok>)
    ensures a + ([Com] + (b + c)) == (a + [Com] + b) + c
  {}

  /** The pieces of a printed group are its alternatives. */
  lemma {:induction false} PiecesPrinted(s: seq<Tok>, i: nat, cur: Word, others: seq<Word>)
    requires Placed(s, i, Print(cur) + Others(others))
    ensures Pieces(s, i, 0) == [Print(cur)] + PrintAll(others)
    decreases |others|
  {
    hide Placed, Pieces, Close;
    PlacedPlus(s, i, Print(cur), Others(others));
    PiecesWord(s, i, 0, cur);
    var j := i + |Print(cur)|;
    if others == [] {
      PlacedOne(s, j, Outb, []);
    } else {
      PlacedOne(s, j, Com, Print(others[0]) + Others(others[1..]));
      PiecesPrinted(s, j + 1, others[0], others[1..]);
    }
    PieceEnd(s, j);
    var r := Pieces(s, i, 0);
    assert Print(cur) + [] == Print(cur);
    assert r == [r[0]] + r[1..];
  }

  lemma {:induction false} SplicedChoices(pre: Word, alts: Alts, post: Word)
    ensures Spliced(Print(pre), PrintAll(ListOf(alts)), Print(post)) == PrintAll(Choices(pre, alts, post))
    decreases alts
  {
    hide Print, Append;
    var list := ListOf(alts);
    PrintAppend(list[0], post);
    PrintAppend(pre, Append(list[0], post));
    assert Print(pre) + (Print(list[0]) + Print(post)) == Print(pre) + Print(list[0]) + Print(post);
    match alts
    case Last(w) =>
      assert PrintAll(list) == [Print(w)] && PrintAll(list[1..]) == [];
      assert Spliced(Print(pre), [Print(w)][1..], Print(post)) == [];
      assert PrintAll(Choices(pre, alts, post)[1..]) == [];
    case More(w, more) =>
      SplicedChoices(pre, more, post);
      assert list[1..] == ListOf(more);
      assert PrintAll(list)[1..] == PrintAll(ListOf(more));
      assert Choices(pre, alts, post)[1..] == Choices(pre, more, post);
  }

  lemma {:induction false} CharsPrinted(pre: Word)
    requires IsChars(pre)
    ensures forall k :: 0 <= k < |Print(pre)| ==> Print(pre)[k].Char?
    decreases pre
  {
    if pre.Chr? { CharsPrinted(pre.rest); }
  }

  /** xpandbraces on a printed word gives the printed choices of its first group. */
  lemma ExpandPrinted(w: Word, at: int, pre: Word, alts: Alts, post: Word)
    requires w == Append(pre, Group(alts, post)) && IsChars(pre) && GroupAt(Print(w), at)
    ensures var s := Print(w);
            Spliced(s[..at], Pieces(s, at + 1, 0), s[Close(s, at + 1, 0) + 1..]) == PrintAll(Choices(pre, alts, post))
  {
    hide Spliced, Pieces, Close, PrintAll, Print, ListOf, GroupAt, Append;
    GroupRead(w, at, pre, alts, post);
    SplicedChoices(pre, alts, post);
  }

  /** Where the first group of a printed word is, and what is in it. */
  lemma GroupRead(w: Word, at: int, pre: Word, alts: Alts, post: Word)
    requires w == Append(pre, Group(alts, post)) && IsChars(pre) && GroupAt(Print(w), at)
    ensures var s := Print(w);
            s[..at] == Print(pre) && Pieces(s, at + 1, 0) == PrintAll(ListOf(alts)) &&
            s[Close(s, at + 1, 0) + 1..] == Print(post)
  {
    hide Spliced, Pieces, Close, Placed, PrintAll, Print, ListOf, PrintAlts, GroupAt, Append, IsChars;
    GroupPlaced(pre, alts, post);
    FirstOpen(pre, alts, post, at);
    GroupPieces(Print(w), |Print(pre)|, alts, post);
  }

  lemma GroupPieces(s: seq<Tok>, p: nat, alts: Alts, post: Word)
    requires Placed(s, p, Print(Group(alts, post)))
    ensures p < |s| && Pieces(s, p + 1, 0) == PrintAll(ListOf(alts)) &&
      Close(s, p + 1, 0) == p + 1 + |PrintAlts(alts)| < |s|
  {
    hide Spliced, Pieces, Close, Placed, PrintAll, Print, ListOf, PrintAlts;
    var list := ListOf(alts);
    CloseInner(s, p, alts, post);
    CloseGroup(s, p, alts, post);
    PlacedList(s, p + 1, alts);
    PiecesPrinted(s, p + 1, list[0], list[1..]);
    PrintAllFirst(list);
  }

  lemma PrintAllFirst(ws: seq<Word>)
    requires ws != []
    ensures PrintAll(ws) == [Print(ws[0])] + PrintAll(ws[1..])
  {}

  lemma GroupPlaced(pre: Word, alts: Alts, post: Word)
    ensures var s, p := Print(Append(pre, Group(alts, post))), |Print(pre)|;
            Placed(s, p, Print(Group(alts, post))) && s[..p] == Print(pre) &&
            s[p + 2 + |PrintAlts(alts)|..] == Print(post)
  {
    PrintAppend(pre, Group(alts, post));
    var body := PrintAlts(alts);
    var g := Print(Group(alts, post));
    GroupShape(Print(pre), body, Print(post));
    assert g == [Inb] + body + [Outb] + Print(post);
  }

  lemma GroupShape(a: seq<Tok>, body: seq<Tok>, c: seq<Tok>)
    ensures var g := [Inb] + body + [Outb] + c;
            Placed(a + g, |a|, g) && (a + g)[..|a|] == a && (a + g)[|a| + 2 + |body|..] == c
  {
    var g := [Inb] + body + [Outb] + c;
    assert a + g == (a + ([Inb] + body + [Outb])) + c;
  }

  lemma FirstOpen(pre: Word, alts: Alts, post: Word, at: int)
    requires IsChars(pre) && GroupAt(Print(Append(pre, Group(alts, post))), at)
    ensures at == |Print(pre)|
  {
    hide Pieces, Close;
    var s, p := Print(Append(pre, Group(alts, post))), |Print(pre)|;
    PrintAppend(pre, Group(alts, post));
    CharsPrinted(pre);
    assert s[p] == Inb;
    assert forall k :: 0 <= k < p ==> s[k] == Print(pre)[k];
  }
}
