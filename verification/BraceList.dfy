/** The loop of prefork in Src/subst.c over the words of a list: the first group of
    the current word is expanded until it has none, then the next word is taken.
    Words that are empty when the loop comes to them are removed. */
module BraceList {
  import opened BraceWords
  import opened BraceExpansion
  import opened BraceGroups
  import opened BraceFound
  import opened BracePrefork
  import opened BraceReading

  // ----- The loop ends -----

  ghost function Power(b: nat, m: nat): nat {
    if m == 0 then 1 else (b + 1) * Power(b, m - 1)
  }

  /** What is still to do: words count more the more open braces they have. */
  ghost function Load(b: nat, list: seq<seq<Tok>>): nat {
    if list == [] then 0 else Power(b, Opens(list[0])) + Load(b, list[1..])
  }

  lemma {:induction false} PowerMore(b: nat, m: nat, n: nat)
    requires m <= n
    ensures 1 <= Power(b, m) <= Power(b, n)
    decreases n
  {
    if m < n {
      PowerMore(b, m, n - 1);
      assert (b + 1) * Power(b, n - 1) == b * Power(b, n - 1) + Power(b, n - 1);
    } else if m > 0 {
      PowerMore(b, m - 1, m - 1);
      assert (b + 1) * Power(b, m - 1) == b * Power(b, m - 1) + Power(b, m - 1);
    }
  }

  lemma {:induction false} LoadPlus(b: nat, x: seq<seq<Tok>>, y: seq<seq<Tok>>)
    ensures Load(b, x + y) == Load(b, x) + Load(b, y)
  {
    if x == [] {
      assert x + y == y;
    } else {
      LoadPlus(b, x[1..], y);
      assert (x + y)[0] == x[0] && (x + y)[1..] == x[1..] + y;
    }
  }

  lemma {:induction false} LoadBound(b: nat, x: seq<seq<Tok>>, m: nat)
    requires forall k :: 0 <= k < |x| ==> Opens(x[k]) <= m
    ensures Load(b, x) <= |x| * Power(b, m)
  {
    if x != [] {
      LoadBound(b, x[1..], m);
      PowerMore(b, Opens(x[0]), m);
      hide Power, Opens;
      OneMore(|x|, Power(b, m));
    }
  }

  lemma OneMore(n: nat, w: nat)
    requires n > 0
    ensures n * w == w + (n - 1) * w
  {}

  /** Expanding a group lowers the load. */
  lemma LoadExpand(b: nat, s: seq<Tok>, at: int, words: seq<seq<Tok>>, rest: seq<seq<Tok>>)
    requires GroupAt(s, at) && |s| <= b && words == Spliced(s[..at], Pieces(s, at + 1, 0), s[Close(s, at + 1, 0) + 1..])
    ensures Load(b, words + rest) < Load(b, [s] + rest) && words != []
    ensures forall k :: 0 <= k < |words| ==> |words[k]| <= b
  {
    hide Pieces, Close, Spliced, Load, Opens, Power, GroupAt;
    ExpandedSizes(s, at);
    LoadBound(b, words, Opens(s) - 1);
    LoadPlus(b, words, rest);
    LoadFirst(b, s, rest);
    PowerMore(b, Opens(s) - 1, Opens(s) - 1);
    PowerStep(b, Opens(s));
    Outweighs(|words|, b, Power(b, Opens(s) - 1));
  }

  lemma PowerStep(b: nat, m: nat)
    requires m > 0
    ensures Power(b, m) == b * Power(b, m - 1) + Power(b, m - 1)
  {
    var w := Power(b, m - 1);
    assert (b + 1) * w == b * w + w;
  }

  lemma Outweighs(n: nat, b: nat, w: nat)
    requires n <= b && w >= 1
    ensures n * w < b * w + w
  {
    assert (b - n) * w >= 0;
    assert b * w == n * w + (b - n) * w;
  }

  lemma LoadFirst(b: nat, s: seq<Tok>, rest: seq<seq<Tok>>)
    ensures Load(b, [s] + rest) == Power(b, Opens(s)) + Load(b, rest)
  {
    assert ([s] + rest)[1..] == rest;
  }

  lemma ExpandedSizes(s: seq<Tok>, at: int)
    requires GroupAt(s, at)
    ensures var words := Spliced(s[..at], Pieces(s, at + 1, 0), s[Close(s, at + 1, 0) + 1..]);
            Opens(s) > 0 && 2 <= |words| <= |s| && forall k :: 0 <= k < |words| ==>
            Opens(words[k]) <= Opens(s) - 1 && |words[k]| < |s|
  {
    hide Opens, Pieces, Close, Spliced;
    var pieces := Pieces(s, at + 1, 0);
    var words := Spliced(s[..at], pieces, s[Close(s, at + 1, 0) + 1..]);
    SplicedAt(s[..at], pieces, s[Close(s, at + 1, 0) + 1..], 0);
    forall k | 0 <= k < |words| ensures Opens(words[k]) <= Opens(s) - 1 && |words[k]| < |s| { FewerBraces(s, at, k); }
    FewerBraces(s, at, 0);
  }

  lemma {:induction false} OpensLoosened(s: seq<Tok>, s': seq<Tok>)
    requires Loosened(s, s')
    ensures Opens(s') <= Opens(s)
  {
    if s != [] {
      var n := |s| - 1;
      assert Loosened(s[..n], s'[..n]);
      OpensLoosened(s[..n], s'[..n]);
    }
  }

  // ----- What prefork leaves -----

  function Text(w: Word): string
    requires IsChars(w)
    decreases w
  {
    match w
    case End => ""
    case Chr(c, rest) => [c] + Text(rest)
  }

  function Groups(w: Word): nat
    decreases w
  {
    match w
    case End => 0
    case Chr(_, rest) => Groups(rest)
    case Group(alts, rest) => 1 + GroupsAlts(alts) + Groups(rest)
  }

  function GroupsAlts(a: Alts): nat
    decreases a
  {
    match a
    case Last(w) => Groups(w)
    case More(w, more) => Groups(w) + GroupsAlts(more)
  }

  lemma {:induction false} GroupsAppend(a: Word, b: Word)
    ensures Groups(Append(a, b)) == Groups(a) + Groups(b)
    decreases a
  {
    match a
    case End =>
    case Chr(_, rest) => GroupsAppend(rest, b);
    case Group(_, rest) => GroupsAppend(rest, b);
  }

  /** What is before the first group, its alternatives, and what is after it. */
  function Split(w: Word): (r: (Word, Alts, Word))
    requires !IsChars(w) && Proper(w)
    ensures w == Append(r.0, Group(r.1, r.2)) && IsChars(r.0) && ProperAlts(r.1) && r.1.More? && Proper(r.2)
    ensures Groups(w) == 1 + GroupsAlts(r.1) + Groups(r.2)
    decreases w
  {
    match w
    case Chr(c, rest) => var r := Split(rest); (Chr(c, r.0), r.1, r.2)
    case Group(alts, rest) => (End, alts, rest)
  }

  function Choice(pre: Word, w: Word, post: Word): (r: Word)
    requires IsChars(pre) && Proper(w) && Proper(post)
    ensures Proper(r) && Groups(r) == Groups(w) + Groups(post)
  {
    CharsProper(pre);
    CharsGroups(pre);
    ProperAppend(w, post);
    ProperAppend(pre, Append(w, post));
    GroupsAppend(w, post);
    GroupsAppend(pre, Append(w, post));
    Append(pre, Append(w, post))
  }

  /** A word that is looked at while it is expanded: the first choice takes its place,
      the others are come to later. */
  function Chain(w: Word): seq<string>
    requires Proper(w)
    decreases Groups(w), 1, End
  {
    if IsChars(w) then [Text(w)]
    else
      var (pre, alts, post) := Split(w);
      Chain(Choice(pre, alts.word, post)) + VisitAlts(pre, alts.alts, post)
  }

  /** A word that is come to: it is removed if it is empty. */
  function Visit(w: Word): seq<string>
    requires Proper(w)
    decreases Groups(w), 2, End
  {
    if w == End then [] else Chain(w)
  }

  function VisitAlts(pre: Word, a: Alts, post: Word): seq<string>
    requires IsChars(pre) && ProperAlts(a) && Proper(post)
    decreases GroupsAlts(a) + Groups(post) + 1, 0, a
  {
    match a
    case Last(w) => Visit(Choice(pre, w, post))
    case More(w, more) => Visit(Choice(pre, w, post)) + VisitAlts(pre, more, post)
  }

  function VisitAll(ws: seq<Word>): seq<string>
    requires AllProper(ws)
  {
    if ws == [] then [] else assert Proper(ws[0]); Visit(ws[0]) + VisitAll(ws[1..])
  }

  lemma {:induction false} CharsGroups(w: Word)
    requires IsChars(w)
    ensures Groups(w) == 0
    decreases w
  {
    if w.Chr? { CharsGroups(w.rest); }
  }

  /** The words come to later are the other choices. */
  lemma {:induction false} VisitChoices(pre: Word, a: Alts, post: Word)
    requires IsChars(pre) && ProperAlts(a) && Proper(post) && AllProper(Choices(pre, a, post))
    ensures VisitAlts(pre, a, post) == VisitAll(Choices(pre, a, post))
    decreases a
  {
    var c := Choices(pre, a, post);
    match a
    case Last(w) => assert VisitAll(c[1..]) == [];
    case More(w, more) =>
      assert c[1..] == Choices(pre, more, post);
      VisitChoices(pre, more, post);
  }

  lemma {:induction false} VisitAllPlus(a: seq<Word>, b: seq<Word>)
    requires AllProper(a) && AllProper(b)
    ensures AllProper(a + b) && VisitAll(a + b) == VisitAll(a) + VisitAll(b)
  {
    hide Visit, Proper;
    var c := a + b;
    forall k | 0 <= k < |c| ensures Proper(c[k]) { if k >= |a| { assert c[k] == b[k - |a|]; } }
    if a == [] {
      assert c == b;
    } else {
      VisitAllPlus(a[1..], b);
      assert c[0] == a[0] && c[1..] == a[1..] + b;
      Regroup(Visit(a[0]), VisitAll(a[1..]), VisitAll(b));
    }
  }

  lemma Regroup(x: seq<string>, y: seq<string>, z: seq<string>)
    ensures x + (y + z) == (x + y) + z
  {}

  // ----- What prefork leaves, and the product -----

  /** The strings that are not empty. */
  function NonEmpty(xs: seq<string>): seq<string> {
    if xs == [] then [] else (if xs[0] == "" then [] else [xs[0]]) + NonEmpty(xs[1..])
  }

  lemma {:induction false} NonEmptyPlus(a: seq<string>, b: seq<string>)
    ensures NonEmpty(a + b) == NonEmpty(a) + NonEmpty(b)
  {
    if a == [] {
      assert a + b == b;
    } else {
      NonEmptyPlus(a[1..], b);
      assert (a + b)[0] == a[0] && (a + b)[1..] == a[1..] + b;
      var first := if a[0] == "" then [] else [a[0]];
      assert first + (NonEmpty(a[1..]) + NonEmpty(b)) == (first + NonEmpty(a[1..])) + NonEmpty(b);
    }
  }

  /** No choice but the first is an empty word. */
  predicate Whole(w: Word)
    requires Proper(w)
    decreases Groups(w), 1, End
  {
    IsChars(w) ||
    var (pre, alts, post) := Split(w);
    Whole(Choice(pre, alts.word, post)) && WholeAlts(pre, alts.alts, post)
  }

  predicate WholeAlts(pre: Word, a: Alts, post: Word)
    requires IsChars(pre) && ProperAlts(a) && Proper(post)
    decreases GroupsAlts(a) + Groups(post) + 1, 0, a
  {
    var c := Choice(pre, a.word, post);
    c != End && Whole(c) && (a.More? ==> WholeAlts(pre, a.alts, post))
  }

  /** a is b without some empty strings; all is kept exactly if `whole`. */
  ghost predicate Without(a: seq<string>, b: seq<string>, whole: bool) {
    NonEmpty(a) == NonEmpty(b) && |a| <= |b| && (whole <==> a == b) && (!whole ==> |a| < |b|)
  }

  lemma WithoutPlus(a: seq<string>, b: seq<string>, whole: bool, a': seq<string>, b': seq<string>, whole': bool)
    requires Without(a, b, whole) && Without(a', b', whole')
    ensures Without(a + a', b + b', whole && whole')
  {
    NonEmptyPlus(a, a');
    NonEmptyPlus(b, b');
  }

  lemma {:induction false} TextDenotes(w: Word)
    requires IsChars(w)
    ensures Denote(w) == [Text(w)] && Spells(Print(w), Text(w))
    decreases w
  {
    match w
    case End =>
    case Chr(c, rest) =>
      TextDenotes(rest);
      assert [Text(rest)][1..] == [];
      assert Prefix([c], [Text(rest)]) == [[c] + Text(rest)];
  }

  /** What is left of a word is the product it stands for, without the empty words
      among the later choices: exactly the product if and only if there are none. */
  lemma {:induction false} ChainDenotes(w: Word)
    requires Proper(w)
    ensures Without(Chain(w), Denote(w), Whole(w))
    decreases Groups(w), 1, End
  {
    if IsChars(w) {
      TextDenotes(w);
    } else {
      hide Without, Denote, NonEmpty;
      var (pre, alts, post) := Split(w);
      var first := Choice(pre, alts.word, post);
      ChainDenotes(first);
      VisitDenotes(pre, alts.alts, post);
      ChoicesDenote(pre, alts, post);
      DenoteAllFirst(Choices(pre, alts, post));
      assert Choices(pre, alts, post)[1..] == Choices(pre, alts.alts, post);
      WithoutPlus(Chain(first), Denote(first), Whole(first), VisitAlts(pre, alts.alts, post),
                  DenoteAll(Choices(pre, alts.alts, post)), WholeAlts(pre, alts.alts, post));
    }
  }

  lemma DenoteAllFirst(ws: seq<Word>)
    requires ws != []
    ensures DenoteAll(ws) == Denote(ws[0]) + DenoteAll(ws[1..])
  {}

  lemma {:induction false} VisitDenotes(pre: Word, a: Alts, post: Word)
    requires IsChars(pre) && ProperAlts(a) && Proper(post)
    ensures Without(VisitAlts(pre, a, post), DenoteAll(Choices(pre, a, post)), WholeAlts(pre, a, post))
    decreases GroupsAlts(a) + Groups(post) + 1, 0, a
  {
    hide Without, Denote, NonEmpty;
    var c := Choice(pre, a.word, post);
    var cs := Choices(pre, a, post);
    DenoteAllFirst(cs);
    if c == End { EndRemoved(); } else { ChainDenotes(c); }
    match a
    case Last(w) =>
      assert DenoteAll(cs[1..]) == [];
      assert Denote(c) + [] == Denote(c);
    case More(w, more) =>
      VisitDenotes(pre, more, post);
      assert cs[1..] == Choices(pre, more, post);
      WithoutPlus(Visit(c), Denote(c), c != End && Whole(c), VisitAlts(pre, more, post),
                  DenoteAll(Choices(pre, more, post)), WholeAlts(pre, more, post));
  }

  lemma EndRemoved()
    ensures Without([], Denote(End), false)
  {
    assert NonEmpty([""]) == [] by { assert NonEmpty([""][1..]) == []; }
  }

  /** The whole list: exactly the products if and only if no word is empty when the
      loop comes to it. */
  lemma {:induction false} VisitAllDenotes(ws: seq<Word>)
    requires AllProper(ws)
    ensures NonEmpty(VisitAll(ws)) == NonEmpty(DenoteAll(ws))
    ensures Without(VisitAll(ws), DenoteAll(ws), forall k :: 0 <= k < |ws| ==> ws[k] != End && Whole(ws[k]))
  {
    if ws != [] {
      var w, more := ws[0], ws[1..];
      assert Proper(w);
      VisitAllDenotes(more);
      if w == End { EndRemoved(); } else { ChainDenotes(w); }
      var rest := forall k :: 0 <= k < |more| ==> more[k] != End && Whole(more[k]);
      var all := forall k :: 0 <= k < |ws| ==> ws[k] != End && Whole(ws[k]);
      assert all == ((w != End && Whole(w)) && rest) by {
        forall k | 0 <= k < |more| ensures more[k] == ws[k + 1] {}
        if (w != End && Whole(w)) && rest {
          forall k | 0 <= k < |ws| ensures ws[k] != End && Whole(ws[k]) { if k > 0 { assert ws[k] == more[k - 1]; } }
        }
      }
      WithoutPlus(Visit(w), Denote(w), w != End && Whole(w), VisitAll(more), DenoteAll(more), rest);
    }
  }

  ghost predicate AllProper(ws: seq<Word>) {
    forall k :: 0 <= k < |ws| ==> Proper(ws[k])
  }

  function SpelledAll(list: seq<seq<Tok>>): (r: seq<string>)
    ensures |r| == |list| && forall k :: 0 <= k < |list| ==> r[k] == Spelled(list[k])
  {
    if list == [] then [] else [Spelled(list[0])] + SpelledAll(list[1..])
  }

  /** Together with what the others will leave they are `all`.  `current` says that
      the first of the others is already being looked at. */
  ghost predicate Together(done: seq<string>, rest: seq<Word>, all: seq<string>, current: bool)
    requires AllProper(rest)
  {
    if current then rest != [] && (assert Proper(rest[0]); done + (Chain(rest[0]) + VisitAll(rest[1..])) == all)
    else done + VisitAll(rest) == all
  }

  /** The first i words are finished; the others are still to be read.  If the scan gives
      up in no word of the list no token is left in the finished words. */
  ghost predicate StandsFor(list: seq<seq<Tok>>, i: nat, all: seq<string>, full: bool, current: bool) {
    i <= |list| && Together(SpelledAll(list[..i]), Readings(list[i..]), all, current) && (full ==> Cleared(list, i))
  }

  ghost predicate Plain(s: seq<Tok>) {
    NoTokens(s, 0, |s|)
  }

  ghost predicate Cleared(list: seq<seq<Tok>>, i: nat) {
    (forall k :: i <= k < |list| ==> Full(list[k])) && forall k :: 0 <= k < i && k < |list| ==> Plain(list[k])
  }

  lemma {:induction false} ProperAppend(a: Word, b: Word)
    requires Proper(a) && Proper(b)
    ensures Proper(Append(a, b))
    decreases a
  {
    match a
    case End =>
    case Chr(_, rest) => ProperAppend(rest, b);
    case Group(_, rest) => ProperAppend(rest, b);
  }

  lemma {:induction false} CharsProper(w: Word)
    requires IsChars(w)
    ensures Proper(w)
    decreases w
  {
    if w.Chr? { CharsProper(w.rest); }
  }

  lemma {:induction false} ChoicesProper(pre: Word, alts: Alts, post: Word)
    requires IsChars(pre) && ProperAlts(alts) && Proper(post)
    ensures AllProper(Choices(pre, alts, post))
    decreases alts
  {
    CharsProper(pre);
    ProperAppend(alts.word, post);
    ProperAppend(pre, Append(alts.word, post));
    if alts.More? { ChoicesProper(pre, alts.alts, post); }
  }

  lemma {:induction false} ReadingsPlus(a: seq<seq<Tok>>, b: seq<seq<Tok>>)
    ensures Readings(a + b) == Readings(a) + Readings(b)
  {
    hide Reading;
    if a == [] {
      assert a + b == b;
    } else {
      ReadingsPlus(a[1..], b);
      assert (a + b)[0] == a[0] && (a + b)[1..] == a[1..] + b;
    }
  }

  lemma ReadingsFirst(list: seq<seq<Tok>>, i: nat)
    requires i < |list|
    ensures Readings(list[i..]) == [Reading(list[i])] + Readings(list[i + 1..])
  {
    hide Reading;
    assert list[i..][0] == list[i] && list[i..][1..] == list[i + 1..];
  }

  lemma {:induction false} SplitUnique(pre: Word, alts: Alts, post: Word)
    requires var w := Append(pre, Group(alts, post)); Proper(w) && IsChars(pre)
    ensures var w := Append(pre, Group(alts, post)); !IsChars(w) && Split(w) == (pre, alts, post)
    decreases pre
  {
    if pre.Chr? { SplitUnique(pre.rest, alts, post); }
  }

  /** The first word is replaced by the choices of its first group. */
  lemma StandsExpanded(list: seq<seq<Tok>>, i: nat, all: seq<string>, full: bool, at: int, words: seq<seq<Tok>>)
    requires StandsFor(list, i, all, full, true) && i < |list| && GroupAt(list[i], at)
    requires words == Spliced(list[i][..at], Pieces(list[i], at + 1, 0), list[i][Close(list[i], at + 1, 0) + 1..])
    ensures StandsFor(list[..i] + words + list[i + 1..], i, all, full, true)
  {
    hide Pieces, Close, Spliced, Together, Reading, Tame, Read, Full;
    var s := list[i];
    ExpandReads(s, at);
    hide GroupAt;
    var pre, alts, post := Letters(s[..at]), ReadAlts(Pieces(s, at + 1, 0)), Read(Tame(s), Close(s, at + 1, 0) + 1);
    SplitUnique(pre, alts, post);
    ReadingsFirst(list, i);
    ReadingsPlus(words, list[i + 1..]);
    SpliceIn(list, i, words);
    TogetherExpanded(SpelledAll(list[..i]), Readings(list[i..]), all);
    if full { ClearedSpliced(list, i, words); }
  }

  lemma ClearedSpliced(list: seq<seq<Tok>>, i: nat, words: seq<seq<Tok>>)
    requires i < |list| && Cleared(list, i) && AllFull(words)
    ensures Cleared(list[..i] + words + list[i + 1..], i)
  {
    hide Full, Plain;
    var list' := list[..i] + words + list[i + 1..];
    forall k | i <= k < |list'| ensures Full(list'[k]) {
      if k < i + |words| { assert list'[k] == words[k - i]; } else { assert list'[k] == list[k - |words| + 1]; }
    }
  }

  lemma TogetherExpanded(done: seq<string>, rest: seq<Word>, all: seq<string>)
    requires AllProper(rest) && Together(done, rest, all, true) && !IsChars(rest[0])
    ensures var (pre, alts, post) := Split(rest[0]); var rest' := Choices(pre, alts, post) + rest[1..];
            AllProper(rest') && Together(done, rest', all, true)
  {
    var (pre, alts, post) := Split(rest[0]);
    ChoicesProper(pre, alts, post);
    var cs, more := Choices(pre, alts, post), rest[1..];
    assert cs[1..] == Choices(pre, alts.alts, post);
    ChoicesProper(pre, alts.alts, post);
    VisitChoices(pre, alts.alts, post);
    VisitAllPlus(cs[1..], more);
    var rest' := cs + more;
    forall k | 0 <= k < |rest'| ensures Proper(rest'[k]) { if k >= |cs| { assert rest'[k] == more[k - |cs|]; } }
    assert rest'[0] == cs[0] && rest'[1..] == cs[1..] + more;
    var c := Chain(cs[0]);
    assert c + (VisitAll(cs[1..]) + VisitAll(more)) == (c + VisitAll(cs[1..])) + VisitAll(more);
  }

  lemma SpliceIn(list: seq<seq<Tok>>, i: nat, words: seq<seq<Tok>>)
    requires i < |list|
    ensures var list' := list[..i] + words + list[i + 1..];
            list'[i..] == words + list[i + 1..] && list'[..i] == list[..i]
  {}

  /** hasbraces found a group in the first word: the word is what it was. */
  lemma StandsChecked(list: seq<seq<Tok>>, i: nat, all: seq<string>, full: bool, s: seq<Tok>)
    requires StandsFor(list, i, all, full, true) && i < |list|
    requires Reading(s) == Reading(list[i]) && (Full(list[i]) ==> Full(s))
    ensures StandsFor(list[i := s], i, all, full, true)
  {
    hide Together, Reading, Full, Plain;
    ReadingsFirst(list, i);
    ReadingsFirst(list[i := s], i);
    assert list[i := s][..i] == list[..i] && list[i := s][i + 1..] == list[i + 1..];
  }

  /** It found none: the word is finished. */
  lemma StandsFinished(list: seq<seq<Tok>>, i: nat, all: seq<string>, full: bool, s: seq<Tok>)
    requires StandsFor(list, i, all, full, true) && i < |list|
    requires Reading(list[i]) == Letters(s) && (Full(list[i]) ==> Plain(s))
    ensures StandsFor(list[i := s], i + 1, all, full, false)
  {
    hide Reading, Full, Plain, Together, Letters;
    ReadingsFirst(list, i);
    var list', rest := list[i := s], Readings(list[i + 1..]);
    assert list'[i + 1..] == list[i + 1..];
    assert Readings(list[i..]) == [Letters(s)] + rest;
    TogetherFinished(SpelledAll(list[..i]), s, rest, all);
    assert SpelledAll(list'[..i + 1]) == SpelledAll(list[..i]) + [Spelled(s)];
  }

  lemma TogetherFinished(done: seq<string>, u: seq<Tok>, rest: seq<Word>, all: seq<string>)
    requires AllProper(rest) && AllProper([Letters(u)] + rest) && Together(done, [Letters(u)] + rest, all, true)
    ensures Together(done + [Spelled(u)], rest, all, false)
  {
    LettersText(u);
    assert ([Letters(u)] + rest)[1..] == rest;
    assert done + ([Spelled(u)] + VisitAll(rest)) == (done + [Spelled(u)]) + VisitAll(rest);
  }

  lemma {:induction false} LettersText(u: seq<Tok>)
    ensures Text(Letters(u)) == Spelled(u)
  {
    if u != [] { LettersText(u[1..]); }
  }

  /** A word that is not empty is looked at. */
  lemma StandsEntered(list: seq<seq<Tok>>, i: nat, all: seq<string>, full: bool)
    requires StandsFor(list, i, all, full, false) && i < |list| && list[i] != []
    ensures StandsFor(list, i, all, full, true)
  {
    hide Reading;
    ReadingsFirst(list, i);
    ReadingEmpty(list[i]);
    assert Readings(list[i..])[1..] == Readings(list[i + 1..]);
  }

  lemma ReadingEmpty(s: seq<Tok>)
    ensures Reading(s) == End <==> s == []
  {
    hide Tame, Pieces, Close, IsGroup, ReadAlts;
  }

  /** An empty word is removed. */
  lemma StandsRemoved(list: seq<seq<Tok>>, i: nat, all: seq<string>, full: bool)
    requires StandsFor(list, i, all, full, false) && i < |list| && list[i] == []
    ensures StandsFor(list[..i] + list[i + 1..], i, all, full, false)
  {
    hide Reading, Full;
    ReadingsFirst(list, i);
    ReadingEmpty(list[i]);
    var rest := Readings(list[i + 1..]);
    assert Readings(list[i..])[0] == End && Readings(list[i..])[1..] == rest;
    assert [] + VisitAll(rest) == VisitAll(rest);
    var list' := list[..i] + list[i + 1..];
    assert list'[..i] == list[..i] && list'[i..] == list[i + 1..];
    if full { ClearedSpliced(list, i, []); }
    assert list[..i] + [] + list[i + 1..] == list';
  }

  // ----- prefork -----

  ghost predicate Short(list: seq<seq<Tok>>, b: nat) {
    forall k :: 0 <= k < |list| ==> |list[k]| <= b
  }

  /** The braces of the word at i are checked; this lowers no other word. */
  lemma LoadChecked(list: seq<seq<Tok>>, i: nat, s: seq<Tok>, b: nat)
    requires i < |list| && Loosened(list[i], s) && Short(list, b)
    ensures var list' := list[i := s];
      Load(b, list'[i..]) <= Load(b, list[i..]) && Short(list', b) &&
      list'[i..] == [s] + list[i + 1..]
  {
    hide Load, Power, Opens;
    OpensLoosened(list[i], s);
    PowerMore(b, Opens(s), Opens(list[i]));
    LoadFirst(b, list[i], list[i + 1..]);
    LoadFirst(b, s, list[i + 1..]);
    assert list[i..] == [list[i]] + list[i + 1..];
    assert list[i := s][i..] == [s] + list[i + 1..];
  }

  lemma LoadNext(list: seq<seq<Tok>>, i: nat, b: nat)
    requires i < |list|
    ensures Load(b, list[i + 1..]) < Load(b, list[i..])
  {
    LoadFirst(b, list[i], list[i + 1..]);
    assert list[i..] == [list[i]] + list[i + 1..];
    PowerMore(b, Opens(list[i]), Opens(list[i]));
  }

  lemma LoadSpliced(list: seq<seq<Tok>>, i: nat, at: int, words: seq<seq<Tok>>, b: nat)
    requires i < |list| && Short(list, b) && GroupAt(list[i], at)
    requires words == Spliced(list[i][..at], Pieces(list[i], at + 1, 0), list[i][Close(list[i], at + 1, 0) + 1..])
    ensures var list' := list[..i] + words + list[i + 1..];
            Load(b, list'[i..]) < Load(b, list[i..]) && Short(list', b) && i < |list'|
  {
    hide Load, GroupAt, Spliced, Pieces, Close;
    LoadExpand(b, list[i], at, words, list[i + 1..]);
    assert list[i..] == [list[i]] + list[i + 1..];
    var list' := list[..i] + words + list[i + 1..];
    assert list'[i..] == words + list[i + 1..];
    forall k | 0 <= k < |list'| ensures |list'[k]| <= b {
      if i <= k < i + |words| {
        assert list'[k] == words[k - i];
      } else if k >= i + |words| { assert list'[k] == list[k - |words| + 1]; }
    }
  }

  /** hasbraces on a word. */
  method Check(s0: seq<Tok>) returns (found: bool, s: seq<Tok>, ghost at: int)
    ensures Loosened(s0, s)
    ensures found ==> GroupAt(s, at) && Reading(s) == Reading(s0) && (Full(s0) ==> Full(s))
    ensures !found ==> Reading(s0) == Letters(s) && (Full(s0) ==> Plain(s))
  {
    hide GroupAt, Reading, Loosened, Finds, GivesUp, IsGroup, Letters;
    found, s, at := HasBraces(s0);
    ghost var o := Done(found, s, at);
    if found { ReadingKept(s0, o); } else { ReadingChars(s0, o); }
    LoosenedLength(s0, s);
  }

  lemma LoosenedLength(s: seq<Tok>, s': seq<Tok>)
    requires Loosened(s, s')
    ensures |s'| == |s|
  {}

  /** prefork.  The words that are left are, in order, the Cartesian products that the
      words of the list stand for, but for empty strings; they are exactly that if and only
      if no word is empty when the loop comes to it.  No token is left in them, unless
      hasbraces gives up in a word. */
  method Prefork(words: seq<seq<Tok>>) returns (list: seq<seq<Tok>>)
    ensures SpelledAll(list) == VisitAll(Readings(words))
    ensures NonEmpty(SpelledAll(list)) == NonEmpty(DenoteAll(Readings(words)))
    ensures var ws := Readings(words);
            SpelledAll(list) == DenoteAll(ws) <==> forall k :: 0 <= k < |ws| ==> ws[k] != End && Whole(ws[k])
    ensures AllFull(words) ==> forall k :: 0 <= k < |list| ==> Plain(list[k])
  {
    list := words;
    var i: nat := 0;
    ghost var b := Longest(words);
    ghost var all, full := VisitAll(Readings(words)), AllFull(words);
    StandsStart(words);
    VisitAllDenotes(Readings(words));
    hide StandsFor, GroupAt, Spliced, Pieces, Close, Load, Loosened, VisitAll, DenoteAll, NonEmpty, Whole, AllFull;
    hide Cleared, Plain, Readings;
    while i < |list|
      invariant i <= |list| && Short(list, b) && StandsFor(list, i, all, full, false)
      decreases Load(b, list[i..])
    {
      LoadNext(list, i, b);
      if list[i] != [] {
        StandsEntered(list, i, all, full);
        list := Expand(list, i, all, full, b);
        LoadNext(list, i, b);
        i := i + 1;
      } else {
        StandsRemoved(list, i, all, full);
        Removed(list, i, b);
        list := list[..i] + list[i + 1..];
      }
    }
    StandsEnd(list, all, full);
  }

  /** while (hasbraces) xpandbraces. */
  method Expand(list0: seq<seq<Tok>>, i: nat, ghost all: seq<string>, ghost full: bool, ghost b: nat)
    returns (list: seq<seq<Tok>>)
    requires i < |list0| && Short(list0, b) && StandsFor(list0, i, all, full, true)
    ensures i < |list| && Short(list, b) && Load(b, list[i..]) <= Load(b, list0[i..])
    ensures StandsFor(list, i + 1, all, full, false)
  {
    list := list0;
    hide GroupAt, Spliced, Pieces, Close, Load, Loosened, StandsFor, Reading, Full, Plain, Letters;
    var found, s;
    ghost var at;
    found, s, at := Check(list[i]);
    LoadChecked(list, i, s, b);
    if found { StandsChecked(list, i, all, full, s); } else { StandsFinished(list, i, all, full, s); }
    list := list[i := s];
    while found
      invariant i < |list| && Short(list, b) && Load(b, list[i..]) <= Load(b, list0[i..])
      invariant found ==> GroupAt(list[i], at) && StandsFor(list, i, all, full, true)
      invariant !found ==> StandsFor(list, i + 1, all, full, false)
      decreases Load(b, list[i..]), found
    {
      var words := Xpandbraces(list[i], at);
      LoadSpliced(list, i, at, words, b);
      StandsExpanded(list, i, all, full, at, words);
      list := list[..i] + words + list[i + 1..];
      found, s, at := Check(list[i]);
      LoadChecked(list, i, s, b);
      if found { StandsChecked(list, i, all, full, s); } else { StandsFinished(list, i, all, full, s); }
      list := list[i := s];
    }
  }

  lemma StandsStart(words: seq<seq<Tok>>)
    ensures StandsFor(words, 0, VisitAll(Readings(words)), AllFull(words), false)
  {
    hide Reading, Full;
    assert words[0..] == words;
    assert [] + VisitAll(Readings(words)) == VisitAll(Readings(words));
  }

  lemma StandsEnd(list: seq<seq<Tok>>, all: seq<string>, full: bool)
    requires StandsFor(list, |list|, all, full, false)
    ensures SpelledAll(list) == all && (full ==> forall k :: 0 <= k < |list| ==> Plain(list[k]))
  {
    assert list[..|list|] == list && Readings(list[|list|..]) == [];
    assert SpelledAll(list) + [] == SpelledAll(list);
  }

  /** Printed words are read as themselves, so that prefork leaves what they stand for. */
  lemma {:induction false} PrintedList(ws: seq<Word>)
    requires AllProper(ws)
    ensures Readings(PrintAll(ws)) == ws && AllFull(PrintAll(ws))
  {
    hide Reading, Full, Print;
    if ws != [] {
      assert Proper(ws[0]);
      PrintedReading(ws[0]);
      PrintedList(ws[1..]);
      assert PrintAll(ws)[1..] == PrintAll(ws[1..]);
      assert forall k :: 1 <= k < |PrintAll(ws)| ==> PrintAll(ws)[k] == PrintAll(ws[1..])[k - 1];
    }
  }

  lemma Removed(list: seq<seq<Tok>>, i: nat, b: nat)
    requires i < |list| && Short(list, b)
    ensures Short(list[..i] + list[i + 1..], b) && (list[..i] + list[i + 1..])[i..] == list[i + 1..]
  {
    var list' := list[..i] + list[i + 1..];
    forall k | 0 <= k < |list'| ensures |list'[k]| <= b { if k >= i { assert list'[k] == list[k + 1]; } }
  }

  ghost function Longest(list: seq<seq<Tok>>): (b: nat)
    ensures Short(list, b)
  {
    if list == [] then 0
    else
      var b := Longest(list[1..]);
      assert forall k :: 1 <= k < |list| ==> list[k] == list[1..][k - 1];
      if |list[0]| > b then |list[0]| else b
  }

  /** An empty string that is not the first of its word is lost: of {a,} only a is
      left.  Of {,a} both are. */
  lemma EmptyLost()
    ensures var w := Group(More(Chr('a', End), Last(End)), End); Proper(w) && Chain(w) == ["a"] && Denote(w) != Chain(w)
    ensures var w := Group(More(End, Last(Chr('a', End))), End); Proper(w) && Chain(w) == ["", "a"] == Denote(w)
  {
    var a := Chr('a', End);
    var w := Group(More(a, Last(End)), End);
    assert Choice(End, a, End) == a && Choice(End, End, End) == End;
    assert Text(a) == "a";
    assert Chain(a) == ["a"] && !Whole(w);
    ChainDenotes(w);
    var w' := Group(More(End, Last(a)), End);
    assert Whole(w');
    ChainDenotes(w');
  }
}
