/** The laws of alias expansion: which words are expanded (exalias of Src/lex.c), and that
    words are read from the input in its order, an alias giving way to its text. */
module AliasLaws {
  import opened InputStream

  predicate Blank(c: char) {
    c == ' ' || c == '\t'
  }

  /** A character that is a token, or the beginning of one. */
  predicate Closing(c: char) {
    c in "\n;&|<>()"
  }

  predicate Ends(c: char) {
    Blank(c) || Closing(c)
  }

  ghost predicate AllBlank(s: string) {
    forall k :: 0 <= k < |s| ==> Blank(s[k])
  }

  ghost predicate IsWord(s: string) {
    s != "" && forall k :: 0 <= k < |s| ==> !Ends(s[k])
  }

  /** The alias table: the name of each alias, and whether it is a global one. */
  datatype Table = Table(names: seq<string>, global: seq<bool>)

  /** What was found in the alias table. */
  ghost predicate Named(table: Table, word: string, a: int) {
    -1 <= a < |table.names| && if a >= 0 then table.names[a] == word else word !in table.names
  }

  /** What became of a word ("" for a token of its own or the end): the alias it names (or
      -1), whether that was expanded, whether the word was in command position, and the
      aliases in use then; gone are the aliases whose texts ended while it was read.  The
      blanks before it were skipped, and token is the character that is a token. */
  datatype Read = Read(word: string, alias: int, expanded: bool, cmdpos: bool, inuse: set<int>, gone: seq<int>,
                       skipped: string, token: string)

  /** Whether the next word may be an alias wherever it stands, after w. */
  ghost function NextMore(texts: seq<string>, w: Read, more: bool): bool {
    if w.word != "" && !w.expanded then false else MoreAfter(texts, more, w.gone)
  }

  /** w was expanded exactly if it names an alias that is not in use and is a global one, or
      w is in command position, or after an alias whose text ended with a blank. */
  ghost predicate Decided(table: Table, texts: seq<string>, w: Read, more: bool)
    requires |table.names| == |table.global|
  {
    if w.word == "" then !w.expanded
    else
      IsWord(w.word) && Named(table, w.word, w.alias) &&
      (w.expanded <==>
        w.alias >= 0 && w.alias !in w.inuse &&
        (table.global[w.alias] || w.cmdpos || MoreAfter(texts, more, w.gone)))
  }

  ghost function MoreThen(texts: seq<string>, ws: seq<Read>, more: bool): bool {
    if ws == [] then more else NextMore(texts, ws[|ws| - 1], MoreThen(texts, ws[..|ws| - 1], more))
  }

  ghost predicate Lawful(table: Table, texts: seq<string>, ws: seq<Read>, more: bool)
    requires |table.names| == |table.global|
  {
    forall k :: 0 <= k < |ws| ==> Decided(table, texts, ws[k], MoreThen(texts, ws[..k], more))
  }

  /** The words that are left. */
  ghost function Words(ws: seq<Read>): seq<string> {
    if ws == [] then [] else
      var w := ws[|ws| - 1];
      Words(ws[..|ws| - 1]) + if w.expanded then [] else [w.word]
  }

  lemma {:induction false} MorePlus(texts: seq<string>, a: seq<Read>, b: seq<Read>, more: bool)
    ensures MoreThen(texts, a + b, more) == MoreThen(texts, b, MoreThen(texts, a, more))
    ensures Words(a + b) == Words(a) + Words(b)
    decreases |b|
  {
    if b == [] {
      assert a + b == a;
    } else {
      assert (a + b)[..|a + b| - 1] == a + b[..|b| - 1];
      MorePlus(texts, a, b[..|b| - 1], more);
    }
  }

  lemma LawfulPlus(table: Table, texts: seq<string>, a: seq<Read>, b: seq<Read>, more: bool)
    requires |table.names| == |table.global| && Lawful(table, texts, a, more)
    requires Lawful(table, texts, b, MoreThen(texts, a, more))
    ensures Lawful(table, texts, a + b, more)
  {
    hide Decided, MoreThen;
    forall k | 0 <= k < |a + b| ensures Decided(table, texts, (a + b)[k], MoreThen(texts, (a + b)[..k], more)) {
      if k < |a| {
        assert (a + b)[..k] == a[..k];
      } else {
        assert (a + b)[..k] == a + b[..k - |a|];
        MorePlus(texts, a, b[..k - |a|], more);
      }
    }
  }

  /** One more of them. */
  lemma LawfulNext(table: Table, texts: seq<string>, ws: seq<Read>, w: Read, more: bool)
    requires |table.names| == |table.global| && Lawful(table, texts, ws, more)
    requires Decided(table, texts, w, MoreThen(texts, ws, more))
    ensures Lawful(table, texts, ws + [w], more)
    ensures MoreThen(texts, ws + [w], more) == NextMore(texts, w, MoreThen(texts, ws, more))
    ensures Words(ws + [w]) == Words(ws) + if w.expanded then [] else [w.word]
  {
    hide Decided;
    assert (ws + [w])[..|ws|] == ws;
    forall k | 0 <= k < |ws + [w]|
      ensures Decided(table, texts, (ws + [w])[k], MoreThen(texts, (ws + [w])[..k], more))
    {
      if k < |ws| { assert (ws + [w])[..k] == ws[..k]; }
    }
  }

  lemma {:induction false} NoWords(ws: seq<Read>)
    requires forall k :: 0 <= k < |ws| ==> ws[k].expanded
    ensures Words(ws) == []
  {
    if ws != [] { NoWords(ws[..|ws| - 1]); }
  }

  /** The words read for the one that is left: all but that one were expanded. */
  ghost predicate Chain(ws: seq<Read>, incmdpos: bool) {
    forall k :: 0 <= k < |ws| ==> ws[k].cmdpos == incmdpos && (k < |ws| - 1 ==> ws[k].expanded)
  }

  lemma DecidedBy(table: Table, texts: seq<string>, w: Read, more: bool)
    requires |table.names| == |table.global|
    requires if w.word == "" then !w.expanded else
             IsWord(w.word) && Named(table, w.word, w.alias) &&
             (w.expanded <==>
               w.alias >= 0 && w.alias !in w.inuse &&
               (table.global[w.alias] || w.cmdpos || MoreAfter(texts, more, w.gone)))
    ensures Decided(table, texts, w, more)
    ensures NextMore(texts, w, more) == ((w.word == "" || w.expanded) && MoreAfter(texts, more, w.gone))
  {
    hide IsWord, MoreAfter;
  }

  /** Which words are in command position, by the words before them. */
  ghost predicate Positions(ws: seq<Read>, pos: seq<string> -> bool) {
    forall k :: 0 <= k < |ws| ==> ws[k].cmdpos == pos(Words(ws[..k]))
  }

  lemma PositionsPlus(ws: seq<Read>, more: seq<Read>, pos: seq<string> -> bool)
    requires Positions(ws, pos) && Chain(more, pos(Words(ws)))
    ensures Positions(ws + more, pos)
  {
    hide Words;
    forall k | 0 <= k < |ws + more| ensures (ws + more)[k].cmdpos == pos(Words((ws + more)[..k])) {
      if k < |ws| {
        assert (ws + more)[..k] == ws[..k];
      } else {
        assert (ws + more)[..k] == ws + more[..k - |ws|];
        MorePlus([], ws, more[..k - |ws|], false);
        NoWords(more[..k - |ws|]);
        assert Words(ws) + [] == Words(ws);
      }
    }
  }

  // ----- The words and the text they are read from -----

  /** What was read for w. */
  ghost function Raw(w: Read): string {
    w.skipped + w.word + w.token
  }

  /** A word is the longest run of characters that end none, after blanks; what is no word
      is a token of its own, or the end. */
  ghost predicate Shaped(w: Read, rest: string) {
    AllBlank(w.skipped) &&
    if w.word != "" then IsWord(w.word) && w.token == "" && rest != "" && Ends(rest[0])
    else if w.token == "" then rest == "" else |w.token| == 1 && Closing(w.token[0])
  }

  /** What an expanded word is replaced by. */
  ghost function TextOf(texts: seq<string>, w: Read): string {
    if w.expanded && 0 <= w.alias < |texts| then texts[w.alias] else ""
  }

  /** w is read from the text `from`, and the text `to` is still to be read. */
  ghost predicate Took(texts: seq<string>, w: Read, from: string, to: string) {
    exists rest :: from == Raw(w) + rest && Shaped(w, rest) && to == TextOf(texts, w) + rest
  }

  ghost predicate Follows(texts: seq<string>, ws: seq<Read>, from: string, to: string)
    decreases |ws|
  {
    if ws == [] then from == to
    else
      var n := |ws| - 1;
      exists mid :: Follows(texts, ws[..n], from, mid) && Took(texts, ws[n], mid, to)
  }

  lemma FollowsNext(texts: seq<string>, ws: seq<Read>, w: Read, from: string, mid: string, to: string)
    requires Follows(texts, ws, from, mid) && Took(texts, w, mid, to)
    ensures Follows(texts, ws + [w], from, to)
  {
    assert (ws + [w])[..|ws|] == ws;
  }

  lemma {:induction false} FollowsPlus(texts: seq<string>, a: seq<Read>, b: seq<Read>, from: string, mid: string,
                                       to: string)
    requires Follows(texts, a, from, mid) && Follows(texts, b, mid, to)
    ensures Follows(texts, a + b, from, to)
    decreases |b|
  {
    hide Took;
    if b == [] {
      assert a + b == a;
    } else {
      var n := |b| - 1;
      var m :| Follows(texts, b[..n], mid, m) && Took(texts, b[n], m, to);
      FollowsPlus(texts, a, b[..n], from, mid, m);
      FollowsNext(texts, a + b[..n], b[n], from, m, to);
      assert a + b == (a + b[..n]) + [b[n]];
    }
  }

  ghost function RawAll(ws: seq<Read>): string {
    if ws == [] then "" else RawAll(ws[..|ws| - 1]) + Raw(ws[|ws| - 1])
  }

  /** Where no word is expanded every character of the input is read once, in order. */
  lemma {:induction false} NoneExpanded(texts: seq<string>, ws: seq<Read>, from: string, to: string)
    requires Follows(texts, ws, from, to) && forall k :: 0 <= k < |ws| ==> !ws[k].expanded
    ensures from == RawAll(ws) + to
    decreases |ws|
  {
    if ws != [] {
      var n := |ws| - 1;
      var mid :| Follows(texts, ws[..n], from, mid) && Took(texts, ws[n], mid, to);
      NoneExpanded(texts, ws[..n], from, mid);
      assert RawAll(ws[..n]) + (Raw(ws[n]) + to) == RawAll(ws[..n]) + Raw(ws[n]) + to;
    }
  }

  /** The word is in the line that is coming, before other lines. */
  lemma TookFrom(texts: seq<string>, w: Read, coming: string, left: string, after: string)
    requires coming == Raw(w) + left && Shaped(w, left) && (left == "" ==> w.token != "" || after == "")
    ensures Took(texts, w, coming + after, TextOf(texts, w) + left + after)
  {
    var rest := left + after;
    assert coming + after == Raw(w) + rest;
    assert TextOf(texts, w) + left + after == TextOf(texts, w) + rest;
    assert Shaped(w, rest);
  }

  /** Words read from the text `from` up to `to`, each expanded exactly if it had to be. */
  ghost predicate Told(table: Table, texts: seq<string>, ws: seq<Read>, was: bool, more: bool, from: string,
                       to: string) {
    |table.names| == |table.global| && Lawful(table, texts, ws, was) && more == MoreThen(texts, ws, was) &&
    Follows(texts, ws, from, to)
  }

  lemma ToldNone(table: Table, texts: seq<string>, more: bool, text: string)
    requires |table.names| == |table.global|
    ensures Told(table, texts, [], more, more, text, text) && Words([]) == []
  {}

  /** One more word, where all before it were expanded. */
  lemma ToldNext(table: Table, texts: seq<string>, ws: seq<Read>, w: Read, was: bool, more: bool, more': bool,
                 from: string, mid: string, to: string, incmdpos: bool)
    requires Told(table, texts, ws, was, more, from, mid) && Chain(ws, incmdpos) && Words(ws) == []
    requires Decided(table, texts, w, more) && Took(texts, w, mid, to) && more' == NextMore(texts, w, more)
    requires w.cmdpos == incmdpos && (ws != [] ==> ws[|ws| - 1].expanded)
    ensures Told(table, texts, ws + [w], was, more', from, to) && Chain(ws + [w], incmdpos)
    ensures Words(ws + [w]) == if w.expanded then [] else [w.word]
  {
    hide Decided, Took, Words, Lawful, Follows;
    LawfulNext(table, texts, ws, w, was);
    FollowsNext(texts, ws, w, from, mid, to);
  }

  lemma ToldPlus(table: Table, texts: seq<string>, a: seq<Read>, b: seq<Read>, was: bool, more: bool, more': bool,
                 from: string, mid: string, to: string)
    requires Told(table, texts, a, was, more, from, mid) && Told(table, texts, b, more, more', mid, to)
    ensures Told(table, texts, a + b, was, more', from, to) && Words(a + b) == Words(a) + Words(b)
  {
    hide Lawful, Follows, Words;
    LawfulPlus(table, texts, a, b, was);
    MorePlus(texts, a, b, was);
    FollowsPlus(texts, a, b, from, mid, to);
  }
}
