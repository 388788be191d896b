/** Alias expansion: yylex of Src/lex.c reads a word, exalias pushes the text of the
    alias it names, and the next word is read from there.  A word here is a run of
    characters that do not end one; quoting is not part of this model. */
module AliasExpansion {
  import opened AliasLaws
  import opened InputLevels
  import opened InputStream

  /** Every level that continues on another is the text of an alias (no history
      expansions, and no single characters put back). */
  ghost predicate AliasOnly(p: Input)
    reads p
  {
    AliasStack(p) && (p.inbufflags.cont && p.instacktop > 0 ==> p.instack[p.instacktop - 1].flags.alcont)
  }

  ghost predicate AliasStack(p: Input)
    reads p
  {
    p.instacktop <= p.high < |p.instack| &&
    (forall k :: 0 <= k < p.high && p.instack[k].flags.alcont ==> p.instack[k].alias >= 0) &&
    (forall k :: 0 < k < p.high && p.instack[k].flags.cont ==> p.instack[k - 1].flags.alcont)
  }

  // ----- How deep the stack can get -----

  /** The levels among the first n that are not below the text of an alias. */
  ghost function Others(stk: seq<Entry>, n: nat): nat
    requires n <= |stk|
  {
    if n == 0 then 0 else Others(stk, n - 1) + if stk[n - 1].flags.alcont then 0 else 1
  }

  /** Each alias in use accounts for one level. */
  lemma {:induction false} LevelsCount(stk: seq<Entry>, n: nat)
    requires n <= |stk| && Once(stk) && forall k :: 0 <= k < n && stk[k].flags.alcont ==> stk[k].alias >= 0
    ensures |Sources(stk, n)| + Others(stk, n) == n
  {
    if n > 0 {
      LevelsCount(stk, n - 1);
      SourcesPop(stk, n);
    }
  }

  lemma {:induction false} OthersBetween(stk: seq<Entry>, t: nat, n: nat)
    requires t <= n <= |stk| && forall k :: t <= k < n ==> stk[k].flags.alcont
    ensures Others(stk, t) == Others(stk, n)
    decreases n
  {
    if t < n { OthersBetween(stk, t, n - 1); }
  }

  lemma {:induction false} SourcesBelow(stk: seq<Entry>, n: nat, m: int)
    requires n <= |stk| && forall k :: 0 <= k < n ==> stk[k].alias < m
    ensures forall a :: a in Sources(stk, n) ==> 0 <= a < m
  {
    if n > 0 { SourcesBelow(stk, n - 1, m); }
  }

  lemma {:induction false} FewAliases(s: set<int>, m: nat)
    requires forall a :: a in s ==> 0 <= a < m
    ensures |s| <= m
  {
    if m == 0 {
      assert forall a :: a !in s;
      assert s == {};
    } else {
      FewAliases(s - {m - 1}, m - 1);
    }
  }

  /** Nesting is bounded by the number of aliases. */
  lemma DepthBound(p: Input)
    requires p.Valid() && AliasOnly(p)
    ensures p.instacktop == |p.inuse| + Others(p.instack[..p.high], p.instacktop)
    ensures |p.inuse| <= |p.texts|
    ensures p.instacktop <= |p.texts| + Others(p.instack[..p.high], p.instacktop)
  {
    var stk := p.instack[..p.high];
    LevelsCount(stk, p.instacktop);
    SourcesBelow(stk, p.instacktop, |p.texts|);
    FewAliases(p.inuse, |p.texts|);
  }

  // ----- The measure that every expansion lowers -----

  ghost function Weight(b: nat, m: nat): nat {
    if m == 0 then 1 else (b + 1) * Weight(b, m - 1)
  }

  lemma {:induction false} WeightMore(b: nat, m: nat, n: nat)
    requires m <= n
    ensures 1 <= Weight(b, m) <= Weight(b, n)
    decreases n
  {
    if m < n {
      WeightMore(b, m, n - 1);
      assert (b + 1) * Weight(b, n - 1) == b * Weight(b, n - 1) + Weight(b, n - 1);
    } else if m > 0 {
      WeightMore(b, m - 1, m - 1);
      assert (b + 1) * Weight(b, m - 1) == b * Weight(b, m - 1) + Weight(b, m - 1);
    }
  }

  /** What is left in the first t levels; a character counts more the lower it is. */
  ghost function Lower(stk: seq<Entry>, t: nat, d: nat, b: nat): nat
    requires t <= |stk| && t <= d
  {
    if t == 0 then 0 else Lower(stk, t - 1, d, b) + stk[t - 1].left * Weight(b, d - (t - 1))
  }

  ghost function Rank(p: Input, d: nat, b: nat): nat
    reads p
  {
    if p.instacktop <= p.high <= |p.instack| && p.instacktop <= d
    then Lower(p.instack[..p.high], p.instacktop, d, b) + p.inbufleft * Weight(b, d - p.instacktop)
    else 0
  }

  lemma {:induction false} LowerPrefix(stk: seq<Entry>, stk': seq<Entry>, t: nat, d: nat, b: nat)
    requires t <= |stk| && t <= |stk'| && t <= d && stk'[..t] == stk[..t]
    ensures Lower(stk', t, d, b) == Lower(stk, t, d, b)
  {
    if t > 0 {
      assert stk'[t - 1] == stk'[..t][t - 1] && stk[t - 1] == stk[..t][t - 1];
      assert stk'[..t - 1] == stk'[..t][..t - 1] && stk[..t - 1] == stk[..t][..t - 1];
      LowerPrefix(stk, stk', t - 1, d, b);
    }
  }

  /** Levels with nothing left do not count. */
  lemma {:induction false} LowerDrained(stk: seq<Entry>, t: nat, n: nat, d: nat, b: nat)
    requires t < n <= |stk| && n <= d && forall k :: t < k < n ==> stk[k].left == 0
    ensures Lower(stk, n, d, b) == Lower(stk, t, d, b) + stk[t].left * Weight(b, d - t)
    decreases n
  {
    if n > t + 1 { LowerDrained(stk, t, n - 1, d, b); }
  }

  /** d is the greatest depth the stack can have. */
  ghost predicate Deep(p: Input, d: nat)
    reads p
  {
    p.instacktop <= p.high <= |p.instack| && d == |p.texts| + Others(p.instack[..p.high], p.instacktop)
  }

  lemma DeepEnough(p: Input, d: nat)
    requires p.Valid() && AliasOnly(p) && Deep(p, d)
    ensures p.instacktop <= d && (|p.inuse| < |p.texts| ==> p.instacktop < d)
  {
    DepthBound(p);
  }

  // ----- Reading a word -----

  /** What was left after one character was read. */
  lemma PassedLeft(p: Input, h: Point, left: nat)
    requires p.Valid() && p.Passed(h) && h.top <= p.high && h.ptr + left == |h.buf|
    ensures p.instacktop <= h.top
    ensures p.instacktop == h.top ==> p.inbufleft == left - 1
    ensures p.instacktop < h.top ==> left == 0 && p.inbufleft == p.instack[..p.high][p.instacktop].left - 1
    ensures forall k :: p.instacktop < k < h.top ==> p.instack[..p.high][k].left == 0
  {
    hide Left, Once, Under, Rest, Sources;
    var stk := p.instack[..p.high];
    if p.instacktop < h.top {
      assert EntryOk(stk, p.instacktop);
      forall k | p.instacktop < k < h.top ensures stk[k].left == 0 { assert p.instack[k].left == 0; }
    }
  }

  lemma OneLess(n: nat, w: nat)
    requires n > 0
    ensures n * w == (n - 1) * w + w
  {}

  /** The measure after one character was read. */
  lemma RankPassed(p: Input, h: Point, left: nat, d: nat, b: nat)
    requires p.Valid() && p.Passed(h) && h.top <= p.high && h.top <= d && h.ptr + left == |h.buf|
    ensures p.instacktop <= d
    ensures Rank(p, d, b) + Weight(b, d - p.instacktop) ==
      Lower(p.instack[..p.high], h.top, d, b) + left * Weight(b, d - h.top)
  {
    hide Weight, Input.Valid, Input.Passed;
    PassedLeft(p, h, left);
    InStack(p);
    hide Lower;
    OneLess(p.inbufleft + 1, Weight(b, d - p.instacktop));
    if p.instacktop < h.top { LowerDrained(p.instack[..p.high], p.instacktop, h.top, d, b); }
  }

  lemma InStack(p: Input)
    requires p.Valid()
    ensures p.instacktop <= p.high < |p.instack| && p.inbufptr + p.inbufleft == |p.inbuf|
  {}

  /** Only alias levels were popped, so the greatest depth is the same. */
  lemma PassedAlias(p: Input, h: Point, d: nat)
    requires p.Valid() && p.Passed(h) && h.top <= p.high
    requires AliasStack(p)
    requires h.flags.cont && h.top > 0 ==> p.instack[h.top - 1].flags.alcont
    requires d == |p.texts| + Others(p.instack[..p.high], h.top)
    ensures AliasOnly(p) && Deep(p, d)
    ensures forall k :: p.instacktop <= k < h.top ==> p.instack[k].flags.alcont
  {
    hide Left, Once, Under, Rest, Sources, EntriesOk;
    forall k | p.instacktop <= k < h.top ensures p.instack[k].flags.alcont {
      if k + 1 < h.top { assert p.instack[k + 1].flags.cont; }
    }
    OthersBetween(p.instack[..p.high], p.instacktop, h.top);
  }

  // ----- Looking ahead one character -----

  /** m is where the reading is after one character was read at h, with `left`
      characters left before in that level. */
  ghost predicate Ahead(stk: seq<Entry>, h: Point, left: nat, m: Point) {
    h.top <= |stk| && m.top <= h.top && h.ptr + left == |h.buf| &&
    (h.push == h.ptr && h.flags.alcont ==> h.top < |stk| && stk[h.top].left == left && stk[h.top].flags.alcont) &&
    (m.top == h.top ==> m == h.(ptr := h.ptr + 1)) &&
    (m.top < h.top ==> left == 0 && m.ptr == m.push + 1 && m.flags.alcont && stk[m.top].flags.alcont) &&
    (forall j :: m.top < j < h.top ==> Drained(stk[j]))
  }

  lemma AheadOf(p: Input, h: Point, left: nat)
    requires p.Valid() && AliasOnly(p) && p.Passed(h) && h.top <= p.high && h.ptr + left == |h.buf|
    requires h.push == h.ptr && h.flags.alcont ==>
      h.top < p.high && p.instack[h.top].left == left && p.instack[h.top].flags.alcont
    requires forall k :: p.instacktop <= k < h.top ==> p.instack[k].flags.alcont
    ensures Ahead(p.instack[..p.high], h, left, p.Here())
  {
    hide Left, Once, Under, Rest, Sources, EntriesOk;
    var stk := p.instack[..p.high];
    forall j | p.instacktop < j < h.top ensures Drained(stk[j]) { assert p.instack[j].left == 0; }
  }

  /** What Reopens says about the level at h. */
  lemma ReopenLeft(p: Input)
    requires p.Valid()
    ensures p.inbufflags.alcont && p.inbufpush == p.inbufptr ==>
      p.instacktop < p.high && p.instack[p.instacktop].left == p.inbufleft && p.instack[p.instacktop].flags.alcont
  {
    hide Left, Once, Under, Rest, Sources;
    if p.inbufflags.alcont && p.inbufpush == p.inbufptr { assert EntryOk(p.instack[..p.high], p.instacktop); }
  }

  /** One character was read since h, with `left` characters in the level then. */
  ghost predicate Began(p: Input, h: Point, left: nat, d: nat)
    reads p
  {
    AliasStack(p) && h.top <= p.high && h.top <= d && d == |p.texts| + Others(p.instack[..p.high], h.top) &&
    (h.flags.cont && h.top > 0 ==> p.instack[h.top - 1].flags.alcont) && Ahead(p.instack[..p.high], h, left, p.Here())
  }

  /** The measure at h. */
  ghost function Before(p: Input, h: Point, left: nat, d: nat, b: nat): nat
    reads p
  {
    if h.top <= p.high <= |p.instack| && h.top <= d then
    Lower(p.instack[..p.high], h.top, d, b) + left * Weight(b, d - h.top) else 0
  }

  /** The stream while characters are read. */
  ghost predicate Going(p: Input, d: nat)
    reads p
  {
    p.Valid() && !p.lexstop && AliasOnly(p) && Deep(p, d) && p.instacktop <= d
  }

  /** No more input comes when what remains is used up. */
  ghost predicate Last(p: Input)
    reads p
  {
    p.strin || p.lines == []
  }

  /** One character of the remaining input. */
  ghost predicate GotOne(p: Input, c: char, rest: string, h: Point, left: nat, d: nat, b: nat, was: nat)
    reads p
  {
    Going(p, d) && p.instacktop <= d && [c] + p.Remaining() == rest && p.Read(c) && Began(p, h, left, d) &&
    Rank(p, d, b) + Weight(b, d - p.instacktop) == was == Before(p, h, left, d, b)
  }

  lemma GotFacts(p: Input, c: char, rest: string, h: Point, left: nat, d: nat, b: nat, was: nat)
    requires GotOne(p, c, rest, h, left, d, b, was)
    ensures Going(p, d) && !p.lexstop && p.Valid() && p.instacktop <= d
    ensures p.Read(c) && Began(p, h, left, d) && [c] + p.Remaining() == rest
    ensures rest != "" && c == rest[0] && p.Remaining() == rest[1..]
    ensures Rank(p, d, b) + Weight(b, d - p.instacktop) == was == Before(p, h, left, d, b)
  {
    hide Input.Valid, AliasOnly, Deep, Input.Read, Began, Rank, Before, Weight, Input.Remaining;
    assert ([c] + p.Remaining())[1..] == p.Remaining() && ([c] + p.Remaining())[0] == c;
  }

  /** The next character is the first one of a line that has still to be read. */
  ghost predicate LineDue(p: Input)
    reads p
  {
    p.Remaining() == "" && !Last(p)
  }

  /** The input up to the end of the line that is being read, or is due. */
  ghost function Coming(p: Input): string
    reads p
  {
    if LineDue(p) then p.lines[0] else p.Remaining()
  }

  /** The lines after that one. */
  ghost function Later(p: Input): seq<string>
    reads p
  {
    if LineDue(p) then p.lines[1..] else p.lines
  }

  ghost function Flat(lines: seq<string>): string {
    if lines == [] then "" else lines[0] + Flat(lines[1..])
  }

  /** All that is still to be read. */
  ghost function Whole(p: Input): string
    reads p
  {
    p.Remaining() + if p.strin then "" else Flat(p.lines)
  }

  lemma WholeComing(p: Input)
    ensures Whole(p) == Coming(p) + if p.strin then "" else Flat(Later(p))
  {
    hide Input.Remaining;
    if LineDue(p) {
      assert "" + Flat(p.lines) == p.lines[0] + Flat(p.lines[1..]);
    }
  }

  /** Only alias levels continue on another, so the greatest depth is the same below. */
  lemma {:induction false} OthersBase(stk: seq<Entry>, t: nat, cont: bool)
    requires t <= |stk| && (cont && t > 0 ==> stk[t - 1].flags.alcont)
    requires forall k :: 0 < k < |stk| && stk[k].flags.cont ==> stk[k - 1].flags.alcont
    ensures Base(stk, t, cont) <= t && Others(stk, Base(stk, t, cont)) == Others(stk, t)
    decreases t
  {
    if cont && t > 0 { OthersBase(stk, t - 1, stk[t - 1].flags.cont); }
  }

  /** What holds of the stack and the point h where a character is read, with `left` in
      that level. */
  ghost predicate Start(stk: seq<Entry>, texts: nat, h: Point, left: nat, d: nat) {
    h.top <= |stk| && h.top <= d && d == texts + Others(stk, h.top) && h.ptr + left == |h.buf| &&
    (forall k :: 0 <= k < |stk| && stk[k].flags.alcont ==> stk[k].alias >= 0) &&
    (forall k :: 0 < k < |stk| && stk[k].flags.cont ==> stk[k - 1].flags.alcont) &&
    (h.flags.cont && h.top > 0 ==> stk[h.top - 1].flags.alcont) &&
    (h.push == h.ptr && h.flags.alcont ==> h.top < |stk| && stk[h.top].left == left && stk[h.top].flags.alcont)
  }

  ghost function Measure(stk: seq<Entry>, h: Point, left: nat, d: nat, b: nat): nat {
    if h.top <= |stk| && h.top <= d then Lower(stk, h.top, d, b) + left * Weight(b, d - h.top) else 0
  }

  lemma StartFacts(p: Input, d: nat, b: nat)
    requires Going(p, d)
    ensures p.Valid() && !p.lexstop && Start(p.instack[..p.high], |p.texts|, p.Here(), p.inbufleft, d)
    ensures Rank(p, d, b) == Measure(p.instack[..p.high], p.Here(), p.inbufleft, d, b)
  {
    hide Input.Valid, Others, Lower, Weight;
    InStack(p);
    ReopenLeft(p);
  }

  /** One character was read from what was left. */
  lemma WithinRead(p: Input, c: char, rest: string, stk: seq<Entry>, h: Point, left: nat, d: nat, b: nat)
    requires p.Valid() && !p.lexstop && p.Passed(h) && p.Read(c) && [c] + p.Remaining() == rest
    requires stk == p.instack[..p.high] && Start(stk, |p.texts|, h, left, d)
    ensures GotOne(p, c, rest, h, left, d, b, Measure(stk, h, left, d, b))
  {
    hide Input.Valid, Input.Passed, Input.Read, Input.Remaining, Lower, Weight, Others;
    InStack(p);
    StackStart(p, h, left, d);
    PassedAlias(p, h, d);
    RankPassed(p, h, left, d, b);
    AheadOf(p, h, left);
    hide Ahead, Deep, AliasOnly, AliasStack;
  }

  lemma StackStart(p: Input, h: Point, left: nat, d: nat)
    requires p.instacktop <= p.high < |p.instack| && Start(p.instack[..p.high], |p.texts|, h, left, d)
    ensures AliasStack(p) && (h.flags.cont && h.top > 0 ==> p.instack[h.top - 1].flags.alcont)
  {
    hide Others;
    var stk := p.instack[..p.high];
    assert forall k :: 0 <= k < p.high ==> stk[k] == p.instack[k];
  }

  /** A line was begun at the level that the others continued on. */
  lemma LineBegun(p: Input, stk: seq<Entry>, h: Point, left: nat, d: nat)
    requires p.Valid() && !p.lexstop && !p.inbufflags.cont
    requires stk == p.instack[..p.high] && Start(stk, |p.texts|, h, left, d)
    requires p.instacktop == Base(stk, h.top, h.flags.cont)
    ensures Going(p, d)
  {
    hide Input.Valid, Others;
    InStack(p);
    OthersBase(stk, h.top, h.flags.cont);
    StackStart(p, h, left, d);
  }

  /** Whether the next word may be an alias too, by what it was and by the aliases whose
      texts have ended since then. */
  ghost predicate MoreKept(p: Input, e: seq<int>, more: bool)
    reads p`ended, p`inalmore
  {
    e <= p.ended && p.inalmore == MoreAfter(p.texts, more, p.ended[|e|..])
  }

  lemma MoreSince(p: Input, e: seq<int>, more: bool, t: nat)
    requires p.Ended(e, more, t)
    ensures MoreKept(p, e, more)
  {
    assert p.ended[|e|..] == Gone(p.instack, p.instacktop, t);
  }

  lemma MoreStill(p: Input)
    ensures MoreKept(p, p.ended, p.inalmore)
  {
    MoreTwice(p.texts, p.inalmore, [], []);
  }

  lemma MoreOn(p: Input, e: seq<int>, more: bool, e': seq<int>, more': bool)
    requires e <= e' && more' == MoreAfter(p.texts, more, e'[|e|..]) && MoreKept(p, e', more')
    ensures MoreKept(p, e, more)
  {
    MoreTwice(p.texts, more, e'[|e|..], p.ended[|e'|..]);
    assert p.ended[|e|..] == e'[|e|..] + p.ended[|e'|..];
  }

  /** hgetc: one character of the remaining input, or of a new line, or the end. */
  method ReadChar(p: Input, ghost d: nat, ghost b: nat) returns (c: char)
    requires Going(p, d)
    modifies p
    ensures p.strin == old(p.strin) && p.lines == old(Later(p)) && p.instack == old(p.instack) && p.high == old(p.high)
    ensures p.Valid() && (p.lexstop <==> old(Coming(p)) == "")
    ensures old(p.Remaining()) != "" ==> p.lines == old(p.lines) && !p.lexstop
    ensures old(p.Remaining()) != "" ==>
      GotOne(p, c, old(p.Remaining()), old(p.Here()), old(p.inbufleft), d, b, old(Rank(p, d, b)))
    ensures old(LineDue(p)) ==>
      Going(p, d) && [c] + p.Remaining() == old(Coming(p)) && p.Read(c) && !p.inbufflags.alcont
    ensures p.lexstop ==> p.Remaining() == "" && Last(p)
    ensures old(p.Remaining()) == "" ==>
      p.instacktop == Base(old(p.instack[..p.high]), old(p.instacktop), old(p.inbufflags.cont))
    ensures MoreKept(p, old(p.ended), old(p.inalmore))
  {
    hide Going, Input.Valid, Input.Passed, Input.Remaining, Input.Read, GotOne, Start, Measure, Rank, Base, Input.Ended,
      MoreKept;
    StartFacts(p, d, b);
    InStack(p);
    ghost var h, left, stk, rest := p.Here(), p.inbufleft, p.instack[..p.high], p.Remaining();
    LinesGiven(p);
    c := p.Ingetc();
    InStack(p);
    MoreSince(p, old(p.ended), old(p.inalmore), h.top);
    if rest != "" {
      WithinRead(p, c, rest, stk, h, left, d, b);
    } else if !p.lexstop {
      LineBegun(p, stk, h, left, d);
    }
  }

  lemma LinesGiven(p: Input)
    requires p.Valid()
    ensures forall l :: l in p.lines ==> l != ""
  {}

  /** When it is put back, the stack is at least as high as before, with the same
      measure: levels that the look-ahead popped are back. */
  lemma RankBack(p: Input, h: Point, left: nat, m: Point, d: nat, b: nat)
    requires p.instacktop <= p.high < |p.instack| && p.PutBack(m) && p.inbufptr + p.inbufleft == |p.inbuf| &&
      p.instacktop <= d
    requires Ahead(p.instack[..p.high], h, left, m) && h.top <= d
    ensures h.top <= p.instacktop &&
      Rank(p, d, b) == Lower(p.instack[..p.high], h.top, d, b) + left * Weight(b, d - h.top)
    ensures forall k :: h.top <= k < p.instacktop ==> p.instack[k].flags.alcont
  {
    hide Lower, Weight;
    var stk := p.instack[..p.high];
    if m.ptr - 1 == m.push && m.flags.alcont {
      forall j | m.top < j < p.instacktop
        ensures Drained(stk[j]) && stk[j].left == 0 && stk[j].flags.alcont
      {
        assert Drained(p.instack[j]);
      }
      LowerDrained(stk, m.top, p.instacktop, d, b);
      if m.top < h.top {
        forall j | m.top < j < h.top ensures Drained(stk[j]) && stk[j].left == 0 {}
        assert p.instacktop < |stk| ==> stk[p.instacktop] == p.instack[p.instacktop];
        LowerDrained(stk, m.top, h.top, d, b);
      }
      assert stk[m.top].flags.alcont;
      forall k | h.top <= k < p.instacktop ensures p.instack[k].flags.alcont { assert stk[k] == p.instack[k]; }
    }
  }

  /** The character read last is put back, if there was one: within a line (from h), or
      the first one of a line. */
  method PutBackChar(p: Input, c: char, ghost within: bool, ghost h: Point, ghost left: nat, ghost d: nat, ghost b: nat)
    requires p.Valid() && (!p.lexstop ==> p.Read(c))
    requires if within then Going(p, d) && Began(p, h, left, d) else p.lexstop || !p.inbufflags.alcont
    modifies p
    ensures p.Valid() && p.Remaining() == (if p.lexstop then "" else [c]) + old(p.Remaining())
    ensures p.strin == old(p.strin) && p.lines == old(p.lines) && p.lexstop == old(p.lexstop) &&
      p.instack == old(p.instack) && p.high == old(p.high)
    ensures within ==> Going(p, d) && h.top <= p.instacktop <= d && Rank(p, d, b) == old(Before(p, h, left, d, b))
    ensures !within ==> p.instacktop == old(p.instacktop)
    ensures p.inalmore == old(p.inalmore) && p.ended == old(p.ended)
  {
    hide Input.Valid, Input.PutBack, Input.Remaining, Lower, Weight, Others, Ahead;
    ghost var m := p.Here();
    InStack(p);
    p.Inungetc(c);
    InStack(p);
    if within {
      BackAlias(p, h, left, m, d);
      DeepEnough(p, d);
      RankBack(p, h, left, m, d, b);
    } else if !p.lexstop {
      SameLevel(p, m);
    }
  }

  lemma SameLevel(p: Input, m: Point)
    requires p.instacktop <= p.high < |p.instack| && p.PutBack(m) && !m.flags.alcont
    ensures p.instacktop == m.top
  {}

  lemma InUse(p: Input)
    requires p.Valid()
    ensures p.instacktop <= p.high < |p.instack| && p.inuse == Sources(p.instack[..p.high], p.instacktop)
    ensures Once(p.instack[..p.high])
  {
    hide EntriesOk, Once, Sources;
  }

  lemma {:induction false} SourcesGrow(stk: seq<Entry>, m: nat, n: nat)
    requires m <= n <= |stk|
    ensures Sources(stk, m) <= Sources(stk, n)
    decreases n
  {
    if m < n { SourcesGrow(stk, m, n - 1); }
  }

  /** The character after a word is read and put back: nothing is changed but that
      levels below may have been popped and are back on the stack, in use again. */
  method LookAhead(p: Input, ghost d: nat, ghost b: nat) returns (c: char, back: bool)
    requires Going(p, d) && p.Remaining() != ""
    modifies p
    ensures Going(p, d) && !p.lexstop && c == old(p.Remaining())[0] && back == Ends(c)
    ensures p.strin == old(p.strin) && p.lines == old(p.lines)
    ensures back ==> p.Remaining() == old(p.Remaining()) && old(p.instacktop) <= p.instacktop <= d
    ensures back ==> Rank(p, d, b) == old(Rank(p, d, b)) && old(p.inuse) <= p.inuse
    ensures !back ==> [c] + p.Remaining() == old(p.Remaining()) && p.instacktop <= d
    ensures !back ==> Rank(p, d, b) + Weight(b, d - p.instacktop) == old(Rank(p, d, b))
    ensures MoreKept(p, old(p.ended), old(p.inalmore))
  {
    hide Going, GotOne, Input.Valid, Input.Read, Input.Remaining, Weight, Before, Began, Ends, Rank, Sources, Once,
      Coming, Later, LineDue, Base, Others, MoreAfter;
    GoingFacts(p, d);
    InUse(p);
    ghost var h, left, stk := p.Here(), p.inbufleft, p.instack[..p.high];
    ghost var was, rest := Rank(p, d, b), p.Remaining();
    c := ReadChar(p, d, b);
    GotFacts(p, c, rest, h, left, d, b, was);
    back := Ends(c);
    if back {
      PutBackChar(p, c, true, h, left, d, b);
      InUse(p);
      SourcesGrow(stk, h.top, p.instacktop);
    }
  }

  /** When levels that come from aliases are gone, the aliases are not in use. */
  lemma Forgotten(stk: seq<Entry>, m: nat, n: nat)
    requires Once(stk) && m < n <= |stk| && From(stk[n - 1], stk[n - 1].alias)
    ensures !(Sources(stk, n) <= Sources(stk, m))
  {
    var a := stk[n - 1].alias;
    SourcesAre(stk, m, a);
    SourcesAre(stk, n, a);
  }

  lemma {:induction false} BaseBelow(stk: seq<Entry>, t: nat, cont: bool)
    requires t <= |stk|
    ensures Base(stk, t, cont) <= t
    decreases t
  {
    if cont && t > 0 { BaseBelow(stk, t - 1, stk[t - 1].flags.cont); }
  }

  lemma GoesOn(p: Input, d: nat)
    requires p.Valid() && !p.lexstop && AliasOnly(p) && p.instacktop <= p.high <= |p.instack|
    requires d == |p.texts| + Others(p.instack[..p.high], p.instacktop)
    ensures Going(p, d)
    ensures p.inbufflags.cont ==>
      0 < p.instacktop && From(p.instack[..p.high][p.instacktop - 1], p.instack[..p.high][p.instacktop - 1].alias)
  {
    hide Input.Valid, Others;
    DeepEnough(p, d);
    if p.inbufflags.cont { AliasOnTop(p); }
  }

  /** A character is read and put back, whatever it is: the aliases that were in use are
      still so exactly if there was a character left, or no alias was at the end of its
      text.  A line that had to be read for it is the remaining input then. */
  method LookAheadExact(p: Input) returns (c: char)
    requires p.Valid() && !p.lexstop && AliasOnly(p)
    modifies p
    ensures p.Valid() && (p.lexstop <==> old(Coming(p)) == "")
    ensures old(p.inuse) <= p.inuse <==> old(p.Remaining()) != "" || !old(p.inbufflags.cont)
    ensures p.Remaining() == old(Coming(p)) && p.lines == old(Later(p))
    ensures old(p.Remaining()) != "" ==> old(p.instacktop) <= p.instacktop
  {
    hide Going, GotOne, Input.Valid, Input.Read, Input.Remaining, Weight, Before, Began, Rank, Sources, Once, AliasOnly,
      Others, Base, From;
    InStack(p);
    InUse(p);
    ghost var d := |p.texts| + Others(p.instack[..p.high], p.instacktop);
    GoesOn(p, d);
    ghost var h, left, stk := p.Here(), p.inbufleft, p.instack[..p.high];
    ghost var was, rest := Rank(p, d, 0), p.Remaining();
    c := ReadChar(p, d, 0);
    if rest != "" { GotFacts(p, c, rest, h, left, d, 0, was); }
    PutBackChar(p, c, rest != "", h, left, d, 0);
    InUse(p);
    if rest == "" { EndLeft(stk, h.top, h.flags.cont, p.instacktop); } else { SourcesGrow(stk, h.top, p.instacktop); }
  }

  lemma GoingFacts(p: Input, d: nat)
    requires Going(p, d)
    ensures p.Valid() && !p.lexstop
  {}

  /** At the end the levels that the current one continues on are gone. */
  lemma EndLeft(stk: seq<Entry>, t: nat, cont: bool, base: nat)
    requires t <= |stk| && base == Base(stk, t, cont) && Once(stk)
    requires cont ==> t > 0 && From(stk[t - 1], stk[t - 1].alias)
    ensures base <= t && (Sources(stk, t) <= Sources(stk, base) <==> !cont)
  {
    if cont {
      BaseBelow(stk, t - 1, stk[t - 1].flags.cont);
      Forgotten(stk, base, t);
    }
  }

  lemma AliasOnTop(p: Input)
    requires p.Valid() && AliasOnly(p) && p.inbufflags.cont
    ensures 0 < p.instacktop <= p.high
    ensures From(p.instack[..p.high][p.instacktop - 1], p.instack[p.instacktop - 1].alias)
  {
    hide EntriesOk, Once, Sources;
  }

  lemma BackAlias(p: Input, h: Point, left: nat, m: Point, d: nat)
    requires p.Valid() && AliasStack(p) && p.PutBack(m) && Ahead(p.instack[..p.high], h, left, m)
    requires h.flags.cont && h.top > 0 ==> p.instack[h.top - 1].flags.alcont
    requires d == |p.texts| + Others(p.instack[..p.high], h.top)
    ensures AliasOnly(p) && Deep(p, d)
  {
    hide Left, Once, Under, Rest, Sources, EntriesOk;
    var stk := p.instack[..p.high];
    if m.ptr - 1 == m.push && m.flags.alcont {
      assert stk[m.top].flags.alcont;
      forall j | m.top <= j < p.instacktop
        ensures stk[j].flags.alcont
      {
        if j > m.top { assert Drained(p.instack[j]); }
      }
      OthersBetween(stk, m.top, p.instacktop);
      forall j | m.top <= j < h.top ensures stk[j].flags.alcont { if j > m.top { assert Drained(stk[j]); } }
      OthersBetween(stk, m.top, h.top);
    }
  }

  // ----- Words -----

  /** No word runs to the end: there is a character to come that ends every word before
      it, or, where no further line comes, what remains ends with a blank. */
  predicate Followed(s: string, last: bool) {
    (exists c :: c in s && Closing(c)) || (last && (s == "" || Blank(s[|s| - 1])))
  }

  lemma FollowedRest(c: char, s: string, last: bool)
    requires Followed([c] + s, last) && !Closing(c)
    ensures Followed(s, last) && (!Blank(c) ==> s != "") && (s == "" ==> last)
  {
    var t := [c] + s;
    if x :| x in t && Closing(x) {
      assert x in s;
    } else if s == "" {
      assert t[|t| - 1] == c;
    } else {
      assert t[|t| - 1] == s[|s| - 1];
    }
  }

  lemma FollowedPush(t: string, s: string, last: bool)
    requires Followed(s, last) && s != ""
    ensures Followed(t + s, last)
  {
    var u := t + s;
    if x :| x in s && Closing(x) {
      assert x in u;
    } else {
      assert u[|u| - 1] == s[|s| - 1];
    }
  }

  /** The stream within a line. */
  ghost predicate Ready(p: Input, d: nat)
    reads p
  {
    Going(p, d) && Followed(p.Remaining(), Last(p))
  }

  /** The stream before a word, within a line or where one is due. */
  ghost predicate Starts(p: Input, d: nat)
    reads p
  {
    Going(p, d) && Followed(Coming(p), p.strin || Later(p) == [])
  }

  lemma ReadyStarts(p: Input, d: nat)
    requires Ready(p, d)
    ensures Starts(p, d) && Coming(p) == p.Remaining() && Later(p) == p.lines
  {}

  /** The next character where a word may begin. */
  method NextChar(p: Input, ghost d: nat, ghost b: nat) returns (c: char)
    requires Starts(p, d)
    modifies p
    ensures p.strin == old(p.strin) && p.lines == old(Later(p))
    ensures p.lexstop ==> p.Valid() && old(Coming(p)) == "" && p.Remaining() == "" && Last(p)
    ensures !p.lexstop ==>
      Going(p, d) && old(Coming(p)) == [c] + p.Remaining() && Followed([c] + p.Remaining(), Last(p))
    ensures !p.lexstop && old(p.Remaining()) != "" ==>
      p.instacktop <= d && Rank(p, d, b) + Weight(b, d - p.instacktop) == old(Rank(p, d, b))
    ensures MoreKept(p, old(p.ended), old(p.inalmore))
  {
    hide Going, Input.Remaining, Rank, GotOne, Weight, Followed, Input.Valid, Input.Read, MoreKept;
    ghost var h, left, was, rest := p.Here(), p.inbufleft, Rank(p, d, b), p.Remaining();
    c := ReadChar(p, d, b);
    if rest != "" { GotFacts(p, c, rest, h, left, d, b, was); }
  }

  lemma NoneSkipped()
    ensures AllBlank("")
  {}

  /** A blank is skipped. */
  lemma BlankGoesOn(coming: string, skipped: string, c: char, rest: string)
    requires Blank(c) && AllBlank(skipped) && coming == skipped + [c] + rest
    ensures !Closing(c) && AllBlank(skipped + [c]) && (rest == "" ==> coming == skipped + [c])
    ensures forall c', rest' :: rest == [c'] + rest' ==> coming == skipped + [c] + [c'] + rest'
  {}

  /** Blanks are skipped; c is the character after them. */
  method SkipBlanks(p: Input, ghost d: nat, ghost b: nat) returns (c: char, ghost skipped: string)
    requires Starts(p, d)
    modifies p
    ensures AllBlank(skipped) && p.strin == old(p.strin) && p.lines == old(Later(p))
    ensures p.lexstop ==> p.Valid() && old(Coming(p)) == skipped && p.Remaining() == "" && Last(p)
    ensures !p.lexstop ==> Going(p, d) && !Blank(c) && old(Coming(p)) == skipped + [c] + p.Remaining()
    ensures !p.lexstop && old(p.Remaining()) != "" ==>
      p.instacktop <= d && Rank(p, d, b) + Weight(b, d - p.instacktop) <= old(Rank(p, d, b))
    ensures !p.lexstop && !Closing(c) ==> Followed(p.Remaining(), Last(p)) && p.Remaining() != ""
    ensures MoreKept(p, old(p.ended), old(p.inalmore))
  {
    hide Going, Input.Remaining, Rank, Weight, Followed, Input.Valid, Blank, Closing, AllBlank, Coming, Later,
      MoreAfter;
    skipped := "";
    NoneSkipped();
    c := NextChar(p, d, b);
    while !p.lexstop && Blank(c)
      invariant AllBlank(skipped) && p.strin == old(p.strin) && p.lines == old(Later(p))
      invariant p.lexstop ==> p.Valid() && old(Coming(p)) == skipped && p.Remaining() == "" && Last(p)
      invariant !p.lexstop ==> Going(p, d) && old(Coming(p)) == skipped + [c] + p.Remaining()
      invariant !p.lexstop && old(p.Remaining()) != "" ==>
        p.instacktop <= d && Rank(p, d, b) + Weight(b, d - p.instacktop) <= old(Rank(p, d, b))
      invariant !p.lexstop ==> Followed([c] + p.Remaining(), Last(p))
      invariant MoreKept(p, old(p.ended), old(p.inalmore))
      decreases !p.lexstop, |p.Remaining()|
    {
      ghost var e, more := p.ended, p.inalmore;
      ghost var rest := p.Remaining();
      BlankGoesOn(old(Coming(p)), skipped, c, rest);
      FollowedRest(c, rest, Last(p));
      ReadyStarts(p, d);
      skipped := skipped + [c];
      c := NextChar(p, d, b);
      MoreOn(p, old(p.ended), old(p.inalmore), e, more);
    }
    if !p.lexstop && !Closing(c) { FollowedRest(c, p.Remaining(), Last(p)); }
  }

  /** gettok and gettokstr: the next word, or "" for a character that is a token of its own
      or for the end.  A word leaves the character after it to be read again. */
  method ReadWord(p: Input, ghost d: nat, ghost b: nat) returns (word: string, ghost skipped: string)
    requires Starts(p, d)
    modifies p
    ensures AllBlank(skipped) && p.strin == old(p.strin) && p.lines == old(Later(p)) && (word != "" ==> !p.lexstop)
    ensures p.lexstop ==> p.Valid() && old(Coming(p)) == skipped && p.Remaining() == "" && Last(p)
    ensures !p.lexstop ==> Going(p, d)
    ensures word != "" ==> IsWord(word) && old(Coming(p)) == skipped + word + p.Remaining()
    ensures word != "" ==> p.Remaining() != "" && Ends(p.Remaining()[0]) && Followed(p.Remaining(), Last(p))
    ensures !p.lexstop && old(p.Remaining()) != "" ==>
      p.instacktop <= d && Rank(p, d, b) + Weight(b, d - p.instacktop) <= old(Rank(p, d, b))
    ensures word == "" && !p.lexstop ==>
      |skipped| < |old(Coming(p))| && Closing(old(Coming(p))[|skipped|]) &&
      old(Coming(p)) == skipped + [old(Coming(p))[|skipped|]] + p.Remaining()
    ensures MoreKept(p, old(p.ended), old(p.inalmore))
  {
    hide Going, Input.Remaining, Rank, Began, Before, Weight, Followed, Input.Valid, MoreAfter;
    var c;
    c, skipped := SkipBlanks(p, d, b);
    if p.lexstop || Closing(c) {
      word := "";
      return;
    }
    word := [c];
    var done := false;
    while !done
      invariant Going(p, d) && !p.lexstop && p.strin == old(p.strin) && p.lines == old(Later(p))
      invariant IsWord(word) && old(Coming(p)) == skipped + word + p.Remaining()
      invariant p.Remaining() != "" && Followed(p.Remaining(), Last(p))
      invariant old(p.Remaining()) != "" ==>
        p.instacktop <= d && Rank(p, d, b) + Weight(b, d - p.instacktop) <= old(Rank(p, d, b))
      invariant done ==> Ends(p.Remaining()[0])
      invariant MoreKept(p, old(p.ended), old(p.inalmore))
      decreases !done, |p.Remaining()|
    {
      ghost var t, rest, e, more := p.instacktop, p.Remaining(), p.ended, p.inalmore;
      c, done := LookAhead(p, d, b);
      MoreOn(p, old(p.ended), old(p.inalmore), e, more);
      if done {
        if old(p.Remaining()) != "" { WeightMore(b, d - p.instacktop, d - t); }
      } else {
        word := word + [c];
        assert rest == [c] + p.Remaining();
        FollowedRest(c, p.Remaining(), Last(p));
      }
    }
  }

  // ----- Aliases -----

  ghost predicate Fits(table: Table, p: Input)
    reads p
  {
    |table.names| == |p.texts| == |table.global|
  }

  /** aliastab->getnode. */
  method Lookup(table: Table, word: string) returns (a: int)
    ensures -1 <= a < |table.names| && (a >= 0 ==> table.names[a] == word)
    ensures a == -1 ==> word !in table.names
  {
    a := 0;
    while a < |table.names|
      invariant 0 <= a <= |table.names| && word !in table.names[..a]
    {
      if table.names[a] == word { return; }
      a := a + 1;
    }
    a := -1;
  }

  /** The text of an alias is on the stack: the measure is lower than before the
      word that named it was read. */
  lemma RankPushed(p: Input, stk: seq<Entry>, h: Point, left: nat, e: Entry, d: nat, b: nat)
    requires p.instacktop == p.high == h.top + 1 && p.high <= |p.instack| && h.top <= |stk| && p.high <= d
    requires p.instack[..p.high] == stk[..h.top] + [e] && e.left == left && p.inbufleft <= b
    ensures Rank(p, d, b) < Lower(stk, h.top, d, b) + left * Weight(b, d - h.top) + Weight(b, d - h.top)
  {
    hide Lower, Weight;
    var now := p.instack[..p.high];
    assert now[..h.top] == stk[..h.top];
    LowerPrefix(stk, now, h.top, d, b);
    assert Lower(now, p.high, d, b) == Lower(stk, h.top, d, b) + left * Weight(b, d - h.top) by {
      LowerNext(now, h.top, d, b);
    }
    Heavier(b, d - p.high, p.inbufleft);
  }

  lemma LowerNext(stk: seq<Entry>, t: nat, d: nat, b: nat)
    requires t < |stk| && t < d
    ensures Lower(stk, t + 1, d, b) == Lower(stk, t, d, b) + stk[t].left * Weight(b, d - t)
  {}

  lemma Heavier(b: nat, m: nat, n: nat)
    requires n <= b
    ensures n * Weight(b, m) < Weight(b, m + 1)
  {
    var w := Weight(b, m);
    WeightMore(b, m, m);
    assert (b + 1) * w == b * w + w;
    assert n * w <= b * w by { assert (b - n) * w >= 0; assert b * w == n * w + (b - n) * w; }
  }

  /** An alias that is not in use leaves room for one more level. */
  lemma RoomFor(p: Input, a: int, d: nat)
    requires p.Valid() && AliasOnly(p) && Deep(p, d) && 0 <= a < |p.texts| && a !in p.inuse
    ensures p.instacktop < d
    ensures p.inbufflags.cont && p.instacktop > 0 ==> p.instack[..p.high][p.instacktop - 1].flags.alcont
  {
    var stk := p.instack[..p.high];
    LevelsCount(stk, p.instacktop);
    SourcesBelow(stk, p.instacktop, |p.texts|);
    FewAliases(p.inuse + {a}, |p.texts|);
  }

  lemma {:induction false} OthersPrefix(stk: seq<Entry>, stk': seq<Entry>, n: nat)
    requires n <= |stk| && n <= |stk'| && stk'[..n] == stk[..n]
    ensures Others(stk', n) == Others(stk, n)
  {
    if n > 0 {
      assert stk'[n - 1] == stk'[..n][n - 1] && stk[n - 1] == stk[..n][n - 1];
      assert stk'[..n - 1] == stk'[..n][..n - 1] && stk[..n - 1] == stk[..n][..n - 1];
      OthersPrefix(stk, stk', n - 1);
    }
  }

  lemma PushedAlias(p: Input, stk: seq<Entry>, t: nat, e: Entry, d: nat)
    requires p.Valid() && p.instacktop == p.high == t + 1 && t <= |stk| && p.instack[..p.high] == stk[..t] + [e]
    requires e.flags.alcont && e.alias >= 0 && (e.flags.cont && t > 0 ==> stk[t - 1].flags.alcont)
    requires forall k :: 0 <= k < |stk| && stk[k].flags.alcont ==> stk[k].alias >= 0
    requires forall k :: 0 < k < |stk| && stk[k].flags.cont ==> stk[k - 1].flags.alcont
    requires d == |p.texts| + Others(stk, t)
    ensures AliasOnly(p) && Deep(p, d)
  {
    hide Left, Once, Under, Rest, Sources, EntriesOk;
    var now := p.instack[..p.high];
    forall k | 0 <= k < p.high ensures p.instack[k] == if k < t then stk[k] else e { assert now[k] == p.instack[k]; }
    assert now[..t] == stk[..t];
    OthersPrefix(stk, now, t);
    assert now[t] == e;
  }

  /** The text of alias a is pushed. */
  method PushAlias(p: Input, a: int, ghost d: nat, ghost b: nat)
    requires Ready(p, d) && p.Remaining() != "" && 0 <= a < |p.texts| && a !in p.inuse && |p.texts[a]| <= b
    modifies p
    ensures Ready(p, d) && p.strin == old(p.strin) && p.lines == old(p.lines) && !p.lexstop
    ensures p.inuse == old(p.inuse) + {a} && p.Remaining() == p.texts[a] + old(p.Remaining())
    ensures p.inalmore == old(p.inalmore) && p.ended == old(p.ended)
    ensures Rank(p, d, b) < old(Rank(p, d, b) + Weight(b, d - p.instacktop))
  {
    hide Input.Valid, Input.Remaining, Lower, Weight, Others, Followed;
    DeepEnough(p, d);
    InStack(p);
    RoomFor(p, a, d);
    ghost var stk, h, left := p.instack[..p.high], p.Here(), p.inbufleft;
    var t := p.texts[a];
    FollowedPush(t, p.Remaining(), Last(p));
    ghost var e := p.Inpush(t, NONE.(alias := true), a);
    p.NotStopped();
    InStack(p);
    PushedAlias(p, stk, h.top, e, d);
    RankPushed(p, stk, h, left, e, d, b);
  }

  /** exalias: the text of an alias is pushed exactly if the word names one that is not in
      use and is a global one, or in command position, or after an alias whose text ended
      with a blank. */
  method Exalias(p: Input, table: Table, word: string, incmdpos: bool, ghost d: nat, ghost b: nat)
    returns (pushed: bool, a: int)
    requires Ready(p, d) && p.Remaining() != "" && Fits(table, p) && (forall t :: t in p.texts ==> |t| <= b)
    modifies p
    ensures Ready(p, d) && p.strin == old(p.strin) && p.lines == old(p.lines) && !p.lexstop && Named(table, word, a)
    ensures pushed <==> a >= 0 && a !in old(p.inuse) && (table.global[a] || incmdpos || old(p.inalmore))
    ensures p.inuse == old(p.inuse) + (if pushed then {a} else {}) && (pushed ==> a < |p.texts|)
    ensures p.inalmore == (pushed && old(p.inalmore)) && p.ended == old(p.ended)
    ensures p.Remaining() == (if pushed then p.texts[a] else "") + old(p.Remaining()) && p.Remaining() != ""
    ensures pushed ==> Rank(p, d, b) < old(Rank(p, d, b) + Weight(b, d - p.instacktop))
    ensures !pushed ==> Rank(p, d, b) == old(Rank(p, d, b)) && p.instacktop == old(p.instacktop)
  {
    hide Ready, Rank, Input.Remaining, Weight;
    a := Lookup(table, word);
    if a >= 0 && a !in p.inuse && (table.global[a] || incmdpos || p.inalmore) {
      assert p.texts[a] in p.texts;
      PushAlias(p, a, d, b);
      return true, a;
    }
    NoMore(p, d, b);
    return false, a;
  }

  method NoMore(p: Input, ghost d: nat, ghost b: nat)
    requires Ready(p, d)
    modifies p`inalmore
    ensures Ready(p, d) && !p.lexstop && !p.inalmore
    ensures p.Remaining() == old(p.Remaining()) && Rank(p, d, b) == old(Rank(p, d, b))
  {
    hide Rest, Under, EntriesOk, Once, Sources, Others, Lower, Weight, Followed;
    p.inalmore := false;
  }

  /** What remains is nothing, or ends with a token, or with a blank where no line
      follows. */
  predicate Ended(s: string, last: bool) {
    s == "" || Closing(s[|s| - 1]) || (last && Blank(s[|s| - 1]))
  }

  lemma EndedRest(s: string, k: nat, last: bool)
    requires Ended(s, last) && k <= |s|
    ensures Ended(s[k..], last)
  {}

  lemma EndedPush(t: string, s: string, last: bool)
    requires Ended(s, last) && s != ""
    ensures Ended(t + s, last)
  {}

  /** The input up to the end of the line ends as it should. */
  ghost predicate ComingEnded(p: Input)
    reads p
  {
    Ended(Coming(p), p.strin || Later(p) == [])
  }

  /** yylex: words are read and aliases pushed until a word is not expanded.  This
      ends; in command position, the word left names no alias, or one in use. */
  method Expand(p: Input, table: Table, incmdpos: bool, ghost d: nat, ghost b: nat)
    returns (word: string, a: int, ghost ws: seq<Read>)
    requires Starts(p, d) && Fits(table, p) && (forall t :: t in p.texts ==> |t| <= b)
    modifies p
    ensures p.strin == old(p.strin) && p.lines == old(Later(p))
    ensures if p.lexstop then p.Valid() && word == "" && p.Remaining() == "" && Last(p) else Going(p, d)
    ensures word != "" ==> IsWord(word) && Ready(p, d) && Named(table, word, a)
    ensures word != "" && incmdpos && a >= 0 ==> a in p.inuse
    ensures Told(table, p.texts, ws, old(p.inalmore), p.inalmore, old(Whole(p)), Whole(p))
    ensures Chain(ws, incmdpos) && Words(ws) == [word]
    ensures !p.lexstop && old(p.Remaining()) != "" ==> Rank(p, d, b) < old(Rank(p, d, b))
    ensures !p.lexstop ==> old(Coming(p)) != "" && (old(ComingEnded(p)) ==> Ended(p.Remaining(), Last(p)))
  {
    hide Going, Input.Remaining, Rank, Weight, Followed, Input.Valid, Named, Ready, Starts, Coming, Later, Ended,
      IsWord, ComingEnded, Decided, NextMore, Words, Whole, Took, Chain, Told;
    var pushed;
    ghost var w;
    ToldNone(table, p.texts, p.inalmore, Whole(p));
    ChainNone(incmdpos);
    word, pushed, a, w := Step(p, table, incmdpos, d, b);
    ToldNext(table, p.texts, [], w, old(p.inalmore), old(p.inalmore), p.inalmore, old(Whole(p)), old(Whole(p)),
             Whole(p), incmdpos);
    ws := [] + [w];
    while pushed
      invariant p.strin == old(p.strin) && p.lines == old(Later(p))
      invariant if p.lexstop then p.Valid() && word == "" && p.Remaining() == "" && Last(p) && !pushed else Going(p, d)
      invariant !pushed && word != "" ==> IsWord(word) && Ready(p, d) && Named(table, word, a)
      invariant pushed ==> Ready(p, d) && p.Remaining() != ""
      invariant !pushed && word != "" && incmdpos && a >= 0 ==> a in p.inuse
      invariant Told(table, p.texts, ws, old(p.inalmore), p.inalmore, old(Whole(p)), Whole(p)) && Chain(ws, incmdpos)
      invariant ws != [] && ws[|ws| - 1].expanded == pushed && Words(ws) == if pushed then [] else [word]
      invariant !p.lexstop && old(p.Remaining()) != "" ==> Rank(p, d, b) < old(Rank(p, d, b))
      invariant !p.lexstop ==> old(Coming(p)) != "" && (old(ComingEnded(p)) ==> Ended(p.Remaining(), Last(p)))
      decreases pushed, Rank(p, d, b)
    {
      EndedStarts(p, d);
      ghost var mid, more := Whole(p), p.inalmore;
      word, pushed, a, w := Step(p, table, incmdpos, d, b);
      ToldNext(table, p.texts, ws, w, old(p.inalmore), more, p.inalmore, old(Whole(p)), mid, Whole(p), incmdpos);
      ws := ws + [w];
    }
  }

  lemma ChainNone(incmdpos: bool)
    ensures Chain([], incmdpos)
  {}

  lemma EndedStarts(p: Input, d: nat)
    requires Ready(p, d)
    ensures Starts(p, d) && Coming(p) == p.Remaining() && Later(p) == p.lines
    ensures Ended(p.Remaining(), Last(p)) ==> ComingEnded(p)
  {
    hide Going;
    ReadyStarts(p, d);
  }

  /** One turn of its loop. */
  method Step(p: Input, table: Table, incmdpos: bool, ghost d: nat, ghost b: nat)
    returns (word: string, pushed: bool, a: int, ghost w: Read)
    requires Starts(p, d) && Fits(table, p) && (forall t :: t in p.texts ==> |t| <= b)
    modifies p
    ensures p.strin == old(p.strin) && p.lines == old(Later(p))
    ensures if p.lexstop then p.Valid() && word == "" && p.Remaining() == "" && Last(p) && !pushed else Going(p, d)
    ensures word != "" ==> IsWord(word) && Ready(p, d) && Named(table, word, a)
    ensures pushed ==> Ready(p, d) && p.Remaining() != ""
    ensures !pushed && word != "" && incmdpos && a >= 0 ==> a in p.inuse
    ensures w == Read(word, a, pushed, incmdpos, w.inuse, w.gone, w.skipped, w.token)
    ensures p.ended == old(p.ended) + w.gone && Took(p.texts, w, old(Whole(p)), Whole(p))
    ensures Decided(table, p.texts, w, old(p.inalmore)) && p.inalmore == NextMore(p.texts, w, old(p.inalmore))
    ensures p.inuse == w.inuse + if pushed then {a} else {}
    ensures !p.lexstop && old(p.Remaining()) != "" ==> Rank(p, d, b) < old(Rank(p, d, b))
    ensures !p.lexstop ==> old(Coming(p)) != "" && (old(ComingEnded(p)) ==> Ended(p.Remaining(), Last(p)))
  {
    hide Going, Input.Remaining, Rank, Weight, Followed, Input.Valid, Named, Coming, Later, Ended, IsWord, MoreAfter,
      MoreKept, Decided, NextMore, Starts, ComingEnded, AllBlank, Closing, Ends, Whole, Took, Shaped, Raw, TextOf;
    ghost var skipped;
    ghost var coming, last, e, more := Coming(p), p.strin || Later(p) == [], p.ended, p.inalmore;
    ghost var after := if p.strin then "" else Flat(Later(p));
    ComingEnds(p);
    WholeComing(p);
    word, skipped := ReadWord(p, d, b);
    pushed, a := false, -1;
    w := Read(word, a, pushed, incmdpos, p.inuse, MoreGone(p, e, more), skipped, TokenRead(coming, skipped, word));
    ghost var left := p.Remaining();
    if !p.lexstop {
      WordRead(coming, skipped, word, left, last);
      if old(p.Remaining()) != "" { WeightMore(b, d - p.instacktop, d - p.instacktop); }
    }
    if word != "" {
      pushed, a, w := Judge(p, table, word, incmdpos, d, b, w.gone, more, last, skipped);
    } else {
      DecidedBy(table, p.texts, w, more);
    }
    ReadShape(p.texts, w, coming, skipped, left, after);
    WholeIs(p, after);
  }

  lemma WholeIs(p: Input, after: string)
    requires after == if p.strin then "" else Flat(p.lines)
    ensures Whole(p) == p.Remaining() + after
  {}

  lemma ReadShape(texts: seq<string>, w: Read, coming: string, skipped: string, left: string, after: string)
    requires w.skipped == skipped && AllBlank(skipped) && w.token == TokenRead(coming, skipped, w.word)
    requires if w.word != "" then IsWord(w.word) && coming == skipped + w.word + left && left != "" && Ends(left[0])
             else if |skipped| < |coming| then
               Closing(coming[|skipped|]) && coming == skipped + [coming[|skipped|]] + left
             else coming == skipped && left == "" == after
    ensures Took(texts, w, coming + after, TextOf(texts, w) + left + after)
    ensures !w.expanded ==> TextOf(texts, w) + left == left
  {
    TookFrom(texts, w, coming, left, after);
  }

  /** What becomes of a word. */
  method Judge(p: Input, table: Table, word: string, incmdpos: bool, ghost d: nat, ghost b: nat, ghost gone: seq<int>,
               ghost more: bool, ghost last: bool, ghost skipped: string)
    returns (pushed: bool, a: int, ghost w: Read)
    requires word != "" && IsWord(word) && p.inalmore == MoreAfter(p.texts, more, gone)
    requires Ready(p, d) && p.Remaining() != "" && Fits(table, p) && (forall t :: t in p.texts ==> |t| <= b)
    modifies p
    ensures Ready(p, d) && p.strin == old(p.strin) && p.lines == old(p.lines) && !p.lexstop && Named(table, word, a)
    ensures p.Remaining() != "" && (Ended(old(p.Remaining()), last) ==> Ended(p.Remaining(), last))
    ensures !pushed && incmdpos && a >= 0 ==> a in p.inuse
    ensures w == Read(word, a, pushed, incmdpos, old(p.inuse), gone, skipped, "") && p.ended == old(p.ended)
    ensures p.Remaining() == TextOf(p.texts, w) + old(p.Remaining())
    ensures Decided(table, p.texts, w, more) && p.inalmore == NextMore(p.texts, w, more)
    ensures p.inuse == w.inuse + if pushed then {a} else {}
    ensures Rank(p, d, b) < old(Rank(p, d, b) + Weight(b, d - p.instacktop))
  {
    hide Ready, Input.Remaining, Rank, Weight, Named, Ended, IsWord, MoreAfter, Decided, NextMore;
    ghost var rest := p.Remaining();
    WithinDepth(p, d);
    WeightMore(b, d - p.instacktop, d - p.instacktop);
    pushed, a := Exalias(p, table, word, incmdpos, d, b);
    w := Read(word, a, pushed, incmdpos, old(p.inuse), gone, skipped, "");
    PushedEnds(if pushed then p.texts[a] else "", rest, last);
    DecidedBy(table, p.texts, w, more);
  }

  /** The token that a read without a word has met. */
  ghost function TokenRead(coming: string, skipped: string, word: string): string {
    if word == "" && |skipped| < |coming| then [coming[|skipped|]] else ""
  }

  lemma WithinDepth(p: Input, d: nat)
    requires Ready(p, d)
    ensures p.instacktop <= d
  {}

  lemma ComingEnds(p: Input)
    ensures ComingEnded(p) <==> Ended(Coming(p), p.strin || Later(p) == [])
  {}

  /** The aliases whose texts have ended since then. */
  ghost function MoreGone(p: Input, e: seq<int>, more: bool): (gone: seq<int>)
    requires MoreKept(p, e, more)
    reads p
    ensures p.ended == e + gone && p.inalmore == MoreAfter(p.texts, more, gone)
  {
    p.ended[|e|..]
  }

  /** What a word leaves of the line. */
  lemma WordRead(coming: string, skipped: string, word: string, rest: string, last: bool)
    requires word != "" ==> coming == skipped + word + rest
    requires word == "" ==> |skipped| < |coming| && coming == skipped + [coming[|skipped|]] + rest
    ensures coming != "" && (Ended(coming, last) ==> Ended(rest, last))
  {
    var k := if word == "" then |skipped| + 1 else |skipped + word|;
    assert rest == coming[k..];
    if Ended(coming, last) { EndedRest(coming, k, last); }
  }

  lemma PushedEnds(t: string, rest: string, last: bool)
    requires rest != ""
    ensures (Ended(rest, last) ==> Ended(t + rest, last)) && "" + rest == rest
  {}

  // ----- All words of the input -----

  /** Every line ends with a token, but for the last one, which may end with a blank. */
  predicate LinesEnd(lines: seq<string>) {
    forall k :: 0 <= k < |lines| ==> lines[k] != "" && Ended(lines[k], k == |lines| - 1)
  }

  /** The stream between two words. */
  ghost predicate Between(p: Input, d: nat)
    reads p
  {
    Going(p, d) && Ended(p.Remaining(), Last(p)) && (p.strin || LinesEnd(p.lines))
  }

  lemma EndedFollowed(s: string, last: bool)
    requires Ended(s, last) && (s == "" ==> last)
    ensures Followed(s, last)
  {
    if s != "" { assert s[|s| - 1] in s; }
  }

  lemma BetweenStarts(p: Input, d: nat)
    requires Between(p, d)
    ensures Starts(p, d) && ComingEnded(p) && (p.strin || LinesEnd(Later(p)))
    ensures p.Remaining() != "" ==> Later(p) == p.lines
    ensures p.Remaining() == "" && Coming(p) != "" ==> |Later(p)| < |p.lines|
  {
    hide Going, Input.Remaining;
    if LineDue(p) {
      assert p.lines[0] != "";
      forall k | 0 <= k < |p.lines[1..]|
        ensures p.lines[1..][k] != "" && Ended(p.lines[1..][k], k == |p.lines[1..]| - 1)
      {
        assert p.lines[1..][k] == p.lines[k + 1];
      }
    }
    EndedFollowed(Coming(p), p.strin || Later(p) == []);
  }

  /** All words of the input are read; pos says of which it is that they are in command
      position, by the words before them.  This ends with all lines used up, and each word
      was expanded exactly if it had to be. */
  method ReadAll(p: Input, table: Table, pos: seq<string> -> bool, ghost d: nat, ghost b: nat)
    returns (words: seq<string>, ghost ws: seq<Read>)
    requires Between(p, d) && Fits(table, p) && (forall t :: t in p.texts ==> |t| <= b)
    modifies p
    ensures p.Valid() && p.lexstop && p.Remaining() == "" && (old(p.strin) || p.lines == [])
    ensures words == Words(ws) && Positions(ws, pos)
    ensures Told(table, p.texts, ws, old(p.inalmore), p.inalmore, old(Whole(p)), "")
  {
    hide Going, Input.Remaining, Rank, Weight, Followed, Input.Valid, Named, Ready, Starts, Coming, Later, Ended,
      IsWord, ComingEnded, Decided, NextMore, Words, Chain, Whole, Told;
    words, ws := [], [];
    GoingFacts(p, d);
    ToldNone(table, p.texts, p.inalmore, Whole(p));
    while !p.lexstop
      invariant if p.lexstop then p.Valid() && p.Remaining() == "" && (old(p.strin) || p.lines == []) else Between(p, d)
      invariant words == Words(ws) && p.strin == old(p.strin) && Positions(ws, pos)
      invariant Told(table, p.texts, ws, old(p.inalmore), p.inalmore, old(Whole(p)), Whole(p))
      decreases !p.lexstop, |p.lines|, Rank(p, d, b)
    {
      BetweenStarts(p, d);
      var word, a;
      ghost var read;
      ghost var mid, more := Whole(p), p.inalmore;
      word, a, read := Expand(p, table, pos(words), d, b);
      PositionsPlus(ws, read, pos);
      ToldPlus(table, p.texts, ws, read, old(p.inalmore), more, p.inalmore, old(Whole(p)), mid, Whole(p));
      words, ws := words + [word], ws + read;
    }
    NothingLeft(p);
  }

  lemma NothingLeft(p: Input)
    requires p.Remaining() == "" && (p.strin || p.lines == [])
    ensures Whole(p) == ""
  {}

  ghost function Longest(texts: seq<string>): (b: nat)
    ensures forall t :: t in texts ==> |t| <= b
  {
    if texts == [] then 0
    else
      var b := Longest(texts[1..]);
      assert forall t :: t in texts ==> t == texts[0] || t in texts[1..];
      if |texts[0]| > b then |texts[0]| else b
  }

  lemma Begins(p: Input)
    requires p.Valid() && !p.lexstop && p.instacktop == p.high == 0 && p.Remaining() == ""
    requires !p.strin && LinesEnd(p.lines)
    ensures Between(p, |p.texts|)
  {
    hide LinesEnd;
    assert Others(p.instack[..0], 0) == 0;
  }

  /** A whole script or terminal session: whatever the aliases are, every line is read. */
  method ReadLines(texts: seq<string>, lines: seq<string>, table: Table, pos: seq<string> -> bool)
    returns (p: Input, words: seq<string>, ghost ws: seq<Read>)
    requires LinesEnd(lines) && |table.names| == |texts| == |table.global|
    ensures fresh(p) && p.Valid() && p.lexstop && p.lines == [] && p.Remaining() == ""
    ensures words == Words(ws) && Positions(ws, pos) && Told(table, texts, ws, false, p.inalmore, Flat(lines), "")
  {
    hide Input.Valid, Input.Remaining, Between, Words, Positions, Told;
    p := new Input(texts, false, lines);
    assert "" + Flat(lines) == Flat(lines);
    Begins(p);
    words, ws := ReadAll(p, table, pos, |texts|, Longest(texts));
  }

  /** A whole string is read, and the look-ahead after it put back. */
  method ReadLs(p: Input) returns (cs: (char, char, char))
    requires p.Valid() && !p.lexstop && p.strin && p.Remaining() == "ls"
    modifies p
    ensures p.Valid() && cs == ('l', 's', ' ') && p.Remaining() == "" && p.lexstop && !p.inbufflags.cont && p.strin
    ensures p.instack == old(p.instack) && p.high == old(p.high) && p.instacktop <= old(p.instacktop)
  {
    hide Input.Valid, Input.Remaining;
    var c0 := p.Ingetc();
    assert ([c0] + p.Remaining())[1..] == p.Remaining() && ([c0] + p.Remaining())[0] == c0;
    assert p.Remaining() == "s";
    var c1 := p.Ingetc();
    assert ([c1] + p.Remaining())[1..] == p.Remaining() && ([c1] + p.Remaining())[0] == c1;
    var c2 := p.Ingetc();
    p.Inungetc(c2);
    cs := (c0, c1, c2);
  }

  lemma NoneInUse(p: Input)
    requires p.Valid() && !p.inbufflags.cont && p.high >= 1 && forall k :: 0 <= k < p.high - 1 ==>
      !p.instack[k].flags.alcont
    ensures p.inuse == {}
  {
    SourcesNone(p.instack[..p.high], p.instacktop);
  }

  lemma {:induction false} SourcesNone(stk: seq<Entry>, n: nat)
    requires n <= |stk| && forall k :: 0 <= k < n ==> !stk[k].flags.alcont
    ensures Sources(stk, n) == {}
  {
    if n > 0 { SourcesNone(stk, n - 1); }
  }

  /** Without a character after the word this fails: at the end of a string the
      look-ahead pops the level and cannot put it back, so that the alias ls of the
      text ls is expanded again and again. */
  method EndOfString() returns (p: Input, first: (char, char, char), second: (char, char, char))
    ensures fresh(p) && p.Valid() && first == second == ('l', 's', ' ')
    ensures p.texts == ["ls"] && p.inuse == {} && p.Remaining() == "" && p.lexstop
  {
    hide Input.Valid, Input.Remaining;
    p := new Input(["ls"], true, []);
    ghost var e := p.Inpush("ls", NONE, -1);
    InStack(p);
    assert p.instack[..p.high][p.high - 1] == e;
    first := ReadLs(p);
    InStack(p);
    NoneInUse(p);
    ghost var stk, t := p.instack[..p.high], p.instacktop;
    e := p.Inpush(p.texts[0], NONE.(alias := true), 0);
    InStack(p);
    forall k | 0 <= k < p.high - 1 ensures p.instack[k] == stk[k] { assert p.instack[..p.high][k] == p.instack[k]; }
    p.NotStopped();
    second := ReadLs(p);
    NoneInUse(p);
  }
}
