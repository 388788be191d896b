/** fixdir of Src/builtin.c: a path is brought to normal form in a buffer, without
    HAVE_SUPERROOT. */
module PathNorm {

  // ----- What a path is -----

  /** The end of the segment at i, or of the string. */
  function SegEnd(s: string, i: nat): (j: nat)
    requires i <= |s|
    ensures i <= j <= |s| && (j < |s| ==> s[j] == '/') && forall k :: i <= k < j ==> s[k] != '/'
    decreases |s| - i
  {
    if i == |s| || s[i] == '/' then i else SegEnd(s, i + 1)
  }

  /** The segments between slashes, from i on. */
  function Segs(s: string, i: nat): seq<string>
    requires i <= |s|
    decreases |s| - i
  {
    if i == |s| then []
    else if s[i] == '/' then Segs(s, i + 1)
    else [s[i..SegEnd(s, i)]] + Segs(s, SegEnd(s, i))
  }

  /** What a segment does: . nothing; .. takes the last component away or, if there is
      none, is counted; any other is one more component. */
  function Taken(c: string, stack: seq<string>, ct: nat): (seq<string>, nat) {
    if c == "." then (stack, ct)
    else if c == ".." then if stack == [] then (stack, ct + 1) else (stack[..|stack| - 1], ct)
    else (stack + [c], ct)
  }

  function Walk(segs: seq<string>, stack: seq<string>, ct: nat): (seq<string>, nat)
    decreases |segs|
  {
    if segs == [] then (stack, ct)
    else var r := Taken(segs[0], stack, ct); Walk(segs[1..], r.0, r.1)
  }

  predicate Absolute(s: string) {
    s != "" && s[0] == '/'
  }

  /** The components with a slash after each, and one before them if the path is absolute. */
  function Open(abs: bool, stack: seq<string>): string {
    if stack == [] then if abs then "/" else ""
    else Open(abs, stack[..|stack| - 1]) + stack[|stack| - 1] + "/"
  }

  /** The same without the slash at the end, unless it is the root. */
  function Text(abs: bool, stack: seq<string>): string {
    var t := Open(abs, stack);
    if |t| > 1 then t[..|t| - 1] else t
  }

  /** A component of a path in normal form. */
  predicate Plain(c: string) {
    c != "" && c != "." && c != ".." && forall k :: 0 <= k < |c| ==> c[k] != '/'
  }

  predicate AllPlain(stack: seq<string>) {
    forall k :: 0 <= k < |stack| ==> Plain(stack[k])
  }

  /** The normal form: its text, and the number of .. that went above the start. */
  function Normal(s: string): (r: (seq<string>, nat)) {
    Walk(Segs(s, 0), [], 0)
  }

  // ----- What the normal form is -----

  lemma {:induction false} WalkPlain(segs: seq<string>, stack: seq<string>, ct: nat)
    requires AllPlain(stack) && forall k :: 0 <= k < |segs| ==> segs[k] != "" && forall j :: 0 <= j < |segs[k]| ==>
      segs[k][j] != '/'
    ensures AllPlain(Walk(segs, stack, ct).0)
    decreases |segs|
  {
    if segs != [] {
      var rest := segs[1..];
      forall k | 0 <= k < |rest|
        ensures rest[k] != "" && forall j :: 0 <= j < |rest[k]| ==> rest[k][j] != '/'
      {
        assert rest[k] == segs[k + 1];
      }
      if segs[0] == "." {
        WalkPlain(rest, stack, ct);
      } else if segs[0] == ".." {
        WalkPlain(rest, if stack == [] then [] else stack[..|stack| - 1], if stack == [] then ct + 1 else ct);
      } else {
        WalkPlain(rest, stack + [segs[0]], ct);
      }
    }
  }

  lemma {:induction false} SegsWhole(s: string, i: nat)
    requires i <= |s|
    ensures forall k :: 0 <= k < |Segs(s, i)| ==> Segs(s, i)[k] != "" && forall j :: 0 <= j < |Segs(s, i)[k]| ==>
      Segs(s, i)[k][j] != '/'
    decreases |s| - i
  {
    if i < |s| {
      if s[i] == '/' {
        SegsWhole(s, i + 1);
      } else {
        var e := SegEnd(s, i);
        SegsWhole(s, e);
        assert Segs(s, i) == [s[i..e]] + Segs(s, e);
      }
    }
  }

  /** No component of the normal form is empty, . or .. */
  lemma NormalPlain(s: string)
    ensures AllPlain(Normal(s).0)
  {
    SegsWhole(s, 0);
    WalkPlain(Segs(s, 0), [], 0);
  }

  lemma {:induction false} WalkNothing(segs: seq<string>, stack: seq<string>, ct: nat)
    requires AllPlain(segs)
    ensures Walk(segs, stack, ct) == (stack + segs, ct)
    decreases |segs|
  {
    if segs == [] {
      assert stack + segs == stack;
    } else {
      assert Plain(segs[0]);
      forall k | 0 <= k < |segs[1..]| ensures Plain(segs[1..][k]) { assert segs[1..][k] == segs[k + 1]; }
      WalkNothing(segs[1..], stack + [segs[0]], ct);
      assert stack + [segs[0]] + segs[1..] == stack + segs;
    }
  }

  // ----- Writing a path down and reading it again -----

  lemma {:induction false} SegEndIs(s: string, i: nat, e: nat)
    requires i <= e <= |s| && (e < |s| ==> s[e] == '/') && forall k :: i <= k < e ==> s[k] != '/'
    ensures SegEnd(s, i) == e
    decreases e - i
  {
    if i < e {
      SegEndIs(s, i + 1, e);
    }
  }

  /** A component written after a slash is one more segment. */
  lemma {:induction false} SegsPlus(t: string, i: nat, c: string)
    requires i <= |t| && (t != "" ==> t[|t| - 1] == '/') && Plain(c)
    ensures Segs(t + c, i) == Segs(t, i) + [c]
    decreases |t| - i
  {
    var u := t + c;
    if i == |t| {
      SegEndIs(u, i, |u|);
      assert u[i..|u|] == c;
    } else if t[i] == '/' {
      SegsPlus(t, i + 1, c);
    } else {
      var e := SegEnd(t, i);
      SegEndIs(u, i, e);
      SegsPlus(t, e, c);
      assert u[i..e] == t[i..e];
    }
  }

  /** A slash at the end makes no segment. */
  lemma {:induction false} SegsSlash(t: string, i: nat)
    requires i <= |t|
    ensures Segs(t + "/", i) == Segs(t, i)
    decreases |t| - i
  {
    var u := t + "/";
    if i < |t| {
      if t[i] == '/' {
        SegsSlash(t, i + 1);
      } else {
        var e := SegEnd(t, i);
        SegEndIs(u, i, e);
        SegsSlash(t, e);
        assert u[i..e] == t[i..e];
      }
    }
  }

  /** The segments of two paths with a slash between them, and so with any number of
      slashes. */
  lemma {:induction false} SegsJoin(t: string, i: nat, u: string)
    requires i <= |t|
    ensures Segs(t + "/" + u, i) == Segs(t, i) + Segs(u, 0)
    decreases |t| - i
  {
    var s := t + "/" + u;
    if i == |t| {
      SegsFrom(s, i + 1, u, 0);
    } else if t[i] == '/' {
      SegsJoin(t, i + 1, u);
    } else {
      var e := SegEnd(t, i);
      SegEndIs(s, i, e);
      SegsJoin(t, e, u);
      assert s[i..e] == t[i..e];
    }
  }

  lemma {:induction false} SegsFrom(s: string, i: nat, u: string, j: nat)
    requires i <= |s| && j <= |u| && s[i..] == u[j..]
    ensures Segs(s, i) == Segs(u, j)
    decreases |u| - j
  {
    assert |s| - i == |u| - j;
    forall k | j <= k < |u| ensures u[k] == s[k - j + i] { assert u[j..][k - j] == s[i..][k - j]; }
    if j < |u| {
      assert s[i] == u[j];
      if u[j] == '/' {
        SegsFrom(s, i + 1, u, j + 1);
      } else {
        var e := SegEnd(u, j);
        SegEndIs(s, i, e - j + i);
        assert s[i..e - j + i] == u[j..e];
        SegsFrom(s, e - j + i, u, e);
      }
    }
  }

  /** Two slashes are as one. */
  lemma SlashesAlike(t: string, u: string)
    ensures Normal(t + "//" + u) == Normal(t + "/" + u)
  {
    hide Walk, Segs;
    SegsJoin(t, 0, u);
    SegsJoin(t + "/", 0, u);
    SegsSlash(t, 0);
    assert t + "//" + u == (t + "/") + "/" + u;
  }

  lemma {:induction false} OpenFacts(abs: bool, stack: seq<string>)
    requires AllPlain(stack)
    ensures var t := Open(abs, stack);
      (t != "" ==> t[|t| - 1] == '/') && (|t| <= 1 <==> stack == []) &&
      Absolute(t) == abs
    ensures stack != [] ==> |Open(abs, stack)| >= 2 && Open(abs, stack)[|Open(abs, stack)| - 2] != '/'
    ensures Segs(Open(abs, stack), 0) == stack
  {
    if stack != [] {
      var c := stack[|stack| - 1];
      var pre := Open(abs, stack[..|stack| - 1]);
      assert Plain(c);
      OpenFacts(abs, stack[..|stack| - 1]);
      SegsPlus(pre, 0, c);
      SegsSlash(pre + c, 0);
      assert stack == stack[..|stack| - 1] + [c];
    }
  }

  /** What is written has no slash at the end but the root's, and its segments are the
      components. */
  lemma TextFacts(abs: bool, stack: seq<string>)
    requires AllPlain(stack)
    ensures var t := Text(abs, stack); (|t| > 1 ==> t[|t| - 1] != '/') && Absolute(t) == abs && Segs(t, 0) == stack
  {
    OpenFacts(abs, stack);
    var t, o := Text(abs, stack), Open(abs, stack);
    if |o| > 1 {
      assert t + "/" == o;
      SegsSlash(t, 0);
    }
  }

  /** A path in normal form is its own normal form, and goes above nothing. */
  lemma NormalAgain(s: string)
    ensures var t := Text(Absolute(s), Normal(s).0);
      Absolute(t) == Absolute(s) && Normal(t) == (Normal(s).0, 0) &&
      (|t| > 1 ==> t[|t| - 1] != '/')
  {
    NormalPlain(s);
    TextFacts(Absolute(s), Normal(s).0);
    WalkNothing(Normal(s).0, [], 0);
    assert [] + Normal(s).0 == Normal(s).0;
  }

  // ----- Where a path leads -----

  /** The directory reached from dir, a list of names below the root, in a tree without
      links: . stays, .. goes to the parent, and the root is its own parent. */
  function Go(dir: seq<string>, segs: seq<string>): seq<string>
    decreases |segs|
  {
    if segs == [] then dir
    else if segs[0] == "." then Go(dir, segs[1..])
    else if segs[0] == ".." then Go(Up(dir, 1), segs[1..])
    else Go(dir + [segs[0]], segs[1..])
  }

  function Up(dir: seq<string>, ct: nat): seq<string> {
    if ct <= |dir| then dir[..|dir| - ct] else []
  }

  lemma {:induction false} GoWalk(dir: seq<string>, segs: seq<string>, stack: seq<string>, ct: nat)
    ensures Go(Up(dir, ct) + stack, segs) == Up(dir, Walk(segs, stack, ct).1) + Walk(segs, stack, ct).0
    decreases |segs|
  {
    if segs != [] {
      var here := Up(dir, ct) + stack;
      var r := Taken(segs[0], stack, ct);
      GoWalk(dir, segs[1..], r.0, r.1);
      var there := Up(dir, r.1) + r.0;
      if segs[0] == "." {
        assert there == here;
      } else if segs[0] == ".." {
        assert there == Up(here, 1);
      } else {
        assert there == here + [segs[0]];
      }
    }
  }

  lemma GoNormal(dir: seq<string>, s: string)
    ensures Go(dir, Segs(s, 0)) == Up(dir, Normal(s).1) + Normal(s).0
  {
    GoWalk(dir, Segs(s, 0), [], 0);
    assert Up(dir, 0) + [] == dir;
  }

  /** From every directory the path leads where its normal form leads from as many levels
      up as are counted. */
  lemma SamePlace(dir: seq<string>, s: string)
    ensures Go(dir, Segs(s, 0)) == Go(Up(dir, Normal(s).1), Segs(Text(Absolute(s), Normal(s).0), 0))
  {
    hide Segs, Go, Walk, Text;
    GoNormal(dir, s);
    NormalAgain(s);
    var up := Up(dir, Normal(s).1);
    GoNormal(up, Text(Absolute(s), Normal(s).0));
    assert Up(up, 0) == up;
  }

  lemma Apart(s0: seq<string>, c0: nat, s1: seq<string>, c1: nat)
    requires c0 < c1
    ensures exists dir :: Up(dir, c0) + s0 != Up(dir, c1) + s1
  {
    var mark := if s1 == [] then "" else s1[0] + "x";
    var dir := seq(c1, i => mark);
    var a, b := Up(dir, c0) + s0, Up(dir, c1) + s1;
    assert a[0] == dir[0] == mark;
    assert s1 != [] ==> b[0] == s1[0] && |s1[0]| < |mark|;
    assert a != b;
  }

  /** Two paths lead to the same place from everywhere exactly when they have one normal
      form and one count: nothing is left that could be taken out. */
  lemma Canonical(s: string, t: string)
    ensures (forall dir :: Go(dir, Segs(s, 0)) == Go(dir, Segs(t, 0))) <==> Normal(s) == Normal(t)
  {
    var (s0, c0) := Normal(s);
    var (s1, c1) := Normal(t);
    forall dir ensures Go(dir, Segs(s, 0)) == Up(dir, c0) + s0 && Go(dir, Segs(t, 0)) == Up(dir, c1) + s1 {
      GoNormal(dir, s);
      GoNormal(dir, t);
    }
    if c0 < c1 {
      Apart(s0, c0, s1, c1);
      var dir :| Up(dir, c0) + s0 != Up(dir, c1) + s1;
      assert Go(dir, Segs(s, 0)) != Go(dir, Segs(t, 0));
    } else if c1 < c0 {
      Apart(s1, c1, s0, c0);
      var dir :| Up(dir, c1) + s1 != Up(dir, c0) + s0;
      assert Go(dir, Segs(s, 0)) != Go(dir, Segs(t, 0));
    } else if s0 != s1 {
      assert Up([], c0) + s0 == s0 && Up([], c0) + s1 == s1;
      assert Go([], Segs(s, 0)) != Go([], Segs(t, 0));
    }
  }

  // ----- The buffer -----

  method SkipSlashes(src: string, p: nat) returns (q: nat)
    requires p <= |src|
    ensures p <= q <= |src| && (q < |src| ==> src[q] != '/') && Segs(src, q) == Segs(src, p)
  {
    q := p;
    while q < |src| && src[q] == '/'
      invariant p <= q <= |src| && Segs(src, q) == Segs(src, p)
    {
      q := q + 1;
    }
  }

  method CopySeg(dest: array<char>, n: nat, src: string, p: nat) returns (m: nat, q: nat)
    requires n <= p <= |src| < dest.Length
    modifies dest
    ensures q == SegEnd(src, p) && m == n + (q - p) <= q
    ensures dest[..m] == old(dest[..n]) + src[p..q]
    ensures forall i :: |src| < i < dest.Length ==> dest[i] == old(dest[i])
  {
    m, q := n, p;
    while q < |src| && src[q] != '/'
      invariant p <= q <= |src| && m == n + (q - p) && SegEnd(src, q) == SegEnd(src, p)
      invariant dest[..m] == old(dest[..n]) + src[p..q]
      invariant forall i :: |src| < i < dest.Length ==> dest[i] == old(dest[i])
    {
      dest[m] := src[q];
      assert dest[..m + 1] == dest[..m] + [src[q]];
      assert src[p..q + 1] == src[p..q] + [src[q]];
      m, q := m + 1, q + 1;
    }
  }

  /** The last component is taken off: back over its slash, then to the one before it or
      to the start of the buffer, never below. */
  method PopSeg(dest: array<char>, n: nat, ghost pre: string, ghost c: string) returns (m: nat)
    requires n <= dest.Length && dest[..n] == pre + c + "/" && Plain(c) && (pre != "" ==> pre[|pre| - 1] == '/')
    ensures m == |pre| && dest[..m] == pre
  {
    ghost var t := dest[..n];
    assert forall k :: |pre| <= k < n - 1 ==> t[k] == c[k - |pre|] != '/';
    assert pre != "" ==> t[|pre| - 1] == '/';
    assert dest[..|pre|] == t[..|pre|] == pre;
    assert forall k :: 0 <= k < n ==> dest[k] == t[k];
    m := n - 1;
    while m > 1 && dest[m - 1] != '/'
      invariant 1 <= m < n && |pre| <= m
    {
      m := m - 1;
    }
    if dest[m - 1] != '/' {
      m := m - 1;
    }
  }

  /** Between two segments: at the start; after a slash; or after a component whose slash
      has not been copied yet. */
  ghost predicate Written(t: string, src: string, p: nat, stack: seq<string>)
    requires p <= |src|
  {
    var o := Open(Absolute(src), stack);
    || (p == 0 && t == "" && stack == [])
    || (t == o && (p < |src| ==> src[p] != '/'))
    || (stack != [] && t + "/" == o && (p < |src| ==> src[p] == '/'))
  }

  /** The slash between segments, and what else of slashes follows it. */
  method CopySlash(dest: array<char>, n: nat, src: string, p: nat, ghost stack: seq<string>) returns (m: nat, q: nat)
    requires n <= p <= |src| < dest.Length && Written(dest[..n], src, p, stack) && AllPlain(stack)
    modifies dest
    ensures p <= q <= |src| && m <= q && Segs(src, q) == Segs(src, p)
    ensures q < |src| ==> src[q] != '/'
    ensures dest[..m] == Open(Absolute(src), stack) ||
      (q == |src| && stack != [] && dest[..m] + "/" == Open(Absolute(src), stack))
    ensures forall i :: |src| < i < dest.Length ==> dest[i] == old(dest[i])
  {
    m, q := n, p;
    OpenFacts(Absolute(src), stack);
    if q < |src| && src[q] == '/' {
      dest[m] := '/';
      assert dest[..m + 1] == old(dest[..n]) + "/";
      m := m + 1;
      q := SkipSlashes(src, q + 1);
    }
  }

  /** The end of the path: a slash that was copied last goes, unless it is the root. */
  method Finish(dest: array<char>, n: nat, ghost abs: bool, ghost stack: seq<string>)
    requires n < dest.Length && AllPlain(stack)
    requires dest[..n] == Open(abs, stack) || (stack != [] && dest[..n] + "/" == Open(abs, stack))
    modifies dest
    ensures var t := Text(abs, stack); |t| <= n && dest[..|t|] == t && dest[|t|] == '\0'
    ensures forall i :: n < i < dest.Length ==> dest[i] == old(dest[i])
  {
    hide *;
    ghost var d := dest[..n];
    EndText(d, abs, stack);
    var m := n;
    while m > 1 && dest[m - 1] == '/'
      invariant 0 <= m <= n && (m == n || (m == n - 1 && n > 1 && d[m] == '/'))
    {
      m := m - 1;
    }
    assert Text(abs, stack) == d[..m];
    EndHere(dest, m, d[..m]);
  }

  method EndHere(dest: array<char>, m: nat, ghost t: string)
    requires m < dest.Length && t == dest[..m]
    modifies dest
    ensures |t| == m && dest[..m] == t && dest[m] == '\0' && forall i :: m < i < dest.Length ==> dest[i] == old(dest[i])
  {
    dest[m] := '\0';
  }

  /** What is left when a slash at the end is taken off. */
  lemma EndText(d: string, abs: bool, stack: seq<string>)
    requires AllPlain(stack)
    requires d == Open(abs, stack) || (stack != [] && d + "/" == Open(abs, stack))
    ensures var n := |d|; Text(abs, stack) == if n > 1 && d[n - 1] == '/' then d[..n - 1] else d
    ensures |d| > 2 && d[|d| - 1] == '/' ==> d[|d| - 2] != '/'
  {
    OpenFacts(abs, stack);
    var o := Open(abs, stack);
    assert d == o || (d == o[..|o| - 1] && d[|d| - 1] == o[|o| - 2]);
  }

  lemma SegsHead(src: string, p: nat)
    requires p < |src| && src[p] != '/'
    ensures var e := SegEnd(src, p);
      p < e && Segs(src, p) == [src[p..e]] + Segs(src, e) &&
      Segs(src, p)[1..] == Segs(src, e)
    ensures SegEnd(src, p) == p + 1 <==> p + 1 == |src| || src[p + 1] == '/'
  {
    SegsWhole(src, p);
  }

  /** The next segment is . or .. exactly when the characters say so. */
  lemma DotsRead(src: string, p: nat)
    requires p < |src| && src[p] != '/'
    ensures var c := src[p..SegEnd(src, p)]; c == ".." <==>
      p + 1 < |src| && src[p] == '.' && src[p + 1] == '.' && (p + 2 == |src| || src[p + 2] == '/')
    ensures var c := src[p..SegEnd(src, p)]; c == "." <==> src[p] == '.' && (p + 1 == |src| || src[p + 1] == '/')
    ensures src[p..SegEnd(src, p)] == ".." ==> SegEnd(src, p) == p + 2
    ensures src[p..SegEnd(src, p)] == "." ==> SegEnd(src, p) == p + 1
  {
    var e := SegEnd(src, p);
    var c := src[p..e];
    assert |c| == e - p && c[0] == src[p] && (|c| > 1 ==> c[1] == src[p + 1]);
    if p + 1 < |src| && src[p] == '.' && src[p + 1] == '.' && (p + 2 == |src| || src[p + 2] == '/') {
      SegEndIs(src, p, p + 2);
    }
    if src[p] == '.' && (p + 1 == |src| || src[p + 1] == '/') {
      SegEndIs(src, p, p + 1);
    }
  }

  /** Reading a segment. */
  lemma SegRead(src: string, p: nat, stack: seq<string>, ct: nat)
    requires p < |src| && src[p] != '/' && AllPlain(stack)
    ensures var e := SegEnd(src, p); var r := Taken(src[p..e], stack, ct);
      p < e && Walk(Segs(src, p), stack, ct) == Walk(Segs(src, e), r.0, r.1) && AllPlain(r.0)
    ensures src[p..SegEnd(src, p)] in [".", ".."] || Plain(src[p..SegEnd(src, p)])
  {
    SegsHead(src, p);
  }

  lemma NothingLeft(src: string, stack: seq<string>, ct: nat)
    ensures Walk(Segs(src, |src|), stack, ct) == (stack, ct)
  {
  }

  /** A .. segment, after a slash or at the start. */
  method BackUp(dest: array<char>, n: nat, ct: nat, ghost abs: bool, ghost stack: seq<string>) returns (m: nat, c: nat)
    requires n <= dest.Length && AllPlain(stack) && dest[..n] == Open(abs, stack)
    ensures m <= n && dest[..m] == Open(abs, Taken("..", stack, ct).0) && c == Taken("..", stack, ct).1
  {
    OpenFacts(abs, stack);
    m, c := n, ct;
    if n > 1 {
      OpenFacts(abs, stack[..|stack| - 1]);
      m := PopSeg(dest, n, Open(abs, stack[..|stack| - 1]), stack[|stack| - 1]);
    } else {
      c := ct + 1;
    }
  }

  /** Any other segment. */
  method CopyName(dest: array<char>, n: nat, src: string, p: nat, ghost stack: seq<string>, ghost ct: nat)
    returns (m: nat, q: nat)
    requires n <= p < |src| < dest.Length && dest[..n] == Open(Absolute(src), stack)
    requires Plain(src[p..SegEnd(src, p)])
    modifies dest
    ensures q == SegEnd(src, p) && m <= q
    ensures var r := Taken(src[p..q], stack, ct).0; r != [] && dest[..m] + "/" == Open(Absolute(src), r)
    ensures forall i :: |src| < i < dest.Length ==> dest[i] == old(dest[i])
  {
    ghost var c := src[p..SegEnd(src, p)];
    m, q := CopySeg(dest, n, src, p);
    assert (stack + [c])[..|stack|] == stack;
  }

  /** fixdir: the buffer receives the normal form of the path and a terminator, in no more
      room than the path itself takes; what is returned counts the .. without a match. */
  method FixDir(dest: array<char>, src: string) returns (ct: nat)
    requires |src| < dest.Length
    modifies dest
    ensures var t := Text(Absolute(src), Normal(src).0); |t| <= |src| && dest[..|t|] == t && dest[|t|] == '\0'
    ensures ct == Normal(src).1
    ensures forall i :: |src| < i < dest.Length ==> dest[i] == old(dest[i])
  {
    hide Segs, Walk, Open, Text, Plain;
    var p: nat, n: nat := 0, 0;
    ghost var stack: seq<string>, abs := [], Absolute(src);
    ct := 0;
    while true
      invariant n <= p <= |src| && AllPlain(stack) && Written(dest[..n], src, p, stack)
      invariant Walk(Segs(src, p), stack, ct) == Normal(src)
      invariant forall i :: |src| < i < dest.Length ==> dest[i] == old(dest[i])
      decreases |src| - p
    {
      n, p := CopySlash(dest, n, src, p, stack);
      if p == |src| {
        NothingLeft(src, stack, ct);
        Finish(dest, n, abs, stack);
        return;
      }
      DotsRead(src, p);
      SegRead(src, p, stack, ct);
      ghost var r := Taken(src[p..SegEnd(src, p)], stack, ct);
      if src[p] == '.' && p + 1 < |src| && src[p + 1] == '.' && (p + 2 == |src| || src[p + 2] == '/') {
        n, ct := BackUp(dest, n, ct, abs, stack);
        p := SkipSlashes(src, p + 2);
      } else if src[p] == '.' && (p + 1 == |src| || src[p + 1] == '/') {
        p := SkipSlashes(src, p + 1);
      } else {
        n, p := CopyName(dest, n, src, p, stack, ct);
      }
      stack := r.0;
    }
  }
}
