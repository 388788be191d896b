/** Patterns of Src/glob.c: their tokens, their abstract syntax, how they are
    written down as tokens, and the language each of them declares.

    A subject string is a sequence of characters; a metafied pair counts as one
    character.  A pattern is a sequence of tokens, the end of the sequence
    standing for the terminating NUL. */
module GlobPattern {

  datatype Tok = Ch(c: char) | Star | Quest | Inbrack | Outbrack | Inpar | Outpar | Bar | Pound

  /** A token between the brackets of a class. */
  type ClassTok = t: Tok | t != Outbrack witness Star

  /** One-character patterns; a class keeps the text between its brackets, and Stray is a
      closing bracket that closes nothing. */
  datatype Elem = Lit(c: char) | AnyChar | Class(body: seq<ClassTok>) | Stray

  /** A sequence of pieces. */
  datatype Pat = Nil | Cons(head: Piece, tail: Pat)

  datatype Piece =
    | Single(e: Elem)
    | Stars
    | Rep(e: Elem, plus: bool)           // x# and x##
    | Group(alts: Alts)                  // (p|q)
    | GroupRep(alts: Alts, plus: bool)   // (p|q)# and (p|q)##

  datatype Alts = One(p: Pat) | Or(p: Pat, rest: Alts)

  // ----- Concrete syntax -----

  /** The ordinary character a token stands for (the untok macro). */
  function Untok(t: Tok): char {
    match t
    case Ch(c) => c
    case Star => '*'
    case Quest => '?'
    case Inbrack => '['
    case Outbrack => ']'
    case Inpar => '('
    case Outpar => ')'
    case Bar => '|'
    case Pound => '#'
  }

  function Text(t: seq<Tok>): (b: string)
    ensures |b| == |t|
  {
    seq(|t|, k requires 0 <= k < |t| => Untok(t[k]))
  }

  function PrintElem(e: Elem): (t: seq<Tok>)
    ensures |t| > 0
  {
    match e
    case Lit(c) => [Ch(c)]
    case AnyChar => [Quest]
    case Class(body) => [Inbrack] + body + [Outbrack]
    case Stray => [Outbrack]
  }

  function Hashes(plus: bool): seq<Tok> {
    if plus then [Pound, Pound] else [Pound]
  }

  function PrintPiece(h: Piece): (t: seq<Tok>)
    ensures |t| > 0
  {
    match h
    case Single(e) => PrintElem(e)
    case Stars => [Tok.Star]
    case Rep(e, plus) => PrintElem(e) + Hashes(plus)
    case Group(a) => [Inpar] + PrintAlts(a) + [Outpar]
    case GroupRep(a, plus) => [Inpar] + PrintAlts(a) + [Outpar] + Hashes(plus)
  }

  function PrintPat(p: Pat): seq<Tok> {
    match p
    case Nil => []
    case Cons(h, t) => PrintPiece(h) + PrintPat(t)
  }

  function PrintAlts(a: Alts): seq<Tok> {
    match a
    case One(p) => PrintPat(p)
    case Or(p, rest) => PrintPat(p) + [Bar] + PrintAlts(rest)
  }

  // ----- Declared language -----

  predicate Between(i: nat, k: nat, j: nat) {
    i <= k <= j
  }

  predicate Beyond(i: nat, k: nat, j: nat) {
    i < k <= j
  }

  /** Position q of a class text admits ch: a dash that is neither first nor
      last stands for the range between its neighbours. */
  predicate Hits(b: string, q: nat, ch: char)
    requires q < |b|
  {
    if b[q] == '-' && q > 0 && q + 1 < |b| then b[q - 1] <= ch <= b[q + 1] else b[q] == ch
  }

  predicate Member(b: string, ch: char) {
    exists q :: 0 <= q < |b| && Hits(b, q, ch)
  }

  predicate Negated(body: string) {
    |body| > 0 && (body[0] == '^' || body[0] == '!')
  }

  predicate ClassAccepts(body: string, ch: char) {
    if Negated(body) then !Member(body[1..], ch) else Member(body, ch)
  }

  predicate ElemAccepts(e: Elem, ch: char) {
    match e
    case Lit(c) => c == ch
    case AnyChar => true
    case Class(body) => ClassAccepts(Text(body), ch)
    case Stray => ch == ']'
  }

  /** p matches exactly the characters of s from i up to j. */
  ghost predicate MatchesPat(p: Pat, s: string, i: nat, j: nat)
    decreases p
  {
    i <= j <= |s| &&
    match p
    case Nil => i == j
    case Cons(h, t) => exists k: nat :: Between(i, k, j) && MatchesPiece(h, s, i, k) && MatchesPat(t, s, k, j)
  }

  ghost predicate MatchesPiece(h: Piece, s: string, i: nat, j: nat)
    decreases h
  {
    i <= j <= |s| &&
    match h
    case Single(e) => j == i + 1 && ElemAccepts(e, s[i])
    case Stars => true
    case Rep(e, plus) => (plus ==> i < j) && forall q :: i <= q < j ==> ElemAccepts(e, s[q])
    case Group(a) => MatchesAlts(a, s, i, j)
    case GroupRep(a, false) => MatchesMany(a, s, i, j)
    case GroupRep(a, true) => exists k: nat :: Between(i, k, j) && MatchesAlts(a, s, i, k) && MatchesMany(a, s, k, j)
  }

  ghost predicate MatchesAlts(a: Alts, s: string, i: nat, j: nat)
    decreases a, 0, 0
  {
    match a
    case One(p) => MatchesPat(p, s, i, j)
    case Or(p, rest) => MatchesPat(p, s, i, j) || MatchesAlts(rest, s, i, j)
  }

  /** Zero or more repetitions; an empty repetition would add nothing. */
  ghost predicate MatchesMany(a: Alts, s: string, i: nat, j: nat)
    decreases a, 1, |s| - i
  {
    i <= j <= |s| &&
    (i == j || exists k: nat :: Beyond(i, k, j) && MatchesAlts(a, s, i, k) && MatchesMany(a, s, k, j))
  }
}
