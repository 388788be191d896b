/** Comma-brace expressions, the strings they print as, and the words they stand for. */
module BraceWords {

  /** A character, or one of the tokens Inbrace, Outbrace, Comma. */
  datatype Tok = Char(c: char) | Inb | Outb | Com

  /** A word: characters, and groups {a,b,...} of two or more words. */
  datatype Word = End | Chr(c: char, rest: Word) | Group(alts: Alts, rest: Word)
  datatype Alts = Last(word: Word) | More(word: Word, alts: Alts)

  function Print(w: Word): seq<Tok>
    decreases w
  {
    match w
    case End => []
    case Chr(c, rest) => [Char(c)] + Print(rest)
    case Group(alts, rest) => [Inb] + PrintAlts(alts) + [Outb] + Print(rest)
  }

  function PrintAlts(a: Alts): seq<Tok>
    decreases a
  {
    match a
    case Last(w) => Print(w)
    case More(w, more) => Print(w) + [Com] + PrintAlts(more)
  }

  predicate IsChars(w: Word) {
    match w
    case End => true
    case Chr(_, rest) => IsChars(rest)
    case Group(_, _) => false
  }

  /** Every group has two alternatives or more. */
  predicate Proper(w: Word)
    decreases w
  {
    match w
    case End => true
    case Chr(_, rest) => Proper(rest)
    case Group(alts, rest) => alts.More? && ProperAlts(alts) && Proper(rest)
  }

  predicate ProperAlts(a: Alts)
    decreases a
  {
    match a
    case Last(w) => Proper(w)
    case More(w, more) => Proper(w) && ProperAlts(more)
  }

  // ----- What a word stands for -----

  /** x in front of every string. */
  function Prefix(x: string, ys: seq<string>): seq<string> {
    if ys == [] then [] else [x + ys[0]] + Prefix(x, ys[1..])
  }

  /** The strings x + y, for x in xs, in order, and y in ys, in order. */
  function Product(xs: seq<string>, ys: seq<string>): seq<string> {
    if xs == [] then [] else Prefix(xs[0], ys) + Product(xs[1..], ys)
  }

  /** The Cartesian product of the choices, in order. */
  function Denote(w: Word): seq<string>
    decreases w
  {
    match w
    case End => [""]
    case Chr(c, rest) => Prefix([c], Denote(rest))
    case Group(alts, rest) => Product(DenoteAlts(alts), Denote(rest))
  }

  function DenoteAlts(a: Alts): seq<string>
    decreases a
  {
    match a
    case Last(w) => Denote(w)
    case More(w, more) => Denote(w) + DenoteAlts(more)
  }

  function Append(a: Word, b: Word): Word
    decreases a
  {
    match a
    case End => b
    case Chr(c, rest) => Chr(c, Append(rest, b))
    case Group(alts, rest) => Group(alts, Append(rest, b))
  }

  // ----- Laws of the product -----

  lemma {:induction false} PrefixPlus(x: string, a: seq<string>, b: seq<string>)
    ensures Prefix(x, a + b) == Prefix(x, a) + Prefix(x, b)
  {
    if a == [] {
      assert a + b == b;
    } else {
      PrefixPlus(x, a[1..], b);
      assert (a + b)[1..] == a[1..] + b;
    }
  }

  lemma {:induction false} PrefixTwice(x: string, y: string, a: seq<string>)
    ensures Prefix(x, Prefix(y, a)) == Prefix(x + y, a)
  {
    if a != [] {
      PrefixTwice(x, y, a[1..]);
      assert Prefix(y, a)[1..] == Prefix(y, a[1..]);
      assert x + (y + a[0]) == (x + y) + a[0];
    }
  }

  lemma {:induction false} ProductPlus(a: seq<string>, b: seq<string>, c: seq<string>)
    ensures Product(a + b, c) == Product(a, c) + Product(b, c)
  {
    if a == [] {
      assert a + b == b;
    } else {
      ProductPlus(a[1..], b, c);
      assert (a + b)[1..] == a[1..] + b;
    }
  }

  lemma {:induction false} PrefixProduct(x: string, a: seq<string>, b: seq<string>)
    ensures Prefix(x, Product(a, b)) == Product(Prefix(x, a), b)
  {
    if a != [] {
      PrefixPlus(x, Prefix(a[0], b), Product(a[1..], b));
      PrefixTwice(x, a[0], b);
      PrefixProduct(x, a[1..], b);
      assert Prefix(x, a)[1..] == Prefix(x, a[1..]);
    }
  }

  lemma {:induction false} ProductAssoc(a: seq<string>, b: seq<string>, c: seq<string>)
    ensures Product(a, Product(b, c)) == Product(Product(a, b), c)
  {
    if a != [] {
      PrefixProduct(a[0], b, c);
      ProductAssoc(a[1..], b, c);
      ProductPlus(Prefix(a[0], b), Product(a[1..], b), c);
    }
  }

  lemma {:induction false} PrefixEmpty(a: seq<string>)
    ensures Prefix("", a) == a
  {
    if a != [] {
      PrefixEmpty(a[1..]);
      assert "" + a[0] == a[0];
    }
  }

  lemma ProductOne(x: string, a: seq<string>)
    ensures Product([x], a) == Prefix(x, a)
  {
    assert Product([x][1..], a) == [];
  }

  lemma {:induction false} DenoteAppend(a: Word, b: Word)
    ensures Denote(Append(a, b)) == Product(Denote(a), Denote(b))
    decreases a
  {
    match a
    case End =>
      ProductOne("", Denote(b));
      PrefixEmpty(Denote(b));
    case Chr(c, rest) =>
      DenoteAppend(rest, b);
      PrefixProduct([c], Denote(rest), Denote(b));
    case Group(alts, rest) =>
      DenoteAppend(rest, b);
      ProductAssoc(DenoteAlts(alts), Denote(rest), Denote(b));
  }

  /** One word for each alternative of the group, with what is before and after it. */
  function Choices(pre: Word, a: Alts, post: Word): seq<Word>
    decreases a
  {
    match a
    case Last(w) => [Append(pre, Append(w, post))]
    case More(w, more) => [Append(pre, Append(w, post))] + Choices(pre, more, post)
  }

  function DenoteAll(ws: seq<Word>): seq<string> {
    if ws == [] then [] else Denote(ws[0]) + DenoteAll(ws[1..])
  }

  lemma {:induction false} DenoteAllPlus(a: seq<Word>, b: seq<Word>)
    ensures DenoteAll(a + b) == DenoteAll(a) + DenoteAll(b)
  {
    hide Denote;
    if a == [] {
      assert a + b == b;
    } else {
      DenoteAllPlus(a[1..], b);
      assert (a + b)[1..] == a[1..] + b;
    }
  }

  /** Replacing the first group by its alternatives keeps the words and their order. */
  lemma {:induction false} ChoicesDenote(pre: Word, a: Alts, post: Word)
    requires IsChars(pre)
    ensures DenoteAll(Choices(pre, a, post)) == Denote(Append(pre, Group(a, post)))
    decreases a
  {
    var text := OneText(pre);
    DenoteAppend(pre, Group(a, post));
    ProductOne(text, Denote(Group(a, post)));
    match a
    case Last(w) =>
      OneChoice(pre, text, w, post);
      assert DenoteAll([Append(pre, Append(w, post))][1..]) == [];
    case More(w, more) =>
      ChoicesDenote(pre, more, post);
      DenoteAppend(pre, Group(more, post));
      ProductOne(text, Denote(Group(more, post)));
      OneChoice(pre, text, w, post);
      ProductPlus(Denote(w), DenoteAlts(more), Denote(post));
      PrefixPlus(text, Product(Denote(w), Denote(post)), Product(DenoteAlts(more), Denote(post)));
      var first := [Append(pre, Append(w, post))];
      DenoteAllPlus(first, Choices(pre, more, post));
      assert DenoteAll(first[1..]) == [];
  }

  lemma OneChoice(pre: Word, text: string, w: Word, post: Word)
    requires Denote(pre) == [text]
    ensures Denote(Append(pre, Append(w, post))) == Prefix(text, Product(Denote(w), Denote(post)))
  {
    DenoteAppend(pre, Append(w, post));
    DenoteAppend(w, post);
    ProductOne(text, Denote(Append(w, post)));
  }

  /** The tokens are the characters of the string. */
  ghost predicate Spells(t: seq<Tok>, text: string) {
    |t| == |text| && forall i :: 0 <= i < |t| ==> t[i] == Char(text[i])
  }

  lemma {:induction false} OneText(w: Word) returns (text: string)
    requires IsChars(w)
    ensures Denote(w) == [text] && Spells(Print(w), text)
    decreases w
  {
    match w
    case End => text := "";
    case Chr(c, rest) =>
      var more := OneText(rest);
      text := [c] + more;
      assert [more][1..] == [];
      assert Prefix([c], [more]) == [text];
  }
}
