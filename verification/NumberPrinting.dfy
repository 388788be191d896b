/** convbase of Src/params.c, which prints an integer in a base into a buffer of the
    caller's, and the reading of numbers by zstrtol and the arithmetic lexer. */
module NumberPrinting {

  const WORD := 0x1_0000_0000_0000_0000
  const HALF := 0x8000_0000_0000_0000

  /** The buffer of getstrvalue, (SIZEOF_ZLONG * 8) + 4 characters. */
  const ANY_BASE_ROOM := 68
  /** DIGBUFSIZE. */
  const DECIMAL_ROOM := 21

  /** What is left of an integer in a zlong and in a zulong. */
  function Signed(x: int): (r: int)
    ensures -HALF <= r < HALF && (-HALF <= x < HALF ==> r == x)
  {
    (x + HALF) % WORD - HALF
  }

  function Unsigned(x: int): (r: nat)
    ensures r < WORD && (0 <= x < WORD ==> r == x)
  {
    x % WORD
  }

  // ----- Division -----

  lemma Times(a: int, b: int, c: int)
    requires a <= b && c >= 0
    ensures a * c <= b * c && c * a <= c * b
  {
  }

  lemma Halved(x: nat, base: nat, q: int, d: nat)
    requires 1 < base <= x && x == q * base + d && d < base
    ensures 0 < q < x
  {
    if q <= 0 {
      Times(q, 0, base);
    } else {
      Times(2, base, q);
    }
  }

  lemma Larger(x: nat, base: nat)
    requires 1 < base <= x
    ensures 0 < x / base < x
  {
    Halved(x, base, x / base, x % base);
  }

  lemma Below(base: nat, q: nat, d: nat, q1: nat, d1: nat)
    requires q < q1 && d < base
    ensures q * base + d < q1 * base + d1
  {
    Times(q + 1, q1, base);
    assert (q + 1) * base == q * base + base;
  }

  lemma UniqueDivision(x: nat, base: nat, q: nat, d: nat)
    requires base > 0 && x == q * base + d && d < base
    ensures q == x / base && d == x % base
  {
    var q1, d1 := x / base, x % base;
    if q < q1 {
      Below(base, q, d, q1, d1);
    } else if q1 < q {
      Below(base, q1, d1, q, d);
    }
  }

  // ----- What is printed -----

  /** The character of a digit; a char keeps eight bits. */
  function DigitChar(dig: nat): char {
    if dig < 10 then '0' + dig as char else ((dig - 10 + 'A' as int) % 256) as char
  }

  function Digits(x: nat, base: nat): (t: string)
    requires base > 1
    ensures t != ""
  {
    if x < base then [DigitChar(x)] else Larger(x, base); Digits(x / base, base) + [DigitChar(x % base)]
  }

  function Magnitude(v: int): nat {
    if v < 0 then -v else v
  }

  function BaseUsed(base: int): (b: nat)
    ensures b > 1
  {
    if base <= 1 then 10 else base
  }

  function Lead(v: int, base: int): string {
    (if v < 0 then "-" else "") + (if BaseUsed(base) == 10 then "" else Digits(BaseUsed(base), 10) + "#")
  }

  function Printed(v: int, base: int): string {
    Lead(v, base) + Digits(Magnitude(v), BaseUsed(base))
  }

  // ----- What digits mean -----

  /** The value of a character as a digit of a base, or -1, as zstrtol decides it. */
  function DigitValue(c: char, base: nat): int {
    if base <= 10 then if '0' <= c && (c as int) < '0' as int + base then c as int - '0' as int else -1
    else if '0' <= c <= '9' then c as int - '0' as int
    else if ('a' <= c && (c as int) < 'a' as int + base - 10) || ('A' <= c && (c as int) < 'A' as int + base - 10) then
    c as int % 32 + 9
    else -1
  }

  function Small(c: char): char {
    if 'A' <= c <= 'Z' then (c as int + 32) as char else c
  }

  /** Small letters are digits as the others are, and A is ten. */
  lemma SmallLetters(c: char, base: nat)
    requires 'A' <= c <= 'Z'
    ensures DigitValue(Small(c), base) == DigitValue(c, base)
    ensures DigitValue(c, base) == if c as int - 'A' as int < base - 10 then c as int - 'A' as int + 10 else -1
  {
    assert (c as int) % 32 == c as int - 64 && (c as int + 32) % 32 == c as int - 64;
  }

  /** The value of a string does not depend on the case of its letters. */
  lemma {:induction false} SmallValue(t: string, u: string, base: nat)
    requires |t| == |u| && forall k :: 0 <= k < |t| ==> u[k] == Small(t[k])
    ensures Value(u, base) == Value(t, base)
  {
    hide DigitValue;
    if t != "" {
      var n := |t| - 1;
      SmallValue(t[..n], u[..n], base);
      if 'A' <= t[n] <= 'Z' { SmallLetters(t[n], base); }
    }
  }

  predicate AllDigits(t: string, base: nat) {
    forall k :: 0 <= k < |t| ==> 0 <= DigitValue(t[k], base) < base
  }

  function Value(t: string, base: nat): int {
    if t == "" then 0 else Value(t[..|t| - 1], base) * base + DigitValue(t[|t| - 1], base)
  }

  lemma DigitReads(dig: nat, base: nat)
    requires dig < base && 1 < base <= 41
    ensures DigitValue(DigitChar(dig), base) == dig && (DigitChar(dig) == '0' <==> dig == 0)
  {
  }

  lemma ValuePlus(t: string, c: char, base: nat)
    ensures Value(t + [c], base) == Value(t, base) * base + DigitValue(c, base)
  {
    assert (t + [c])[..|t|] == t;
  }

  lemma OneDigit(x: nat, base: nat)
    requires 1 < base <= 41 && x < base
    ensures AllDigits([DigitChar(x)], base) && Value([DigitChar(x)], base) == x && (DigitChar(x) == '0' <==> x == 0)
  {
    DigitReads(x, base);
    ValuePlus("", DigitChar(x), base);
    assert "" + [DigitChar(x)] == [DigitChar(x)];
  }

  /** The digits denote the number, and no zero stands in front but for zero itself. */
  lemma {:induction false} DigitsDenote(x: nat, base: nat)
    requires 1 < base <= 41
    ensures AllDigits(Digits(x, base), base) && Value(Digits(x, base), base) == x
    ensures Digits(x, base)[0] == '0' <==> x == 0
    ensures x == 0 ==> Digits(x, base) == "0"
  {
    hide DigitChar, DigitValue, Value;
    if x < base {
      OneDigit(x, base);
    } else {
      Larger(x, base);
      DigitReads(x % base, base);
      DigitsDenote(x / base, base);
      ValuePlus(Digits(x / base, base), DigitChar(x % base), base);
    }
  }

  lemma {:induction false} ValueGrows(t: string, base: nat)
    requires base > 1 && AllDigits(t, base) && t != ""
    ensures Value(t, base) >= 0 && (DigitValue(t[0], base) != 0 ==> Value(t, base) > 0)
    decreases |t|
  {
    var h, d := t[..|t| - 1], DigitValue(t[|t| - 1], base);
    assert Value(t, base) == Value(h, base) * base + d;
    if |t| > 1 {
      ValueGrows(h, base);
      assert Value(h, base) > 0 ==> Value(h, base) * base > 0;
    }
  }

  lemma CapitalReads(c: char, base: nat)
    requires 1 < base <= 41 && 0 <= DigitValue(c, base) < base && c < 'a'
    ensures DigitChar(DigitValue(c, base)) == c && (DigitValue(c, base) == 0 <==> c == '0')
  {
  }

  /** No other string of capital digits without such a zero denotes the number. */
  lemma {:induction false} DigitsOnly(t: string, x: nat, base: nat)
    requires 1 < base <= 41 && t != "" && AllDigits(t, base) && Value(t, base) == x
    requires (t[0] == '0' ==> |t| == 1) && forall k :: 0 <= k < |t| ==> t[k] < 'a'
    ensures t == Digits(x, base)
    decreases |t|
  {
    hide DigitValue, DigitChar;
    var h, c := t[..|t| - 1], t[|t| - 1];
    var d := DigitValue(c, base);
    assert t == h + [c];
    CapitalReads(c, base);
    CapitalReads(t[0], base);
    if h == "" {
      assert Value(h, base) == 0;
      assert x == d < base;
    } else {
      assert h[0] == t[0] != '0';
      ValueGrows(h, base);
      Times(1, Value(h, base), base);
      UniqueDivision(x, base, Value(h, base), d);
      DigitsOnly(h, x / base, base);
    }
  }

  // ----- How long it is -----

  function Pow(b: nat, n: nat): nat {
    if n == 0 then 1 else b * Pow(b, n - 1)
  }

  lemma {:induction false} PowGrows(b: nat, c: nat, n: nat)
    requires b <= c
    ensures Pow(b, n) <= Pow(c, n)
  {
    if n > 0 {
      PowGrows(b, c, n - 1);
      Times(Pow(b, n - 1), Pow(c, n - 1), b);
      Times(b, c, Pow(c, n - 1));
    }
  }

  /** As many digits as powers of the base the number reaches. */
  lemma {:induction false} DigitsCount(x: nat, base: nat, n: nat)
    requires base > 1
    ensures |Digits(x, base)| <= n + 1 <==> x < Pow(base, n + 1)
    decreases n
  {
    assert Pow(base, n + 1) == base * Pow(base, n);
    if x < base {
      PowPositive(base, n);
      Times(1, Pow(base, n), base);
    } else if n == 0 {
      assert Pow(base, 0) == 1;
    } else {
      DigitsCount(x / base, base, n - 1);
      DivisionBelow(x, base, Pow(base, n));
    }
  }

  lemma {:induction false} PowPositive(b: nat, n: nat)
    requires b > 0
    ensures Pow(b, n) > 0
  {
    if n > 0 {
      PowPositive(b, n - 1);
    }
  }

  lemma QuotientBelow(base: nat, q: nat, d: nat, p: nat)
    requires d < base
    ensures q < p <==> q * base + d < base * p
  {
    if q < p {
      Times(q + 1, p, base);
      assert (q + 1) * base == q * base + base;
    } else {
      Times(p, q, base);
    }
  }

  lemma DivisionBelow(x: nat, base: nat, p: nat)
    requires base > 0
    ensures x / base < p <==> x < base * p
  {
    QuotientBelow(base, x / base, x % base, p);
  }

  lemma {:induction false} PowPlus(b: nat, m: nat, n: nat)
    ensures Pow(b, m + n) == Pow(b, m) * Pow(b, n)
  {
    if m > 0 {
      PowPlus(b, m - 1, n);
      Grouped(b, Pow(b, m - 1), Pow(b, n));
    }
  }

  lemma Grouped(a: int, b: int, c: int)
    ensures a * (b * c) == a * b * c
  {
  }

  lemma Doubled(b: nat, n: nat, v: nat)
    requires Pow(b, n) == v
    ensures Pow(b, n + n) == v * v
  {
    PowPlus(b, n, n);
  }

  lemma PowersOfTwo()
    ensures Pow(2, 63) == HALF && Pow(2, 64) == WORD
  {
    assert Pow(2, 8) == 256;
    Doubled(2, 8, 256);
    Doubled(2, 16, 0x1_0000);
    Doubled(2, 32, 0x1_0000_0000);
    assert Pow(2, 64) == 2 * Pow(2, 63);
  }

  lemma PowersOfThree()
    ensures Pow(3, 40) > HALF
  {
    assert Pow(3, 5) == 243;
    Doubled(3, 5, 243);
    Doubled(3, 10, 59049);
    Doubled(3, 20, 3486784401);
  }

  lemma PowersOfTen()
    ensures Pow(10, 18) < HALF < Pow(10, 19) && Pow(10, 10) > 0x8000_0000
  {
    assert Pow(10, 5) == 100000;
    Doubled(10, 5, 100000);
    Doubled(10, 9, 1000000000) by {
      assert Pow(10, 4) == 10000;
      PowPlus(10, 5, 4);
    }
    assert Pow(10, 19) == 10 * Pow(10, 18);
  }

  lemma Powers()
    ensures Pow(2, 63) == HALF && Pow(2, 64) == WORD && Pow(3, 40) > HALF
    ensures Pow(10, 18) < HALF < Pow(10, 19) && Pow(10, 10) > 0x8000_0000
  {
    PowersOfTwo();
    PowersOfThree();
    PowersOfTen();
  }

  /** With its terminator the number fits the buffer that is given for it: 21 characters
      for decimal, 68 for any base that an int can hold. */
  lemma Fits(v: int, base: int)
    requires -HALF <= v < HALF && base < 0x8000_0000
    ensures |Printed(v, base)| + 1 <= if BaseUsed(base) == 10 then DECIMAL_ROOM else ANY_BASE_ROOM
  {
    var b, x := BaseUsed(base), Magnitude(v);
    Powers();
    if b == 10 {
      DigitsCount(x, 10, 18);
    } else {
      DigitsCount(b, 10, 9);
      if b == 2 {
        DigitsCount(x, 2, 63);
        assert |Digits(2, 10)| == 1;
      } else {
        DigitsCount(x, b, 39);
        PowGrows(3, b, 40);
      }
    }
  }

  /** Neither buffer could be shorter: the minimum fills both, and it alone, in base 2
      alone, fills the larger one. */
  lemma Attained(v: int, base: int)
    requires -HALF <= v < HALF && base < 0x8000_0000
    ensures |Printed(-HALF, 10)| + 1 == DECIMAL_ROOM
    ensures |Printed(v, base)| + 1 == ANY_BASE_ROOM <==> v == -HALF && base == 2
  {
    var b, x := BaseUsed(base), Magnitude(v);
    Powers();
    DigitsCount(HALF, 10, 17);
    DigitsCount(HALF, 10, 18);
    DigitsCount(b, 10, 9);
    if b == 2 {
      DigitsCount(x, 2, 62);
      DigitsCount(x, 2, 63);
      assert |Digits(2, 10)| == 1;
    } else {
      DigitsCount(x, b, 39);
      PowGrows(3, b, 40);
    }
  }

  // ----- convbase -----

  /** The conversion of sprintf. */
  method PutPrefix(s: array<char>, p: nat, base: nat) returns (q: nat)
    requires base > 1 && p + |Digits(base, 10)| + 1 <= s.Length
    modifies s
    ensures q == p + |Digits(base, 10)| + 1 && s[..q] == old(s[..p]) + Digits(base, 10) + "#"
    ensures forall i :: q <= i < s.Length ==> s[i] == old(s[i])
  {
    var t := Digits(base, 10) + "#";
    q := p;
    while q < p + |t|
      invariant p <= q <= p + |t| && s[..q] == old(s[..p]) + t[..q - p]
      invariant forall i :: q <= i < s.Length ==> s[i] == old(s[i])
    {
      s[q] := t[q - p];
      assert s[..q + 1] == s[..q] + [t[q - p]];
      q := q + 1;
    }
    assert t[..|t|] == t;
    assert old(s[..p]) + (Digits(base, 10) + "#") == old(s[..p]) + Digits(base, 10) + "#";
  }

  method CountDigits(v: nat, base: nat) returns (digs: nat)
    requires base > 1
    ensures digs == |Digits(v, base)|
  {
    var x: nat := v;
    digs := 0;
    while x != 0
      invariant if x == 0 then |Digits(v, base)| == (if digs == 0 then 1 else digs)
        else |Digits(v, base)| == digs + |Digits(x, base)|
    {
      if x >= base {
        Larger(x, base);
      } else {
        SmallQuotient(x, base);
      }
      x := x / base;
      digs := digs + 1;
    }
    if digs == 0 {
      digs := 1;
    }
  }

  lemma SmallQuotient(x: nat, base: nat)
    requires x < base
    ensures x / base == 0
  {
  }

  /** The digits are put down from the last to the first, into room just counted. */
  method PutDigits(s: array<char>, p: nat, v: nat, base: nat, n: nat)
    requires base > 1 && n == |Digits(v, base)| && p + n < s.Length
    modifies s
    ensures s[..p + n] == old(s[..p]) + Digits(v, base)
    ensures forall i :: p + n <= i < s.Length ==> s[i] == old(s[i])
  {
    ghost var d := Digits(v, base);
    var digs: int, x: nat := n - 1, v;
    while digs >= 0
      invariant -1 <= digs < n && (digs >= 0 ==> Digits(x, base) == d[..digs + 1])
      invariant forall i :: digs < i < n ==> s[p + i] == d[i]
      invariant forall i :: 0 <= i < s.Length && !(p + digs < i < p + n) ==> s[i] == old(s[i])
    {
      var dig := x % base;
      if x < base {
        SmallModulus(x, base);
      } else {
        assert Digits(x, base)[..digs] == Digits(x / base, base);
      }
      assert Digits(x, base)[digs] == DigitChar(dig);
      s[p + digs] := DigitChar(dig);
      digs := digs - 1;
      x := x / base;
    }
  }

  lemma SmallModulus(x: nat, base: nat)
    requires x < base
    ensures x % base == x
  {
  }

  lemma NegatedWord(v: int)
    requires -HALF <= v < HALF
    ensures Unsigned(if v < 0 then Signed(-v) else v) == Magnitude(v)
  {
    if v == -HALF {
      assert Signed(HALF) == -HALF;
    }
  }

  /** convbase: sign, base and digits of the number, and a terminator; not a character
      beyond it is touched. The minimum is its own negative, but not as a zulong. */
  method ConvBase(s: array<char>, v: int, base: int)
    requires -HALF <= v < HALF && base < 0x8000_0000
    requires s.Length >= if BaseUsed(base) == 10 then DECIMAL_ROOM else ANY_BASE_ROOM
    modifies s
    ensures var t := Printed(v, base); |t| < s.Length && s[..|t|] == t && s[|t|] == '\0'
    ensures forall i :: |Printed(v, base)| < i < s.Length ==> s[i] == old(s[i])
  {
    Fits(v, base);
    NegatedWord(v);
    hide Digits, DigitChar, Signed, Unsigned, Magnitude;
    var p: nat, w, b := 0, v, base;
    if w < 0 {
      s[p] := '-';
      p := p + 1;
      w := Signed(-w);
    }
    if b <= 1 {
      b := 10;
    }
    assert s[..p] == if v < 0 then "-" else "";
    if b != 10 {
      p := PutPrefix(s, p, b);
    }
    assert s[..p] == Lead(v, base);
    var x := Unsigned(w);
    var n := CountDigits(x, b);
    s[p + n] := '\0';
    assert s[..p] == Lead(v, base);
    PutDigits(s, p, x, b, n);
  }

  // ----- Reading the number again -----

  /** The loop of zstrtol: as long as there are digits, in a zlong that wraps. */
  function ReadFrom(s: string, p: nat, base: nat, ret: int): (r: (int, nat))
    requires p <= |s|
    ensures p <= r.1 <= |s|
    decreases |s| - p
  {
    if p < |s| && DigitValue(s[p], base) >= 0 then ReadFrom(s, p + 1, base, Signed(ret * base + DigitValue(s[p], base)))
    else (ret, p)
  }

  method ReadDigits(s: string, p: nat, base: nat) returns (ret: int, q: nat)
    requires p <= |s|
    ensures (ret, q) == ReadFrom(s, p, base, 0)
  {
    ret, q := 0, p;
    while q < |s| && DigitValue(s[q], base) >= 0
      invariant p <= q <= |s| && ReadFrom(s, p, base, 0) == ReadFrom(s, q, base, ret)
    {
      ret := Signed(ret * base + DigitValue(s[q], base));
      q := q + 1;
    }
  }

  /** The number, where it ends, and the base it was written in. */
  datatype Number = Number(value: int, end: nat, lastbase: int)

  /** A number as the arithmetic lexer reads it: digits in base 10 and, if # follows, more
      of them in the base so given. A sign before it negates the value. */
  function Lexed(s: string): Number {
    if s != "" && s[0] == '-' then var r := LexedAt(s, 1); r.(value := Signed(-r.value)) else LexedAt(s, 0)
  }

  function LexedAt(s: string, p: nat): Number
    requires p <= |s|
  {
    var r := ReadFrom(s, p, 10, 0);
    if r.1 < |s| && s[r.1] == '#' then
      var t := ReadFrom(s, r.1 + 1, if r.0 < 0 then 0 else r.0, 0);
      Number(t.0, t.1, r.0)
    else Number(r.0, r.1, -1)
  }

  lemma SignedStep(a: int, base: nat, d: int)
    ensures Signed(Signed(a) * base + d) == Signed(a * base + d)
  {
    var k := (a + HALF) / WORD;
    assert Signed(a) == a - k * WORD;
    var m := k * base;
    assert Signed(a) * base == a * base - m * WORD by {
      assert (a - k * WORD) * base == a * base - k * WORD * base;
      assert k * WORD * base == m * WORD;
    }
    Shifted(a * base + d, m);
  }

  lemma Shifted(y: int, m: int)
    ensures Signed(y - m * WORD) == Signed(y)
  {
    var q, r := (y + HALF) / WORD, (y + HALF) % WORD;
    assert y - m * WORD + HALF == (q - m) * WORD + r;
  }

  /** A run of digits is read to its end, as the value it denotes. */
  lemma {:induction false} ReadsValue(s: string, p: nat, base: nat, done: string, t: string)
    requires p + |t| <= |s| && s[p..p + |t|] == t && AllDigits(t, base)
    requires p + |t| < |s| ==> DigitValue(s[p + |t|], base) < 0
    ensures ReadFrom(s, p, base, Signed(Value(done, base))) == (Signed(Value(done + t, base)), p + |t|)
    decreases |t|
  {
    hide DigitValue, Signed, Value;
    if t == "" {
      assert done + t == done;
    } else {
      assert s[p] == t[0];
      ValuePlus(done, t[0], base);
      SignedStep(Value(done, base), base, DigitValue(t[0], base));
      ReadsValue(s, p + 1, base, done + [t[0]], t[1..]);
      assert done + [t[0]] + t[1..] == done + t;
    }
  }

  lemma NotDigit(base: nat)
    ensures DigitValue('#', base) < 0 && Signed(Value("", base)) == 0
  {
  }

  lemma ReadsDigits(s: string, p: nat, base: nat, x: nat, d: string)
    requires 1 < base <= 41 && d == Digits(x, base) && p + |d| <= |s| && s[p..p + |d|] == d
    requires p + |d| < |s| ==> s[p + |d|] == '#'
    ensures ReadFrom(s, p, base, 0) == (Signed(x), p + |d|)
  {
    DigitsDenote(x, base);
    NotDigit(base);
    hide DigitValue, Digits, Signed, ReadFrom, AllDigits, Value;
    assert "" + d == d;
    ReadsValue(s, p, base, "", d);
  }

  /** Without a sign, after whatever comes first. */
  lemma ReadsPrinted(lead: string, x: nat, b: nat)
    requires 1 < b <= 41
    ensures var t := lead + (if b == 10 then "" else Digits(b, 10) + "#") + Digits(x, b);
      LexedAt(t, |lead|) == Number(Signed(x), |t|, if b == 10 then -1 else b)
  {
    hide Digits, Signed, ReadFrom;
    var l, d, p := Digits(b, 10), Digits(x, b), |lead|;
    if b == 10 {
      var t := lead + "" + d;
      assert t[p..p + |d|] == d;
      ReadsDigits(t, p, 10, x, d);
    } else {
      var t, q := lead + (l + "#") + d, p + |l| + 1;
      assert t[p..p + |l|] == l && t[p + |l|] == '#';
      ReadsDigits(t, p, 10, b, l);
      SignedFits(b);
      assert t[q..q + |d|] == d && |t| == q + |d|;
      ReadsDigits(t, q, b, x, d);
    }
  }

  lemma SignedFits(x: int)
    requires -HALF <= x < HALF
    ensures Signed(x) == x
  {
  }

  /** What convbase prints is read back as the same number in the same base, up to its last
      character; for the minimum too, whose digits overflow a zlong. */
  lemma ReadBack(v: int, base: int)
    requires -HALF <= v < HALF && base <= 41
    ensures Lexed(Printed(v, base)) == Number(v, |Printed(v, base)|, if base <= 1 || base == 10 then -1 else base)
  {
    hide Digits, ReadFrom, LexedAt, DigitValue;
    var b, x := BaseUsed(base), Magnitude(v);
    DigitsDenote(b, 10);
    DigitsDenote(x, b);
    ReadsPrinted(if v < 0 then "-" else "", x, b);
    NoSign(b, 10);
    NoSign(x, b);
    if v == -HALF {
      assert Signed(HALF) == -HALF;
    }
  }

  /** Base 41 is the last in which every number is read back: the digit 41 is printed as a
      character whose low five bits are clear. */
  lemma ReadBackUpTo41(base: int)
    requires base < 0x8000_0000
    ensures (forall v :: -HALF <= v < HALF ==> Lexed(Printed(v, base)).value == v) <==> base <= 41
  {
    forall v | base <= 41 && -HALF <= v < HALF ensures Lexed(Printed(v, base)).value == v {
      ReadBack(v, base);
    }
    if base > 41 {
      DigitLost(base);
      assert -HALF <= 41 < HALF;
    }
  }

  lemma DigitLost(base: nat)
    requires 41 < base < 0x8000_0000
    ensures Lexed(Printed(41, base)).value == 9
  {
    var l := Digits(base, 10);
    var t := Printed(41, base);
    assert t == l + "#" + "`";
    assert t[0..|l|] == l && t[|l|] == '#' && t[0] == l[0] && t[|l| + 1] == '`' && |t| == |l| + 2;
    NoSign(base, 10);
    ReadsDigits(t, 0, 10, base, l);
    SignedFits(base);
    GraveReads(t, |l| + 1, base);
  }

  lemma GraveReads(t: string, p: nat, base: nat)
    requires p + 1 == |t| && t[p] == '`' && base > 41
    ensures ReadFrom(t, p, base, 0) == (9, p + 1)
  {
    SignedFits(9);
    assert ReadFrom(t, p + 1, base, 9) == (9, p + 1);
  }

  /** The digits do not begin with a sign. */
  lemma NoSign(x: nat, base: nat)
    requires 1 < base <= 41
    ensures Digits(x, base)[0] != '-'
  {
    DigitsDenote(x, base);
  }
}
