/**
 * The handful of Python `str` operations the core relies on, written out so
 * that their exact behaviour is part of the model: `strip`, single-character
 * and substring `replace`, `str()` of integers, decimal parsing as done by a
 * numeric conversion, and the code-point order `sorted` uses.
 */
module PyStrings {
  import opened Wrappers

  // ---------------------------------------------------------------------
  // Whitespace and stripping

  /** Python's `str.isspace` for a single character (the Unicode White_Space set). */
  predicate IsSpace(c: char) {
    || c == ' '
    || ('\t' <= c <= '\r')
    || ('\U{1c}' <= c <= '\U{1f}')
    || c == '\U{85}' || c == '\U{a0}' || c == '\U{1680}'
    || ('\U{2000}' <= c <= '\U{200a}')
    || c == '\U{2028}' || c == '\U{2029}' || c == '\U{202f}' || c == '\U{205f}'
    || c == '\U{3000}'
  }

  predicate IsNewline(c: char) {
    c == '\n'
  }

  /** Which characters a strip removes: whitespace (`strip()`) or newlines (`strip("\n")`). */
  datatype StripSet = Spaces | Newlines

  predicate Drops(drop: StripSet, c: char) {
    if drop.Spaces? then IsSpace(c) else IsNewline(c)
  }

  /** Drops the longest prefix of characters in `drop`. */
  function TrimLeft(s: string, drop: StripSet): (r: string)
    ensures |r| <= |s| && r == s[|s| - |r|..]
    ensures r == [] || !Drops(drop, r[0])
    ensures forall i :: 0 <= i < |s| - |r| ==> Drops(drop, s[i])
    decreases |s|
  {
    if s != [] && Drops(drop, s[0]) then TrimLeft(s[1..], drop) else s
  }

  /** Drops the longest suffix of characters in `drop`. */
  function TrimRight(s: string, drop: StripSet): (r: string)
    ensures |r| <= |s| && r == s[..|r|]
    ensures r == [] || !Drops(drop, r[|r| - 1])
    ensures forall i :: |r| <= i < |s| ==> Drops(drop, s[i])
    decreases |s|
  {
    if s != [] && Drops(drop, s[|s| - 1]) then TrimRight(s[..|s| - 1], drop) else s
  }

  /** Python's `s.strip()`. */
  function Strip(s: string): string {
    TrimRight(TrimLeft(s, Spaces), Spaces)
  }

  /** Python's `s.strip("\n")`. */
  function StripNewlines(s: string): string {
    TrimRight(TrimLeft(s, Newlines), Newlines)
  }

  /** A string is all whitespace exactly when `strip()` leaves nothing. */
  lemma StripEmptyIff(s: string)
    ensures Strip(s) == [] <==> forall i :: 0 <= i < |s| ==> IsSpace(s[i])
  {
  }

  /** Stripping a string that starts with a non-space character only trims its end. */
  lemma {:induction false} StripAfterNonSpaceHead(a: string, b: string)
    requires a != [] && !IsSpace(a[0]) && !IsSpace(a[|a| - 1])
    ensures Strip(a + b) == a + TrimRight(b, Spaces)
    decreases |b|
  {
    assert TrimLeft(a + b, Spaces) == a + b;
    if b != [] && IsSpace(b[|b| - 1]) {
      assert (a + b)[..|a + b| - 1] == a + b[..|b| - 1];
      StripAfterNonSpaceHead(a, b[..|b| - 1]);
    }
  }

  // ---------------------------------------------------------------------
  // Replacement

  /** Python's `s.replace(c, r)` for a one-character pattern: every occurrence of `c` becomes `r`. */
  function ReplaceChar(s: string, c: char, r: string): string {
    if s == [] then []
    else (if s[0] == c then r else [s[0]]) + ReplaceChar(s[1..], c, r)
  }

  /** Replacing by text without the character removes it, and text without it is unchanged. */
  lemma {:induction false} ReplaceCharRemoves(s: string, c: char, r: string)
    ensures c !in r ==> c !in ReplaceChar(s, c, r)
    ensures c !in s ==> ReplaceChar(s, c, r) == s
  {
    if s != [] {
      ReplaceCharRemoves(s[1..], c, r);
      assert s == [s[0]] + s[1..];
    }
  }

  /** Replacement brings in no character that is neither in the text nor in the replacement. */
  lemma {:induction false} ReplaceCharMembers(s: string, c: char, r: string)
    ensures forall x :: x in ReplaceChar(s, c, r) ==> x in s || x in r
  {
    if s != [] {
      ReplaceCharMembers(s[1..], c, r);
    }
  }

  /** An occurrence on its own becomes the replacement; with ReplaceCharConcat, so does every occurrence. */
  lemma ReplaceCharSingle(c: char, r: string)
    ensures ReplaceChar([c], c, r) == r
  {
    assert ReplaceChar([c], c, r) == r + ReplaceChar([], c, r);
  }

  lemma {:induction false} ReplaceCharConcat(a: string, b: string, c: char, r: string)
    ensures ReplaceChar(a + b, c, r) == ReplaceChar(a, c, r) + ReplaceChar(b, c, r)
  {
    if a == [] {
      assert a + b == b;
    } else {
      var head := if a[0] == c then r else [a[0]];
      assert ReplaceChar(a + b, c, r) == head + ReplaceChar(a[1..] + b, c, r) by {
        assert (a + b)[0] == a[0] && (a + b)[1..] == a[1..] + b;
      }
      assert ReplaceChar(a, c, r) == head + ReplaceChar(a[1..], c, r);
      ReplaceCharConcat(a[1..], b, c, r);
      assert head + (ReplaceChar(a[1..], c, r) + ReplaceChar(b, c, r))
          == (head + ReplaceChar(a[1..], c, r)) + ReplaceChar(b, c, r);
    }
  }

  /** Python's `s.replace(pat, rep)`: leftmost, non-overlapping occurrences, scanning left to right. */
  function Replace(s: string, pat: string, rep: string): string
    requires |pat| > 0
    decreases |s|
  {
    if |s| < |pat| then s
    else if s[..|pat|] == pat then rep + Replace(s[|pat|..], pat, rep)
    else [s[0]] + Replace(s[1..], pat, rep)
  }

  /** `"".join(parts)` with a separator: Python's `sep.join(parts)`. */
  function Join(sep: string, parts: seq<string>): string {
    if parts == [] then ""
    else if |parts| == 1 then parts[0]
    else parts[0] + sep + Join(sep, parts[1..])
  }

  // ---------------------------------------------------------------------
  // Decimal text of integers (Python's `str(int)`)

  predicate IsDigit(c: char) {
    '0' <= c <= '9'
  }

  predicate AllDigits(s: string) {
    forall i :: 0 <= i < |s| ==> IsDigit(s[i])
  }

  function DigitChar(d: nat): (c: char)
    requires d < 10
    ensures IsDigit(c) && (c as int) - ('0' as int) == d
  {
    (('0' as int) + d) as char
  }

  function DigitValue(c: char): (d: nat)
    requires IsDigit(c)
    ensures d < 10
  {
    (c as int) - ('0' as int)
  }

  /** The decimal digits of a natural number, most significant first, without leading zeros. */
  function NatText(n: nat): (s: string)
    ensures s != [] && AllDigits(s)
  {
    if n < 10 then [DigitChar(n)] else NatText(n / 10) + [DigitChar(n % 10)]
  }

  /** Python's `str(i)` for an int. */
  function IntText(i: int): string {
    if i < 0 then "-" + NatText(-i) else NatText(i)
  }

  /** The number a string of decimal digits denotes. */
  function DigitsValue(s: string): nat
    requires AllDigits(s)
  {
    if s == [] then 0 else DigitsValue(s[..|s| - 1]) * 10 + DigitValue(s[|s| - 1])
  }

  lemma {:induction false} NatTextValue(n: nat)
    ensures DigitsValue(NatText(n)) == n
  {
    if n >= 10 {
      var s := NatText(n);
      assert s[..|s| - 1] == NatText(n / 10);
      NatTextValue(n / 10);
    }
  }

  lemma IntTextSign(i: int)
    ensures IntText(i)[0] == '-' <==> i < 0
  {
    if i >= 0 {
      assert IsDigit(NatText(i)[0]);
    }
  }

  /** `str` never maps two different integers to the same text. */
  lemma IntTextInjective(a: int, b: int)
    requires IntText(a) == IntText(b)
    ensures a == b
  {
    IntTextSign(a);
    IntTextSign(b);
    if a < 0 && b < 0 {
      assert NatText(-a) == IntText(a)[1..] == IntText(b)[1..] == NatText(-b);
      NatTextValue(-a);
      NatTextValue(-b);
    } else if a >= 0 && b >= 0 {
      NatTextValue(a);
      NatTextValue(b);
    }
  }

  // ---------------------------------------------------------------------
  // Numeric conversion of text (the strings a numeric conversion accepts)

  /** The value of the digits after a decimal point: "5" is 0.5, "05" is 0.05. */
  function FractionValue(s: string): (x: real)
    requires AllDigits(s)
    ensures 0.0 <= x <= 1.0
  {
    if s == [] then 0.0 else ((DigitValue(s[0]) as real) + FractionValue(s[1..])) / 10.0
  }

  /** Number of leading decimal digits. */
  function DigitRun(s: string): (k: nat)
    ensures k <= |s| && AllDigits(s[..k])
    ensures k < |s| ==> !IsDigit(s[k])
  {
    if s != [] && IsDigit(s[0]) then
      var k := 1 + DigitRun(s[1..]);
      assert forall i :: 1 <= i < k ==> s[..k][i] == s[1..][..k - 1][i - 1];
      k
    else 0
  }

  /** An unsigned decimal: `digits`, `digits.`, `digits.digits` or `.digits`. */
  function ParseUnsigned(s: string): Option<real> {
    var k := DigitRun(s);
    var whole := DigitsValue(s[..k]) as real;
    if k == |s| then
      if k > 0 then Some(whole) else None
    else if s[k] == '.' && AllDigits(s[k + 1..]) && (k > 0 || k + 1 < |s|) then
      Some(whole + FractionValue(s[k + 1..]))
    else None
  }

  /** The digit run of a text stops at the first character that is not a digit. */
  lemma {:induction false} DigitRunOfPrefix(a: string, b: string)
    requires AllDigits(a) && b != [] && !IsDigit(b[0])
    ensures DigitRun(a + b) == |a|
  {
    if a == [] {
      assert a + b == b;
    } else {
      assert (a + b)[0] == a[0] && (a + b)[1..] == a[1..] + b;
      DigitRunOfPrefix(a[1..], b);
    }
  }

  /** Decimal text with an optional sign, as a numeric conversion reads it; None when it is not a number. */
  function ParseNumber(s: string): Option<real> {
    if s != [] && s[0] == '-' then
      match ParseUnsigned(s[1..])
      case Some(x) => Some(-x)
      case None => None
    else if s != [] && s[0] == '+' then ParseUnsigned(s[1..])
    else ParseUnsigned(s)
  }

  lemma NatTextParses(n: nat)
    ensures ParseUnsigned(NatText(n)) == Some(n as real)
  {
    var s := NatText(n);
    assert DigitRun(s) == |s|;
    assert s[..|s|] == s;
    NatTextValue(n);
  }

  /** Reading back the text `str` gives an integer yields that integer. */
  lemma IntTextParses(i: int)
    ensures ParseNumber(IntText(i)) == Some(i as real)
  {
    var s := IntText(i);
    if i < 0 {
      assert s[0] == '-' && s[1..] == NatText(-i);
      NatTextParses(-i);
      assert ParseNumber(s) == Some(-((-i) as real));
    } else {
      NatTextParses(i);
    }
  }

  // ---------------------------------------------------------------------
  // The order Python's `sorted` puts strings in (code point by code point)

  predicate StrLe(a: string, b: string)
    decreases |a|
  {
    a == [] || (b != [] && (a[0] < b[0] || (a[0] == b[0] && StrLe(a[1..], b[1..]))))
  }

  lemma {:induction false} StrLeTotal(a: string, b: string)
    ensures StrLe(a, b) || StrLe(b, a)
    decreases |a|
  {
    if a != [] && b != [] && a[0] == b[0] {
      StrLeTotal(a[1..], b[1..]);
    }
  }

  lemma {:induction false} StrLeTransitive(a: string, b: string, c: string)
    requires StrLe(a, b) && StrLe(b, c)
    ensures StrLe(a, c)
    decreases |a|
  {
    if a != [] && a[0] == b[0] && b[0] == c[0] {
      StrLeTransitive(a[1..], b[1..], c[1..]);
    }
  }

  lemma {:induction false} StrLeAntisymmetric(a: string, b: string)
    requires StrLe(a, b) && StrLe(b, a)
    ensures a == b
    decreases |a|
  {
    if a != [] {
      StrLeAntisymmetric(a[1..], b[1..]);
      assert a == [a[0]] + a[1..];
      assert b == [b[0]] + b[1..];
    }
  }

  predicate Sorted(s: seq<string>) {
    forall i, j :: 0 <= i < j < |s| ==> StrLe(s[i], s[j])
  }

  function Insert(x: string, s: seq<string>): (r: seq<string>)
    requires Sorted(s)
    ensures Sorted(r)
    ensures multiset(r) == multiset(s) + multiset{x}
  {
    if s == [] then [x]
    else if StrLe(x, s[0]) then
      assert forall j :: 0 <= j < |s| ==> StrLe(x, s[j]) by {
        forall j | 0 <= j < |s| ensures StrLe(x, s[j]) {
          if j > 0 { StrLeTransitive(x, s[0], s[j]); }
        }
      }
      [x] + s
    else
      var rest := Insert(x, s[1..]);
      StrLeTotal(x, s[0]);
      assert s == [s[0]] + s[1..];
      assert forall y :: y in rest ==> StrLe(s[0], y) by {
        forall y | y in rest ensures StrLe(s[0], y) {
          assert y in multiset(rest);
          assert y == x || y in multiset(s[1..]);
        }
      }
      SortedCons(s[0], rest);
      assert multiset([s[0]] + rest) == multiset{s[0]} + multiset(rest);
      [s[0]] + rest
  }

  /** A head no greater than every element keeps a sorted list sorted. */
  lemma SortedCons(h: string, rest: seq<string>)
    requires Sorted(rest) && forall y :: y in rest ==> StrLe(h, y)
    ensures Sorted([h] + rest)
  {
    forall i, j | 0 <= i < j < |[h] + rest| ensures StrLe(([h] + rest)[i], ([h] + rest)[j]) {
      if i == 0 {
        assert ([h] + rest)[j] == rest[j - 1];
      }
    }
  }

  /** Python's `sorted` on a list of strings. */
  function SortStrings(s: seq<string>): (r: seq<string>)
    ensures Sorted(r)
    ensures multiset(r) == multiset(s)
  {
    if s == [] then []
    else
      assert s == [s[0]] + s[1..];
      Insert(s[0], SortStrings(s[1..]))
  }

  predicate NoDuplicates(s: seq<string>) {
    forall i, j :: 0 <= i < j < |s| ==> s[i] != s[j]
  }

  /** Sorting a list without duplicates yields a strictly increasing list of the same strings. */
  lemma SortedDistinct(s: seq<string>)
    requires NoDuplicates(s)
    ensures NoDuplicates(SortStrings(s))
    ensures |SortStrings(s)| == |s|
    ensures forall x :: x in SortStrings(s) <==> x in s
  {
    var r := SortStrings(s);
    assert |r| == |multiset(r)| == |multiset(s)| == |s|;
    forall x ensures x in r <==> x in s {
      assert x in r <==> x in multiset(r);
      assert x in s <==> x in multiset(s);
    }
    forall i, j | 0 <= i < j < |r| ensures r[i] != r[j] {
      if r[i] == r[j] {
        MultiplicityAtLeastTwo(r, i, j);
        assert multiset(s)[r[i]] >= 2;
        DistinctMultiplicity(s, r[i]);
      }
    }
  }

  lemma {:induction false} MultiplicityAtLeastTwo(r: seq<string>, i: nat, j: nat)
    requires i < j < |r| && r[i] == r[j]
    ensures multiset(r)[r[i]] >= 2
  {
    assert r == r[..j] + [r[j]] + r[j + 1..];
    assert r[i] in r[..j];
    assert multiset(r) == multiset(r[..j]) + multiset{r[j]} + multiset(r[j + 1..]);
  }

  lemma {:induction false} DistinctMultiplicity(s: seq<string>, x: string)
    requires NoDuplicates(s)
    ensures multiset(s)[x] <= 1
  {
    if s != [] {
      assert s == [s[0]] + s[1..];
      assert NoDuplicates(s[1..]);
      DistinctMultiplicity(s[1..], x);
      if s[0] == x {
        assert x !in s[1..];
      }
    }
  }
}
