/** The parts of Python's `str` that the résumé pipeline relies on:
    character classes, ASCII case mapping, substring search and counting,
    whitespace splitting and stripping, line splitting, joining, and
    decimal rendering of integers. */
module Text {

  // ---------------------------------------------------------------------
  // Character classes
  // ---------------------------------------------------------------------

  /** Python's `str.isspace`: the separators of `str.split()` and
      `str.strip()`, and the characters of the regular-expression class `\s`. */
  predicate IsSpace(c: char) {
    || c == ' '
    || '\t' <= c <= '\r'
    || '\U{1c}' <= c <= '\U{1f}'
    || c == '\U{85}' || c == '\U{a0}' || c == '\U{1680}'
    || '\U{2000}' <= c <= '\U{200a}'
    || c == '\U{2028}' || c == '\U{2029}'
    || c == '\U{202f}' || c == '\U{205f}' || c == '\U{3000}'
  }

  predicate IsUpperChar(c: char) { 'A' <= c <= 'Z' }

  predicate IsLowerChar(c: char) { 'a' <= c <= 'z' }

  predicate IsLetter(c: char) { IsUpperChar(c) || IsLowerChar(c) }

  predicate IsDigit(c: char) { '0' <= c <= '9' }

  lemma LetterNotSpace(c: char)
    requires IsLetter(c)
    ensures !IsSpace(c)
  {
  }

  /** The regular-expression class `\w` (its ASCII part). */
  predicate IsWordChar(c: char) { IsLetter(c) || IsDigit(c) || c == '_' }

  function LowerChar(c: char): (r: char)
    ensures IsUpperChar(c) ==> IsLowerChar(r) && r as int == c as int + 32
    ensures !IsUpperChar(c) ==> r == c
  {
    if IsUpperChar(c) then (c as int + 32) as char else c
  }

  function UpperChar(c: char): (r: char)
    ensures IsLowerChar(c) ==> IsUpperChar(r) && r as int == c as int - 32
    ensures !IsLowerChar(c) ==> r == c
  {
    if IsLowerChar(c) then (c as int - 32) as char else c
  }

  // ---------------------------------------------------------------------
  // Case mapping
  // ---------------------------------------------------------------------

  /** `s.lower()`, ASCII letters only. */
  function Lower(s: string): (r: string)
    ensures |r| == |s|
    ensures forall i :: 0 <= i < |s| ==> r[i] == LowerChar(s[i])
  {
    if |s| == 0 then [] else [LowerChar(s[0])] + Lower(s[1..])
  }

  /** `s.upper()`, ASCII letters only. */
  function Upper(s: string): (r: string)
    ensures |r| == |s|
    ensures forall i :: 0 <= i < |s| ==> r[i] == UpperChar(s[i])
  {
    if |s| == 0 then [] else [UpperChar(s[0])] + Upper(s[1..])
  }

  /** `s.capitalize()`: first character upper case, the rest lower case. */
  function Capitalize(s: string): (r: string)
    ensures |r| == |s|
    ensures |s| > 0 ==> r[0] == UpperChar(s[0]) && r[1..] == Lower(s[1..])
  {
    if |s| == 0 then [] else [UpperChar(s[0])] + Lower(s[1..])
  }

  /** Capitalising changes only letter case. */
  lemma LowerOfCapitalize(s: string)
    ensures Lower(Capitalize(s)) == Lower(s)
  {
    if |s| > 0 {
      assert forall k :: 1 <= k < |s| ==> Capitalize(s)[k] == Lower(s[1..])[k - 1];
    }
  }

  lemma LowerOfLower(s: string)
    ensures Lower(Lower(s)) == Lower(s)
  {
  }

  lemma LowerAppend(a: string, b: string)
    ensures Lower(a + b) == Lower(a) + Lower(b)
  {
  }

  lemma LowerSlice(s: string, i: nat, j: nat)
    requires i <= j <= |s|
    ensures Lower(s)[i..j] == Lower(s[i..j])
  {
  }

  // ---------------------------------------------------------------------
  // Substrings
  // ---------------------------------------------------------------------

  /** `s.startswith(p)`. */
  predicate IsPrefix(p: string, s: string) {
    |p| <= |s| && s[..|p|] == p
  }

  /** Python's `p in s`. */
  predicate Contains(s: string, p: string)
    decreases |s|
  {
    IsPrefix(p, s) || (|s| > 0 && Contains(s[1..], p))
  }

  /** `p` occurs in `s` starting at index `i`. */
  predicate OccursAt(s: string, p: string, i: int) {
    0 <= i <= |s| - |p| && s[i..i + |p|] == p
  }

  /** The left-to-right search agrees with the positional definition of a
      substring occurrence. */
  lemma {:induction false} ContainsIffOccurs(s: string, p: string)
    ensures Contains(s, p) <==> exists i :: OccursAt(s, p, i)
    decreases |s|
  {
    if |s| == 0 {
      if Contains(s, p) {
        assert OccursAt(s, p, 0);
      }
    } else {
      ContainsIffOccurs(s[1..], p);
      if Contains(s, p) {
        if IsPrefix(p, s) {
          assert OccursAt(s, p, 0);
        } else {
          var j :| OccursAt(s[1..], p, j);
          assert s[1..][j..j + |p|] == s[j + 1..j + 1 + |p|];
          assert OccursAt(s, p, j + 1);
        }
      }
      if exists i :: OccursAt(s, p, i) {
        var i :| OccursAt(s, p, i);
        if i > 0 {
          assert s[1..][i - 1..i - 1 + |p|] == s[i..i + |p|];
          assert OccursAt(s[1..], p, i - 1);
        }
      }
    }
  }

  lemma ContainsWitness(s: string, p: string, i: int)
    requires OccursAt(s, p, i)
    ensures Contains(s, p)
  {
    ContainsIffOccurs(s, p);
  }

  /** Containment is preserved by extending the text on either side. */
  lemma ContainsInConcat(a: string, b: string, p: string)
    ensures Contains(a, p) ==> Contains(a + b, p)
    ensures Contains(b, p) ==> Contains(a + b, p)
  {
    ContainsIffOccurs(a, p);
    ContainsIffOccurs(b, p);
    if Contains(a, p) {
      var i :| OccursAt(a, p, i);
      assert (a + b)[i..i + |p|] == a[i..i + |p|];
      ContainsWitness(a + b, p, i);
    }
    if Contains(b, p) {
      var i :| OccursAt(b, p, i);
      assert (a + b)[|a| + i..|a| + i + |p|] == b[i..i + |p|];
      ContainsWitness(a + b, p, |a| + i);
    }
  }

  /** A text contains whatever a part of it contains. */
  lemma ContainsTrans(a: string, b: string, c: string)
    requires Contains(a, b) && Contains(b, c)
    ensures Contains(a, c)
  {
    ContainsIffOccurs(a, b);
    ContainsIffOccurs(b, c);
    var i :| OccursAt(a, b, i);
    var j :| OccursAt(b, c, j);
    forall k | 0 <= k < |c|
      ensures a[i + j + k] == c[k]
    {
      assert a[i..i + |b|][j + k] == b[j + k];
      assert b[j..j + |c|][k] == c[k];
    }
    assert a[i + j..i + j + |c|] == c;
    ContainsWitness(a, c, i + j);
  }

  lemma ContainsOfSuffix(s: string, k: nat, p: string)
    requires k <= |s|
    ensures Contains(s[k..], p) ==> Contains(s, p)
  {
    assert s == s[..k] + s[k..];
    ContainsInConcat(s[..k], s[k..], p);
  }

  /** Every character of a contained pattern occurs in the text. */
  lemma ContainedCharsOccur(s: string, p: string, j: int)
    requires Contains(s, p) && 0 <= j < |p|
    ensures p[j] in s
  {
    ContainsIffOccurs(s, p);
    var i :| OccursAt(s, p, i);
    assert s[i + j] == p[j];
  }

  /** No character of `s` lower-cases to `c`. */
  predicate Lacks(s: string, c: char) {
    forall k :: 0 <= k < |s| ==> LowerChar(s[k]) != c
  }

  /** A lower-case text is its own lower-casing. */
  lemma LowerOfLowercase(s: string)
    requires forall i :: 0 <= i < |s| ==> !IsUpperChar(s[i])
    ensures Lower(s) == s
  {
  }

  /** A pattern holding a letter the text lacks does not occur in it. */
  lemma LacksNotContains(s: string, c: char, p: string, j: nat)
    requires Lacks(s, c) && j < |p| && p[j] == c
    ensures !Contains(Lower(s), p)
  {
    if Contains(Lower(s), p) {
      ContainedCharsOccur(Lower(s), p, j);
    }
  }

  lemma LacksAppend(a: string, b: string, c: char)
    requires Lacks(a, c) && Lacks(b, c)
    ensures Lacks(a + b, c)
  {
    forall k | 0 <= k < |a + b|
      ensures LowerChar((a + b)[k]) != c
    {
      if k < |a| { assert (a + b)[k] == a[k]; } else { assert (a + b)[k] == b[k - |a|]; }
    }
  }

  /** A pattern whose first two characters are never adjacent in the text
      does not occur in it. */
  lemma NotContainsByPair(s: string, p: string)
    requires |p| >= 2
    requires forall i :: 0 <= i < |s| - 1 ==> s[i] != p[0] || s[i + 1] != p[1]
    ensures !Contains(s, p)
  {
    ContainsIffOccurs(s, p);
    forall i | 0 <= i <= |s| - |p|
      ensures !OccursAt(s, p, i)
    {
      assert s[i..i + |p|][0] == s[i] && s[i..i + |p|][1] == s[i + 1];
    }
  }

  /** Python's `s.count(p)`: non-overlapping occurrences, scanned from the left. */
  function Count(s: string, p: string): (n: nat)
    ensures |p| > 0 ==> n * |p| <= |s|
    decreases |s|
  {
    if |p| == 0 then |s| + 1
    else if |s| < |p| then 0
    else if IsPrefix(p, s) then 1 + Count(s[|p|..], p)
    else Count(s[1..], p)
  }

  /** A non-empty pattern is counted at least once exactly when it occurs. */
  lemma {:induction false} CountPositiveIffContains(s: string, p: string)
    requires |p| > 0
    ensures Count(s, p) > 0 <==> Contains(s, p)
    decreases |s|
  {
    if |s| < |p| {
      ContainsIffOccurs(s, p);
    } else if !IsPrefix(p, s) {
      CountPositiveIffContains(s[1..], p);
    }
  }

  // ---------------------------------------------------------------------
  // Whitespace: strip and split
  // ---------------------------------------------------------------------

  /** `s.lstrip()`. */
  function TrimStart(s: string): (r: string)
    ensures |r| <= |s| && r == s[|s| - |r|..]
    ensures forall i :: 0 <= i < |s| - |r| ==> IsSpace(s[i])
    ensures |r| > 0 ==> !IsSpace(r[0])
  {
    if |s| > 0 && IsSpace(s[0]) then TrimStart(s[1..]) else s
  }

  /** `s.rstrip()`. */
  function TrimEnd(s: string): (r: string)
    ensures |r| <= |s| && r == s[..|r|]
    ensures forall i :: |r| <= i < |s| ==> IsSpace(s[i])
    ensures |r| > 0 ==> !IsSpace(r[|r| - 1])
  {
    if |s| > 0 && IsSpace(s[|s| - 1]) then TrimEnd(s[..|s| - 1]) else s
  }

  /** `s.strip()`. */
  function Strip(s: string): (r: string)
    ensures |r| <= |s|
    ensures |r| > 0 ==> !IsSpace(r[0]) && !IsSpace(r[|r| - 1])
  {
    TrimEnd(TrimStart(s))
  }

  /** A text that neither begins nor ends with whitespace is its own strip. */
  lemma StripOfStripped(s: string)
    requires |s| > 0 ==> !IsSpace(s[0]) && !IsSpace(s[|s| - 1])
    ensures Strip(s) == s
  {
  }

  /** Length of the leading run of non-space characters. */
  function WordEnd(s: string): (k: nat)
    ensures k <= |s|
    ensures forall i :: 0 <= i < k ==> !IsSpace(s[i])
    ensures k < |s| ==> IsSpace(s[k])
  {
    if |s| == 0 || IsSpace(s[0]) then 0 else 1 + WordEnd(s[1..])
  }

  /** The characters of `s` that are not whitespace, in order. */
  function NonSpace(s: string): string {
    if |s| == 0 then []
    else (if IsSpace(s[0]) then [] else [s[0]]) + NonSpace(s[1..])
  }

  function Concat(ws: seq<string>): string {
    if |ws| == 0 then [] else ws[0] + Concat(ws[1..])
  }

  predicate NoSpaceIn(w: string) {
    forall i :: 0 <= i < |w| ==> !IsSpace(w[i])
  }

  /** `s.split()` with no separator: the maximal runs of non-space characters. */
  function Words(s: string): (ws: seq<string>)
    ensures forall i :: 0 <= i < |ws| ==> |ws[i]| > 0 && NoSpaceIn(ws[i])
    decreases |s|
  {
    if |s| == 0 then []
    else if IsSpace(s[0]) then Words(s[1..])
    else
      var e := WordEnd(s);
      [s[..e]] + Words(s[e..])
  }

  lemma NonSpaceAppend(a: string, b: string)
    ensures NonSpace(a + b) == NonSpace(a) + NonSpace(b)
  {
    if |a| == 0 {
      assert a + b == b;
    } else {
      assert (a + b)[1..] == a[1..] + b;
      NonSpaceAppend(a[1..], b);
    }
  }

  lemma NonSpaceOfWord(w: string)
    requires NoSpaceIn(w)
    ensures NonSpace(w) == w
  {
    if |w| > 0 {
      NonSpaceOfWord(w[1..]);
    }
  }

  /** Splitting drops exactly the whitespace: gluing the words back together
      gives the text with its whitespace removed. */
  lemma {:induction false} WordsKeepAllText(s: string)
    ensures Concat(Words(s)) == NonSpace(s)
    decreases |s|
  {
    if |s| > 0 {
      if IsSpace(s[0]) {
        WordsKeepAllText(s[1..]);
      } else {
        var e := WordEnd(s);
        WordsKeepAllText(s[e..]);
        assert s == s[..e] + s[e..];
        NonSpaceAppend(s[..e], s[e..]);
        NonSpaceOfWord(s[..e]);
        assert Words(s)[1..] == Words(s[e..]);
      }
    }
  }

  /** `s[i]` begins a word: a non-space character at the start of the text
      or right after whitespace. */
  predicate WordStart(s: string, i: nat)
    requires i < |s|
  {
    !IsSpace(s[i]) && (i == 0 || IsSpace(s[i - 1]))
  }

  /** The number of word starts at index `i` or later. */
  function WordStartsFrom(s: string, i: nat): nat
    requires i <= |s|
    decreases |s| - i
  {
    if i == |s| then 0 else (if WordStart(s, i) then 1 else 0) + WordStartsFrom(s, i + 1)
  }

  /** Inside a run of non-space characters no word starts. */
  lemma {:induction false} NoStartInsideWord(s: string, j: nat, m: nat)
    requires 0 < j <= m <= |s|
    requires forall k :: j - 1 <= k < m ==> !IsSpace(s[k])
    ensures WordStartsFrom(s, j) == WordStartsFrom(s, m)
    decreases m - j
  {
    if j < m {
      NoStartInsideWord(s, j + 1, m);
    }
  }

  lemma {:induction false} WordsCountFrom(s: string, i: nat)
    requires i <= |s|
    requires i == 0 || i == |s| || IsSpace(s[i - 1]) || IsSpace(s[i])
    ensures |Words(s[i..])| == WordStartsFrom(s, i)
    decreases |s| - i
  {
    if i < |s| {
      var t := s[i..];
      if IsSpace(s[i]) {
        assert t[1..] == s[i + 1..];
        WordsCountFrom(s, i + 1);
      } else {
        var e := WordEnd(t);
        assert e >= 1;
        assert t[e..] == s[i + e..];
        forall k | i <= k < i + e
          ensures !IsSpace(s[k])
        {
          assert s[k] == t[k - i];
        }
        NoStartInsideWord(s, i + 1, i + e);
        WordsCountFrom(s, i + e);
        assert Words(t) == [t[..e]] + Words(t[e..]);
      }
    }
  }

  /** `s.split()` yields one word per word start: as many words as there
      are non-space characters at the start of the text or after
      whitespace. */
  lemma WordCount(s: string)
    ensures |Words(s)| == WordStartsFrom(s, 0)
  {
    WordsCountFrom(s, 0);
    assert s[0..] == s;
  }

  /** A text made only of whitespace (in particular the empty text) has no words. */
  lemma {:induction false} NoWordsInBlank(s: string)
    requires forall i :: 0 <= i < |s| ==> IsSpace(s[i])
    ensures Words(s) == []
    decreases |s|
  {
    if |s| > 0 {
      NoWordsInBlank(s[1..]);
    }
  }

  // ---------------------------------------------------------------------
  // Splitting on a separator character, and joining
  // ---------------------------------------------------------------------

  /** `s.split(c)` for a one-character separator: always at least one piece. */
  function SplitOn(s: string, c: char): (parts: seq<string>)
    ensures |parts| >= 1
    ensures forall i, j :: 0 <= i < |parts| && 0 <= j < |parts[i]| ==> parts[i][j] != c
    decreases |s|
  {
    if |s| == 0 then [[]]
    else
      var rest := SplitOn(s[1..], c);
      if s[0] == c then [[]] + rest
      else [[s[0]] + rest[0]] + rest[1..]
  }

  /** `sep.join(xs)`. */
  function Join(sep: string, xs: seq<string>): (r: string)
    ensures |xs| == 1 ==> r == xs[0]
  {
    if |xs| == 0 then []
    else if |xs| == 1 then xs[0]
    else xs[0] + sep + Join(sep, xs[1..])
  }

  /** A joined text starts with the first item. */
  lemma JoinPrefix(sep: string, xs: seq<string>)
    requires |xs| > 0
    ensures IsPrefix(xs[0], Join(sep, xs))
  {
    if |xs| > 1 {
      assert Join(sep, xs)[..|xs[0]|] == xs[0];
    }
  }

  /** Every item of a joined list occurs in the joined text. */
  lemma {:induction false} JoinContains(sep: string, xs: seq<string>, i: nat)
    requires i < |xs|
    ensures Contains(Join(sep, xs), xs[i])
  {
    if i == 0 {
      JoinPrefix(sep, xs);
    } else {
      JoinContains(sep, xs[1..], i - 1);
      assert Join(sep, xs) == (xs[0] + sep) + Join(sep, xs[1..]);
      ContainsInConcat(xs[0] + sep, Join(sep, xs[1..]), xs[i]);
    }
  }

  /** Splitting on a character and joining with it again gives back the text. */
  lemma {:induction false} SplitJoinRoundTrip(s: string, c: char)
    ensures Join([c], SplitOn(s, c)) == s
    decreases |s|
  {
    if |s| > 0 {
      SplitJoinRoundTrip(s[1..], c);
      var rest := SplitOn(s[1..], c);
      if s[0] == c {
        assert SplitOn(s, c) == [[]] + rest;
      } else {
        var parts := [[s[0]] + rest[0]] + rest[1..];
        assert SplitOn(s, c) == parts;
        if |rest| == 1 {
          assert Join([c], parts) == [s[0]] + rest[0];
        } else {
          assert parts[1..] == rest[1..];
          assert Join([c], parts) == [s[0]] + rest[0] + [c] + Join([c], rest[1..]);
        }
      }
    }
  }

  // ---------------------------------------------------------------------
  // Decimal rendering
  // ---------------------------------------------------------------------

  function DigitChar(d: nat): (c: char)
    requires d < 10
    ensures IsDigit(c)
  {
    ('0' as int + d) as char
  }

  predicate AllDigits(s: string) {
    forall i :: 0 <= i < |s| ==> IsDigit(s[i])
  }

  /** `str(n)` for a non-negative integer. */
  function NatToString(n: nat): (r: string)
    ensures |r| > 0 && AllDigits(r)
  {
    if n < 10 then [DigitChar(n)] else NatToString(n / 10) + [DigitChar(n % 10)]
  }

  /** `str(n)` for any integer. */
  function IntToString(n: int): (r: string)
    ensures |r| > 0
    ensures n < 0 <==> r[0] == '-'
  {
    if n < 0 then "-" + NatToString(-n) else NatToString(n)
  }
}
