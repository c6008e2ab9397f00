/** The handful of regular expressions the pipeline uses, each written out
    as a scanner with the left-to-right, non-overlapping, greedy-then-
    backtrack semantics of Python's `re` module:

    - `\b[a-zA-Z]{3,}\b`            (keyword tokens)
    - `\b\d+[%\w]*\b` and `\b\d+%`  (numbers and percentages)
    - a case-insensitive literal     (weak phrases)
    - `\bw1\s+w2\b`, case-insensitive (section headers)
    - single-character classes, ` +` and `\n{3,}` (clean-up)

    Character classes are their ASCII parts (see module Text). */
module Patterns {
  import opened Text
  import opened Seqs

  /** A regex `\b` before index `i`, when `s[i]` is a word character. */
  predicate BoundaryBefore(s: string, i: nat)
    requires i <= |s|
  {
    i == 0 || !IsWordChar(s[i - 1])
  }

  /** A regex `\b` at index `e`, when `s[e - 1]` is a word character. */
  predicate BoundaryAt(s: string, e: nat)
    requires e <= |s|
  {
    e == |s| || !IsWordChar(s[e])
  }

  predicate AllLetters(w: string) {
    forall k :: 0 <= k < |w| ==> IsLetter(w[k])
  }

  // ---------------------------------------------------------------------
  // \b[a-zA-Z]{3,}\b
  // ---------------------------------------------------------------------

  function LetterRunEnd(s: string, i: nat): (e: nat)
    requires i <= |s|
    ensures i <= e <= |s|
    ensures forall k :: i <= k < e ==> IsLetter(s[k])
    ensures e < |s| ==> !IsLetter(s[e])
    decreases |s| - i
  {
    if i < |s| && IsLetter(s[i]) then LetterRunEnd(s, i + 1) else i
  }

  /** `re.findall(r'\b[a-zA-Z]{3,}\b', s)` from index `i` on. A match is a
      maximal run of word characters that consists of at least three
      letters: greedy `[a-zA-Z]{3,}` must be followed by a non-word
      character, and backing off only ends it before another letter. */
  function TokensFrom(s: string, i: nat): (ts: seq<string>)
    requires i <= |s|
    ensures forall j :: 0 <= j < |ts| ==> |ts[j]| >= 3 && AllLetters(ts[j])
    decreases |s| - i
  {
    if i == |s| then []
    else if BoundaryBefore(s, i) && IsLetter(s[i]) then
      var e := LetterRunEnd(s, i);
      if e - i >= 3 && BoundaryAt(s, e) then [s[i..e]] + TokensFrom(s, e)
      else TokensFrom(s, i + 1)
    else TokensFrom(s, i + 1)
  }

  function Tokens(s: string): (ts: seq<string>)
    ensures forall j :: 0 <= j < |ts| ==> |ts[j]| >= 3 && AllLetters(ts[j])
  {
    TokensFrom(s, 0)
  }

  /** A match of `\b[a-zA-Z]{3,}\b` begins at `k`: a word boundary, then a
      run of at least three letters followed by a word boundary. */
  predicate TokenStart(s: string, k: nat) {
    && k < |s| && BoundaryBefore(s, k) && IsLetter(s[k])
    && LetterRunEnd(s, k) - k >= 3 && BoundaryAt(s, LetterRunEnd(s, k))
  }

  /** Every match starting at `k` or later is found from `i <= k`. */
  lemma {:induction false} TokensFromComplete(s: string, i: nat, k: nat)
    requires i <= k && TokenStart(s, k)
    ensures s[k..LetterRunEnd(s, k)] in TokensFrom(s, i)
    decreases |s| - i
  {
    var e := LetterRunEnd(s, i);
    if BoundaryBefore(s, i) && IsLetter(s[i]) && e - i >= 3 && BoundaryAt(s, e) {
      assert TokensFrom(s, i) == [s[i..e]] + TokensFrom(s, e);
      if i < k {
        assert !IsLetter(s[k - 1]);
        TokensFromComplete(s, e, k);
      }
    } else {
      TokensFromComplete(s, i + 1, k);
    }
  }

  /** Everything found from `i` on is a match starting at `i` or later. */
  lemma {:induction false} TokensFromSound(s: string, i: nat, j: nat)
    requires i <= |s| && j < |TokensFrom(s, i)|
    ensures exists k: nat :: i <= k && TokenStart(s, k) && TokensFrom(s, i)[j] == s[k..LetterRunEnd(s, k)]
    decreases |s| - i
  {
    var e := LetterRunEnd(s, i);
    if BoundaryBefore(s, i) && IsLetter(s[i]) && e - i >= 3 && BoundaryAt(s, e) {
      assert TokensFrom(s, i) == [s[i..e]] + TokensFrom(s, e);
      if j == 0 {
        assert TokenStart(s, i);
      } else {
        TokensFromSound(s, e, j - 1);
      }
    } else {
      TokensFromSound(s, i + 1, j);
    }
  }

  /** `re.findall(r'\b[a-zA-Z]{3,}\b', s)` finds exactly the matches: a
      word is a token of `s` if and only if it is the letter run at some
      match start. */
  lemma TokensExactly(s: string, t: string)
    ensures t in Tokens(s) <==> exists k: nat :: TokenStart(s, k) && t == s[k..LetterRunEnd(s, k)]
  {
    if t in Tokens(s) {
      var j :| 0 <= j < |Tokens(s)| && Tokens(s)[j] == t;
      TokensFromSound(s, 0, j);
    }
    if exists k: nat :: TokenStart(s, k) && t == s[k..LetterRunEnd(s, k)] {
      var k: nat :| TokenStart(s, k) && t == s[k..LetterRunEnd(s, k)];
      TokensFromComplete(s, 0, k);
    }
  }

  /** `[w.lower() for w in ws]`. */
  function LowerEach(ws: seq<string>): (r: seq<string>)
    ensures |r| == |ws|
    ensures forall j :: 0 <= j < |ws| ==> r[j] == Lower(ws[j])
  {
    if |ws| == 0 then [] else [Lower(ws[0])] + LowerEach(ws[1..])
  }

  lemma LowerEachCons(w: string, ws: seq<string>)
    ensures LowerEach([w] + ws) == [Lower(w)] + LowerEach(ws)
  {
    assert ([w] + ws)[1..] == ws;
  }

  lemma {:induction false} LetterRunEndOfLower(s: string, i: nat)
    requires i <= |s|
    ensures LetterRunEnd(Lower(s), i) == LetterRunEnd(s, i)
    decreases |s| - i
  {
    if i < |s| && IsLetter(s[i]) {
      LetterRunEndOfLower(s, i + 1);
    }
  }

  /** One token found at `i`: the lower-cased text yields the lower-cased
      token there, given that the rest of the two tokenisations agree. */
  lemma TokenOfLower(s: string, i: nat, e: nat)
    requires i < |s| && BoundaryBefore(s, i) && IsLetter(s[i])
    requires e == LetterRunEnd(s, i) && e - i >= 3 && BoundaryAt(s, e)
    requires TokensFrom(Lower(s), e) == LowerEach(TokensFrom(s, e))
    ensures TokensFrom(Lower(s), i) == LowerEach(TokensFrom(s, i))
  {
    var t := Lower(s);
    LetterRunEndOfLower(s, i);
    assert BoundaryBefore(t, i) && IsLetter(t[i]) && BoundaryAt(t, e);
    assert TokensFrom(t, i) == [t[i..e]] + TokensFrom(t, e);
    assert TokensFrom(s, i) == [s[i..e]] + TokensFrom(s, e);
    LowerSlice(s, i, e);
    LowerEachCons(s[i..e], TokensFrom(s, e));
  }

  /** No token found at `i`: both tokenisations go on from `i + 1`. */
  lemma NoTokenOfLower(s: string, i: nat)
    requires i < |s|
    requires !(BoundaryBefore(s, i) && IsLetter(s[i]))
      || (var e := LetterRunEnd(s, i); !(e - i >= 3 && BoundaryAt(s, e)))
    requires TokensFrom(Lower(s), i + 1) == LowerEach(TokensFrom(s, i + 1))
    ensures TokensFrom(Lower(s), i) == LowerEach(TokensFrom(s, i))
  {
    var t := Lower(s);
    if BoundaryBefore(s, i) && IsLetter(s[i]) {
      LetterRunEndOfLower(s, i);
    }
    assert TokensFrom(t, i) == TokensFrom(t, i + 1);
    assert TokensFrom(s, i) == TokensFrom(s, i + 1);
  }

  /** Tokenising the lower-cased text gives the lower-cased tokens: the two
      tokenisations the pipeline uses (lower first, or lower each token)
      agree. */
  lemma {:induction false} TokensOfLower(s: string, i: nat)
    requires i <= |s|
    ensures TokensFrom(Lower(s), i) == LowerEach(TokensFrom(s, i))
    decreases |s| - i
  {
    if i < |s| {
      var e := LetterRunEnd(s, i);
      if BoundaryBefore(s, i) && IsLetter(s[i]) && e - i >= 3 && BoundaryAt(s, e) {
        TokensOfLower(s, e);
        TokenOfLower(s, i, e);
      } else {
        TokensOfLower(s, i + 1);
        NoTokenOfLower(s, i);
      }
    }
  }

  // ---------------------------------------------------------------------
  // \b\d+[%\w]*\b  and  \b\d+%
  // ---------------------------------------------------------------------

  predicate IsPercentOrWord(c: char) { IsWordChar(c) || c == '%' }

  function PercentWordRunEnd(s: string, i: nat): (e: nat)
    requires i <= |s|
    ensures i <= e <= |s|
    ensures forall k :: i <= k < e ==> IsPercentOrWord(s[k])
    ensures e < |s| ==> !IsPercentOrWord(s[e])
    decreases |s| - i
  {
    if i < |s| && IsPercentOrWord(s[i]) then PercentWordRunEnd(s, i + 1) else i
  }

  /** One past the last word character of `s[i..e]`. */
  function LastWordEnd(s: string, i: nat, e: nat): (m: nat)
    requires i < e <= |s| && IsWordChar(s[i])
    ensures i < m <= e && IsWordChar(s[m - 1])
    ensures forall k :: m <= k < e ==> !IsWordChar(s[k])
    decreases e
  {
    if IsWordChar(s[e - 1]) then e else LastWordEnd(s, i, e - 1)
  }

  /** End of the match of `\d+[%\w]*\b` that starts at the digit `s[i]`:
      greedy `[%\w]*` takes the whole run of `%` and word characters, and
      the closing `\b` backs it off to just after its last word character. */
  function NumberMatchEnd(s: string, i: nat): (e: nat)
    requires i < |s| && IsDigit(s[i])
    ensures i < e <= |s|
    ensures IsWordChar(s[e - 1]) && BoundaryAt(s, e)
    ensures forall k :: i <= k < e ==> IsPercentOrWord(s[k])
  {
    LastWordEnd(s, i, PercentWordRunEnd(s, i))
  }

  /** `len(re.findall(r'\b\d+[%\w]*\b', s))`, counted from index `i` on. */
  function NumberTokensFrom(s: string, i: nat): (n: nat)
    requires i <= |s|
    ensures n <= |s| - i
    decreases |s| - i
  {
    if i == |s| then 0
    else if BoundaryBefore(s, i) && IsDigit(s[i]) then 1 + NumberTokensFrom(s, NumberMatchEnd(s, i))
    else NumberTokensFrom(s, i + 1)
  }

  function NumberTokens(s: string): nat {
    NumberTokensFrom(s, 0)
  }

  /** A digit that starts a word. */
  predicate NumberStartsAt(s: string, j: int) {
    0 <= j < |s| && IsDigit(s[j]) && BoundaryBefore(s, j)
  }

  /** The scan finds a number exactly when some digit starts a word. */
  lemma {:induction false} NumberTokensPositive(s: string, i: nat)
    requires i <= |s|
    ensures NumberTokensFrom(s, i) > 0 <==> exists j :: i <= j && NumberStartsAt(s, j)
    decreases |s| - i
  {
    if i < |s| {
      if !(BoundaryBefore(s, i) && IsDigit(s[i])) {
        NumberTokensPositive(s, i + 1);
        if exists j :: i <= j && NumberStartsAt(s, j) {
          var j :| i <= j && NumberStartsAt(s, j);
          assert j != i;
        }
      } else {
        assert NumberStartsAt(s, i);
      }
    }
  }

  function DigitRunEnd(s: string, i: nat): (e: nat)
    requires i <= |s|
    ensures i <= e <= |s|
    ensures forall k :: i <= k < e ==> IsDigit(s[k])
    ensures e < |s| ==> !IsDigit(s[e])
    decreases |s| - i
  {
    if i < |s| && IsDigit(s[i]) then DigitRunEnd(s, i + 1) else i
  }

  /** `len(re.findall(r'\b\d+%', s))`, counted from index `i` on. */
  function PercentTokensFrom(s: string, i: nat): (n: nat)
    requires i <= |s|
    ensures n <= multiset(s[i..])['%']
    decreases |s| - i
  {
    if i == |s| then 0
    else if BoundaryBefore(s, i) && IsDigit(s[i]) then
      var d := DigitRunEnd(s, i);
      if d < |s| && s[d] == '%' then
        assert s[i..] == s[i..d + 1] + s[d + 1..];
        assert s[i..d + 1] == s[i..d] + [s[d]];
        1 + PercentTokensFrom(s, d + 1)
      else
        assert s[i..] == [s[i]] + s[i + 1..];
        PercentTokensFrom(s, i + 1)
    else
      assert s[i..] == [s[i]] + s[i + 1..];
      PercentTokensFrom(s, i + 1)
  }

  function PercentTokens(s: string): (n: nat)
    ensures n <= multiset(s)['%']
  {
    assert s[0..] == s;
    PercentTokensFrom(s, 0)
  }

  // ---------------------------------------------------------------------
  // Case-insensitive literal substitution
  // ---------------------------------------------------------------------

  /** `re.search(re.escape(p), s, re.IGNORECASE)` finds a match. */
  predicate ContainsCI(s: string, p: string) {
    Contains(Lower(s), Lower(p))
  }

  /** `re.sub(re.escape(p), r, s, flags=re.IGNORECASE)`: every occurrence
      of `p`, ignoring case, replaced by `r`, scanning left to right
      without overlap. */
  function ReplaceCI(s: string, p: string, r: string): (t: string)
    requires |p| > 0
    decreases |s|
  {
    if |s| < |p| then s
    else if Lower(s[..|p|]) == Lower(p) then r + ReplaceCI(s[|p|..], p, r)
    else [s[0]] + ReplaceCI(s[1..], p, r)
  }

  /** Without an occurrence nothing is replaced. */
  lemma {:induction false} ReplaceCIAbsent(s: string, p: string, r: string)
    requires |p| > 0 && !ContainsCI(s, p)
    ensures ReplaceCI(s, p, r) == s
    decreases |s|
  {
    if |s| >= |p| {
      LowerSlice(s, 0, |p|);
      LowerSlice(s, 1, |s|);
      assert Lower(s[1..]) == Lower(s)[1..];
      ReplaceCIAbsent(s[1..], p, r);
    }
  }

  /** A pattern holding a letter that no character of the text lower-cases
      to does not occur in it, whatever the case. */
  lemma LacksNotContainsCI(s: string, p: string, j: nat)
    requires j < |p| && Lacks(s, LowerChar(p[j]))
    ensures !ContainsCI(s, p)
  {
    LacksNotContains(s, LowerChar(p[j]), Lower(p), j);
  }

  /** A character that cannot start a match is copied unchanged. */
  lemma ReplaceCIKeepsFirst(s: string, p: string, r: string)
    requires |s| > 0 && |p| > 0 && LowerChar(s[0]) != LowerChar(p[0])
    ensures ReplaceCI(s, p, r) == [s[0]] + ReplaceCI(s[1..], p, r)
  {
    if |s| >= |p| {
      assert Lower(s[..|p|])[0] == LowerChar(s[0]);
    }
  }

  /** None of the characters of `a` can start a case-insensitive match of `p`. */
  predicate NoMatchStart(a: string, p: string)
    requires |p| > 0
  {
    forall i :: 0 <= i < |a| ==> LowerChar(a[i]) != LowerChar(p[0])
  }

  /** A prefix none of whose characters can start a match is copied unchanged. */
  lemma {:induction false} ReplaceCISkipPrefix(a: string, b: string, p: string, r: string)
    requires |p| > 0 && NoMatchStart(a, p)
    ensures ReplaceCI(a + b, p, r) == a + ReplaceCI(b, p, r)
    decreases |a|
  {
    if |a| > 0 {
      var s := a + b;
      var a' := a[1..];
      assert s[0] == a[0] && s[1..] == a' + b;
      assert NoMatchStart(a', p) by {
        forall i | 0 <= i < |a'| ensures LowerChar(a'[i]) != LowerChar(p[0]) {
          assert a'[i] == a[i + 1];
        }
      }
      assert LowerChar(s[0]) != LowerChar(p[0]);
      ReplaceCIKeepsFirst(s, p, r);
      ReplaceCISkipPrefix(a', b, p, r);
      var t := ReplaceCI(b, p, r);
      assert ReplaceCI(s, p, r) == [a[0]] + (a' + t);
      assert [a[0]] + (a' + t) == ([a[0]] + a') + t;
      assert [a[0]] + a' == a;
    } else {
      assert a + b == b;
    }
  }

  /** Number of case-insensitive occurrences of `p` that the left-to-right,
      non-overlapping scan of `ReplaceCI` finds. */
  function CountCI(s: string, p: string): (n: nat)
    requires |p| > 0
    ensures n * |p| <= |s|
    decreases |s|
  {
    if |s| < |p| then 0
    else if Lower(s[..|p|]) == Lower(p) then 1 + CountCI(s[|p|..], p)
    else CountCI(s[1..], p)
  }

  lemma MulSucc(n: int, d: int)
    ensures (1 + n) * d == d + n * d
  {
  }

  /** Each of the `CountCI` occurrences trades `|p|` characters for `|r|`. */
  lemma {:induction false} ReplaceCILength(s: string, p: string, r: string)
    requires |p| > 0
    ensures |ReplaceCI(s, p, r)| == |s| + CountCI(s, p) * (|r| - |p|)
    decreases |s|
  {
    if |s| >= |p| {
      if Lower(s[..|p|]) == Lower(p) {
        ReplaceCILength(s[|p|..], p, r);
        var n := CountCI(s[|p|..], p);
        var d := |r| - |p|;
        assert CountCI(s, p) == 1 + n;
        assert |ReplaceCI(s, p, r)| == |r| + |ReplaceCI(s[|p|..], p, r)|;
        MulSucc(n, d);
      } else {
        ReplaceCILength(s[1..], p, r);
      }
    }
  }

  /** The scan counts an occurrence exactly when the search finds one. */
  lemma {:induction false} CountCIPositive(s: string, p: string)
    requires |p| > 0
    ensures CountCI(s, p) > 0 <==> ContainsCI(s, p)
    decreases |s|
  {
    if |s| < |p| {
      ContainsIffOccurs(Lower(s), Lower(p));
    } else if Lower(s[..|p|]) != Lower(p) {
      CountCIPositive(s[1..], p);
      LowerSlice(s, 0, |p|);
      LowerSlice(s, 1, |s|);
      assert Lower(s[1..]) == Lower(s)[1..];
    } else {
      LowerSlice(s, 0, |p|);
    }
  }

  // ---------------------------------------------------------------------
  // \bw1\s+w2\b, case-insensitive
  // ---------------------------------------------------------------------

  function SpaceRunEnd(s: string, i: nat): (e: nat)
    requires i <= |s|
    ensures i <= e <= |s|
    ensures forall k :: i <= k < e ==> IsSpace(s[k])
    ensures e < |s| ==> !IsSpace(s[e])
    decreases |s| - i
  {
    if i < |s| && IsSpace(s[i]) then SpaceRunEnd(s, i + 1) else i
  }

  /** Length of the case-insensitive match of `\bw1\s+w2\b` at index `i`,
      or 0 when none starts there (`w1` and `w2` are lower-case words).
      Greedy `\s+` stops at the first non-space, where `w2` must begin. */
  function HeaderMatchLen(s: string, i: nat, w1: string, w2: string): (m: nat)
    requires i <= |s|
    ensures i + m <= |s|
    ensures m > 0 ==> m > |w1| + |w2|
  {
    var j := i + |w1|;
    if BoundaryBefore(s, i) && j < |s| && Lower(s[i..j]) == w1 && IsSpace(s[j]) then
      var k := SpaceRunEnd(s, j);
      var e := k + |w2|;
      if e <= |s| && Lower(s[k..e]) == w2 && BoundaryAt(s, e) then e - i else 0
    else 0
  }

  /** `re.sub(r'\bw1\s+w2\b', rep, s[i..], flags=re.IGNORECASE)`; word
      boundaries are judged against the original text, as `re.sub` does. */
  function SubHeader(s: string, i: nat, w1: string, w2: string, rep: string): string
    requires i <= |s|
    decreases |s| - i
  {
    if i == |s| then []
    else
      var m := HeaderMatchLen(s, i, w1, w2);
      if m > 0 then rep + SubHeader(s, i + m, w1, w2, rep)
      else [s[i]] + SubHeader(s, i + 1, w1, w2, rep)
  }

  /** The pattern matches at no position from `i` up to `k`. */
  predicate NoHeaderBetween(s: string, i: nat, k: nat, w1: string, w2: string) {
    forall j :: i <= j < k && j < |s| ==> HeaderMatchLen(s, j, w1, w2) == 0
  }

  /** Where the pattern matches nowhere, the text is left as it is. */
  lemma {:induction false} SubHeaderNoMatch(s: string, i: nat, w1: string, w2: string, rep: string)
    requires i <= |s|
    requires NoHeaderBetween(s, i, |s|, w1, w2)
    ensures SubHeader(s, i, w1, w2, rep) == s[i..]
    decreases |s| - i
  {
    if i < |s| {
      SubHeaderNoMatch(s, i + 1, w1, w2, rep);
      assert s[i..] == [s[i]] + s[i + 1..];
    }
  }

  /** Where the pattern matches somewhere, the canonical name appears. */
  lemma {:induction false} SubHeaderInsertsName(s: string, i: nat, j: nat, w1: string, w2: string, rep: string)
    requires i <= j < |s| && HeaderMatchLen(s, j, w1, w2) > 0
    ensures Contains(SubHeader(s, i, w1, w2, rep), rep)
    decreases |s| - i
  {
    var m := HeaderMatchLen(s, i, w1, w2);
    SubHeaderStep(s, i, w1, w2, rep);
    if m > 0 {
      PrefixContained(rep, SubHeader(s, i + m, w1, w2, rep));
    } else {
      SubHeaderInsertsName(s, i + 1, j, w1, w2, rep);
      ContainsInConcat([s[i]], SubHeader(s, i + 1, w1, w2, rep), rep);
    }
  }

  lemma SubHeaderStep(s: string, i: nat, w1: string, w2: string, rep: string)
    requires i < |s|
    ensures var m := HeaderMatchLen(s, i, w1, w2);
      SubHeader(s, i, w1, w2, rep)
        == if m > 0 then rep + SubHeader(s, i + m, w1, w2, rep) else [s[i]] + SubHeader(s, i + 1, w1, w2, rep)
  {
  }

  /** A position where the pattern does not match is copied. */
  lemma SubHeaderCopy(s: string, i: nat, w1: string, w2: string, rep: string)
    requires i < |s| && HeaderMatchLen(s, i, w1, w2) == 0
    ensures SubHeader(s, i, w1, w2, rep) == [s[i]] + SubHeader(s, i + 1, w1, w2, rep)
  {
  }

  /** Positions where the pattern does not match are copied unchanged. */
  lemma {:induction false} SubHeaderSkip(s: string, i: nat, k: nat, w1: string, w2: string, rep: string)
    requires i <= k <= |s|
    requires NoHeaderBetween(s, i, k, w1, w2)
    ensures SubHeader(s, i, w1, w2, rep) == s[i..k] + SubHeader(s, k, w1, w2, rep)
    decreases k - i
  {
    if i < k {
      SubHeaderCopy(s, i, w1, w2, rep);
      SubHeaderSkip(s, i + 1, k, w1, w2, rep);
      ConsSlice(s, i, k, SubHeader(s, k, w1, w2, rep));
    }
  }

  /** The pattern cannot match where its first letter does not start a word. */
  lemma NoHeaderAt(s: string, j: nat, w1: string, w2: string)
    requires j < |s| && |w1| > 0
    requires !BoundaryBefore(s, j) || LowerChar(s[j]) != w1[0]
    ensures HeaderMatchLen(s, j, w1, w2) == 0
  {
    if j + |w1| < |s| {
      assert Lower(s[j..j + |w1|])[0] == LowerChar(s[j]);
    }
  }

  /** Where the pattern matches, the match is replaced. */
  lemma SubHeaderAtMatch(s: string, i: nat, w1: string, w2: string, rep: string)
    requires i < |s| && HeaderMatchLen(s, i, w1, w2) > 0
    ensures SubHeader(s, i, w1, w2, rep) == rep + SubHeader(s, i + HeaderMatchLen(s, i, w1, w2), w1, w2, rep)
  {
  }

  /** A pattern matching only at the end of the text replaces just that end. */
  lemma SubHeaderAtEnd(s: string, i: nat, w1: string, w2: string, rep: string)
    requires i < |s| && HeaderMatchLen(s, i, w1, w2) == |s| - i
    requires NoHeaderBetween(s, 0, i, w1, w2)
    ensures SubHeader(s, 0, w1, w2, rep) == s[..i] + rep
  {
    SubHeaderSkip(s, 0, i, w1, w2, rep);
    SubHeaderAtMatch(s, i, w1, w2, rep);
    assert SubHeader(s, |s|, w1, w2, rep) == [];
    assert rep + [] == rep;
    assert s[0..i] == s[..i];
  }

  lemma PrefixContained(p: string, t: string)
    ensures Contains(p + t, p)
  {
    assert (p + t)[..|p|] == p;
  }

  // ---------------------------------------------------------------------
  // Character classes and runs
  // ---------------------------------------------------------------------

  /** `re.sub("[...]", sub, s)` for a class of single characters. */
  function ReplaceChars(s: string, cls: set<char>, sub: char): (r: string)
    ensures |r| == |s|
    ensures forall i :: 0 <= i < |s| ==> r[i] == (if s[i] in cls then sub else s[i])
  {
    if |s| == 0 then [] else [if s[0] in cls then sub else s[0]] + ReplaceChars(s[1..], cls, sub)
  }

  /** Replacing a character by itself changes nothing. */
  lemma ReplaceCharByItself(s: string, c: char)
    ensures ReplaceChars(s, {c}, c) == s
  {
  }

  /** A text without any character of the class is left unchanged. */
  lemma ReplaceCharsAbsent(s: string, cls: set<char>, sub: char)
    requires forall i :: 0 <= i < |s| ==> s[i] !in cls
    ensures ReplaceChars(s, cls, sub) == s
  {
  }

  function Repeat(c: char, n: nat): (r: string)
    ensures |r| == n
    ensures forall i :: 0 <= i < n ==> r[i] == c
  {
    if n == 0 then [] else [c] + Repeat(c, n - 1)
  }

  /** Number of leading copies of `c`. */
  function LeadRun(s: string, c: char): (k: nat)
    ensures k <= |s|
    ensures forall i :: 0 <= i < k ==> s[i] == c
    ensures k < |s| ==> s[k] != c
  {
    if |s| == 0 || s[0] != c then 0 else 1 + LeadRun(s[1..], c)
  }

  /** `re.sub(c + '{' + str(keep + 1) + ',}', c * keep, s)`: every maximal
      run of `c` longer than `keep` cut down to `keep` copies. With
      `keep == 1` this is `re.sub(' +', ' ', s)` for `c == ' '`. */
  function CollapseRuns(s: string, c: char, keep: nat): (r: string)
    requires keep > 0
    ensures |r| <= |s|
    ensures forall x :: x in r ==> x in s
    ensures forall x :: x != c && x in s ==> x in r
    ensures |s| > 0 ==> |r| > 0 && r[0] == s[0]
    decreases |s|
  {
    if |s| == 0 then []
    else if s[0] == c then
      var k := LeadRun(s, c);
      assert s == s[..k] + s[k..];
      Repeat(c, if k <= keep then k else keep) + CollapseRuns(s[k..], c, keep)
    else
      assert s == [s[0]] + s[1..];
      [s[0]] + CollapseRuns(s[1..], c, keep)
  }

  /** A block of at most `keep` copies of `c` followed by a text that does
      not start with `c` and has no run longer than `keep` has none either. */
  lemma {:induction false} NoLongRunAfterBlock(m: nat, t: string, c: char, keep: nat)
    requires m <= keep
    requires |t| == 0 || t[0] != c
    requires !Contains(t, Repeat(c, keep + 1))
    ensures !Contains(Repeat(c, m) + t, Repeat(c, keep + 1))
  {
    var u := Repeat(c, m) + t;
    if m == 0 {
      assert u == t;
    } else {
      assert u[1..] == Repeat(c, m - 1) + t;
      NoLongRunAfterBlock(m - 1, t, c, keep);
      if |t| > 0 {
        assert u[m] == t[0];
      }
    }
  }

  /** After collapsing, no run of `c` is longer than `keep`. */
  lemma {:induction false} CollapseRunsBound(s: string, c: char, keep: nat)
    requires keep > 0
    ensures !Contains(CollapseRuns(s, c, keep), Repeat(c, keep + 1))
    decreases |s|
  {
    var p := Repeat(c, keep + 1);
    if |s| == 0 {
      assert !IsPrefix(p, []);
    } else if s[0] == c {
      var k := LeadRun(s, c);
      CollapseRunsBound(s[k..], c, keep);
      NoLongRunAfterBlock(if k <= keep then k else keep, CollapseRuns(s[k..], c, keep), c, keep);
    } else {
      var t := CollapseRuns(s[1..], c, keep);
      CollapseRunsBound(s[1..], c, keep);
      assert ([s[0]] + t)[1..] == t;
      assert ([s[0]] + t)[0] == s[0] != p[0];
    }
  }

  /** A leading run longer than `n` starts with `n + 1` copies. */
  lemma LongLeadRun(s: string, c: char, n: nat)
    ensures LeadRun(s, c) > n ==> IsPrefix(Repeat(c, n + 1), s)
  {
    if LeadRun(s, c) > n {
      assert s[..n + 1] == Repeat(c, n + 1);
    }
  }

  /** A text without a run of `c` longer than `keep` is left unchanged. */
  lemma {:induction false} CollapseRunsIdentity(s: string, c: char, keep: nat)
    requires keep > 0
    requires !Contains(s, Repeat(c, keep + 1))
    ensures CollapseRuns(s, c, keep) == s
    decreases |s|
  {
    if |s| > 0 {
      if s[0] == c {
        var k := LeadRun(s, c);
        LongLeadRun(s, c, keep);
        ContainsOfSuffix(s, k, Repeat(c, keep + 1));
        CollapseRunsIdentity(s[k..], c, keep);
        assert Repeat(c, k) == s[..k];
        assert s[..k] + s[k..] == s;
      } else {
        CollapseRunsIdentity(s[1..], c, keep);
      }
    }
  }

  /** Texts that begin with characters other than `p[0]` contain `p` only
      after them. */
  lemma {:induction false} ContainsPastForeignPrefix(x: string, t: string, p: string)
    requires |p| > 0
    requires forall i :: 0 <= i < |x| ==> x[i] != p[0]
    ensures Contains(x + t, p) ==> Contains(t, p)
    decreases |x|
  {
    if |x| > 0 {
      assert (x + t)[1..] == x[1..] + t;
      assert (x + t)[0] == x[0];
      ContainsPastForeignPrefix(x[1..], t, p);
    } else {
      assert x + t == t;
    }
  }

  /** Collapsing runs of `c` creates no new pair of another character `d`. */
  lemma {:induction false} CollapseRunsKeepsNoPair(s: string, c: char, keep: nat, d: char)
    requires keep > 0 && d != c
    requires !Contains(s, [d, d])
    ensures !Contains(CollapseRuns(s, c, keep), [d, d])
    decreases |s|
  {
    if |s| > 0 {
      if s[0] == c {
        var k := LeadRun(s, c);
        var m := if k <= keep then k else keep;
        ContainsOfSuffix(s, k, [d, d]);
        CollapseRunsKeepsNoPair(s[k..], c, keep, d);
        ContainsPastForeignPrefix(Repeat(c, m), CollapseRuns(s[k..], c, keep), [d, d]);
      } else {
        var t := CollapseRuns(s[1..], c, keep);
        ContainsOfSuffix(s, 1, [d, d]);
        CollapseRunsKeepsNoPair(s[1..], c, keep, d);
        var u := [s[0]] + t;
        assert u[1..] == t;
        if |s| >= 2 {
          assert u[1] == t[0] == s[1];
          assert s[..2] == [s[0], s[1]];
        }
      }
    }
  }
}
