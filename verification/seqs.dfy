/** Generic sequence operations: filtering, first-seen de-duplication (the
    key order of a Python `dict` filled by iteration), and ordered rule
    lists that emit one message per rule that fires. */
module Seqs {

  function Min(a: int, b: int): int { if a <= b then a else b }

  /** A list comprehension `[x for x in s if f(x)]`. */
  function Filter<T(==)>(s: seq<T>, f: T -> bool): (r: seq<T>)
    ensures |r| <= |s|
    ensures forall i :: 0 <= i < |r| ==> r[i] in s && f(r[i])
    ensures forall i :: 0 <= i < |s| && f(s[i]) ==> s[i] in r
  {
    if |s| == 0 then [] else (if f(s[0]) then [s[0]] else []) + Filter(s[1..], f)
  }

  predicate NoDuplicates<T(==)>(s: seq<T>) {
    forall i, j :: 0 <= i < j < |s| ==> s[i] != s[j]
  }

  /** `r` lists its items in the order in which they first occur in `s`:
      whenever `r[i]` comes before `r[j]`, `r[i]` already occurred in `s`
      before any occurrence of `r[j]`. */
  predicate FirstSeenOrder<T(==)>(r: seq<T>, s: seq<T>) {
    forall i, j, k :: 0 <= i < j < |r| && 0 <= k < |s| && s[k] == r[j] ==> r[i] in s[..k]
  }

  /** The keys of a Python `dict` filled by iterating over `s`: each item
      once, in first-seen order. */
  function Distinct<T(==)>(s: seq<T>): (r: seq<T>)
    ensures forall i :: 0 <= i < |r| ==> r[i] in s
    ensures forall i :: 0 <= i < |s| ==> s[i] in r
    ensures NoDuplicates(r)
    ensures FirstSeenOrder(r, s)
  {
    if |s| == 0 then []
    else
      var d := Distinct(s[..|s| - 1]);
      var x := s[|s| - 1];
      assert forall k :: 0 <= k < |s| - 1 ==> s[..|s| - 1][..k] == s[..k];
      if x in d then d else d + [x]
  }

  lemma FirstSeenOrderOfTail<T>(r: seq<T>, s: seq<T>)
    requires |r| > 0 && FirstSeenOrder(r, s)
    ensures FirstSeenOrder(r[1..], s)
  {
    forall i, j, k | 0 <= i < j < |r[1..]| && 0 <= k < |s| && s[k] == r[1..][j]
      ensures r[1..][i] in s[..k]
    {
      assert r[1..][i] == r[i + 1] && r[1..][j] == r[j + 1];
    }
  }

  /** The first item of `r` occurs in `s` before any later item of `r`. */
  lemma HeadSeenFirst<T>(r: seq<T>, s: seq<T>, y: T, k: int)
    requires |r| > 0 && FirstSeenOrder(r, s)
    requires y in r[1..] && 0 <= k < |s| && s[k] == y
    ensures r[0] in s[..k]
  {
    var j :| 0 <= j < |r[1..]| && r[1..][j] == y;
    assert r[1 + j] == y;
  }

  /** Putting an item that occurs earlier than all of `rest` in front of
      it keeps first-seen order. */
  lemma ConsKeepsOrder<T>(x: T, rest: seq<T>, s: seq<T>)
    requires FirstSeenOrder(rest, s)
    requires forall j, k :: 0 <= j < |rest| && 0 <= k < |s| && s[k] == rest[j] ==> x in s[..k]
    ensures FirstSeenOrder([x] + rest, s)
  {
    var q := [x] + rest;
    forall i, j, k | 0 <= i < j < |q| && 0 <= k < |s| && s[k] == q[j]
      ensures q[i] in s[..k]
    {
      assert q[j] == rest[j - 1];
      if i > 0 {
        assert q[i] == rest[i - 1];
      }
    }
  }

  /** Filtering keeps first-seen order. */
  lemma {:induction false} FilterKeepsOrder<T>(r: seq<T>, s: seq<T>, f: T -> bool)
    requires FirstSeenOrder(r, s)
    ensures FirstSeenOrder(Filter(r, f), s)
  {
    if |r| > 0 {
      FirstSeenOrderOfTail(r, s);
      FilterKeepsOrder(r[1..], s, f);
      var rest := Filter(r[1..], f);
      if f(r[0]) {
        forall j, k | 0 <= j < |rest| && 0 <= k < |s| && s[k] == rest[j]
          ensures r[0] in s[..k]
        {
          HeadSeenFirst(r, s, rest[j], k);
        }
        ConsKeepsOrder(r[0], rest, s);
        assert Filter(r, f) == [r[0]] + rest;
      } else {
        assert Filter(r, f) == rest;
      }
    }
  }

  /** Filtering keeps distinctness. */
  lemma {:induction false} FilterKeepsDistinct<T>(r: seq<T>, f: T -> bool)
    requires NoDuplicates(r)
    ensures NoDuplicates(Filter(r, f))
  {
    if |r| > 0 {
      FilterKeepsDistinct(r[1..], f);
      var rest := Filter(r[1..], f);
      if f(r[0]) {
        var q := [r[0]] + rest;
        assert Filter(r, f) == q;
        forall i, j | 0 <= i < j < |q|
          ensures q[i] != q[j]
        {
          assert q[j] == rest[j - 1];
          if i == 0 {
            assert q[j] in r[1..];
            var j' :| 0 <= j' < |r[1..]| && r[1..][j'] == q[j];
            assert r[0] != r[1 + j'];
          } else {
            assert q[i] == rest[i - 1];
          }
        }
      }
    }
  }

  /** A weaker filter keeps at least as many items. */
  lemma {:induction false} FilterMonotone<T>(s: seq<T>, f: T -> bool, g: T -> bool)
    requires forall i :: 0 <= i < |s| && f(s[i]) ==> g(s[i])
    ensures |Filter(s, f)| <= |Filter(s, g)|
  {
    if |s| > 0 {
      assert forall i :: 0 <= i < |s[1..]| ==> s[1..][i] == s[i + 1];
      FilterMonotone(s[1..], f, g);
    }
  }

  /** Number of times `x` occurs in `s`: the value a counting `dict`
      filled by iterating over `s` holds for `x`. */
  function Freq<T(==)>(s: seq<T>, x: T): nat {
    multiset(s)[x]
  }

  /** Filtering keeps the count of every item it keeps. */
  lemma {:induction false} FreqFilter<T>(s: seq<T>, f: T -> bool, x: T)
    requires f(x)
    ensures Freq(Filter(s, f), x) == Freq(s, x)
  {
    if |s| > 0 {
      FreqFilter(s[1..], f, x);
      assert s == [s[0]] + s[1..];
      assert Filter(s, f) == (if f(s[0]) then [s[0]] else []) + Filter(s[1..], f);
    }
  }

  /** The index of the first item satisfying `p`, or `|s|` when none does:
      a `for` loop that stops at its first hit. */
  function FirstIndex<T>(s: seq<T>, p: T -> bool): (k: nat)
    ensures k <= |s|
    ensures k < |s| ==> p(s[k])
    ensures forall j :: 0 <= j < k ==> !p(s[j])
  {
    if |s| == 0 || p(s[0]) then 0 else 1 + FirstIndex(s[1..], p)
  }

  // ---------------------------------------------------------------------
  // Ordered rule lists
  // ---------------------------------------------------------------------

  /** One rule of an ordered rule list: whether it fires, and its message. */
  datatype Rule<M> = Rule(fires: bool, message: M)

  function Messages<M>(rules: seq<Rule<M>>): (ms: seq<M>)
    ensures |ms| == |rules|
    ensures forall i :: 0 <= i < |rules| ==> ms[i] == rules[i].message
  {
    if |rules| == 0 then [] else [rules[0].message] + Messages(rules[1..])
  }

  /** `r` is `s` with some items left out, the rest kept in order. */
  predicate IsSubsequence<T(==)>(r: seq<T>, s: seq<T>)
    decreases |s|
  {
    if |r| == 0 then true
    else if |s| == 0 then false
    else if r[0] == s[0] then IsSubsequence(r[1..], s[1..])
    else IsSubsequence(r, s[1..])
  }

  lemma {:induction false} SubsequenceCons<T>(r: seq<T>, x: T, s: seq<T>)
    requires IsSubsequence(r, s)
    ensures IsSubsequence(r, [x] + s)
    decreases |s|, 1
  {
    if |r| > 0 {
      assert ([x] + s)[1..] == s;
      if r[0] == x {
        SubsequenceOfTail(r, s);
      }
    }
  }

  lemma {:induction false} SubsequenceOfTail<T>(r: seq<T>, s: seq<T>)
    requires |r| > 0 && IsSubsequence(r, s)
    ensures IsSubsequence(r[1..], s)
    decreases |s|, 0
  {
    if r[0] == s[0] {
      if |r[1..]| > 0 {
        SubsequenceCons(r[1..], s[0], s[1..]);
        assert [s[0]] + s[1..] == s;
      }
    } else {
      SubsequenceOfTail(r, s[1..]);
      if |r[1..]| > 0 {
        SubsequenceCons(r[1..], s[0], s[1..]);
        assert [s[0]] + s[1..] == s;
      }
    }
  }

  /** The messages of the rules that fire, in rule order. */
  function Fired<M(==)>(rules: seq<Rule<M>>): (ms: seq<M>)
    ensures |ms| <= |rules|
    ensures IsSubsequence(ms, Messages(rules))
    ensures forall i :: 0 <= i < |rules| && rules[i].fires ==> rules[i].message in ms
    ensures forall k :: 0 <= k < |ms| ==> ms[k] in Messages(rules)
  {
    if |rules| == 0 then []
    else
      var rest := Fired(rules[1..]);
      assert Messages(rules)[1..] == Messages(rules[1..]);
      assert forall i :: 1 <= i < |rules| ==> rules[i] == rules[1..][i - 1];
      if rules[0].fires then [rules[0].message] + rest
      else
        SubsequenceCons(rest, rules[0].message, Messages(rules[1..]));
        rest
  }

  /** With distinct messages, a rule's message is emitted exactly when the rule fires. */
  lemma {:induction false} FiredMember<M>(rules: seq<Rule<M>>, i: int)
    requires NoDuplicates(Messages(rules)) && 0 <= i < |rules|
    ensures rules[i].message in Fired(rules) <==> rules[i].fires
  {
    if !rules[i].fires {
      var ms := Messages(rules);
      var rest := Fired(rules[1..]);
      assert Messages(rules[1..]) == ms[1..];
      if i > 0 {
        assert rules[1..][i - 1] == rules[i];
        FiredMember(rules[1..], i - 1);
        assert ms[0] != ms[i];
      }
    }
  }

  /** Only the rules' own messages are emitted. */
  lemma FiredOnlyMessages<M>(rules: seq<Rule<M>>, m: M)
    requires m !in Messages(rules)
    ensures m !in Fired(rules)
  {
  }

  /** Re-associating a slice that starts with its first item. */
  lemma ConsSlice<T>(s: seq<T>, i: nat, k: nat, x: seq<T>)
    requires i < k <= |s|
    ensures [s[i]] + (s[i + 1..k] + x) == s[i..k] + x
  {
    assert s[i..k] == [s[i]] + s[i + 1..k];
  }

  /** `[f(x) for x in xs]`. */
  function Map<A, B>(f: A -> B, xs: seq<A>): (ys: seq<B>)
    ensures |ys| == |xs|
    ensures forall i :: 0 <= i < |xs| ==> ys[i] == f(xs[i])
  {
    if |xs| == 0 then [] else [f(xs[0])] + Map(f, xs[1..])
  }

  lemma MapCons<A, B>(f: A -> B, xs: seq<A>)
    requires |xs| > 0
    ensures [f(xs[0])] + Map(f, xs[1..]) == Map(f, xs)
  {
  }

  lemma AppendAssoc<T>(a: seq<T>, x: T, b: seq<T>)
    ensures (a + [x]) + b == a + ([x] + b)
  {
  }

  /** Some rule of the list fires. */
  predicate AnyFires<M>(rules: seq<Rule<M>>) {
    exists i :: 0 <= i < |rules| && rules[i].fires
  }

  /** A rule list emits nothing exactly when no rule fires. */
  lemma FiredEmptyIff<M>(rules: seq<Rule<M>>)
    ensures |Fired(rules)| == 0 <==> !AnyFires(rules)
  {
    if AnyFires(rules) {
      var i :| 0 <= i < |rules| && rules[i].fires;
      assert rules[i].message in Fired(rules);
    }
  }

  /** Subsequences combine piecewise under concatenation. */
  lemma {:induction false} SubsequenceAppend<T>(a: seq<T>, b: seq<T>, c: seq<T>, d: seq<T>)
    requires IsSubsequence(a, b) && IsSubsequence(c, d)
    ensures IsSubsequence(a + c, b + d)
    decreases |b|
  {
    if |b| == 0 {
      assert a == [] && b + d == d && a + c == c;
    } else if |a| > 0 && a[0] == b[0] {
      SubsequenceAppend(a[1..], b[1..], c, d);
      assert (a + c)[1..] == a[1..] + c && (b + d)[1..] == b[1..] + d;
    } else {
      SubsequenceAppend(a, b[1..], c, d);
      assert (b + d)[1..] == b[1..] + d;
      if |a| == 0 {
        assert a + c == c;
        if |c| > 0 && c[0] == b[0] {
          SubsequenceCons(c, b[0], b[1..] + d);
          assert [b[0]] + (b[1..] + d) == b + d;
        }
      }
    }
  }
}
