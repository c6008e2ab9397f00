/** Concrete inputs on which the rewrite passes of cv_optimizer.py behave
    as the code is written rather than as a reader might expect: the
    header example of `_standardize_sections`, and one input each on which
    the phrase pass and the header pass are not idempotent.

    Each literal is passed in as a parameter (`requires s == "..."`), so
    that the verifier computes with it only as far as each small lemma
    asks. */
module Witnesses {
  import opened Text
  import opened Seqs
  import opened Patterns
  import opened Optimizer

  // ---------------------------------------------------------------------
  // Phrase groups
  // ---------------------------------------------------------------------

  /** The first group changes no text without the letters s, w and h. */
  lemma GroupAUnchanged(s: string, rules: seq<PhraseRule>)
    requires rules == PhrasesA
    requires Lacks(s, 's') && Lacks(s, 'w') && Lacks(s, 'h')
    ensures WellFormedRules(rules) && ImproveWith(s, rules) == s
  {
    PhraseImprovementsWellFormed();
    assert rules == PhraseImprovements[..3];
    forall i | 0 <= i < 3 ensures !ContainsCI(s, rules[i].weak) {
      if i == 0 { LacksNotContainsCI(s, rules[i].weak, 2); } else { LacksNotContainsCI(s, rules[i].weak, 0); }
    }
    ImproveUnchanged(s, rules);
  }

  /** The second group changes no text without the letters u, n and w. */
  lemma GroupBUnchanged(s: string, rules: seq<PhraseRule>)
    requires rules == PhrasesB
    requires Lacks(s, 'u') && Lacks(s, 'n') && Lacks(s, 'w')
    ensures WellFormedRules(rules) && ImproveWith(s, rules) == s
  {
    PhraseImprovementsWellFormed();
    assert rules == PhraseImprovements[3..6];
    forall i | 0 <= i < 3 ensures !ContainsCI(s, rules[i].weak) {
      if i < 2 { LacksNotContainsCI(s, rules[i].weak, 1); } else { LacksNotContainsCI(s, rules[i].weak, 0); }
    }
    ImproveUnchanged(s, rules);
  }

  /** The third group: "did", "made" and "got" with their first alternatives. */
  lemma GroupCShape(rules: seq<PhraseRule>)
    requires rules == PhrasesC
    ensures |rules| == 3 && WellFormedRules(rules)
    ensures rules[0].weak == "did" && rules[0].strong[0] == "performed"
    ensures rules[1].weak == "made" && rules[1].strong[0] == "created"
    ensures rules[2].weak == "got"
  {
  }

  /** A three-rule list is three steps. */
  lemma ImproveThree(s: string, rules: seq<PhraseRule>, t1: string, t2: string, t3: string)
    requires |rules| == 3 && WellFormedRules(rules)
    requires ImproveStep(s, rules[0]) == t1 && ImproveStep(t1, rules[1]) == t2 && ImproveStep(t2, rules[2]) == t3
    ensures ImproveWith(s, rules) == t3
  {
    assert rules[1..][0] == rules[1] && rules[1..][1..] == rules[2..];
    assert rules[2..][0] == rules[2] && rules[2..][1..] == [];
    calc {
      ImproveWith(s, rules);
      ImproveWith(t1, rules[1..]);
      ImproveWith(t2, rules[2..]);
      ImproveWith(t3, []);
    }
  }

  /** The catalog is the three groups applied one after the other. */
  lemma ImproveByGroups(s: string, t: string)
    requires WellFormedRules(PhrasesA) && WellFormedRules(PhrasesB) && WellFormedRules(PhrasesC)
    requires ImproveWith(s, PhrasesA) == s && ImproveWith(s, PhrasesB) == s && ImproveWith(s, PhrasesC) == t
    ensures ImproveWeakPhrases(s) == t
  {
    PhraseImprovementsWellFormed();
    ImproveAppend(s, PhrasesA, PhrasesB);
    ImproveAppend(s, PhrasesA + PhrasesB, PhrasesC);
  }

  // ---------------------------------------------------------------------
  // The whole rewrite: "madeid", "createdid", "createperformed"
  // ---------------------------------------------------------------------

  lemma MadeidLetters(s: string)
    requires s == "madeid"
    ensures Lacks(s, 's') && Lacks(s, 'w') && Lacks(s, 'h') && Lacks(s, 'u') && Lacks(s, 'n')
  {
  }

  lemma CreatedidLetters(s: string)
    requires s == "createdid"
    ensures Lacks(s, 's') && Lacks(s, 'w') && Lacks(s, 'h') && Lacks(s, 'u') && Lacks(s, 'n')
  {
  }

  /** A lower-case rule whose first two letters never appear side by side
      in a lower-case text leaves the text alone. */
  lemma NoPairUnchanged(s: string, r: PhraseRule)
    requires WellFormedRule(r) && |r.weak| >= 2 && Lower(r.weak) == r.weak
    requires forall i :: 0 <= i < |s| ==> !IsUpperChar(s[i])
    requires forall i :: 0 <= i < |s| - 1 ==> s[i] != r.weak[0] || s[i + 1] != r.weak[1]
    ensures ImproveStep(s, r) == s
  {
    LowerOfLowercase(s);
    NotContainsByPair(s, r.weak);
  }

  /** "made" is replaced by "created". */
  lemma MadeidMade(s: string, r: PhraseRule)
    requires s == "madeid" && WellFormedRule(r) && r.weak == "made" && r.strong[0] == "created"
    ensures ImproveStep(s, r) == "createdid"
  {
    assert Lower("madeid") == "madeid";
    assert Lower("made") == "made";
    assert s[..4] == "made";
    assert ContainsCI(s, "made");
    assert ReplaceCI("id", "made", "created") == "id";
  }

  lemma MadeidGroupC(s: string, rules: seq<PhraseRule>)
    requires s == "madeid" && rules == PhrasesC
    ensures WellFormedRules(rules) && ImproveWith(s, rules) == "createdid"
  {
    GroupCShape(rules);
    assert Lower("did") == "did";
    NoPairUnchanged(s, rules[0]);
    MadeidMade(s, rules[1]);
    assert Lacks("createdid", 'g');
    ImproveLacking("createdid", rules[2], 0);
    ImproveThree(s, rules, s, "createdid", "createdid");
  }

  lemma CreatedidHasDid(s: string)
    requires s == "createdid"
    ensures ContainsCI(s, "did")
  {
    LowerOfLowercase(s);
    assert Lower("did") == "did";
    assert s[6..] == "did" && IsPrefix("did", s[6..]);
    ContainsOfSuffix(s, 6, "did");
  }

  lemma CreateNoMatchStart(a: string)
    requires a == "create"
    ensures NoMatchStart(a, "did")
  {
  }

  lemma ReplaceDidDid(s: string, r: string)
    requires s == "did" && r == "performed"
    ensures ReplaceCI(s, "did", r) == r
  {
    assert Lower(s[..3]) == Lower("did");
    assert s[3..] == "";
    assert ReplaceCI("", "did", r) == "";
  }

  lemma CreatedidReplaced(s: string)
    requires s == "createdid"
    ensures ReplaceCI(s, "did", "performed") == "createperformed"
  {
    CreateNoMatchStart("create");
    assert s == "create" + "did";
    ReplaceCISkipPrefix("create", "did", "did", "performed");
    ReplaceDidDid("did", "performed");
  }

  /** The replacement "created" + "id" spells "did", which the earlier rule now finds. */
  lemma CreatedidDid(s: string, r: PhraseRule)
    requires s == "createdid" && WellFormedRule(r) && r.weak == "did" && r.strong[0] == "performed"
    ensures ImproveStep(s, r) == "createperformed"
  {
    CreatedidHasDid(s);
    CreatedidReplaced(s);
    assert Replacement(r) == "performed";
  }

  /** "made" does not occur in "createperformed", which has no 'g'. */
  lemma PerformedUntouched(s: string, made: PhraseRule)
    requires s == "createperformed" && WellFormedRule(made) && made.weak == "made"
    ensures ImproveStep(s, made) == s && Lacks(s, 'g')
  {
    assert Lower("made") == "made";
    NoPairUnchanged(s, made);
  }

  lemma CreatedidGroupC(s: string, rules: seq<PhraseRule>)
    requires s == "createdid" && rules == PhrasesC
    ensures WellFormedRules(rules) && ImproveWith(s, rules) == "createperformed"
  {
    GroupCShape(rules);
    CreatedidDid(s, rules[0]);
    PerformedUntouched("createperformed", rules[1]);
    ImproveLacking("createperformed", rules[2], 0);
    ImproveThree(s, rules, "createperformed", "createperformed", "createperformed");
  }

  lemma FirstRound(s: string)
    requires s == "madeid"
    ensures ImproveWeakPhrases(s) == "createdid"
  {
    MadeidLetters(s);
    GroupAUnchanged(s, PhrasesA);
    GroupBUnchanged(s, PhrasesB);
    MadeidGroupC(s, PhrasesC);
    ImproveByGroups(s, "createdid");
  }

  lemma SecondRound(s: string)
    requires s == "createdid"
    ensures ImproveWeakPhrases(s) == "createperformed"
  {
    CreatedidLetters(s);
    GroupAUnchanged(s, PhrasesA);
    GroupBUnchanged(s, PhrasesB);
    CreatedidGroupC(s, PhrasesC);
    ImproveByGroups(s, "createperformed");
  }

  /** A plain lower-case word passes the clean-up pass unchanged. */
  lemma PlainWordClean(s: string)
    requires forall i :: 0 <= i < |s| ==> IsLowerChar(s[i])
    ensures CleanFormatting(s) == s
  {
    assert forall i :: 0 <= i < |s| ==> s[i] !in FancyBullets && s[i] != EmDash;
    assert Lacks(s, ' ') && Lacks(s, '\n');
    LacksNotContains(s, ' ', "  ", 0);
    LacksNotContains(s, '\n', "\n\n\n", 0);
    LowerOfLowercase(s);
    CleanFormattingFixpoint(s);
  }

  /** No header pattern matches a text without the letters b, h, j, s, u and y. */
  lemma StandardizeSectionsLacking(s: string)
    requires Lacks(s, 'b') && Lacks(s, 'h') && Lacks(s, 'j') && Lacks(s, 's') && Lacks(s, 'u') && Lacks(s, 'y')
    ensures StandardizeSections(s) == s
  {
    StandardizeLackingAll(s, SectionMappings, ['y', 'j', 's', 'u', 'b', 's', 'h', 's', 's', 'b']);
  }

  lemma WitnessLetters(s: string)
    requires s == "createdid" || s == "createperformed"
    ensures forall i :: 0 <= i < |s| ==> IsLowerChar(s[i])
    ensures Lacks(s, 'b') && Lacks(s, 'h') && Lacks(s, 'j') && Lacks(s, 's') && Lacks(s, 'u') && Lacks(s, 'y')
  {
  }

  /** A rewrite whose phrase pass yields a plain lower-case word without
      any header letter returns that word. */
  lemma RoundOfPlainWord(s: string, t: string)
    requires ImproveWeakPhrases(s) == t
    requires forall i :: 0 <= i < |t| ==> IsLowerChar(t[i])
    requires Lacks(t, 'b') && Lacks(t, 'h') && Lacks(t, 'j') && Lacks(t, 's') && Lacks(t, 'u') && Lacks(t, 'y')
    ensures OptimizeText(s, "", "") == t
  {
    StandardizeSectionsLacking(t);
    PlainWordClean(t);
  }

  /** `optimize_cv_text` is not idempotent: rewriting its own output can
      change it again. */
  lemma RewriteNotIdempotent(s: string)
    requires s == "madeid"
    ensures OptimizeText(s, "", "") == "createdid"
    ensures OptimizeText(OptimizeText(s, "", ""), "", "") == "createperformed"
  {
    FirstRound(s);
    WitnessLetters("createdid");
    RoundOfPlainWord(s, "createdid");
    SecondRound("createdid");
    WitnessLetters("createperformed");
    RoundOfPlainWord("createdid", "createperformed");
  }

  // ---------------------------------------------------------------------
  // Header examples
  // ---------------------------------------------------------------------

  lemma EmploymentMatch(s: string, r: HeaderRule)
    requires s == "Employment History" && r == HeaderRule("employment", "history", "WORK EXPERIENCE")
    ensures HeaderStep(s, r) == "WORK EXPERIENCE"
  {
    assert Lower(s[0..10]) == "employment";
    assert SpaceRunEnd(s, 10) == 11;
    assert Lower(s[11..18]) == "history";
    assert HeaderMatchLen(s, 0, "employment", "history") == 18;
    SubHeaderAtEnd(s, 0, "employment", "history", "WORK EXPERIENCE");
  }

  lemma WorkExperienceRest(s: string, rules: seq<HeaderRule>)
    requires s == "WORK EXPERIENCE" && rules == SectionMappings[1..]
    ensures StandardizeWith(s, rules) == s
  {
    var letters := ['j', 's', 'u', 'b', 's', 'h', 's', 's', 'b'];
    WorkExperienceLetters(s);
    RestRuleLetters(rules, letters);
    forall i | 0 <= i < |letters| ensures Lacks(s, letters[i]) {
      assert letters[i] in "jsubh";
    }
    StandardizeLackingAll(s, rules, letters);
  }

  lemma WorkExperienceLetters(s: string)
    requires s == "WORK EXPERIENCE"
    ensures Lacks(s, 'j') && Lacks(s, 's') && Lacks(s, 'u') && Lacks(s, 'b') && Lacks(s, 'h')
  {
  }

  /** Each of the later header rules has a letter of the given list. */
  lemma RestRuleLetters(rules: seq<HeaderRule>, letters: seq<char>)
    requires rules == SectionMappings[1..] && letters == ['j', 's', 'u', 'b', 's', 'h', 's', 's', 'b']
    ensures |letters| == |rules|
    ensures forall i :: 0 <= i < |rules| ==> letters[i] in rules[i].first || letters[i] in rules[i].second
  {
  }

  /** "Employment History" becomes "WORK EXPERIENCE". */
  lemma EmploymentHistoryExample(s: string)
    requires s == "Employment History"
    ensures StandardizeSections(s) == "WORK EXPERIENCE"
  {
    var rules := SectionMappings;
    assert rules == [rules[0]] + rules[1..];
    StandardizeAppend(s, [rules[0]], rules[1..]);
    StandardizeOne(s, rules[0]);
    EmploymentMatch(s, rules[0]);
    WorkExperienceRest("WORK EXPERIENCE", rules[1..]);
  }

  lemma CareerAboutLetters(s: string)
    requires s == "career about me"
    ensures Lacks(s, 'd') && Lacks(s, 'j') && Lacks(s, 's') && Lacks(s, 'y')
  {
  }

  lemma CareerAboutMatch(s: string)
    requires s == "career about me"
    ensures HeaderMatchLen(s, 7, "about", "me") == 8
    ensures forall j :: 0 <= j < 7 ==> HeaderMatchLen(s, j, "about", "me") == 0
  {
    assert Lower(s[7..12]) == "about";
    assert SpaceRunEnd(s, 12) == 13;
    assert Lower(s[13..15]) == "me";
    forall j | 0 <= j < 7 ensures HeaderMatchLen(s, j, "about", "me") == 0 {
      NoHeaderAt(s, j, "about", "me");
    }
  }

  lemma Round1Prefix(s: string, rules: seq<HeaderRule>)
    requires s == "career about me" && rules == SectionMappings[..9]
    ensures StandardizeWith(s, rules) == s
  {
    CareerAboutLetters(s);
    StandardizeLackingAll(s, rules, ['y', 'j', 's', 'd', 'd', 's', 's', 's', 's']);
  }

  lemma Round1Last(s: string, r: HeaderRule)
    requires s == "career about me" && r == HeaderRule("about", "me", "SUMMARY")
    ensures HeaderStep(s, r) == "career SUMMARY"
  {
    CareerAboutMatch(s);
    SubHeaderAtEnd(s, 7, "about", "me", "SUMMARY");
    assert s[..7] + "SUMMARY" == "career SUMMARY";
  }

  lemma HeaderRound1(s: string, rules: seq<HeaderRule>)
    requires s == "career about me" && rules == SectionMappings
    ensures StandardizeWith(s, rules) == "career SUMMARY"
  {
    assert rules == rules[..9] + [rules[9]];
    StandardizeAppend(s, rules[..9], [rules[9]]);
    Round1Prefix(s, rules[..9]);
    StandardizeOne(s, rules[9]);
    Round1Last(s, rules[9]);
  }

  lemma Round2Prefix(s: string, rules: seq<HeaderRule>)
    requires s == "career SUMMARY" && rules == SectionMappings[..8]
    ensures StandardizeWith(s, rules) == s
  {
    var letters := ['p', 'j', 'p', 'd', 'd', 'o', 'h', 'p'];
    CareerSummaryLetters(s);
    FirstRuleLetters(rules, letters);
    forall i | 0 <= i < |letters| ensures Lacks(s, letters[i]) {
      assert letters[i] in "pjdoh";
    }
    StandardizeLackingAll(s, rules, letters);
  }

  lemma CareerSummaryLetters(s: string)
    requires s == "career SUMMARY"
    ensures Lacks(s, 'p') && Lacks(s, 'j') && Lacks(s, 'd') && Lacks(s, 'o') && Lacks(s, 'h')
  {
  }

  /** Each of the first eight header rules has a letter of the given list. */
  lemma FirstRuleLetters(rules: seq<HeaderRule>, letters: seq<char>)
    requires rules == SectionMappings[..8] && letters == ['p', 'j', 'p', 'd', 'd', 'o', 'h', 'p']
    ensures |letters| == |rules|
    ensures forall i :: 0 <= i < |rules| ==> letters[i] in rules[i].first || letters[i] in rules[i].second
  {
  }

  /** "career SUMMARY" now matches `\bcareer\s+summary\b` as a whole. */
  lemma Round2Match(s: string, r: HeaderRule)
    requires s == "career SUMMARY" && r == HeaderRule("career", "summary", "SUMMARY")
    ensures HeaderStep(s, r) == "SUMMARY"
  {
    assert Lower(s[0..6]) == "career";
    assert SpaceRunEnd(s, 6) == 7;
    assert Lower(s[7..14]) == "summary";
    assert HeaderMatchLen(s, 0, "career", "summary") == 14;
    SubHeaderAtEnd(s, 0, "career", "summary", "SUMMARY");
  }

  lemma Round2Last(s: string, r: HeaderRule)
    requires s == "SUMMARY" && r == HeaderRule("about", "me", "SUMMARY")
    ensures HeaderStep(s, r) == s
  {
    assert Lacks(s, 'b');
    HeaderLacking(s, r, 'b');
    HeaderStepEffect(s, r);
  }

  lemma HeaderRound2(s: string, rules: seq<HeaderRule>)
    requires s == "career SUMMARY" && rules == SectionMappings
    ensures StandardizeWith(s, rules) == "SUMMARY"
  {
    assert rules == rules[..8] + ([rules[8]] + [rules[9]]);
    StandardizeAppend(s, rules[..8], [rules[8]] + [rules[9]]);
    Round2Prefix(s, rules[..8]);
    StandardizeAppend(s, [rules[8]], [rules[9]]);
    StandardizeOne(s, rules[8]);
    Round2Match(s, rules[8]);
    StandardizeOne("SUMMARY", rules[9]);
    Round2Last("SUMMARY", rules[9]);
  }

  /** `_standardize_sections` is not idempotent: a canonical header can
      complete a pattern that comes earlier in the list. */
  lemma HeaderRewriteNotIdempotent(s: string)
    requires s == "career about me"
    ensures StandardizeSections(s) == "career SUMMARY"
    ensures StandardizeSections(StandardizeSections(s)) == "SUMMARY"
  {
    HeaderRound1(s, SectionMappings);
    HeaderRound2("career SUMMARY", SectionMappings);
  }
}
