/** The rewrite engine, `CVOptimizer` of cv_optimizer.py: the three ordered
    passes of `optimize_cv_text` (weak phrases, section headers, character
    clean-up), keyword suggestion, the single-bullet and summary writers,
    and the job-description pass. */
module Optimizer {
  import opened Text
  import opened Seqs
  import opened Patterns

  // ---------------------------------------------------------------------
  // Weak phrases
  // ---------------------------------------------------------------------

  /** One entry of `PHRASE_IMPROVEMENTS`: a weak phrase and its stronger
      alternatives, the first of which is used for automatic rewriting. */
  datatype PhraseRule = PhraseRule(weak: string, strong: seq<string>)

  predicate WellFormedRule(r: PhraseRule) {
    |r.weak| > 0 && |r.strong| > 0
  }

  predicate WellFormedRules(rules: seq<PhraseRule>) {
    forall i :: 0 <= i < |rules| ==> WellFormedRule(rules[i])
  }

  /** `PHRASE_IMPROVEMENTS` in declaration order, the alternatives split at
      `|`, written in three groups of three. */
  const PhraseImprovements: seq<PhraseRule> := PhrasesA + PhrasesB + PhrasesC

  const PhrasesA: seq<PhraseRule> := [
    PhraseRule("responsible for", ["managed", "led", "oversaw", "directed"]),
    PhraseRule("worked on", ["developed", "implemented", "created", "built"]),
    PhraseRule("helped with", ["contributed to", "supported", "facilitated"])
  ]

  const PhrasesB: seq<PhraseRule> := [
    PhraseRule("duties included", ["key achievements included", "delivered"]),
    PhraseRule("involved in", ["participated in", "collaborated on", "executed"]),
    PhraseRule("was part of", ["contributed to", "served on", "member of"])
  ]

  const PhrasesC: seq<PhraseRule> := [
    PhraseRule("did", ["performed", "executed", "completed", "accomplished"]),
    PhraseRule("made", ["created", "developed", "produced", "generated"]),
    PhraseRule("got", ["achieved", "obtained", "secured", "acquired"])
  ]

  lemma PhraseImprovementsWellFormed()
    ensures WellFormedRules(PhraseImprovements)
  {
  }

  /** The replacement text: the first alternative, capitalised only when
      the catalog's own phrase starts with an upper-case letter. */
  function Replacement(r: PhraseRule): string
    requires WellFormedRule(r)
  {
    if IsUpperChar(r.weak[0]) then Capitalize(r.strong[0]) else r.strong[0]
  }

  /** One iteration of the loop in `_improve_weak_phrases`. */
  function ImproveStep(text: string, r: PhraseRule): string
    requires WellFormedRule(r)
  {
    if ContainsCI(text, r.weak) then ReplaceCI(text, r.weak, Replacement(r)) else text
  }

  /** `_improve_weak_phrases` with the given rule list, in list order. */
  function ImproveWith(text: string, rules: seq<PhraseRule>): string
    requires WellFormedRules(rules)
    decreases |rules|
  {
    if |rules| == 0 then text else ImproveWith(ImproveStep(text, rules[0]), rules[1..])
  }

  function ImproveWeakPhrases(text: string): string {
    PhraseImprovementsWellFormed();
    ImproveWith(text, PhraseImprovements)
  }

  /** The `pattern.search` guard changes nothing: without a match the
      substitution is the identity anyway. */
  lemma ImproveStepIsReplace(text: string, r: PhraseRule)
    requires WellFormedRule(r)
    ensures ImproveStep(text, r) == ReplaceCI(text, r.weak, Replacement(r))
  {
    if !ContainsCI(text, r.weak) {
      ReplaceCIAbsent(text, r.weak, Replacement(r));
    }
  }

  /** Each step trades every replaced occurrence of the weak phrase for
      the replacement, and changes the text exactly when the phrase occurs. */
  lemma ImproveStepLength(text: string, r: PhraseRule)
    requires WellFormedRule(r)
    ensures |ImproveStep(text, r)| == |text| + CountCI(text, r.weak) * (|Replacement(r)| - |r.weak|)
    ensures !ContainsCI(text, r.weak) ==> ImproveStep(text, r) == text
  {
    ImproveStepIsReplace(text, r);
    ReplaceCILength(text, r.weak, Replacement(r));
    CountCIPositive(text, r.weak);
  }

  /** A text in which no phrase of the list occurs is returned unchanged. */
  lemma {:induction false} ImproveUnchanged(text: string, rules: seq<PhraseRule>)
    requires WellFormedRules(rules)
    requires forall i :: 0 <= i < |rules| ==> !ContainsCI(text, rules[i].weak)
    ensures ImproveWith(text, rules) == text
  {
    if |rules| > 0 {
      assert ImproveStep(text, rules[0]) == text;
      assert forall i :: 0 <= i < |rules[1..]| ==> rules[1..][i] == rules[i + 1];
      ImproveUnchanged(text, rules[1..]);
    }
  }

  /** A phrase holding a letter the text lacks leaves the text alone. */
  lemma ImproveLacking(text: string, r: PhraseRule, j: nat)
    requires WellFormedRule(r) && j < |r.weak| && Lacks(text, LowerChar(r.weak[j]))
    ensures ImproveStep(text, r) == text
  {
    LacksNotContainsCI(text, r.weak, j);
  }

  /** Applying a rule list in two parts is applying it whole. */
  lemma {:induction false} ImproveAppend(text: string, a: seq<PhraseRule>, b: seq<PhraseRule>)
    requires WellFormedRules(a) && WellFormedRules(b)
    ensures WellFormedRules(a + b)
    ensures ImproveWith(text, a + b) == ImproveWith(ImproveWith(text, a), b)
    decreases |a|
  {
    if |a| > 0 {
      assert (a + b)[0] == a[0] && (a + b)[1..] == a[1..] + b;
      ImproveAppend(ImproveStep(text, a[0]), a[1..], b);
    } else {
      assert a + b == b;
    }
  }

  /** Every catalog phrase is lower-case, so the replacement is always the
      lower-case first alternative. */
  lemma CatalogReplacementsLowerCase(i: nat)
    requires i < |PhraseImprovements|
    ensures WellFormedRule(PhraseImprovements[i])
    ensures Replacement(PhraseImprovements[i]) == PhraseImprovements[i].strong[0]
  {
    PhraseImprovementsWellFormed();
    var r := PhraseImprovements[i];
    if i < 3 {
      assert r == PhrasesA[i];
    } else if i < 6 {
      assert r == PhrasesB[i - 3];
    } else {
      assert r == PhrasesC[i - 6];
    }
    assert !IsUpperChar(r.weak[0]);
  }

  // ---------------------------------------------------------------------
  // Section headers
  // ---------------------------------------------------------------------

  /** One entry of `section_mappings`: the pattern `\bfirst\s+second\b`
      (case-insensitive) and its canonical header. */
  datatype HeaderRule = HeaderRule(first: string, second: string, canonical: string)

  const SectionMappings: seq<HeaderRule> := [
    HeaderRule("employment", "history", "WORK EXPERIENCE"),
    HeaderRule("job", "history", "WORK EXPERIENCE"),
    HeaderRule("professional", "experience", "WORK EXPERIENCE"),
    HeaderRule("educational", "background", "EDUCATION"),
    HeaderRule("academic", "background", "EDUCATION"),
    HeaderRule("core", "competencies", "SKILLS"),
    HeaderRule("technical", "skills", "TECHNICAL SKILLS"),
    HeaderRule("professional", "summary", "SUMMARY"),
    HeaderRule("career", "summary", "SUMMARY"),
    HeaderRule("about", "me", "SUMMARY")
  ]

  /** `re.sub(pattern, standard, text, flags=re.IGNORECASE)`. */
  function HeaderStep(text: string, r: HeaderRule): string {
    SubHeader(text, 0, r.first, r.second, r.canonical)
  }

  /** The pattern of `r` matches somewhere in `text`. */
  predicate HeaderMatches(text: string, r: HeaderRule) {
    exists j :: 0 <= j < |text| && HeaderMatchLen(text, j, r.first, r.second) > 0
  }

  /** `_standardize_sections` with the given mappings, in list order. */
  function StandardizeWith(text: string, rules: seq<HeaderRule>): string
    decreases |rules|
  {
    if |rules| == 0 then text else StandardizeWith(HeaderStep(text, rules[0]), rules[1..])
  }

  function StandardizeSections(text: string): string {
    StandardizeWith(text, SectionMappings)
  }

  /** A step whose pattern matches puts the canonical header into the text;
      one whose pattern does not match leaves the text alone. */
  lemma HeaderStepEffect(text: string, r: HeaderRule)
    ensures HeaderMatches(text, r) ==> Contains(HeaderStep(text, r), r.canonical)
    ensures !HeaderMatches(text, r) ==> HeaderStep(text, r) == text
  {
    if HeaderMatches(text, r) {
      var j :| 0 <= j < |text| && HeaderMatchLen(text, j, r.first, r.second) > 0;
      SubHeaderInsertsName(text, 0, j, r.first, r.second, r.canonical);
    } else {
      SubHeaderNoMatch(text, 0, r.first, r.second, r.canonical);
    }
  }

  /** A text in which no header pattern of the list matches is returned
      unchanged. */
  lemma {:induction false} StandardizeUnchanged(text: string, rules: seq<HeaderRule>)
    requires forall i :: 0 <= i < |rules| ==> !HeaderMatches(text, rules[i])
    ensures StandardizeWith(text, rules) == text
  {
    if |rules| > 0 {
      HeaderStepEffect(text, rules[0]);
      assert forall i :: 0 <= i < |rules[1..]| ==> rules[1..][i] == rules[i + 1];
      StandardizeUnchanged(text, rules[1..]);
    }
  }

  /** A header pattern with a letter the text lacks does not match. */
  lemma HeaderLacking(text: string, r: HeaderRule, c: char)
    requires Lacks(text, c) && (c in r.first || c in r.second)
    ensures !HeaderMatches(text, r)
  {
  }

  /** A one-mapping list is one step. */
  lemma StandardizeOne(text: string, r: HeaderRule)
    ensures StandardizeWith(text, [r]) == HeaderStep(text, r)
  {
    assert [r][1..] == [];
  }

  /** Applying a mapping list in two parts is applying it whole. */
  lemma {:induction false} StandardizeAppend(text: string, a: seq<HeaderRule>, b: seq<HeaderRule>)
    ensures StandardizeWith(text, a + b) == StandardizeWith(StandardizeWith(text, a), b)
    decreases |a|
  {
    if |a| > 0 {
      assert (a + b)[0] == a[0] && (a + b)[1..] == a[1..] + b;
      StandardizeAppend(HeaderStep(text, a[0]), a[1..], b);
    } else {
      assert a + b == b;
    }
  }

  /** A text lacking, for every mapping, one of the letters of its pattern
      passes the mappings unchanged. */
  lemma StandardizeLackingAll(text: string, rules: seq<HeaderRule>, letters: seq<char>)
    requires |letters| == |rules|
    requires forall i :: 0 <= i < |rules| ==> Lacks(text, letters[i]) && (letters[i] in rules[i].first || letters[i] in rules[i].second)
    ensures StandardizeWith(text, rules) == text
  {
    forall i | 0 <= i < |rules| ensures !HeaderMatches(text, rules[i]) {
      HeaderLacking(text, rules[i], letters[i]);
    }
    StandardizeUnchanged(text, rules);
  }

  // ---------------------------------------------------------------------
  // Character clean-up
  // ---------------------------------------------------------------------

  /** The bullet class `[•●■▪▸►]`. */
  const FancyBullets: set<char> := {'•', '●', '■', '▪', '▸', '►'}

  const EmDash: char := '—'

  /** The two steps that remove glyphs: afterwards no bullet or em dash is
      left, and every other character is kept in place. */
  function RemoveGlyphs(text: string): (r: string)
    ensures |r| == |text|
    ensures forall i :: 0 <= i < |r| ==> r[i] !in FancyBullets && r[i] != EmDash
    ensures forall i :: 0 <= i < |r| ==> r[i] == (if text[i] in FancyBullets || text[i] == EmDash then '-' else text[i])
  {
    ReplaceChars(ReplaceChars(text, FancyBullets, '-'), {EmDash}, '-')
  }

  /** The two run-collapsing steps: afterwards no double space and no
      triple line break is left, and no character is introduced. */
  function CollapseBlanks(text: string): (r: string)
    ensures |r| <= |text|
    ensures forall x :: x in r ==> x in text
    ensures !Contains(r, "  ") && !Contains(r, "\n\n\n")
  {
    var spaces := CollapseRuns(text, ' ', 1);
    var r := CollapseRuns(spaces, '\n', 2);
    CollapseRunsBound(text, ' ', 1);
    assert Repeat(' ', 2) == "  ";
    CollapseRunsKeepsNoPair(spaces, '\n', 2, ' ');
    CollapseRunsBound(spaces, '\n', 2);
    assert Repeat('\n', 3) == "\n\n\n";
    r
  }

  /** `_clean_formatting`. The two quote classes of the source hold only
      the straight quote they substitute, so those two steps are written
      out but change nothing. No bullet glyph, em dash, double space or
      triple line break is left, and the text never grows. */
  function CleanFormatting(text: string): (r: string)
    ensures |r| <= |text|
    ensures forall i :: 0 <= i < |r| ==> r[i] !in FancyBullets && r[i] != EmDash
    ensures !Contains(r, "  ") && !Contains(r, "\n\n\n")
    ensures forall x :: x in r ==> x in text || x == '-'
  {
    var glyphs := RemoveGlyphs(text);
    ReplaceCharByItself(glyphs, '"');
    ReplaceCharByItself(glyphs, '\'');
    var quotes := ReplaceChars(ReplaceChars(glyphs, {'"'}, '"'), {'\''}, '\'');
    var r := CollapseBlanks(quotes);
    forall i | 0 <= i < |r|
      ensures r[i] !in FancyBullets && r[i] != EmDash
    {
      assert r[i] in glyphs;
    }
    forall x | x in r
      ensures x in text || x == '-'
    {
      var i :| 0 <= i < |glyphs| && glyphs[i] == x;
    }
    r
  }

  /** Clean-up leaves a text alone exactly when it has no bullet glyph, no
      em dash, no double space and no triple line break. */
  lemma CleanFormattingFixpoint(text: string)
    ensures CleanFormatting(text) == text <==>
      (forall i :: 0 <= i < |text| ==> text[i] !in FancyBullets && text[i] != EmDash) &&
      !Contains(text, "  ") && !Contains(text, "\n\n\n")
  {
    if (forall i :: 0 <= i < |text| ==> text[i] !in FancyBullets && text[i] != EmDash) &&
      !Contains(text, "  ") && !Contains(text, "\n\n\n")
    {
      ReplaceCharsAbsent(text, FancyBullets, '-');
      ReplaceCharsAbsent(text, {EmDash}, '-');
      ReplaceCharByItself(text, '"');
      ReplaceCharByItself(text, '\'');
      assert Repeat(' ', 2) == "  ";
      CollapseRunsIdentity(text, ' ', 1);
      assert Repeat('\n', 3) == "\n\n\n";
      CollapseRunsIdentity(text, '\n', 2);
    }
  }

  /** Clean-up is idempotent. */
  lemma CleanFormattingIdempotent(text: string)
    ensures CleanFormatting(CleanFormatting(text)) == CleanFormatting(text)
  {
    CleanFormattingFixpoint(CleanFormatting(text));
  }

  // ---------------------------------------------------------------------
  // The three passes
  // ---------------------------------------------------------------------

  /** `optimize_cv_text`: the role and industry are accepted and ignored. */
  function OptimizeText(cv: string, targetRole: string, industry: string): (r: string)
    ensures forall i :: 0 <= i < |r| ==> r[i] !in FancyBullets && r[i] != EmDash
    ensures !Contains(r, "  ") && !Contains(r, "\n\n\n")
  {
    CleanFormatting(StandardizeSections(ImproveWeakPhrases(cv)))
  }

  /** The clean-up pass of a second rewrite changes nothing: only the
      phrase and header passes can make a second rewrite differ. */
  lemma SecondRewriteCleanUp(cv: string)
    ensures var once := OptimizeText(cv, "", "");
      CleanFormatting(once) == once
  {
    CleanFormattingIdempotent(StandardizeSections(ImproveWeakPhrases(cv)));
  }

  // ---------------------------------------------------------------------
  // Keyword suggestion
  // ---------------------------------------------------------------------

  /** One entry of `INDUSTRY_KEYWORDS`: an industry name, looked for in the
      lower-cased industry argument, and the keywords it suggests. */
  datatype IndustryEntry = IndustryEntry(name: string, keywords: seq<string>)

  /** `INDUSTRY_KEYWORDS` in declaration order (the dict's iteration order). */
  const IndustryKeywords: seq<IndustryEntry> := [
    IndustryEntry("software", SoftwareKeywords),
    IndustryEntry("marketing", MarketingKeywords),
    IndustryEntry("finance", FinanceKeywords),
    IndustryEntry("healthcare", HealthcareKeywords),
    IndustryEntry("sales", SalesKeywords)
  ]

  const SoftwareKeywords: seq<string> := [
    "agile", "scrum", "ci/cd", "devops", "microservices",
    "cloud", "aws", "azure", "docker", "kubernetes",
    "git", "rest api", "database", "testing", "debugging"
  ]

  const MarketingKeywords: seq<string> := [
    "seo", "sem", "content marketing", "social media",
    "analytics", "campaign management", "brand strategy",
    "roi", "lead generation", "market research"
  ]

  const FinanceKeywords: seq<string> := [
    "financial analysis", "forecasting", "budgeting",
    "risk management", "compliance", "reporting",
    "excel", "financial modeling", "accounting", "audit"
  ]

  const HealthcareKeywords: seq<string> := [
    "patient care", "hipaa", "ehr", "clinical",
    "healthcare administration", "medical records",
    "regulatory compliance", "quality assurance"
  ]

  const SalesKeywords: seq<string> := [
    "revenue growth", "client acquisition", "pipeline management",
    "crm", "negotiation", "account management", "quota",
    "b2b", "b2c", "cold calling", "relationship building"
  ]

  const LeadershipKeywords: seq<string> := ["leadership", "mentoring", "team management"]

  const ManagementKeywords: seq<string> :=
    ["project management", "stakeholder management", "strategic planning"]

  const EngineeringKeywords: seq<string> := ["problem solving", "technical design", "code review"]

  /** Every industry has a non-empty name and keyword list. */
  lemma IndustryKeywordsNonEmpty()
    ensures forall i :: 0 <= i < |IndustryKeywords| ==>
      |IndustryKeywords[i].name| > 0 && |IndustryKeywords[i].keywords| > 0
  {
  }

  /** The entry's name occurs in the lower-cased industry argument. */
  predicate NamesIndustry(industry: string, e: IndustryEntry) {
    Contains(Lower(industry), e.name)
  }

  /** The entry at `i` is the first whose name occurs in `industry`. */
  predicate FirstNamedIndustry(industry: string, i: int) {
    && 0 <= i < |IndustryKeywords|
    && NamesIndustry(industry, IndustryKeywords[i])
    && forall j :: 0 <= j < i ==> !NamesIndustry(industry, IndustryKeywords[j])
  }

  /** The industry loop of `suggest_keywords`: the keywords of the first
      entry whose name occurs in the industry, and nothing else; none when
      no name occurs. */
  function IndustryMatch(industry: string): (r: seq<string>)
    ensures forall i :: FirstNamedIndustry(industry, i) ==> r == IndustryKeywords[i].keywords
    ensures (forall i :: 0 <= i < |IndustryKeywords| ==> !NamesIndustry(industry, IndustryKeywords[i])) ==> r == []
  {
    var k := FirstIndex(IndustryKeywords, (e: IndustryEntry) => NamesIndustry(industry, e));
    if k < |IndustryKeywords| then IndustryKeywords[k].keywords else []
  }

  /** The role flags of `suggest_keywords`, all false for an empty role. */
  predicate SeniorRole(role: string) {
    role != "" && (Contains(Lower(role), "senior") || Contains(Lower(role), "lead"))
  }

  predicate ManagerRole(role: string) {
    role != "" && Contains(Lower(role), "manager")
  }

  predicate EngineerRole(role: string) {
    role != "" && (Contains(Lower(role), "engineer") || Contains(Lower(role), "developer"))
  }

  function RoleKeywords(role: string): seq<string> {
    (if SeniorRole(role) then LeadershipKeywords else [])
    + (if ManagerRole(role) then ManagementKeywords else [])
    + (if EngineerRole(role) then EngineeringKeywords else [])
  }

  /** `suggest_keywords`. The source returns `list(set(...))`, whose order is
      unspecified, so the model returns the set. */
  function SuggestKeywords(industry: string, role: string): (r: set<string>)
    ensures forall i :: FirstNamedIndustry(industry, i) ==>
      forall k :: 0 <= k < |IndustryKeywords[i].keywords| ==> IndustryKeywords[i].keywords[k] in r
    ensures SeniorRole(role) ==> forall k :: 0 <= k < |LeadershipKeywords| ==> LeadershipKeywords[k] in r
    ensures ManagerRole(role) ==> forall k :: 0 <= k < |ManagementKeywords| ==> ManagementKeywords[k] in r
    ensures EngineerRole(role) ==> forall k :: 0 <= k < |EngineeringKeywords| ==> EngineeringKeywords[k] in r
    ensures forall w :: w in r ==>
      || (exists i :: FirstNamedIndustry(industry, i) && w in IndustryKeywords[i].keywords)
      || (SeniorRole(role) && w in LeadershipKeywords)
      || (ManagerRole(role) && w in ManagementKeywords)
      || (EngineerRole(role) && w in EngineeringKeywords)
    ensures r == {} <==>
      && (forall i :: 0 <= i < |IndustryKeywords| ==> !NamesIndustry(industry, IndustryKeywords[i]))
      && !SeniorRole(role) && !ManagerRole(role) && !EngineerRole(role)
  {
    var ind := IndustryMatch(industry);
    var k := FirstIndex(IndustryKeywords, (e: IndustryEntry) => NamesIndustry(industry, e));
    assert k < |IndustryKeywords| ==> FirstNamedIndustry(industry, k);
    IndustryKeywordsNonEmpty();
    var r := set w | w in ind + RoleKeywords(role);
    assert k < |IndustryKeywords| ==> ind[0] in r;
    assert SeniorRole(role) || ManagerRole(role) || EngineerRole(role) ==> RoleKeywords(role)[0] in r;
    r
  }

  /** An empty industry names no industry: only the role can add keywords. */
  lemma EmptyIndustryMatchesNothing(role: string)
    ensures IndustryMatch("") == []
    ensures SuggestKeywords("", role) == {} <==> !SeniorRole(role) && !ManagerRole(role) && !EngineerRole(role)
  {
    IndustryKeywordsNonEmpty();
    forall i | 0 <= i < |IndustryKeywords|
      ensures !NamesIndustry("", IndustryKeywords[i])
    {
      assert Lower("") == "";
    }
  }

  // ---------------------------------------------------------------------
  // Single achievements
  // ---------------------------------------------------------------------

  /** The text starts with the rule's weak phrase, ignoring case. */
  predicate StartsWithPhrase(text: string, r: PhraseRule) {
    IsPrefix(r.weak, Lower(text))
  }

  /** The position of the first rule whose phrase starts the text, or the
      number of rules when none does. */
  function LeadingPhrase(text: string, rules: seq<PhraseRule>): (k: nat)
    ensures k <= |rules|
    ensures k < |rules| ==> StartsWithPhrase(text, rules[k])
    ensures forall j :: 0 <= j < k ==> !StartsWithPhrase(text, rules[j])
  {
    FirstIndex(rules, (r: PhraseRule) => StartsWithPhrase(text, r))
  }

  /** The first three characters of a text. */
  function Stem(s: string): (char, char, char)
    requires |s| >= 3
  {
    (s[0], s[1], s[2])
  }

  /** The stems of the catalog phrases. */
  const PhraseStems: set<(char, char, char)> := {
    ('r', 'e', 's'), ('w', 'o', 'r'), ('h', 'e', 'l'),
    ('d', 'u', 't'), ('i', 'n', 'v'), ('w', 'a', 's'),
    ('d', 'i', 'd'), ('m', 'a', 'd'), ('g', 'o', 't')
  }

  /** The facts about a catalog entry that make the single-bullet rewrite
      stable: the phrase and the first alternative have at least three
      characters, the alternative is lower case, begins and ends with a
      letter, and does not begin with the stem of any catalog phrase. */
  predicate StableRule(r: PhraseRule) {
    && ShapeRule(r)
    && |r.weak| >= 3 && Stem(r.weak) in PhraseStems
    && |r.strong[0]| >= 3
    && (forall c :: 0 <= c < |r.strong[0]| ==> !IsUpperChar(r.strong[0][c]))
    && Stem(r.strong[0]) !in PhraseStems
  }

  /** The part of stability the rewrite itself needs: a non-empty phrase
      and a first alternative that begins and ends with a lower-case
      letter. */
  predicate ShapeRule(r: PhraseRule) {
    && |r.weak| > 0 && |r.strong| > 0 && |r.strong[0]| > 0
    && IsLowerChar(r.strong[0][0]) && IsLowerChar(r.strong[0][|r.strong[0]| - 1])
  }

  predicate ShapeRules(rules: seq<PhraseRule>) {
    forall i :: 0 <= i < |rules| ==> ShapeRule(rules[i])
  }

  lemma StableShapes(rules: seq<PhraseRule>)
    requires StableRules(rules)
    ensures ShapeRules(rules)
  {
    forall i | 0 <= i < |rules| ensures ShapeRule(rules[i]) {
      assert StableRule(rules[i]);
    }
  }

  lemma PhrasesAStable()
    ensures forall i :: 0 <= i < |PhrasesA| ==> StableRule(PhrasesA[i])
  {
    ResponsibleRuleStable();
    WorkedRuleStable();
    HelpedRuleStable();
  }

  lemma ResponsibleRuleStable()
    ensures StableRule(PhrasesA[0])
  {
  }

  lemma WorkedRuleStable()
    ensures StableRule(PhrasesA[1])
  {
  }

  lemma HelpedRuleStable()
    ensures StableRule(PhrasesA[2])
  {
  }

  /** The entry with the longest first alternative, on its own. */
  lemma DutiesRuleStable()
    ensures StableRule(PhrasesB[0])
  {
  }

  lemma InvolvedRuleStable()
    ensures StableRule(PhrasesB[1])
  {
  }

  lemma WasRuleStable()
    ensures StableRule(PhrasesB[2])
  {
  }

  lemma PhrasesBStable()
    ensures forall i :: 0 <= i < |PhrasesB| ==> StableRule(PhrasesB[i])
  {
    DutiesRuleStable();
    InvolvedRuleStable();
    WasRuleStable();
  }

  lemma PhrasesCStable()
    ensures forall i :: 0 <= i < |PhrasesC| ==> StableRule(PhrasesC[i])
  {
    assert StableRule(PhrasesC[0]) && StableRule(PhrasesC[1]) && StableRule(PhrasesC[2]);
  }

  lemma CatalogStable()
    ensures StableRules(PhraseImprovements)
  {
    PhrasesAStable();
    PhrasesBStable();
    PhrasesCStable();
    forall i | 0 <= i < |PhraseImprovements|
      ensures StableRule(PhraseImprovements[i])
    {
      if i < 3 {
        assert PhraseImprovements[i] == PhrasesA[i];
      } else if i < 6 {
        assert PhraseImprovements[i] == PhrasesB[i - 3];
      } else {
        assert PhraseImprovements[i] == PhrasesC[i - 6];
      }
    }
  }

  predicate StableRules(rules: seq<PhraseRule>) {
    forall i :: 0 <= i < |rules| ==> StableRule(rules[i])
  }

  /** Upper-cases the first character unless it already is upper case. */
  function UpperFirst(s: string): (r: string)
    ensures |r| == |s|
    ensures |s| > 0 ==> r[1..] == s[1..] && !IsLowerChar(r[0]) && (IsSpace(r[0]) <==> IsSpace(s[0]))
    ensures |s| > 0 && !IsLowerChar(s[0]) ==> r == s
    ensures |s| > 0 ==> (IsSpace(r[|r| - 1]) <==> IsSpace(s[|s| - 1]))
  {
    if |s| > 0 && !IsUpperChar(s[0]) then
      assert |s| > 1 ==> ([UpperChar(s[0])] + s[1..])[|s| - 1] == s[|s| - 1];
      assert !IsLowerChar(s[0]) ==> [UpperChar(s[0])] + s[1..] == s;
      [UpperChar(s[0])] + s[1..]
    else s
  }

  /** Upper-casing the first character is invisible after lower-casing. */
  lemma UpperFirstLower(s: string)
    ensures Lower(UpperFirst(s)) == Lower(s)
  {
    if |s| > 0 && !IsUpperChar(s[0]) {
      var r := UpperFirst(s);
      assert LowerChar(r[0]) == LowerChar(s[0]);
      forall i | 0 <= i < |s| ensures Lower(r)[i] == Lower(s)[i] {
        if i > 0 { assert r[i] == s[i]; }
      }
    }
  }

  /** A capitalised lower-case word followed by a tail that is empty or
      ends in a non-space starts with an upper-case letter and ends in a
      non-space. */
  lemma RewrittenShape(st: string, rest: string)
    requires |st| > 0 && IsLowerChar(st[0]) && IsLowerChar(st[|st| - 1])
    requires |rest| > 0 ==> !IsSpace(rest[|rest| - 1])
    ensures var m := Capitalize(st) + rest;
      |m| > 0 && IsUpperChar(m[0]) && !IsSpace(m[0]) && !IsSpace(m[|m| - 1])
  {
    var m := Capitalize(st) + rest;
    LetterNotSpace(m[0]);
    if |rest| == 0 {
      assert m[|m| - 1] == Capitalize(st)[|st| - 1];
    } else {
      assert m[|m| - 1] == rest[|rest| - 1];
    }
  }

  /** The rules after the first are well shaped too. */
  lemma ShapeRulesTail(rules: seq<PhraseRule>)
    requires |rules| > 0 && ShapeRules(rules)
    ensures ShapeRule(rules[0]) && ShapeRules(rules[1..])
  {
    assert forall i :: 0 <= i < |rules[1..]| ==> rules[1..][i] == rules[i + 1];
  }

  /** Past a rule whose phrase does not start the text, the search goes on
      with the rest of the rules. */
  lemma LeadingPhraseTail(text: string, rules: seq<PhraseRule>)
    requires |rules| > 0 && !StartsWithPhrase(text, rules[0])
    ensures LeadingPhrase(text, rules) == 1 + LeadingPhrase(text, rules[1..])
  {
  }

  /** The loop of `enhance_achievements` on a stripped text: the first rule
      whose phrase starts the text has the phrase replaced by its
      capitalised first alternative and the loop stops; without such a
      rule nothing changes. A rewritten text still neither starts nor ends
      with whitespace. */
  function RewriteLeadingPhrase(e: string, rules: seq<PhraseRule>): (m: string)
    requires ShapeRules(rules)
    requires |e| > 0 ==> !IsSpace(e[0]) && !IsSpace(e[|e| - 1])
    ensures |m| == 0 <==> |e| == 0
    ensures |m| > 0 ==> !IsSpace(m[0]) && !IsSpace(m[|m| - 1])
    decreases |rules|
  {
    if |rules| == 0 then e
    else
      ShapeRulesTail(rules);
      if StartsWithPhrase(e, rules[0]) then RewriteAt(e, rules[0])
      else RewriteLeadingPhrase(e, rules[1..])
  }

  /** The phrase of `r`, which starts the text, replaced by the capitalised
      first alternative. */
  function RewriteAt(e: string, r: PhraseRule): (m: string)
    requires ShapeRule(r) && StartsWithPhrase(e, r)
    requires |e| > 0 ==> !IsSpace(e[0]) && !IsSpace(e[|e| - 1])
    ensures |r.weak| <= |e|
    ensures |m| > 0 && IsUpperChar(m[0]) && !IsSpace(m[0]) && !IsSpace(m[|m| - 1])
  {
    var rest := e[|r.weak|..];
    assert |rest| > 0 ==> rest[|rest| - 1] == e[|e| - 1];
    RewrittenShape(r.strong[0], rest);
    Capitalize(r.strong[0]) + rest
  }

  /** The loop rewrites exactly at the first rule whose phrase starts the
      text, and a rewritten text starts with an upper-case letter. */
  lemma {:induction false} RewriteLeadingPhraseEffect(e: string, rules: seq<PhraseRule>)
    requires ShapeRules(rules)
    requires |e| > 0 ==> !IsSpace(e[0]) && !IsSpace(e[|e| - 1])
    ensures var k := LeadingPhrase(e, rules); var m := RewriteLeadingPhrase(e, rules);
      && (k == |rules| ==> m == e)
      && (k < |rules| ==>
            (ShapeRule(rules[k]) && |rules[k].weak| <= |e|
             && m == Capitalize(rules[k].strong[0]) + e[|rules[k].weak|..]
             && IsUpperChar(m[0])))
    decreases |rules|
  {
    if |rules| > 0 {
      ShapeRulesTail(rules);
      if StartsWithPhrase(e, rules[0]) {
        assert LeadingPhrase(e, rules) == 0;
        assert RewriteLeadingPhrase(e, rules) == RewriteAt(e, rules[0]);
        assert RewriteAt(e, rules[0]) == Capitalize(rules[0].strong[0]) + e[|rules[0].weak|..];
      } else {
        LeadingPhraseTail(e, rules);
        RewriteLeadingPhraseEffect(e, rules[1..]);
        var k := LeadingPhrase(e, rules);
        assert RewriteLeadingPhrase(e, rules) == RewriteLeadingPhrase(e, rules[1..]);
        if k < |rules| {
          assert LeadingPhrase(e, rules[1..]) == k - 1;
          assert rules[1..][k - 1] == rules[k];
          assert RewriteLeadingPhrase(e, rules[1..]) == Capitalize(rules[k].strong[0]) + e[|rules[k].weak|..];
        }
      }
    }
  }

  /** `enhance_achievements` with the given rule list. */
  function EnhanceWith(text: string, rules: seq<PhraseRule>): (r: string)
    requires StableRules(rules)
    ensures |r| == 0 <==> |Strip(text)| == 0
    ensures |r| > 0 ==> !IsLowerChar(r[0]) && !IsSpace(r[0]) && !IsSpace(r[|r| - 1])
  {
    StableShapes(rules);
    UpperFirst(RewriteLeadingPhrase(Strip(text), rules))
  }

  /** Without a leading phrase only the case of the first letter can
      change; with one, the phrase is replaced by its capitalised first
      alternative and the rest of the stripped text is kept as it is. */
  lemma EnhanceWithEffect(text: string, rules: seq<PhraseRule>)
    requires StableRules(rules)
    ensures var e := Strip(text); var k := LeadingPhrase(e, rules); var r := EnhanceWith(text, rules);
      && (k == |rules| ==> Lower(r) == Lower(e))
      && (k < |rules| ==>
            (StableRule(rules[k]) && |rules[k].weak| <= |e|
             && r == Capitalize(rules[k].strong[0]) + e[|rules[k].weak|..]))
  {
    var e := Strip(text);
    StableShapes(rules);
    RewriteLeadingPhraseEffect(e, rules);
    UpperFirstLower(RewriteLeadingPhrase(e, rules));
  }

  /** Texts that agree after lower-casing start with the same phrases. */
  lemma SameLeadingPhrase(a: string, b: string, rules: seq<PhraseRule>)
    requires Lower(a) == Lower(b)
    ensures LeadingPhrase(a, rules) == LeadingPhrase(b, rules)
    decreases |rules|
  {
    if |rules| > 0 && !StartsWithPhrase(a, rules[0]) {
      LeadingPhraseTail(a, rules);
      LeadingPhraseTail(b, rules);
      SameLeadingPhrase(a, b, rules[1..]);
    }
  }

  /** A phrase whose stem differs from the text's stem is no prefix of it. */
  lemma StemDiffers(w: string, t: string)
    requires |w| >= 3 && |t| >= 3 && Stem(w) != Stem(t)
    ensures !IsPrefix(w, t)
  {
    if |w| <= |t| {
      var p := t[..|w|];
      assert p[0] == t[0] && p[1] == t[1] && p[2] == t[2];
      assert p[0] != w[0] || p[1] != w[1] || p[2] != w[2];
    }
  }

  /** No stable rule's phrase starts a text whose stem, lower-cased, is no
      phrase stem. */
  lemma NoPhraseStarts(m: string, rules: seq<PhraseRule>)
    requires StableRules(rules) && |m| >= 3 && Stem(Lower(m)) !in PhraseStems
    ensures LeadingPhrase(m, rules) == |rules|
  {
    forall j | 0 <= j < |rules|
      ensures !StartsWithPhrase(m, rules[j])
    {
      assert StableRule(rules[j]);
      StemDiffers(rules[j].weak, Lower(m));
    }
  }

  /** A capitalised first alternative, lower-cased, starts with its own stem. */
  lemma RewrittenStem(st: string, rest: string)
    requires |st| >= 3 && forall c :: 0 <= c < |st| ==> !IsUpperChar(st[c])
    ensures |Capitalize(st) + rest| >= 3 && Stem(Lower(Capitalize(st) + rest)) == Stem(st)
  {
    var s := Capitalize(st);
    LowerOfCapitalize(st);
    LowerOfLowercase(st);
    LowerAppend(s, rest);
  }

  /** No rule's phrase starts an enhanced text: a rewritten text starts
      with a first alternative, whose stem is no phrase's stem. */
  lemma EnhancedHasNoLeadingPhrase(text: string, rules: seq<PhraseRule>)
    requires StableRules(rules)
    ensures LeadingPhrase(EnhanceWith(text, rules), rules) == |rules|
  {
    var r := EnhanceWith(text, rules);
    var e := Strip(text);
    var k := LeadingPhrase(e, rules);
    EnhanceWithEffect(text, rules);
    if k == |rules| {
      SameLeadingPhrase(r, e, rules);
    } else {
      var st := rules[k].strong[0];
      RewrittenStem(st, e[|rules[k].weak|..]);
      NoPhraseStarts(r, rules);
    }
  }

  /** With stable rules, enhancing twice is enhancing once. */
  lemma EnhanceWithIdempotent(text: string, rules: seq<PhraseRule>)
    requires StableRules(rules)
    ensures EnhanceWith(EnhanceWith(text, rules), rules) == EnhanceWith(text, rules)
  {
    var r := EnhanceWith(text, rules);
    StripOfStripped(r);
    EnhancedHasNoLeadingPhrase(text, rules);
    StableShapes(rules);
    RewriteLeadingPhraseEffect(r, rules);
  }

  /** `enhance_achievements`: strip the text, rewrite at most one leading
      weak phrase (the first in catalog order) to its capitalised first
      alternative, then upper-case the first character. */
  function EnhanceAchievement(text: string): (r: string)
    ensures |r| == 0 <==> |Strip(text)| == 0
    ensures |r| > 0 ==> !IsLowerChar(r[0]) && !IsSpace(r[0]) && !IsSpace(r[|r| - 1])
    ensures LeadingPhrase(Strip(text), PhraseImprovements) == |PhraseImprovements| ==>
      Lower(r) == Lower(Strip(text))
    ensures var e := Strip(text); var k := LeadingPhrase(e, PhraseImprovements);
      k < |PhraseImprovements| ==>
        |PhraseImprovements[k].strong| > 0 && |PhraseImprovements[k].weak| <= |e|
        && r == Capitalize(PhraseImprovements[k].strong[0]) + e[|PhraseImprovements[k].weak|..]
  {
    CatalogStable();
    EnhanceWithEffect(text, PhraseImprovements);
    EnhanceWith(text, PhraseImprovements)
  }

  /** An enhanced achievement is enhanced already: no catalog phrase starts
      it, and its first character is upper case or not a letter. */
  lemma EnhanceIdempotent(text: string)
    ensures EnhanceAchievement(EnhanceAchievement(text)) == EnhanceAchievement(text)
  {
    CatalogStable();
    EnhanceWithIdempotent(text, PhraseImprovements);
  }

  // ---------------------------------------------------------------------
  // Summary and achievement writers
  // ---------------------------------------------------------------------

  /** The experience descriptors, least senior first. */
  const Descriptors: seq<string> := ["motivated", "experienced", "seasoned", "highly accomplished"]

  /** The years of experience at which the descriptor moves up a step. */
  const ExperienceThresholds: seq<int> := [2, 5, 10]

  /** The descriptor step: how many of the thresholds the years reach. */
  function ExperienceLevel(years: int): (k: nat)
    ensures k < |Descriptors|
    ensures k == |Filter(ExperienceThresholds, (t: int) => t <= years)|
  {
    if years < 2 then 0 else if years < 5 then 1 else if years < 10 then 2 else 3
  }

  function Descriptor(years: int): string {
    Descriptors[ExperienceLevel(years)]
  }

  /** The parts `generate_professional_summary` joins with spaces. */
  function SummaryParts(years: int, role: string, skills: seq<string>, achievements: seq<string>): seq<string> {
    [Capitalize(Descriptor(years)) + " " + role + " with " + IntToString(years) + "+ years of experience"]
    + (if |skills| > 0 then ["specializing in " + Join(", ", skills[..Min(4, |skills|)])] else [])
    + (if |achievements| > 0 then ["Proven track record of " + Lower(achievements[0])] else [])
  }

  /** `generate_professional_summary`: the descriptor sentence, the first
      four skills, the first achievement, and a closing full stop. */
  function ProfessionalSummary(years: int, role: string, skills: seq<string>, achievements: seq<string>): (r: string)
    ensures |r| > 0 && r[|r| - 1] == '.'
    ensures IsPrefix(Capitalize(Descriptor(years)) + " " + role + " with " + IntToString(years) + "+ years of experience", r)
    ensures forall i :: 0 <= i < Min(4, |skills|) ==> Contains(r, skills[i])
    ensures |achievements| > 0 ==> Contains(r, "Proven track record of " + Lower(achievements[0]))
  {
    SummaryMentions(years, role, skills, achievements);
    Join(" ", SummaryParts(years, role, skills, achievements)) + "."
  }

  lemma SummaryMentions(years: int, role: string, skills: seq<string>, achievements: seq<string>)
    ensures var parts := SummaryParts(years, role, skills, achievements);
      var r := Join(" ", parts) + ".";
      && IsPrefix(parts[0], r)
      && (forall i :: 0 <= i < Min(4, |skills|) ==> Contains(r, skills[i]))
      && (|achievements| > 0 ==> Contains(r, "Proven track record of " + Lower(achievements[0])))
  {
    var parts := SummaryParts(years, role, skills, achievements);
    SummaryPartsShape(years, role, skills, achievements);
    JoinedPartsMention(parts, skills, achievements);
  }

  /** The skills part comes second and the achievement part last. */
  lemma SummaryPartsShape(years: int, role: string, skills: seq<string>, achievements: seq<string>)
    ensures var parts := SummaryParts(years, role, skills, achievements);
      && |parts| > 0
      && (|skills| > 0 ==> |parts| > 1 && parts[1] == "specializing in " + Join(", ", skills[..Min(4, |skills|)]))
      && (|achievements| > 0 ==> parts[|parts| - 1] == "Proven track record of " + Lower(achievements[0]))
  {
    var head := [Capitalize(Descriptor(years)) + " " + role + " with " + IntToString(years) + "+ years of experience"];
    var mid := if |skills| > 0 then ["specializing in " + Join(", ", skills[..Min(4, |skills|)])] else [];
    var tail := if |achievements| > 0 then ["Proven track record of " + Lower(achievements[0])] else [];
    ThreeParts(head, mid, tail);
  }

  lemma ThreeParts(head: seq<string>, mid: seq<string>, tail: seq<string>)
    requires |head| == 1 && |mid| <= 1 && |tail| <= 1
    ensures var parts := head + mid + tail;
      && |parts| > 0 && parts[0] == head[0]
      && (|mid| > 0 ==> |parts| > 1 && parts[1] == mid[0])
      && (|tail| > 0 ==> parts[|parts| - 1] == tail[0])
  {
  }

  lemma JoinedPartsMention(parts: seq<string>, skills: seq<string>, achievements: seq<string>)
    requires |parts| > 0
    requires |skills| > 0 ==> |parts| > 1 && parts[1] == "specializing in " + Join(", ", skills[..Min(4, |skills|)])
    requires |achievements| > 0 ==> parts[|parts| - 1] == "Proven track record of " + Lower(achievements[0])
    ensures var r := Join(" ", parts) + ".";
      && IsPrefix(parts[0], r)
      && (forall i :: 0 <= i < Min(4, |skills|) ==> Contains(r, skills[i]))
      && (|achievements| > 0 ==> Contains(r, "Proven track record of " + Lower(achievements[0])))
  {
    SummaryStartsWithSentence(parts);
    if |skills| > 0 {
      SummaryListsSkills(parts, skills);
    }
    if |achievements| > 0 {
      JoinContains(" ", parts, |parts| - 1);
      ContainsInConcat(Join(" ", parts), ".", parts[|parts| - 1]);
    }
  }

  lemma SummaryStartsWithSentence(parts: seq<string>)
    requires |parts| > 0
    ensures IsPrefix(parts[0], Join(" ", parts) + ".")
  {
    var joined := Join(" ", parts);
    JoinPrefix(" ", parts);
    assert (joined + ".")[..|parts[0]|] == joined[..|parts[0]|];
  }

  lemma SummaryListsSkills(parts: seq<string>, skills: seq<string>)
    requires |skills| > 0 && |parts| > 1
    requires parts[1] == "specializing in " + Join(", ", skills[..Min(4, |skills|)])
    ensures forall i :: 0 <= i < Min(4, |skills|) ==> Contains(Join(" ", parts) + ".", skills[i])
  {
    var listed := skills[..Min(4, |skills|)];
    forall i | 0 <= i < |listed|
      ensures Contains(Join(" ", parts) + ".", skills[i])
    {
      ListedSkill(listed, i);
      assert listed[i] == skills[i];
      PartMentioned(parts, 1, skills[i]);
    }
  }

  /** A skill of the listed ones is mentioned in the skills part. */
  lemma ListedSkill(listed: seq<string>, i: nat)
    requires i < |listed|
    ensures Contains("specializing in " + Join(", ", listed), listed[i])
  {
    JoinContains(", ", listed, i);
    ContainsInConcat("specializing in ", Join(", ", listed), listed[i]);
  }

  /** What one part mentions, the joined summary mentions. */
  lemma PartMentioned(parts: seq<string>, k: nat, x: string)
    requires k < |parts| && Contains(parts[k], x)
    ensures Contains(Join(" ", parts) + ".", x)
  {
    JoinContains(" ", parts, k);
    ContainsInConcat(Join(" ", parts), ".", parts[k]);
    ContainsTrans(Join(" ", parts) + ".", parts[k], x);
  }

  /** Only the first four skills and the first achievement reach the summary. */
  lemma SummaryIgnoresTheRest(years: int, role: string, skills: seq<string>, achievements: seq<string>)
    ensures ProfessionalSummary(years, role, skills, achievements)
      == ProfessionalSummary(years, role, skills[..Min(4, |skills|)], achievements[..Min(1, |achievements|)])
  {
    var s4 := skills[..Min(4, |skills|)];
    var a1 := achievements[..Min(1, |achievements|)];
    assert s4[..Min(4, |s4|)] == s4;
    assert SummaryParts(years, role, skills, achievements) == SummaryParts(years, role, s4, a1);
  }

  /** `format_achievement_with_metrics`: the action-result sentence, with
      the metric in parentheses only when one is given. */
  function FormatAchievement(action: string, result: string, metric: string): (r: string)
    ensures IsPrefix(action + ", resulting in " + result, r)
    ensures |r| == |action| + |result| + 15 + (if metric == "" then 0 else |metric| + 3)
  {
    if metric != "" then action + ", resulting in " + result + " (" + metric + ")"
    else action + ", resulting in " + result
  }

  /** A metric adds exactly its parenthesised text to the sentence. */
  lemma FormatAchievementMetric(action: string, result: string, metric: string)
    requires metric != ""
    ensures FormatAchievement(action, result, metric) == FormatAchievement(action, result, "") + " (" + metric + ")"
  {
  }

  // ---------------------------------------------------------------------
  // Job description pass
  // ---------------------------------------------------------------------

  /** The words `optimize_for_job_description` does not count. */
  const StopWords: seq<string> := ["the", "and", "for", "with", "that", "this"]

  /** The lower-cased words of three or more letters of the job
      description that are not stop words, in order: the words the
      frequency table counts. */
  function CountedWords(jd: string): (ws: seq<string>)
    ensures forall i :: 0 <= i < |ws| ==> ws[i] !in StopWords
  {
    Filter(LowerEach(Tokens(jd)), (w: string) => w !in StopWords)
  }

  /** Leaving out the stop words changes no other word's count. */
  lemma CountedWordsFreq(jd: string, w: string)
    requires w !in StopWords
    ensures Freq(CountedWords(jd), w) == Freq(LowerEach(Tokens(jd)), w)
  {
    FreqFilter(LowerEach(Tokens(jd)), (x: string) => x !in StopWords, w);
  }

  /** A word the job description stresses: counted three or more times. */
  predicate Stressed(jd: string, w: string) {
    Freq(CountedWords(jd), w) >= 3
  }

  /** The important keywords: the keys of the frequency table with a count
      of three or more, in first-seen order. */
  function JobKeywords(jd: string): (ks: seq<string>)
    ensures NoDuplicates(ks) && FirstSeenOrder(ks, CountedWords(jd))
    ensures forall i :: 0 <= i < |ks| ==> ks[i] in CountedWords(jd) && Stressed(jd, ks[i])
    ensures forall i :: 0 <= i < |CountedWords(jd)| && Stressed(jd, CountedWords(jd)[i]) ==>
      CountedWords(jd)[i] in ks
  {
    var words := CountedWords(jd);
    var f := (w: string) => Stressed(jd, w);
    FilterKeepsOrder(Distinct(words), words, f);
    FilterKeepsDistinct(Distinct(words), f);
    Filter(Distinct(words), f)
  }

  /** The important keywords that do not occur in the lower-cased CV. */
  function MissingKeywords(cv: string, jd: string): (ms: seq<string>)
    ensures NoDuplicates(ms) && FirstSeenOrder(ms, CountedWords(jd))
    ensures forall i :: 0 <= i < |ms| ==>
      ms[i] in CountedWords(jd) && Stressed(jd, ms[i]) && !Contains(Lower(cv), ms[i])
    ensures forall i ::
      (0 <= i < |CountedWords(jd)| && Stressed(jd, CountedWords(jd)[i]) && !Contains(Lower(cv), CountedWords(jd)[i]))
      ==> CountedWords(jd)[i] in ms
  {
    var ks := JobKeywords(jd);
    var f := (w: string) => !Contains(Lower(cv), w);
    FilterKeepsOrder(ks, CountedWords(jd), f);
    FilterKeepsDistinct(ks, f);
    Filter(ks, f)
  }

  /** The one suggestion the job-description pass makes: the missing
      keywords it names. */
  datatype JobSuggestion = IncorporateKeywords(keywords: seq<string>)

  function JobSuggestionText(s: JobSuggestion): string {
    "Consider incorporating these keywords from the job description: " + Join(", ", s.keywords)
  }

  /** What `optimize_for_job_description` returns: the rewritten CV and the
      suggestions. */
  datatype JobOptimization = JobOptimization(text: string, suggestions: seq<JobSuggestion>)

  /** `optimize_for_job_description`: the CV gets the general rewrite, and
      at most one suggestion names up to ten stressed job-description words
      missing from the CV, those seen first. */
  function OptimizeForJob(cv: string, jd: string): (r: JobOptimization)
    ensures r.text == OptimizeText(cv, "", "")
    ensures |r.suggestions| <= 1
    ensures |r.suggestions| == 0 <==> AllStressedPresent(cv, jd)
    ensures |r.suggestions| == 1 ==> NamesFirstMissing(cv, jd, r.suggestions[0].keywords)
  {
    var ms := MissingKeywords(cv, jd);
    MissingKeywordsEmpty(cv, jd);
    if |ms| == 0 then
      JobOptimization(OptimizeText(cv, "", ""), [])
    else
      FirstMissingNamed(cv, jd, ms[..Min(10, |ms|)]);
      JobOptimization(OptimizeText(cv, "", ""), [IncorporateKeywords(ms[..Min(10, |ms|)])])
  }

  /** Every word the job description stresses occurs in the lower-cased CV. */
  predicate AllStressedPresent(cv: string, jd: string) {
    forall i :: 0 <= i < |CountedWords(jd)| && Stressed(jd, CountedWords(jd)[i]) ==>
      Contains(Lower(cv), CountedWords(jd)[i])
  }

  /** Nothing is missing exactly when every stressed word occurs in the CV. */
  lemma MissingKeywordsEmpty(cv: string, jd: string)
    ensures |MissingKeywords(cv, jd)| == 0 <==> AllStressedPresent(cv, jd)
  {
    var ms := MissingKeywords(cv, jd);
    var words := CountedWords(jd);
    if |ms| > 0 {
      assert ms[0] in words;
      var i :| 0 <= i < |words| && words[i] == ms[0];
      assert Stressed(jd, words[i]) && !Contains(Lower(cv), words[i]);
    }
  }

  /** `ks` names between one and ten distinct stressed words missing from
      the CV, in the order they first occur in the job description; every
      word it leaves out is missing-and-stressed only when ten are named,
      all first seen before it. */
  predicate NamesFirstMissing(cv: string, jd: string, ks: seq<string>) {
    var words := CountedWords(jd);
    && 0 < |ks| <= 10 && NoDuplicates(ks) && FirstSeenOrder(ks, words)
    && (forall k :: 0 <= k < |ks| ==> Stressed(jd, ks[k]) && !Contains(Lower(cv), ks[k]))
    && (forall i ::
          (0 <= i < |words| && Stressed(jd, words[i]) && !Contains(Lower(cv), words[i]) && words[i] !in ks)
          ==> |ks| == 10 && forall k :: 0 <= k < |ks| ==> ks[k] in words[..i])
  }

  /** The first ten missing keywords, or all of them when fewer, name the
      first missing words. */
  lemma FirstMissingNamed(cv: string, jd: string, ks: seq<string>)
    requires |MissingKeywords(cv, jd)| > 0
    requires ks == MissingKeywords(cv, jd)[..Min(10, |MissingKeywords(cv, jd)|)]
    ensures NamesFirstMissing(cv, jd, ks)
  {
    var ms := MissingKeywords(cv, jd);
    var words := CountedWords(jd);
    var m := Min(10, |ms|);
    assert forall k :: 0 <= k < |ks| ==> ks[k] == ms[k];
    forall i, j, k | 0 <= i < j < |ks| && 0 <= k < |words| && words[k] == ks[j]
      ensures ks[i] in words[..k]
    {
      assert ks[i] == ms[i] && ks[j] == ms[j];
    }
    forall i | 0 <= i < |words| && Stressed(jd, words[i]) && !Contains(Lower(cv), words[i]) && words[i] !in ks
      ensures |ks| == 10 && forall k :: 0 <= k < |ks| ==> ks[k] in words[..i]
    {
      assert words[i] in ms;
      var p :| 0 <= p < |ms| && ms[p] == words[i];
      forall k | 0 <= k < |ks|
        ensures ks[k] in words[..i]
      {
        assert ks[k] == ms[k];
      }
    }
  }
}
