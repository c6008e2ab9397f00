/** The scoring engine, `CVAnalyzer.analyze_cv` of cv_analyzer.py: five
    sub-scores (sections, keywords, formatting, action verbs,
    quantification), their weighted combination into an ATS score and an
    overall score, and three ordered rule lists (strengths, weaknesses,
    recommendations), each with its fixed messages.

    Scores are exact integers: where the source multiplies binary floats
    (`(found / 5) * 100`, `coverage * 100`, `density * 1000`, the weights
    0.4, 0.5 and 0.25) the model uses the exact rational value and Python's
    `int()` truncation. */
module Analyzer {
  import opened Text
  import opened Seqs
  import opened Patterns

  /** `CVAnalysisResult`. The keyword analysis is a `dict` in the source;
      here it is its list of items, in the dict's insertion order. Each
      message list holds one value per message; `IssueText`,
      `StrengthText`, `WeaknessText` and `RecommendationText` give the exact
      text the source emits for it. */
  datatype AnalysisResult = AnalysisResult(
    overallScore: int,
    atsScore: int,
    strengths: seq<Strength>,
    weaknesses: seq<Weakness>,
    recommendations: seq<Recommendation>,
    keywordAnalysis: seq<(string, nat)>,
    formattingIssues: seq<Issue>)

  // ---------------------------------------------------------------------
  // Catalogs
  // ---------------------------------------------------------------------

  const StandardSections: seq<string> := [
    "work experience", "professional experience", "employment history",
    "education", "skills", "technical skills", "certifications",
    "summary", "professional summary", "objective", "profile",
    "achievements", "accomplishments", "projects", "publications"
  ]

  const ActionVerbs: seq<string> := [
    "achieved", "implemented", "developed", "managed", "led", "created",
    "improved", "increased", "decreased", "optimized", "delivered",
    "designed", "built", "established", "launched", "spearheaded",
    "orchestrated", "transformed", "streamlined", "negotiated", "directed"
  ]

  /** The phrases whose overuse is a weakness. */
  const WeakPhrases: seq<string> := ["responsible for", "duties included", "worked on"]

  /** The sections whose joint presence is a strength. */
  const EssentialSections: seq<string> := ["experience", "education", "skills"]

  /** The character class `[•‣◦⁃∙]`. */
  predicate IsSpecialBullet(c: char) {
    c == '•' || c == '‣' || c == '◦' || c == '⁃' || c == '∙'
  }

  // ---------------------------------------------------------------------
  // Messages
  // ---------------------------------------------------------------------

  /** The formatting problems `_check_formatting` reports, in rule order. */
  datatype Issue = Pipe | SpecialBullets | NonAscii | Table | ColumnLines

  function IssueText(i: Issue): string {
    match i
    case Pipe => "Contains " + "pipe characters" + " which may confuse ATS systems"
    case SpecialBullets => "Contains " + "special bullet points" + " which may confuse ATS systems"
    case NonAscii => "Contains " + "non-ASCII characters" + " which may confuse ATS systems"
    case Table => "Possible table formatting detected - may not parse well in ATS"
    case ColumnLines => "Many short lines detected - possible column formatting issues"
  }

  /** The strengths `_identify_strengths` reports, in rule order, and its fallback. */
  datatype Strength = PercentUse | VerbUse | AllSections | GoodLength | StructurePresent

  function StrengthText(s: Strength): string {
    match s
    case PercentUse => "Good use of quantified achievements with percentages"
    case VerbUse => "Strong use of action verbs to describe responsibilities"
    case AllSections => "Contains all essential CV sections"
    case GoodLength => "Appropriate length - concise yet comprehensive"
    case StructurePresent => "CV structure is present"
  }

  /** The weaknesses `_identify_weaknesses` reports, in rule order, and its
      fallback; `FormattingConcerns` carries the number of issues. */
  datatype Weakness =
    | NoExperience | NoEducation | NoSkills | WeakPhrasing | TooShort | TooLong
    | FormattingConcerns(count: nat)
    | MinorImprovements

  // The texts are written as short pieces so that the verifier can read
  // off their letters.
  const NoExperienceText: string := "Missing " + "work experience section"
  const NoEducationText: string := "Missing " + "education section"
  const NoSkillsText: string := "Missing " + "skills section"
  const WeakPhrasingText: string := "Overuse of weak " + "phrases - use " + "stronger action verbs"
  const TooShortText: string := "CV is too short - " + "add more detail " + "about achievements"
  const TooLongText: string := "CV is too long - " + "focus on most " + "relevant information"
  const MinorImprovementsText: string := "Minor improvements " + "could be made"

  function WeaknessText(w: Weakness): string {
    match w
    case NoExperience => NoExperienceText
    case NoEducation => NoEducationText
    case NoSkills => NoSkillsText
    case WeakPhrasing => WeakPhrasingText
    case TooShort => TooShortText
    case TooLong => TooLongText
    case FormattingConcerns(n) => ConcernsPrefix + NatToString(n) + ConcernsSuffix
    case MinorImprovements => MinorImprovementsText
  }

  /** The advice `_generate_recommendations` gives, in rule order. */
  datatype Recommendation =
    | FixFormatting | AddSections | OptimizeKeywords | StrengthenImpact | AddQuantification | Tailor

  function RecommendationText(r: Recommendation): string {
    match r
    case FixFormatting =>
      "CRITICAL: Fix ATS formatting issues - use simple formatting, "
      + "standard fonts, and avoid tables/columns"
    case AddSections =>
      "Add all essential sections: Professional Summary, Work Experience, "
      + "Education, Skills, and relevant certifications"
    case OptimizeKeywords =>
      "Optimize keywords: Review the job description and naturally incorporate "
      + "relevant terms and skills throughout your CV"
    case StrengthenImpact =>
      "Strengthen impact: Replace weak phrases with strong action verbs "
      + "(e.g., 'managed', 'developed', 'achieved', 'implemented')"
    case AddQuantification =>
      "Add quantifiable achievements: Include specific numbers, percentages, "
      + "and metrics to demonstrate impact (e.g., 'Increased sales by 25%')"
    case Tailor =>
      "Tailor your CV: Customize it for each application to match the specific "
      + "job requirements and company culture"
  }

  // ---------------------------------------------------------------------
  // Integer arithmetic of the scores
  // ---------------------------------------------------------------------

  /** Python's `int(a / b)`: the quotient truncated toward zero. */
  function TruncDiv(a: int, b: int): (q: int)
    requires b > 0
    ensures a >= 0 ==> q * b <= a < q * b + b
    ensures a < 0 ==> q * b - b < a <= q * b
  {
    if a >= 0 then a / b else -((-a) / b)
  }

  lemma MulLe(x: int, y: int, b: int)
    requires x <= y && b >= 0
    ensures x * b <= y * b
  {
  }

  /** `k * a / b` stays within `[0, k]` when `a` is at most `b`. */
  lemma ScaledRatio(a: int, b: int, k: int)
    requires 0 <= a <= b && 0 < b && k >= 0
    ensures 0 <= k * a / b <= k
  {
    var q := k * a / b;
    assert k * a == q * b + (k * a) % b;
    MulLe(a, b, k);
    if q > k {
      MulLe(k + 1, q, b);
      assert false;
    }
    if q < 0 {
      MulLe(q, -1, b);
      assert false;
    }
  }

  /** A quotient reaches `m` exactly when the dividend reaches `m` times the divisor. */
  lemma DivThreshold(x: int, w: int, m: int)
    requires w > 0
    ensures x / w >= m <==> x >= m * w
  {
    var q := x / w;
    assert x == q * w + x % w;
    if q >= m {
      MulLe(m, q, w);
    } else {
      MulLe(q + 1, m, w);
    }
  }

  /** Sum of `text.count(p)` over the phrases. */
  function SumCounts(text: string, phrases: seq<string>): (n: nat)
  {
    if |phrases| == 0 then 0 else Count(text, phrases[0]) + SumCounts(text, phrases[1..])
  }

  /** The summed count is zero exactly when no (non-empty) phrase occurs. */
  lemma {:induction false} SumCountsZeroIff(text: string, phrases: seq<string>)
    requires forall i :: 0 <= i < |phrases| ==> |phrases[i]| > 0
    ensures SumCounts(text, phrases) == 0 <==> forall i :: 0 <= i < |phrases| ==> !Contains(text, phrases[i])
  {
    if |phrases| > 0 {
      CountPositiveIffContains(text, phrases[0]);
      SumCountsZeroIff(text, phrases[1..]);
      assert forall i :: 1 <= i < |phrases| ==> phrases[i] == phrases[1..][i - 1];
    }
  }

  // ---------------------------------------------------------------------
  // Sections
  // ---------------------------------------------------------------------

  /** The catalog sections that occur in the lower-cased text, in catalog order. */
  function FoundSections(cvLower: string): (found: seq<string>)
    ensures |found| <= |StandardSections|
  {
    Filter(StandardSections, (p: string) => Contains(cvLower, p))
  }

  /** The sections found are exactly the catalog sections the text contains. */
  lemma FoundSectionsExact(cvLower: string)
    ensures var found := FoundSections(cvLower);
      && (forall i :: 0 <= i < |found| ==> found[i] in StandardSections && Contains(cvLower, found[i]))
      && (forall i :: 0 <= i < |StandardSections| && Contains(cvLower, StandardSections[i]) ==> StandardSections[i] in found)
  {
    ContainsFilterExact(cvLower, StandardSections);
  }

  lemma ContainsFilterExact(x: string, ps: seq<string>)
    ensures var found := Filter(ps, (p: string) => Contains(x, p));
      && (forall i :: 0 <= i < |found| ==> found[i] in ps && Contains(x, found[i]))
      && (forall i :: 0 <= i < |ps| && Contains(x, ps[i]) ==> ps[i] in found)
  {
  }

  /** `_analyze_sections`: 20 points per catalog section found, at most 100. */
  function SectionScore(cvLower: string): (r: int)
    ensures 0 <= r <= 100
    ensures r == 100 <==> |FoundSections(cvLower)| >= 5
    ensures r < 100 ==> r == 20 * |FoundSections(cvLower)|
  {
    Min(100, 20 * |FoundSections(cvLower)|)
  }

  /** Adding text never lowers the section score. */
  lemma SectionScoreMonotone(a: string, b: string)
    ensures SectionScore(Lower(a)) <= SectionScore(Lower(a + b))
  {
    LowerAppendContains(a, b);
    SectionScoreGrow(Lower(a), Lower(a + b));
  }

  lemma SectionScoreGrow(x: string, y: string)
    requires forall p :: Contains(x, p) ==> Contains(y, p)
    ensures SectionScore(x) <= SectionScore(y)
  {
    FoundSectionsGrow(x, y);
  }

  /** Whatever the lower-cased text contains, the lower-cased longer text
      contains too. */
  lemma LowerAppendContains(a: string, b: string)
    ensures forall p :: Contains(Lower(a), p) ==> Contains(Lower(a + b), p)
  {
    LowerAppend(a, b);
    forall p | Contains(Lower(a), p)
      ensures Contains(Lower(a + b), p)
    {
      ContainsInConcat(Lower(a), Lower(b), p);
    }
  }

  /** A text containing every phrase another text contains finds at least
      as many sections. */
  lemma FoundSectionsGrow(x: string, y: string)
    requires forall p :: Contains(x, p) ==> Contains(y, p)
    ensures |FoundSections(x)| <= |FoundSections(y)|
  {
    ContainsFilterGrow(x, y, StandardSections);
  }

  lemma ContainsFilterGrow(x: string, y: string, ps: seq<string>)
    requires forall p :: Contains(x, p) ==> Contains(y, p)
    ensures |Filter(ps, (p: string) => Contains(x, p))| <= |Filter(ps, (p: string) => Contains(y, p))|
  {
    FilterMonotone(ps, (p: string) => Contains(x, p), (p: string) => Contains(y, p));
  }

  // ---------------------------------------------------------------------
  // Keywords
  // ---------------------------------------------------------------------

  /** `re.findall(r'\b[a-zA-Z]{3,}\b', job_description.lower())`. */
  function JobWords(jd: string): seq<string> {
    Tokens(Lower(jd))
  }

  /** The keys of `jd_word_freq` whose frequency exceeds 2, in first-seen order. */
  function ImportantWords(jd: string): (imp: seq<string>)
    ensures NoDuplicates(imp) && FirstSeenOrder(imp, JobWords(jd))
    ensures forall i :: 0 <= i < |imp| ==> imp[i] in JobWords(jd) && Freq(JobWords(jd), imp[i]) > 2
    ensures forall i :: 0 <= i < |JobWords(jd)| && Freq(JobWords(jd), JobWords(jd)[i]) > 2 ==> JobWords(jd)[i] in imp
  {
    var words := JobWords(jd);
    FilterKeepsOrder(Distinct(words), words, (w: string) => Freq(words, w) > 2);
    FilterKeepsDistinct(Distinct(words), (w: string) => Freq(words, w) > 2);
    Filter(Distinct(words), (w: string) => Freq(words, w) > 2)
  }

  /** The first components of an item list. */
  function Keys(items: seq<(string, nat)>): (ks: seq<string>)
    ensures |ks| == |items|
    ensures forall i :: 0 <= i < |items| ==> ks[i] == items[i].0
  {
    if |items| == 0 then [] else [items[0].0] + Keys(items[1..])
  }

  /** `{w: text.count(w) for w in ws}` as an item list. */
  function Tally(ws: seq<string>, text: string): (items: seq<(string, nat)>)
    ensures |items| == |ws|
    ensures forall i :: 0 <= i < |ws| ==> items[i] == (ws[i], Count(text, ws[i]))
  {
    if |ws| == 0 then [] else [(ws[0], Count(text, ws[0]))] + Tally(ws[1..], text)
  }

  /** Result of `_analyze_keywords`: the score and the keyword dict. */
  datatype KeywordReport = KeywordReport(score: int, found: seq<(string, nat)>)

  /** `_analyze_keywords`. */
  function AnalyzeKeywords(cv: string, jd: string): (k: KeywordReport)
    ensures 0 <= k.score <= 100
    ensures jd == "" ==> k.score == 50 && k.found == []
    ensures |ImportantWords(jd)| == 0 ==> k.score == 50 && k.found == []
    ensures jd != "" && |ImportantWords(jd)| > 0 ==>
      k.score == 100 * |k.found| / |ImportantWords(jd)|
    ensures NoDuplicates(Keys(k.found)) && FirstSeenOrder(Keys(k.found), JobWords(jd))
    ensures forall i :: 0 <= i < |k.found| ==>
      k.found[i].0 in ImportantWords(jd) && Contains(Lower(cv), k.found[i].0)
      && k.found[i].1 == Count(Lower(cv), k.found[i].0) && k.found[i].1 >= 1
    ensures jd != "" ==> forall i :: 0 <= i < |ImportantWords(jd)| && Contains(Lower(cv), ImportantWords(jd)[i]) ==>
      ImportantWords(jd)[i] in Keys(k.found)
  {
    if jd == "" then KeywordReport(50, [])
    else
      ImportantWordsLong(jd);
      KeywordsAmong(ImportantWords(jd), JobWords(jd), Lower(cv))
  }

  /** The keyword report for a list of important words, distinct and in
      first-seen order among `words`, against the lower-cased CV. */
  function KeywordsAmong(important: seq<string>, words: seq<string>, cvLower: string): (k: KeywordReport)
    requires NoDuplicates(important) && FirstSeenOrder(important, words)
    requires forall i :: 0 <= i < |important| ==> |important[i]| >= 3
    ensures 0 <= k.score <= 100
    ensures |important| == 0 ==> k.score == 50 && k.found == []
    ensures |important| > 0 ==> k.score == 100 * |k.found| / |important|
    ensures NoDuplicates(Keys(k.found)) && FirstSeenOrder(Keys(k.found), words)
    ensures forall i :: 0 <= i < |k.found| ==>
      k.found[i].0 in important && Contains(cvLower, k.found[i].0)
      && k.found[i].1 == Count(cvLower, k.found[i].0) && k.found[i].1 >= 1
    ensures forall i :: 0 <= i < |important| && Contains(cvLower, important[i]) ==>
      important[i] in Keys(k.found)
  {
    var keys := Filter(important, (w: string) => Contains(cvLower, w));
    KeysFound(important, words, cvLower);
    var found := Tally(keys, cvLower);
    KeysOfTally(keys, cvLower);
    var score := if |important| > 0 then 100 * |keys| / |important| else 50;
    assert 0 <= score <= 100 by {
      if |important| > 0 {
        ScaledRatio(|keys|, |important|, 100);
      }
    }
    KeywordReport(score, found)
  }

  /** Every important word is a token, so has at least three letters. */
  lemma ImportantWordsLong(jd: string)
    ensures forall i :: 0 <= i < |ImportantWords(jd)| ==> |ImportantWords(jd)[i]| >= 3
  {
    var imp := ImportantWords(jd);
    forall i | 0 <= i < |imp| ensures |imp[i]| >= 3 {
      var j :| 0 <= j < |JobWords(jd)| && JobWords(jd)[j] == imp[i];
    }
  }

  /** The words of a distinct, first-seen-ordered list that the text
      contains keep both properties and occur at least once. */
  lemma KeysFound(important: seq<string>, words: seq<string>, cvLower: string)
    requires NoDuplicates(important) && FirstSeenOrder(important, words)
    requires forall i :: 0 <= i < |important| ==> |important[i]| >= 3
    ensures var keys := Filter(important, (w: string) => Contains(cvLower, w));
      && NoDuplicates(keys) && FirstSeenOrder(keys, words)
      && forall i :: 0 <= i < |keys| ==> Count(cvLower, keys[i]) >= 1
  {
    var keys := Filter(important, (w: string) => Contains(cvLower, w));
    FilterKeepsOrder(important, words, (w: string) => Contains(cvLower, w));
    FilterKeepsDistinct(important, (w: string) => Contains(cvLower, w));
    forall i | 0 <= i < |keys| ensures Count(cvLower, keys[i]) >= 1 {
      CountPositiveIffContains(cvLower, keys[i]);
    }
  }

  lemma KeysOfTally(ws: seq<string>, text: string)
    ensures Keys(Tally(ws, text)) == ws
  {
  }

  // ---------------------------------------------------------------------
  // Formatting
  // ---------------------------------------------------------------------

  predicate HasSpecialBullet(cv: string) {
    exists i :: 0 <= i < |cv| && IsSpecialBullet(cv[i])
  }

  /** `re.search(r'[^\x00-\x7F]', cv)` finds a match. */
  predicate HasNonAscii(cv: string) {
    exists i :: 0 <= i < |cv| && cv[i] as int > 127
  }

  /** Number of lines whose stripped text has 1 to 19 characters. */
  function ShortLines(cv: string): (n: nat)
    ensures n <= |SplitOn(cv, '\n')|
  {
    |Filter(SplitOn(cv, '\n'), (line: string) => 0 < |Strip(line)| < 20)|
  }

  /** The short-lines rule: `short_lines > len(lines) * 0.3`. */
  predicate ManyShortLines(cv: string) {
    10 * ShortLines(cv) > 3 * |SplitOn(cv, '\n')|
  }

  const IssueOrder: seq<Issue> := [Pipe, SpecialBullets, NonAscii, Table, ColumnLines]

  /** The five formatting rules of `_check_formatting`, in order, given
      whether each fires. */
  function IssueRules(pipe: bool, bullet: bool, nonAscii: bool, table: bool, shortLines: bool): (rules: seq<Rule<Issue>>)
    ensures Messages(rules) == IssueOrder && NoDuplicates(IssueOrder)
    ensures |rules| == 5
    ensures rules[0].fires == pipe && rules[1].fires == bullet && rules[2].fires == nonAscii
    ensures rules[3].fires == table && rules[4].fires == shortLines
  {
    IssueOrderDistinct();
    var rules := [Rule(pipe, Pipe), Rule(bullet, SpecialBullets), Rule(nonAscii, NonAscii),
                  Rule(table, Table), Rule(shortLines, ColumnLines)];
    assert forall i :: 0 <= i < 5 ==> Messages(rules)[i] == IssueOrder[i];
    rules
  }

  lemma IssueOrderDistinct()
    ensures NoDuplicates(IssueOrder)
  {
    var o := IssueOrder;
    forall i, j | 0 <= i < j < |o| ensures o[i] != o[j] {
    }
  }

  /** `_check_formatting`: one issue per rule that fires, in rule order. */
  function CheckFormatting(cv: string): (issues: seq<Issue>)
    ensures |issues| <= 5
    ensures IsSubsequence(issues, IssueOrder)
    ensures Pipe in issues <==> '|' in cv
    ensures SpecialBullets in issues <==> HasSpecialBullet(cv)
    ensures NonAscii in issues <==> HasNonAscii(cv)
    ensures Table in issues <==> Count(cv, "\t") > 10
    ensures ColumnLines in issues <==> ManyShortLines(cv)
  {
    var rules := IssueRules('|' in cv, HasSpecialBullet(cv), HasNonAscii(cv), Count(cv, "\t") > 10, ManyShortLines(cv));
    FiredMember(rules, 0);
    FiredMember(rules, 1);
    FiredMember(rules, 2);
    FiredMember(rules, 3);
    FiredMember(rules, 4);
    Fired(rules)
  }

  /** Every special bullet is also a non-ASCII character, so the bullet
      issue never comes alone. */
  lemma BulletImpliesNonAscii(cv: string)
    ensures SpecialBullets in CheckFormatting(cv) ==> NonAscii in CheckFormatting(cv)
  {
    if HasSpecialBullet(cv) {
      var i :| 0 <= i < |cv| && IsSpecialBullet(cv[i]);
      assert cv[i] as int > 127;
    }
  }

  // ---------------------------------------------------------------------
  // Action verbs and quantification
  // ---------------------------------------------------------------------

  /** Sum of the substring counts of every catalog verb. */
  function VerbCount(cvLower: string): nat {
    SumCounts(cvLower, ActionVerbs)
  }

  /** `_analyze_action_verbs`: verb occurrences per word, times 1000, at most 100. */
  function ActionVerbScore(cvLower: string): (r: int)
    ensures 0 <= r <= 100
    ensures |Words(cvLower)| == 0 || VerbCount(cvLower) == 0 ==> r == 0
    ensures |Words(cvLower)| > 0 ==> (r == 100 <==> 10 * VerbCount(cvLower) >= |Words(cvLower)|)
    ensures |Words(cvLower)| > 0 && r < 100 ==>
      r * |Words(cvLower)| <= 1000 * VerbCount(cvLower) < (r + 1) * |Words(cvLower)|
  {
    var words := |Words(cvLower)|;
    if words > 0 then
      var c := VerbCount(cvLower);
      assert 10 * c >= words <==> 1000 * c / words >= 100 by {
        DivThreshold(1000 * c, words, 100);
      }
      Min(100, 1000 * c / words)
    else 0
  }

  /** A text containing none of the catalog verbs scores 0 for action verbs. */
  lemma NoVerbsScoresZero(cvLower: string)
    requires forall i :: 0 <= i < |ActionVerbs| ==> !Contains(cvLower, ActionVerbs[i])
    ensures ActionVerbScore(cvLower) == 0
  {
    SumCountsZeroIff(cvLower, ActionVerbs);
  }

  /** `_analyze_quantification`, as a function of the number of matches
      of `\b\d+[%\w]*\b`. */
  function QuantificationScore(matches: nat): (r: int)
    ensures r == 25 || r == 50 || r == 75 || r == 100
    ensures r == 100 <==> matches > 10
    ensures r == 25 <==> matches <= 2
    ensures 5 < matches <= 10 <==> r == 75
  {
    if matches > 10 then 100
    else if matches > 5 then 75
    else if matches > 2 then 50
    else 25
  }

  /** More numbers never lower the quantification score. */
  lemma QuantificationMonotone(a: nat, b: nat)
    requires a <= b
    ensures QuantificationScore(a) <= QuantificationScore(b)
  {
  }

  /** The quantification score of a text: 25 unless some number starts a word. */
  lemma QuantificationOfText(cv: string)
    ensures QuantificationScore(NumberTokens(cv)) > 25 ==> exists j :: NumberStartsAt(cv, j)
  {
    NumberTokensPositive(cv, 0);
  }

  // ---------------------------------------------------------------------
  // Combined scores
  // ---------------------------------------------------------------------

  /** `_calculate_ats_score`: 40% sections plus 40% keywords, minus 10 per
      formatting issue (at most 30), not below 0, truncated. */
  function AtsScore(sectionScore: int, issues: nat, keywordScore: int): (r: int)
    ensures r >= 0
    ensures 0 <= sectionScore <= 100 && 0 <= keywordScore <= 100 ==> r <= 80
    ensures issues >= 3 && sectionScore <= 100 && keywordScore <= 100 ==> r <= 50
    ensures var x := 4 * sectionScore + 4 * keywordScore - 10 * Min(30, 10 * issues);
      (x <= 0 ==> r == 0) && (x > 0 ==> 10 * r <= x < 10 * r + 10)
  {
    var deduction := Min(30, 10 * issues);
    TruncDiv(if 4 * sectionScore + 4 * keywordScore - 10 * deduction > 0
             then 4 * sectionScore + 4 * keywordScore - 10 * deduction else 0, 10)
  }

  /** More formatting issues never raise the ATS score. */
  lemma {:induction false} AtsScoreMonotone(s: int, k: int, m: nat, n: nat)
    requires m <= n
    ensures AtsScore(s, n, k) <= AtsScore(s, m, k)
  {
    var a := 4 * s + 4 * k - 10 * Min(30, 10 * m);
    var b := 4 * s + 4 * k - 10 * Min(30, 10 * n);
    assert b <= a;
    var a' := if a > 0 then a else 0;
    var b' := if b > 0 then b else 0;
    assert b' / 10 <= a' / 10;
  }

  /** `_calculate_overall_score`: 50% ATS, 25% verbs, 25% quantification, truncated. */
  function OverallScore(ats: int, verbs: int, quant: int): (r: int)
    ensures 0 <= ats <= 80 && 0 <= verbs <= 100 && 25 <= quant <= 100 ==> 6 <= r <= 90
    ensures 2 * ats + verbs + quant >= 0 ==> 4 * r <= 2 * ats + verbs + quant < 4 * r + 4
  {
    TruncDiv(2 * ats + verbs + quant, 4)
  }

  // ---------------------------------------------------------------------
  // Strengths
  // ---------------------------------------------------------------------

  predicate HasAllEssentialSections(cvLower: string) {
    forall i :: 0 <= i < |EssentialSections| ==> Contains(cvLower, EssentialSections[i])
  }

  const StrengthOrder: seq<Strength> := [PercentUse, VerbUse, AllSections, GoodLength]

  /** The four rules of `_identify_strengths`, in order, given whether each fires. */
  function StrengthRules(percent: bool, verbs: bool, sections: bool, length: bool): (rules: seq<Rule<Strength>>)
    ensures Messages(rules) == StrengthOrder && NoDuplicates(StrengthOrder)
    ensures |rules| == 4
    ensures rules[0].fires == percent && rules[1].fires == verbs
    ensures rules[2].fires == sections && rules[3].fires == length
  {
    [Rule(percent, PercentUse), Rule(verbs, VerbUse), Rule(sections, AllSections), Rule(length, GoodLength)]
  }

  /** `_identify_strengths`: the rules that fire, or the single fallback. */
  function IdentifyStrengths(cv: string): (r: seq<Strength>)
    ensures 1 <= |r| <= 4
    ensures r == [StructurePresent] || IsSubsequence(r, StrengthOrder)
    ensures PercentUse in r <==> PercentTokens(cv) > 3
    ensures VerbUse in r <==> VerbCount(Lower(cv)) > 10
    ensures AllSections in r <==> HasAllEssentialSections(Lower(cv))
    ensures GoodLength in r <==> 300 < |Words(cv)| < 800
    ensures StructurePresent in r <==>
      !(PercentTokens(cv) > 3 || VerbCount(Lower(cv)) > 10 || HasAllEssentialSections(Lower(cv)) || 300 < |Words(cv)| < 800)
  {
    var rules := StrengthRules(PercentTokens(cv) > 3, VerbCount(Lower(cv)) > 10,
                               HasAllEssentialSections(Lower(cv)), 300 < |Words(cv)| < 800);
    FiredMember(rules, 0);
    FiredMember(rules, 1);
    FiredMember(rules, 2);
    FiredMember(rules, 3);
    FiredEmptyIff(rules);
    var fired := Fired(rules);
    assert forall i :: 0 <= i < |fired| ==> fired[i] in StrengthOrder;
    if |fired| > 0 then fired else [StructurePresent]
  }

  // ---------------------------------------------------------------------
  // Weaknesses
  // ---------------------------------------------------------------------

  /** Some section named by a weakness is missing from the text. */
  predicate MissingSection(cvLower: string) {
    (!Contains(cvLower, "experience") && !Contains(cvLower, "employment"))
    || !Contains(cvLower, "education")
    || !Contains(cvLower, "skills")
  }

  function WeaknessOrder(n: nat): seq<Weakness> {
    [NoExperience, NoEducation, NoSkills, WeakPhrasing, TooShort, TooLong, FormattingConcerns(n)]
  }

  lemma WeaknessOrderDistinct(n: nat)
    ensures NoDuplicates(WeaknessOrder(n))
  {
    var o := WeaknessOrder(n);
    forall i, j | 0 <= i < j < |o| ensures o[i] != o[j] {
    }
  }

  /** The seven rules of `_identify_weaknesses`, in order, given whether
      each fires; the last one reports `n` formatting issues. The two
      length rules exclude each other in the source (`elif`), so listing
      them as two rules changes nothing. */
  function WeaknessRules(noExperience: bool, noEducation: bool, noSkills: bool, weakPhrases: bool,
                         tooShort: bool, tooLong: bool, n: nat): (rules: seq<Rule<Weakness>>)
    ensures Messages(rules) == WeaknessOrder(n) && NoDuplicates(Messages(rules))
    ensures MinorImprovements !in Messages(rules)
    ensures |rules| == 7
    ensures rules[0] == Rule(noExperience, NoExperience) && rules[1] == Rule(noEducation, NoEducation)
    ensures rules[2] == Rule(noSkills, NoSkills) && rules[3] == Rule(weakPhrases, WeakPhrasing)
    ensures rules[4] == Rule(tooShort, TooShort) && rules[5] == Rule(tooLong, TooLong)
    ensures rules[6] == Rule(n > 0, FormattingConcerns(n))
  {
    WeaknessOrderDistinct(n);
    var rules := [
      Rule(noExperience, NoExperience), Rule(noEducation, NoEducation), Rule(noSkills, NoSkills),
      Rule(weakPhrases, WeakPhrasing), Rule(tooShort, TooShort), Rule(tooLong, TooLong),
      Rule(n > 0, FormattingConcerns(n))];
    assert Messages(rules) == WeaknessOrder(n);
    rules
  }

  /** The weakness list for the given rule outcomes: the rules that fire,
      or the single fallback when none does. */
  function WeaknessList(noExperience: bool, noEducation: bool, noSkills: bool, weakPhrases: bool,
                        tooShort: bool, tooLong: bool, n: nat): (r: seq<Weakness>)
    ensures 1 <= |r| <= 7
    ensures r == [MinorImprovements] || IsSubsequence(r, WeaknessOrder(n))
    ensures NoExperience in r <==> noExperience
    ensures NoEducation in r <==> noEducation
    ensures NoSkills in r <==> noSkills
    ensures WeakPhrasing in r <==> weakPhrases
    ensures TooShort in r <==> tooShort
    ensures TooLong in r <==> tooLong
    ensures FormattingConcerns(n) in r <==> n > 0
    ensures MinorImprovements in r <==>
      !(noExperience || noEducation || noSkills || weakPhrases || tooShort || tooLong || n > 0)
  {
    var rules := WeaknessRules(noExperience, noEducation, noSkills, weakPhrases, tooShort, tooLong, n);
    FiredMember(rules, 0);
    FiredMember(rules, 1);
    FiredMember(rules, 2);
    FiredMember(rules, 3);
    FiredMember(rules, 4);
    FiredMember(rules, 5);
    FiredMember(rules, 6);
    FiredEmptyIff(rules);
    FiredOnlyMessages(rules, MinorImprovements);
    var fired := Fired(rules);
    if |fired| > 0 then fired else [MinorImprovements]
  }

  /** `_identify_weaknesses` on the text and the formatting issues found. */
  function IdentifyWeaknesses(cv: string, issues: seq<Issue>): (r: seq<Weakness>)
    ensures 1 <= |r| <= 7
    ensures r == [MinorImprovements] || IsSubsequence(r, WeaknessOrder(|issues|))
    ensures NoExperience in r <==> !Contains(Lower(cv), "experience") && !Contains(Lower(cv), "employment")
    ensures NoEducation in r <==> !Contains(Lower(cv), "education")
    ensures NoSkills in r <==> !Contains(Lower(cv), "skills")
    ensures WeakPhrasing in r <==> SumCounts(Lower(cv), WeakPhrases) > 3
    ensures TooShort in r <==> |Words(cv)| < 200
    ensures TooLong in r <==> |Words(cv)| > 1000
    ensures FormattingConcerns(|issues|) in r <==> |issues| > 0
  {
    var cvLower := Lower(cv);
    var words := |Words(cv)|;
    WeaknessList(!Contains(cvLower, "experience") && !Contains(cvLower, "employment"),
                 !Contains(cvLower, "education"), !Contains(cvLower, "skills"),
                 SumCounts(cvLower, WeakPhrases) > 3, words < 200, words > 1000, |issues|)
  }

  // ---------------------------------------------------------------------
  // What the weakness texts mention
  // ---------------------------------------------------------------------

  /** `p in w.lower()` for the text of weakness `w`. */
  predicate Mentions(w: Weakness, p: string) {
    Contains(Lower(WeaknessText(w)), p)
  }

  /** No `m` of `s` is followed by an `i`, ignoring case. */
  predicate NoMi(s: string) {
    forall k :: 0 <= k < |s| - 1 ==> !(LowerChar(s[k]) == 'm' && LowerChar(s[k + 1]) == 'i')
  }

  lemma NoMiNotMissing(s: string)
    requires NoMi(s)
    ensures !Contains(Lower(s), "missing")
  {
    var t := Lower(s);
    forall i | 0 <= i < |t| - 1
      ensures t[i] != 'm' || t[i + 1] != 'i'
    {
      assert t[i] == LowerChar(s[i]) && t[i + 1] == LowerChar(s[i + 1]);
    }
    NotContainsByPair(t, "missing");
  }

  lemma MissingMentioned(t: string)
    ensures Contains(Lower("Missing " + t), "missing")
  {
    LowerAppend("Missing ", t);
    assert Lower("Missing ") == "missing ";
    assert (Lower("Missing ") + Lower(t))[..7] == "missing";
  }

  lemma NoMiAppend(a: string, b: string)
    requires NoMi(a) && NoMi(b) && |a| > 0 && LowerChar(a[|a| - 1]) != 'm'
    ensures NoMi(a + b)
  {
    forall k | 0 <= k < |a + b| - 1
      ensures !(LowerChar((a + b)[k]) == 'm' && LowerChar((a + b)[k + 1]) == 'i')
    {
      if k < |a| - 1 {
        assert (a + b)[k] == a[k] && (a + b)[k + 1] == a[k + 1];
      } else if k == |a| - 1 {
        assert (a + b)[k] == a[k];
      } else {
        assert (a + b)[k] == b[k - |a|] && (a + b)[k + 1] == b[k + 1 - |a|];
      }
    }
  }

  const ConcernsPrefix: string := "ATS formatting " + "concerns: "
  const ConcernsSuffix: string := " issues " + "detected"

  /** A non-empty text without `q`, without an `m` followed by `i`, and
      not ending in `m`: joining two such texts gives another. The letter
      facts are proved on short pieces and joined, which keeps each
      literal small for the solver. */
  predicate Quiet(s: string) {
    |s| > 0 && Lacks(s, 'q') && NoMi(s) && LowerChar(s[|s| - 1]) != 'm'
  }

  lemma JoinQuiet(a: string, b: string)
    requires Quiet(a) && Quiet(b)
    ensures Quiet(a + b)
  {
    LacksAppend(a, b, 'q');
    NoMiAppend(a, b);
  }

  lemma JoinLacks(a: string, b: string, c: string, x: char, y: char)
    requires Lacks(a, x) && Lacks(b, x) && Lacks(c, x)
    requires Lacks(a, y) && Lacks(b, y) && Lacks(c, y)
    ensures Lacks(a + b + c, x) && Lacks(a + b + c, y)
  {
    LacksAppend(a, b, x);
    LacksAppend(a + b, c, x);
    LacksAppend(a, b, y);
    LacksAppend(a + b, c, y);
  }

  lemma ConcernsPieces(a: string, b: string, c: string, d: string)
    requires a == "ATS formatting " && b == "concerns: "
    requires c == " issues " && d == "detected"
    ensures Quiet(a) && Quiet(b) && Quiet(c) && Quiet(d)
  {
  }

  lemma ConcernsPiecesLetters()
    ensures Lacks(ConcernsPrefix, 'q') && NoMi(ConcernsPrefix) && ConcernsPrefix[|ConcernsPrefix| - 1] == ' '
    ensures Lacks(ConcernsSuffix, 'q') && NoMi(ConcernsSuffix)
  {
    ConcernsPieces("ATS formatting ", "concerns: ", " issues ", "detected");
    JoinQuiet("ATS formatting ", "concerns: ");
    JoinQuiet(" issues ", "detected");
  }

  lemma FormattingConcernsLetters(n: nat)
    ensures Lacks(WeaknessText(FormattingConcerns(n)), 'q') && NoMi(WeaknessText(FormattingConcerns(n)))
  {
    var d := NatToString(n);
    assert Lacks(d, 'q') && NoMi(d) && LowerChar(d[|d| - 1]) != 'm' by {
      assert forall k :: 0 <= k < |d| ==> IsDigit(d[k]);
    }
    ConcernsPiecesLetters();
    LacksAppend(ConcernsPrefix, d, 'q');
    LacksAppend(ConcernsPrefix + d, ConcernsSuffix, 'q');
    NoMiAppend(ConcernsPrefix, d);
    NoMiAppend(ConcernsPrefix + d, ConcernsSuffix);
    assert WeaknessText(FormattingConcerns(n)) == ConcernsPrefix + d + ConcernsSuffix;
  }

  lemma MissingPieces(a: string, b: string, c: string, d: string)
    requires a == "Missing " && b == "work experience section"
    requires c == "education section" && d == "skills section"
    ensures Lacks(a, 'q') && Lacks(b, 'q') && Lacks(c, 'q') && Lacks(d, 'q')
  {
  }

  lemma MissingTextsLetters()
    ensures Lacks(NoExperienceText, 'q') && Lacks(NoEducationText, 'q') && Lacks(NoSkillsText, 'q')
  {
    var a, b, c, d := "Missing ", "work experience section", "education section", "skills section";
    MissingPieces(a, b, c, d);
    LacksAppend(a, b, 'q');
    LacksAppend(a, c, 'q');
    LacksAppend(a, d, 'q');
  }

  lemma WeakPhrasingPieces(a: string, b: string, c: string)
    requires a == "Overuse of weak " && b == "phrases - use " && c == "stronger action verbs"
    ensures Lacks(a, 'q') && Lacks(b, 'q') && Lacks(c, 'q')
    ensures Lacks(a, 'm') && Lacks(b, 'm') && Lacks(c, 'm')
  {
  }

  lemma WeakPhrasingLetters()
    ensures Lacks(WeakPhrasingText, 'q') && Lacks(WeakPhrasingText, 'm')
  {
    var a, b, c := "Overuse of weak ", "phrases - use ", "stronger action verbs";
    WeakPhrasingPieces(a, b, c);
    JoinLacks(a, b, c, 'q', 'm');
  }

  lemma TooShortPieces(a: string, b: string, c: string)
    requires a == "CV is too short - " && b == "add more detail " && c == "about achievements"
    ensures Lacks(a, 'q') && Lacks(b, 'q') && Lacks(c, 'q')
    ensures Lacks(a, 'g') && Lacks(b, 'g') && Lacks(c, 'g')
  {
  }

  lemma TooShortLetters()
    ensures Lacks(TooShortText, 'q') && Lacks(TooShortText, 'g')
  {
    var a, b, c := "CV is too short - ", "add more detail ", "about achievements";
    TooShortPieces(a, b, c);
    JoinLacks(a, b, c, 'q', 'g');
  }

  lemma TooLongPieces(a: string, b: string, c: string, d: string)
    requires a == "CV is too long - " && b == "focus on most "
    requires c == "relevant " && d == "information"
    ensures Quiet(a) && Quiet(b) && Quiet(c) && Quiet(d)
  {
    TooLongOpening(a, b);
  }

  lemma TooLongOpening(a: string, b: string)
    requires a == "CV is too long - " && b == "focus on most "
    ensures Quiet(a) && Quiet(b)
  {
  }

  lemma TooLongLetters()
    ensures Lacks(TooLongText, 'q') && NoMi(TooLongText)
  {
    var a, b, c, d := "CV is too long - ", "focus on most ", "relevant ", "information";
    TooLongPieces(a, b, c, d);
    JoinQuiet(a, b);
    JoinQuiet(c, d);
    JoinQuiet(a + b, c + d);
    assert TooLongText == a + b + (c + d);
  }

  lemma MinorImprovementsPieces(a: string, b: string)
    requires a == "Minor improvements " && b == "could be made"
    ensures Lacks(a, 'q') && Lacks(b, 'q') && Lacks(a, 'g') && Lacks(b, 'g')
  {
  }

  lemma MinorImprovementsLetters()
    ensures Lacks(MinorImprovementsText, 'q') && Lacks(MinorImprovementsText, 'g')
  {
    var a, b := "Minor improvements ", "could be made";
    MinorImprovementsPieces(a, b);
    LacksAppend(a, b, 'q');
    LacksAppend(a, b, 'g');
  }

  /** No weakness text mentions "quantified". */
  lemma NeverMentionsQuantified(w: Weakness)
    ensures !Mentions(w, "quantified")
  {
    match w
    case NoExperience =>
      MissingTextsLetters();
      LacksNotContains(NoExperienceText, 'q', "quantified", 0);
    case NoEducation =>
      MissingTextsLetters();
      LacksNotContains(NoEducationText, 'q', "quantified", 0);
    case NoSkills =>
      MissingTextsLetters();
      LacksNotContains(NoSkillsText, 'q', "quantified", 0);
    case WeakPhrasing =>
      WeakPhrasingLetters();
      LacksNotContains(WeakPhrasingText, 'q', "quantified", 0);
    case TooShort =>
      TooShortLetters();
      LacksNotContains(TooShortText, 'q', "quantified", 0);
    case TooLong =>
      TooLongLetters();
      LacksNotContains(TooLongText, 'q', "quantified", 0);
    case FormattingConcerns(n) =>
      FormattingConcernsLetters(n);
      LacksNotContains(WeaknessText(w), 'q', "quantified", 0);
    case MinorImprovements =>
      MinorImprovementsLetters();
      LacksNotContains(MinorImprovementsText, 'q', "quantified", 0);
  }

  /** Exactly the three missing-section weaknesses mention "missing". */
  lemma MentionsMissingIff(w: Weakness)
    ensures Mentions(w, "missing") <==> w == NoExperience || w == NoEducation || w == NoSkills
  {
    if w == NoExperience || w == NoEducation || w == NoSkills {
      MissingWeaknessMentions(w);
    } else {
      OtherWeaknessSilent(w);
    }
  }

  lemma MissingWeaknessMentions(w: Weakness)
    requires w == NoExperience || w == NoEducation || w == NoSkills
    ensures Mentions(w, "missing")
  {
    match w
    case NoExperience => MissingMentioned("work experience section");
    case NoEducation => MissingMentioned("education section");
    case NoSkills => MissingMentioned("skills section");
  }

  lemma OtherWeaknessSilent(w: Weakness)
    requires w != NoExperience && w != NoEducation && w != NoSkills
    ensures !Mentions(w, "missing")
  {
    match w
    case WeakPhrasing =>
      WeakPhrasingLetters();
      LacksNotContains(WeakPhrasingText, 'm', "missing", 0);
    case TooShort =>
      TooShortLetters();
      LacksNotContains(TooShortText, 'g', "missing", 6);
    case TooLong =>
      TooLongLetters();
      NoMiNotMissing(TooLongText);
    case FormattingConcerns(n) =>
      FormattingConcernsLetters(n);
      NoMiNotMissing(WeaknessText(w));
    case MinorImprovements =>
      MinorImprovementsLetters();
      LacksNotContains(MinorImprovementsText, 'g', "missing", 6);
  }

  // ---------------------------------------------------------------------
  // Recommendations
  // ---------------------------------------------------------------------

  /** `any(p in w.lower() for w in weaknesses)`. */
  predicate AnyMentions(ws: seq<Weakness>, p: string) {
    exists i :: 0 <= i < |ws| && Mentions(ws[i], p)
  }

  const RecommendationOrder: seq<Recommendation> :=
    [FixFormatting, AddSections, OptimizeKeywords, StrengthenImpact, AddQuantification, Tailor]

  lemma RecommendationOrderDistinct()
    ensures NoDuplicates(RecommendationOrder)
  {
    var o := RecommendationOrder;
    forall i, j | 0 <= i < j < |o| ensures o[i] != o[j] {
    }
  }

  /** The four conditional rules that open `_generate_recommendations`,
      given whether each fires. */
  function RecommendationRules(fix: bool, sections: bool, keywords: bool, verbs: bool): (rules: seq<Rule<Recommendation>>)
    ensures Messages(rules) == RecommendationOrder[..4] && NoDuplicates(Messages(rules))
    ensures AddQuantification !in Messages(rules) && Tailor !in Messages(rules)
    ensures |rules| == 4
    ensures rules[0] == Rule(fix, FixFormatting) && rules[1] == Rule(sections, AddSections)
    ensures rules[2] == Rule(keywords, OptimizeKeywords) && rules[3] == Rule(verbs, StrengthenImpact)
  {
    RecommendationOrderDistinct();
    var rules := [Rule(fix, FixFormatting), Rule(sections, AddSections),
                  Rule(keywords, OptimizeKeywords), Rule(verbs, StrengthenImpact)];
    assert Messages(rules) == RecommendationOrder[..4];
    rules
  }

  /** The advice of the four conditional rules that fire, in rule order. */
  function LeadingRecommendations(fix: bool, sections: bool, keywords: bool, verbs: bool): (r: seq<Recommendation>)
    ensures |r| <= 4
    ensures IsSubsequence(r, RecommendationOrder[..4])
    ensures FixFormatting in r <==> fix
    ensures AddSections in r <==> sections
    ensures OptimizeKeywords in r <==> keywords
    ensures StrengthenImpact in r <==> verbs
    ensures AddQuantification !in r && Tailor !in r
  {
    var rules := RecommendationRules(fix, sections, keywords, verbs);
    FiredMember(rules, 0);
    FiredMember(rules, 1);
    FiredMember(rules, 2);
    FiredMember(rules, 3);
    FiredOnlyMessages(rules, AddQuantification);
    FiredOnlyMessages(rules, Tailor);
    Fired(rules)
  }

  /** The closing advice: quantification unless a weakness mentions it,
      then tailoring, which is always given. */
  function ClosingRecommendations(quantified: bool): (r: seq<Recommendation>)
    ensures IsSubsequence(r, RecommendationOrder[4..])
    ensures 1 <= |r| <= 2 && r[|r| - 1] == Tailor
    ensures AddQuantification in r <==> !quantified
    ensures !quantified ==> |r| == 2 && r[0] == AddQuantification
    ensures forall x :: x in r ==> x == AddQuantification || x == Tailor
  {
    var order := RecommendationOrder;
    assert order[4..] == [AddQuantification, Tailor];
    assert order[4..][1..] == [Tailor];
    if quantified then [Tailor] else [AddQuantification, Tailor]
  }

  /** The recommendation list for the given rule outcomes. */
  function RecommendationList(fix: bool, sections: bool, keywords: bool, verbs: bool, quantified: bool): (r: seq<Recommendation>)
    ensures 1 <= |r| <= 6
    ensures r[|r| - 1] == Tailor
    ensures IsSubsequence(r, RecommendationOrder)
  {
    var head := LeadingRecommendations(fix, sections, keywords, verbs);
    var tail := ClosingRecommendations(quantified);
    JoinRecommendations(head, tail);
    head + tail
  }

  /** Each piece of advice is in the list exactly when its rule fires, and
      quantification, when given, comes just before tailoring. */
  lemma RecommendationListMembers(fix: bool, sections: bool, keywords: bool, verbs: bool, quantified: bool)
    ensures var r := RecommendationList(fix, sections, keywords, verbs, quantified);
      && (FixFormatting in r <==> fix)
      && (AddSections in r <==> sections)
      && (OptimizeKeywords in r <==> keywords)
      && (StrengthenImpact in r <==> verbs)
      && (AddQuantification in r <==> !quantified)
      && (!quantified ==> |r| >= 2 && r[|r| - 2] == AddQuantification)
  {
    var head := LeadingRecommendations(fix, sections, keywords, verbs);
    var tail := ClosingRecommendations(quantified);
    JoinRecommendations(head, tail);
    JoinedMembers(head, tail, fix, sections, keywords, verbs, quantified);
  }

  lemma JoinedMembers(head: seq<Recommendation>, tail: seq<Recommendation>,
                      fix: bool, sections: bool, keywords: bool, verbs: bool, quantified: bool)
    requires FixFormatting in head <==> fix
    requires AddSections in head <==> sections
    requires OptimizeKeywords in head <==> keywords
    requires StrengthenImpact in head <==> verbs
    requires AddQuantification in tail <==> !quantified
    requires !quantified ==> |tail| == 2 && tail[0] == AddQuantification
    requires forall x :: x != AddQuantification && x != Tailor ==> (x in head + tail <==> x in head)
    requires AddQuantification in head + tail <==> AddQuantification in tail
    requires |tail| == 2 ==> (head + tail)[|head + tail| - 2] == tail[0]
    ensures var r := head + tail;
      && (FixFormatting in r <==> fix)
      && (AddSections in r <==> sections)
      && (OptimizeKeywords in r <==> keywords)
      && (StrengthenImpact in r <==> verbs)
      && (AddQuantification in r <==> !quantified)
      && (!quantified ==> |r| >= 2 && r[|r| - 2] == AddQuantification)
  {
  }

  /** Opening advice from the first four rules followed by closing advice
      from the last two is an ordered list ending in tailoring, holding
      each piece of advice exactly when its part does. */
  lemma JoinRecommendations(head: seq<Recommendation>, tail: seq<Recommendation>)
    requires |head| <= 4 && IsSubsequence(head, RecommendationOrder[..4])
    requires AddQuantification !in head && Tailor !in head
    requires IsSubsequence(tail, RecommendationOrder[4..])
    requires 1 <= |tail| <= 2 && tail[|tail| - 1] == Tailor
    requires forall x :: x in tail ==> x == AddQuantification || x == Tailor
    ensures var r := head + tail;
      && 1 <= |r| <= 6 && r[|r| - 1] == Tailor
      && IsSubsequence(r, RecommendationOrder)
      && (forall x :: x != AddQuantification && x != Tailor ==> (x in r <==> x in head))
      && (AddQuantification in r <==> AddQuantification in tail)
      && (|tail| == 2 ==> r[|r| - 2] == tail[0])
  {
    var order := RecommendationOrder;
    SubsequenceAppend(head, order[..4], tail, order[4..]);
    assert order[..4] + order[4..] == order;
  }

  /** `_generate_recommendations`. */
  function GenerateRecommendations(weaknesses: seq<Weakness>, issues: seq<Issue>, keywordScore: int, verbScore: int): (r: seq<Recommendation>)
    ensures 1 <= |r| <= 6
    ensures r[|r| - 1] == Tailor
    ensures IsSubsequence(r, RecommendationOrder)
    ensures FixFormatting in r <==> |issues| > 0
    ensures AddSections in r <==> AnyMentions(weaknesses, "missing")
    ensures OptimizeKeywords in r <==> keywordScore < 60
    ensures StrengthenImpact in r <==> verbScore < 50
    ensures AddQuantification in r <==> !AnyMentions(weaknesses, "quantified")
    ensures !AnyMentions(weaknesses, "quantified") ==> |r| >= 2 && r[|r| - 2] == AddQuantification
  {
    RecommendationListMembers(|issues| > 0, AnyMentions(weaknesses, "missing"), keywordScore < 60, verbScore < 50,
                              AnyMentions(weaknesses, "quantified"));
    RecommendationList(|issues| > 0, AnyMentions(weaknesses, "missing"), keywordScore < 60, verbScore < 50,
                       AnyMentions(weaknesses, "quantified"))
  }

  /** No list of weaknesses mentions "quantified". */
  lemma NoneMentionQuantified(ws: seq<Weakness>)
    ensures !AnyMentions(ws, "quantified")
  {
    forall i | 0 <= i < |ws|
      ensures !Mentions(ws[i], "quantified")
    {
      NeverMentionsQuantified(ws[i]);
    }
  }

  /** A list of weaknesses mentions "missing" exactly when it holds a
      missing-section weakness. */
  lemma AnyMentionsMissingIff(ws: seq<Weakness>)
    ensures AnyMentions(ws, "missing") <==> NoExperience in ws || NoEducation in ws || NoSkills in ws
  {
    forall i | 0 <= i < |ws|
      ensures Mentions(ws[i], "missing") <==> ws[i] == NoExperience || ws[i] == NoEducation || ws[i] == NoSkills
    {
      MentionsMissingIff(ws[i]);
    }
  }

  /** The weaknesses `analyze_cv` finds mention a missing section exactly
      when one is missing, and never mention quantification. */
  lemma WeaknessMentions(cv: string, issues: seq<Issue>)
    ensures AnyMentions(IdentifyWeaknesses(cv, issues), "missing") <==> MissingSection(Lower(cv))
    ensures !AnyMentions(IdentifyWeaknesses(cv, issues), "quantified")
  {
    var r := IdentifyWeaknesses(cv, issues);
    NoneMentionQuantified(r);
    AnyMentionsMissingIff(r);
  }

  // ---------------------------------------------------------------------
  // The whole analysis
  // ---------------------------------------------------------------------

  /** The second half of `analyze_cv`: combine the sub-scores and lists
      computed from the text into the result. */
  function Combine(section: int, keywords: KeywordReport, issues: seq<Issue>, verbs: int, quant: int,
                   strengths: seq<Strength>, weaknesses: seq<Weakness>): (a: AnalysisResult)
    requires 0 <= section <= 100 && 0 <= keywords.score <= 100 && 0 <= verbs <= 100 && 25 <= quant <= 100
    requires !AnyMentions(weaknesses, "quantified")
    ensures 0 <= a.atsScore <= 80
    ensures 6 <= a.overallScore <= 90
    ensures a.strengths == strengths && a.weaknesses == weaknesses && a.formattingIssues == issues
    ensures a.keywordAnalysis == keywords.found
    ensures a.atsScore == AtsScore(section, |issues|, keywords.score)
    ensures a.overallScore == OverallScore(a.atsScore, verbs, quant)
    ensures 2 <= |a.recommendations| <= 6
    ensures a.recommendations[|a.recommendations| - 2] == AddQuantification
    ensures a.recommendations[|a.recommendations| - 1] == Tailor
    ensures IsSubsequence(a.recommendations, RecommendationOrder)
    ensures AddSections in a.recommendations <==> AnyMentions(weaknesses, "missing")
    ensures FixFormatting in a.recommendations <==> |issues| > 0
    ensures OptimizeKeywords in a.recommendations <==> keywords.score < 60
    ensures StrengthenImpact in a.recommendations <==> verbs < 50
  {
    var ats := AtsScore(section, |issues|, keywords.score);
    var overall := OverallScore(ats, verbs, quant);
    var recs := GenerateRecommendations(weaknesses, issues, keywords.score, verbs);
    AnalysisResult(overall, ats, strengths, weaknesses, recs, keywords.found, issues)
  }

  /** The four scores `analyze_cv` computes before combining them. */
  datatype Measures = Measures(section: int, keywords: KeywordReport, verbs: int, quant: int)

  function Measure(cv: string, jd: string): (m: Measures)
    ensures 0 <= m.section <= 100 && 0 <= m.keywords.score <= 100
    ensures 0 <= m.verbs <= 100 && 25 <= m.quant <= 100
    ensures jd == "" ==> m.keywords.found == []
  {
    var cvLower := Lower(cv);
    Measures(SectionScore(cvLower), AnalyzeKeywords(cv, jd), ActionVerbScore(cvLower), QuantificationScore(NumberTokens(cv)))
  }

  /** `analyze_cv`: every sub-score is computed from the original text and
      job description, then combined. */
  function AnalyzeCv(cv: string, jd: string): (a: AnalysisResult)
    ensures 0 <= a.atsScore <= 80
    ensures 6 <= a.overallScore <= 90
    ensures 1 <= |a.strengths| <= 4 && 1 <= |a.weaknesses| <= 7
    ensures 2 <= |a.recommendations| <= 6
    ensures a.formattingIssues == CheckFormatting(cv)
    ensures a.weaknesses == IdentifyWeaknesses(cv, a.formattingIssues)
    ensures a.strengths == IdentifyStrengths(cv)
    ensures jd == "" ==> a.keywordAnalysis == []
  {
    var m := Measure(cv, jd);
    var issues := CheckFormatting(cv);
    var weaknesses := IdentifyWeaknesses(cv, issues);
    NoneMentionQuantified(weaknesses);
    Combine(m.section, m.keywords, issues, m.verbs, m.quant, IdentifyStrengths(cv), weaknesses)
  }

  /** The scores `analyze_cv` reports: the keywords found in the job
      description, the ATS score from the section score, the number of
      formatting issues and the keyword score, and the overall score from
      the ATS, verb and quantification scores. */
  lemma AnalyzeCvScores(cv: string, jd: string)
    ensures var a := AnalyzeCv(cv, jd);
      && a.keywordAnalysis == AnalyzeKeywords(cv, jd).found
      && a.atsScore == AtsScore(SectionScore(Lower(cv)), |a.formattingIssues|, AnalyzeKeywords(cv, jd).score)
      && a.overallScore == OverallScore(a.atsScore, ActionVerbScore(Lower(cv)), QuantificationScore(NumberTokens(cv)))
  {
    var a := AnalyzeCv(cv, jd);
    var m := Measure(cv, jd);
    assert a.atsScore == AtsScore(m.section, |a.formattingIssues|, m.keywords.score);
  }

  /** The advice `analyze_cv` gives: always closing with quantification and
      tailoring, fixing formatting exactly when an issue was found, and
      adding sections exactly when one is missing (the score-driven advice
      is AnalyzeCvScoreAdvice). */
  lemma AnalyzeCvAdvice(cv: string, jd: string)
    ensures var a := AnalyzeCv(cv, jd);
      && a.recommendations[|a.recommendations| - 2] == AddQuantification
      && a.recommendations[|a.recommendations| - 1] == Tailor
      && IsSubsequence(a.recommendations, RecommendationOrder)
      && (AddSections in a.recommendations <==> MissingSection(Lower(cv)))
      && (FixFormatting in a.recommendations <==> |a.formattingIssues| > 0)
  {
    var a := AnalyzeCv(cv, jd);
    var m := Measure(cv, jd);
    var recs := GenerateRecommendations(a.weaknesses, a.formattingIssues, m.keywords.score, m.verbs);
    assert a.recommendations == recs;
    WeaknessMentions(cv, a.formattingIssues);
  }

  /** The score-driven advice of `analyze_cv`: optimizing keywords exactly
      when the keyword score is below 60, and strengthening impact exactly
      when the action-verb score of the lower-cased CV is below 50. */
  lemma AnalyzeCvScoreAdvice(cv: string, jd: string)
    ensures var a := AnalyzeCv(cv, jd);
      && (OptimizeKeywords in a.recommendations <==> AnalyzeKeywords(cv, jd).score < 60)
      && (StrengthenImpact in a.recommendations <==> ActionVerbScore(Lower(cv)) < 50)
  {
    var a := AnalyzeCv(cv, jd);
    var m := Measure(cv, jd);
    var recs := GenerateRecommendations(a.weaknesses, a.formattingIssues, m.keywords.score, m.verbs);
    assert a.recommendations == recs;
  }
}
