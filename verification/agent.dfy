/** `CVAgent` of agent.py: one analysis-and-rewrite run per request, each
    run's results kept in the session history, and the improvement tips by
    category. Progress messages and the command-line front end are not
    modelled. */
module Agent {
  import opened Text
  import opened Seqs
  import opened Analyzer
  import opened Optimizer
  import opened Witnesses

  // ---------------------------------------------------------------------
  // Analysis and rewrite runs
  // ---------------------------------------------------------------------

  /** The dictionary `analyze_and_optimize` returns and records. */
  datatype AgentResult = AgentResult(
    analysis: AnalysisResult,
    optimizedCv: string,
    suggestedKeywords: set<string>,
    jobSuggestions: seq<JobSuggestion>,
    originalCv: string)

  /** The agent's state: the results of its runs, oldest first. */
  datatype CvAgent = CvAgent(sessionHistory: seq<AgentResult>)

  /** A new agent has an empty session history. */
  const NewAgent: CvAgent := CvAgent([])

  /** The arguments of one run: CV, job description, target role, industry. */
  datatype Request = Request(cv: string, jd: string, role: string, industry: string)

  /** The rewritten CV of a run: with a job description, the rewritten
      CV is rewritten a second time. */
  function RunOptimized(q: Request): (cv: string)
    ensures q.jd == "" ==> cv == OptimizeText(q.cv, q.role, q.industry)
    ensures q.jd != "" ==> cv == OptimizeText(OptimizeText(q.cv, q.role, q.industry), "", "")
  {
    var optimized := OptimizeText(q.cv, q.role, q.industry);
    if q.jd != "" then OptimizeForJob(optimized, q.jd).text else optimized
  }

  /** The suggested keywords of a run: none without an industry. */
  function RunKeywords(q: Request): (ks: set<string>)
    ensures q.industry == "" ==> ks == {}
    ensures q.industry != "" ==> ks == SuggestKeywords(q.industry, q.role)
  {
    if q.industry != "" then SuggestKeywords(q.industry, q.role) else {}
  }

  /** The job-specific suggestions of a run: none without a job
      description, and otherwise none exactly when every stressed word of
      the job description occurs in the rewritten CV; at most one, naming
      the first missing stressed words in first-seen order. */
  function RunJobSuggestions(q: Request): (ss: seq<JobSuggestion>)
    ensures q.jd == "" ==> ss == []
    ensures q.jd != "" ==> (ss == [] <==> AllStressedPresent(OptimizeText(q.cv, q.role, q.industry), q.jd))
    ensures |ss| <= 1
    ensures |ss| == 1 ==> NamesFirstMissing(OptimizeText(q.cv, q.role, q.industry), q.jd, ss[0].keywords)
  {
    if q.jd != "" then OptimizeForJob(OptimizeText(q.cv, q.role, q.industry), q.jd).suggestions else []
  }

  /** The results of one run. */
  function Respond(q: Request): AgentResult {
    AgentResult(AnalyzeCv(q.cv, q.jd), RunOptimized(q), RunKeywords(q), RunJobSuggestions(q), q.cv)
  }

  /** The history update of `analyze_and_optimize`: exactly one entry is
      appended, and the earlier entries are kept. */
  function Record(agent: CvAgent, result: AgentResult): (a: CvAgent)
    ensures |a.sessionHistory| == |agent.sessionHistory| + 1
    ensures a.sessionHistory[..|agent.sessionHistory|] == agent.sessionHistory
    ensures a.sessionHistory[|agent.sessionHistory|] == result
  {
    CvAgent(agent.sessionHistory + [result])
  }

  /** The analysis of a run looks at the original CV, never at the
      rewritten one, and the original CV is returned unchanged. */
  lemma RespondAnalysesOriginal(q: Request)
    ensures Respond(q).analysis == AnalyzeCv(q.cv, q.jd)
    ensures Respond(q).originalCv == q.cv
  {
  }

  /** `analyze_and_optimize`: the analysis of the original CV, the rewritten
      CV (rewritten twice when there is a job description), the industry
      keywords and the job-specific suggestions, with the original CV;
      the result is appended to the session history. */
  function AnalyzeAndOptimize(agent: CvAgent, q: Request): (r: (CvAgent, AgentResult))
    ensures r.0.sessionHistory == agent.sessionHistory + [r.1]
    ensures r.1.analysis == AnalyzeCv(q.cv, q.jd)
    ensures r.1.originalCv == q.cv
    ensures r.1.optimizedCv == RunOptimized(q)
    ensures r.1.suggestedKeywords == RunKeywords(q)
    ensures r.1.jobSuggestions == RunJobSuggestions(q)
  {
    var result := Respond(q);
    (Record(agent, result), result)
  }

  /** A sequence of runs on one agent, in order, each producing its results
      with `respond`. */
  function RunSessionWith(respond: Request -> AgentResult, agent: CvAgent, qs: seq<Request>): CvAgent
    decreases |qs|
  {
    if |qs| == 0 then agent else RunSessionWith(respond, Record(agent, respond(qs[0])), qs[1..])
  }

  /** A sequence of `analyze_and_optimize` runs on one agent, in order. */
  function RunSession(agent: CvAgent, qs: seq<Request>): CvAgent {
    RunSessionWith(Respond, agent, qs)
  }

  /** The first run of a session is an `analyze_and_optimize` run. */
  lemma RunSessionFirst(agent: CvAgent, qs: seq<Request>)
    requires |qs| > 0
    ensures RunSession(agent, qs) == RunSession(AnalyzeAndOptimize(agent, qs[0]).0, qs[1..])
  {
  }

  /** Recording one result appends it to the history. */
  lemma RecordAppends(agent: CvAgent, result: AgentResult)
    ensures Record(agent, result).sessionHistory == agent.sessionHistory + [result]
  {
  }

  /** Whatever each run computes, a session appends one result per run,
      in order, after the earlier entries. */
  lemma {:induction false} SessionWithRecords(respond: Request -> AgentResult, agent: CvAgent, qs: seq<Request>)
    ensures RunSessionWith(respond, agent, qs).sessionHistory == agent.sessionHistory + Map(respond, qs)
    decreases |qs|
  {
    if |qs| > 0 {
      var x := respond(qs[0]);
      SessionWithRecords(respond, Record(agent, x), qs[1..]);
      RecordAppends(agent, x);
      AppendAssoc(agent.sessionHistory, x, Map(respond, qs[1..]));
      MapCons(respond, qs);
    } else {
      assert Map(respond, qs) == [];
    }
  }

  /** After a sequence of runs the history holds the earlier entries and
      then exactly one entry per run, in order: the results of that run. */
  lemma SessionRecordsEveryRun(agent: CvAgent, qs: seq<Request>)
    ensures RunSession(agent, qs).sessionHistory == agent.sessionHistory + Map(Respond, qs)
  {
    SessionWithRecords(Respond, agent, qs);
  }

  /** A new agent's history after a session is the list of its runs' results. */
  lemma NewSessionHistory(qs: seq<Request>)
    ensures RunSession(NewAgent, qs).sessionHistory == Map(Respond, qs)
  {
    SessionRecordsEveryRun(NewAgent, qs);
    assert NewAgent.sessionHistory + Map(Respond, qs) == Map(Respond, qs);
  }

  /** With a job description the CV is rewritten twice, and that can change
      it: a CV reading "madeid" comes back as "createperformed", where a
      run without a job description returns "createdid". */
  lemma JobDescriptionRewritesTwice(cv: string, jd: string)
    requires cv == "madeid" && jd != ""
    ensures Respond(Request(cv, "", "", "")).optimizedCv == "createdid"
    ensures Respond(Request(cv, jd, "", "")).optimizedCv == "createperformed"
  {
    RewriteNotIdempotent(cv);
  }

  // ---------------------------------------------------------------------
  // Improvement tips
  // ---------------------------------------------------------------------

  /** The categories of the tips table, in its order. */
  datatype TipCategory = General | Ats | Keywords | Formatting | Content

  const TipCategories: seq<TipCategory> := [General, Ats, Keywords, Formatting, Content]

  /** The key of a category in the tips table. */
  function CategoryKey(c: TipCategory): string {
    match c
    case General => "general"
    case Ats => "ats"
    case Keywords => "keywords"
    case Formatting => "formatting"
    case Content => "content"
  }

  /** The position of a category in the tips table. */
  function CategoryIndex(c: TipCategory): (i: nat)
    ensures i < |TipCategories| && TipCategories[i] == c
  {
    match c
    case General => 0
    case Ats => 1
    case Keywords => 2
    case Formatting => 3
    case Content => 4
  }

  /** No two categories share a key. */
  lemma CategoryKeyInjective(c: TipCategory, d: TipCategory)
    requires CategoryKey(c) == CategoryKey(d)
    ensures c == d
  {
  }

  /** One improvement tip. */
  datatype Tip =
    | ShortCv | CleanFont | ConsistentFormatting | Proofread | UpdatePerApplication
    | StandardHeaders | NoHeadersFooters | NoTables | FileFormat | StandardBullets | SpellOutAcronyms
    | MirrorLanguage | AcronymsAndTerms | KeywordsInContext | SkillKinds | IndustryTerms
    | DateFormats | LeftAlign | SimpleBullets | WhiteSpace | NoFancyFonts
    | ActionVerbs | Quantify | Results | Star | TailorContent | RemoveOutdated

  function TipText(t: Tip): string {
    match t
    case ShortCv => "Keep your CV to 1-2 pages for most roles"
    case CleanFont => "Use a clean, professional font (Arial, Calibri, or Times New Roman)"
    case ConsistentFormatting => "Maintain consistent formatting throughout"
    case Proofread => "Proofread carefully - typos are deal-breakers"
    case UpdatePerApplication => "Update your CV for each application"
    case StandardHeaders => "Use standard section headers (Work Experience, Education, Skills)"
    case NoHeadersFooters => "Avoid headers, footers, and text boxes"
    case NoTables => "Don't use tables or columns for layout"
    case FileFormat => "Save as .docx or .pdf (check job posting requirements)"
    case StandardBullets => "Use standard bullet points, not special characters"
    case SpellOutAcronyms => "Spell out acronyms at least once"
    case MirrorLanguage => "Mirror language from the job description"
    case AcronymsAndTerms => "Include both acronyms and full terms (e.g., 'AI' and 'Artificial Intelligence')"
    case KeywordsInContext => "Place keywords in context, not just in a list"
    case SkillKinds => "Include technical skills, soft skills, and certifications"
    case IndustryTerms => "Use industry-standard terminology"
    case DateFormats => "Use consistent date formats (e.g., 'Jan 2020 - Dec 2022')"
    case LeftAlign => "Left-align all text for ATS readability"
    case SimpleBullets => "Use simple bullet points (-, \U{2022}, or *)"
    case WhiteSpace => "Maintain adequate white space"
    case NoFancyFonts => "Avoid fancy fonts, colors, or graphics"
    case ActionVerbs => "Start bullets with strong action verbs"
    case Quantify => "Quantify achievements with numbers and percentages"
    case Results => "Focus on results, not just responsibilities"
    case Star => "Use the STAR method (Situation, Task, Action, Result)"
    case TailorContent => "Tailor content to the target role"
    case RemoveOutdated => "Remove outdated or irrelevant experience"
  }

  /** The tips listed under a category, in the table's order. */
  function Tips(c: TipCategory): seq<Tip> {
    match c
    case General => [ShortCv, CleanFont, ConsistentFormatting, Proofread, UpdatePerApplication]
    case Ats => [StandardHeaders, NoHeadersFooters, NoTables, FileFormat, StandardBullets, SpellOutAcronyms]
    case Keywords => [MirrorLanguage, AcronymsAndTerms, KeywordsInContext, SkillKinds, IndustryTerms]
    case Formatting => [DateFormats, LeftAlign, SimpleBullets, WhiteSpace, NoFancyFonts]
    case Content => [ActionVerbs, Quantify, Results, Star, TailorContent, RemoveOutdated]
  }

  /** Whether a category's key is the given (lower-cased) category name. */
  predicate KeyIs(key: string, c: TipCategory) {
    CategoryKey(c) == key
  }

  /** `get_improvement_tips`: the tips under the lower-cased category name,
      and the general tips for a name that is not in the table. */
  function GetImprovementTips(category: string): (ts: seq<Tip>)
    ensures forall c :: KeyIs(Lower(category), c) ==> ts == Tips(c)
    ensures (forall c :: !KeyIs(Lower(category), c)) ==> ts == Tips(General)
  {
    var key := Lower(category);
    var k := FirstIndex(TipCategories, (c: TipCategory) => KeyIs(key, c));
    assert forall c :: KeyIs(key, c) ==> k < |TipCategories| && TipCategories[k] == c by {
      forall c | KeyIs(key, c)
        ensures k < |TipCategories| && TipCategories[k] == c
      {
        var i := CategoryIndex(c);
        if k < |TipCategories| {
          CategoryKeyInjective(TipCategories[k], c);
        }
      }
    }
    if k < |TipCategories| then Tips(TipCategories[k]) else Tips(General)
  }

  /** Every category name's tips, whatever its case, are one of the table's
      lists of five or six tips, and no tip appears twice in a list. */
  lemma TipsShape(category: string)
    ensures 5 <= |GetImprovementTips(category)| <= 6
    ensures NoDuplicates(GetImprovementTips(category))
  {
    if c :| KeyIs(Lower(category), c) {
      TipListShape(c);
    } else {
      TipListShape(General);
    }
  }

  lemma TipListShape(c: TipCategory)
    ensures 5 <= |Tips(c)| <= 6 && NoDuplicates(Tips(c))
  {
  }

  /** The lookup ignores letter case. */
  lemma TipsIgnoreCase(category: string)
    ensures GetImprovementTips(category) == GetImprovementTips(Lower(category))
  {
    LowerOfLower(category);
  }
}
