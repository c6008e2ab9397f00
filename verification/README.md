# Résumé scoring and rewriting pipeline, modelled in Dafny

This project models the core of a small Python pipeline that scores and rewrites CVs (résumés).

- **`CVAnalyzer.analyze_cv`** (`cv_analyzer.py`) turns a CV, plus an optional job description, into:
  - a section score, a keyword score, an action-verb score and a quantification score;
  - the ATS score and the overall score;
  - the formatting issues, strengths and weaknesses found, and the recommendations.
- **`CVOptimizer`** (`cv_optimizer.py`) provides:
  - the three-pass rewrite `optimize_cv_text`: weak-phrase replacement, section-header canonicalisation, then character clean-up;
  - `suggest_keywords`, `enhance_achievements`, `generate_professional_summary`, `format_achievement_with_metrics` and `optimize_for_job_description`.
- **`CVAgent`** (`agent.py`) provides:
  - `analyze_and_optimize`, which runs both components and records each run in the session history;
  - `get_improvement_tips`.

Everything is modelled as pure functions over immutable datatypes, with strings as `seq<char>`. The modules follow the program's structure.

| module | file | what it holds |
|---|---|---|
| `Text` | `text.dfy` | The parts of Python's `str` the pipeline uses: ASCII case mapping, `in`, `count`, `split()`, `split('\n')`, `strip()`, `join`, and integer rendering. |
| `Seqs` | `seqs.dfy` | Order-preserving filters, first-seen de-duplication, and fixed-order rule lists with a fallback. |
| `Patterns` | `patterns.dfy` | Scanners for the regular expressions: the word tokenizer, the number and percentage tokens, case-insensitive literal substitution, the `\bw1\s+w2\b` header pattern, and run collapsing. |
| `Analyzer` | `analyzer.dfy` | `cv_analyzer.py`. |
| `Optimizer` | `optimizer.dfy` | `cv_optimizer.py`. |
| `Witnesses` | `witnesses.dfy` | Concrete inputs on which the rewrite does something a reader might not expect. |
| `Agent` | `agent.dfy` | `agent.py`. |

The model follows the code as written, including these points where the code does something a reader might not expect:

- **Weak phrases** (`cv_optimizer.py:85-94`):
  - They match as plain substrings, with no word boundary.
  - Their replacement is always the lower-case first alternative. The capitalisation test looks at the catalog's own lower-case key, not at the matched text.
- **Quote substitutions** (`cv_optimizer.py:133-134`): the two character classes contain only the straight quote they substitute, so both steps change nothing.
- **`optimize_cv_text` is not idempotent.**
  - "madeid" is rewritten to "createdid", and then to "createperformed".
  - "career about me" is rewritten to "career SUMMARY", and then to "SUMMARY".
  - With a job description, `analyze_and_optimize` rewrites the CV twice, so the second rewrite can matter.
  - Clean-up on its own is idempotent, and so is `enhance_achievements`.

The message lists (issues, strengths, weaknesses, recommendations, tips) are enumerations. A function per enumeration gives the exact text the source emits for each value. The keyword dictionary of the analysis is its list of items, in insertion order.

## Model

| member | source | states |
|---|---|---|
| Text.Lower | cv_analyzer.py:64 | Lower-casing keeps the length and maps every character on its own (ASCII case mapping). |
| Text.CountPositiveIffContains | cv_analyzer.py:123-124 | The non-overlapping `count` of a non-empty word is positive exactly when the text contains the word, so every recorded keyword count is at least one. |
| Text.Count | cv_analyzer.py:124 | The occurrences counted, each as long as the word, fit in the text. |
| Text.Words | cv_analyzer.py:164 | `split()` yields non-empty words without whitespace. |
| Text.WordCount | cv_analyzer.py:164 | `split()` yields one word per word start: as many words as there are non-space characters at the start of the text or right after whitespace. |
| Text.WordsKeepAllText | cv_analyzer.py:164 | The words of `split()`, concatenated, are exactly the non-whitespace characters of the text, in order. |
| Text.NoWordsInBlank | cv_analyzer.py:164-169 | A text of whitespace only has no words. |
| Text.SplitOn | cv_analyzer.py:151 | `split('\n')` yields at least one line and no line holds a line break. |
| Text.SplitJoinRoundTrip | cv_analyzer.py:151 | Joining the lines with line breaks gives back the text. |
| Text.Strip | cv_optimizer.py:188 | A stripped text is no longer than the input and neither starts nor ends with whitespace. |
| Text.StripOfStripped | cv_optimizer.py:188 | Stripping a text that neither starts nor ends with whitespace changes nothing. |
| Text.JoinContains | cv_optimizer.py:236-245 | Every joined part occurs in the joined text. |
| Text.ContainsIffOccurs | cv_analyzer.py:104 | The `in` test holds exactly when the word occurs at some position. |
| Patterns.Tokens | cv_analyzer.py:115 | Every token of `\b[a-zA-Z]{3,}\b` is all letters and at least three long. |
| Patterns.TokensExactly | cv_analyzer.py:115 | A word is a token of the text if and only if it is the letter run at a match start: a word boundary, at least three letters, and a word boundary after them. |
| Patterns.TokensOfLower | cv_optimizer.py:283-288 | Tokenising the lower-cased text gives the lower-cased tokens. The analyzer lower-cases before tokenising and the optimizer after, and both agree. |
| Patterns.NumberTokensPositive | cv_analyzer.py:175 | `\b\d+[%\w]*\b` matches somewhere exactly when some digit starts a word. |
| Patterns.PercentTokens | cv_analyzer.py:213 | There are no more `\b\d+%` matches than `%` characters. |
| Patterns.ReplaceCIAbsent | cv_optimizer.py:87-94 | A case-insensitive substitution whose phrase does not occur leaves the text unchanged. |
| Patterns.ReplaceCILength | cv_optimizer.py:87-94 | Each replaced occurrence trades the phrase's length for the replacement's length. |
| Patterns.CountCI | cv_optimizer.py:87-94 | The occurrences found, each as long as the phrase, fit in the text. |
| Patterns.SubHeaderNoMatch | cv_optimizer.py:116-118 | Where the header pattern matches nowhere, the substitution leaves the text unchanged. |
| Patterns.SubHeaderInsertsName | cv_optimizer.py:116-118 | Where the header pattern matches somewhere, the canonical header appears in the result. |
| Patterns.CollapseRuns | cv_optimizer.py:136-140 | Collapsing runs never lengthens the text, introduces no character, drops no other character, and keeps the first character. |
| Patterns.CollapseRunsBound | cv_optimizer.py:136-140 | After collapsing, no run of the character is longer than the kept length. |
| Patterns.CollapseRunsIdentity | cv_optimizer.py:136-140 | A text with no over-long run is left unchanged. |
| Analyzer.TruncDiv | cv_analyzer.py:197 | `int()` of a quotient truncates toward zero, for negative dividends too. |
| Analyzer.FoundSectionsExact | cv_analyzer.py:102-105 | The sections found are exactly the catalog sections that occur in the lower-cased CV. |
| Analyzer.SectionScore | cv_analyzer.py:100-107 | The score is 20 points per section found, capped at 100, and reaches 100 exactly when five sections are found. |
| Analyzer.SectionScoreMonotone | cv_analyzer.py:100-107 | Appending text to a CV never lowers its section score. |
| Analyzer.ImportantWords | cv_analyzer.py:115-127 | The important words are the distinct job-description tokens with frequency above 2, in first-seen order, and no other words. |
| Analyzer.AnalyzeKeywords | cv_analyzer.py:109-136 | The score covers the following cases. The score is 50 with an empty analysis when the job description is empty or has no important word. Otherwise it is `floor(100 × found / important)`, in [0, 100]. The keys are exactly the important words that occur in the lower-cased CV, in first-seen order, each with its count of at least 1. |
| Analyzer.KeywordsAmong | cv_analyzer.py:120-132 | The same facts for any distinct, first-seen-ordered list of words of at least three letters. |
| Analyzer.KeysOfTally | cv_analyzer.py:122-124 | The keys of the keyword dictionary are the words it was built from. |
| Analyzer.IssueRules | cv_analyzer.py:142-154 | The five formatting rules come in the fixed order pipe, bullets, non-ASCII, tabs, short lines. |
| Analyzer.CheckFormatting | cv_analyzer.py:138-156 | At most five issues, in rule order. Each issue is present exactly when its condition holds: a pipe, a special bullet, a non-ASCII character, more than 10 tabs, or `10·short > 3·lines`. |
| Analyzer.ShortLines | cv_analyzer.py:151-152 | There are no more short lines than lines. |
| Analyzer.BulletImpliesNonAscii | cv_analyzer.py:44-48 | A special-bullet issue always comes with the non-ASCII issue. |
| Analyzer.SumCountsZeroIff | cv_analyzer.py:160-162 | The summed verb count is zero exactly when no verb occurs. |
| Analyzer.ActionVerbScore | cv_analyzer.py:158-170 | The score lies in [0, 100]. It is 0 without words or without verbs. It is 100 exactly when there is one verb occurrence per ten words. Below 100 it is the verb density times 1000, rounded down. |
| Analyzer.NoVerbsScoresZero | cv_analyzer.py:158-170 | A CV containing no catalog verb scores 0. |
| Analyzer.QuantificationScore | cv_analyzer.py:172-185 | A step function: 100 above 10 matches, 75 for 6 to 10, 50 for 3 to 5, and 25 for at most 2. |
| Analyzer.QuantificationMonotone | cv_analyzer.py:172-185 | More matches never lower the score. |
| Analyzer.QuantificationOfText | cv_analyzer.py:175-185 | A score above 25 needs some digit that starts a word. |
| Analyzer.AtsScore | cv_analyzer.py:187-197 | The ATS score is 40% of the section score plus 40% of the keyword score, minus 10 per formatting issue with at most 30 deducted, rounded down and never below 0. It is at most 80 for sub-scores in [0, 100], and at most 50 with three or more issues. |
| Analyzer.AtsScoreMonotone | cv_analyzer.py:193-195 | More formatting issues never raise the ATS score. |
| Analyzer.OverallScore | cv_analyzer.py:199-206 | The overall score is `floor((2·ats + verbs + quant)/4)`, and lies in [6, 90] for the sub-scores `analyze_cv` can produce. |
| Analyzer.StrengthRules | cv_analyzer.py:210-229 | The four strength rules come in fixed order, with distinct messages. |
| Analyzer.IdentifyStrengths | cv_analyzer.py:208-231 | One to four strengths, in rule order. Each strength is present exactly when its condition holds: more than 3 percentages, more than 10 verbs, all essential sections, or 300 to 800 words. The fallback appears exactly when none holds. |
| Analyzer.WeaknessRules | cv_analyzer.py:236-263 | The seven weakness rules come in fixed order, with distinct messages that never include the fallback. |
| Analyzer.WeaknessList | cv_analyzer.py:233-265 | The rules that fire, in order, or else only the fallback. Every rule's message is present exactly when it fires. |
| Analyzer.IdentifyWeaknesses | cv_analyzer.py:233-265 | One to seven weaknesses. Each is present exactly when its condition holds: a missing section, more than 3 weak phrases, fewer than 200 or more than 1000 words, or some formatting issue. |
| Analyzer.NeverMentionsQuantified | cv_analyzer.py:303-307 | No weakness text contains "quantified", so the quantification advice is always given. |
| Analyzer.MentionsMissingIff | cv_analyzer.py:282-286 | A weakness text contains "missing" exactly for the three missing-section weaknesses. |
| Analyzer.AnyMentionsMissingIff | cv_analyzer.py:282 | A weakness list mentions "missing" exactly when it holds a missing-section weakness. |
| Analyzer.WeaknessMentions | cv_analyzer.py:239-246 | The weaknesses of a CV mention "missing" exactly when a section is missing, and never mention "quantified". |
| Analyzer.RecommendationRules | cv_analyzer.py:274-300 | The four conditional rules come in fixed order. |
| Analyzer.LeadingRecommendations | cv_analyzer.py:274-300 | Each of the four pieces of advice is present exactly when its rule fires, in rule order. |
| Analyzer.ClosingRecommendations | cv_analyzer.py:302-313 | Tailoring always comes last. The quantification advice comes just before it, exactly when no weakness mentions quantification. |
| Analyzer.RecommendationList | cv_analyzer.py:267-315 | One to six pieces of advice, ordered as the rules are, ending with tailoring. |
| Analyzer.RecommendationListMembers | cv_analyzer.py:267-315 | Each piece of advice is in the list exactly when its rule fires. |
| Analyzer.GenerateRecommendations | cv_analyzer.py:267-315 | The recommendations in order: formatting exactly when there are issues, sections exactly when a weakness mentions "missing", keywords below 60, verbs below 50, then quantification and tailoring. |
| Analyzer.Combine | cv_analyzer.py:73-98 | Combining valid sub-scores gives an ATS score in [0, 80] and an overall score in [6, 90], with two to six recommendations. The ATS score is computed from the section score, the number of formatting issues and the keyword score. The overall score is computed from the ATS, verb and quantification scores. Keyword advice is given exactly when the keyword score is below 60, and impact advice exactly when the verb score is below 50. |
| Analyzer.AnalyzeCv | cv_analyzer.py:53-98 | The scores are in range. The lists have their sizes. The issues, strengths and weaknesses are those of the original CV. There is no keyword analysis without a job description. |
| Analyzer.AnalyzeCvScores | cv_analyzer.py:64-79 | The keyword analysis of a full analysis is the keywords found in the job description. The ATS score comes from the section score of the lower-cased CV, the number of formatting issues and the keyword score. The overall score comes from the ATS score, the action-verb score and the quantification score. |
| Analyzer.AnalyzeCvAdvice | cv_analyzer.py:83-88 | The advice of a full analysis ends with quantification then tailoring. It asks to fix formatting exactly when an issue was found, and to add sections exactly when one is missing. |
| Analyzer.AnalyzeCvScoreAdvice | cv_analyzer.py:85-87 | A full analysis advises optimizing keywords exactly when the keyword score of the CV against the job description is below 60. It advises strengthening impact exactly when the action-verb score of the lower-cased CV is below 50. |
| Optimizer.PhraseImprovementsWellFormed | cv_optimizer.py:15-25 | Every catalog phrase is non-empty and has a first alternative. |
| Optimizer.CatalogReplacementsLowerCase | cv_optimizer.py:91-94 | Every catalog replacement is the lower-case first alternative, because the catalog keys are lower case. |
| Optimizer.ImproveStepIsReplace | cv_optimizer.py:89-94 | The `search` guard is redundant: each step is the plain case-insensitive substitution. |
| Optimizer.ImproveStepLength | cv_optimizer.py:87-94 | A step changes the length by the count of occurrences times the length difference, and changes nothing without an occurrence. |
| Optimizer.ImproveUnchanged | cv_optimizer.py:81-96 | A text containing no catalog phrase is returned unchanged. |
| Optimizer.ImproveLacking | cv_optimizer.py:87-89 | A phrase with a letter the text lacks leaves the text alone. |
| Optimizer.ImproveAppend | cv_optimizer.py:85-94 | The phrases apply in list order: two parts of the list applied one after the other act as the whole list. |
| Optimizer.HeaderStepEffect | cv_optimizer.py:116-118 | A matching header pattern puts its canonical header into the text. A pattern that does not match leaves the text alone. |
| Optimizer.HeaderLacking | cv_optimizer.py:103-112 | A header pattern with a letter the text lacks does not match. |
| Optimizer.StandardizeUnchanged | cv_optimizer.py:98-120 | A text on which no header pattern matches is returned unchanged. |
| Optimizer.StandardizeAppend | cv_optimizer.py:116-118 | The header patterns apply in list order. |
| Optimizer.RemoveGlyphs | cv_optimizer.py:126-130 | Every bullet glyph and em dash becomes a hyphen, and every other character stays in place. |
| Optimizer.CollapseBlanks | cv_optimizer.py:136-140 | No double space and no triple line break remain, and no character is introduced. |
| Optimizer.CleanFormatting | cv_optimizer.py:122-142 | The clean-up never lengthens the text. It leaves no bullet glyph, em dash, double space or triple line break, and introduces nothing but hyphens. |
| Optimizer.CleanFormattingFixpoint | cv_optimizer.py:122-142 | The clean-up leaves a text unchanged exactly when the text has none of those four defects. |
| Optimizer.CleanFormattingIdempotent | cv_optimizer.py:122-142 | Cleaning twice is cleaning once. |
| Optimizer.OptimizeText | cv_optimizer.py:59-79 | The rewritten CV has no bullet glyph, em dash, double space or triple line break, whatever the role and industry. |
| Optimizer.SecondRewriteCleanUp | cv_optimizer.py:72-79 | On a rewritten CV the clean-up pass changes nothing, so only the phrase and header passes can make a second rewrite differ. |
| Optimizer.IndustryKeywordsNonEmpty | cv_optimizer.py:28-54 | Every industry has a non-empty name and keyword list. |
| Optimizer.IndustryMatch | cv_optimizer.py:157-162 | The keywords come from the first industry, in declaration order, whose name occurs in the lower-cased industry argument, and nothing comes when none does. |
| Optimizer.SuggestKeywords | cv_optimizer.py:144-176 | The result is the set union of the first matching industry's keywords and the lists for the senior/lead, manager and engineer/developer flags, and nothing else. It is empty exactly when nothing matches. |
| Optimizer.EmptyIndustryMatchesNothing | cv_optimizer.py:155-176 | An empty industry contributes nothing, so only the role can add keywords. |
| Optimizer.CatalogStable | cv_optimizer.py:15-25 | No catalog entry's first alternative starts with the stem of any catalog phrase. |
| Optimizer.RewriteLeadingPhrase | cv_optimizer.py:190-195 | The loop's result is empty exactly when the stripped text is, and neither starts nor ends with whitespace. |
| Optimizer.RewriteAt | cv_optimizer.py:192-194 | A rewritten text starts with an upper-case letter and ends in a non-space. |
| Optimizer.RewriteLeadingPhraseEffect | cv_optimizer.py:190-195 | Only the first rule whose phrase starts the text rewrites it, to the capitalised first alternative followed by the rest. Without such a rule the text is unchanged. |
| Optimizer.EnhanceWith | cv_optimizer.py:188-201 | The result is empty exactly when the stripped input is. Otherwise it starts with no lower-case letter and has no surrounding whitespace. |
| Optimizer.EnhanceWithEffect | cv_optimizer.py:188-201 | With a leading phrase, that phrase is replaced and the rest of the stripped text is kept. Without one, only the case of the first letter can change. |
| Optimizer.EnhancedHasNoLeadingPhrase | cv_optimizer.py:190-195 | No catalog phrase starts an enhanced text. |
| Optimizer.EnhanceWithIdempotent | cv_optimizer.py:188-201 | With stable rules, enhancing twice is enhancing once. |
| Optimizer.EnhanceAchievement | cv_optimizer.py:178-201 | `enhance_achievements` replaces the first leading catalog phrase, in catalog order, with its capitalised first alternative. Without a leading phrase it keeps the stripped text up to the case of the first letter. |
| Optimizer.EnhanceIdempotent | cv_optimizer.py:178-201 | Enhancing an enhanced achievement changes nothing. |
| Optimizer.UpperFirstLower | cv_optimizer.py:198-199 | Upper-casing the first letter is invisible after lower-casing. |
| Optimizer.ExperienceLevel | cv_optimizer.py:219-227 | The descriptor step counts how many of the thresholds 2, 5 and 10 the years reach. |
| Optimizer.ProfessionalSummary | cv_optimizer.py:203-247 | The summary opens with the descriptor sentence, mentions each of the first four skills and the first achievement, lower-cased, and ends with a full stop. |
| Optimizer.SummaryPartsShape | cv_optimizer.py:230-243 | The skills part comes second and the achievement part last. |
| Optimizer.SummaryMentions | cv_optimizer.py:230-245 | The joined summary starts with its first part, and mentions the first four skills and the first achievement. |
| Optimizer.SummaryIgnoresTheRest | cv_optimizer.py:235-243 | Only the first four skills and the first achievement affect the summary. |
| Optimizer.FormatAchievement | cv_optimizer.py:249-265 | The text opens with "action, resulting in result". It is 15 characters longer than action plus result, and 3 more plus the metric when a metric is given. |
| Optimizer.FormatAchievementMetric | cv_optimizer.py:262-265 | A non-empty metric adds exactly " (metric)". |
| Optimizer.CountedWords | cv_optimizer.py:283-288 | No stop word is counted. |
| Optimizer.CountedWordsFreq | cv_optimizer.py:283-288 | Leaving out the stop words changes no other word's frequency. |
| Optimizer.JobKeywords | cv_optimizer.py:290-294 | The important keywords are exactly the distinct counted words with frequency of at least 3, in first-seen order. |
| Optimizer.MissingKeywords | cv_optimizer.py:296-301 | The missing keywords are exactly the important keywords absent from the lower-cased CV, in first-seen order. |
| Optimizer.MissingKeywordsEmpty | cv_optimizer.py:296-307 | Nothing is missing exactly when every stressed word occurs in the CV. |
| Optimizer.FirstMissingNamed | cv_optimizer.py:303-307 | The suggestion names one to ten distinct missing words, in the order they first occur in the job description. A missing word it leaves out comes after ten named ones. |
| Optimizer.OptimizeForJob | cv_optimizer.py:267-312 | The text is the general rewrite, whatever the job description. There is at most one suggestion, present exactly when some stressed word is missing, and it names the first ten missing words in first-seen order. |
| Witnesses.RewriteNotIdempotent | cv_optimizer.py:22-23 | "madeid" is rewritten to "createdid", and a second rewrite gives "createperformed". |
| Witnesses.EmploymentHistoryExample | cv_optimizer.py:102-120 | "Employment History" becomes "WORK EXPERIENCE". |
| Witnesses.HeaderRewriteNotIdempotent | cv_optimizer.py:111-112 | "career about me" becomes "career SUMMARY", and a second pass gives "SUMMARY". |
| Agent.RunOptimized | agent.py:47-61 | Without a job description the CV is rewritten once. With one, it is rewritten twice. |
| Agent.RunKeywords | agent.py:51-54 | No keywords are suggested without an industry. |
| Agent.RunJobSuggestions | agent.py:56-61 | There are no job-specific suggestions without a job description. Otherwise there are none exactly when every stressed word occurs in the rewritten CV. There is at most one, and it names the first missing stressed words of the rewritten CV in first-seen order. |
| Agent.Record | agent.py:72-73 | The history gains exactly one entry, the run's result, and keeps the earlier ones. |
| Agent.RespondAnalysesOriginal | agent.py:44-70 | The analysis is of the original CV, never the rewritten one, and the original CV is returned unchanged. |
| Agent.AnalyzeAndOptimize | agent.py:26-75 | A run appends its result to the session history. The result holds the analysis of the original CV, the rewritten CV, the industry keywords, the job-specific suggestions and the original CV. |
| Agent.RunSessionFirst | agent.py:26-75 | A session starts with an `analyze_and_optimize` run. |
| Agent.SessionWithRecords | agent.py:72-73 | A session appends one result per run, in order, after the earlier entries. |
| Agent.SessionRecordsEveryRun | agent.py:72-73 | After a session, the history is the earlier entries followed by every run's results. |
| Agent.NewSessionHistory | agent.py:21-24 | A new agent's history after a session is exactly its runs' results. |
| Agent.JobDescriptionRewritesTwice | agent.py:49-61 | With a job description the CV "madeid" comes back as "createperformed". Without one it comes back as "createdid". |
| Agent.CategoryIndex | agent.py:166-204 | Every tip category has its place in the table. |
| Agent.CategoryKeyInjective | agent.py:166-204 | No two categories share a key. |
| Agent.GetImprovementTips | agent.py:156-206 | The tips are those of the lower-cased category, or the general tips for an unknown category. |
| Agent.TipsShape | agent.py:166-206 | Every lookup returns five or six distinct tips. |
| Agent.TipsIgnoreCase | agent.py:206 | The lookup ignores letter case. |

## Left out

- Printing, the `main()` demos, `print_report`, argument parsing and file I/O (cv_analyzer.py:318-373, cv_optimizer.py:315-355, agent.py:77-154, 209-304): these are presentation and I/O.
- Floating-point arithmetic. Scores use exact integer formulas, such as `(4·s + 4·k)/10` for the ATS score and `1000·verbs/words` for the verb density. Off-by-one results that binary floats can give at a boundary, such as `int(29/100*100) == 28`, are not modelled.
- Full Unicode case mapping, `\w`, `\d`, `\b` and case-insensitive folding. These are ASCII approximations. Whitespace is Python's full `str.isspace` set, and the non-ASCII test is "code point above 127".
- Patterns.PercentTokens: only the bound by the number of `%` characters is stated, not the exact count of `\b\d+%` matches.
- Optimizer.SuggestKeywords: it returns a set, because `list(set(...))` has no specified order.
- The unused `analysis_cache` (cv_analyzer.py:51) and `optimization_history` (cv_optimizer.py:57).
- Optimizer.OptimizeText: `target_role` and `industry` are accepted and ignored, as in the source. Its contract states only the clean-up guarantees. The exact composition of the three passes is its definition, and the witnesses pin it down on concrete inputs.
- The tips are an enumeration with a text function. The tip texts are in the model but no property mentions them.
- Agent.Respond: a run's results have no contract of their own. Each field's property is stated on AnalyzeAndOptimize, through RunOptimized, RunKeywords and RunJobSuggestions.
- Optimizer.EnhanceWithIdempotent: idempotence is proved for rule lists with the stability properties. The catalog has them (CatalogStable), which gives EnhanceIdempotent for the real catalog.
- The progress messages `analyze_and_optimize` prints.
