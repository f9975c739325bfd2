# Prompt-injection detector — a Dafny model

This project models the rule-based prompt classifier of a small web
application that screens text before it would reach a language model, and
the page logic that keeps a history of analyses and counts them.

The classifier, `analyzePrompt`, does the following:

- Normalisation. It deletes the invisible characters U+200B–U+200F,
  U+2028–U+202F and U+FEFF. It collapses every run of white space to a
  single space and trims both ends.
- Matching. It runs each of the `DETECTION_RULES` against the normalised
  text, in table order, and records every rule that matches together with
  the first matched text.
- Scoring. Each triggered rule adds points: 40 for a malicious rule, 20 for
  a suspicious one and 5 for any other. The sum is clamped at 100.
- Verdict. The prompt is malicious when a malicious rule fired or the score
  is at least 60. Failing that, it is suspicious when a suspicious rule
  fired or the score is at least 30. Otherwise it is safe.
- Result. Malicious prompts are blocked. Suspicious and malicious prompts
  get a warning that names the distinct categories of the triggered rules,
  in first-seen order. Each result gets the identifier `analysis-N` from a
  module-level counter.

The page does three things. It ignores a blank prompt. It prepends each
new result to the history and makes it the current one. It derives the
counts total, safe, suspicious, malicious and blocked from the history.
Clearing empties the history, the current result and the prompt field.

Modules, one per file:

| file | module | models |
|---|---|---|
| `wrappers.dfy` | `Wrappers` | `Option` |
| `strings.dfy` | `Strings` | substring relation |
| `char_classes.dfy` | `CharClasses` | the invisible-character class and ECMAScript `\s` |
| `normalizer.dfy` | `Normalizer` | `normalizePrompt` |
| `decimal.dfy` | `Decimal` | decimal rendering of the counter |
| `detection.dfy` | `Detection` | the record types of `src/types/detection.ts` |
| `rules.dfy` | `Rules` | `DETECTION_RULES` |
| `matching.dfy` | `Matching` | the rule loop of `analyzePrompt` |
| `scoring.dfy` | `Scoring` | `calculateRiskScore`, `determineRiskLevel` |
| `warnings.dfy` | `Warnings` | `getWarningMessage` |
| `engine.dfy` | `Engine` | `analyzePrompt`, `idCounter` |
| `page.dfy` | `Page` | `stats`, `setPrompt`, `handleAnalyze`, `handleClear` |
| `submissions.dfy` | `Submissions` | several prompts analysed one after another on the page |

The rule table has thirteen entries: eight rules are malicious and five
suspicious, in six categories.

Regular expressions are not interpreted. `Analyze` takes a
`RegexEngine` parameter: any function from a pattern and a text to an
optional span that lies inside the text. Every property below holds for
every such engine. The one rule whose pattern is a plain character class,
`obfusc-2`, is modelled concretely. That makes it possible to prove that
this rule can never fire: the normaliser has already deleted every
character it looks for.

`Analyze` also takes the rule table as a parameter. The source always
passes `DETECTION_RULES`, which `Rules.DetectionRules` models and
`Engine.Detector` fixes. Table-specific facts are proved for that table.

## Model

| member | source | states |
|---|---|---|
| CharClasses.InvisibleExplicit | src/lib/detection-engine.ts:118 | the stripped class is exactly U+200B–U+200F, U+2028–U+202F and U+FEFF |
| CharClasses.WhitespaceExplicit | src/lib/detection-engine.ts:119 | `\s` is exactly ECMAScript white space plus line terminators (section 12.2 and 12.3 of ECMA-262), listed code point by code point |
| Normalizer.StripInvisible | src/lib/detection-engine.ts:118 | the result holds no invisible character, every character it holds comes from the input, and input without invisible characters comes back unchanged |
| Normalizer.CollapseWhitespace | src/lib/detection-engine.ts:119 | every white-space character left is a space, no two white-space characters are adjacent, nothing new is introduced, empty stays empty and only empty becomes empty, a visible first character is kept |
| Normalizer.StripInvisibleAppend | src/lib/detection-engine.ts:118 | deleting invisible characters distributes over concatenation |
| Normalizer.StripInvisibleChar | src/lib/detection-engine.ts:118 | a single character is deleted exactly when it is in the invisible class, and kept otherwise |
| Normalizer.CollapseRun | src/lib/detection-engine.ts:119 | a non-empty run of white space collapses to exactly one space |
| Normalizer.CollapseAppend | src/lib/detection-engine.ts:119 | collapsing distributes over a concatenation that does not join two white-space characters |
| Normalizer.CollapseAtRun | src/lib/detection-engine.ts:119 | a maximal white-space run between two pieces of text is replaced, in place, by exactly one space |
| Normalizer.TrimIsSlice | src/lib/detection-engine.ts:120 | trimming returns a contiguous slice of its input with no white space at either end |
| Normalizer.NormalizeOutput | src/lib/detection-engine.ts:116-121 | the normalised prompt contains no invisible character, only the space as white space, no two adjacent white-space characters and no white space at its ends |
| Normalizer.NormalizeWord | src/lib/detection-engine.ts:116-121 | a word (no white space, no invisible character) is its own normal form |
| Normalizer.NormalizeSeparatesWords | src/lib/detection-engine.ts:116-121 | any mix of white space and invisible characters holding one white-space character, between a word and more visible text, becomes exactly one space |
| Normalizer.NormalizeDropsLeading | src/lib/detection-engine.ts:116-121 | white space and invisible characters in front of a prompt do not change its normal form |
| Normalizer.NormalizeDropsTrailing | src/lib/detection-engine.ts:116-121 | white space and invisible characters after a prompt do not change its normal form |
| Normalizer.NormalizeDropsInvisibleInside | src/lib/detection-engine.ts:116-121 | an invisible character anywhere, even inside a word, is deleted without leaving a space |
| Normalizer.NormalizeFixesNormalized | src/lib/detection-engine.ts:116-121 | text already in normal form is left unchanged |
| Normalizer.NormalizeIdempotent | src/lib/detection-engine.ts:116-121 | normalising twice gives the same text as normalising once |
| Normalizer.NormalizeKeepsVisible | src/lib/detection-engine.ts:116-121 | the visible characters (neither white space nor invisible) and their order are unchanged by normalisation |
| Normalizer.NormalizeEmptyIff | src/lib/detection-engine.ts:116-121 | a prompt normalises to the empty text exactly when it holds no visible character |
| Normalizer.TrimEmptyIff | src/pages/Index.tsx:33 | `trim()` of a prompt is empty exactly when every character of it is white space |
| Normalizer.BlankNormalizesToEmpty | src/pages/Index.tsx:33 | a prompt the page calls blank normalises to the empty text, and the converse fails (a lone U+200B is analysed yet normalises to empty) |
| Decimal.NatToString | src/lib/detection-engine.ts:179 | the rendering of the counter is a non-empty digit string without a leading zero except for 0 itself |
| Decimal.StringToNatOfNatToString | src/lib/detection-engine.ts:179 | reading back the rendered counter gives the counter |
| Decimal.NatToStringInjective | src/lib/detection-engine.ts:179 | different counter values render differently |
| Detection.ResultIdTextInjective | src/lib/detection-engine.ts:179 | different serials give different `analysis-N` identifiers |
| Rules.TableShape | src/lib/detection-engine.ts:3-114 | the table has thirteen rules with distinct ids, none of them safe, and only `obfusc-2` (index 8) is a character class |
| Rules.TableIdsDistinct | src/lib/detection-engine.ts:3-114 | no two rules of the table share an identifier |
| Rules.TableLevels | src/lib/detection-engine.ts:3-114 | which entries are malicious (eight) and which suspicious (five) |
| Rules.TableCategories | src/lib/detection-engine.ts:3-114 | the categories of the thirteen rules, six distinct names |
| Matching.FirstInClass | src/lib/detection-engine.ts:76 | finds the leftmost character of the class, and finds none exactly when no character of the text is in the class |
| Matching.FirstMatch | src/lib/detection-engine.ts:162 | a match is always a substring of the text, and a class pattern matches exactly when some character is in the class |
| Matching.FirstMatchIs | src/lib/detection-engine.ts:162 | `match[0]` is exactly the span the engine reports for a regular expression, and the single leftmost class character for a character class |
| Matching.FiringIndices | src/lib/detection-engine.ts:161-163 | every listed index is that of a rule of the table whose pattern matches |
| Matching.FiringIndicesIncreasing | src/lib/detection-engine.ts:161-163 | the rules are visited in table order, so the firing indices strictly increase |
| Matching.FiringIndicesExact | src/lib/detection-engine.ts:161-163 | an index is listed exactly when its rule's pattern matches the text |
| Matching.MatchRulesStep | src/lib/detection-engine.ts:161-172 | one loop step: a matching rule adds one entry with its first match in front of the rest, a silent rule adds nothing |
| Matching.MatchRulesLength | src/lib/detection-engine.ts:161-172 | the loop records one entry per firing rule |
| Matching.MatchRulesEntry | src/lib/detection-engine.ts:161-172 | the k-th recorded entry is the k-th firing rule together with its first match |
| Matching.MatchRulesAreFiringRules | src/lib/detection-engine.ts:161-172 | the k-th triggered entry comes from the k-th firing rule and carries its id, name, category, level and first match |
| Scoring.TallyIsMultiplicity | src/lib/detection-engine.ts:126-133 | the number of triggered rules of a level is its multiplicity in the multiset of levels |
| Scoring.TallyAppend | src/lib/detection-engine.ts:126-133 | counts of a level add up over concatenated lists |
| Scoring.TallyPartition | src/lib/detection-engine.ts:126-133 | each triggered rule has exactly one of the three levels, so the three counts add up to the length |
| Scoring.AnyOfLevelIffTally | src/lib/detection-engine.ts:138-139 | `some(r => r.riskLevel === level)` holds exactly when the count of that level is positive |
| Scoring.WeightSum | src/lib/detection-engine.ts:126-133 | the unclamped score is 40 per malicious, 20 per suspicious and 5 per other triggered rule |
| Scoring.RiskScore | src/lib/detection-engine.ts:123-135 | the score is at most 100, zero for no triggered rules, and the weighted count clamped at 100 |
| Scoring.DetermineRiskLevel | src/lib/detection-engine.ts:137-141 | malicious exactly when a malicious rule fired or the score reaches 60; suspicious exactly when neither holds and a suspicious rule fired or the score reaches 30; safe otherwise |
| Scoring.RiskScoreOrderIndependent | src/lib/detection-engine.ts:123-141 | score and verdict depend only on how many rules of each level fired, not on their order |
| Scoring.VerdictMonotone | src/lib/detection-engine.ts:123-141 | more triggered rules never lower the verdict |
| Scoring.VerdictWithoutSafeRules | src/lib/detection-engine.ts:137-141 | with no safe entries: safe exactly when nothing fired, malicious exactly when a malicious rule or three rules fired, suspicious exactly for one or two suspicious rules |
| Scoring.ScoreWithoutSafeRules | src/lib/detection-engine.ts:123-135 | with no safe entries the score is 40 per malicious and 20 per suspicious rule, clamped at 100 |
| Warnings.Dedup | src/lib/detection-engine.ts:146 | removing repeats keeps exactly the same members, without duplicates, ordered by first occurrence |
| Warnings.GetWarningMessage | src/lib/detection-engine.ts:143-153 | no warning exactly for a safe verdict, a block warning exactly for a malicious one, the count of triggered rules, and exactly their distinct categories in first-seen order |
| Warnings.WarningText | src/lib/detection-engine.ts:149-152 | the rendered warning says BLOCKED for a block, SUSPICIOUS for a flag, and contains the count |
| Engine.TriggeredLevels | src/lib/detection-engine.ts:161-172 | a table without safe rules triggers no safe entry |
| Engine.SafeVerdictWithoutSafeRules | src/lib/detection-engine.ts:137-172 | for a table without safe rules the verdict is safe exactly when nothing fired |
| Engine.Analyze | src/lib/detection-engine.ts:157-189 | the result keeps the prompt and its normal form and carries the given serial; score in [0, 100]; blocked exactly when malicious; warning exactly when not safe, counting the triggered rules; nothing triggered means score 0 and safe, and for a table without safe rules safe means nothing triggered |
| Engine.MatchedTextsInNormalized | src/lib/detection-engine.ts:157-172 | every reported matched text is a substring of the normalised prompt |
| Engine.SafeIffNothingTriggered | src/lib/detection-engine.ts:3-189 | with the source's table a prompt is safe exactly when no rule fired |
| Engine.VerdictOfMatches | src/lib/detection-engine.ts:137-172 | for a table without safe rules, on any text: malicious exactly when a malicious rule or at least three rules fired, suspicious exactly for one or two non-malicious rules |
| Engine.ScoreOfMatches | src/lib/detection-engine.ts:123-172 | for a table without safe rules, on any text: the score is 40 per malicious and 20 per suspicious rule that fired, clamped at 100 |
| Engine.AnalysisParts | src/lib/detection-engine.ts:157-189 | an analysis's triggered rules come from the rule loop on the normalised prompt; its score, verdict, block flag and warning are computed from them |
| Engine.WarningOfAnalysis | src/lib/detection-engine.ts:143-153 | an analysis's warning is a block exactly for a malicious verdict and names exactly the categories of its triggered rules, once each, in first-seen order |
| Engine.AnalysisLevels | src/lib/detection-engine.ts:157-172 | with a table without safe rules no triggered entry of an analysis is safe |
| Engine.VerdictOfAnalysis | src/lib/detection-engine.ts:123-189 | for a table without safe rules: an analysis is malicious exactly when a malicious rule or at least three rules fired, suspicious exactly for one or two non-malicious rules |
| Engine.TriggeredRulesAreFiringRules | src/lib/detection-engine.ts:157-172 | the triggered rules are exactly the rules whose pattern matches the normal form, once each, in table order, with their own id, name, category and level |
| Engine.UnicodeClassNeverMatchesNormalized | src/lib/detection-engine.ts:76 | the `obfusc-2` character class never matches a normalised prompt |
| Engine.UnicodeRuleNeverTriggersIn | src/lib/detection-engine.ts:72-79 | in any table, a rule with the invisible-character class and an id of its own is never reported |
| Engine.UnicodeRuleNeverTriggers | src/lib/detection-engine.ts:72-79 | no analysis with the source's table ever reports `obfusc-2` |
| Engine.AnalyzeDeterministic | src/lib/detection-engine.ts:157-189 | two analyses of the same prompt differ only in their identifier |
| Engine.AnalyzeRunSerials | src/lib/detection-engine.ts:155-179 | in a run of successive calls the k-th call analyses the k-th prompt with serial counter+k+1 |
| Engine.AnalyzeRunIdsDistinct | src/lib/detection-engine.ts:155-179 | identifiers of successive calls strictly increase and are pairwise distinct as strings |
| Engine.Detector.AnalyzePrompt | src/lib/detection-engine.ts:155-189 | one call increments the module's counter and returns the analysis carrying the new value |
| Engine.Detector.AnalyzePrompts | src/lib/detection-engine.ts:155-189 | calling `analyzePrompt` once per prompt advances the counter by the number of prompts and yields the run from the old counter |
| Page.LevelCountsPartition | src/pages/Index.tsx:24-30 | the safe, suspicious and malicious counts add up to the total |
| Page.BlockedCountIsMaliciousCount | src/pages/Index.tsx:24-30 | for engine results the blocked count equals the malicious count |
| Page.Stats | src/pages/Index.tsx:24-30 | total is the history length, the three level counts partition it, and blocked equals malicious for engine results |
| Page.StatsAfterPrepend | src/pages/Index.tsx:24-39 | prepending one result raises the total and exactly the count of its level by one, and the blocked count by one exactly when it is blocked |
| Page.EnterPrompt | src/pages/Index.tsx:45-47 | setting the prompt, from the text field or an example, changes the prompt only: history, current result and counter stay as they were |
| Page.HandleAnalyze | src/pages/Index.tsx:32-43 | a blank prompt changes nothing; otherwise the counter advances by one, a fresh analysis of the prompt is prepended to an otherwise unchanged history and becomes current |
| Submissions.SubmitOne | src/pages/Index.tsx:32-43 | typing a prompt that is not blank and analysing it prepends its analysis, with the next serial, to the history |
| Submissions.SubmitAllIsRun | src/pages/Index.tsx:32-43 | submitting prompts that are not blank one after another prepends the engine's run for them, newest first, and advances the counter once per prompt |
| Page.HandleClear | src/pages/Index.tsx:49-53 | history, current result and prompt are emptied, the identifier counter is kept |
| Page.InitialWellFormed | src/pages/Index.tsx:19-21 | the initial page state is well formed |
| Page.HandleAnalyzePreservesWellFormed | src/pages/Index.tsx:32-43 | analysing keeps the history consistent, newest first with strictly decreasing serials bounded by the counter, and the current result in it |
| Page.EnterPromptPreservesWellFormed | src/pages/Index.tsx:45-47 | setting the prompt keeps the state well formed |
| Page.HandleClearPreservesWellFormed | src/pages/Index.tsx:49-53 | clearing keeps the state well formed |
| Page.WellFormedConsequences | src/pages/Index.tsx:24-30 | in every well-formed state, hence (by the initial-state and the three preservation lemmas) in every reachable one, the history's identifiers are pairwise distinct and the blocked count equals the malicious count |

## Left out

- Regular-expression semantics: the twelve regex rules run on an engine passed as a parameter, constrained only to return spans inside the text; which prompts they match is not modelled.
- The `timestamp` field: it reads the clock and nothing depends on it.
- The 600 ms delay and the `isAnalyzing` flag: timing and rendering state; the model applies the delayed update at once.
- The list of example prompts: data shown on the page; choosing one is `EnterPrompt` with its text.
- Selecting a past result in the history panel, and all rendering in `src/components/`: presentation only.
- Rule descriptions: kept as data in the table, never read by the classifier.
- Characters are Unicode scalar values; JavaScript strings are UTF-16 code units. Every class involved lies in the Basic Multilingual Plane, so the two agree on well-formed text. A Dafny string cannot hold a lone surrogate, so prompts containing one, and matches that would split a surrogate pair, are not modelled.
- Warnings.WarningText: states only that the verdict word and the count appear in the sentence, not the full wording; the structured `Warning` value is what the other members reason about.
- Engine.Detector.AnalyzePrompt: the mutable counter is a class with a `modifies` contract; its effect over many calls is also stated without mutation, by Engine.AnalyzeRunSerials.
- Engine.AnalyzeRunIdsDistinct: the counter is an unbounded natural number. In the source it is a JavaScript number, which stops growing at 2^53 (`++` then leaves it unchanged), so identifiers would repeat after 2^53 analyses; that limit is not modelled.
- Page.WellFormedConsequences: distinct identifiers in the history rest on the same unbounded counter, so the 2^53 limit above is not modelled here either.
