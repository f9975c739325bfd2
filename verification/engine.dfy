/** `analyzePrompt` and its identifier counter
    (src/lib/detection-engine.ts:155-189).

    The analysis is stated for any rule table `rules`; the source always
    passes `DetectionRules`, and the properties that depend on that
    particular table are proved for it below. */
module Engine {
  import opened Wrappers
  import opened Strings
  import opened Detection
  import opened Normalizer
  import opened Rules
  import opened Matching
  import opened Scoring
  import opened Warnings

  /** What holds of every result the engine returns: the score lies in
      [0, 100], `blocked` is set exactly for a malicious verdict, and a
      warning is present exactly when the verdict is not safe. */
  predicate Consistent(r: DetectionResult)
  {
    && r.score <= 100
    && (r.blocked <==> r.riskLevel == Malicious)
    && (r.warningMessage.None? <==> r.riskLevel == Safe)
  }

  /** Every entry triggered by a table without safe rules has a level other
      than safe. */
  lemma TriggeredLevels(rules: seq<DetectionRule>, s: string, engine: RegexEngine)
    requires NoSafeRule(rules)
    ensures forall k :: 0 <= k < |MatchRules(rules, s, engine, 0)| ==>
      MatchRules(rules, s, engine, 0)[k].riskLevel != Safe
  {
    MatchRulesAreFiringRules(rules, s, engine, 0);
  }

  lemma SafeVerdictWithoutSafeRules(rules: seq<DetectionRule>, s: string, engine: RegexEngine)
    ensures var t := MatchRules(rules, s, engine, 0);
      NoSafeRule(rules) ==> (Verdict(t) == Safe <==> t == [])
  {
    if NoSafeRule(rules) {
      TriggeredLevels(rules, s, engine);
      VerdictWithoutSafeRules(MatchRules(rules, s, engine, 0));
    }
  }

  /** One call of `analyzePrompt`, given the value `serial` that
      `++idCounter` produces, the rule table and the regular-expression
      engine. */
  function Analyze(rules: seq<DetectionRule>, serial: nat, prompt: string, engine: RegexEngine): (r: DetectionResult)
    ensures r.id == AnalysisId(serial)
    ensures r.originalPrompt == prompt
    ensures r.normalizedPrompt == Normalize(prompt)
    ensures Consistent(r)
    ensures r.triggeredRules == [] ==> r.score == 0 && r.riskLevel == Safe
    ensures NoSafeRule(rules) ==> (r.riskLevel == Safe <==> r.triggeredRules == [])
    ensures r.warningMessage.Some? ==> r.warningMessage.value.count == |r.triggeredRules|
  {
    var normalizedPrompt := Normalize(prompt);
    var triggeredRules := MatchRules(rules, normalizedPrompt, engine, 0);
    SafeVerdictWithoutSafeRules(rules, normalizedPrompt, engine);
    var score := RiskScore(triggeredRules);
    var riskLevel := DetermineRiskLevel(score, triggeredRules);
    DetectionResult(
      AnalysisId(serial),
      prompt,
      normalizedPrompt,
      riskLevel,
      score,
      triggeredRules,
      riskLevel == Malicious,
      GetWarningMessage(riskLevel, triggeredRules))
  }

  /** Every reported match is a piece of the normalised prompt. */
  lemma MatchedTextsInNormalized(rules: seq<DetectionRule>, serial: nat, prompt: string, engine: RegexEngine)
    ensures var r := Analyze(rules, serial, prompt, engine);
      forall k :: 0 <= k < |r.triggeredRules| ==> IsSubstring(r.triggeredRules[k].matchedText, r.normalizedPrompt)
  {
    AnalysisParts(rules, serial, prompt, engine);
    MatchedTextsAreSubstrings(rules, Normalize(prompt), engine);
  }

  /** With the source's table the verdict is safe exactly when no rule
      fired. */
  lemma SafeIffNothingTriggered(serial: nat, prompt: string, engine: RegexEngine)
    ensures var r := Analyze(DetectionRules, serial, prompt, engine);
      r.riskLevel == Safe <==> r.triggeredRules == []
  {
    TableShape();
  }

  /** For a table without safe rules, on any text: the verdict of the
      triggered list is malicious exactly when a malicious rule or at least
      three rules fired, and suspicious exactly when one or two rules fired
      and none is malicious. */
  lemma VerdictOfMatches(rules: seq<DetectionRule>, s: string, engine: RegexEngine)
    requires NoSafeRule(rules)
    ensures var t := MatchRules(rules, s, engine, 0);
      && (Verdict(t) == Malicious <==> Tally(t, Malicious) > 0 || |t| >= 3)
      && (Verdict(t) == Suspicious <==> Tally(t, Malicious) == 0 && 1 <= |t| <= 2)
  {
    TriggeredLevels(rules, s, engine);
    VerdictWithoutSafeRules(MatchRules(rules, s, engine, 0));
  }

  /** For a table without safe rules, on any text: the score is forty per
      malicious and twenty per suspicious rule that fired, clamped at 100. */
  lemma ScoreOfMatches(rules: seq<DetectionRule>, s: string, engine: RegexEngine)
    requires NoSafeRule(rules)
    ensures var t := MatchRules(rules, s, engine, 0);
      RiskScore(t) == Min(40 * Tally(t, Malicious) + 20 * Tally(t, Suspicious), 100)
  {
    TriggeredLevels(rules, s, engine);
    ScoreWithoutSafeRules(MatchRules(rules, s, engine, 0));
  }

  /** How the fields of a result arise from the rule loop: the triggered
      list, then score, verdict, block flag and warning computed from it. */
  lemma AnalysisParts(rules: seq<DetectionRule>, serial: nat, prompt: string, engine: RegexEngine)
    ensures var r := Analyze(rules, serial, prompt, engine);
      && r.triggeredRules == MatchRules(rules, r.normalizedPrompt, engine, 0)
      && r.score == RiskScore(r.triggeredRules)
      && r.riskLevel == Verdict(r.triggeredRules)
      && r.blocked == (r.riskLevel == Malicious)
      && r.warningMessage == GetWarningMessage(r.riskLevel, r.triggeredRules)
  {
  }

  /** The warning of an analysis names exactly the categories of its
      triggered rules, each once, in first-seen order, and reads as a
      block exactly for a malicious verdict. */
  lemma WarningOfAnalysis(rules: seq<DetectionRule>, serial: nat, prompt: string, engine: RegexEngine)
    ensures var r := Analyze(rules, serial, prompt, engine);
      r.warningMessage.Some? ==>
        var w := r.warningMessage.value;
        && (w.kind == Blocked <==> r.riskLevel == Malicious)
        && NoDuplicates(w.categories)
        && (forall c :: c in w.categories <==> exists k :: 0 <= k < |r.triggeredRules| && r.triggeredRules[k].category == c)
        && (forall i, j :: 0 <= i < j < |w.categories| ==>
              FirstIndex(Categories(r.triggeredRules), w.categories[i]) < FirstIndex(Categories(r.triggeredRules), w.categories[j]))
  {
    AnalysisParts(rules, serial, prompt, engine);
  }

  /** With a table without safe rules no triggered entry is safe. */
  lemma AnalysisLevels(rules: seq<DetectionRule>, serial: nat, prompt: string, engine: RegexEngine)
    requires NoSafeRule(rules)
    ensures var t := Analyze(rules, serial, prompt, engine).triggeredRules;
      forall k :: 0 <= k < |t| ==> t[k].riskLevel != Safe
  {
    AnalysisParts(rules, serial, prompt, engine);
    TriggeredLevels(rules, Normalize(prompt), engine);
  }

  /** The verdict of an analysis with a table without safe rules, as the
      source's is: malicious exactly when a malicious rule or at least
      three rules fired, suspicious exactly when one or two rules fired and
      none is malicious. */
  lemma VerdictOfAnalysis(rules: seq<DetectionRule>, serial: nat, prompt: string, engine: RegexEngine)
    requires NoSafeRule(rules)
    ensures var r := Analyze(rules, serial, prompt, engine);
      var t := r.triggeredRules;
      && (r.riskLevel == Malicious <==> Tally(t, Malicious) > 0 || |t| >= 3)
      && (r.riskLevel == Suspicious <==> Tally(t, Malicious) == 0 && 1 <= |t| <= 2)
  {
    AnalysisParts(rules, serial, prompt, engine);
    AnalysisLevels(rules, serial, prompt, engine);
    VerdictWithoutSafeRules(Analyze(rules, serial, prompt, engine).triggeredRules);
  }

  /** Which rules fire on a prompt: exactly those whose pattern matches the
      normalised text, each once, in table order, each entry carrying its
      rule's id, name, category and level. */
  lemma TriggeredRulesAreFiringRules(rules: seq<DetectionRule>, serial: nat, prompt: string, engine: RegexEngine)
    ensures var r := Analyze(rules, serial, prompt, engine);
      var o := FiringIndices(rules, r.normalizedPrompt, engine, 0);
      && |r.triggeredRules| == |o|
      && (forall k, l :: 0 <= k < l < |o| ==> o[k] < o[l])
      && (forall i :: 0 <= i < |rules| ==> (i in o <==> Fires(rules[i], r.normalizedPrompt, engine)))
      && (forall k :: 0 <= k < |o| ==>
            && o[k] < |rules|
            && r.triggeredRules[k].ruleId == rules[o[k]].id
            && r.triggeredRules[k].ruleName == rules[o[k]].name
            && r.triggeredRules[k].category == rules[o[k]].category
            && r.triggeredRules[k].riskLevel == rules[o[k]].riskLevel)
  {
    var r := Analyze(rules, serial, prompt, engine);
    assert r.triggeredRules == MatchRules(rules, r.normalizedPrompt, engine, 0);
    MatchRulesAreFiringRules(rules, r.normalizedPrompt, engine, 0);
    FiringIndicesIncreasing(rules, r.normalizedPrompt, engine, 0);
    FiringIndicesExact(rules, r.normalizedPrompt, engine, 0);
  }

  /** The "Unicode Manipulation" class never matches normalised text: the
      normaliser has already deleted every character it looks for. */
  lemma UnicodeClassNeverMatchesNormalized(prompt: string, engine: RegexEngine)
    ensures FirstMatch(UnicodePattern, Normalize(prompt), engine) == None
  {
    NormalizeOutput(prompt);
  }

  /** For any table, a rule whose pattern is that class and whose id no
      other rule shares never appears among the triggered rules. */
  lemma UnicodeRuleNeverTriggersIn(rules: seq<DetectionRule>, u: nat, serial: nat, prompt: string, engine: RegexEngine)
    requires u < |rules| && rules[u].pattern == UnicodePattern
    requires forall i :: 0 <= i < |rules| && i != u ==> rules[i].id != rules[u].id
    ensures forall k :: 0 <= k < |Analyze(rules, serial, prompt, engine).triggeredRules| ==>
      Analyze(rules, serial, prompt, engine).triggeredRules[k].ruleId != rules[u].id
  {
    var r := Analyze(rules, serial, prompt, engine);
    var s := r.normalizedPrompt;
    var o := FiringIndices(rules, s, engine, 0);
    UnicodeClassNeverMatchesNormalized(prompt, engine);
    TriggeredRulesAreFiringRules(rules, serial, prompt, engine);
    assert !Fires(rules[u], s, engine);
    forall k | 0 <= k < |r.triggeredRules|
      ensures r.triggeredRules[k].ruleId != rules[u].id
    {
      assert o[k] in o;
      assert o[k] != u;
    }
  }

  /** Consequently the rule `obfusc-2` never appears among the triggered
      rules of any analysis with the source's table. */
  lemma UnicodeRuleNeverTriggers(serial: nat, prompt: string, engine: RegexEngine)
    ensures forall k :: 0 <= k < |Analyze(DetectionRules, serial, prompt, engine).triggeredRules| ==>
      Analyze(DetectionRules, serial, prompt, engine).triggeredRules[k].ruleId != "obfusc-2"
  {
    TableShape();
    UnicodeRuleNeverTriggersIn(DetectionRules, UnicodeRuleIndex, serial, prompt, engine);
  }

  /** Analysing the same prompt twice differs only in the identifier. */
  lemma AnalyzeDeterministic(rules: seq<DetectionRule>, a: nat, b: nat, prompt: string, engine: RegexEngine)
    ensures Analyze(rules, a, prompt, engine).(id := AnalysisId(b)) == Analyze(rules, b, prompt, engine)
  {
  }

  /** Successive calls of `analyzePrompt` on `prompts`, starting with the
      counter at `counter`: each call first increments the counter and
      then analyses its prompt with the new value. */
  function AnalyzeRun(rules: seq<DetectionRule>, counter: nat, prompts: seq<string>, engine: RegexEngine): (rs: seq<DetectionResult>)
    ensures |rs| == |prompts|
    decreases |prompts|
  {
    if prompts == [] then []
    else [Analyze(rules, counter + 1, prompts[0], engine)] + AnalyzeRun(rules, counter + 1, prompts[1..], engine)
  }

  /** The k-th call of a run analyses the k-th prompt with serial
      `counter + k + 1`. */
  lemma {:induction false} AnalyzeRunSerials(rules: seq<DetectionRule>, counter: nat, prompts: seq<string>, engine: RegexEngine)
    ensures var rs := AnalyzeRun(rules, counter, prompts, engine);
      forall k :: 0 <= k < |prompts| ==> rs[k] == Analyze(rules, counter + k + 1, prompts[k], engine)
    decreases |prompts|
  {
    if prompts != [] {
      AnalyzeRunSerials(rules, counter + 1, prompts[1..], engine);
      var rs := AnalyzeRun(rules, counter, prompts, engine);
      var rest := AnalyzeRun(rules, counter + 1, prompts[1..], engine);
      forall k | 0 <= k < |prompts|
        ensures rs[k] == Analyze(rules, counter + k + 1, prompts[k], engine)
      {
        if k == 0 {
          AnalyzeRunHead(rules, counter, prompts, engine);
        } else {
          AnalyzeRunTail(rules, counter, prompts, engine, k);
          AnalyzeRunShift(rules, counter, prompts, engine, k);
        }
      }
    }
  }

  lemma AnalyzeRunHead(rules: seq<DetectionRule>, counter: nat, prompts: seq<string>, engine: RegexEngine)
    requires prompts != []
    ensures AnalyzeRun(rules, counter, prompts, engine)[0] == Analyze(rules, counter + 1, prompts[0], engine)
  {
  }

  lemma AnalyzeRunTail(rules: seq<DetectionRule>, counter: nat, prompts: seq<string>, engine: RegexEngine, k: nat)
    requires 0 < k < |prompts|
    ensures AnalyzeRun(rules, counter, prompts, engine)[k] == AnalyzeRun(rules, counter + 1, prompts[1..], engine)[k - 1]
  {
  }

  /** The analysis the rest of a run gives its (k-1)-th prompt is the one
      the whole run gives its k-th. */
  lemma AnalyzeRunShift(rules: seq<DetectionRule>, counter: nat, prompts: seq<string>, engine: RegexEngine, k: nat)
    requires 0 < k < |prompts|
    ensures Analyze(rules, counter + 1 + (k - 1) + 1, prompts[1..][k - 1], engine) == Analyze(rules, counter + k + 1, prompts[k], engine)
  {
    assert prompts[1..][k - 1] == prompts[k];
  }

  /** No two results of a run share an identifier, not even as strings,
      and identifiers grow in call order. */
  lemma AnalyzeRunIdsDistinct(rules: seq<DetectionRule>, counter: nat, prompts: seq<string>, engine: RegexEngine)
    ensures var rs := AnalyzeRun(rules, counter, prompts, engine);
      forall i, j :: 0 <= i < j < |rs| ==>
        rs[i].id.serial < rs[j].id.serial && rs[i].id.Text() != rs[j].id.Text()
  {
    AnalyzeRunSerials(rules, counter, prompts, engine);
    var rs := AnalyzeRun(rules, counter, prompts, engine);
    forall i, j | 0 <= i < j < |rs|
      ensures rs[i].id.serial < rs[j].id.serial && rs[i].id.Text() != rs[j].id.Text()
    {
      ResultIdTextInjective(rs[i].id, rs[j].id);
    }
  }

  /** The module holding `DETECTION_RULES` and `idCounter`, with the engine
      the rules' regular expressions run on. */
  class Detector {
    const rules: seq<DetectionRule>
    const engine: RegexEngine
    var idCounter: nat

    constructor(engine: RegexEngine)
      ensures this.rules == DetectionRules && this.engine == engine && idCounter == 0
    {
      this.rules := DetectionRules;
      this.engine := engine;
      idCounter := 0;
    }

    method AnalyzePrompt(prompt: string) returns (r: DetectionResult)
      modifies this
      ensures idCounter == old(idCounter) + 1
      ensures r == Analyze(rules, idCounter, prompt, engine)
    {
      idCounter := idCounter + 1;
      r := Analyze(rules, idCounter, prompt, engine);
    }

    /** Calling `AnalyzePrompt` once per prompt, in order, yields the run
        that starts from the current counter. */
    method AnalyzePrompts(prompts: seq<string>) returns (rs: seq<DetectionResult>)
      modifies this
      ensures idCounter == old(idCounter) + |prompts|
      ensures rs == AnalyzeRun(rules, old(idCounter), prompts, engine)
      decreases |prompts|
    {
      if prompts == [] {
        rs := [];
      } else {
        var r := AnalyzePrompt(prompts[0]);
        var rest := AnalyzePrompts(prompts[1..]);
        rs := [r] + rest;
      }
    }
  }
}
