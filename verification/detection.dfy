/** The records of src/types/detection.ts. */
module Detection {
  import opened Wrappers
  import opened CharClasses
  import Decimal

  datatype RiskLevel = Safe | Suspicious | Malicious

  /** A regular expression as written in the rule table: its source text
      and whether it carries the `i` flag. The model never interprets it;
      matching is delegated to a `Matching.RegexEngine`. */
  datatype Regex = Regex(source: string, ignoreCase: bool)

  /** A rule's pattern: an uninterpreted regular expression, or a plain
      bracket class of character ranges (the one the "Unicode Manipulation"
      rule uses), which the model matches itself. */
  datatype Pattern =
    | RegexPattern(regex: Regex)
    | ClassPattern(ranges: seq<CharRange>)

  datatype DetectionRule = DetectionRule(
    id: string,
    name: string,
    description: string,
    pattern: Pattern,
    riskLevel: RiskLevel,
    category: string)

  datatype TriggeredRule = TriggeredRule(
    ruleId: string,
    ruleName: string,
    category: string,
    riskLevel: RiskLevel,
    matchedText: string)

  /** The identifier `analysis-<n>` minted from the engine's counter. */
  datatype ResultId = AnalysisId(serial: nat)
  {
    function Text(): string
    {
      "analysis-" + Decimal.NatToString(serial)
    }
  }

  /** Distinct serials give distinct identifier strings. */
  lemma ResultIdTextInjective(a: ResultId, b: ResultId)
    requires a != b
    ensures a.Text() != b.Text()
  {
    var p := "analysis-";
    assert a.Text()[|p|..] == Decimal.NatToString(a.serial);
    assert b.Text()[|p|..] == Decimal.NatToString(b.serial);
    Decimal.NatToStringInjective(a.serial, b.serial);
  }

  /** The two wordings of the warning: the malicious one ("BLOCKED") and
      the suspicious one ("SUSPICIOUS"). */
  datatype WarningKind = Blocked | Flagged

  /** The content of `warningMessage`: its wording, the number of triggered
      rules it reports and the categories it lists. `Warnings.WarningText`
      renders it as the source's sentence. */
  datatype Warning = Warning(kind: WarningKind, count: nat, categories: seq<string>)

  /** One analysis. The `timestamp` field is not modelled. */
  datatype DetectionResult = DetectionResult(
    id: ResultId,
    originalPrompt: string,
    normalizedPrompt: string,
    riskLevel: RiskLevel,
    score: nat,
    triggeredRules: seq<TriggeredRule>,
    blocked: bool,
    warningMessage: Option<Warning>)

  datatype AnalysisStats = AnalysisStats(
    total: nat,
    safe: nat,
    suspicious: nat,
    malicious: nat,
    blocked: nat)
}
