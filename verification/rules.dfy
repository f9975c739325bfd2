/** `DETECTION_RULES` (src/lib/detection-engine.ts:3-114), as data. */
module Rules {
  import opened CharClasses
  import opened Detection

  function Rx(source: string): Pattern
  {
    RegexPattern(Regex(source, true))
  }

  /** The "Unicode Manipulation" pattern: the same bracket class that the
      normaliser deletes, without the `i` flag. */
  const UnicodePattern: Pattern := ClassPattern(InvisibleRanges)

  /** Position of "Unicode Manipulation" (`obfusc-2`) in the table. */
  const UnicodeRuleIndex: nat := 8

  const SysOverride1: DetectionRule :=
    DetectionRule("sys-override-1", "System Prompt Override",
      "Attempts to override system instructions",
      Rx(@"ignore\s+(all\s+)?(previous|prior|above|earlier)\s+(instructions|prompts|rules|directives)"),
      Malicious, "System Override")

  const SysOverride2: DetectionRule :=
    DetectionRule("sys-override-2", "Role Reassignment",
      "Attempts to reassign AI role",
      Rx(@"you\s+are\s+now\s+(a|an|the)\s+"),
      Suspicious, "System Override")

  const SysOverride3: DetectionRule :=
    DetectionRule("sys-override-3", "New Instructions Injection",
      "Attempts to inject new system instructions",
      Rx(@"\b(new\s+instructions|from\s+now\s+on|starting\s+now|forget\s+(everything|all|what))"),
      Malicious, "System Override")

  const DataExfil1: DetectionRule :=
    DetectionRule("data-exfil-1", "System Prompt Extraction",
      "Attempts to extract system prompt",
      Rx(@"\b(reveal|show|display|print|output|repeat|tell\s+me)\s+(your|the)\s+(system\s+)?(prompt|instructions|rules|configuration)"),
      Malicious, "Data Exfiltration")

  const DataExfil2: DetectionRule :=
    DetectionRule("data-exfil-2", "Internal Info Request",
      "Requests internal system information",
      Rx(@"\b(what\s+are\s+your|list\s+your|share\s+your)\s+(rules|constraints|limitations|guidelines|system\s+prompt)"),
      Suspicious, "Data Exfiltration")

  const Jailbreak1: DetectionRule :=
    DetectionRule("jailbreak-1", "DAN Pattern",
      "Do Anything Now jailbreak attempt",
      Rx(@"\b(DAN|do\s+anything\s+now|developer\s+mode|jailbreak)\b"),
      Malicious, "Jailbreak")

  const Jailbreak2: DetectionRule :=
    DetectionRule("jailbreak-2", "Hypothetical Bypass",
      "Uses hypothetical framing to bypass restrictions",
      Rx(@"\b(pretend|imagine|hypothetically|in\s+a\s+fictional|roleplay\s+as)\b.*\b(no\s+restrictions|no\s+rules|unrestricted|unfiltered)"),
      Malicious, "Jailbreak")

  const Obfusc1: DetectionRule :=
    DetectionRule("obfusc-1", "Base64 Injection",
      "Uses encoded text to hide instructions",
      Rx(@"\b(base64|decode|encode|rot13|hex)\b.*\b(instruction|execute|run|eval)\b"),
      Suspicious, "Obfuscation")

  const Obfusc2: DetectionRule :=
    DetectionRule("obfusc-2", "Unicode Manipulation",
      "Uses special characters to hide intent",
      UnicodePattern,
      Suspicious, "Obfuscation")

  const Delim1: DetectionRule :=
    DetectionRule("delim-1", "Markdown Injection",
      "Uses markdown formatting to inject instructions",
      Rx(@"```(system|admin|root|internal)\b"),
      Malicious, "Delimiter Injection")

  const Delim2: DetectionRule :=
    DetectionRule("delim-2", "XML/HTML Tag Injection",
      "Injects XML or HTML-like tags for system manipulation",
      Rx(@"<\s*(system|admin|instruction|override|prompt)\s*>"),
      Malicious, "Delimiter Injection")

  const Social1: DetectionRule :=
    DetectionRule("social-1", "Authority Impersonation",
      "Claims authority to change behavior",
      Rx(@"\b(i\s+am\s+(your|the)\s+(developer|creator|admin|owner)|authorized\s+to|admin\s+override)\b"),
      Malicious, "Social Engineering")

  const Social2: DetectionRule :=
    DetectionRule("social-2", "Urgency Manipulation",
      "Uses urgency to bypass safety checks",
      Rx(@"\b(urgent|emergency|critical|immediately)\b.*\b(bypass|skip|ignore|disable)\b.*\b(safety|filter|check|restriction)"),
      Suspicious, "Social Engineering")

  /** The table itself, in the order the loop visits it. */
  const DetectionRules: seq<DetectionRule> := [
    SysOverride1, SysOverride2, SysOverride3, DataExfil1, DataExfil2,
    Jailbreak1, Jailbreak2, Obfusc1, Obfusc2, Delim1,
    Delim2, Social1, Social2]

  /** Every rule in the table is suspicious or malicious. */
  predicate NoSafeRule(rules: seq<DetectionRule>)
  {
    forall i :: 0 <= i < |rules| ==> rules[i].riskLevel != Safe
  }

  /** Shape of the table: thirteen rules, none of level safe, and
      `obfusc-2` is the only rule whose pattern is not a regular
      expression. */
  lemma TableShape()
    ensures |DetectionRules| == 13
    ensures NoSafeRule(DetectionRules)
    ensures DetectionRules[UnicodeRuleIndex].id == "obfusc-2"
    ensures DetectionRules[UnicodeRuleIndex].pattern == UnicodePattern
    ensures forall i :: 0 <= i < |DetectionRules| && i != UnicodeRuleIndex ==> DetectionRules[i].pattern.RegexPattern?
    ensures forall i, j :: 0 <= i < j < |DetectionRules| ==> DetectionRules[i].id != DetectionRules[j].id
  {
    TableIdsDistinct();
  }

  /** Length, first and last character of a non-empty identifier: enough
      to tell the table's identifiers apart. */
  function Signature(id: string): (int, char, char)
    requires id != []
  {
    (|id|, id[0], id[|id| - 1])
  }

  /** No two rules share an identifier. */
  lemma TableIdsDistinct()
    ensures forall i, j :: 0 <= i < j < |DetectionRules| ==> DetectionRules[i].id != DetectionRules[j].id
  {
    var sigs := [
      (14, 's', '1'), (14, 's', '2'), (14, 's', '3'), (12, 'd', '1'), (12, 'd', '2'),
      (11, 'j', '1'), (11, 'j', '2'), (8, 'o', '1'), (8, 'o', '2'), (7, 'd', '1'),
      (7, 'd', '2'), (8, 's', '1'), (8, 's', '2')];
    forall i | 0 <= i < |DetectionRules|
      ensures DetectionRules[i].id != [] && Signature(DetectionRules[i].id) == sigs[i]
    {
    }
  }

  /** Eight malicious rules and five suspicious ones. */
  lemma TableLevels()
    ensures (set i | 0 <= i < |DetectionRules| && DetectionRules[i].riskLevel == Malicious) == {0, 2, 3, 5, 6, 9, 10, 11}
    ensures (set i | 0 <= i < |DetectionRules| && DetectionRules[i].riskLevel == Suspicious) == {1, 4, 7, 8, 12}
  {
  }

  const CategoryNames: set<string> :=
    {"System Override", "Data Exfiltration", "Jailbreak", "Obfuscation", "Delimiter Injection", "Social Engineering"}

  /** The six categories: every rule belongs to one of them and each of
      them has a rule. */
  lemma TableCategories()
    ensures forall i :: 0 <= i < |DetectionRules| ==> DetectionRules[i].category in CategoryNames
    ensures forall c :: c in CategoryNames ==> exists i :: 0 <= i < |DetectionRules| && DetectionRules[i].category == c
  {
    var rs := DetectionRules;
    assert rs[0].category == "System Override" && rs[3].category == "Data Exfiltration";
    assert rs[5].category == "Jailbreak" && rs[7].category == "Obfuscation";
    assert rs[9].category == "Delimiter Injection" && rs[11].category == "Social Engineering";
  }
}
