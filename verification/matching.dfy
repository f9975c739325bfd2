/** The rule-matching loop of `analyzePrompt`
    (src/lib/detection-engine.ts:159-172). */
module Matching {
  import opened Wrappers
  import opened CharClasses
  import opened Detection
  import opened Strings

  /** Where a match lies in the searched text: `text[start..end]`. */
  datatype Span = Span(start: nat, end: nat)

  /** JavaScript's `String.prototype.match` for a non-global regular
      expression, which the model does not interpret: for a pattern and a
      text it reports either no match or the span of the first match, which
      always lies inside the text. */
  type RegexEngine = f: (Regex, string) -> Option<Span>
    | forall re, s :: f(re, s).Some? ==> f(re, s).value.start <= f(re, s).value.end <= |s|
    witness (re: Regex, s: string) => None

  /** The leftmost position of `s` holding a character of the class. */
  function FirstInClass(s: string, ranges: seq<CharRange>): (r: Option<nat>)
    ensures r.Some? ==> r.value < |s| && InClass(s[r.value], ranges)
    ensures r.Some? ==> forall j :: 0 <= j < r.value ==> !InClass(s[j], ranges)
    ensures r.None? <==> forall j :: 0 <= j < |s| ==> !InClass(s[j], ranges)
  {
    if s == [] then None
    else if InClass(s[0], ranges) then Some(0)
    else match FirstInClass(s[1..], ranges)
      case None => None
      case Some(k) => Some(k + 1)
  }

  /** `text.match(pattern)`, reduced to `match[0]`: the text of the first
      match, if any. */
  function FirstMatch(p: Pattern, s: string, engine: RegexEngine): (m: Option<string>)
    ensures m.Some? ==> IsSubstring(m.value, s)
    ensures p.ClassPattern? ==>
      (m.Some? <==> exists j :: 0 <= j < |s| && InClass(s[j], p.ranges))
  {
    match p
    case RegexPattern(re) =>
      (match engine(re, s)
       case None => None
       case Some(sp) => Some(s[sp.start..sp.end]))
    case ClassPattern(ranges) =>
      (match FirstInClass(s, ranges)
       case None => None
       case Some(i) => Some(s[i..i + 1]))
  }

  /** Which text `match[0]` is: for a regular expression, exactly the span
      the engine reports; for a character class, the single leftmost
      character of the class. */
  lemma FirstMatchIs(p: Pattern, s: string, engine: RegexEngine)
    ensures p.RegexPattern? ==> (FirstMatch(p, s, engine).Some? <==> engine(p.regex, s).Some?)
    ensures p.RegexPattern? && engine(p.regex, s).Some? ==>
      FirstMatch(p, s, engine).value == s[engine(p.regex, s).value.start..engine(p.regex, s).value.end]
    ensures p.ClassPattern? && FirstMatch(p, s, engine).Some? ==>
      exists i :: 0 <= i < |s| && InClass(s[i], p.ranges) && FirstMatch(p, s, engine).value == s[i..i + 1]
        && forall j :: 0 <= j < i ==> !InClass(s[j], p.ranges)
  {
  }

  predicate Fires(rule: DetectionRule, s: string, engine: RegexEngine)
  {
    FirstMatch(rule.pattern, s, engine).Some?
  }

  /** The record pushed for a rule whose pattern matched `m`. */
  function Trigger(rule: DetectionRule, m: string): (t: TriggeredRule)
  {
    TriggeredRule(rule.id, rule.name, rule.category, rule.riskLevel, m)
  }

  /** Which rules of the table fire on `s`, position by position. */
  ghost function FiringFlags(rules: seq<DetectionRule>, s: string, engine: RegexEngine): (b: seq<bool>)
    ensures |b| == |rules|
    ensures forall i :: 0 <= i < |rules| ==> b[i] == Fires(rules[i], s, engine)
  {
    seq(|rules|, i requires 0 <= i < |rules| => Fires(rules[i], s, engine))
  }

  /** The positions at or after `from` holding `true`, in order. */
  ghost function TrueIndices(b: seq<bool>, from: nat): (o: seq<nat>)
    requires from <= |b|
    ensures forall k :: 0 <= k < |o| ==> from <= o[k] < |b| && b[o[k]]
    decreases |b| - from
  {
    if from == |b| then []
    else (if b[from] then [from] else []) + TrueIndices(b, from + 1)
  }

  lemma TrueIndicesStep(b: seq<bool>, from: nat)
    requires from < |b|
    ensures b[from] ==> TrueIndices(b, from) == [from] + TrueIndices(b, from + 1)
    ensures !b[from] ==> TrueIndices(b, from) == TrueIndices(b, from + 1)
  {
    if !b[from] {
      assert [] + TrueIndices(b, from + 1) == TrueIndices(b, from + 1);
    }
  }

  lemma {:induction false} TrueIndicesIncreasing(b: seq<bool>, from: nat)
    requires from <= |b|
    ensures var o := TrueIndices(b, from);
      forall k, l :: 0 <= k < l < |o| ==> o[k] < o[l]
    decreases |b| - from
  {
    if from < |b| {
      TrueIndicesStep(b, from);
      TrueIndicesIncreasing(b, from + 1);
      var o' := TrueIndices(b, from + 1);
      if b[from] {
        var o := [from] + o';
        forall k, l | 0 <= k < l < |o|
          ensures o[k] < o[l]
        {
          assert o[l] == o'[l - 1];
          if k > 0 {
            assert o[k] == o'[k - 1];
          }
        }
      }
    }
  }

  lemma {:induction false} TrueIndicesExact(b: seq<bool>, from: nat)
    requires from <= |b|
    ensures var o := TrueIndices(b, from);
      forall i :: from <= i < |b| ==> (i in o <==> b[i])
    decreases |b| - from
  {
    if from < |b| {
      TrueIndicesStep(b, from);
      TrueIndicesExact(b, from + 1);
      assert from !in TrueIndices(b, from + 1);
    }
  }

  /** The positions at or after `from` of the rules that fire, in
      increasing order (see `FiringIndicesIncreasing` and
      `FiringIndicesExact`). */
  ghost function FiringIndices(rules: seq<DetectionRule>, s: string, engine: RegexEngine, from: nat): (o: seq<nat>)
    requires from <= |rules|
    ensures forall k :: 0 <= k < |o| ==> from <= o[k] < |rules| && FirstMatch(rules[o[k]].pattern, s, engine).Some?
  {
    TrueIndices(FiringFlags(rules, s, engine), from)
  }

  /** The `for (const rule of DETECTION_RULES)` loop from position `from`
      on: each firing rule pushes a copy of itself carrying its first
      match. */
  function MatchRules(rules: seq<DetectionRule>, s: string, engine: RegexEngine, from: nat): (t: seq<TriggeredRule>)
    requires from <= |rules|
    decreases |rules| - from
  {
    if from == |rules| then []
    else
      (match FirstMatch(rules[from].pattern, s, engine)
       case None => []
       case Some(m) => [Trigger(rules[from], m)])
      + MatchRules(rules, s, engine, from + 1)
  }

  /** One step of the loop: a firing rule contributes one entry in front,
      a silent rule none. */
  lemma MatchRulesStep(rules: seq<DetectionRule>, s: string, engine: RegexEngine, from: nat)
    requires from < |rules|
    ensures Fires(rules[from], s, engine) ==>
      && MatchRules(rules, s, engine, from) ==
           [Trigger(rules[from], FirstMatch(rules[from].pattern, s, engine).value)] + MatchRules(rules, s, engine, from + 1)
      && FiringIndices(rules, s, engine, from) == [from] + FiringIndices(rules, s, engine, from + 1)
    ensures !Fires(rules[from], s, engine) ==>
      && MatchRules(rules, s, engine, from) == MatchRules(rules, s, engine, from + 1)
      && FiringIndices(rules, s, engine, from) == FiringIndices(rules, s, engine, from + 1)
  {
    TrueIndicesStep(FiringFlags(rules, s, engine), from);
    if !Fires(rules[from], s, engine) {
      assert FirstMatch(rules[from].pattern, s, engine) == None;
      assert [] + MatchRules(rules, s, engine, from + 1) == MatchRules(rules, s, engine, from + 1);
    }
  }

  /** The firing positions are listed in increasing order. */
  lemma FiringIndicesIncreasing(rules: seq<DetectionRule>, s: string, engine: RegexEngine, from: nat)
    requires from <= |rules|
    ensures var o := FiringIndices(rules, s, engine, from);
      forall k, l :: 0 <= k < l < |o| ==> o[k] < o[l]
  {
    TrueIndicesIncreasing(FiringFlags(rules, s, engine), from);
    assert FiringIndices(rules, s, engine, from) == TrueIndices(FiringFlags(rules, s, engine), from);
  }

  /** A position at or after `from` is listed exactly when its rule fires. */
  lemma FiringIndicesExact(rules: seq<DetectionRule>, s: string, engine: RegexEngine, from: nat)
    requires from <= |rules|
    ensures var o := FiringIndices(rules, s, engine, from);
      forall i :: from <= i < |rules| ==> (i in o <==> Fires(rules[i], s, engine))
  {
    TrueIndicesExact(FiringFlags(rules, s, engine), from);
    assert FiringIndices(rules, s, engine, from) == TrueIndices(FiringFlags(rules, s, engine), from);
  }

  /** The loop pushes one entry per firing rule. */
  lemma {:induction false} MatchRulesLength(rules: seq<DetectionRule>, s: string, engine: RegexEngine, from: nat)
    requires from <= |rules|
    ensures |MatchRules(rules, s, engine, from)| == |FiringIndices(rules, s, engine, from)|
    decreases |rules| - from
  {
    if from < |rules| {
      MatchRulesStep(rules, s, engine, from);
      MatchRulesLength(rules, s, engine, from + 1);
    }
  }

  /** The k-th pushed entry belongs to the k-th firing rule. */
  lemma {:induction false} MatchRulesEntry(rules: seq<DetectionRule>, s: string, engine: RegexEngine, from: nat, k: nat)
    requires from <= |rules| && k < |MatchRules(rules, s, engine, from)|
    ensures var o := FiringIndices(rules, s, engine, from);
      && k < |o|
      && FirstMatch(rules[o[k]].pattern, s, engine).Some?
      && MatchRules(rules, s, engine, from)[k] == Trigger(rules[o[k]], FirstMatch(rules[o[k]].pattern, s, engine).value)
    decreases |rules| - from
  {
    MatchRulesLength(rules, s, engine, from);
    MatchRulesStep(rules, s, engine, from);
    if Fires(rules[from], s, engine) {
      if k > 0 {
        MatchRulesEntry(rules, s, engine, from + 1, k - 1);
      }
    } else {
      MatchRulesEntry(rules, s, engine, from + 1, k);
    }
  }

  /** The triggered list has one entry per firing rule, in table order:
      the k-th entry copies the k-th firing rule and carries that rule's
      first match. */
  lemma MatchRulesAreFiringRules(rules: seq<DetectionRule>, s: string, engine: RegexEngine, from: nat)
    requires from <= |rules|
    ensures var t := MatchRules(rules, s, engine, from);
      var o := FiringIndices(rules, s, engine, from);
      && |t| == |o|
      && forall k :: 0 <= k < |t| ==>
           && FirstMatch(rules[o[k]].pattern, s, engine).Some?
           && t[k] == Trigger(rules[o[k]], FirstMatch(rules[o[k]].pattern, s, engine).value)
  {
    MatchRulesLength(rules, s, engine, from);
    forall k | 0 <= k < |MatchRules(rules, s, engine, from)|
      ensures var o := FiringIndices(rules, s, engine, from);
        && FirstMatch(rules[o[k]].pattern, s, engine).Some?
        && MatchRules(rules, s, engine, from)[k] == Trigger(rules[o[k]], FirstMatch(rules[o[k]].pattern, s, engine).value)
    {
      MatchRulesEntry(rules, s, engine, from, k);
    }
  }

  /** Every recorded match is a piece of the text it was found in. */
  lemma MatchedTextsAreSubstrings(rules: seq<DetectionRule>, s: string, engine: RegexEngine)
    ensures var t := MatchRules(rules, s, engine, 0);
      forall k :: 0 <= k < |t| ==> IsSubstring(t[k].matchedText, s)
  {
    MatchRulesAreFiringRules(rules, s, engine, 0);
  }
}
