/** `calculateRiskScore` and `determineRiskLevel`
    (src/lib/detection-engine.ts:123-141). */
module Scoring {
  import opened Detection

  /** The per-rule weight of the `switch`: 40, 20, and 5 for any other
      level (here only `Safe` remains). */
  function Weight(level: RiskLevel): nat
  {
    match level
    case Malicious => 40
    case Suspicious => 20
    case Safe => 5
  }

  function Levels(t: seq<TriggeredRule>): (ls: seq<RiskLevel>)
    ensures |ls| == |t|
    ensures forall k :: 0 <= k < |t| ==> ls[k] == t[k].riskLevel
  {
    if t == [] then [] else [t[0].riskLevel] + Levels(t[1..])
  }

  /** How many triggered rules carry `level`. */
  function Tally(t: seq<TriggeredRule>, level: RiskLevel): nat
  {
    if t == [] then 0
    else (if t[0].riskLevel == level then 1 else 0) + Tally(t[1..], level)
  }

  /** The tally is the multiplicity of `level` among the levels, so it
      does not depend on the order of the list. */
  lemma {:induction false} TallyIsMultiplicity(t: seq<TriggeredRule>, level: RiskLevel)
    ensures Tally(t, level) == multiset(Levels(t))[level]
  {
    if t != [] {
      TallyIsMultiplicity(t[1..], level);
      assert Levels(t) == [t[0].riskLevel] + Levels(t[1..]);
    }
  }

  lemma {:induction false} TallyAppend(t: seq<TriggeredRule>, u: seq<TriggeredRule>, level: RiskLevel)
    ensures Tally(t + u, level) == Tally(t, level) + Tally(u, level)
  {
    if t == [] {
      assert t + u == u;
    } else {
      TallyAppend(t[1..], u, level);
      assert (t + u)[1..] == t[1..] + u;
    }
  }

  /** Every triggered rule has exactly one of the three levels. */
  lemma {:induction false} TallyPartition(t: seq<TriggeredRule>)
    ensures Tally(t, Safe) + Tally(t, Suspicious) + Tally(t, Malicious) == |t|
  {
    if t != [] {
      TallyPartition(t[1..]);
    }
  }

  function Min(a: int, b: int): int
  {
    if a <= b then a else b
  }

  /** The running total of the loop: forty per malicious rule, twenty per
      suspicious rule and five per other rule, in whatever order they come. */
  function WeightSum(t: seq<TriggeredRule>): (w: nat)
    ensures w == 40 * Tally(t, Malicious) + 20 * Tally(t, Suspicious) + 5 * Tally(t, Safe)
  {
    if t == [] then 0
    else
      assert Levels(t) == [t[0].riskLevel] + Levels(t[1..]);
      Weight(t[0].riskLevel) + WeightSum(t[1..])
  }

  /** `calculateRiskScore`: the weights summed and clamped at 100; no
      triggered rule gives 0. */
  function RiskScore(t: seq<TriggeredRule>): (score: nat)
    ensures score <= 100
    ensures t == [] ==> score == 0
    ensures score == Min(40 * Tally(t, Malicious) + 20 * Tally(t, Suspicious) + 5 * Tally(t, Safe), 100)
  {
    if |t| == 0 then 0 else Min(WeightSum(t), 100)
  }

  /** `triggeredRules.some((r) => r.riskLevel === level)`. */
  predicate AnyOfLevel(t: seq<TriggeredRule>, level: RiskLevel)
  {
    exists k :: 0 <= k < |t| && t[k].riskLevel == level
  }

  lemma {:induction false} AnyOfLevelIffTally(t: seq<TriggeredRule>, level: RiskLevel)
    ensures AnyOfLevel(t, level) <==> Tally(t, level) > 0
  {
    if t != [] {
      AnyOfLevelIffTally(t[1..], level);
      if AnyOfLevel(t[1..], level) {
        var k :| 0 <= k < |t[1..]| && t[1..][k].riskLevel == level;
        assert t[k + 1].riskLevel == level;
      }
      if AnyOfLevel(t, level) && t[0].riskLevel != level {
        var k :| 0 <= k < |t| && t[k].riskLevel == level;
        assert t[1..][k - 1].riskLevel == level;
      }
    }
  }

  /** `determineRiskLevel`: malicious if some rule is malicious or the
      score reaches 60; otherwise suspicious if some rule is suspicious or
      the score reaches 30; otherwise safe. */
  function DetermineRiskLevel(score: int, t: seq<TriggeredRule>): (level: RiskLevel)
    ensures level == Malicious <==> Tally(t, Malicious) > 0 || score >= 60
    ensures level == Suspicious <==>
      Tally(t, Malicious) == 0 && score < 60 && (Tally(t, Suspicious) > 0 || score >= 30)
    ensures level == Safe <==>
      Tally(t, Malicious) == 0 && Tally(t, Suspicious) == 0 && score < 30
  {
    AnyOfLevelIffTally(t, Malicious);
    AnyOfLevelIffTally(t, Suspicious);
    if AnyOfLevel(t, Malicious) || score >= 60 then Malicious
    else if AnyOfLevel(t, Suspicious) || score >= 30 then Suspicious
    else Safe
  }

  /** The verdict the engine derives from a triggered list. */
  function Verdict(t: seq<TriggeredRule>): RiskLevel
  {
    DetermineRiskLevel(RiskScore(t), t)
  }

  /** Severity order of the levels. */
  function Rank(level: RiskLevel): nat
  {
    match level
    case Safe => 0
    case Suspicious => 1
    case Malicious => 2
  }

  /** The score depends only on how many rules of each level fired, not on
      their order. */
  lemma RiskScoreOrderIndependent(t: seq<TriggeredRule>, u: seq<TriggeredRule>)
    requires multiset(Levels(t)) == multiset(Levels(u))
    ensures RiskScore(t) == RiskScore(u)
    ensures Verdict(t) == Verdict(u)
  {
    TallyIsMultiplicity(t, Malicious);
    TallyIsMultiplicity(u, Malicious);
    TallyIsMultiplicity(t, Suspicious);
    TallyIsMultiplicity(u, Suspicious);
    TallyIsMultiplicity(t, Safe);
    TallyIsMultiplicity(u, Safe);
  }

  /** More triggered rules never lower the score or the verdict. */
  lemma VerdictMonotone(t: seq<TriggeredRule>, extra: seq<TriggeredRule>)
    ensures RiskScore(t) <= RiskScore(t + extra)
    ensures Rank(Verdict(t)) <= Rank(Verdict(t + extra))
  {
    TallyAppend(t, extra, Malicious);
    TallyAppend(t, extra, Suspicious);
    TallyAppend(t, extra, Safe);
  }

  /** When no triggered rule has level safe (as for every rule of the
      table), the verdict is safe exactly when nothing fired; malicious
      exactly when a malicious rule fired or at least three suspicious ones
      did (their 60 points reach the threshold); and suspicious exactly when
      one or two rules fired and all are suspicious. */
  lemma VerdictWithoutSafeRules(t: seq<TriggeredRule>)
    requires forall k :: 0 <= k < |t| ==> t[k].riskLevel != Safe
    ensures Tally(t, Safe) == 0
    ensures Verdict(t) == Safe <==> t == []
    ensures Verdict(t) == Malicious <==> Tally(t, Malicious) > 0 || |t| >= 3
    ensures Verdict(t) == Suspicious <==> Tally(t, Malicious) == 0 && 1 <= |t| <= 2
  {
    AnyOfLevelIffTally(t, Safe);
    TallyPartition(t);
  }

  /** Without safe entries the five-point weight never contributes. */
  lemma ScoreWithoutSafeRules(t: seq<TriggeredRule>)
    requires forall k :: 0 <= k < |t| ==> t[k].riskLevel != Safe
    ensures RiskScore(t) == Min(40 * Tally(t, Malicious) + 20 * Tally(t, Suspicious), 100)
  {
    AnyOfLevelIffTally(t, Safe);
    var m, u := Tally(t, Malicious), Tally(t, Suspicious);
    assert Tally(t, Safe) == 0;
    assert RiskScore(t) == Min(40 * m + 20 * u + 5 * 0, 100);
  }
}
