/** The history kept by the page component (src/pages/Index.tsx): the
    derived `stats`, and the state changes of `handleAnalyze` and
    `handleClear`. Rendering, the simulated 600 ms delay and the
    `isAnalyzing` flag are not modelled; an analysis is one atomic step. */
module Page {
  import opened Wrappers
  import opened Detection
  import opened Normalizer
  import opened Matching
  import opened Engine

  /** The page's state (`prompt`, `results`, `currentResult`) together with
      the engine's `idCounter`, which lives for the whole session. */
  datatype Session = Session(
    prompt: string,
    results: seq<DetectionResult>,
    current: Option<DetectionResult>,
    idCounter: nat)

  const InitialSession: Session := Session("", [], None, 0)

  /** `results.filter((r) => r.riskLevel === level).length`. */
  function CountLevel(results: seq<DetectionResult>, level: RiskLevel): nat
  {
    if results == [] then 0
    else (if results[0].riskLevel == level then 1 else 0) + CountLevel(results[1..], level)
  }

  /** `results.filter((r) => r.blocked).length`. */
  function CountBlocked(results: seq<DetectionResult>): nat
  {
    if results == [] then 0
    else (if results[0].blocked then 1 else 0) + CountBlocked(results[1..])
  }

  /** Every result has exactly one of the three levels. */
  lemma {:induction false} LevelCountsPartition(results: seq<DetectionResult>)
    ensures CountLevel(results, Safe) + CountLevel(results, Suspicious) + CountLevel(results, Malicious) == |results|
  {
    if results != [] {
      LevelCountsPartition(results[1..]);
    }
  }

  /** When every result is blocked exactly when malicious, the two counts
      agree. */
  lemma {:induction false} BlockedCountIsMaliciousCount(results: seq<DetectionResult>)
    ensures (forall k :: 0 <= k < |results| ==> Consistent(results[k])) ==>
      CountBlocked(results) == CountLevel(results, Malicious)
  {
    if results != [] {
      BlockedCountIsMaliciousCount(results[1..]);
      assert forall k :: 1 <= k < |results| ==> results[1..][k - 1] == results[k];
    }
  }

  /** The `stats` aggregate. */
  function Stats(results: seq<DetectionResult>): (s: AnalysisStats)
    ensures s.total == |results|
    ensures s.safe + s.suspicious + s.malicious == s.total
    ensures (forall k :: 0 <= k < |results| ==> Consistent(results[k])) ==> s.blocked == s.malicious
  {
    LevelCountsPartition(results);
    BlockedCountIsMaliciousCount(results);
    AnalysisStats(|results|, CountLevel(results, Safe), CountLevel(results, Suspicious),
      CountLevel(results, Malicious), CountBlocked(results))
  }

  /** Prepending one result raises the total and the count of its own level
      by one, the blocked count by one exactly when it is blocked, and
      leaves the other counts alone. */
  lemma StatsAfterPrepend(r: DetectionResult, history: seq<DetectionResult>)
    ensures var before := Stats(history);
      var after := Stats([r] + history);
      && after.total == before.total + 1
      && after.safe == before.safe + (if r.riskLevel == Safe then 1 else 0)
      && after.suspicious == before.suspicious + (if r.riskLevel == Suspicious then 1 else 0)
      && after.malicious == before.malicious + (if r.riskLevel == Malicious then 1 else 0)
      && after.blocked == before.blocked + (if r.blocked then 1 else 0)
  {
    assert ([r] + history)[1..] == history;
  }

  /** `!prompt.trim()`: the prompt is empty or white space only. */
  predicate IsBlank(prompt: string)
  {
    Trim(prompt) == []
  }

  /** `handleAnalyze`: a blank prompt changes nothing; otherwise the
      counter advances, the new result is put in front of the unchanged
      history and becomes the current result, and the prompt is kept. */
  function HandleAnalyze(st: Session, rules: seq<DetectionRule>, engine: RegexEngine): (st': Session)
    ensures IsBlank(st.prompt) ==> st' == st
    ensures !IsBlank(st.prompt) ==>
      && st'.idCounter == st.idCounter + 1
      && |st'.results| == |st.results| + 1
      && st'.results == [Analyze(rules, st.idCounter + 1, st.prompt, engine)] + st.results
      && st'.results[1..] == st.results
      && st'.current == Some(st'.results[0])
      && st'.prompt == st.prompt
  {
    if IsBlank(st.prompt) then st
    else
      var serial := st.idCounter + 1;
      var result := Analyze(rules, serial, st.prompt, engine);
      assert ([result] + st.results)[1..] == st.results;
      Session(st.prompt, [result] + st.results, Some(result), serial)
  }

  /** `setPrompt`, as called by the text field and by `handleExampleClick`:
      only the prompt changes. */
  function EnterPrompt(st: Session, p: string): (st': Session)
    ensures st'.prompt == p
    ensures st'.results == st.results && st'.current == st.current && st'.idCounter == st.idCounter
  {
    st.(prompt := p)
  }

  /** `handleClear`: history, current result and prompt are emptied; the
      engine's counter is not reset, so later identifiers stay fresh. */
  function HandleClear(st: Session): (st': Session)
    ensures st'.results == [] && st'.current == None && st'.prompt == ""
    ensures st'.idCounter == st.idCounter
  {
    Session("", [], None, st.idCounter)
  }

  /** What every reachable session satisfies: each result is consistent,
      the history is newest first with strictly decreasing serials, none
      above the counter, and the current result belongs to the history. */
  predicate WellFormed(st: Session)
  {
    && (forall k :: 0 <= k < |st.results| ==> Consistent(st.results[k]))
    && (forall i, j :: 0 <= i < j < |st.results| ==> st.results[i].id.serial > st.results[j].id.serial)
    && (forall k :: 0 <= k < |st.results| ==> st.results[k].id.serial <= st.idCounter)
    && (st.current.Some? ==> st.current.value in st.results)
  }

  lemma InitialWellFormed()
    ensures WellFormed(InitialSession)
  {
  }

  lemma HandleAnalyzePreservesWellFormed(st: Session, rules: seq<DetectionRule>, engine: RegexEngine)
    requires WellFormed(st)
    ensures WellFormed(HandleAnalyze(st, rules, engine))
  {
    var st' := HandleAnalyze(st, rules, engine);
    if !IsBlank(st.prompt) {
      forall i, j | 0 <= i < j < |st'.results|
        ensures st'.results[i].id.serial > st'.results[j].id.serial
      {
        if i > 0 {
          assert st'.results[i] == st.results[i - 1];
        }
        assert st'.results[j] == st.results[j - 1];
      }
      forall k | 0 <= k < |st'.results|
        ensures Consistent(st'.results[k]) && st'.results[k].id.serial <= st'.idCounter
      {
        if k > 0 {
          assert st'.results[k] == st.results[k - 1];
        }
      }
    }
  }

  lemma EnterPromptPreservesWellFormed(st: Session, p: string)
    requires WellFormed(st)
    ensures WellFormed(EnterPrompt(st, p))
  {
  }

  lemma HandleClearPreservesWellFormed(st: Session)
    ensures WellFormed(HandleClear(st))
  {
  }

  /** In a well-formed session no two history entries share an identifier
      and the blocked tile equals the malicious tile. */
  lemma WellFormedConsequences(st: Session)
    requires WellFormed(st)
    ensures forall i, j :: 0 <= i < j < |st.results| ==> st.results[i].id.Text() != st.results[j].id.Text()
    ensures Stats(st.results).blocked == Stats(st.results).malicious
  {
    forall i, j | 0 <= i < j < |st.results|
      ensures st.results[i].id.Text() != st.results[j].id.Text()
    {
      ResultIdTextInjective(st.results[i].id, st.results[j].id);
    }
  }
}
