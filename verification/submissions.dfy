/** Several submissions in a row on the page (src/pages/Index.tsx:32-43):
    the history they leave behind is the engine's run of successive calls
    of `analyzePrompt`, newest first. */
module Submissions {
  import opened Wrappers
  import opened Detection
  import opened Matching
  import opened Engine
  import opened Page

  /** The user submits each prompt in turn: types it into the field, then
      presses analyse. */
  function SubmitAll(st: Session, prompts: seq<string>, rules: seq<DetectionRule>, engine: RegexEngine): (st': Session)
    decreases |prompts|
  {
    if prompts == [] then st
    else SubmitAll(HandleAnalyze(EnterPrompt(st, prompts[0]), rules, engine), prompts[1..], rules, engine)
  }

  /** The elements of a sequence in reverse order. */
  function Reverse<T>(s: seq<T>): (r: seq<T>)
    ensures |r| == |s|
  {
    if s == [] then [] else Reverse(s[1..]) + [s[0]]
  }

  /** Submitting prompts that are not blank advances the page's counter
      once per prompt, and the history gains the engine's run for those
      prompts from that counter, newest first. */
  lemma {:induction false} SubmitAllIsRun(st: Session, prompts: seq<string>, rules: seq<DetectionRule>, engine: RegexEngine)
    requires forall k :: 0 <= k < |prompts| ==> !IsBlank(prompts[k])
    ensures SubmitAll(st, prompts, rules, engine).idCounter == st.idCounter + |prompts|
    ensures SubmitAll(st, prompts, rules, engine).results ==
      Reverse(AnalyzeRun(rules, st.idCounter, prompts, engine)) + st.results
    decreases |prompts|
  {
    if prompts == [] {
      assert Reverse(AnalyzeRun(rules, st.idCounter, prompts, engine)) == [];
    } else {
      var a := Analyze(rules, st.idCounter + 1, prompts[0], engine);
      SubmitOne(st, prompts[0], rules, engine);
      var st1 := HandleAnalyze(EnterPrompt(st, prompts[0]), rules, engine);
      assert forall k :: 0 <= k < |prompts[1..]| ==> prompts[1..][k] == prompts[k + 1];
      SubmitAllIsRun(st1, prompts[1..], rules, engine);
      var rest := AnalyzeRun(rules, st.idCounter + 1, prompts[1..], engine);
      ReverseCons(a, rest);
      ConcatAssocResults(Reverse(rest), [a], st.results);
    }
  }

  /** One submission of a prompt that is not blank. */
  lemma SubmitOne(st: Session, p: string, rules: seq<DetectionRule>, engine: RegexEngine)
    requires !IsBlank(p)
    ensures HandleAnalyze(EnterPrompt(st, p), rules, engine).results == [Analyze(rules, st.idCounter + 1, p, engine)] + st.results
    ensures HandleAnalyze(EnterPrompt(st, p), rules, engine).idCounter == st.idCounter + 1
  {
    HandleAnalyzeOf(EnterPrompt(st, p), p, st.idCounter, st.results, rules, engine);
  }

  /** `HandleAnalyze` on a state whose fields are given by name. */
  lemma HandleAnalyzeOf(st: Session, p: string, n: nat, history: seq<DetectionResult>, rules: seq<DetectionRule>, engine: RegexEngine)
    requires st.prompt == p && st.idCounter == n && st.results == history && !IsBlank(p)
    ensures HandleAnalyze(st, rules, engine).results == [Analyze(rules, n + 1, p, engine)] + history
  {
    HandleAnalyzeResults(st, rules, engine);
    assert Analyze(rules, st.idCounter + 1, st.prompt, engine) == Analyze(rules, n + 1, p, engine);
  }

  lemma HandleAnalyzeResults(st: Session, rules: seq<DetectionRule>, engine: RegexEngine)
    requires !IsBlank(st.prompt)
    ensures HandleAnalyze(st, rules, engine).results == [Analyze(rules, st.idCounter + 1, st.prompt, engine)] + st.results
  {
  }

  lemma ReverseCons<T>(a: T, r: seq<T>)
    ensures Reverse([a] + r) == Reverse(r) + [a]
  {
    assert ([a] + r)[1..] == r;
  }

  lemma ConcatAssocResults(x: seq<DetectionResult>, y: seq<DetectionResult>, z: seq<DetectionResult>)
    ensures x + (y + z) == (x + y) + z
  {
  }
}
