/** `getWarningMessage` (src/lib/detection-engine.ts:143-153). */
module Warnings {
  import opened Wrappers
  import opened Detection
  import Decimal
  import opened Strings

  /** Position of the first occurrence of `x` in `xs`. */
  function FirstIndex(xs: seq<string>, x: string): (i: nat)
    requires x in xs
    ensures i < |xs| && xs[i] == x
    ensures forall j :: 0 <= j < i ==> xs[j] != x
  {
    if xs[0] == x then 0 else 1 + FirstIndex(xs[1..], x)
  }

  predicate NoDuplicates(xs: seq<string>)
  {
    forall i, j :: 0 <= i < j < |xs| ==> xs[i] != xs[j]
  }

  lemma FirstIndexOfPrefix(xs: seq<string>, a: string, x: string)
    requires x in xs
    ensures x in xs + [a] && FirstIndex(xs + [a], x) == FirstIndex(xs, x)
  {
    var i := FirstIndex(xs, x);
    var k := FirstIndex(xs + [a], x);
    assert (xs + [a])[i] == x;
    assert k <= i;
    assert xs[k] == (xs + [a])[k];
  }

  /** `[...new Set(xs)]`: each value once, in the order of its first
      occurrence. */
  function Dedup(xs: seq<string>): (r: seq<string>)
    ensures NoDuplicates(r)
    ensures forall x :: x in r <==> x in xs
    ensures forall i, j :: 0 <= i < j < |r| ==> FirstIndex(xs, r[i]) < FirstIndex(xs, r[j])
  {
    if xs == [] then []
    else
      var p := xs[..|xs| - 1];
      var a := xs[|xs| - 1];
      assert xs == p + [a];
      var d := Dedup(p);
      forall x | x in p
        ensures FirstIndex(xs, x) == FirstIndex(p, x)
      {
        FirstIndexOfPrefix(p, a, x);
      }
      if a in d then d
      else
        assert a !in p;
        assert FirstIndex(xs, a) == |p|;
        d + [a]
  }

  function Categories(t: seq<TriggeredRule>): (cs: seq<string>)
    ensures |cs| == |t|
    ensures forall k :: 0 <= k < |t| ==> cs[k] == t[k].category
  {
    if t == [] then [] else [t[0].category] + Categories(t[1..])
  }

  /** The warning for a verdict: none when safe; otherwise the malicious
      or suspicious wording, the number of triggered rules, and the
      distinct categories in the order they were first met. */
  function GetWarningMessage(level: RiskLevel, t: seq<TriggeredRule>): (w: Option<Warning>)
    ensures w.None? <==> level == Safe
    ensures w.Some? ==> (w.value.kind == Blocked <==> level == Malicious)
    ensures w.Some? ==> w.value.count == |t|
    ensures w.Some? ==> NoDuplicates(w.value.categories)
    ensures w.Some? ==> forall c :: c in w.value.categories <==> exists k :: 0 <= k < |t| && t[k].category == c
    ensures w.Some? ==> forall c :: c in w.value.categories ==> c in Categories(t)
    ensures w.Some? ==> forall i, j :: 0 <= i < j < |w.value.categories| ==>
      FirstIndex(Categories(t), w.value.categories[i]) < FirstIndex(Categories(t), w.value.categories[j])
  {
    if level == Safe then None
    else
      var categories := Dedup(Categories(t));
      assert forall c :: c in Categories(t) <==> exists k :: 0 <= k < |t| && t[k].category == c by {
        forall c ensures c in Categories(t) ==> exists k :: 0 <= k < |t| && t[k].category == c {
          if c in Categories(t) {
            var k :| 0 <= k < |t| && Categories(t)[k] == c;
          }
        }
      }
      if level == Malicious then Some(Warning(Blocked, |t|, categories))
      else Some(Warning(Flagged, |t|, categories))
  }

  /** `categories.join(", ")`. */
  function Join(xs: seq<string>, sep: string): string
  {
    if xs == [] then ""
    else if |xs| == 1 then xs[0]
    else xs[0] + sep + Join(xs[1..], sep)
  }

  const BlockedLead: string := "\U{26D4} This prompt has been "
  const FlaggedLead: string := "\U{26A0}\U{FE0F} This prompt is "

  /** The common shape of both wordings: an opening naming the verdict
      word, the count, then the rest of the sentence. */
  function Sentence(lead: string, word: string, count: string, rest: string): (text: string)
    ensures IsSubstring(word, text)
    ensures IsSubstring(count, text)
  {
    var opening := lead + word + ". Detected ";
    assert opening[|lead|..|lead| + |word|] == word;
    assert (opening + count + rest)[|lead|..|lead| + |word|] == word;
    assert (opening + count + rest)[|opening|..|opening| + |count|] == count;
    opening + count + rest
  }

  /** The sentence the source builds from a warning. */
  function WarningText(w: Warning): (text: string)
    ensures w.kind == Blocked ==> IsSubstring("BLOCKED", text)
    ensures w.kind == Flagged ==> IsSubstring("SUSPICIOUS", text)
    ensures IsSubstring(Decimal.NatToString(w.count), text)
  {
    var n := Decimal.NatToString(w.count);
    var cats := Join(w.categories, ", ");
    match w.kind
    case Blocked =>
      Sentence(BlockedLead, "BLOCKED", n, " security violation(s) in: " + cats
        + ". This input attempts to manipulate the AI system and cannot be processed.")
    case Flagged =>
      Sentence(FlaggedLead, "SUSPICIOUS", n, " potential risk(s) in: " + cats
        + ". The input contains patterns that may attempt to influence AI behavior.")
  }
}
