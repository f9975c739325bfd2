/** `normalizePrompt` (src/lib/detection-engine.ts:116-121): remove the
    invisible formatting characters, replace every run of white space by one
    space, then trim. */
module Normalizer {
  import opened CharClasses

  /** The first `replace` of `normalizePrompt`: every character of the
      class `InvisibleRanges` is deleted. */
  function StripInvisible(s: string): (r: string)
    ensures forall i :: 0 <= i < |r| ==> !IsInvisible(r[i])
    ensures forall c :: c in r ==> c in s
    ensures (forall i :: 0 <= i < |s| ==> !IsInvisible(s[i])) ==> r == s
  {
    if s == [] then []
    else if IsInvisible(s[0]) then StripInvisible(s[1..])
    else [s[0]] + StripInvisible(s[1..])
  }

  /** How many white-space characters the text starts with. */
  function LeadingWhitespace(s: string): (n: nat)
    ensures n <= |s|
    ensures forall i :: 0 <= i < n ==> IsWhitespace(s[i])
    ensures n < |s| ==> !IsWhitespace(s[n])
  {
    if s != [] && IsWhitespace(s[0]) then 1 + LeadingWhitespace(s[1..]) else 0
  }

  /** How many white-space characters the text ends with. */
  function TrailingWhitespace(s: string): (n: nat)
    ensures n <= |s|
    ensures forall i :: |s| - n <= i < |s| ==> IsWhitespace(s[i])
    ensures n < |s| ==> !IsWhitespace(s[|s| - n - 1])
  {
    if s != [] && IsWhitespace(s[|s| - 1]) then 1 + TrailingWhitespace(s[..|s| - 1]) else 0
  }

  /** The text after its leading white space; the left half of `trim`, and
      the rest of a run that `CollapseWhitespace` skips. */
  function TrimStart(s: string): string
  {
    s[LeadingWhitespace(s)..]
  }

  function TrimEnd(s: string): string
  {
    s[..|s| - TrailingWhitespace(s)]
  }

  /** `String.prototype.trim`. */
  function Trim(s: string): string
  {
    TrimEnd(TrimStart(s))
  }

  /** `replace(/\s+/g, " ")`: every maximal run of white space becomes a
      single U+0020. */
  function CollapseWhitespace(s: string): (r: string)
    ensures forall i :: 0 <= i < |r| && IsWhitespace(r[i]) ==> r[i] == ' '
    ensures forall i, j :: 0 <= i < |r| && 0 <= j < |r| && j == i + 1 ==> !(IsWhitespace(r[i]) && IsWhitespace(r[j]))
    ensures forall c :: c in r ==> c == ' ' || c in s
    ensures s == [] <==> r == []
    ensures s != [] && !IsWhitespace(s[0]) ==> r[0] == s[0]
    decreases |s|
  {
    SpaceIsWhitespace();
    if s == [] then []
    else if IsWhitespace(s[0]) then [' '] + CollapseWhitespace(TrimStart(s[1..]))
    else [s[0]] + CollapseWhitespace(s[1..])
  }

  function Normalize(prompt: string): string
  {
    Trim(CollapseWhitespace(StripInvisible(prompt)))
  }

  /** The shape every normalised prompt has. */
  predicate Normalized(s: string)
  {
    && (forall i :: 0 <= i < |s| ==> !IsInvisible(s[i]))
    && (forall i :: 0 <= i < |s| && IsWhitespace(s[i]) ==> s[i] == ' ')
    && (forall i, j :: 0 <= i < |s| && 0 <= j < |s| && j == i + 1 ==> !(IsWhitespace(s[i]) && IsWhitespace(s[j])))
    && (s != [] ==> !IsWhitespace(s[0]) && !IsWhitespace(s[|s| - 1]))
  }

  /** `trim` removes only white space, and only from the two ends. */
  lemma TrimIsSlice(s: string) returns (a: nat)
    ensures a + |Trim(s)| <= |s|
    ensures Trim(s) == s[a..a + |Trim(s)|]
    ensures forall i :: 0 <= i < a ==> IsWhitespace(s[i])
    ensures forall i :: a + |Trim(s)| <= i < |s| ==> IsWhitespace(s[i])
    ensures Trim(s) == [] || (!IsWhitespace(Trim(s)[0]) && !IsWhitespace(Trim(s)[|Trim(s)| - 1]))
  {
    var t := TrimStart(s);
    a := |s| - |t|;
    var r := TrimEnd(t);
    assert r == t[..|r|];
    assert t == s[a..];
    assert r == s[a..a + |r|];
  }

  /** Whatever the prompt, the normalised text contains no invisible
      character, starts and ends with a non-white-space character, has no
      two adjacent white-space characters, and every white-space character
      left is U+0020. */
  lemma NormalizeOutput(prompt: string)
    ensures Normalized(Normalize(prompt))
  {
    var p := StripInvisible(prompt);
    var c := CollapseWhitespace(p);
    CollapseKeepsVisible(p);
    var a := TrimIsSlice(c);
    SliceKeepsShape(c, a, |Trim(c)|);
  }

  lemma CollapseKeepsVisible(p: string)
    requires forall i :: 0 <= i < |p| ==> !IsInvisible(p[i])
    ensures forall i :: 0 <= i < |CollapseWhitespace(p)| ==> !IsInvisible(CollapseWhitespace(p)[i])
  {
    var c := CollapseWhitespace(p);
    SpaceIsWhitespace();
    forall i | 0 <= i < |c|
      ensures !IsInvisible(c[i])
    {
      assert c[i] in c;
      if c[i] != ' ' {
        assert c[i] in p;
        var j :| 0 <= j < |p| && p[j] == c[i];
      }
    }
  }

  /** A contiguous piece of a string keeps its per-character and
      adjacent-pair properties. */
  lemma SliceKeepsShape(c: string, a: nat, n: nat)
    requires a + n <= |c|
    requires forall i :: 0 <= i < |c| ==> !IsInvisible(c[i])
    requires forall i :: 0 <= i < |c| && IsWhitespace(c[i]) ==> c[i] == ' '
    requires forall i, j :: 0 <= i < |c| && 0 <= j < |c| && j == i + 1 ==> !(IsWhitespace(c[i]) && IsWhitespace(c[j]))
    ensures var r := c[a..a + n];
      && (forall i :: 0 <= i < |r| ==> !IsInvisible(r[i]))
      && (forall i :: 0 <= i < |r| && IsWhitespace(r[i]) ==> r[i] == ' ')
      && (forall i, j :: 0 <= i < |r| && 0 <= j < |r| && j == i + 1 ==> !(IsWhitespace(r[i]) && IsWhitespace(r[j])))
  {
    var r := c[a..a + n];
    forall i, j | 0 <= i < |r| && 0 <= j < |r| && j == i + 1
      ensures !(IsWhitespace(r[i]) && IsWhitespace(r[j]))
    {
      assert r[i] == c[a + i] && r[j] == c[a + j];
    }
  }

  /** A string that already has the normalised shape is left unchanged by
      collapsing. */
  lemma {:induction false} CollapseFixesNormalized(s: string)
    requires forall i :: 0 <= i < |s| && IsWhitespace(s[i]) ==> s[i] == ' '
    requires forall i, j :: 0 <= i < |s| && 0 <= j < |s| && j == i + 1 ==> !(IsWhitespace(s[i]) && IsWhitespace(s[j]))
    ensures CollapseWhitespace(s) == s
    decreases |s|
  {
    if s == [] {
    } else if IsWhitespace(s[0]) {
      assert s[1..] == [] || !IsWhitespace(s[1..][0]);
      assert TrimStart(s[1..]) == s[1..];
      CollapseFixesNormalized(s[1..]);
    } else {
      CollapseFixesNormalized(s[1..]);
    }
  }

  lemma NormalizeFixesNormalized(s: string)
    requires Normalized(s)
    ensures Normalize(s) == s
  {
    assert StripInvisible(s) == s;
    CollapseFixesNormalized(s);
    assert TrimStart(s) == s;
    assert TrimEnd(s) == s;
  }

  /** Normalising twice is the same as normalising once. */
  lemma NormalizeIdempotent(prompt: string)
    ensures Normalize(Normalize(prompt)) == Normalize(prompt)
  {
    NormalizeOutput(prompt);
    NormalizeFixesNormalized(Normalize(prompt));
  }

  /** The characters that carry content: neither white space nor
      invisible, in their original order. */
  function Visible(s: string): string
  {
    if s == [] then []
    else (if IsWhitespace(s[0]) || IsInvisible(s[0]) then [] else [s[0]]) + Visible(s[1..])
  }

  lemma {:induction false} VisibleAppend(a: string, b: string)
    ensures Visible(a + b) == Visible(a) + Visible(b)
    decreases |a|
  {
    if a == [] {
      assert a + b == b;
    } else {
      assert (a + b)[0] == a[0] && (a + b)[1..] == a[1..] + b;
      VisibleAppend(a[1..], b);
      var h := if IsWhitespace(a[0]) || IsInvisible(a[0]) then [] else [a[0]];
      assert Visible(a + b) == h + Visible(a[1..] + b);
      assert Visible(a) == h + Visible(a[1..]);
    }
  }

  lemma {:induction false} VisibleOfWhitespace(s: string)
    requires forall i :: 0 <= i < |s| ==> IsWhitespace(s[i])
    ensures Visible(s) == []
  {
    if s != [] {
      VisibleOfWhitespace(s[1..]);
    }
  }

  lemma {:induction false} StripKeepsVisible(s: string)
    ensures Visible(StripInvisible(s)) == Visible(s)
  {
    if s != [] {
      StripKeepsVisible(s[1..]);
      if !IsInvisible(s[0]) {
        assert StripInvisible(s) == [s[0]] + StripInvisible(s[1..]);
        assert ([s[0]] + StripInvisible(s[1..]))[1..] == StripInvisible(s[1..]);
      }
    }
  }

  lemma TrimStartKeepsVisible(s: string)
    ensures Visible(TrimStart(s)) == Visible(s)
  {
    var n := LeadingWhitespace(s);
    assert s == s[..n] + s[n..];
    VisibleAppend(s[..n], s[n..]);
    VisibleOfWhitespace(s[..n]);
  }

  lemma TrimEndKeepsVisible(s: string)
    ensures Visible(TrimEnd(s)) == Visible(s)
  {
    var m := |s| - TrailingWhitespace(s);
    assert s == s[..m] + s[m..];
    VisibleAppend(s[..m], s[m..]);
    VisibleOfWhitespace(s[m..]);
  }

  lemma {:induction false} CollapseKeepsVisibleText(s: string)
    ensures Visible(CollapseWhitespace(s)) == Visible(s)
    decreases |s|
  {
    SpaceIsWhitespace();
    if s != [] {
      var c := CollapseWhitespace(s);
      if IsWhitespace(s[0]) {
        var rest := TrimStart(s[1..]);
        CollapseKeepsVisibleText(rest);
        TrimStartKeepsVisible(s[1..]);
        assert c == [' '] + CollapseWhitespace(rest);
        assert c[1..] == CollapseWhitespace(rest);
      } else {
        CollapseKeepsVisibleText(s[1..]);
        assert c == [s[0]] + CollapseWhitespace(s[1..]);
        assert c[1..] == CollapseWhitespace(s[1..]);
      }
    }
  }

  /** Normalisation only removes white space and invisible characters:
      every other character survives, in order. */
  lemma NormalizeKeepsVisible(prompt: string)
    ensures Visible(Normalize(prompt)) == Visible(prompt)
  {
    var p := StripInvisible(prompt);
    var c := CollapseWhitespace(p);
    StripKeepsVisible(prompt);
    CollapseKeepsVisibleText(p);
    TrimStartKeepsVisible(c);
    TrimEndKeepsVisible(TrimStart(c));
  }

  /** The normalised prompt is empty exactly when the prompt has no
      character other than white space and invisible ones. */
  lemma NormalizeEmptyIff(prompt: string)
    ensures Normalize(prompt) == [] <==> Visible(prompt) == []
  {
    var r := Normalize(prompt);
    NormalizeKeepsVisible(prompt);
    NormalizeOutput(prompt);
    if r != [] {
      assert Visible(r) == [r[0]] + Visible(r[1..]);
    }
  }

  /** Deleting invisible characters works character by character: the
      result for a concatenation is the concatenation of the results, and
      a single character is dropped exactly when it is invisible. */
  lemma {:induction false} StripInvisibleAppend(a: string, b: string)
    ensures StripInvisible(a + b) == StripInvisible(a) + StripInvisible(b)
    decreases |a|
  {
    if a == [] {
      assert a + b == b;
    } else {
      assert (a + b)[0] == a[0] && (a + b)[1..] == a[1..] + b;
      StripInvisibleAppend(a[1..], b);
    }
  }

  lemma StripInvisibleChar(c: char)
    ensures StripInvisible([c]) == if IsInvisible(c) then [] else [c]
  {
    assert [c][1..] == [];
  }

  /** The white space at the front of `x + y`: all of `x`'s when `x` is
      white space only, otherwise just `x`'s. */
  lemma {:induction false} LeadingWhitespaceAppend(x: string, y: string)
    ensures LeadingWhitespace(x + y) ==
      if LeadingWhitespace(x) < |x| then LeadingWhitespace(x) else |x| + LeadingWhitespace(y)
    decreases |x|
  {
    if x == [] {
      assert x + y == y;
    } else {
      assert (x + y)[0] == x[0] && (x + y)[1..] == x[1..] + y;
      if IsWhitespace(x[0]) {
        LeadingWhitespaceAppend(x[1..], y);
      }
    }
  }

  /** `TrailingWhitespace` is the only count with its defining properties. */
  lemma {:induction false} TrailingWhitespaceUnique(s: string, k: nat)
    requires k <= |s|
    requires forall i :: |s| - k <= i < |s| ==> IsWhitespace(s[i])
    requires k < |s| ==> !IsWhitespace(s[|s| - k - 1])
    ensures TrailingWhitespace(s) == k
    decreases |s|
  {
    if s != [] && IsWhitespace(s[|s| - 1]) {
      var s' := s[..|s| - 1];
      assert k > 0;
      forall i | |s'| - (k - 1) <= i < |s'|
        ensures IsWhitespace(s'[i])
      {
        assert s'[i] == s[i];
      }
      if k - 1 < |s'| {
        assert s'[|s'| - (k - 1) - 1] == s[|s| - k - 1];
      }
      TrailingWhitespaceUnique(s', k - 1);
    }
  }

  /** Trimming the end of `x + y` only touches `y` when `y` starts with a
      character that is not white space. */
  lemma TrimEndAppend(x: string, y: string)
    requires y != [] && !IsWhitespace(y[0])
    ensures TrimEnd(x + y) == x + TrimEnd(y)
  {
    var k := TrailingWhitespace(y);
    assert k < |y|;
    var s := x + y;
    forall i | |s| - k <= i < |s|
      ensures IsWhitespace(s[i])
    {
      assert s[i] == y[i - |x|];
    }
    assert s[|s| - k - 1] == y[|y| - k - 1];
    TrailingWhitespaceUnique(s, k);
    assert s[..|s| - k] == x + y[..|y| - k];
  }

  /** A run of white space collapses to one space. */
  lemma CollapseRun(w: string)
    requires w != [] && forall i :: 0 <= i < |w| ==> IsWhitespace(w[i])
    ensures CollapseWhitespace(w) == " "
  {
    LeadingWhitespaceAll(w[1..]);
    CollapseRunStep(w);
  }

  lemma CollapseRunStep(w: string)
    requires w != [] && IsWhitespace(w[0]) && TrimStart(w[1..]) == []
    ensures CollapseWhitespace(w) == " "
  {
    assert CollapseWhitespace(w) == [' '] + CollapseWhitespace(TrimStart(w[1..]));
  }

  lemma LeadingWhitespaceAll(s: string)
    requires forall i :: 0 <= i < |s| ==> IsWhitespace(s[i])
    ensures LeadingWhitespace(s) == |s|
  {
  }

  /** Text without white space passes through collapsing unchanged. */
  lemma CollapseWord(u: string)
    requires forall i :: 0 <= i < |u| ==> !IsWhitespace(u[i])
    ensures CollapseWhitespace(u) == u
  {
    CollapseFixesNormalized(u);
  }

  lemma ConcatAssoc(x: string, y: string, z: string)
    ensures x + (y + z) == (x + y) + z
  {
  }

  lemma SplitAt(w: string, j: nat)
    requires j < |w|
    ensures w == w[..j] + ([w[j]] + w[j + 1..])
  {
  }

  lemma DropOfAppend(x: string, y: string, n: nat)
    requires n <= |x|
    ensures (x + y)[n..] == x[n..] + y
  {
  }

  /** The step of `CollapseAppend` for a first character that is not
      white space. */
  lemma CollapseAppendKeep(a: string, b: string)
    requires a != [] && !IsWhitespace(a[0])
    requires CollapseWhitespace(a[1..] + b) == CollapseWhitespace(a[1..]) + CollapseWhitespace(b)
    ensures CollapseWhitespace(a + b) == CollapseWhitespace(a) + CollapseWhitespace(b)
  {
    DropOfAppend(a, b, 1);
    var h := [a[0]];
    assert CollapseWhitespace(a + b) == h + CollapseWhitespace(a[1..] + b);
    assert CollapseWhitespace(a) == h + CollapseWhitespace(a[1..]);
    ConcatAssoc(h, CollapseWhitespace(a[1..]), CollapseWhitespace(b));
  }

  /** The step of `CollapseAppend` for a first run of white space that
      ends inside `a`, at the start of `t`. */
  lemma CollapseAppendRun(a: string, b: string, t: string)
    requires a != [] && IsWhitespace(a[0])
    requires t == TrimStart(a[1..]) && t != []
    requires CollapseWhitespace(t + b) == CollapseWhitespace(t) + CollapseWhitespace(b)
    ensures CollapseWhitespace(a + b) == CollapseWhitespace(a) + CollapseWhitespace(b)
  {
    DropOfAppend(a, b, 1);
    LeadingWhitespaceAppend(a[1..], b);
    DropOfAppend(a[1..], b, LeadingWhitespace(a[1..]));
    var h := [' '];
    assert CollapseWhitespace(a + b) == h + CollapseWhitespace(t + b);
    assert CollapseWhitespace(a) == h + CollapseWhitespace(t);
    ConcatAssoc(h, CollapseWhitespace(t), CollapseWhitespace(b));
  }

  /** The step of `CollapseAppend` when all of `a` is white space and `b`
      does not continue the run. */
  lemma CollapseAppendAllRun(a: string, b: string)
    requires a != [] && forall i :: 0 <= i < |a| ==> IsWhitespace(a[i])
    requires b == [] || !IsWhitespace(b[0])
    ensures CollapseWhitespace(a + b) == CollapseWhitespace(a) + CollapseWhitespace(b)
  {
    DropOfAppend(a, b, 1);
    LeadingWhitespaceAppend(a[1..], b);
    LeadingWhitespaceAll(a[1..]);
    assert b == [] || LeadingWhitespace(b) == 0;
    assert TrimStart(a[1..] + b) == b;
    assert CollapseWhitespace(a + b) == [' '] + CollapseWhitespace(b);
    CollapseRun(a);
  }

  /** Collapsing works piece by piece as long as the cut does not fall
      inside a run of white space. */
  lemma {:induction false} CollapseAppend(a: string, b: string)
    requires a == [] || b == [] || !IsWhitespace(a[|a| - 1]) || !IsWhitespace(b[0])
    ensures CollapseWhitespace(a + b) == CollapseWhitespace(a) + CollapseWhitespace(b)
    decreases |a|
  {
    if a == [] {
      assert a + b == b;
    } else if !IsWhitespace(a[0]) {
      var a' := a[1..];
      if a' != [] {
        assert a'[|a'| - 1] == a[|a| - 1];
      }
      CollapseAppend(a', b);
      CollapseAppendKeep(a, b);
    } else {
      var a' := a[1..];
      var n := LeadingWhitespace(a');
      if n < |a'| {
        var t := TrimStart(a');
        assert t[|t| - 1] == a[|a| - 1];
        CollapseAppend(t, b);
        CollapseAppendRun(a, b, t);
      } else {
        assert forall i :: 0 <= i < |a| ==> IsWhitespace(a[i]) by {
          forall i | 0 <= i < |a|
            ensures IsWhitespace(a[i])
          {
            if i > 0 {
              assert a[i] == a'[i - 1];
            }
          }
        }
        CollapseAppendAllRun(a, b);
      }
    }
  }

  /** A maximal run of white space between two pieces of text becomes
      exactly one space, in place. */
  lemma CollapseAtRun(a: string, w: string, b: string)
    requires a == [] || !IsWhitespace(a[|a| - 1])
    requires w != [] && forall i :: 0 <= i < |w| ==> IsWhitespace(w[i])
    requires b == [] || !IsWhitespace(b[0])
    ensures CollapseWhitespace(a + w + b) == CollapseWhitespace(a) + " " + CollapseWhitespace(b)
  {
    ConcatAssoc(a, w, b);
    assert (w + b)[0] == w[0];
    CollapseAppend(a, w + b);
    CollapseAppend(w, b);
    CollapseRun(w);
    ConcatAssoc(CollapseWhitespace(a), " ", CollapseWhitespace(b));
  }

  /** A word: non-empty text of characters that are neither white space
      nor invisible. */
  predicate IsWord(u: string)
  {
    u != [] && forall i :: 0 <= i < |u| ==> !IsWhitespace(u[i]) && !IsInvisible(u[i])
  }

  /** What separates two words: white space and invisible characters only,
      with at least one white-space character that survives the first
      `replace`. */
  predicate IsSeparator(w: string)
  {
    && (forall i :: 0 <= i < |w| ==> IsWhitespace(w[i]) || IsInvisible(w[i]))
    && (exists i :: 0 <= i < |w| && IsWhitespace(w[i]) && !IsInvisible(w[i]))
  }

  /** Deleting the invisible characters of a separator leaves a non-empty
      run of white space. */
  lemma StripSeparator(w: string)
    requires IsSeparator(w)
    ensures StripInvisible(w) != []
    ensures forall i :: 0 <= i < |StripInvisible(w)| ==> IsWhitespace(StripInvisible(w)[i])
  {
    var r := StripInvisible(w);
    var j :| 0 <= j < |w| && IsWhitespace(w[j]) && !IsInvisible(w[j]);
    SplitAt(w, j);
    StripInvisibleAppend(w[..j], [w[j]] + w[j + 1..]);
    StripInvisibleAppend([w[j]], w[j + 1..]);
    StripInvisibleChar(w[j]);
    StripSpacing(w);
  }

  /** A run of white space in front of text that does not continue it
      is invisible to `trim` once collapsed. */
  lemma TrimCollapseAfterRun(run: string, b2: string)
    requires forall i :: 0 <= i < |run| ==> IsWhitespace(run[i])
    requires b2 == [] || !IsWhitespace(b2[0])
    ensures Trim(CollapseWhitespace(run + b2)) == Trim(CollapseWhitespace(b2))
  {
    if run == [] {
      assert run + b2 == b2;
    } else {
      var c := CollapseWhitespace(b2);
      CollapseAppend(run, b2);
      CollapseRun(run);
      assert CollapseWhitespace(run + b2) == " " + c;
      TrimStartOfSpace(c);
      assert Trim(" " + c) == TrimEnd(TrimStart(" " + c));
    }
  }

  /** The text after the leading white space starts with a character that
      is not white space, if any is left. */
  lemma SplitLeading(s: string) returns (s1: string, s2: string)
    ensures s == s1 + s2
    ensures forall i :: 0 <= i < |s1| ==> IsWhitespace(s1[i])
    ensures s2 == [] || !IsWhitespace(s2[0])
    ensures s2 == TrimStart(s)
  {
    var n := LeadingWhitespace(s);
    s1, s2 := s[..n], s[n..];
    assert s == s1 + s2;
  }

  /** A prompt with a visible character, after the first `replace`, is a
      run of white space `b1` followed by text `b2` that starts with a
      visible character; its normal form is `b2` collapsed and trimmed at
      the end. */
  lemma NormalizeSplit(b: string) returns (b1: string, b2: string)
    requires Visible(b) != []
    ensures StripInvisible(b) == b1 + b2
    ensures forall i :: 0 <= i < |b1| ==> IsWhitespace(b1[i])
    ensures b2 != [] && !IsWhitespace(b2[0])
    ensures Normalize(b) == TrimEnd(CollapseWhitespace(b2))
  {
    var bs := StripInvisible(b);
    StripKeepsVisible(b);
    b1, b2 := SplitLeading(bs);
    if b2 == [] {
      assert bs == b1;
      VisibleOfWhitespace(bs);
    }
    TrimCollapseAfterRun(b1, b2);
    assert LeadingWhitespace(CollapseWhitespace(b2)) == 0;
  }

  /** Between a word and the rest of a prompt that still holds a visible
      character, any separator becomes exactly one space: the normal form
      is the word, one space, and the normal form of the rest. Together
      with `NormalizeDropsInvisibleInside` (which removes every invisible
      character first), `NormalizeDropsLeading`, `NormalizeDropsTrailing`,
      `NormalizeWord` and `NormalizeEmptyIff`, this determines the normal
      form of every prompt, word by word. */
  lemma NormalizeSeparatesWords(u: string, w: string, b: string)
    requires IsWord(u) && IsSeparator(w) && Visible(b) != []
    ensures Normalize(u + w + b) == u + " " + Normalize(b)
  {
    var b1, b2 := NormalizeSplit(b);
    var ws := StripInvisible(w);
    StripSeparator(w);
    assert StripInvisible(u) == u;
    StripInvisibleAppend(u, w);
    StripInvisibleAppend(u + w, b);
    var run := ws + b1;
    assert StripInvisible(u + w + b) == u + run + b2 by {
      ConcatAssoc(u, ws, b1 + b2);
      ConcatAssoc(ws, b1, b2);
      ConcatAssoc(u, run, b2);
      ConcatAssoc(u + ws, b1, b2);
    }
    assert run[0] == ws[0];
    forall i | 0 <= i < |run|
      ensures IsWhitespace(run[i])
    {
      if i >= |ws| {
        assert run[i] == b1[i - |ws|];
      }
    }
    CollapseAtRun(u, run, b2);
    CollapseWord(u);
    var c := CollapseWhitespace(b2);
    var x := u + " " + c;
    assert x[0] == u[0];
    assert TrimStart(x) == x;
    TrimEndAppend(u + " ", c);
  }

  /** An invisible character anywhere, even inside a word, is simply
      deleted: it neither splits the word nor leaves a space behind. */
  lemma NormalizeDropsInvisibleInside(a: string, z: char, b: string)
    requires IsInvisible(z)
    ensures Normalize(a + [z] + b) == Normalize(a + b)
  {
    StripInvisibleAppend(a + [z], b);
    StripInvisibleAppend(a, [z]);
    StripInvisibleChar(z);
    StripInvisibleAppend(a, b);
    assert StripInvisible(a) + [] == StripInvisible(a);
  }

  /** A single word is its own normal form. */
  lemma NormalizeWord(u: string)
    requires IsWord(u)
    ensures Normalize(u) == u
  {
    NormalizeFixesNormalized(u);
  }

  /** White space and invisible characters in front of the text do not
      matter. */
  lemma NormalizeDropsLeading(w: string, b: string)
    requires forall i :: 0 <= i < |w| ==> IsWhitespace(w[i]) || IsInvisible(w[i])
    ensures Normalize(w + b) == Normalize(b)
  {
    var ws := StripInvisible(w);
    StripSpacing(w);
    StripInvisibleAppend(w, b);
    var b1, b2 := SplitLeading(StripInvisible(b));
    var run := ws + b1;
    forall i | 0 <= i < |run|
      ensures IsWhitespace(run[i])
    {
      if i >= |ws| {
        assert run[i] == b1[i - |ws|];
      }
    }
    ConcatAssoc(ws, b1, b2);
    assert StripInvisible(w + b) == run + b2;
    TrimCollapseAfterRun(run, b2);
    TrimCollapseAfterRun(b1, b2);
    assert Normalize(w + b) == Trim(CollapseWhitespace(run + b2));
    assert Normalize(b) == Trim(CollapseWhitespace(b1 + b2));
  }

  /** Deleting the invisible characters of text made of white space and
      invisible characters leaves white space only. */
  lemma StripSpacing(w: string)
    requires forall i :: 0 <= i < |w| ==> IsWhitespace(w[i]) || IsInvisible(w[i])
    ensures forall i :: 0 <= i < |StripInvisible(w)| ==> IsWhitespace(StripInvisible(w)[i])
  {
    var r := StripInvisible(w);
    forall i | 0 <= i < |r|
      ensures IsWhitespace(r[i])
    {
      assert r[i] in r;
    }
  }

  /** Nor do white space and invisible characters after the text. */
  lemma NormalizeDropsTrailing(b: string, w: string)
    requires forall i :: 0 <= i < |w| ==> IsWhitespace(w[i]) || IsInvisible(w[i])
    ensures Normalize(b + w) == Normalize(b)
  {
    var ws := StripInvisible(w);
    StripSpacing(w);
    StripInvisibleAppend(b, w);
    var p, q := SplitTrailing(StripInvisible(b));
    var run := q + ws;
    forall i | 0 <= i < |run|
      ensures IsWhitespace(run[i])
    {
      if i >= |q| {
        assert run[i] == ws[i - |q|];
      }
    }
    ConcatAssoc(p, q, ws);
    assert StripInvisible(b + w) == p + run;
    TrimCollapseBeforeRun(p, run);
    TrimCollapseBeforeRun(p, q);
    assert Normalize(b + w) == Trim(CollapseWhitespace(p + run));
    assert Normalize(b) == Trim(CollapseWhitespace(p + q));
  }

  /** The text before the trailing white space ends with a character that
      is not white space, if any is left. */
  lemma SplitTrailing(s: string) returns (p: string, q: string)
    ensures s == p + q
    ensures forall i :: 0 <= i < |q| ==> IsWhitespace(q[i])
    ensures p == [] || !IsWhitespace(p[|p| - 1])
  {
    var m := |s| - TrailingWhitespace(s);
    p, q := s[..m], s[m..];
    assert s == p + q;
  }

  /** Collapsing keeps a last character that is not white space. */
  lemma CollapseEndsVisible(p: string)
    requires p != [] && !IsWhitespace(p[|p| - 1])
    ensures CollapseWhitespace(p) != [] && !IsWhitespace(CollapseWhitespace(p)[|CollapseWhitespace(p)| - 1])
  {
    var init := p[..|p| - 1];
    var last := [p[|p| - 1]];
    assert p == init + last;
    CollapseAppend(init, last);
    CollapseWord(last);
  }

  /** `trim` removes one space after text that ends visibly. */
  lemma TrimDropsTrailingSpace(x: string)
    requires x == [] || !IsWhitespace(x[|x| - 1])
    ensures Trim(x + " ") == Trim(x)
  {
    SpaceIsWhitespace();
    if x == [] {
      assert LeadingWhitespace(" ") == 1 by {
        assert " "[1..] == [];
      }
    } else {
      var y := TrimStartBeforeSpace(x);
      TrimEndOfSpace(y);
    }
  }

  lemma TrimStartBeforeSpace(x: string) returns (y: string)
    requires x != [] && !IsWhitespace(x[|x| - 1])
    ensures y == TrimStart(x) && TrimStart(x + " ") == y + " "
    ensures y != [] && !IsWhitespace(y[|y| - 1])
  {
    LeadingWhitespaceAppend(x, " ");
    assert LeadingWhitespace(x) < |x|;
    y := TrimStart(x);
    DropOfAppend(x, " ", LeadingWhitespace(x));
    assert y[|y| - 1] == x[|x| - 1];
  }

  lemma TrimEndOfSpace(y: string)
    requires y != [] && !IsWhitespace(y[|y| - 1])
    ensures TrimEnd(y + " ") == y && TrimEnd(y) == y
  {
    SpaceIsWhitespace();
    TrailingWhitespaceUnique(y + " ", 1);
    assert (y + " ")[..|y|] == y;
    TrailingWhitespaceUnique(y, 0);
  }

  /** A run of white space after text that ends visibly is invisible to
      `trim` once collapsed. */
  lemma TrimCollapseBeforeRun(p: string, run: string)
    requires forall i :: 0 <= i < |run| ==> IsWhitespace(run[i])
    requires p == [] || !IsWhitespace(p[|p| - 1])
    ensures Trim(CollapseWhitespace(p + run)) == Trim(CollapseWhitespace(p))
  {
    if run == [] {
      assert p + run == p;
    } else {
      CollapseAppend(p, run);
      CollapseRun(run);
      if p != [] {
        CollapseEndsVisible(p);
      }
      TrimDropsTrailingSpace(CollapseWhitespace(p));
    }
  }

  /** One space in front of collapsed text is removed by `trim`. */
  lemma TrimStartOfSpace(c: string)
    requires c == [] || !IsWhitespace(c[0])
    ensures TrimStart(" " + c) == TrimStart(c)
  {
    SpaceIsWhitespace();
    assert (" " + c)[1..] == c;
  }

  /** `trim()` yields the empty string exactly for white-space-only text. */
  lemma TrimEmptyIff(s: string)
    ensures Trim(s) == [] <==> forall i :: 0 <= i < |s| ==> IsWhitespace(s[i])
  {
    var a := TrimIsSlice(s);
    if Trim(s) != [] {
      assert !IsWhitespace(s[a]);
    }
  }

  /** A blank prompt normalises to the empty text; the converse fails: a
      prompt made only of a zero-width space is not blank, yet normalises
      to the empty text. */
  lemma BlankNormalizesToEmpty(prompt: string)
    ensures Trim(prompt) == [] ==> Normalize(prompt) == []
    ensures var zw := "\U{200B}"; Trim(zw) != [] && Normalize(zw) == []
  {
    TrimEmptyIff(prompt);
    if Trim(prompt) == [] {
      VisibleOfWhitespace(prompt);
      NormalizeEmptyIff(prompt);
    }
    var zw := "\U{200B}";
    InvisibleExplicit(zw[0]);
    WhitespaceExplicit(zw[0]);
    TrimEmptyIff(zw);
    assert Visible(zw) == [];
    NormalizeEmptyIff(zw);
  }
}
