/** Character classes shared by the normaliser and the rule table.

    Characters are Unicode scalar values. The source runs its regular
    expressions without the `u` flag, so they see UTF-16 code units; every
    class below lies in the Basic Multilingual Plane and contains no
    surrogate, so the two views agree on membership. */
module CharClasses {

  /** An inclusive range of characters, as written `\u200B-\u200F` in
      a bracket expression; a single character is a range with `lo == hi`. */
  datatype CharRange = CharRange(lo: char, hi: char)

  /** Membership in a bracket expression made of ranges. */
  predicate InClass(c: char, ranges: seq<CharRange>)
  {
    exists k :: 0 <= k < |ranges| && ranges[k].lo <= c <= ranges[k].hi
  }

  /** The zero-width and directional-formatting characters that the
      normaliser removes and the "Unicode Manipulation" rule looks for:
      U+200B..U+200F, U+2028..U+202F and U+FEFF. */
  const InvisibleRanges: seq<CharRange> :=
    [ CharRange('\U{200B}', '\U{200F}'),
      CharRange('\U{2028}', '\U{202F}'),
      CharRange('\U{FEFF}', '\U{FEFF}') ]

  /** The characters JavaScript's `\s` and `String.prototype.trim` treat
      as white space: the WhiteSpace code points (tab, vertical tab, form
      feed, space, no-break space, U+FEFF and the Zs separators) and the
      LineTerminator code points (line feed, carriage return, U+2028 and
      U+2029) of ECMA-262, 2023 edition, sections 12.2 and 12.3. */
  const WhitespaceRanges: seq<CharRange> :=
    [ CharRange('\U{0009}', '\U{000D}'),
      CharRange('\U{0020}', '\U{0020}'),
      CharRange('\U{00A0}', '\U{00A0}'),
      CharRange('\U{1680}', '\U{1680}'),
      CharRange('\U{2000}', '\U{200A}'),
      CharRange('\U{2028}', '\U{2029}'),
      CharRange('\U{202F}', '\U{202F}'),
      CharRange('\U{205F}', '\U{205F}'),
      CharRange('\U{3000}', '\U{3000}'),
      CharRange('\U{FEFF}', '\U{FEFF}') ]

  predicate IsInvisible(c: char)
  {
    InClass(c, InvisibleRanges)
  }

  predicate IsWhitespace(c: char)
  {
    InClass(c, WhitespaceRanges)
  }

  /** The class membership spelled out, so that single characters can be
      decided without searching the range list. */
  lemma InvisibleExplicit(c: char)
    ensures IsInvisible(c) <==>
      ('\U{200B}' <= c <= '\U{200F}') || ('\U{2028}' <= c <= '\U{202F}') || c == '\U{FEFF}'
  {
    if '\U{200B}' <= c <= '\U{200F}' {
      assert InvisibleRanges[0].lo <= c <= InvisibleRanges[0].hi;
    } else if '\U{2028}' <= c <= '\U{202F}' {
      assert InvisibleRanges[1].lo <= c <= InvisibleRanges[1].hi;
    } else if c == '\U{FEFF}' {
      assert InvisibleRanges[2].lo <= c <= InvisibleRanges[2].hi;
    }
  }

  lemma WhitespaceExplicit(c: char)
    ensures IsWhitespace(c) <==>
      || ('\U{0009}' <= c <= '\U{000D}') || c == ' ' || c == '\U{00A0}' || c == '\U{1680}'
      || ('\U{2000}' <= c <= '\U{200A}') || c == '\U{2028}' || c == '\U{2029}' || c == '\U{202F}'
      || c == '\U{205F}' || c == '\U{3000}' || c == '\U{FEFF}'
  {
    var w := WhitespaceRanges;
    if IsWhitespace(c) {
      var k :| 0 <= k < |w| && w[k].lo <= c <= w[k].hi;
      assert k < 10;
    } else {
      assert !(w[0].lo <= c <= w[0].hi) && !(w[1].lo <= c <= w[1].hi) && !(w[2].lo <= c <= w[2].hi);
      assert !(w[3].lo <= c <= w[3].hi) && !(w[4].lo <= c <= w[4].hi) && !(w[5].lo <= c <= w[5].hi);
      assert !(w[6].lo <= c <= w[6].hi) && !(w[7].lo <= c <= w[7].hi) && !(w[8].lo <= c <= w[8].hi);
      assert !(w[9].lo <= c <= w[9].hi);
    }
  }

  lemma SpaceIsWhitespace()
    ensures IsWhitespace(' ')
    ensures !IsInvisible(' ')
  {
    assert WhitespaceRanges[1].lo <= ' ' <= WhitespaceRanges[1].hi;
    InvisibleExplicit(' ');
  }
}
