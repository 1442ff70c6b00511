/**
 * A Word paragraph as the parser sees it, and the heading classifier
 * (`_detect_heading_level`).
 */
module Paragraphs {
  import opened Wrappers
  import opened Text

  /**
   * `styleName` is `paragraph.style.name or ""`; `outlineLvl` is the `w:val`
   * attribute of `w:pPr/w:outlineLvl` when the paragraph has one; `hasNumPr`
   * records whether `w:pPr/w:numPr` is present (a Word list item).
   */
  datatype Paragraph = Paragraph(text: string, styleName: string, outlineLvl: Option<string>, hasNumPr: bool)

  /** The prefix that marks the built-in heading styles. */
  const HeadingPrefix := "Heading"

  /** The number a `"Heading N"` style names: a style starting with "Heading" that splits into two words, the second all digits. */
  function StyleHeadingNumber(style: string): Option<nat> {
    if StartsWith(style, HeadingPrefix) then
      var parts := Words(style);
      if |parts| == 2 && IsDigits(parts[1]) then Some(DecimalValue(parts[1])) else None
    else None
  }

  /** The level an explicit outline level `v` gives: `int(v) + 1` when `v` is all digits. */
  function OutlineHeadingLevel(outline: Option<string>): Option<nat> {
    match outline
    case Some(v) => if IsDigits(v) then Some(DecimalValue(v) + 1) else None
    case None => None
  }

  /** `_detect_heading_level`: the paragraph's heading level, or None for body text. */
  function HeadingLevel(p: Paragraph): (r: Option<nat>)
    ensures r == Some(0) ==> p.styleName == "Title" || StyleHeadingNumber(p.styleName) == Some(0)
    ensures r.None? <==> p.styleName != "Title" && StyleHeadingNumber(p.styleName).None? && OutlineHeadingLevel(p.outlineLvl).None?
  {
    if p.styleName == "Title" then Some(0)
    else if StyleHeadingNumber(p.styleName).Some? then StyleHeadingNumber(p.styleName)
    else OutlineHeadingLevel(p.outlineLvl)
  }

  predicate IsHeading(p: Paragraph) {
    HeadingLevel(p).Some?
  }

  /** The "Title" style gives level 0 whatever outline level the paragraph carries. */
  lemma TitleIsLevelZero(p: Paragraph)
    requires p.styleName == "Title"
    ensures HeadingLevel(p) == Some(0)
  {
  }

  lemma PrefixHasNoSpace()
    ensures forall i :: 0 <= i < |HeadingPrefix| ==> !IsSpace(HeadingPrefix[i])
  {
  }

  lemma DigitsHaveNoSpace(d: string)
    requires IsDigits(d)
    ensures forall i :: 0 <= i < |d| ==> !IsSpace(d[i])
  {
    forall i | 0 <= i < |d| ensures !IsSpace(d[i]) {
      assert IsDigit(d[i]);
    }
  }

  lemma HeadingStyleNumberOf(d: string)
    requires IsDigits(d)
    ensures StyleHeadingNumber(HeadingPrefix + " " + d) == Some(DecimalValue(d))
  {
    var style := HeadingPrefix + " " + d;
    DigitsHaveNoSpace(d);
    PrefixHasNoSpace();
    WordsOfTwo(HeadingPrefix, d);
    var parts := Words(style);
    assert |parts| == 2 && parts[1] == d;
    assert style == HeadingPrefix + (" " + d);
    StartsWithConcat(HeadingPrefix, " " + d);
  }

  /** A style "Heading N" gives level N, for every N, whatever the outline level says. */
  lemma HeadingStyleLevel(n: nat, text: string, outline: Option<string>, numPr: bool)
    ensures HeadingLevel(Paragraph(text, HeadingPrefix + " " + NatToString(n), outline, numPr)) == Some(n)
  {
    var style := HeadingPrefix + " " + NatToString(n);
    HeadingStyleNumberOf(NatToString(n));
    DecimalRoundTrip(n);
    assert style != "Title" by { assert |style| > 5; }
  }

  /** A style rule, when it applies, takes precedence over the outline level: changing the outline level changes nothing. */
  lemma StyleTakesPrecedence(p: Paragraph, outline: Option<string>)
    requires p.styleName == "Title" || StyleHeadingNumber(p.styleName).Some?
    ensures HeadingLevel(p.(outlineLvl := outline)) == HeadingLevel(p)
  {
  }

  /** Without a style rule, an outline level v gives level v + 1, so an outline level never yields the title level 0. */
  lemma OutlineLevelShift(p: Paragraph, v: string)
    requires p.styleName != "Title" && StyleHeadingNumber(p.styleName).None?
    requires p.outlineLvl == Some(v) && IsDigits(v)
    ensures HeadingLevel(p) == Some(DecimalValue(v) + 1)
    ensures HeadingLevel(p).value >= 1
  {
  }

  /** `_is_list_item`: the paragraph has numbering properties. */
  predicate IsListItem(p: Paragraph) {
    p.hasNumPr
  }
}
