/**
 * The document-structure queries of the parser: the flat heading list, the
 * paragraph span a heading owns (`_section_paragraphs`), and the three public
 * functions `load_document_structure`, `get_section_content` and
 * `get_all_sections_summary`.
 *
 * Opening the file is outside the model: each entry point receives whether
 * the file exists and the document's paragraphs. The MD5 digest is a function
 * parameter.
 */
module DocxParser {
  import opened Wrappers
  import opened Text
  import opened Paragraphs
  import opened HeadingTree

  /** The length of a section preview before it is cut and given an ellipsis. */
  const PreviewLength: nat := 200

  function FileNotFound(path: string): string {
    "File not found: " + path
  }

  function HeadingNotFound(text: string): string {
    "Heading not found: " + text
  }

  // ---------------------------------------------------------------------------
  // The heading list

  /** Every heading paragraph of `ps`, in document order, with its level, stripped text and index. */
  function Headings(ps: seq<Paragraph>): (hs: seq<Heading>)
    ensures |hs| <= |ps|
    ensures forall k :: 0 <= k < |hs| ==> hs[k].paragraphIndex < |ps|
    decreases |ps|
  {
    if ps == [] then []
    else
      var n := |ps| - 1;
      var earlier := Headings(ps[..n]);
      match HeadingLevel(ps[n])
      case Some(level) => earlier + [Heading(level, Strip(ps[n].text), n)]
      case None => earlier
  }

  /**
   * Each entry of the heading list is a heading paragraph, with the level the
   * classifier gives it and its stripped text, and the entries follow
   * document order.
   */
  lemma {:induction false} HeadingsSound(ps: seq<Paragraph>)
    ensures forall k :: 0 <= k < |Headings(ps)| ==>
      HeadingLevel(ps[Headings(ps)[k].paragraphIndex]) == Some(Headings(ps)[k].level)
      && Headings(ps)[k].text == Strip(ps[Headings(ps)[k].paragraphIndex].text)
    ensures forall k, l :: 0 <= k < l < |Headings(ps)| ==> Headings(ps)[k].paragraphIndex < Headings(ps)[l].paragraphIndex
    decreases |ps|
  {
    if ps != [] {
      var n := |ps| - 1;
      HeadingsSound(ps[..n]);
      var hs := Headings(ps);
      var earlier := Headings(ps[..n]);
      forall k | 0 <= k < |earlier|
        ensures hs[k] == earlier[k] && ps[..n][earlier[k].paragraphIndex] == ps[earlier[k].paragraphIndex]
      {
      }
    }
  }

  /** Every heading paragraph appears in the heading list. */
  lemma {:induction false} HeadingsComplete(ps: seq<Paragraph>, i: nat)
    requires i < |ps| && IsHeading(ps[i])
    ensures exists k :: 0 <= k < |Headings(ps)| && Headings(ps)[k].paragraphIndex == i
    decreases |ps|
  {
    var n := |ps| - 1;
    if i < n {
      assert ps[..n][i] == ps[i];
      HeadingsComplete(ps[..n], i);
      var k :| 0 <= k < |Headings(ps[..n])| && Headings(ps[..n])[k].paragraphIndex == i;
      assert Headings(ps)[k] == Headings(ps[..n])[k];
    } else {
      assert Headings(ps)[|Headings(ps)| - 1].paragraphIndex == i;
    }
  }

  /** The texts of a heading list. */
  function TextsOf(hs: seq<Heading>): seq<string> {
    seq(|hs|, k requires 0 <= k < |hs| => hs[k].text)
  }

  /** The texts of a run of paragraphs. */
  function ParagraphTexts(ps: seq<Paragraph>): seq<string> {
    seq(|ps|, k requires 0 <= k < |ps| => ps[k].text)
  }

  /** The loop `for idx, p in enumerate(paragraphs)` that collects the headings. */
  method CollectHeadings(ps: seq<Paragraph>) returns (headings: seq<Heading>)
    ensures headings == Headings(ps)
  {
    headings := [];
    for idx := 0 to |ps|
      invariant headings == Headings(ps[..idx])
    {
      assert ps[..idx + 1][..idx] == ps[..idx];
      var level := HeadingLevel(ps[idx]);
      if level.Some? {
        headings := headings + [Heading(level.value, Strip(ps[idx].text), idx)];
      }
    }
    assert ps[..|ps|] == ps;
  }

  /** Heading texts are stored stripped: stripping them again changes nothing. */
  lemma HeadingTextsStripped(ps: seq<Paragraph>)
    ensures forall k :: 0 <= k < |Headings(ps)| ==> Strip(Headings(ps)[k].text) == Headings(ps)[k].text
  {
    var hs := Headings(ps);
    HeadingsSound(ps);
    forall k | 0 <= k < |hs| ensures Strip(hs[k].text) == hs[k].text {
      StripIdempotent(ps[hs[k].paragraphIndex].text);
    }
  }

  // ---------------------------------------------------------------------------
  // Section spans

  /** A paragraph closes a section of level `level` when it is a heading no deeper than `level`. */
  predicate EndsSection(p: Paragraph, level: nat) {
    HeadingLevel(p).Some? && HeadingLevel(p).value <= level
  }

  /** The first index at or after `from` that closes a section of level `level`, or the document end. */
  function SectionEnd(ps: seq<Paragraph>, from: nat, level: nat): (e: nat)
    requires from <= |ps|
    ensures from <= e <= |ps|
    decreases |ps| - from
  {
    if from == |ps| || EndsSection(ps[from], level) then from else SectionEnd(ps, from + 1, level)
  }

  /** `SectionEnd` finds the first closing paragraph: none before it closes the section. */
  lemma {:induction false} SectionEndSpec(ps: seq<Paragraph>, from: nat, level: nat)
    requires from <= |ps|
    ensures forall i :: from <= i < SectionEnd(ps, from, level) ==> !EndsSection(ps[i], level)
    ensures SectionEnd(ps, from, level) == |ps| || EndsSection(ps[SectionEnd(ps, from, level)], level)
    decreases |ps| - from
  {
    if from < |ps| && !EndsSection(ps[from], level) {
      SectionEndSpec(ps, from + 1, level);
    }
  }

  /** Where a section's content starts: right after its heading (`range(heading_idx + 1, len(paragraphs))`). */
  function SpanStart(ps: seq<Paragraph>, headingIdx: nat): nat {
    if headingIdx + 1 <= |ps| then headingIdx + 1 else |ps|
  }

  /** The paragraphs of the section opened at `headingIdx` with level `level`. */
  function SectionSpan(ps: seq<Paragraph>, headingIdx: nat, level: nat): seq<Paragraph> {
    var start := SpanStart(ps, headingIdx);
    ps[start..SectionEnd(ps, start, level)]
  }

  /**
   * `_section_paragraphs`: the paragraphs after the heading, up to but not
   * including the first heading no deeper than it, or to the document end.
   */
  method SectionParagraphs(ps: seq<Paragraph>, headingIdx: nat, headingLevel: nat) returns (result: seq<Paragraph>)
    ensures result == SectionSpan(ps, headingIdx, headingLevel)
  {
    var start := SpanStart(ps, headingIdx);
    result := [];
    var i := start;
    while i < |ps|
      invariant start <= i <= |ps|
      invariant result == ps[start..i]
      invariant forall k :: start <= k < i ==> !EndsSection(ps[k], headingLevel)
    {
      var lvl := HeadingLevel(ps[i]);
      if lvl.Some? && lvl.value <= headingLevel {
        break;
      }
      result := result + [ps[i]];
      i := i + 1;
    }
    SectionEndSpec(ps, start, headingLevel);
    assert i == SectionEnd(ps, start, headingLevel);
  }

  /**
   * A section is the run of paragraphs right after its heading: none of them
   * closes the section, and the run stops at the document end or at a
   * heading no deeper than the section's own.
   */
  lemma SectionSpanShape(ps: seq<Paragraph>, headingIdx: nat, level: nat)
    ensures var span := SectionSpan(ps, headingIdx, level);
      (forall k :: 0 <= k < |span| ==> headingIdx + 1 + k < |ps| && span[k] == ps[headingIdx + 1 + k])
      && (forall k :: 0 <= k < |span| ==> !EndsSection(span[k], level))
      && (headingIdx + 1 + |span| >= |ps| || EndsSection(ps[headingIdx + 1 + |span|], level))
  {
    SectionEndSpec(ps, SpanStart(ps, headingIdx), level);
  }

  // ---------------------------------------------------------------------------
  // load_document_structure

  datatype Structure = Structure(
    filepath: string,
    paragraphCount: nat,
    headingCount: nat,
    headings: seq<Heading>,
    headingTree: seq<HeadingNode>)

  /**
   * `load_document_structure`: the heading list and the tree built from it,
   * or the file-not-found error before anything is parsed.
   */
  method LoadDocumentStructure(path: string, fileExists: bool, ps: seq<Paragraph>) returns (r: Result<Structure>)
    ensures !fileExists ==> r == Err(FileNotFound(path))
    ensures fileExists ==> (
      r.Ok?
      && r.value.filepath == path
      && r.value.paragraphCount == |ps|
      && r.value.headings == Headings(ps)
      && r.value.headingCount == |r.value.headings|
      && r.value.headingTree == BuildForest(r.value.headings)
      && Preorder(r.value.headingTree) == r.value.headings
      && ChildrenDeeper(r.value.headingTree))
  {
    if !fileExists {
      return Err(FileNotFound(path));
    }
    var headings := CollectHeadings(ps);
    var tree, parent := BuildHeadingTree(headings);
    r := Ok(Structure(path, |ps|, |headings|, headings, tree));
  }

  // ---------------------------------------------------------------------------
  // get_section_content

  datatype SectionContent = SectionContent(
    heading: string,
    level: nat,
    content: string,
    paragraphCount: nat,
    subsections: seq<string>)

  /** The paragraph `get_section_content` looks for: a heading whose stripped text is `text`. */
  predicate IsTarget(p: Paragraph, text: string) {
    IsHeading(p) && Strip(p.text) == text
  }

  /** The first target paragraph at or after `from`, if any. */
  function FirstTarget(ps: seq<Paragraph>, text: string, from: nat): (r: Option<nat>)
    requires from <= |ps|
    ensures r.Some? ==> from <= r.value < |ps| && IsTarget(ps[r.value], text)
    decreases |ps| - from
  {
    if from == |ps| then None
    else if IsTarget(ps[from], text) then Some(from)
    else FirstTarget(ps, text, from + 1)
  }

  /** `FirstTarget` finds the first target: none before the one it returns is a target, and None means there is none. */
  lemma FirstTargetSpec(ps: seq<Paragraph>, text: string, from: nat)
    requires from <= |ps|
    ensures FirstTarget(ps, text, from).Some? ==>
      forall k :: from <= k < FirstTarget(ps, text, from).value ==> !IsTarget(ps[k], text)
    ensures FirstTarget(ps, text, from).None? ==> forall k :: from <= k < |ps| ==> !IsTarget(ps[k], text)
  {
    FirstTargetIsFirst(ps, text, from);
    FirstTargetNone(ps, text, from);
  }

  lemma {:induction false} FirstTargetIsFirst(ps: seq<Paragraph>, text: string, from: nat)
    requires from <= |ps|
    ensures FirstTarget(ps, text, from).Some? ==>
      forall k :: from <= k < FirstTarget(ps, text, from).value ==> !IsTarget(ps[k], text)
    decreases |ps| - from
  {
    if from < |ps| && !IsTarget(ps[from], text) {
      FirstTargetIsFirst(ps, text, from + 1);
      assert FirstTarget(ps, text, from) == FirstTarget(ps, text, from + 1);
    }
  }

  lemma {:induction false} FirstTargetNone(ps: seq<Paragraph>, text: string, from: nat)
    requires from <= |ps|
    ensures FirstTarget(ps, text, from).None? ==> forall k :: from <= k < |ps| ==> !IsTarget(ps[k], text)
    decreases |ps| - from
  {
    if from < |ps| && !IsTarget(ps[from], text) {
      FirstTargetNone(ps, text, from + 1);
      assert FirstTarget(ps, text, from) == FirstTarget(ps, text, from + 1);
    }
  }

  /** What `get_section_content` returns for an existing file. */
  function SectionContentOf(ps: seq<Paragraph>, text: string): Result<SectionContent> {
    match FirstTarget(ps, text, 0)
    case None => Err(HeadingNotFound(text))
    case Some(idx) =>
      var level := HeadingLevel(ps[idx]).value;
      var span := SectionSpan(ps, idx, level);
      Ok(SectionContent(text, level, JoinLines(ParagraphTexts(span)), |span|, TextsOf(Headings(span))))
  }

  /** The loop over the section's paragraphs that collects the stripped texts of the headings among them. */
  method Subsections(span: seq<Paragraph>) returns (subsections: seq<string>)
    ensures subsections == TextsOf(Headings(span))
  {
    subsections := [];
    for k := 0 to |span|
      invariant subsections == TextsOf(Headings(span[..k]))
    {
      assert span[..k + 1][..k] == span[..k];
      var lvl := HeadingLevel(span[k]);
      if lvl.Some? {
        subsections := subsections + [Strip(span[k].text)];
      }
    }
    assert span[..|span|] == span;
  }

  /** The search loop of `get_section_content`: the index of the first heading whose stripped text is `text`. */
  method FindTarget(ps: seq<Paragraph>, text: string) returns (target: Option<nat>)
    ensures target == FirstTarget(ps, text, 0)
  {
    target := None;
    var idx := 0;
    while idx < |ps|
      invariant idx <= |ps|
      invariant target == None
      invariant forall k :: 0 <= k < idx ==> !IsTarget(ps[k], text)
    {
      var level := HeadingLevel(ps[idx]);
      if level.Some? && Strip(ps[idx].text) == text {
        target := Some(idx);
        break;
      }
      idx := idx + 1;
    }
    FirstTargetSpec(ps, text, 0);
  }

  /**
   * `get_section_content`: the section of the first heading whose stripped
   * text equals `headingText`.
   */
  method GetSectionContent(path: string, fileExists: bool, ps: seq<Paragraph>, headingText: string)
    returns (r: Result<SectionContent>)
    ensures !fileExists ==> r == Err(FileNotFound(path))
    ensures fileExists ==> r == SectionContentOf(ps, headingText)
  {
    if !fileExists {
      return Err(FileNotFound(path));
    }
    var target := FindTarget(ps, headingText);
    if target.None? {
      return Err(HeadingNotFound(headingText));
    }
    var targetLevel := HeadingLevel(ps[target.value]).value;
    var sectionPars := SectionParagraphs(ps, target.value, targetLevel);
    var content := JoinLines(ParagraphTexts(sectionPars));
    var subsections := Subsections(sectionPars);
    r := Ok(SectionContent(headingText, targetLevel, content, |sectionPars|, subsections));
  }

  /**
   * The lookup fails exactly when no heading has the requested text; when it
   * succeeds, the section is the span of the first such heading.
   */
  lemma SectionContentFound(ps: seq<Paragraph>, text: string)
    ensures SectionContentOf(ps, text).Err? <==> forall k :: 0 <= k < |ps| ==> !IsTarget(ps[k], text)
    ensures SectionContentOf(ps, text).Err? ==> SectionContentOf(ps, text).message == HeadingNotFound(text)
    ensures SectionContentOf(ps, text).Ok? ==>
      exists idx :: 0 <= idx < |ps| && IsTarget(ps[idx], text)
        && (forall k :: 0 <= k < idx ==> !IsTarget(ps[k], text))
        && SectionContentOf(ps, text).value.level == HeadingLevel(ps[idx]).value
        && SectionContentOf(ps, text).value.paragraphCount
           == SectionEnd(ps, idx + 1, HeadingLevel(ps[idx]).value) - (idx + 1)
  {
    var t := FirstTarget(ps, text, 0);
    FirstTargetSpec(ps, text, 0);
    if t.Some? {
      var idx := t.value;
      assert SpanStart(ps, idx) == idx + 1;
    }
  }

  /** The heading texts of a span are the stripped texts of its heading paragraphs, and only those. */
  lemma HeadingTextsOfSpan(span: seq<Paragraph>)
    ensures |TextsOf(Headings(span))| <= |span|
    ensures forall i :: 0 <= i < |span| && IsHeading(span[i]) ==> Strip(span[i].text) in TextsOf(Headings(span))
    ensures forall s :: s in TextsOf(Headings(span)) ==>
      exists i :: 0 <= i < |span| && IsHeading(span[i]) && Strip(span[i].text) == s
  {
    var hs := Headings(span);
    var subs := TextsOf(hs);
    HeadingsSound(span);
    forall i | 0 <= i < |span| && IsHeading(span[i]) ensures Strip(span[i].text) in subs {
      HeadingsComplete(span, i);
      var k :| 0 <= k < |hs| && hs[k].paragraphIndex == i;
      assert subs[k] == Strip(span[i].text);
    }
    forall s | s in subs ensures exists i :: 0 <= i < |span| && IsHeading(span[i]) && Strip(span[i].text) == s {
      var k :| 0 <= k < |subs| && subs[k] == s;
      var i := hs[k].paragraphIndex;
      assert IsHeading(span[i]) && Strip(span[i].text) == s;
    }
  }

  /**
   * `subsections` lists every heading inside the section, at any depth, not
   * only its direct children: each heading paragraph of the span contributes
   * its stripped text, and nothing else does.
   */
  lemma SubsectionsListNestedHeadings(ps: seq<Paragraph>, text: string)
    requires SectionContentOf(ps, text).Ok?
    ensures var idx := FirstTarget(ps, text, 0).value;
      var span := SectionSpan(ps, idx, HeadingLevel(ps[idx]).value);
      var subs := SectionContentOf(ps, text).value.subsections;
      |subs| <= |span|
      && (forall i :: 0 <= i < |span| && IsHeading(span[i]) ==> Strip(span[i].text) in subs)
      && (forall s :: s in subs ==> exists i :: 0 <= i < |span| && IsHeading(span[i]) && Strip(span[i].text) == s)
  {
    var idx := FirstTarget(ps, text, 0).value;
    var span := SectionSpan(ps, idx, HeadingLevel(ps[idx]).value);
    assert SectionContentOf(ps, text).value.subsections == TextsOf(Headings(span));
    HeadingTextsOfSpan(span);
  }

  // ---------------------------------------------------------------------------
  // get_all_sections_summary

  datatype SectionSummary = SectionSummary(
    heading: string,
    level: nat,
    preview: string,
    contentHash: string,
    paragraphCount: nat)

  datatype Summary = Summary(filepath: string, sections: seq<SectionSummary>)

  /** The summary entry of one heading: its span's newline-joined text, previewed and hashed. */
  function SummaryOf(ps: seq<Paragraph>, h: Heading, md5Hex: string -> string): SectionSummary {
    var span := SectionSpan(ps, h.paragraphIndex, h.level);
    var content := JoinLines(ParagraphTexts(span));
    SectionSummary(h.text, h.level, Truncate(content, PreviewLength), md5Hex(content), |span|)
  }

  /** The body of the summary loop: one heading's span, joined, previewed and hashed. */
  method SummarizeSection(ps: seq<Paragraph>, h: Heading, md5Hex: string -> string) returns (entry: SectionSummary)
    ensures entry == SummaryOf(ps, h, md5Hex)
  {
    var pars := SectionParagraphs(ps, h.paragraphIndex, h.level);
    var content := JoinLines(ParagraphTexts(pars));
    var preview := Truncate(content, PreviewLength);
    entry := SectionSummary(h.text, h.level, preview, md5Hex(content), |pars|);
  }

  /**
   * `get_all_sections_summary`: one entry per heading, in document order.
   * `md5Hex` stands for `hashlib.md5(content.encode("utf-8")).hexdigest()`.
   */
  method GetAllSectionsSummary(path: string, fileExists: bool, ps: seq<Paragraph>, md5Hex: string -> string)
    returns (r: Result<Summary>)
    ensures !fileExists ==> r == Err(FileNotFound(path))
    ensures fileExists ==> (
      r.Ok? && r.value.filepath == path
      && |r.value.sections| == |Headings(ps)|
      && forall k :: 0 <= k < |Headings(ps)| ==> r.value.sections[k] == SummaryOf(ps, Headings(ps)[k], md5Hex))
  {
    if !fileExists {
      return Err(FileNotFound(path));
    }
    var headings := CollectHeadings(ps);
    var sections: seq<SectionSummary> := [];
    for i := 0 to |headings|
      invariant |sections| == i
      invariant forall k :: 0 <= k < i ==> sections[k] == SummaryOf(ps, headings[k], md5Hex)
    {
      var entry := SummarizeSection(ps, headings[i], md5Hex);
      sections := sections + [entry];
    }
    r := Ok(Summary(path, sections));
  }

  /**
   * Each preview is the section text when it has at most 200 characters, and
   * otherwise its first 200 characters followed by an ellipsis.
   */
  lemma PreviewOfSection(ps: seq<Paragraph>, h: Heading, md5Hex: string -> string)
    ensures var content := JoinLines(ParagraphTexts(SectionSpan(ps, h.paragraphIndex, h.level)));
      var preview := SummaryOf(ps, h, md5Hex).preview;
      (|content| <= 200 ==> preview == content)
      && (|content| > 200 ==> |preview| == 201 && preview[..200] == content[..200] && preview[200] == Ellipsis)
  {
  }

  /**
   * `get_section_content` and `get_all_sections_summary` agree: the summary
   * entry of the heading found by text has the same level, the same paragraph
   * count and the hash of the same content.
   */
  lemma ContentMatchesSummary(ps: seq<Paragraph>, text: string, md5Hex: string -> string)
    requires SectionContentOf(ps, text).Ok?
    ensures exists k :: (
      0 <= k < |Headings(ps)|
      && Headings(ps)[k].paragraphIndex == FirstTarget(ps, text, 0).value
      && Headings(ps)[k].text == text
      && SummaryOf(ps, Headings(ps)[k], md5Hex).level == SectionContentOf(ps, text).value.level
      && SummaryOf(ps, Headings(ps)[k], md5Hex).paragraphCount == SectionContentOf(ps, text).value.paragraphCount
      && SummaryOf(ps, Headings(ps)[k], md5Hex).contentHash == md5Hex(SectionContentOf(ps, text).value.content))
  {
    var idx := FirstTarget(ps, text, 0).value;
    var hs := Headings(ps);
    HeadingsSound(ps);
    HeadingsComplete(ps, idx);
    var k :| 0 <= k < |hs| && hs[k].paragraphIndex == idx;
    assert hs[k].level == HeadingLevel(ps[idx]).value;
  }
}
