# Document-structure engine and whitespace checker, in Dafny

This project models two Python modules of a lawyer's drafting assistant. Both read a Word
document as an ordered list of paragraphs.

- `mcp_server/docx_parser.py` classifies paragraphs as headings. It builds the heading
  tree, cuts the document into sections, and serves three read operations:
  - `load_document_structure`;
  - `get_section_content`;
  - `get_all_sections_summary`.
- `mcp_server/checks.py` (whitespace part) does one left-to-right pass over the paragraphs.
  It reports:
  - runs of two or more spaces;
  - trailing whitespace;
  - leading whitespace (skipped for list items);
  - consecutive blank paragraphs.

  Each finding is labelled with the nearest preceding heading.

A paragraph is the record `Paragraph(text, styleName, outlineLvl, hasNumPr)`.
`outlineLvl` is the `w:outlineLvl` value, if any. `hasNumPr` says whether the paragraph
carries numbering properties, i.e. is a list item. Whether the file exists is a boolean
input. The MD5 digest is a function parameter.

Modules:

- `Wrappers` — `Option` and `Result`.
- `Text` — the Python `str` operations the code relies on:
  - `strip`, `lstrip` and `rstrip`, over the characters `str.isspace` accepts;
  - `split()`;
  - `startswith`;
  - `isdigit` and `int`;
  - `str(n)`;
  - truncation with an ellipsis;
  - `"\n".join`.
- `Paragraphs` — the paragraph record and `_detect_heading_level`.
- `HeadingTree` — `_build_heading_tree`, in two forms:
  - the stack loop, computing each heading's parent;
  - a recursive forest built from subtree spans.

  The two are proved to build the same tree.
- `DocxParser` — `_section_paragraphs` and the three public operations.
- `Checks` — `_find_parent_heading`, the `"  +"` pattern, and `check_whitespace`.

Where the code and its comments disagree, the model follows the code:

- A heading's level is whatever number its style or outline level gives. The docstring
  promises 0–9, but "Heading 12" gives 12 and outline level 9 gives 10.
- `get_section_content` labels its sub-heading list "direct sub-headings". The loop adds
  every heading inside the section, at any depth. `SubsectionsListNestedHeadings` states
  what the code does.

## Model

| member | source | states |
|---|---|---|
| Paragraphs.HeadingLevel | mcp_server/docx_parser.py:24-50 | A paragraph is body text exactly when its style is neither "Title" nor "Heading N" and it has no all-digit outline level. Level 0 comes only from "Title" or "Heading 0". |
| Paragraphs.TitleIsLevelZero | mcp_server/docx_parser.py:34-35 | The "Title" style gives level 0, whatever the outline level says. |
| Paragraphs.HeadingStyleLevel | mcp_server/docx_parser.py:36-39 | For every n, the style "Heading n" gives level n, whatever the outline level says. |
| Paragraphs.StyleTakesPrecedence | mcp_server/docx_parser.py:33-48 | When a style rule applies, the outline level cannot change the result. |
| Paragraphs.OutlineLevelShift | mcp_server/docx_parser.py:42-48 | Without a style rule, outline level v gives level v + 1, so an outline level never gives level 0. |
| Paragraphs.HeadingStyleNumberOf | mcp_server/docx_parser.py:36-39 | "Heading" + " " + a digit string names the value of those digits. |
| Text.LStripSpace | mcp_server/checks.py:100-102 | `lstrip` keeps a suffix. What it drops is whitespace, and what it keeps does not start with whitespace. |
| Text.RStripSpace | mcp_server/checks.py:90-91 | `rstrip` keeps a prefix. What it drops is whitespace, and what it keeps does not end with whitespace. |
| Text.BlankIffAllSpace | mcp_server/checks.py:60 | `text.strip() == ""` holds exactly when every character is whitespace. |
| Text.StripIdempotent | mcp_server/docx_parser.py:123 | Stripping a stripped text changes nothing. |
| Text.Truncate | mcp_server/docx_parser.py:211-213 | Text of at most n characters is kept as is. Longer text keeps its first n characters and gains one ellipsis. |
| Text.NatToString | mcp_server/checks.py:86 | `str(n)` is a non-empty digit string, with no leading zero unless n is 0. |
| Text.DecimalRoundTrip | mcp_server/docx_parser.py:38-39 | `int(str(n)) == n`. |
| Text.WordsAreWords | mcp_server/docx_parser.py:37 | `split()` yields non-empty words without whitespace. |
| Text.WordsOfTwo | mcp_server/docx_parser.py:37-38 | A word, one space and a word split into exactly those two words. |
| HeadingTree.SubtreeEnd | mcp_server/docx_parser.py:71-73 | Finds where a heading's subtree ends: every heading before that point is deeper, and the heading at it is not. |
| HeadingTree.PreorderOfRange | mcp_server/docx_parser.py:63-80 | The pre-order of the forest built from a range of headings is that range. |
| HeadingTree.PreorderOfForest | mcp_server/docx_parser.py:53-82 | Every heading appears in the tree exactly once, in document order. |
| HeadingTree.RootsDeeperThan | mcp_server/docx_parser.py:71-78 | Headings all deeper than a bound build trees whose roots are deeper than it. |
| HeadingTree.RangeChildrenDeeper | mcp_server/docx_parser.py:71-76 | In the forest of any range, each child is strictly deeper than its parent. |
| HeadingTree.ForestChildrenDeeper | mcp_server/docx_parser.py:71-76 | Each child is strictly deeper than its parent throughout the tree. |
| HeadingTree.LevelGapKept | mcp_server/docx_parser.py:71-78 | A level-3 heading right after a level-1 heading becomes its child. Level gaps are not normalised. |
| HeadingTree.NearestShallowerSpec | mcp_server/docx_parser.py:72-73 | The heading found is shallower than heading k, and no later one before the search bound is. |
| HeadingTree.ParentSpec | mcp_server/docx_parser.py:71-78 | A heading's parent is an earlier, strictly shallower heading with nothing shallower between them. -1 means no earlier heading is shallower. |
| HeadingTree.ParentsCharacterized | mcp_server/docx_parser.py:71-78 | A heading is a root exactly when no earlier heading is shallower. Otherwise it hangs under the nearest shallower one. |
| HeadingTree.ForestSegment | mcp_server/docx_parser.py:63-80 | The subtree forest of a segment under one parent equals the nodes attached to that parent through the parent indices. |
| HeadingTree.ForestAgreement | mcp_server/docx_parser.py:53-82 | Attaching each node to its parent index builds the recursive forest. |
| HeadingTree.PoppedStack | mcp_server/docx_parser.py:72-73 | After popping every entry at least as deep as heading i, the stack top is i's parent, and the stack still holds exactly the open headings. |
| HeadingTree.PushedStack | mcp_server/docx_parser.py:80 | Pushing heading i keeps the stack ordered and equal to the open headings of the next step. |
| HeadingTree.PopDeeper | mcp_server/docx_parser.py:72-73 | The pop loop stops with i's parent on top, or with an empty stack when i has no parent. |
| HeadingTree.StackParents | mcp_server/docx_parser.py:60-80 | The stack loop attaches every heading to the parent `Parents` specifies. |
| HeadingTree.BuildHeadingTree | mcp_server/docx_parser.py:53-82 | The tree the loop builds puts each heading under its nearest shallower predecessor. It equals the recursive forest, lists every heading once in document order, and its children are deeper than their parents. |
| DocxParser.Headings | mcp_server/docx_parser.py:118-124 | There are at most as many headings as paragraphs, and each names a paragraph of the document. |
| DocxParser.HeadingsSound | mcp_server/docx_parser.py:118-124 | Each listed heading has its paragraph's level and stripped text, and the list follows document order. |
| DocxParser.HeadingsComplete | mcp_server/docx_parser.py:118-124 | Every heading paragraph is listed. |
| DocxParser.CollectHeadings | mcp_server/docx_parser.py:118-124 | The collecting loop builds exactly the heading list. |
| DocxParser.HeadingTextsStripped | mcp_server/docx_parser.py:123 | Listed heading texts are already stripped. |
| DocxParser.SectionEnd | mcp_server/docx_parser.py:91-94 | The section boundary lies between its start and the end of the document. |
| DocxParser.SectionEndSpec | mcp_server/docx_parser.py:91-94 | No paragraph before the boundary closes the section. The boundary is the end of the document or a heading at the same level or shallower. |
| DocxParser.SectionParagraphs | mcp_server/docx_parser.py:85-96 | The loop returns exactly the section's span. |
| DocxParser.SectionSpanShape | mcp_server/docx_parser.py:85-96 | The span is the run of paragraphs after the heading, up to and excluding the first heading at the same level or shallower, or up to the end. |
| DocxParser.LoadDocumentStructure | mcp_server/docx_parser.py:102-132 | A missing file gives the file-not-found error. Otherwise: the paragraph count, the heading list with its count, and the tree built from it, which lists every heading once in order with children deeper. |
| DocxParser.FirstTarget | mcp_server/docx_parser.py:153-158 | A found index is a heading whose stripped text is the one sought. |
| DocxParser.FirstTargetSpec | mcp_server/docx_parser.py:153-158 | The index found is the first such heading. None means there is no such heading. |
| DocxParser.FindTarget | mcp_server/docx_parser.py:150-161 | The search loop finds the first matching heading. |
| DocxParser.Subsections | mcp_server/docx_parser.py:168-172 | The loop lists the stripped texts of the span's headings, in order. |
| DocxParser.GetSectionContent | mcp_server/docx_parser.py:135-180 | A missing file gives the file-not-found error. Otherwise the result is the section of the first matching heading. |
| DocxParser.SectionContentFound | mcp_server/docx_parser.py:150-180 | The heading-not-found error occurs exactly when no heading matches. Otherwise the level and paragraph count are those of the first matching heading's section. |
| DocxParser.HeadingTextsOfSpan | mcp_server/docx_parser.py:168-172 | The heading texts of a span are the stripped texts of its heading paragraphs, and only those. |
| DocxParser.SubsectionsListNestedHeadings | mcp_server/docx_parser.py:167-172 | Every heading inside the section, at any depth, is listed, and nothing else is. |
| DocxParser.SummarizeSection | mcp_server/docx_parser.py:207-225 | One loop step builds the summary entry of a heading. |
| DocxParser.GetAllSectionsSummary | mcp_server/docx_parser.py:183-227 | A missing file gives the file-not-found error. Otherwise the result has one summary per heading, in order. |
| DocxParser.PreviewOfSection | mcp_server/docx_parser.py:209-213 | The preview is the section text when that has at most 200 characters. Otherwise it is the first 200 characters and an ellipsis. |
| DocxParser.ContentMatchesSummary | mcp_server/docx_parser.py:163-178 | For the heading found by text, the summary entry has the same level and paragraph count, and the hash of the same content. |
| Checks.LastHeading | mcp_server/checks.py:19-25 | A found index is a heading before the given position. |
| Checks.LastHeadingSpec | mcp_server/checks.py:19-25 | No heading lies between the one found and the position. When none is found, no heading lies before the position. |
| Checks.SameSectionLabel | mcp_server/checks.py:19-25 | Two positions with no heading between them get the same section label. |
| Checks.SameLastHeading | mcp_server/checks.py:19-25 | The backward walk from two positions with no heading between them stops at the same heading. |
| Checks.FindParentHeading | mcp_server/checks.py:19-25 | The backward loop returns the stripped text of the nearest preceding heading, or None. |
| Checks.SectionLabel | mcp_server/checks.py:19-25 | The `section` of an issue is the stripped text of a heading before the paragraph, with no heading between them. It is None exactly when no heading precedes the paragraph. |
| Checks.SpaceRunEnd | mcp_server/checks.py:16 | The greedy `+` stops at the first character that is not a space. |
| Checks.MatchesFrom | mcp_server/checks.py:16 | Every match lies inside the text, after the start position, is non-empty and starts on a space. |
| Checks.MatchesFromSound | mcp_server/checks.py:16 | Each match is a maximal run of two or more spaces. |
| Checks.MatchesFromOrdered | mcp_server/checks.py:16 | Matches come in text order and do not touch. |
| Checks.MatchesFromComplete | mcp_server/checks.py:16 | Each maximal run of two or more spaces is matched. |
| Checks.DoubleSpacesExact | mcp_server/checks.py:16 | The matches of `"  +"` are exactly the maximal runs of two or more spaces, in increasing order. |
| Checks.ThreeSpacesOneMatch | mcp_server/checks.py:16 | "foo   bar" has one match, starting at offset 3. |
| Checks.DoubleSpaces | mcp_server/checks.py:77 | Every match `finditer` yields is a maximal run of two or more spaces. |
| Checks.Context | mcp_server/checks.py:78-80 | The context window holds the run, with up to 20 characters on either side, clipped at the ends of the text. |
| Checks.QuotedContext | mcp_server/checks.py:86 | The detail after the position quotes the context between ellipses, and the context can be read back out of it. |
| Checks.DoubleSpaceIssues | mcp_server/checks.py:77-87 | Double-space issues are about their own paragraph. |
| Checks.TrailingIssues | mcp_server/checks.py:90-98 | At most one trailing-whitespace issue per paragraph. |
| Checks.LeadingIssues | mcp_server/checks.py:100-109 | At most one leading-whitespace issue per paragraph. |
| Checks.TextIssues | mcp_server/checks.py:76-109 | A paragraph with visible text never gets a consecutive-blank finding. |
| Checks.ParagraphIssues | mcp_server/checks.py:50-109 | Every issue a paragraph produces carries that paragraph's index. |
| Checks.ReportDoubleSpaces | mcp_server/checks.py:77-87 | The `finditer` loop emits one issue per match, in match order. |
| Checks.ReportTextIssues | mcp_server/checks.py:76-109 | For a non-blank paragraph: double spaces, then trailing, then leading whitespace. |
| Checks.CheckWhitespace | mcp_server/checks.py:28-115 | A missing file gives the file-not-found error and no issues. Otherwise the result is the document's issue list, its length as `issue_count`, with `prev_blank` tracking whether the previous paragraph is blank body text. |
| Checks.FlattenAt | mcp_server/checks.py:50-115 | Picking one paragraph's issues out of the report gives back exactly what the pass emitted for it. |
| Checks.FlattenOrigin | mcp_server/checks.py:50-115 | Every issue in the report comes from its own paragraph's step. |
| Checks.ParagraphReport | mcp_server/checks.py:50-115 | The issues about paragraph i in the report are exactly those one step of the pass emits for it. |
| Checks.IssueOrigin | mcp_server/checks.py:50-115 | Every reported issue names a paragraph of the document and is one its step emits. |
| Checks.HeadingsHaveNoIssues | mcp_server/checks.py:54-57 | Headings are never reported. |
| Checks.BlankParagraphReport | mcp_server/checks.py:60-74 | A blank body paragraph gets exactly one issue, a consecutive-blank one, when the paragraph before it is blank body text, and none otherwise. |
| Checks.ConsecutiveBlankIff | mcp_server/checks.py:54-74 | A consecutive-blank issue is reported for paragraph i if and only if i and the paragraph before it are both blank body text. A heading in between resets it. |
| Checks.TextParagraphReport | mcp_server/checks.py:76-109 | A paragraph with visible text is reported for its double spaces, then its trailing whitespace, then its leading whitespace. |
| Checks.TrailingFinding | mcp_server/checks.py:90-98 | The trailing-whitespace finding is present exactly when the text ends in whitespace. It counts the whole trailing run and shows the text without it, truncated to 80 characters. |
| Checks.LeadingFinding | mcp_server/checks.py:100-109 | The leading-whitespace finding is present exactly when the text starts with whitespace and the paragraph is not a list item. It counts the whole leading run and shows the stripped text, truncated to 80 characters. |
| Checks.ListItemSkipsOnlyLeading | mcp_server/checks.py:118-126 | `_is_list_item` is true exactly for paragraphs with numbering. Numbering removes the leading-whitespace issue and nothing else: without it the same text gets the list item's issues followed by the leading-whitespace issue. |
| Checks.TypeNameIdentifiesKind | mcp_server/checks.py:64-108 | The `type` strings tell the four kinds of finding apart: two findings share a `type` exactly when they are of the same kind. |
| Checks.DetailIdentifiesFinding | mcp_server/checks.py:64-108 | The `detail` string determines the finding: the kind, the count of a whitespace run, and the position and context of a double space can all be recovered from it. |
| Checks.DoubleSpaceFindings | mcp_server/checks.py:77-87 | A text's double-space findings correspond one-to-one to its maximal runs of two or more spaces, each at the run's start with its context. |
| Checks.DoubleSpaceReported | mcp_server/checks.py:77-87 | Every maximal run of two or more spaces in a paragraph with visible text is reported. |
| Checks.DoubleSpaceSound | mcp_server/checks.py:77-87 | Every reported double-space finding is at the start of such a run in its paragraph. |
| Checks.FlattenOrdered | mcp_server/checks.py:50-115 | Joining per-paragraph lists, each in order, keeps the report in order. |
| Checks.DoubleSpaceIssuesOrdered | mcp_server/checks.py:77 | Double-space findings come by increasing position. |
| Checks.OrderedByKind | mcp_server/checks.py:76-109 | Within one paragraph: double spaces in order, then trailing, then leading whitespace. |
| Checks.TextIssuesOrdered | mcp_server/checks.py:76-109 | A text paragraph's findings are emitted in that order. |
| Checks.ReportOrdered | mcp_server/checks.py:50-115 | The report runs by paragraph. Within a paragraph, double spaces come by position, then trailing, then leading whitespace, with no duplicates. |

## Left out

- File access is not modelled. The file-exists test is a boolean input, and the paragraph
  list stands for what `Document(filepath).paragraphs` reads.
- XML lookups are not modelled. The `w:outlineLvl` value and the presence of `w:numPr` are
  fields of the paragraph record.
- The MD5 digest is not modelled. It is a function parameter applied to the section
  content.
- `IsDigits` and `DecimalValue` model `isdigit` and `int` on the ASCII digits `0`-`9` only.
  - Python's `isdigit` also accepts other Unicode decimal digits, which `int` converts.
  - Python's `isdigit` also accepts digit characters that are not decimal digits, such as
    `'²'` or `'①'`, and `int` raises `ValueError` on them.
  - So a style such as `"Heading ²"` (mcp_server/docx_parser.py:38-39) or an outline value
    `"²"` (mcp_server/docx_parser.py:47-48) makes `_detect_heading_level` raise.
  - The exception propagates out of every entry point that classifies paragraphs.
  - The model does not capture that exception path. `HeadingLevel` treats such a style as
    not a heading style and falls through to the outline level; it treats such an outline
    value as no outline level and returns `None`.
- Whitespace is the fixed set of code points `str.isspace` accepts. Nothing depends on
  Unicode tables beyond that set.
- The tree does not model in-place aliasing. The Python loop appends each node to the
  children list of a dictionary that is still on the stack. The model records each
  heading's parent index, and builds the nodes from those indices.
- Not modelled, because they are not core:
  - the enumeration and reference checkers;
  - the report generator;
  - the MCP server wiring.
- The returned dictionaries are not modelled. They become datatypes with one field per
  key. An issue's `type` and `detail` strings are rendered from a `Finding` by
  `TypeName` and `Detail`.
