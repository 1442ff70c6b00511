/**
 * The whitespace checker (`check_whitespace`) and the nearest-heading lookup
 * (`_find_parent_heading`) it labels its findings with.
 *
 * The pass walks the paragraphs once, left to right, carrying one boolean
 * (`prev_blank`). Headings produce nothing; a blank paragraph can only be
 * reported as the second of two consecutive blank paragraphs; any other
 * paragraph is searched for runs of two or more spaces, trailing whitespace
 * and leading whitespace, in that order.
 *
 * The specification side is `WhitespaceIssues`, which lists each paragraph's
 * findings (`ParagraphIssues`) in paragraph order with `prev_blank` in closed
 * form (`PrevBlank`); `CheckWhitespace` is proved to build exactly that list.
 */
module Checks {
  import opened Wrappers
  import opened Text
  import opened Paragraphs
  import DocxParser

  /** Display texts are cut to this many characters (plus an ellipsis). */
  const DisplayLength: nat := 80

  /** How many characters of context a double-space finding shows on each side of the run. */
  const ContextRadius: nat := 20

  // ── nearest heading ─────────────────────────────────────────────────

  /** The index of the last heading strictly before `idx`, if there is one. */
  function LastHeading(ps: seq<Paragraph>, idx: nat): (r: Option<nat>)
    requires idx <= |ps|
    ensures r.Some? ==> r.value < idx && IsHeading(ps[r.value])
  {
    if idx == 0 then None
    else if IsHeading(ps[idx - 1]) then Some(idx - 1)
    else LastHeading(ps, idx - 1)
  }

  /** No heading lies between the one `LastHeading` finds and `idx`; when it finds none, no heading lies before `idx` at all. */
  lemma {:induction false} LastHeadingSpec(ps: seq<Paragraph>, idx: nat)
    requires idx <= |ps|
    ensures LastHeading(ps, idx).Some? ==> forall j :: LastHeading(ps, idx).value < j < idx ==> !IsHeading(ps[j])
    ensures LastHeading(ps, idx).None? ==> forall j :: 0 <= j < idx ==> !IsHeading(ps[j])
  {
    if idx > 0 && !IsHeading(ps[idx - 1]) {
      LastHeadingSpec(ps, idx - 1);
    }
  }

  /** The section a paragraph belongs to: the stripped text of the nearest heading before it. */
  function SectionLabel(ps: seq<Paragraph>, idx: nat): (r: Option<string>)
    requires idx <= |ps|
    ensures r.Some? ==> exists k :: (0 <= k < idx && IsHeading(ps[k]) && r.value == Strip(ps[k].text)
      && forall j :: k < j < idx ==> !IsHeading(ps[j]))
    ensures r.None? <==> forall j :: 0 <= j < idx ==> !IsHeading(ps[j])
  {
    LastHeadingSpec(ps, idx);
    match LastHeading(ps, idx)
    case Some(k) => Some(Strip(ps[k].text))
    case None => None
  }

  /** Two positions with no heading between them are labelled with the same section. */
  lemma SameSectionLabel(ps: seq<Paragraph>, i: nat, j: nat)
    requires i <= j <= |ps|
    requires forall k :: i <= k < j ==> !IsHeading(ps[k])
    ensures SectionLabel(ps, i) == SectionLabel(ps, j)
  {
    SameLastHeading(ps, i, j);
  }

  lemma {:induction false} SameLastHeading(ps: seq<Paragraph>, i: nat, j: nat)
    requires i <= j <= |ps|
    requires forall k :: i <= k < j ==> !IsHeading(ps[k])
    ensures LastHeading(ps, i) == LastHeading(ps, j)
    decreases j
  {
    if i < j {
      SameLastHeading(ps, i, j - 1);
    }
  }

  /** `_find_parent_heading`: walk backwards from `idx - 1` and return the first heading's stripped text. */
  method FindParentHeading(ps: seq<Paragraph>, idx: nat) returns (section: Option<string>)
    requires idx <= |ps|
    ensures section == SectionLabel(ps, idx)
  {
    var i: int := idx - 1;
    while i >= 0
      invariant -1 <= i < idx
      invariant LastHeading(ps, i + 1) == LastHeading(ps, idx)
      decreases i
    {
      if IsHeading(ps[i]) {
        return Some(Strip(ps[i].text));
      }
      i := i - 1;
    }
    return None;
  }

  // ── runs of spaces (the pattern `"  +"`) ─────────────────────────────

  /** The index of the first character at or after `i` that is not a literal space, or `|s|`. */
  function SpaceRunEnd(s: string, i: nat): (j: nat)
    requires i <= |s|
    ensures i <= j <= |s|
    ensures forall k :: i <= k < j ==> s[k] == ' '
    ensures j == |s| || s[j] != ' '
    decreases |s| - i
  {
    if i < |s| && s[i] == ' ' then SpaceRunEnd(s, i + 1) else i
  }

  /** A match of the pattern: the half-open range `[start, end)` of the text. */
  datatype Match = Match(start: nat, end: nat)

  /** `m` is a maximal run of two or more literal spaces in `s`. */
  predicate IsDoubleSpaceRun(s: string, m: Match) {
    m.start + 2 <= m.end <= |s|
    && (forall k :: m.start <= k < m.end ==> s[k] == ' ')
    && (m.start == 0 || s[m.start - 1] != ' ')
    && (m.end == |s| || s[m.end] != ' ')
  }

  /** Position `i` is not strictly inside a run of spaces. */
  predicate OutsideRun(s: string, i: nat) {
    i == 0 || i >= |s| || s[i - 1] != ' ' || s[i] != ' '
  }

  /**
   * `finditer` from position `i`: at each position try two spaces, and on a
   * match extend it greedily over the rest of the run and resume after it;
   * otherwise move one character on.
   */
  function MatchesFrom(s: string, i: nat): (r: seq<Match>)
    requires i <= |s|
    ensures forall k :: 0 <= k < |r| ==> i <= r[k].start < r[k].end <= |s| && s[r[k].start] == ' '
    decreases |s| - i
  {
    if i + 1 < |s| && s[i] == ' ' && s[i + 1] == ' ' then
      var e := SpaceRunEnd(s, i);
      [Match(i, e)] + MatchesFrom(s, e)
    else if i < |s| then MatchesFrom(s, i + 1)
    else []
  }

  /** `_RE_DOUBLE_SPACE.finditer(s)`. */
  function DoubleSpaces(s: string): (r: seq<Match>)
    ensures forall k :: 0 <= k < |r| ==> IsDoubleSpaceRun(s, r[k])
  {
    MatchesFromSound(s, 0);
    assert forall k :: 0 <= k < |MatchesFrom(s, 0)| ==> MatchesFrom(s, 0)[k] in MatchesFrom(s, 0);
    MatchesFrom(s, 0)
  }

  /** Every match is a maximal run of two or more spaces. */
  lemma {:induction false} MatchesFromSound(s: string, i: nat)
    requires i <= |s| && OutsideRun(s, i)
    ensures forall m :: m in MatchesFrom(s, i) ==> i <= m.start && IsDoubleSpaceRun(s, m)
    decreases |s| - i
  {
    if i + 1 < |s| && s[i] == ' ' && s[i + 1] == ' ' {
      var e := SpaceRunEnd(s, i);
      MatchesFromSound(s, e);
      var rest := MatchesFrom(s, e);
      assert MatchesFrom(s, i) == [Match(i, e)] + rest;
      assert IsDoubleSpaceRun(s, Match(i, e));
      forall m | m in MatchesFrom(s, i)
        ensures i <= m.start && IsDoubleSpaceRun(s, m)
      {
        if m != Match(i, e) {
          assert m in rest;
        }
      }
    } else if i < |s| {
      MatchesFromSound(s, i + 1);
    }
  }

  /** The matches come in text order, and a non-space separates each one from the next. */
  lemma {:induction false} MatchesFromOrdered(s: string, i: nat)
    requires i <= |s|
    ensures forall j, k :: 0 <= j < k < |MatchesFrom(s, i)| ==> MatchesFrom(s, i)[j].end < MatchesFrom(s, i)[k].start
    decreases |s| - i
  {
    if i + 1 < |s| && s[i] == ' ' && s[i + 1] == ' ' {
      var e := SpaceRunEnd(s, i);
      MatchesFromOrdered(s, e);
      var rest := MatchesFrom(s, e);
      assert MatchesFrom(s, i) == [Match(i, e)] + rest;
      forall k | 0 <= k < |rest|
        ensures e < rest[k].start
      {
        assert s[rest[k].start] == ' ';
      }
    } else if i < |s| {
      MatchesFromOrdered(s, i + 1);
    }
  }

  /** Every maximal run of two or more spaces at or after `i` is matched. */
  lemma {:induction false} MatchesFromComplete(s: string, i: nat, m: Match)
    requires i <= |s| && i <= m.start && IsDoubleSpaceRun(s, m)
    ensures m in MatchesFrom(s, i)
    decreases |s| - i
  {
    if i + 1 < |s| && s[i] == ' ' && s[i + 1] == ' ' {
      var e := SpaceRunEnd(s, i);
      if m.start == i {
        assert m.end == e;
      } else {
        assert s[m.start - 1] != ' ';
        MatchesFromComplete(s, e, m);
      }
    } else {
      assert s[m.start] == ' ' && s[m.start + 1] == ' ';
      MatchesFromComplete(s, i + 1, m);
    }
  }

  /** The matches of `"  +"` are exactly the maximal runs of two or more spaces, in increasing order. */
  lemma DoubleSpacesExact(s: string)
    ensures forall m :: m in DoubleSpaces(s) <==> IsDoubleSpaceRun(s, m)
    ensures forall j, k :: 0 <= j < k < |DoubleSpaces(s)| ==> DoubleSpaces(s)[j].end < DoubleSpaces(s)[k].start
  {
    MatchesFromSound(s, 0);
    MatchesFromOrdered(s, 0);
    forall m | IsDoubleSpaceRun(s, m)
      ensures m in DoubleSpaces(s)
    {
      MatchesFromComplete(s, 0, m);
    }
  }

  /** A run of three spaces is one match, at its start. */
  lemma ThreeSpacesOneMatch()
    ensures DoubleSpaces("foo   bar") == [Match(3, 6)]
  {
    var s := "foo   bar";
    assert SpaceRunEnd(s, 3) == 6;
    assert MatchesFrom(s, 6) == [];
    assert MatchesFrom(s, 3) == [Match(3, 6)];
  }

  function Min(a: int, b: int): int {
    if a <= b then a else b
  }

  /** The context shown for a match: the run with up to `ContextRadius` characters on either side. */
  function Context(s: string, m: Match): (r: string)
    requires m.start <= m.end <= |s|
    ensures |r| == Min(m.start, ContextRadius) + (m.end - m.start) + Min(|s| - m.end, ContextRadius)
    ensures r[Min(m.start, ContextRadius)..Min(m.start, ContextRadius) + (m.end - m.start)] == s[m.start..m.end]
    ensures forall k :: 0 <= k < |r| ==> r[k] == s[m.start - Min(m.start, ContextRadius) + k]
  {
    var lo := if m.start >= ContextRadius then m.start - ContextRadius else 0;
    var hi := if m.end + ContextRadius <= |s| then m.end + ContextRadius else |s|;
    assert m.start - lo == Min(m.start, ContextRadius);
    SliceOfSlice(s, lo, hi, m.start, m.end);
    s[lo..hi]
  }

  /** Cutting `[i, j)` out of the window `[lo, hi)` gives `s[i..j]`. */
  lemma SliceOfSlice(s: string, lo: nat, hi: nat, i: nat, j: nat)
    requires lo <= i <= j <= hi <= |s|
    ensures s[lo..hi][i - lo..j - lo] == s[i..j]
  {
    var w := s[lo..hi];
    forall k | 0 <= k < j - i
      ensures w[i - lo..j - lo][k] == s[i..j][k]
    {
      assert w[i - lo + k] == s[i + k];
    }
  }

  // ── findings ────────────────────────────────────────────────────────

  datatype Finding =
    | ConsecutiveBlank
    | DoubleSpace(position: nat, context: string)
    | TrailingWhitespace(count: nat)
    | LeadingWhitespace(count: nat)

  /** The `type` field of an issue. */
  function TypeName(f: Finding): string {
    match f
    case ConsecutiveBlank => "consecutive_blank_paragraphs"
    case DoubleSpace(_, _) => "double_space"
    case TrailingWhitespace(_) => "trailing_whitespace"
    case LeadingWhitespace(_) => "leading_whitespace"
  }

  const DoubleSpacePrefix := "Multiple spaces at position "

  /** The `detail` field of an issue. */
  function Detail(f: Finding): string {
    match f
    case ConsecutiveBlank => "Multiple consecutive blank paragraphs"
    case DoubleSpace(pos, ctx) => DoubleSpacePrefix + (NatToString(pos) + QuotedContext(ctx))
    case TrailingWhitespace(n) => NatToString(n) + " trailing whitespace character(s)"
    case LeadingWhitespace(n) => NatToString(n) + " leading whitespace character(s)"
  }

  /** The `type` field names the kind of finding: two findings share it exactly when they are of the same kind. */
  lemma TypeNameIdentifiesKind(f: Finding, g: Finding)
    ensures TypeName(f) == TypeName(g) <==> Rank(f) == Rank(g)
  {
  }

  /** The `detail` field of a double-space finding after its fixed prefix: the position's numeral and the quoted context. */
  function QuotedContext(ctx: string): (r: string)
    ensures |r| == |ctx| + 6 && r[4..|r| - 2] == ctx
  {
    ": \"" + [Ellipsis] + ctx + [Ellipsis] + "\""
  }

  /** A count detail starts with a digit; the other details start with "Multiple " and differ at the word after it. */
  lemma DetailHead(f: Finding)
    ensures |Detail(f)| > 9
    ensures f.ConsecutiveBlank? ==> Detail(f)[0] == 'M' && Detail(f)[9] == 'c'
    ensures f.DoubleSpace? ==> Detail(f)[0] == 'M' && Detail(f)[9] == 's'
    ensures f.TrailingWhitespace? || f.LeadingWhitespace? ==> IsDigit(Detail(f)[0])
  {
    match f {
      case ConsecutiveBlank =>
      case DoubleSpace(p, c) =>
        assert Detail(f)[..|DoubleSpacePrefix|] == DoubleSpacePrefix;
      case TrailingWhitespace(n) =>
        assert Detail(f)[0] == NatToString(n)[0];
      case LeadingWhitespace(n) =>
        assert Detail(f)[0] == NatToString(n)[0];
    }
  }

  /** Two double-space details are equal only for the same position and context. */
  lemma DoubleSpaceDetailInjective(p: nat, c: string, q: nat, e: string)
    requires Detail(DoubleSpace(p, c)) == Detail(DoubleSpace(q, e))
    ensures p == q && c == e
  {
    var d := Detail(DoubleSpace(p, c));
    assert d[|DoubleSpacePrefix|..] == NatToString(p) + QuotedContext(c);
    assert d[|DoubleSpacePrefix|..] == NatToString(q) + QuotedContext(e);
    NumeralPrefix(p, QuotedContext(c), q, QuotedContext(e));
  }

  /** The `detail` text determines the finding: no two different findings share a detail. */
  lemma DetailIdentifiesFinding(f: Finding, g: Finding)
    requires Detail(f) == Detail(g)
    ensures f == g
  {
    var trailing, leading := " trailing whitespace character(s)", " leading whitespace character(s)";
    DetailHead(f);
    DetailHead(g);
    match f {
      case ConsecutiveBlank =>
      case DoubleSpace(p, c) =>
        if g.DoubleSpace? {
          DoubleSpaceDetailInjective(p, c, g.position, g.context);
        }
      case TrailingWhitespace(n) =>
        if g.TrailingWhitespace? {
          NumeralPrefix(n, trailing, g.count, trailing);
        } else if g.LeadingWhitespace? {
          NumeralPrefix(n, trailing, g.count, leading);
        }
      case LeadingWhitespace(n) =>
        if g.TrailingWhitespace? {
          NumeralPrefix(n, leading, g.count, trailing);
        } else if g.LeadingWhitespace? {
          NumeralPrefix(n, leading, g.count, leading);
        }
    }
  }

  /** The order in which one paragraph's findings are emitted. */
  function Rank(f: Finding): nat {
    match f
    case ConsecutiveBlank => 0
    case DoubleSpace(_, _) => 1
    case TrailingWhitespace(_) => 2
    case LeadingWhitespace(_) => 3
  }

  /** One reported issue; `text` is the display text of the paragraph. */
  datatype Issue = Issue(paragraphIndex: nat, section: Option<string>, text: string, finding: Finding)

  datatype WhitespaceReport = WhitespaceReport(filepath: string, issueCount: nat, issues: seq<Issue>)

  function DoubleSpaceIssue(idx: nat, section: Option<string>, text: string, m: Match): Issue
    requires m.start <= m.end <= |text|
  {
    Issue(idx, section, Truncate(text, DisplayLength), DoubleSpace(m.start, Context(text, m)))
  }

  /** One `double_space` issue per match, in match order. */
  function DoubleSpaceIssues(idx: nat, section: Option<string>, text: string): (r: seq<Issue>)
    ensures forall x :: x in r ==> x.paragraphIndex == idx && x.finding.DoubleSpace?
  {
    var ms := DoubleSpaces(text);
    seq(|ms|, k requires 0 <= k < |ms| => DoubleSpaceIssue(idx, section, text, ms[k]))
  }

  /** The `trailing_whitespace` issue, when right-stripping changes the text. */
  function TrailingIssues(idx: nat, section: Option<string>, text: string): (r: seq<Issue>)
    ensures |r| <= 1 && forall x :: x in r ==> x.paragraphIndex == idx && x.finding.TrailingWhitespace?
  {
    var kept := RStrip(text);
    if text != kept then [Issue(idx, section, Truncate(kept, DisplayLength), TrailingWhitespace(|text| - |kept|))]
    else []
  }

  /** The `leading_whitespace` issue, when left-stripping changes the text and the paragraph is not a list item. */
  function LeadingIssues(idx: nat, section: Option<string>, p: Paragraph): (r: seq<Issue>)
    ensures |r| <= 1 && forall x :: x in r ==> x.paragraphIndex == idx && x.finding.LeadingWhitespace?
  {
    var kept := LStrip(p.text);
    if p.text != kept && !IsListItem(p) then
      [Issue(idx, section, Truncate(Strip(p.text), DisplayLength), LeadingWhitespace(|p.text| - |kept|))]
    else []
  }

  /** The findings of a paragraph that is neither a heading nor blank. */
  function TextIssues(idx: nat, section: Option<string>, p: Paragraph): (r: seq<Issue>)
    ensures forall x :: x in r ==> x.paragraphIndex == idx && !x.finding.ConsecutiveBlank?
  {
    DoubleSpaceIssues(idx, section, p.text) + TrailingIssues(idx, section, p.text) + LeadingIssues(idx, section, p)
  }

  /**
   * Numbering exempts a paragraph from the leading-whitespace check and from nothing
   * else: without numbering the same text gets the list item's issues followed by the
   * leading-whitespace issue.
   */
  lemma ListItemSkipsOnlyLeading(idx: nat, section: Option<string>, p: Paragraph)
    ensures IsListItem(p.(hasNumPr := true)) && !IsListItem(p.(hasNumPr := false))
    ensures LeadingIssues(idx, section, p.(hasNumPr := true)) == []
    ensures TextIssues(idx, section, p.(hasNumPr := false))
      == TextIssues(idx, section, p.(hasNumPr := true)) + LeadingIssues(idx, section, p.(hasNumPr := false))
  {
  }

  /** The value `prev_blank` holds when the pass reaches paragraph `idx`: the paragraph just before is blank body text. */
  predicate PrevBlank(ps: seq<Paragraph>, idx: nat)
    requires idx <= |ps|
  {
    idx > 0 && !IsHeading(ps[idx - 1]) && IsBlank(ps[idx - 1].text)
  }

  /** The issues the pass emits for paragraph `idx`, given `prev_blank`. */
  function ParagraphIssues(ps: seq<Paragraph>, idx: nat, prevBlank: bool): (r: seq<Issue>)
    requires idx < |ps|
    ensures forall x :: x in r ==> x.paragraphIndex == idx
  {
    var p := ps[idx];
    if IsHeading(p) then []
    else
      var section := SectionLabel(ps, idx);
      if IsBlank(p.text) then
        if prevBlank then [Issue(idx, section, "", ConsecutiveBlank)] else []
      else TextIssues(idx, section, p)
  }

  /** Each paragraph's issues, with `prev_blank` in closed form. */
  function Chunks(ps: seq<Paragraph>): (c: seq<seq<Issue>>)
    ensures |c| == |ps|
  {
    seq(|ps|, k requires 0 <= k < |ps| => ParagraphIssues(ps, k, PrevBlank(ps, k)))
  }

  /** The chunks one after another. */
  function Flatten(chunks: seq<seq<Issue>>): seq<Issue> {
    if chunks == [] then [] else Flatten(chunks[..|chunks| - 1]) + chunks[|chunks| - 1]
  }

  /** The issues of the first `n` paragraphs, in paragraph order. */
  function IssuesUpTo(ps: seq<Paragraph>, n: nat): seq<Issue>
    requires n <= |ps|
  {
    Flatten(Chunks(ps)[..n])
  }

  /** Every issue of the document, in the order the pass emits them. */
  function WhitespaceIssues(ps: seq<Paragraph>): seq<Issue> {
    Flatten(Chunks(ps))
  }

  lemma FlattenSnoc(chunks: seq<seq<Issue>>, n: nat)
    requires n < |chunks|
    ensures Flatten(chunks[..n + 1]) == Flatten(chunks[..n]) + chunks[n]
  {
    assert chunks[..n + 1][..n] == chunks[..n];
  }

  // ── the pass ────────────────────────────────────────────────────────

  /** The inner `finditer` loop: one issue per match. */
  method ReportDoubleSpaces(idx: nat, section: Option<string>, text: string) returns (found: seq<Issue>)
    ensures found == DoubleSpaceIssues(idx, section, text)
  {
    var ms := DoubleSpaces(text);
    found := [];
    for k := 0 to |ms|
      invariant |found| == k
      invariant forall j :: 0 <= j < k ==> found[j] == DoubleSpaceIssue(idx, section, text, ms[j])
    {
      found := found + [DoubleSpaceIssue(idx, section, text, ms[k])];
    }
  }

  /** The double-space, trailing and leading checks on a paragraph that is neither a heading nor blank. */
  method ReportTextIssues(idx: nat, section: Option<string>, p: Paragraph) returns (found: seq<Issue>)
    ensures found == TextIssues(idx, section, p)
  {
    found := ReportDoubleSpaces(idx, section, p.text);
    var trimmed := RStrip(p.text);
    if p.text != trimmed {
      found := found + [Issue(idx, section, Truncate(trimmed, DisplayLength), TrailingWhitespace(|p.text| - |trimmed|))];
    }
    assert found == DoubleSpaceIssues(idx, section, p.text) + TrailingIssues(idx, section, p.text);
    var stripped := LStrip(p.text);
    if p.text != stripped && !IsListItem(p) {
      found := found + [Issue(idx, section, Truncate(Strip(p.text), DisplayLength), LeadingWhitespace(|p.text| - |stripped|))];
    }
  }

  /** `check_whitespace`: the error for a missing file, otherwise every issue and their count. */
  method CheckWhitespace(path: string, fileExists: bool, ps: seq<Paragraph>) returns (r: Result<WhitespaceReport>)
    ensures !fileExists ==> r == Err(DocxParser.FileNotFound(path))
    ensures fileExists ==> r == Ok(WhitespaceReport(path, |WhitespaceIssues(ps)|, WhitespaceIssues(ps)))
  {
    if !fileExists {
      return Err(DocxParser.FileNotFound(path));
    }
    var issues: seq<Issue> := [];
    var prevBlank := false;
    for idx := 0 to |ps|
      invariant issues == IssuesUpTo(ps, idx)
      invariant prevBlank == PrevBlank(ps, idx)
    {
      FlattenSnoc(Chunks(ps), idx);
      var p := ps[idx];
      if IsHeading(p) {
        prevBlank := false;
        continue;
      }
      var section := FindParentHeading(ps, idx);
      var isBlank := IsBlank(p.text);
      if isBlank && prevBlank {
        issues := issues + [Issue(idx, section, "", ConsecutiveBlank)];
      }
      prevBlank := isBlank;
      if isBlank {
        continue;
      }
      var found := ReportTextIssues(idx, section, p);
      issues := issues + found;
    }
    assert Chunks(ps)[..|ps|] == Chunks(ps);
    return Ok(WhitespaceReport(path, |issues|, issues));
  }

  // ── what the report says ────────────────────────────────────────────

  /** The issues of `r` about paragraph `idx`, in report order. */
  function IssuesAt(r: seq<Issue>, idx: nat): seq<Issue> {
    if r == [] then []
    else (if r[0].paragraphIndex == idx then [r[0]] else []) + IssuesAt(r[1..], idx)
  }

  lemma {:induction false} IssuesAtMembers(r: seq<Issue>, idx: nat)
    ensures forall x :: x in IssuesAt(r, idx) <==> x in r && x.paragraphIndex == idx
  {
    if r != [] {
      IssuesAtMembers(r[1..], idx);
      assert r == [r[0]] + r[1..];
    }
  }

  lemma {:induction false} IssuesAtConcat(a: seq<Issue>, b: seq<Issue>, idx: nat)
    ensures IssuesAt(a + b, idx) == IssuesAt(a, idx) + IssuesAt(b, idx)
  {
    if a != [] {
      assert (a + b)[1..] == a[1..] + b;
      IssuesAtConcat(a[1..], b, idx);
    } else {
      assert a + b == b;
    }
  }

  lemma {:induction false} IssuesAtOwn(xs: seq<Issue>, k: nat, idx: nat)
    requires forall x :: x in xs ==> x.paragraphIndex == k
    ensures IssuesAt(xs, idx) == if k == idx then xs else []
  {
    if xs != [] {
      assert xs[0] in xs;
      assert forall x :: x in xs[1..] ==> x in xs;
      IssuesAtOwn(xs[1..], k, idx);
      assert xs == [xs[0]] + xs[1..];
    }
  }

  /** Chunk `k` holds issues about paragraph `k` only. */
  predicate Indexed(chunks: seq<seq<Issue>>) {
    forall k, x :: 0 <= k < |chunks| && x in chunks[k] ==> x.paragraphIndex == k
  }

  lemma IndexedPrefix(chunks: seq<seq<Issue>>, n: nat)
    requires Indexed(chunks) && n <= |chunks|
    ensures Indexed(chunks[..n])
  {
    forall k, x: Issue | 0 <= k < n && x in chunks[..n][k]
      ensures x.paragraphIndex == k
    {
      assert chunks[..n][k] == chunks[k];
    }
  }

  /** Picking one paragraph's issues out of the flattened list gives back its chunk. */
  lemma {:induction false} FlattenAt(chunks: seq<seq<Issue>>, idx: nat)
    requires Indexed(chunks)
    ensures IssuesAt(Flatten(chunks), idx) == if idx < |chunks| then chunks[idx] else []
    decreases |chunks|
  {
    if chunks != [] {
      var n := |chunks| - 1;
      var init := chunks[..n];
      IndexedPrefix(chunks, n);
      FlattenAt(init, idx);
      assert Flatten(chunks) == Flatten(init) + chunks[n];
      IssuesAtConcat(Flatten(init), chunks[n], idx);
      assert forall x :: x in chunks[n] ==> x.paragraphIndex == n;
      IssuesAtOwn(chunks[n], n, idx);
    }
  }

  /** An issue of the flattened list comes from the chunk of its own paragraph. */
  lemma {:induction false} FlattenOrigin(chunks: seq<seq<Issue>>, x: Issue)
    requires Indexed(chunks) && x in Flatten(chunks)
    ensures x.paragraphIndex < |chunks| && x in chunks[x.paragraphIndex]
    decreases |chunks|
  {
    var n := |chunks| - 1;
    var init := chunks[..n];
    if x !in chunks[n] {
      IndexedPrefix(chunks, n);
      FlattenOrigin(init, x);
      assert init[x.paragraphIndex] == chunks[x.paragraphIndex];
    }
  }

  lemma ChunksIndexed(ps: seq<Paragraph>)
    ensures Indexed(Chunks(ps))
  {
    forall k, x | 0 <= k < |ps| && x in Chunks(ps)[k]
      ensures x.paragraphIndex == k
    {
      assert x in ParagraphIssues(ps, k, PrevBlank(ps, k));
    }
  }

  /** The issues reported about paragraph `idx` are exactly what the pass emits for it, given the closed form of `prev_blank`. */
  lemma ParagraphReport(ps: seq<Paragraph>, idx: nat)
    requires idx < |ps|
    ensures IssuesAt(WhitespaceIssues(ps), idx) == ParagraphIssues(ps, idx, PrevBlank(ps, idx))
  {
    ChunksIndexed(ps);
    FlattenAt(Chunks(ps), idx);
  }

  /** Every reported issue is about one of the document's paragraphs and is one the pass emits for it. */
  lemma IssueOrigin(ps: seq<Paragraph>, x: Issue)
    requires x in WhitespaceIssues(ps)
    ensures x.paragraphIndex < |ps|
    ensures x in ParagraphIssues(ps, x.paragraphIndex, PrevBlank(ps, x.paragraphIndex))
  {
    ChunksIndexed(ps);
    FlattenOrigin(Chunks(ps), x);
  }

  /** Headings are never reported. */
  lemma HeadingsHaveNoIssues(ps: seq<Paragraph>, idx: nat)
    requires idx < |ps| && IsHeading(ps[idx])
    ensures IssuesAt(WhitespaceIssues(ps), idx) == []
  {
    ParagraphReport(ps, idx);
  }

  /**
   * A blank paragraph is reported once, as a consecutive blank paragraph, exactly
   * when the paragraph before it is blank body text; it gets no other finding.
   */
  lemma BlankParagraphReport(ps: seq<Paragraph>, idx: nat)
    requires idx < |ps| && !IsHeading(ps[idx]) && AllSpace(ps[idx].text)
    ensures IssuesAt(WhitespaceIssues(ps), idx)
            == if idx > 0 && !IsHeading(ps[idx - 1]) && AllSpace(ps[idx - 1].text)
               then [Issue(idx, SectionLabel(ps, idx), "", ConsecutiveBlank)]
               else []
  {
    ParagraphReport(ps, idx);
    BlankIffAllSpace(ps[idx].text);
    if idx > 0 {
      BlankIffAllSpace(ps[idx - 1].text);
    }
  }

  /** A consecutive-blank finding is reported for a paragraph if and only if it and the paragraph before it are both blank body text. */
  lemma ConsecutiveBlankIff(ps: seq<Paragraph>, idx: nat)
    requires idx < |ps|
    ensures (exists x :: x in IssuesAt(WhitespaceIssues(ps), idx) && x.finding.ConsecutiveBlank?)
            <==> !IsHeading(ps[idx]) && AllSpace(ps[idx].text)
                 && idx > 0 && !IsHeading(ps[idx - 1]) && AllSpace(ps[idx - 1].text)
  {
    ParagraphReport(ps, idx);
    BlankIffAllSpace(ps[idx].text);
    if idx > 0 {
      BlankIffAllSpace(ps[idx - 1].text);
    }
    if !IsHeading(ps[idx]) && AllSpace(ps[idx].text) && PrevBlank(ps, idx) {
      assert Issue(idx, SectionLabel(ps, idx), "", ConsecutiveBlank) in IssuesAt(WhitespaceIssues(ps), idx);
    }
  }

  /** A paragraph with visible text is reported for its double spaces, then its trailing whitespace, then its leading whitespace. */
  lemma TextParagraphReport(ps: seq<Paragraph>, idx: nat)
    requires idx < |ps| && !IsHeading(ps[idx]) && !AllSpace(ps[idx].text)
    ensures IssuesAt(WhitespaceIssues(ps), idx)
            == DoubleSpaceIssues(idx, SectionLabel(ps, idx), ps[idx].text)
               + TrailingIssues(idx, SectionLabel(ps, idx), ps[idx].text)
               + LeadingIssues(idx, SectionLabel(ps, idx), ps[idx])
  {
    ParagraphReport(ps, idx);
    BlankIffAllSpace(ps[idx].text);
  }

  /**
   * The trailing-whitespace finding: present exactly when the text ends in
   * whitespace; it counts the whole trailing whitespace run and shows the text
   * without it.
   */
  lemma TrailingFinding(idx: nat, section: Option<string>, text: string)
    ensures TrailingIssues(idx, section, text) != [] <==> text != [] && IsSpace(text[|text| - 1])
    ensures forall x :: x in TrailingIssues(idx, section, text) ==>
      x.finding.TrailingWhitespace?
      && 0 < x.finding.count <= |text|
      && (forall k :: |text| - x.finding.count <= k < |text| ==> IsSpace(text[k]))
      && (x.finding.count == |text| || !IsSpace(text[|text| - x.finding.count - 1]))
      && x.text == Truncate(text[..|text| - x.finding.count], DisplayLength)
  {
    var kept := RStrip(text);
    RStripSpace(text);
    var c := |text| - |kept|;
    assert kept == text[..|text| - c];
    if text != kept {
      assert TrailingIssues(idx, section, text) == [Issue(idx, section, Truncate(kept, DisplayLength), TrailingWhitespace(c))];
      assert 0 < c;
    } else {
      assert TrailingIssues(idx, section, text) == [];
      if text != [] {
        assert kept[|kept| - 1] == text[|text| - 1];
      }
    }
  }

  /**
   * The leading-whitespace finding: present exactly when the text starts with
   * whitespace and the paragraph is not a list item; it counts the whole leading
   * whitespace run and shows the rest of the text without its trailing whitespace.
   */
  lemma LeadingFinding(idx: nat, section: Option<string>, p: Paragraph)
    ensures LeadingIssues(idx, section, p) != [] <==> p.text != [] && IsSpace(p.text[0]) && !p.hasNumPr
    ensures forall x :: x in LeadingIssues(idx, section, p) ==>
      x.finding.LeadingWhitespace?
      && 0 < x.finding.count <= |p.text|
      && (forall k :: 0 <= k < x.finding.count ==> IsSpace(p.text[k]))
      && (x.finding.count == |p.text| || !IsSpace(p.text[x.finding.count]))
      && x.text == Truncate(RStrip(p.text[x.finding.count..]), DisplayLength)
  {
    var s := p.text;
    var kept := LStrip(s);
    LStripSpace(s);
    var c := |s| - |kept|;
    assert kept == s[c..];
    if s != kept && !p.hasNumPr {
      assert LeadingIssues(idx, section, p) == [Issue(idx, section, Truncate(Strip(s), DisplayLength), LeadingWhitespace(c))];
      assert 0 < c;
      assert Strip(s) == RStrip(s[c..]);
    } else {
      assert LeadingIssues(idx, section, p) == [];
    }
  }

  /** The double-space findings of a text are one per maximal run of two or more spaces, each at the run's start with its context. */
  lemma DoubleSpaceFindings(idx: nat, section: Option<string>, text: string)
    ensures forall m :: IsDoubleSpaceRun(text, m) ==>
      Issue(idx, section, Truncate(text, DisplayLength), DoubleSpace(m.start, Context(text, m))) in DoubleSpaceIssues(idx, section, text)
    ensures forall x :: x in DoubleSpaceIssues(idx, section, text) ==>
      exists m :: IsDoubleSpaceRun(text, m) && x.finding == DoubleSpace(m.start, Context(text, m))
  {
    DoubleSpaceFindingsComplete(idx, section, text);
    DoubleSpaceFindingsSound(idx, section, text);
  }

  lemma DoubleSpaceFindingsComplete(idx: nat, section: Option<string>, text: string)
    ensures forall m :: IsDoubleSpaceRun(text, m) ==>
      Issue(idx, section, Truncate(text, DisplayLength), DoubleSpace(m.start, Context(text, m))) in DoubleSpaceIssues(idx, section, text)
  {
    DoubleSpacesExact(text);
    var ms := DoubleSpaces(text);
    var d := DoubleSpaceIssues(idx, section, text);
    forall m | IsDoubleSpaceRun(text, m)
      ensures DoubleSpaceIssue(idx, section, text, m) in d
    {
      var k :| 0 <= k < |ms| && ms[k] == m;
      assert d[k] == DoubleSpaceIssue(idx, section, text, m);
    }
  }

  lemma DoubleSpaceFindingsSound(idx: nat, section: Option<string>, text: string)
    ensures forall x :: x in DoubleSpaceIssues(idx, section, text) ==>
      exists m :: IsDoubleSpaceRun(text, m) && x.finding == DoubleSpace(m.start, Context(text, m))
  {
    var ms := DoubleSpaces(text);
    var d := DoubleSpaceIssues(idx, section, text);
    forall x | x in d
      ensures exists m :: IsDoubleSpaceRun(text, m) && x.finding == DoubleSpace(m.start, Context(text, m))
    {
      var k :| 0 <= k < |d| && d[k] == x;
      assert IsDoubleSpaceRun(text, ms[k]);
    }
  }

  /**
   * Every maximal run of two or more spaces in a paragraph with visible text is
   * reported, at the run's start, with the run and up to 20 characters either
   * side as context.
   */
  lemma DoubleSpaceReported(ps: seq<Paragraph>, idx: nat, m: Match)
    requires idx < |ps| && !IsHeading(ps[idx]) && !AllSpace(ps[idx].text)
    requires IsDoubleSpaceRun(ps[idx].text, m)
    ensures Issue(idx, SectionLabel(ps, idx), Truncate(ps[idx].text, DisplayLength), DoubleSpace(m.start, Context(ps[idx].text, m)))
            in WhitespaceIssues(ps)
  {
    DoubleSpaceFindings(idx, SectionLabel(ps, idx), ps[idx].text);
    TextParagraphReport(ps, idx);
    IssuesAtMembers(WhitespaceIssues(ps), idx);
  }

  /** Conversely, every reported double-space finding names the start of a maximal run of two or more spaces in its paragraph. */
  lemma DoubleSpaceSound(ps: seq<Paragraph>, x: Issue)
    requires x in WhitespaceIssues(ps) && x.finding.DoubleSpace?
    ensures x.paragraphIndex < |ps|
    ensures exists m :: IsDoubleSpaceRun(ps[x.paragraphIndex].text, m) && x.finding == DoubleSpace(m.start, Context(ps[x.paragraphIndex].text, m))
  {
    var idx := x.paragraphIndex;
    IssueOrigin(ps, x);
    var p := ps[idx];
    var section := SectionLabel(ps, idx);
    assert x in TextIssues(idx, section, p);
    assert x in DoubleSpaceIssues(idx, section, p.text);
    DoubleSpaceFindings(idx, section, p.text);
  }

  // ── order ───────────────────────────────────────────────────────────

  /**
   * `x` is emitted before `y`: an earlier paragraph, or the same paragraph and
   * an earlier kind of finding, or two double spaces with the earlier position.
   */
  predicate Before(x: Issue, y: Issue) {
    x.paragraphIndex < y.paragraphIndex
    || (x.paragraphIndex == y.paragraphIndex
        && (Rank(x.finding) < Rank(y.finding)
            || (x.finding.DoubleSpace? && y.finding.DoubleSpace? && x.finding.position < y.finding.position)))
  }

  predicate Ordered(r: seq<Issue>) {
    forall i, j :: 0 <= i < j < |r| ==> Before(r[i], r[j])
  }

  lemma OrderedConcat(a: seq<Issue>, b: seq<Issue>)
    requires Ordered(a) && Ordered(b)
    requires forall x, y :: x in a && y in b ==> Before(x, y)
    ensures Ordered(a + b)
  {
    forall i, j | 0 <= i < j < |a + b|
      ensures Before((a + b)[i], (a + b)[j])
    {
      if j < |a| {
      } else if i >= |a| {
        assert (a + b)[i] == b[i - |a|] && (a + b)[j] == b[j - |a|];
      } else {
        assert (a + b)[i] in a && (a + b)[j] in b;
      }
    }
  }

  lemma {:induction false} FlattenOrdered(chunks: seq<seq<Issue>>)
    requires Indexed(chunks)
    requires forall k :: 0 <= k < |chunks| ==> Ordered(chunks[k])
    ensures Ordered(Flatten(chunks))
    decreases |chunks|
  {
    if chunks != [] {
      var n := |chunks| - 1;
      var init := chunks[..n];
      IndexedPrefix(chunks, n);
      FlattenOrdered(init);
      forall x, y | x in Flatten(init) && y in chunks[n]
        ensures Before(x, y)
      {
        FlattenOrigin(init, x);
      }
      OrderedConcat(Flatten(init), chunks[n]);
    }
  }

  /** Double-space findings come by increasing position. */
  lemma DoubleSpaceIssuesOrdered(idx: nat, section: Option<string>, text: string)
    ensures Ordered(DoubleSpaceIssues(idx, section, text))
  {
    var d := DoubleSpaceIssues(idx, section, text);
    var ms := DoubleSpaces(text);
    DoubleSpacesExact(text);
    forall i, j | 0 <= i < j < |d|
      ensures Before(d[i], d[j])
    {
      assert d[i].finding.position == ms[i].start < ms[i].end < ms[j].start == d[j].finding.position;
    }
  }

  /** Double spaces in order, then at most one trailing and at most one leading finding, all about one paragraph, are in order. */
  lemma OrderedByKind(idx: nat, d: seq<Issue>, t: seq<Issue>, l: seq<Issue>)
    requires Ordered(d) && |t| <= 1 && |l| <= 1
    requires forall x :: x in d ==> x.paragraphIndex == idx && x.finding.DoubleSpace?
    requires forall x :: x in t ==> x.paragraphIndex == idx && x.finding.TrailingWhitespace?
    requires forall x :: x in l ==> x.paragraphIndex == idx && x.finding.LeadingWhitespace?
    ensures Ordered(d + t + l)
  {
    OrderedConcat(d, t);
    assert forall x :: x in d + t ==> x in d || x in t;
    OrderedConcat(d + t, l);
  }

  /** The findings of a text paragraph: double spaces by position, then trailing, then leading whitespace. */
  lemma TextIssuesOrdered(idx: nat, section: Option<string>, p: Paragraph)
    ensures Ordered(TextIssues(idx, section, p))
  {
    var d := DoubleSpaceIssues(idx, section, p.text);
    var t := TrailingIssues(idx, section, p.text);
    var l := LeadingIssues(idx, section, p);
    DoubleSpaceIssuesOrdered(idx, section, p.text);
    OrderedByKind(idx, d, t, l);
  }

  /** The report lists issues by paragraph and, within a paragraph, double spaces by position, then trailing, then leading whitespace. */
  lemma ReportOrdered(ps: seq<Paragraph>)
    ensures Ordered(WhitespaceIssues(ps))
  {
    ChunksIndexed(ps);
    forall k | 0 <= k < |ps|
      ensures Ordered(Chunks(ps)[k])
    {
      if !IsHeading(ps[k]) && !IsBlank(ps[k].text) {
        TextIssuesOrdered(k, SectionLabel(ps, k), ps[k]);
      }
    }
    FlattenOrdered(Chunks(ps));
  }
}
