/** Cutting a manuscript into chapters at heading lines
    (`ImportService._split_into_chapters`).

    The source splits with a multi-line regular expression whose `.*` stops
    at a line break and whose leading `^\s*` only swallows whitespace that
    `strip()` removes afterwards, so the cut is modelled line by line: a
    line is a heading when, after its leading whitespace, it starts with
    `第` + numerals + a unit character, or with `Chapter` + whitespace + digits. */
module Segmenter {
  import opened Text

  datatype Chapter = Chapter(title: string, body: string)

  /** Title of the chapter made from the text before the first heading. */
  const PrologueTitle: string := "序章"

  /** `[0-9零一二三四五六七八九十百千]` */
  predicate IsNumeral(c: char) {
    || ('0' <= c <= '9')
    || c == '零' || c == '一' || c == '二' || c == '三' || c == '四' || c == '五'
    || c == '六' || c == '七' || c == '八' || c == '九' || c == '十' || c == '百'
    || c == '千'
  }

  /** `[章卷回节]`: chapter, volume, episode, section. */
  predicate IsUnit(c: char) {
    c == '章' || c == '卷' || c == '回' || c == '节'
  }

  /** `[0-9]` */
  predicate IsDigit(c: char) {
    '0' <= c <= '9'
  }

  /** `第[0-9零…千]+[章卷回节].*` at the start of `t`. */
  predicate IsChineseMarker(t: string) {
    && |t| > 0 && t[0] == '第'
    && var k := RunLength(t[1..], IsNumeral);
       k >= 1 && 1 + k < |t| && IsUnit(t[1 + k])
  }

  /** `Chapter\s+[0-9]+.*` at the start of `t`, within one line. */
  predicate IsChapterMarker(t: string) {
    && |t| >= 7 && t[..7] == "Chapter"
    && var w := RunLength(t[7..], IsSpace);
       w >= 1 && 7 + w < |t| && IsDigit(t[7 + w])
  }

  /** `^\s*` followed by one of the two markers. */
  predicate IsHeading(line: string) {
    var t := line[RunLength(line, IsSpace)..];
    IsChineseMarker(t) || IsChapterMarker(t)
  }

  /** The Chinese marker read as the regular expression reads it: some
      positive number of numerals, then a unit character. */
  ghost predicate ChinesePatternAt(t: string, k: int) {
    && 1 <= k && 1 + k < |t| && t[0] == '第'
    && (forall j :: 1 <= j <= k ==> IsNumeral(t[j]))
    && IsUnit(t[1 + k])
  }

  /** The `Chapter` marker read as the regular expression reads it: some
      positive number of whitespace characters, then a digit. */
  ghost predicate ChapterPatternAt(t: string, w: int) {
    && 1 <= w && 7 + w < |t| && t[..7] == "Chapter"
    && (forall j :: 7 <= j < 7 + w ==> IsSpace(t[j]))
    && IsDigit(t[7 + w])
  }

  lemma ChineseMarkerIsPattern(t: string)
    ensures IsChineseMarker(t) <==> exists k :: ChinesePatternAt(t, k)
  {
    if IsChineseMarker(t) {
      var k := RunLength(t[1..], IsNumeral);
      forall j | 1 <= j <= k ensures IsNumeral(t[j]) {
        assert t[j] == t[1..][j - 1];
      }
      assert ChinesePatternAt(t, k);
    }
    if k :| ChinesePatternAt(t, k) {
      var s := t[1..];
      forall j | 0 <= j < k ensures IsNumeral(s[j]) {
        assert s[j] == t[j + 1];
      }
      assert s[k] == t[1 + k];
      assert !IsNumeral(s[k]);
      assert RunLength(s, IsNumeral) == k;
    }
  }

  lemma ChapterMarkerIsPattern(t: string)
    ensures IsChapterMarker(t) <==> exists w :: ChapterPatternAt(t, w)
  {
    if IsChapterMarker(t) {
      var w := RunLength(t[7..], IsSpace);
      forall j | 7 <= j < 7 + w ensures IsSpace(t[j]) {
        assert t[j] == t[7..][j - 7];
      }
      assert ChapterPatternAt(t, w);
    }
    if w :| ChapterPatternAt(t, w) {
      var s := t[7..];
      forall j | 0 <= j < w ensures IsSpace(s[j]) {
        assert s[j] == t[j + 7];
      }
      assert s[w] == t[7 + w];
      assert !IsSpace(s[w]);
      assert RunLength(s, IsSpace) == w;
    }
  }

  /** A heading line always holds a non-whitespace character. */
  lemma HeadingIsNotBlank(line: string)
    requires IsHeading(line)
    ensures !AllSpace(line)
  {
    var k := RunLength(line, IsSpace);
    assert line[k..][0] == line[k];
  }

  /** Number of lines that are headings. */
  function HeadingCount(lines: seq<string>, isHeading: string -> bool): nat {
    if |lines| == 0 then 0
    else (if isHeading(lines[0]) then 1 else 0) + HeadingCount(lines[1..], isHeading)
  }

  /** A heading line together with the lines up to the next heading. */
  datatype Section = Section(heading: string, body: seq<string>)

  /** The lines before the first heading, then one section per heading. */
  datatype Grouping = Grouping(prologue: seq<string>, sections: seq<Section>)

  function Flatten(sections: seq<Section>): seq<string> {
    if |sections| == 0 then []
    else [sections[0].heading] + sections[0].body + Flatten(sections[1..])
  }

  /** Cuts `lines` before every line `isHeading` accepts, one section per
      heading. The cut is generic in the heading test; the segmenter uses
      `IsHeading`. */
  function Group(lines: seq<string>, isHeading: string -> bool): (g: Grouping)
    ensures |g.sections| == HeadingCount(lines, isHeading)
  {
    if |lines| == 0 then Grouping([], [])
    else
      var g := Group(lines[1..], isHeading);
      if isHeading(lines[0]) then
        Grouping([], [Section(lines[0], g.prologue)] + g.sections)
      else
        Grouping([lines[0]] + g.prologue, g.sections)
  }

  /** Headings appear only as section headings: not in the prologue, not
      inside a section's text. */
  lemma {:induction false} GroupCutsAtHeadings(lines: seq<string>, isHeading: string -> bool)
    ensures forall l :: l in Group(lines, isHeading).prologue ==> !isHeading(l)
    ensures forall s :: s in Group(lines, isHeading).sections ==> isHeading(s.heading)
    ensures forall s :: s in Group(lines, isHeading).sections ==>
              forall l :: l in s.body ==> !isHeading(l)
  {
    if |lines| > 0 {
      GroupCutsAtHeadings(lines[1..], isHeading);
    }
  }

  /** The cut loses nothing: the prologue and the sections, laid end to
      end, are the lines again. */
  lemma {:induction false} GroupLosesNothing(lines: seq<string>, isHeading: string -> bool)
    ensures Group(lines, isHeading).prologue + Flatten(Group(lines, isHeading).sections) == lines
  {
    if |lines| > 0 {
      var g := Group(lines[1..], isHeading);
      GroupLosesNothing(lines[1..], isHeading);
      assert lines == [lines[0]] + lines[1..];
      if isHeading(lines[0]) {
        var s := Section(lines[0], g.prologue);
        assert ([s] + g.sections)[1..] == g.sections;
        assert Flatten([s] + g.sections) == [lines[0]] + g.prologue + Flatten(g.sections);
      }
    }
  }

  /** Section headings are lines, so they hold no line break either. */
  lemma {:induction false} GroupHeadingsAreSingleLines(lines: seq<string>, isHeading: string -> bool)
    requires forall l :: l in lines ==> '\n' !in l
    ensures forall s :: s in Group(lines, isHeading).sections ==> '\n' !in s.heading
  {
    if |lines| > 0 {
      assert lines[0] in lines;
      assert forall l :: l in lines[1..] ==> l in lines;
      GroupHeadingsAreSingleLines(lines[1..], isHeading);
    }
  }

  /** The chapter a section yields: none when its text is blank. */
  function SectionChapter(s: Section): seq<Chapter> {
    var body := Strip(Join(s.body, "\n"));
    if body == [] then [] else [Chapter(Strip(s.heading), body)]
  }

  function SectionChapters(sections: seq<Section>): (chapters: seq<Chapter>)
    ensures |chapters| <= |sections|
    ensures forall c :: c in chapters ==> c.body != [] && IsStripped(c.body)
  {
    if |sections| == 0 then []
    else SectionChapter(sections[0]) + SectionChapters(sections[1..])
  }

  /** The leading chapter made from the text before the first heading, if
      that text is not blank. */
  function Prologue(lines: seq<string>): seq<Chapter> {
    var body := Strip(Join(lines, "\n"));
    if body == [] then [] else [Chapter(PrologueTitle, body)]
  }

  /** `_split_into_chapters(content)` */
  function Segment(content: string): (chapters: seq<Chapter>)
    ensures |chapters| <= HeadingCount(SplitLines(content), IsHeading) + 1
    ensures forall c :: c in chapters ==> c.body != [] && IsStripped(c.body)
  {
    Assemble(Group(SplitLines(content), IsHeading))
  }

  /** The chapters of a grouping: the prologue, then the sections in order. */
  function Assemble(g: Grouping): seq<Chapter> {
    Prologue(g.prologue) + SectionChapters(g.sections)
  }

  /** Segmenting text given as break-free lines groups those very lines. */
  lemma SegmentLines(lines: seq<string>)
    requires |lines| >= 1
    requires forall l :: l in lines ==> '\n' !in l
    ensures Segment(Join(lines, "\n")) == Assemble(Group(lines, IsHeading))
  {
    SplitLinesJoin(lines);
  }

  /** No chapter title spans more than one line. */
  lemma SegmentTitlesAreSingleLines(content: string)
    ensures forall c :: c in Segment(content) ==> '\n' !in c.title
  {
    var lines := SplitLines(content);
    var g := Group(lines, IsHeading);
    var p := Prologue(g.prologue);
    var cs := SectionChapters(g.sections);
    GroupHeadingsAreSingleLines(lines, IsHeading);
    SectionTitlesAreSingleLines(g.sections);
    assert Segment(content) == p + cs;
    forall c: Chapter | c in p + cs ensures '\n' !in c.title {
      if c in p {
        assert c.title == PrologueTitle;
      } else {
        assert c in cs;
      }
    }
  }

  lemma {:induction false} SectionTitlesAreSingleLines(sections: seq<Section>)
    requires forall s :: s in sections ==> '\n' !in s.heading
    ensures forall c :: c in SectionChapters(sections) ==> '\n' !in c.title
  {
    if |sections| > 0 {
      assert sections[0] in sections;
      StripKeepsChars(sections[0].heading);
      assert forall s :: s in sections[1..] ==> s in sections;
      SectionTitlesAreSingleLines(sections[1..]);
    }
  }

  lemma {:induction false} NoHeadingMeansNoSection(lines: seq<string>, isHeading: string -> bool)
    requires forall l :: l in lines ==> !isHeading(l)
    ensures HeadingCount(lines, isHeading) == 0
  {
    if |lines| > 0 {
      assert lines[0] in lines;
      assert forall l :: l in lines[1..] ==> l in lines;
      NoHeadingMeansNoSection(lines[1..], isHeading);
    }
  }

  /** Without any heading line the whole text is the prologue: one chapter
      holding the stripped text, or none when the text is blank. */
  lemma SegmentWithoutHeadings(content: string)
    requires HeadingCount(SplitLines(content), IsHeading) == 0
    ensures AllSpace(content) ==> Segment(content) == []
    ensures !AllSpace(content) ==> Segment(content) == [Chapter(PrologueTitle, Strip(content))]
  {
    var lines := SplitLines(content);
    var g := Group(lines, IsHeading);
    GroupLosesNothing(lines, IsHeading);
    assert g.sections == [];
    assert g.prologue == lines;
    JoinSplitLines(content);
  }

  /** Text with no heading line and something besides whitespace becomes
      exactly one chapter titled as the prologue. */
  lemma UnmarkedTextIsPrologue(content: string)
    requires forall l :: l in SplitLines(content) ==> !IsHeading(l)
    requires !AllSpace(content)
    ensures Segment(content) == [Chapter(PrologueTitle, Strip(content))]
  {
    NoHeadingMeansNoSection(SplitLines(content), IsHeading);
    SegmentWithoutHeadings(content);
  }

  /** Whitespace-only text has no heading, hence no chapter. */
  lemma BlankTextHasNoChapters(content: string)
    requires AllSpace(content)
    ensures Segment(content) == []
  {
    var lines := SplitLines(content);
    SplitLinesBlank(content);
    forall l | l in lines ensures !IsHeading(l) {
      if IsHeading(l) {
        HeadingIsNotBlank(l);
      }
    }
    NoHeadingMeansNoSection(lines, IsHeading);
    SegmentWithoutHeadings(content);
  }

  /** Sections yield their chapters independently and in order. */
  lemma {:induction false} SectionChaptersAppend(a: seq<Section>, b: seq<Section>)
    ensures SectionChapters(a + b) == SectionChapters(a) + SectionChapters(b)
  {
    if |a| > 0 {
      assert (a + b)[0] == a[0];
      assert (a + b)[1..] == a[1..] + b;
      SectionChaptersAppend(a[1..], b);
    } else {
      assert a + b == b;
    }
  }

  /** Every section whose text is not blank yields the chapter
      (stripped heading, stripped text). */
  lemma {:induction false} SectionChaptersComplete(sections: seq<Section>, k: nat)
    requires k < |sections|
    requires Strip(Join(sections[k].body, "\n")) != []
    ensures Chapter(Strip(sections[k].heading), Strip(Join(sections[k].body, "\n")))
            in SectionChapters(sections)
  {
    var rest := SectionChapters(sections[1..]);
    assert SectionChapters(sections) == SectionChapter(sections[0]) + rest;
    if k > 0 {
      assert sections[1..][k - 1] == sections[k];
      SectionChaptersComplete(sections[1..], k - 1);
    }
  }

  /** Every chapter the sections yield is (stripped heading, stripped text)
      of one of them. */
  lemma {:induction false} SectionChaptersSound(sections: seq<Section>)
    ensures forall c :: c in SectionChapters(sections) ==>
              exists k :: 0 <= k < |sections| && c == Chapter(Strip(sections[k].heading), Strip(Join(sections[k].body, "\n")))
  {
    if |sections| > 0 {
      SectionChaptersSound(sections[1..]);
      forall c | c in SectionChapters(sections)
        ensures exists k :: 0 <= k < |sections| && c == Chapter(Strip(sections[k].heading), Strip(Join(sections[k].body, "\n")))
      {
        if c in SectionChapter(sections[0]) {
          assert c == Chapter(Strip(sections[0].heading), Strip(Join(sections[0].body, "\n")));
        } else {
          assert c in SectionChapters(sections[1..]);
          var j :| 0 <= j < |sections[1..]| && c == Chapter(Strip(sections[1..][j].heading), Strip(Join(sections[1..][j].body, "\n")));
          assert sections[1..][j] == sections[j + 1];
        }
      }
    }
  }

  /** A chapter cut after a heading is shorter than the text it was cut from. */
  lemma {:induction false} SectionBodiesAreShorter(lines: seq<string>, isHeading: string -> bool)
    ensures forall c :: c in SectionChapters(Group(lines, isHeading).sections) ==>
              |c.body| < |Join(lines, "\n")|
  {
    if |lines| > 0 {
      var rest := lines[1..];
      var g := Group(rest, isHeading);
      SectionBodiesAreShorter(rest, isHeading);
      assert |Join(rest, "\n")| < |Join(lines, "\n")| || rest == [] by {
        if rest != [] {
          assert Join(lines, "\n") == lines[0] + "\n" + Join(rest, "\n");
        }
      }
      if isHeading(lines[0]) {
        var s := Section(lines[0], g.prologue);
        assert Group(lines, isHeading).sections == [s] + g.sections;
        SectionChaptersAppend([s], g.sections);
        assert ([s])[1..] == [];
        assert SectionChapters([s]) == SectionChapter(s);
        GroupLosesNothing(rest, isHeading);
        JoinPrefixLength(g.prologue, Flatten(g.sections), "\n");
      }
    }
  }

  /** The prologue is the only chapter whose text may be the whole input. */
  lemma SegmentBodiesAreShorter(content: string)
    ensures forall c :: c in Segment(content) ==> c.title == PrologueTitle || |c.body| < |content|
  {
    var lines := SplitLines(content);
    var g := Group(lines, IsHeading);
    var p := Prologue(g.prologue);
    var cs := SectionChapters(g.sections);
    SectionBodiesAreShorter(lines, IsHeading);
    JoinSplitLines(content);
    assert Segment(content) == p + cs;
    forall c: Chapter | c in p + cs ensures c.title == PrologueTitle || |c.body| < |content| {
      if c !in p {
        assert c in cs;
      }
    }
  }

  /** Index of the first heading line, or the number of lines if none is. */
  function FirstHeading(lines: seq<string>, isHeading: string -> bool): (i: nat)
    ensures i <= |lines|
    ensures forall j :: 0 <= j < i ==> !isHeading(lines[j])
    ensures i < |lines| ==> isHeading(lines[i])
  {
    if |lines| == 0 || isHeading(lines[0]) then 0
    else 1 + FirstHeading(lines[1..], isHeading)
  }

  /** The prologue is exactly the lines before the first heading. */
  lemma {:induction false} PrologueIsTextBeforeFirstHeading(lines: seq<string>, isHeading: string -> bool)
    ensures Group(lines, isHeading).prologue == lines[..FirstHeading(lines, isHeading)]
  {
    if |lines| > 0 && !isHeading(lines[0]) {
      PrologueIsTextBeforeFirstHeading(lines[1..], isHeading);
      var i := FirstHeading(lines[1..], isHeading);
      assert lines[..1 + i] == [lines[0]] + lines[1..][..i];
    }
  }

  /** A stripped heading starts with `第` or `C`, so it is never the
      prologue's title. */
  lemma HeadingTitleIsNotPrologue(heading: string)
    requires IsHeading(heading)
    ensures Strip(heading) != PrologueTitle
  {
    var k := RunLength(heading, IsSpace);
    var t := heading[k..];
    assert t[0] == '第' || t[0] == 'C' by {
      if IsChapterMarker(t) {
        assert t[0] == t[..7][0];
      }
    }
    assert Strip(heading)[0] == heading[k];
  }

  lemma {:induction false} SectionTitlesAreNotPrologue(sections: seq<Section>)
    requires forall s :: s in sections ==> IsHeading(s.heading)
    ensures forall c :: c in SectionChapters(sections) ==> c.title != PrologueTitle
  {
    if |sections| > 0 {
      assert sections[0] in sections;
      HeadingTitleIsNotPrologue(sections[0].heading);
      assert forall s :: s in sections[1..] ==> s in sections;
      SectionTitlesAreNotPrologue(sections[1..]);
    }
  }

  /** The text before the first heading becomes the leading prologue
      chapter when it is not blank, and no chapter is a prologue otherwise. */
  lemma SegmentPrologue(content: string)
    ensures var lines := SplitLines(content);
            var before := Strip(Join(lines[..FirstHeading(lines, IsHeading)], "\n"));
            && (before != [] ==> |Segment(content)| > 0 && Segment(content)[0] == Chapter(PrologueTitle, before))
            && (forall i :: 0 <= i < |Segment(content)| && Segment(content)[i].title == PrologueTitle ==>
                  i == 0 && before != [])
  {
    var lines := SplitLines(content);
    var g := Group(lines, IsHeading);
    var p := Prologue(g.prologue);
    var cs := SectionChapters(g.sections);
    PrologueIsTextBeforeFirstHeading(lines, IsHeading);
    GroupCutsAtHeadings(lines, IsHeading);
    SectionTitlesAreNotPrologue(g.sections);
    var all: seq<Chapter> := p + cs;
    assert Segment(content) == all;
    forall i | |p| <= i < |all|
      ensures all[i].title != PrologueTitle
    {
      assert all[i] == cs[i - |p|];
      assert cs[i - |p|] in cs;
    }
  }
}
