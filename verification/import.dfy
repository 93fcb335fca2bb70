/** `import_novel_from_file` without its storage side: from decoded file
    text to the chapters, blueprint and project title that get stored. */
module Import {
  import opened Wrappers
  import opened Text
  import opened Json
  import opened Segmenter
  import opened Blueprints
  import opened Analysis

  /** Title of the single chapter used when no chapter is found. */
  const WholeTextTitle: string := "第一章 全文"
  const InitialPromptPrefix: string := "导入自文件: "

  /** Lines 40-43: the segmented chapters, or the whole text as one chapter
      when segmentation finds none. */
  function DetectChapters(content: string): (chapters: seq<Chapter>)
    ensures |chapters| >= 1
    ensures chapters == [Chapter(WholeTextTitle, content)] <==> Segment(content) == []
    ensures Segment(content) != [] ==> chapters == Segment(content)
  {
    var found := Segment(content);
    if found == [] then [Chapter(WholeTextTitle, content)]
    else
      assert found[0] in found;
      SegmentBodiesAreShorter(content);
      assert found[0] != Chapter(WholeTextTitle, content);
      found
  }

  /** Every detected chapter title is a single line. */
  lemma DetectedTitlesAreSingleLines(content: string)
    ensures forall c :: c in DetectChapters(content) ==> '\n' !in c.title
  {
    if Segment(content) == [] {
      assert forall i :: 0 <= i < |WholeTextTitle| ==> WholeTextTitle[i] != '\n';
    } else {
      SegmentTitlesAreSingleLines(content);
    }
  }

  /** The chapter titles in order. */
  function Titles(chapters: seq<Chapter>): (titles: seq<string>)
    ensures |titles| == |chapters|
    ensures forall i :: 0 <= i < |chapters| ==> titles[i] == chapters[i].title
  {
    seq(|chapters|, i requires 0 <= i < |chapters| => chapters[i].title)
  }

  /** Index of the last `.` in `s`, or -1. */
  function LastDot(s: string): (i: int)
    ensures -1 <= i < |s|
    ensures i >= 0 ==> s[i] == '.'
    ensures forall j :: i < j < |s| ==> s[j] != '.'
  {
    if |s| == 0 then -1
    else if s[|s| - 1] == '.' then |s| - 1
    else LastDot(s[..|s| - 1])
  }

  /** `filename.rsplit('.', 1)[0]`: everything before the last dot, or the
      whole name when it has no dot. */
  function BaseName(filename: string): (r: string)
    ensures r <= filename
    ensures '.' !in filename ==> r == filename
    ensures '.' in filename ==>
              |r| < |filename| && filename[|r|] == '.' && '.' !in filename[|r| + 1..]
  {
    var i := LastDot(filename);
    if i < 0 then filename else filename[..i]
  }

  /** Line 57: the blueprint's title, or the file's base name when that
      title is empty. */
  function ProjectTitle(blueprintTitle: string, filename: string): (t: string)
    ensures blueprintTitle != "" ==> t == blueprintTitle
    ensures blueprintTitle == "" ==> t == BaseName(filename)
  {
    if blueprintTitle != "" then blueprintTitle else BaseName(filename)
  }

  datatype ImportError = UnsupportedEncoding | EmptyContent

  /** What the import stores: the project's title and initial prompt, its
      blueprint, and its chapters (chapter `i + 1` holds `chapters[i]`). */
  datatype Imported = Imported(
    projectTitle: string,
    initialPrompt: string,
    blueprint: Blueprint,
    chapters: seq<Chapter>)

  /** The outline is empty, or has one entry per chapter numbered from 1
      and titled after it. */
  predicate AlignedOutline(outline: seq<OutlineEntry>, chapters: seq<Chapter>) {
    || outline == []
    || (&& |outline| == |chapters|
        && forall i :: 0 <= i < |outline| ==>
             outline[i].chapterNumber == i + 1 && outline[i].title == chapters[i].title)
  }

  /** `import_novel_from_file` up to storage. `decoded` is the file text, or
      `None` when it is neither UTF-8 nor GBK; `stored` is the stored prompt
      template; `respond` and `validate` are as in `AnalyzeContent`. */
  function ImportNovel(
    decoded: Option<string>, filename: string, stored: Option<string>,
    respond: (string, string) -> Option<Json>,
    validate: seq<Field> -> Option<Blueprint>): (r: Result<Imported, ImportError>)
    ensures decoded.None? ==> r == Failure(UnsupportedEncoding)
    ensures decoded == Some("") ==> r == Failure(EmptyContent)
    ensures decoded.Some? && decoded.value != "" ==>
              && r.Success?
              && r.value.chapters == DetectChapters(decoded.value)
              && AlignedOutline(r.value.blueprint.chapterOutline, r.value.chapters)
              && r.value.initialPrompt == InitialPromptPrefix + filename
              && r.value.projectTitle == ProjectTitle(r.value.blueprint.title, filename)
              && var a := AnalyzeContent(stored, SampleText(r.value.chapters), Titles(r.value.chapters),
                                         respond, validate);
                 r.value.blueprint == a.(chapterOutline := Reconcile(r.value.chapters, a.chapterOutline))
  {
    match decoded
    case None => Failure(UnsupportedEncoding)
    case Some(content) =>
      if content == "" then Failure(EmptyContent)
      else
        var chapters := DetectChapters(content);
        var sample := SampleText(chapters);
        var analysed := AnalyzeContent(stored, sample, Titles(chapters), respond, validate);
        var blueprint := analysed.(chapterOutline := Reconcile(chapters, analysed.chapterOutline));
        Success(Imported(
          ProjectTitle(blueprint.title, filename),
          InitialPromptPrefix + filename,
          blueprint,
          chapters))
  }

  /** When the model call fails, the project keeps the stub's placeholder
      title and summary, and its outline stays empty: no placeholder entries
      are made for the chapters. */
  lemma FailedAnalysisImport(
    content: string, filename: string, stored: Option<string>,
    respond: (string, string) -> Option<Json>,
    validate: seq<Field> -> Option<Blueprint>)
    requires content != ""
    requires respond(SystemPrompt(stored, Titles(DetectChapters(content))),
                     UserMessage(SampleText(DetectChapters(content)))).None?
    ensures var r := ImportNovel(Some(content), filename, stored, respond, validate);
            && r.Success?
            && r.value.projectTitle == StubTitle
            && r.value.blueprint == Stub
            && r.value.blueprint.chapterOutline == []
  {
  }

  /** The directory in the system prompt lists the first fifty detected
      chapter titles, in order, one per line. */
  lemma PromptListsDetectedTitles(content: string)
    ensures SplitLines(Directory(Titles(DetectChapters(content))))
            == Take(Titles(DetectChapters(content)), DirectoryLimit)
  {
    var chapters := DetectChapters(content);
    DetectedTitlesAreSingleLines(content);
    var titles := Titles(chapters);
    forall t | t in titles
      ensures '\n' !in t
    {
      var i :| 0 <= i < |titles| && titles[i] == t;
      assert chapters[i] in chapters;
    }
    DirectoryListsFirstTitles(titles);
  }

  /** Text that is only whitespace gets past the emptiness check and is
      imported as one chapter holding the raw text. */
  lemma BlankTextIsOneChapter(content: string)
    requires content != "" && AllSpace(content)
    ensures DetectChapters(content) == [Chapter(WholeTextTitle, content)]
  {
    BlankTextHasNoChapters(content);
  }
}
