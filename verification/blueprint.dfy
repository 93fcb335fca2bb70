/** The analysis record of an imported novel and the alignment of its
    chapter outline with the chapters actually found in the file. */
module Blueprints {
  import opened Json
  import opened Segmenter

  /** One entry of the chapter outline, addressed by its 1-based number. */
  datatype OutlineEntry = OutlineEntry(chapterNumber: int, title: string, summary: string)

  /** The fields of a blueprint the import service never reads: synopsis,
      world setting, characters and relationships. `SchemaDefaults` is what
      the schema fills in when they are not given; `Validated` holds the
      validated values, kept as the JSON they came from. */
  datatype Details = SchemaDefaults | Validated(fields: seq<Field>)

  datatype Blueprint = Blueprint(
    title: string,
    oneSentenceSummary: string,
    chapterOutline: seq<OutlineEntry>,
    details: Details)

  const StubTitle := "导入的项目"
  const StubSummary := "AI分析失败，请手动补充"

  /** The blueprint used when analysis fails: placeholder title and summary,
      no outline. */
  const Stub := Blueprint(StubTitle, StubSummary, [], SchemaDefaults)

  /** `j` is the last outline entry numbered `n`. */
  ghost predicate LastNumbered(outline: seq<OutlineEntry>, n: int, j: int) {
    0 <= j < |outline| && outline[j].chapterNumber == n
    && forall k :: j < k < |outline| ==> outline[k].chapterNumber != n
  }

  /** `{o.chapter_number: o for o in outline}`: later entries overwrite
      earlier ones with the same number. */
  function IndexByNumber(outline: seq<OutlineEntry>): (index: map<int, OutlineEntry>)
    ensures forall n :: n in index <==> exists j :: 0 <= j < |outline| && outline[j].chapterNumber == n
    ensures forall n :: n in index ==> exists j :: LastNumbered(outline, n, j) && index[n] == outline[j]
  {
    if |outline| == 0 then map[]
    else
      var init := outline[..|outline| - 1];
      var last := outline[|outline| - 1];
      var index := IndexByNumber(init);
      assert forall j :: 0 <= j < |init| ==> init[j] == outline[j];
      forall n | n in index && n != last.chapterNumber
        ensures exists j :: LastNumbered(outline, n, j) && index[n] == outline[j]
      {
        var j :| LastNumbered(init, n, j) && index[n] == init[j];
        assert LastNumbered(outline, n, j);
      }
      assert LastNumbered(outline, last.chapterNumber, |outline| - 1);
      index[last.chapterNumber := last]
  }

  /** The outline entry for chapter `number` titled `title`: the AI's entry
      for that number retitled, or a fresh entry with an empty summary. */
  function EntryFor(index: map<int, OutlineEntry>, number: int, title: string): (e: OutlineEntry)
    ensures e.title == title
    ensures number in index ==> e == index[number].(title := title)
    ensures number !in index ==> e == OutlineEntry(number, title, "")
  {
    if number in index then index[number].(title := title) else OutlineEntry(number, title, "")
  }

  /** The outline lines 63-80 store: an empty outline is kept as it is;
      otherwise there is one entry per detected chapter, numbered from 1 and
      titled after the chapter. */
  function Reconcile(chapters: seq<Chapter>, outline: seq<OutlineEntry>): (r: seq<OutlineEntry>)
    ensures |outline| == 0 ==> r == []
    ensures |outline| > 0 ==> |r| == |chapters|
    ensures |outline| > 0 ==> forall i :: 0 <= i < |r| ==>
              r[i].chapterNumber == i + 1 && r[i].title == chapters[i].title
  {
    if |outline| == 0 then outline
    else
      var index := IndexByNumber(outline);
      seq(|chapters|, i requires 0 <= i < |chapters| => EntryFor(index, i + 1, chapters[i].title))
  }

  /** Each reconciled entry is the last AI entry with its number, retitled,
      or, when the AI gave none, a placeholder with an empty summary. */
  lemma ReconcileEntry(chapters: seq<Chapter>, outline: seq<OutlineEntry>, i: int)
    requires |outline| > 0 && 0 <= i < |chapters|
    ensures (exists j :: LastNumbered(outline, i + 1, j)
                         && Reconcile(chapters, outline)[i] == outline[j].(title := chapters[i].title))
            || ((forall j :: 0 <= j < |outline| ==> outline[j].chapterNumber != i + 1)
                && Reconcile(chapters, outline)[i] == OutlineEntry(i + 1, chapters[i].title, ""))
  {
    var index := IndexByNumber(outline);
    if i + 1 in index {
      var j :| LastNumbered(outline, i + 1, j) && index[i + 1] == outline[j];
      assert Reconcile(chapters, outline)[i] == outline[j].(title := chapters[i].title);
    }
  }

  /** An entry whose number has a chapter keeps its summary in the result
      unless a later entry has the same number; entries numbered outside the
      chapter range leave no trace. */
  lemma ReconcileKeepsLastSummary(chapters: seq<Chapter>, outline: seq<OutlineEntry>, j: int)
    requires 0 <= j < |outline|
    requires LastNumbered(outline, outline[j].chapterNumber, j)
    requires 1 <= outline[j].chapterNumber <= |chapters|
    ensures Reconcile(chapters, outline)[outline[j].chapterNumber - 1].summary == outline[j].summary
  {
    var n := outline[j].chapterNumber;
    ReconcileEntry(chapters, outline, n - 1);
    var r := Reconcile(chapters, outline);
    if j' :| LastNumbered(outline, n, j') && r[n - 1] == outline[j'].(title := chapters[n - 1].title) {
      assert !(j < j') && !(j' < j);
    }
  }

  /** Reconciling an already reconciled outline against the same chapters
      changes nothing. */
  lemma ReconcileIdempotent(chapters: seq<Chapter>, outline: seq<OutlineEntry>)
    ensures Reconcile(chapters, Reconcile(chapters, outline)) == Reconcile(chapters, outline)
  {
    var r := Reconcile(chapters, outline);
    if |r| > 0 {
      var r2 := Reconcile(chapters, r);
      forall i | 0 <= i < |r|
        ensures r2[i] == r[i]
      {
        ReconcileEntry(chapters, r, i);
        if j :| LastNumbered(r, i + 1, j) && r2[i] == r[j].(title := chapters[i].title) {
          assert j == i;
        }
      }
    }
  }
}
