/** What the import service sends to the language model and what it makes
    of the answer: the text sample, the two prompts, and the road from a
    parsed reply to a blueprint. */
module Analysis {
  import opened Wrappers
  import opened Text
  import opened Json
  import opened Normalizer
  import opened Segmenter
  import opened Blueprints

  /** Only the first three chapters go into the sample. */
  const SampleChapters: nat := 3
  /** Only the first 2000 characters of each sampled body go into the sample. */
  const SampleBodyLimit: nat := 2000
  /** Only the first fifty chapter titles go into the system prompt. */
  const DirectoryLimit: nat := 50

  /** `f"{title}\n{body[:2000]}\n\n"` */
  function Block(c: Chapter): string {
    c.title + "\n" + Take(c.body, SampleBodyLimit) + "\n\n"
  }

  function Blocks(cs: seq<Chapter>): (s: string)
    ensures |s| <= TitleChars(cs) + |cs| * (SampleBodyLimit + 3)
    ensures |s| >= 3 * |cs|
  {
    if |cs| == 0 then "" else Block(cs[0]) + Blocks(cs[1..])
  }

  /** Total length of the titles. */
  function TitleChars(cs: seq<Chapter>): nat {
    if |cs| == 0 then 0 else |cs[0].title| + TitleChars(cs[1..])
  }

  lemma {:induction false} BlocksAppend(cs: seq<Chapter>, c: Chapter)
    ensures Blocks(cs + [c]) == Blocks(cs) + Block(c)
  {
    if |cs| == 0 {
      assert [c][1..] == [];
    } else {
      assert (cs + [c])[1..] == cs[1..] + [c];
      BlocksAppend(cs[1..], c);
    }
  }

  /** The sample text: one block per chapter among the first three. The
      sample is empty only when there are no chapters, and its length is
      bounded by the sampled titles plus 2003 characters per chapter. */
  function SampleText(chapters: seq<Chapter>): (sample: string)
    ensures |sample| <= TitleChars(Take(chapters, SampleChapters))
                        + |Take(chapters, SampleChapters)| * (SampleBodyLimit + 3)
    ensures sample == "" <==> chapters == []
  {
    Blocks(Take(chapters, SampleChapters))
  }

  /** Lines 47-51: the sample is built by appending one block per sampled
      chapter. */
  method BuildSample(chapters: seq<Chapter>) returns (sample: string)
    ensures sample == SampleText(chapters)
  {
    sample := "";
    var sampled := Take(chapters, SampleChapters);
    for i := 0 to |sampled|
      invariant sample == Blocks(sampled[..i])
    {
      BlocksAppend(sampled[..i], sampled[i]);
      assert sampled[..i + 1] == sampled[..i] + [sampled[i]];
      sample := sample + Block(sampled[i]);
    }
    assert sampled[..|sampled|] == sampled;
  }

  /** Chapters after the third never reach the sample. */
  lemma SampleIgnoresLaterChapters(chapters: seq<Chapter>, more: seq<Chapter>)
    requires |chapters| >= SampleChapters
    ensures SampleText(chapters + more) == SampleText(chapters)
  {
    assert (chapters + more)[..SampleChapters] == chapters[..SampleChapters];
  }

  /** Every body cut to its first 2000 characters. */
  function CutBodies(cs: seq<Chapter>): (r: seq<Chapter>)
    ensures |r| == |cs|
  {
    seq(|cs|, i requires 0 <= i < |cs| => cs[i].(body := Take(cs[i].body, SampleBodyLimit)))
  }

  /** No body character past the 2000th reaches the sample: cutting every
      body first gives the same sample. */
  lemma {:induction false} SampleSeesOnlyBodyPrefixes(chapters: seq<Chapter>)
    ensures SampleText(CutBodies(chapters)) == SampleText(chapters)
  {
    BlocksOfCutBodies(Take(chapters, SampleChapters));
    assert Take(CutBodies(chapters), SampleChapters) == CutBodies(Take(chapters, SampleChapters));
  }

  lemma {:induction false} BlocksOfCutBodies(cs: seq<Chapter>)
    ensures Blocks(CutBodies(cs)) == Blocks(cs)
  {
    if |cs| > 0 {
      var body := cs[0].body;
      assert Take(Take(body, SampleBodyLimit), SampleBodyLimit) == Take(body, SampleBodyLimit);
      assert CutBodies(cs)[1..] == CutBodies(cs[1..]);
      BlocksOfCutBodies(cs[1..]);
    }
  }

  /** The built-in instruction used when no stored template exists. */
  const DefaultTemplate: string :=
    "\n            你是一个专业的网文编辑。请根据提供的小说样本和目录，分析并提取小说信息。\n"
    + "            返回 JSON 格式，包含：title, one_sentence_summary, full_synopsis, world_setting (core_rules, key_locations, factions, magic_system), characters, relationships, chapter_outline。\n"
    + "            注意 world_setting 的 key 必须是 core_rules 和 key_locations。\n"
    + "            "

  const DirectoryHeader: string := "\n\n章节列表参考：\n"
  const UserPrefix: string := "请分析以下小说内容：\n\n"

  /** The stored template, or the default when it is missing or empty. */
  function EffectiveTemplate(stored: Option<string>): (t: string)
    ensures t != ""
    ensures stored.Some? && stored.value != "" ==> t == stored.value
    ensures stored.None? || stored.value == "" ==> t == DefaultTemplate
  {
    if stored.None? || stored.value == "" then DefaultTemplate else stored.value
  }

  /** The chapter directory: the first fifty titles, one per line. */
  function Directory(titles: seq<string>): string {
    Join(Take(titles, DirectoryLimit), "\n")
  }

  /** The system prompt: template, header, directory. */
  function SystemPrompt(stored: Option<string>, titles: seq<string>): string {
    EffectiveTemplate(stored) + DirectoryHeader + Directory(titles)
  }

  /** The user message: a fixed request followed by the sample. */
  function UserMessage(sample: string): string {
    UserPrefix + sample
  }

  /** Reading the directory back line by line gives the first fifty titles
      in order, as long as no title contains a line break. */
  lemma DirectoryListsFirstTitles(titles: seq<string>)
    requires |titles| >= 1
    requires forall t :: t in titles ==> '\n' !in t
    ensures SplitLines(Directory(titles)) == Take(titles, DirectoryLimit)
    ensures |SplitLines(Directory(titles))| <= DirectoryLimit
  {
    var shown := Take(titles, DirectoryLimit);
    assert forall t :: t in shown ==> t in titles;
    SplitLinesJoin(shown);
  }

  /** The object handed to the validator: the parsed reply when it is a
      JSON object whose `world_setting`, if any, is an object, cleaned up. */
  function ValidatorInput(parsed: Option<Json>): (input: Option<seq<Field>>)
    ensures input.Some? ==> parsed.Some? && parsed.value.JObject?
    ensures input.Some? ==> input == NormalizeData(parsed.value.fields)
    ensures parsed.Some? && parsed.value.JObject? ==> input == NormalizeData(parsed.value.fields)
  {
    match parsed
    case Some(JObject(data)) => NormalizeData(data)
    case _ => None
  }

  /** Lines 165-199 after the reply is parsed: `parsed` is `None` when the
      call, the clean-up of the reply text or `json.loads` failed, and
      `validate` stands for `Blueprint(**data)`. Every failure gives the
      stub. */
  function Interpret(parsed: Option<Json>, validate: seq<Field> -> Option<Blueprint>): (b: Blueprint)
    ensures parsed.None? ==> b == Stub
    ensures parsed.Some? && !parsed.value.JObject? ==> b == Stub
    ensures parsed.Some? && parsed.value.JObject? && NormalizeData(parsed.value.fields).None? ==> b == Stub
    ensures ValidatorInput(parsed).Some? && validate(ValidatorInput(parsed).value).None? ==> b == Stub
    ensures b != Stub ==> ValidatorInput(parsed).Some? && validate(ValidatorInput(parsed).value) == Some(b)
    ensures ValidatorInput(parsed).Some? && validate(ValidatorInput(parsed).value).Some? ==>
              b == validate(ValidatorInput(parsed).value).value
  {
    match parsed
    case Some(JObject(data)) =>
      (match NormalizeData(data)
       case None => Stub
       case Some(clean) =>
         match validate(clean)
         case None => Stub
         case Some(b) => b)
    case _ => Stub
  }

  /** Whatever the reply, the validator only ever sees a `world_setting` in
      canonical shape. */
  lemma ValidatorSeesCanonicalWorld(parsed: Option<Json>)
    requires ValidatorInput(parsed).Some?
    requires Has(ValidatorInput(parsed).value, WorldSettingKey)
    ensures Lookup(ValidatorInput(parsed).value, WorldSettingKey).value.JObject?
    ensures Canonical(Lookup(ValidatorInput(parsed).value, WorldSettingKey).value.fields)
  {
  }

  /** `_analyze_content`: ask the model, then interpret the reply.
      `respond(system, user)` stands for the model call and everything up to
      `json.loads`. */
  function AnalyzeContent(
    stored: Option<string>, sample: string, titles: seq<string>,
    respond: (string, string) -> Option<Json>,
    validate: seq<Field> -> Option<Blueprint>): (b: Blueprint)
    ensures respond(SystemPrompt(stored, titles), UserMessage(sample)).None? ==> b == Stub
    ensures b == Interpret(respond(SystemPrompt(stored, titles), UserMessage(sample)), validate)
  {
    Interpret(respond(SystemPrompt(stored, titles), UserMessage(sample)), validate)
  }
}
