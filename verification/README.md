# Novel import: a Dafny model

This project models the pure logic of the novel-import service
(`backend/app/services/import_service.py`). The service takes the text of an
uploaded manuscript and does the following:

- cuts the text into chapters at heading lines (`第十二章 …`, `Chapter 3 …`);
- falls back to one whole-text chapter when no chapter is found;
- builds a text sample and two prompts for a language model;
- cleans up the `world_setting` part of the model's JSON reply;
- falls back to a placeholder blueprint when anything in the analysis fails;
- aligns the model's chapter outline with the chapters found;
- chooses the project title.

Storage, file decoding and the model call are outside the model; the
language model and the validating schema constructor are parameters.

Modules, in dependency order:

- `Wrappers`: `Option` and `Result`.
- `Text`: Python's `str.isspace` character set, `str.strip`,
  `str.split('\n')`, `sep.join` and `s[:n]`.
- `Segmenter`: `_split_into_chapters`. A heading is a line that, after
  leading whitespace, starts with `第` + numerals + one of `章卷回节`, or
  with `Chapter` + whitespace + a digit. Lines are grouped into a prologue
  and one section per heading. Each section whose text is non-blank after
  stripping becomes a chapter: (stripped heading, stripped text). Non-blank
  text before the first heading becomes the chapter `序章`.
- `Json`: JSON values as `json.loads` returns them. Dict lookup,
  assignment and `pop` are modelled on insertion-ordered field lists.
  `str()` of a value is modelled too.
- `Normalizer`: the `world_setting` clean-up (lines 171-188).
- `Blueprints`: the blueprint record, the failure stub, and the outline
  reconciliation (lines 63-80).
- `Analysis`: the sample text, the system prompt, the user message, and
  the road from a parsed reply to a blueprint (`_analyze_content`).
- `Import`: `import_novel_from_file` up to storage. It covers the
  emptiness check, the whole-text fallback, the title choice, and the
  record that gets stored.
- `Scenarios`: worked examples on concrete inputs.

Where the code differs from what a reader might expect, the model follows
the code:

- Text with no heading at all is not "no chapters". If it is non-blank, it
  comes back as the single chapter `("序章", stripped text)`, so the
  whole-text fallback is not used for it (lines 125-130; see
  `Segmenter.UnmarkedTextIsPrologue` and `Scenarios.ExampleUnmarkedText`).
- Only the empty string is rejected (line 36, `if not content`).
  Whitespace-only text gets through. Segmentation then finds nothing, and
  the text becomes one chapter `第一章 全文` holding the raw whitespace
  (`Import.BlankTextIsOneChapter`).
- An empty outline is not reconciled (line 63). When the analysis fails,
  the stub's empty outline therefore stays empty. No placeholder entries
  are made for the chapters (`Import.FailedAnalysisImport`).

## Model

| member | source | states |
|---|---|---|
| Text.Strip | backend/app/services/import_service.py:129-135 | `strip()` leaves no whitespace at either end; the result is empty exactly when the input is all whitespace; text already stripped is returned unchanged |
| Text.StripCutsEnds | backend/app/services/import_service.py:129-135 | `strip()` only cuts whitespace, and only from the two ends: its result is a contiguous piece of the line with nothing but whitespace before and after it |
| Text.TrimmedStrippedIsStrip | backend/app/services/import_service.py:129-135 | conversely, a piece of the line with no whitespace at its ends and only whitespace around it is exactly what `strip()` returns |
| Text.StripKeepsChars | backend/app/services/import_service.py:134 | stripping only removes characters, so a stripped heading keeps no character its line did not have |
| Text.SplitLines | backend/app/services/import_service.py:122-125 | the line view of the text under `re.MULTILINE`: at least one line, and no line contains a line break |
| Text.JoinSplitLines | backend/app/services/import_service.py:125 | joining the lines with line breaks gives the text back, so cutting at lines loses nothing |
| Text.SplitLinesJoin | backend/app/services/import_service.py:151 | joining break-free lines with `"\n"` and splitting again gives the same lines back |
| Text.Take | backend/app/services/import_service.py:50-51 | `s[:n]` has `min(len(s), n)` elements and is a prefix of `s` |
| Segmenter.ChineseMarkerIsPattern | backend/app/services/import_service.py:122 | the scanner for `第[0-9零…千]+[章卷回节]` accepts a text exactly when some numeral run of length at least one is followed by a unit character |
| Segmenter.ChapterMarkerIsPattern | backend/app/services/import_service.py:122 | the scanner for `Chapter\s+[0-9]` accepts a text exactly when some whitespace run of length at least one after `Chapter` is followed by a digit |
| Segmenter.HeadingIsNotBlank | backend/app/services/import_service.py:122 | a heading line is never all whitespace |
| Segmenter.Group | backend/app/services/import_service.py:125 | the split yields exactly one section per heading line |
| Segmenter.GroupCutsAtHeadings | backend/app/services/import_service.py:125 | sections start at heading lines, and no heading line is left inside the prologue or a section body |
| Segmenter.GroupLosesNothing | backend/app/services/import_service.py:125 | prologue followed by every (heading, body lines) in order is the original line list |
| Segmenter.GroupHeadingsAreSingleLines | backend/app/services/import_service.py:122 | a section heading never contains a line break |
| Segmenter.PrologueIsTextBeforeFirstHeading | backend/app/services/import_service.py:125-129 | the prologue is the lines before the first heading; after the strip at line 129 they give `parts[0].strip()` (a blank line just before the heading belongs to the heading's match, not to `parts[0]`) |
| Segmenter.FirstHeading | backend/app/services/import_service.py:125 | index of the first heading line: every earlier line is no heading, and the line there is one |
| Segmenter.SectionChapters | backend/app/services/import_service.py:133-137 | at most one chapter per section, each with a non-empty, stripped body |
| Segmenter.SectionChaptersComplete | backend/app/services/import_service.py:133-137 | every section whose text is non-blank after stripping yields the chapter (stripped heading, stripped text) |
| Segmenter.SectionChaptersSound | backend/app/services/import_service.py:133-137 | every chapter made from sections is (stripped heading, stripped text) of one of them |
| Segmenter.SectionChaptersAppend | backend/app/services/import_service.py:133-137 | sections are turned into chapters one by one, in document order |
| Segmenter.Segment | backend/app/services/import_service.py:112-139 | at most one chapter more than there are heading lines, and every body is non-empty and stripped |
| Segmenter.SegmentLines | backend/app/services/import_service.py:125 | segmenting text given as break-free lines works on those very lines |
| Segmenter.SegmentTitlesAreSingleLines | backend/app/services/import_service.py:134 | no chapter title contains a line break |
| Segmenter.SegmentWithoutHeadings | backend/app/services/import_service.py:125-130 | with no heading line, blank text gives no chapter and other text gives exactly `[("序章", content.strip())]` |
| Segmenter.UnmarkedTextIsPrologue | backend/app/services/import_service.py:129-130 | non-blank text in which no line is a heading is the single prologue chapter |
| Segmenter.BlankTextHasNoChapters | backend/app/services/import_service.py:129-137 | all-whitespace text gives no chapter |
| Segmenter.SectionBodiesAreShorter | backend/app/services/import_service.py:133-137 | a section's body is strictly shorter than the text it came from, since the heading line is not part of it |
| Segmenter.SegmentBodiesAreShorter | backend/app/services/import_service.py:129-137 | every chapter other than the prologue has a body strictly shorter than the input |
| Segmenter.HeadingTitleIsNotPrologue | backend/app/services/import_service.py:129-134 | a stripped heading line starts with `第` or `C`, so it is never the title `序章` |
| Segmenter.SectionTitlesAreNotPrologue | backend/app/services/import_service.py:129-134 | no section chapter is titled `序章` |
| Segmenter.SegmentPrologue | backend/app/services/import_service.py:129-130 | if the text before the first heading is non-blank, the first chapter is `("序章", that text stripped)`; a chapter titled `序章` only ever comes from that text, and only in first place |
| Json.Lookup | backend/app/services/import_service.py:171-187 | a lookup finds a value exactly when the key is present |
| Json.LookupFindsFirst | backend/app/services/import_service.py:171-187 | the value found is that of the first field carrying the key |
| Json.Put | backend/app/services/import_service.py:175-188 | after assignment the key maps to the new value and every other key to what it mapped to before; an existing key keeps its place, so every key stays at its position; a new key is appended at the end |
| Json.Remove | backend/app/services/import_service.py:175-177 | after `pop` the key is absent, and every other key maps to what it mapped to before |
| Json.RemoveAbsent | backend/app/services/import_service.py:175-177 | popping a key the dict does not hold leaves the fields as they were, in order |
| Json.RemoveAppend | backend/app/services/import_service.py:175-177 | `pop` works field by field, so the fields that stay keep their insertion order |
| Json.RemoveSingle | backend/app/services/import_service.py:175-177 | popping a key held by one field drops exactly that field and keeps the others in order |
| Json.PutExisting | backend/app/services/import_service.py:175-188 | assigning a key the value it already has changes nothing |
| Json.Digits | backend/app/services/import_service.py:182 | `str(n)` of a natural number: decimal digits, with a leading `0` exactly when `n` is 0, and then the string is `"0"` |
| Json.DigitsRoundTrip | backend/app/services/import_service.py:182 | reading the decimal digits of `str(n)` back gives `n` |
| Json.Str | backend/app/services/import_service.py:182 | `str()` of a string element is the string itself |
| Normalizer.Rename | backend/app/services/import_service.py:174-177 | the legacy key moves to the canonical key only when the canonical key is absent; otherwise nothing changes, and other keys are untouched |
| Normalizer.RenameLegacyKeys | backend/app/services/import_service.py:173-177 | after renaming, the canonical keys hold what was under the canonical key or else the legacy key; a legacy key survives only when its canonical key was present |
| Normalizer.CoerceCoreRules | backend/app/services/import_service.py:179-184 | a list of core rules becomes their newline join, a missing entry becomes `""`, any other value is kept |
| Normalizer.EnsureKeyLocations | backend/app/services/import_service.py:186-188 | a missing `key_locations` becomes `[]`; a present one is kept |
| Normalizer.RulesText | backend/app/services/import_service.py:181-184 | the core rules' final value is never a list |
| Normalizer.NormalizeWorld | backend/app/services/import_service.py:171-188 | the net effect on each of the four keys, stated in terms of the input: core rules from the canonical or else the legacy key, joined if a list, `""` if absent; key locations likewise, `[]` if absent; legacy keys kept only beside their canonical key; all other keys unchanged; the result is canonical |
| Normalizer.NormalizeWorldFixpoint | backend/app/services/import_service.py:171-188 | the clean-up leaves a `world_setting` unchanged exactly when it is already canonical |
| Normalizer.NormalizeWorldIdempotent | backend/app/services/import_service.py:171-188 | cleaning up twice equals cleaning up once |
| Normalizer.NormalizeData | backend/app/services/import_service.py:171-188 | no `world_setting` means no change; a non-object `world_setting` is the failure Python raises; otherwise only `world_setting` changes, to its cleaned-up form |
| Normalizer.NormalizeDataIdempotent | backend/app/services/import_service.py:171-188 | cleaning up an already cleaned result changes nothing |
| Blueprints.IndexByNumber | backend/app/services/import_service.py:65 | the index holds exactly the numbers some AI entry has, each mapped to the last entry with that number |
| Blueprints.Reconcile | backend/app/services/import_service.py:63-80 | an empty outline stays empty; otherwise there is one entry per chapter, entry `i` numbered `i+1` and titled after chapter `i` |
| Blueprints.ReconcileEntry | backend/app/services/import_service.py:65-79 | entry `i` is the last AI entry numbered `i+1` with its title replaced, or, when there is none, `(i+1, title, "")` |
| Blueprints.ReconcileKeepsLastSummary | backend/app/services/import_service.py:65-70 | the last AI entry with a number inside the chapter range keeps its summary in the result |
| Blueprints.ReconcileIdempotent | backend/app/services/import_service.py:63-80 | reconciling a reconciled outline against the same chapters changes nothing |
| Analysis.Blocks | backend/app/services/import_service.py:50-51 | each block adds at most its title plus 2003 characters, and at least 3 |
| Analysis.SampleText | backend/app/services/import_service.py:47-51 | the sample is empty only when there are no chapters, and it is no longer than the first three titles plus 2003 characters per sampled chapter |
| Analysis.BuildSample | backend/app/services/import_service.py:47-51 | the source's append loop builds exactly the sample of the first three chapters |
| Analysis.BlocksAppend | backend/app/services/import_service.py:50-51 | appending a chapter appends its block |
| Analysis.SampleIgnoresLaterChapters | backend/app/services/import_service.py:50 | chapters after the third never change the sample |
| Analysis.SampleSeesOnlyBodyPrefixes | backend/app/services/import_service.py:51 | cutting every body to 2000 characters first gives the same sample, so no later body character reaches the model |
| Analysis.BlocksOfCutBodies | backend/app/services/import_service.py:51 | the same, block by block |
| Analysis.EffectiveTemplate | backend/app/services/import_service.py:142-149 | a stored non-empty template is used as it is; a missing or empty one is replaced by exactly the default prompt of lines 145-149 |
| Analysis.DirectoryListsFirstTitles | backend/app/services/import_service.py:151 | read back line by line, the directory is the first fifty titles in order, so it has at most fifty lines |
| Analysis.ValidatorInput | backend/app/services/import_service.py:168-190 | the validator is reached exactly when the reply parsed to a JSON object, and then sees that object cleaned up by the normalisation of lines 175-188 |
| Analysis.Interpret | backend/app/services/import_service.py:165-199 | no reply, a reply that is not an object, a non-object `world_setting` or a rejected object gives the stub; otherwise the blueprint is exactly the validator's answer on the cleaned object (line 190) |
| Analysis.ValidatorSeesCanonicalWorld | backend/app/services/import_service.py:171-190 | the validator never sees a `world_setting` that is not a canonical object |
| Analysis.AnalyzeContent | backend/app/services/import_service.py:141-199 | the blueprint is the interpretation of the model's reply to the system prompt built from the template and chapter titles and the user message built from the sample; a failed model call gives the stub |
| Import.DetectChapters | backend/app/services/import_service.py:40-43 | the chapter list is never empty, and it is `[("第一章 全文", content)]` exactly when segmentation found nothing |
| Import.DetectedTitlesAreSingleLines | backend/app/services/import_service.py:40-43 | no detected chapter title contains a line break |
| Import.LastDot | backend/app/services/import_service.py:57 | the position of the last dot, or -1 when there is none |
| Import.BaseName | backend/app/services/import_service.py:57 | `rsplit('.', 1)[0]`: a prefix of the name that ends right before its last dot, or the whole name when it has no dot |
| Import.ImportNovel | backend/app/services/import_service.py:30-100 | undecodable text and empty text are the two errors; any other text is imported with the detected chapters, an outline that is empty or aligned with them, the initial prompt naming the file, the project title of line 57 (the blueprint's title, or the file's base name when that is empty), and a blueprint that is the analysis of the sample with its outline reconciled against the chapters |
| Import.FailedAnalysisImport | backend/app/services/import_service.py:57-63 | when the model call fails, the project is titled `导入的项目`, keeps the stub, and has an empty outline |
| Import.PromptListsDetectedTitles | backend/app/services/import_service.py:48-151 | the system prompt's directory lists the first fifty detected chapter titles in order, one per line |
| Import.BlankTextIsOneChapter | backend/app/services/import_service.py:36-43 | whitespace-only text gets past the emptiness check and becomes the single chapter `第一章 全文` |
| Scenarios.ExampleTwoChapters | backend/app/services/import_service.py:112-139 | `"第一章 风起\n内容A\n第二章 云涌\n内容B"` gives the chapters `("第一章 风起", "内容A")` and `("第二章 云涌", "内容B")` |
| Scenarios.TwoOneLineChapters | backend/app/services/import_service.py:125-137 | two stripped heading lines, each followed by one stripped text line, give two chapters |
| Scenarios.PlainLineIsPrologue | backend/app/services/import_service.py:125-130 | one stripped line that starts with neither `第` nor `C` is kept as the prologue |
| Scenarios.ExampleUnmarkedText | backend/app/services/import_service.py:40-43 | `"只是一段没有标记的正文"` is imported as the prologue chapter, not through the whole-text fallback |
| Scenarios.ExampleLegacyRules | backend/app/services/import_service.py:174-188 | `{"rules": ["a", "b", "c"]}` becomes `{"core_rules": "a\nb\nc", "key_locations": []}` |

## Left out

- Reading and decoding the upload (lines 102-110): the bytes, and the UTF-8 and then GBK codecs. The decoded text is an `Option<string>` input, and `None` is the encoding error.
- The language-model call (lines 157-163): network, timeout, temperature and user accounting. `remove_think_tags`, `unwrap_markdown_json`, `sanitize_json_like_text` and `json.loads` (lines 165-168) are part of it too. All of them are one function parameter from (system prompt, user message) to an optional parsed JSON value. `None` stands for any exception they raise.
- The `Blueprint` and `ChapterOutline` schemas (`backend/app/schemas/novel.py` is not part of this model). Validation `Blueprint(**data)` is a function parameter returning an optional blueprint. The fields the service never reads are kept opaque (`Details`). Outline entries carry only number, title and summary.
- Storage through `NovelService` and the session (lines 59, 82, 85-98): creating the project, writing the blueprint, chapter versions, the version selection, the status change and the commit. `Imported` is the record these steps would store.
- The template lookup (line 142) is a database read. It is an `Option<string>` input.
- Logging and the construction of `HTTPException` (lines 37, 110, 193). `ImportError` stands for the two HTTP 400 errors.
- Segmenter.Segment: a `Chapter` heading whose digits sit on the next line (`Chapter\n5`, where the regular expression's `\s+` spans the line break) is not recognised. The model reads headings within one line only.
- Json.Str: for lists and dicts nested in `core_rules`, `repr` escapes control characters, Latin-1 control characters and the Unicode separators. Every other non-printable character (format, private-use, unassigned) is written as itself, where Python would escape it.
- Floating-point JSON numbers are left out: numbers are integers.
- JSON objects with repeated keys are not modelled faithfully: `json.loads` keeps the last value, while `Lookup` reads the first occurrence.
- A missing filename (`file.filename` being `None`) is not modelled; the filename is a string.
