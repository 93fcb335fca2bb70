/** Worked examples proved on the model: concrete inputs run through the
    segmenter, the normaliser and the import. */
module Scenarios {
  import opened Wrappers
  import opened Text
  import opened Json
  import opened Normalizer
  import opened Segmenter
  import opened Import

  /** The two heading lines of the first example are headings. */
  lemma ExampleHeadingsMatch(l: string)
    requires l == "第一章 风起" || l == "第二章 云涌"
    ensures IsHeading(l)
  {
    assert !IsSpace(l[0]);
    assert RunLength(l, IsSpace) == 0;
    assert l[0..] == l;
    var s := l[1..];
    assert IsNumeral(s[0]) && !IsNumeral(s[1]);
    assert RunLength(s[1..], IsNumeral) == 0;
    assert RunLength(s, IsNumeral) == 1;
    assert IsUnit(l[2]);
  }

  /** The two text lines of the first example are not headings. */
  lemma ExampleTextDoesNotMatch(l: string)
    requires l == "内容A" || l == "内容B"
    ensures !IsHeading(l)
  {
    assert !IsSpace(l[0]);
    assert RunLength(l, IsSpace) == 0;
    assert l[0..] == l;
    assert l[0] != '第';
  }

  lemma ExampleHeadingFacts(l: string)
    requires l == "第一章 风起" || l == "第二章 云涌"
    ensures IsHeading(l) && IsStripped(l) && '\n' !in l
  {
    ExampleHeadingsMatch(l);
    assert |l| == 6 && l[0] == '第' && (l[5] == '起' || l[5] == '涌');
    assert forall i :: 0 <= i < 6 ==> l[i] != '\n';
  }

  lemma ExampleTextFacts(l: string)
    requires l == "内容A" || l == "内容B"
    ensures !IsHeading(l) && IsStripped(l) && '\n' !in l && l != []
  {
    ExampleTextDoesNotMatch(l);
  }

  /** Heading, text, heading, text group into two one-line sections. */
  lemma GroupTwoSections(a: string, b: string, c: string, d: string, isHeading: string -> bool)
    requires isHeading(a) && !isHeading(b) && isHeading(c) && !isHeading(d)
    ensures Group([a, b, c, d], isHeading) == Grouping([], [Section(a, [b]), Section(c, [d])])
  {
    var lines := [a, b, c, d];
    assert Group(lines[3..], isHeading) == Grouping([d], []);
    assert lines[2..][1..] == lines[3..];
    assert Group(lines[2..], isHeading) == Grouping([], [Section(c, [d])]);
    assert lines[1..][1..] == lines[2..];
    assert Group(lines[1..], isHeading) == Grouping([b], [Section(c, [d])]);
  }

  lemma OneLineSection(h: string, b: string)
    requires IsStripped(h) && IsStripped(b) && b != []
    ensures SectionChapters([Section(h, [b])]) == [Chapter(h, b)]
  {
    assert Join([b], "\n") == b;
    assert [Section(h, [b])][1..] == [];
  }

  lemma AssembleTwoSections(a: string, b: string, c: string, d: string)
    requires IsStripped(a) && IsStripped(b) && IsStripped(c) && IsStripped(d)
    requires b != [] && d != []
    ensures Assemble(Grouping([], [Section(a, [b]), Section(c, [d])]))
            == [Chapter(a, b), Chapter(c, d)]
  {
    var s, t := Section(a, [b]), Section(c, [d]);
    var none: seq<string> := [];
    assert SectionChapters([s, t]) == [Chapter(a, b), Chapter(c, d)] by {
      OneLineSection(a, b);
      OneLineSection(c, d);
      SectionChaptersAppend([s], [t]);
      assert [s] + [t] == [s, t];
    }
    assert Prologue(none) == [] by {
      assert Join(none, "\n") == [];
    }
  }

  /** Two stripped heading lines, each followed by one stripped text line,
      make two chapters. */
  lemma TwoOneLineChapters(content: string, a: string, b: string, c: string, d: string)
    requires IsHeading(a) && !IsHeading(b) && IsHeading(c) && !IsHeading(d)
    requires '\n' !in a && '\n' !in b && '\n' !in c && '\n' !in d
    requires IsStripped(a) && IsStripped(b) && IsStripped(c) && IsStripped(d)
    requires b != [] && d != []
    requires content == Join([a, b, c, d], "\n")
    ensures Segment(content) == [Chapter(a, b), Chapter(c, d)]
  {
    SegmentLines([a, b, c, d]);
    GroupTwoSections(a, b, c, d, IsHeading);
    AssembleTwoSections(a, b, c, d);
  }

  lemma JoinFour(a: string, b: string, c: string, d: string)
    ensures Join([a, b, c, d], "\n") == a + "\n" + b + "\n" + c + "\n" + d
  {
    assert [c, d][1..] == [d];
    assert Join([c, d], "\n") == c + "\n" + d;
    assert [b, c, d][1..] == [c, d];
    assert Join([b, c, d], "\n") == b + "\n" + (c + "\n" + d);
    assert [a, b, c, d][1..] == [b, c, d];
    assert Join([a, b, c, d], "\n") == a + "\n" + (b + "\n" + (c + "\n" + d));
  }

  lemma ExampleOneLines(content: string)
    requires content == "第一章 风起\n内容A\n第二章 云涌\n内容B"
    ensures content == Join(["第一章 风起", "内容A", "第二章 云涌", "内容B"], "\n")
  {
    JoinFour("第一章 风起", "内容A", "第二章 云涌", "内容B");
  }

  /** Two headings, each with one line of text, give two chapters. */
  lemma ExampleTwoChapters(content: string)
    requires content == "第一章 风起\n内容A\n第二章 云涌\n内容B"
    ensures Segment(content) == [Chapter("第一章 风起", "内容A"), Chapter("第二章 云涌", "内容B")]
  {
    var a, b, c, d := "第一章 风起", "内容A", "第二章 云涌", "内容B";
    ExampleHeadingFacts(a);
    ExampleTextFacts(b);
    ExampleHeadingFacts(c);
    ExampleTextFacts(d);
    ExampleOneLines(content);
    TwoOneLineChapters(content, a, b, c, d);
  }

  /** A line that does not start with whitespace, `第` or `C` is no heading. */
  lemma PlainLineIsNoHeading(line: string)
    requires |line| > 0 && !IsSpace(line[0]) && line[0] != '第' && line[0] != 'C'
    ensures !IsHeading(line)
  {
    assert RunLength(line, IsSpace) == 0;
    assert line[0..] == line;
    assert |line| >= 7 ==> line[..7][0] == line[0];
  }

  /** One stripped line without a heading marker is the prologue. */
  lemma PlainLineIsPrologue(content: string)
    requires |content| > 0 && '\n' !in content && IsStripped(content)
    requires content[0] != '第' && content[0] != 'C'
    ensures DetectChapters(content) == [Chapter(PrologueTitle, content)]
  {
    assert Join([content], "\n") == content;
    SplitLinesJoin([content]);
    PlainLineIsNoHeading(content);
    UnmarkedTextIsPrologue(content);
  }

  /** Text without any heading is kept as a prologue chapter; the
      whole-text fallback is not used. */
  lemma ExampleUnmarkedText(content: string)
    requires content == "只是一段没有标记的正文"
    ensures DetectChapters(content) == [Chapter(PrologueTitle, content)]
  {
    assert '\n' !in content;
    assert !IsSpace(content[0]) && !IsSpace(content[|content| - 1]);
    PlainLineIsPrologue(content);
  }

  /** Three rules under the legacy key become one string of three lines
      under the canonical key, and an empty location list is added. */
  lemma ExampleLegacyRules(ws: seq<Field>)
    requires ws == [Field("rules", JArray([JString("a"), JString("b"), JString("c")]))]
    ensures NormalizeWorld(ws)
            == [Field("core_rules", JString("a\nb\nc")), Field("key_locations", JArray([]))]
  {
    var items := [JString("a"), JString("b"), JString("c")];
    var texts := seq(|items|, i requires 0 <= i < |items| => Str(items[i]));
    assert texts == ["a", "b", "c"];
    assert Join(texts, "\n") == "a\nb\nc" by {
      assert texts[1..] == ["b", "c"] && texts[1..][1..] == ["c"];
      assert Join(["b", "c"], "\n") == "b\nc";
    }
    assert JoinRules(items) == "a\nb\nc";
    var a := Rename(ws, RulesKey, CoreRulesKey);
    assert ws[0].key == RulesKey;
    assert |RulesKey| != |CoreRulesKey| && |LocationsKey| != |CoreRulesKey|;
    assert |LocationsKey| != |KeyLocationsKey| && |CoreRulesKey| != |KeyLocationsKey|;
    assert Has(ws, RulesKey) && !Has(ws, CoreRulesKey);
    assert Remove(ws, RulesKey) == [];
    assert a == [Field(CoreRulesKey, JArray(items))];
    var b := Rename(a, LocationsKey, KeyLocationsKey);
    assert !Has(a, LocationsKey);
    var c := CoerceCoreRules(b);
    assert c == [Field(CoreRulesKey, JString("a\nb\nc"))];
    assert !Has(c, KeyLocationsKey);
  }
}
