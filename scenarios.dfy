/**
 * Whole calls of `create_or_update_notion_page` on replies of a given shape.
 */
module Scenarios {
  import opened Wrappers
  import opened Text
  import opened Sections
  import opened NotionPage
  import opened Writer

  /** A reply in the requested five-line form, for a word with no page yet, leads to
      exactly one request, creating the page for the reply's five values, and the result
      is whether that creation worked. */
  lemma FirstRun(word: string, vs: seq<string>, reply: string, archived: bool, created: bool)
    requires |vs| == |Labels|
    requires forall i :: 0 <= i < |Labels| ==> PlainValue(vs[i], Labels[i])
    requires reply == Join(ReplyLines(vs), "\n")
    ensures Write(word, Parse(reply), None, archived, created) ==
      Outcome([Create(BuildPage(word, FiveValues(vs)))], created)
  {
    FiveSectionReply(vs);
  }

  /** That page is titled with the word in lower case and checked, headed with the word
      and the part of speech, and has each other value under its own heading. */
  lemma FivePage(word: string, vs: seq<string>)
    requires |vs| == |Labels|
    ensures BuildPage(word, FiveValues(vs)).properties == Properties(Lower(word), true)
    ensures BuildPage(word, FiveValues(vs)).children[0] == Heading1(word + " (" + vs[0] + ")")
    ensures forall i :: 1 <= i < |Labels| ==>
      ParagraphUnder(BuildPage(word, FiveValues(vs)).children, Labels[i]) == Some(vs[i])
  {
    var sections := FiveValues(vs);
    forall i | 1 <= i < |Labels|
      ensures ParagraphUnder(BuildPage(word, sections).children, Labels[i]) == Some(vs[i])
    {
      assert Labels[i] == BodyLabels[i - 1];
      SectionsReadBack(word, sections, Labels[i]);
    }
  }

  /** The prompt ends its instructions with a full-width colon '：'. A reply line written
      with one, such as "意味：<text>", opens no section: it is more text for the section
      before it, and the section it names stays empty. */
  lemma FullWidthColon(v: string, w: string, second: string, reply: string)
    requires PlainValue(v, PartOfSpeech) && '\n' !in w
    requires w == [] || !IsSpace(w[|w| - 1])
    requires second == Meaning + "：" + w
    requires reply == ReplyLine(PartOfSpeech, v) + "\n" + second
    ensures Parse(reply)[PartOfSpeech] == v + " " + second
    ensures Parse(reply)[Meaning] == ""
  {
    var first := ReplyLine(PartOfSpeech, v);
    SecondLineIsText(second, w);
    ReplyLineOpens(PartOfSpeech, v);
    SplitTwo(first, second);
    KindsTwo(first, second);
    TwoLines(v, second);
  }

  lemma SplitTwo(first: string, second: string)
    requires '\n' !in first && '\n' !in second
    ensures Split(first + "\n" + second, '\n') == [first, second]
  {
    SplitJoin([first, second], '\n');
    assert Join([first], "\n") == first;
    JoinSnoc([first], second, "\n");
    assert [first] + [second] == [first, second];
  }

  lemma KindsTwo(first: string, second: string)
    ensures Kinds([first, second]) == [Classify(first), Classify(second)]
  {
    var k := Kinds([first, second]);
    assert k[0] == Classify(first) && k[1] == Classify(second);
  }

  lemma SecondLineIsText(line: string, w: string)
    requires line == Meaning + "：" + w
    requires '\n' !in w && (w == [] || !IsSpace(w[|w| - 1]))
    ensures '\n' !in line
    ensures Classify(line) == Plain(line)
  {
    SecondLineStripped(line, w);
    SecondLineUnmarked(line, w);
    FirstLabelNone(line, Labels);
  }

  lemma SecondLineStripped(line: string, w: string)
    requires line == Meaning + "：" + w
    requires '\n' !in w && (w == [] || !IsSpace(w[|w| - 1]))
    ensures '\n' !in line && line != [] && line[0] == '意'
    ensures Strip(line) == line
  {
    assert line[0] == '意';
    assert line[|line| - 1] == (if w == [] then '：' else w[|w| - 1]);
    StripFixed(line);
  }

  lemma SecondLineUnmarked(line: string, w: string)
    requires line == Meaning + "：" + w
    ensures forall l :: l in Labels ==> !(Marker(l) <= line)
  {
    assert line[0] == '意' && line[2] == '：';
    assert Marker(Meaning)[2] == ':';
    assert Marker(PartOfSpeech)[0] != '意' && Marker(Etymology)[0] != '意';
    assert Marker(Example)[0] != '意' && Marker(Related)[0] != '意';
  }

  lemma TwoLines(v: string, t: string)
    requires v != []
    ensures PartOfSpeech in Machine(Start, [Opens(PartOfSpeech, v), Plain(t)]).sections
    ensures Machine(Start, [Opens(PartOfSpeech, v), Plain(t)]).sections[PartOfSpeech] == v + " " + t
    ensures Meaning in Machine(Start, [Opens(PartOfSpeech, v), Plain(t)]).sections
    ensures Machine(Start, [Opens(PartOfSpeech, v), Plain(t)]).sections[Meaning] == ""
  {
    var o, p := Opens(PartOfSpeech, v), Plain(t);
    var lines := [o, p];
    assert lines[..1] == [o];
    assert Machine(Start, [o]) == Apply(Start, o) by {
      assert [o][..0] == [];
    }
    var s1 := Apply(Start, o);
    assert Machine(Start, lines) == Apply(s1, p);
    OpensResets(Start, PartOfSpeech, v);
    assert Seed(v) + [t] == [v, t];
    assert Join([v, t], " ") == v + " " + t by {
      assert [v, t][1..] == [t];
    }
  }
}
