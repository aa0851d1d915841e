/**
 * The page `create_or_update_notion_page` builds from a word and its parsed sections:
 * the database row's properties (title and the "page created" checkbox) and the nine
 * content blocks, a top heading and then a heading and a paragraph per section.
 */
module NotionPage {
  import opened Wrappers
  import opened Text
  import opened Sections

  /** The three kinds of Notion block the page uses, each with its single text run. */
  datatype Block = Heading1(text: string) | Heading2(text: string) | Paragraph(text: string)

  /** The row's two properties: the title property "単語" and the checkbox "ページ作成". */
  datatype Properties = Properties(title: string, pageCreated: bool)

  datatype Page = Page(properties: Properties, children: seq<Block>)

  /** The sections that get a heading and a paragraph of their own, in page order. */
  const BodyLabels: seq<string> := [Meaning, Etymology, Example, Related]

  /** The top heading: the word as given, then the part of speech in parentheses. */
  function Heading(word: string, partOfSpeech: string): string
  {
    word + " (" + partOfSpeech + ")"
  }

  /** The row's properties: the word in lower case as its title, and the checkbox set, so
      the word is no longer among the unprocessed ones. */
  function PageProperties(word: string): (p: Properties)
    ensures p == Properties(Lower(word), true)
    ensures p.pageCreated
    ensures |p.title| == |word|
    ensures forall k :: 0 <= k < |word| ==> !('A' <= p.title[k] <= 'Z')
  {
    Properties(Lower(word), true)
  }

  /** The page for `word` with the parsed `sections`. */
  function BuildPage(word: string, sections: map<string, string>): Page
    requires LabelSet <= sections.Keys
  {
    Page(PageProperties(word), [
      Heading1(Heading(word, sections[PartOfSpeech])),
      Heading2(Meaning), Paragraph(sections[Meaning]),
      Heading2(Etymology), Paragraph(sections[Etymology]),
      Heading2(Example), Paragraph(sections[Example]),
      Heading2(Related), Paragraph(sections[Related])
    ])
  }

  /** A reader of such a page: the text of the paragraph right after the first
      second-level heading `name`, if there is one. */
  function ParagraphUnder(blocks: seq<Block>, name: string): Option<string>
    decreases |blocks|
  {
    if |blocks| < 2 then None
    else if blocks[0] == Heading2(name) && blocks[1].Paragraph? then Some(blocks[1].text)
    else ParagraphUnder(blocks[1..], name)
  }

  /** A reader of the top heading: what stands in the parentheses after `word`. */
  function PartOfSpeechIn(text: string, word: string): Option<string>
  {
    var open := word + " (";
    if open <= text && |text| >= |open| + 1 && text[|text| - 1] == ')' then
      Some(text[|open|..|text| - 1])
    else None
  }

  /** The layout of the page's blocks: one top heading, then each body section under
      its own heading, in the dictionary's order. */
  predicate Laid(blocks: seq<Block>, sections: map<string, string>)
    requires LabelSet <= sections.Keys
  {
    |blocks| == 1 + 2 * |BodyLabels| && blocks[0].Heading1? &&
    forall i :: 0 <= i < |BodyLabels| ==>
      blocks[1 + 2 * i] == Heading2(BodyLabels[i]) && blocks[2 + 2 * i] == Paragraph(sections[BodyLabels[i]])
  }

  lemma PageLayout(word: string, sections: map<string, string>)
    requires LabelSet <= sections.Keys
    ensures Laid(BuildPage(word, sections).children, sections)
  {
  }

  /** The reader finds the first heading `name` that a paragraph follows. */
  lemma {:induction false} ParagraphAt(blocks: seq<Block>, name: string, k: nat)
    requires k + 1 < |blocks| && blocks[k] == Heading2(name) && blocks[k + 1].Paragraph?
    requires forall j :: 0 <= j < k ==> blocks[j] != Heading2(name)
    ensures ParagraphUnder(blocks, name) == Some(blocks[k + 1].text)
    decreases k
  {
    if k > 0 {
      ParagraphAt(blocks[1..], name, k - 1);
    }
  }

  /** Without heading `name` the reader finds nothing. */
  lemma {:induction false} ParagraphAbsent(blocks: seq<Block>, name: string)
    requires forall j :: 0 <= j < |blocks| ==> blocks[j] != Heading2(name)
    ensures ParagraphUnder(blocks, name) == None
    decreases |blocks|
  {
    if |blocks| >= 2 {
      ParagraphAbsent(blocks[1..], name);
    }
  }

  lemma LaidReadBack(blocks: seq<Block>, sections: map<string, string>, i: nat)
    requires LabelSet <= sections.Keys && Laid(blocks, sections) && i < |BodyLabels|
    ensures ParagraphUnder(blocks, BodyLabels[i]) == Some(sections[BodyLabels[i]])
  {
    var l := BodyLabels[i];
    forall j | 0 <= j < 1 + 2 * i ensures blocks[j] != Heading2(l) {
      if j % 2 == 1 {
        var h := (j - 1) / 2;
        assert blocks[1 + 2 * h] == Heading2(BodyLabels[h]);
        assert BodyLabels[h][0] != l[0];
      } else if j > 0 {
        var h := (j - 2) / 2;
        assert 2 + 2 * h == j && h < |BodyLabels|;
        assert blocks[2 + 2 * h] == Paragraph(sections[BodyLabels[h]]);
      }
    }
    ParagraphAt(blocks, l, 1 + 2 * i);
  }

  /** Every body section can be read back from the page, under its own heading. */
  lemma SectionsReadBack(word: string, sections: map<string, string>, l: string)
    requires LabelSet <= sections.Keys && l in BodyLabels
    ensures ParagraphUnder(BuildPage(word, sections).children, l) == Some(sections[l])
  {
    PageLayout(word, sections);
    var i :| 0 <= i < |BodyLabels| && BodyLabels[i] == l;
    LaidReadBack(BuildPage(word, sections).children, sections, i);
  }

  /** The part of speech has no paragraph of its own: it appears only in the top heading. */
  lemma NoPartOfSpeechParagraph(word: string, sections: map<string, string>)
    requires LabelSet <= sections.Keys
    ensures ParagraphUnder(BuildPage(word, sections).children, PartOfSpeech) == None
  {
    var blocks := BuildPage(word, sections).children;
    PageLayout(word, sections);
    forall j | 0 <= j < |blocks| ensures blocks[j] != Heading2(PartOfSpeech) {
      if j % 2 == 1 {
        var h := (j - 1) / 2;
        assert blocks[1 + 2 * h] == Heading2(BodyLabels[h]);
        assert BodyLabels[h][0] != PartOfSpeech[0];
      } else if j > 0 {
        var h := (j - 2) / 2;
        assert 2 + 2 * h == j && h < |BodyLabels|;
        assert blocks[2 + 2 * h] == Paragraph(sections[BodyLabels[h]]);
      }
    }
    ParagraphAbsent(blocks, PartOfSpeech);
  }

  /** The top heading gives back the part of speech. */
  lemma HeadingReadBack(word: string, sections: map<string, string>)
    requires LabelSet <= sections.Keys
    ensures BuildPage(word, sections).children[0].Heading1?
    ensures PartOfSpeechIn(BuildPage(word, sections).children[0].text, word) == Some(sections[PartOfSpeech])
  {
    var pos := sections[PartOfSpeech];
    var text := Heading(word, pos);
    assert text == (word + " (") + pos + ")";
    assert text[|word + " ("|..|text| - 1] == pos;
  }
}
