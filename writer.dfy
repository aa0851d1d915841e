/**
 * What `create_or_update_notion_page` sends to Notion and what it reports. The two
 * remote calls are parameters: `archived` is whether archiving the earlier page
 * succeeded (`delete_notion_page` returning True), `created` whether creating the new
 * page raised nothing.
 */
module Writer {
  import opened Wrappers
  import opened Text
  import opened Sections
  import opened NotionPage

  /** A request to Notion: archive an existing page, or create a page. */
  datatype Request = Archive(pageId: string) | Create(page: Page)

  /** The requests sent, in order, and the function's boolean result. */
  datatype Outcome = Outcome(requests: seq<Request>, success: bool)

  /** `if page_id:` — a page id is given and is not the empty string. */
  predicate HasPrior(pageId: Option<string>)
  {
    pageId.Some? && pageId.value != []
  }

  /** Archive the earlier page if there is one and stop if that fails; otherwise create
      the new page and report whether that worked. */
  function Write(word: string, sections: map<string, string>, pageId: Option<string>,
                 archived: bool, created: bool): Outcome
    requires LabelSet <= sections.Keys
  {
    var create := Create(BuildPage(word, sections));
    if HasPrior(pageId) then
      if archived then Outcome([Archive(pageId.value), create], created)
      else Outcome([Archive(pageId.value)], false)
    else Outcome([create], created)
  }

  /** The whole function: parse the reply, then archive and create. */
  method CreateOrUpdatePage(word: string, explanation: string, pageId: Option<string>,
                            archived: bool, created: bool)
    returns (requests: seq<Request>, success: bool)
    ensures Outcome(requests, success) == Write(word, Parse(explanation), pageId, archived, created)
  {
    var sections := ParseSections(explanation);
    var page := BuildPage(word, sections);
    if HasPrior(pageId) {
      if !archived {
        return [Archive(pageId.value)], false;
      }
      requests := [Archive(pageId.value), Create(page)];
    } else {
      requests := [Create(page)];
    }
    success := created;
  }

  /** Some request creates a page. */
  predicate Creates(requests: seq<Request>)
  {
    exists k :: 0 <= k < |requests| && requests[k].Create?
  }

  /** A page is created exactly when there is no earlier page or archiving it worked. */
  lemma CreateIff(word: string, sections: map<string, string>, pageId: Option<string>,
                  archived: bool, created: bool)
    requires LabelSet <= sections.Keys
    ensures Creates(Write(word, sections, pageId, archived, created).requests) <==>
      (!HasPrior(pageId) || archived)
  {
    var o := Write(word, sections, pageId, archived, created);
    if !HasPrior(pageId) {
      assert o.requests[0].Create?;
    } else if archived {
      assert o.requests[1].Create?;
    }
  }

  /** The result is True exactly when the page was created and the creation worked. */
  lemma SuccessIff(word: string, sections: map<string, string>, pageId: Option<string>,
                   archived: bool, created: bool)
    requires LabelSet <= sections.Keys
    ensures Write(word, sections, pageId, archived, created).success <==>
      ((!HasPrior(pageId) || archived) && created)
  {
  }

  /** A failed archive ends the call: nothing is created and the result is False. */
  lemma ArchiveFailureAborts(word: string, sections: map<string, string>, pageId: Option<string>,
                             created: bool)
    requires LabelSet <= sections.Keys && HasPrior(pageId)
    ensures !Creates(Write(word, sections, pageId, false, created).requests)
    ensures !Write(word, sections, pageId, false, created).success
  {
  }

  /** The earlier page, when there is one, is archived first, and only it; with no page id,
      or an empty one, nothing is archived. */
  lemma ArchiveFirst(word: string, sections: map<string, string>, pageId: Option<string>,
                     archived: bool, created: bool)
    requires LabelSet <= sections.Keys
    ensures var o := Write(word, sections, pageId, archived, created);
      (HasPrior(pageId) <==> o.requests[0].Archive?) &&
      (HasPrior(pageId) ==> o.requests[0] == Archive(pageId.value)) &&
      (forall k :: 1 <= k < |o.requests| ==> o.requests[k].Create?)
  {
  }

  /** Every page created is the page for this word and these sections: its title is the
      word in lower case and its checkbox is set. */
  lemma CreatedPage(word: string, sections: map<string, string>, pageId: Option<string>,
                    archived: bool, created: bool)
    requires LabelSet <= sections.Keys
    ensures var o := Write(word, sections, pageId, archived, created);
      forall k :: 0 <= k < |o.requests| && o.requests[k].Create? ==>
        o.requests[k].page == BuildPage(word, sections) &&
        o.requests[k].page.properties == Properties(Lower(word), true)
  {
  }
}
