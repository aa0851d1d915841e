# Notion English page creator: the page writer, modelled in Dafny

`notion_english_page_creator.py` fetches unprocessed English words from a Notion
database. It asks a language model to explain each word in five Japanese-labelled
sections: 品詞 (part of speech), 意味 (meaning), 語源 (etymology), 例文 (example) and
関連語 (related words). It then writes one Notion page per word.

This project models the part of that script that is computed locally:

- **The section parser of `create_or_update_notion_page`.** It reads the model's
  free-text reply line by line, keeps an active section and a text buffer, and fills a
  five-entry dictionary.
- **The page it builds.** This is a title property, a "page created" checkbox, and nine
  content blocks.
- **The archive-then-create guard.** A word that already has a page gets its old page
  archived first. If archiving fails, nothing is created.
- **The word normalisation** `word.lower().strip()` in
  `generate_explanation_from_chatgpt`.

The modules are:

- `Text` (`text.dfy`): the Python `str` operations the code uses, on `string`. They are
  `strip()` (with Python's exact `isspace` set), `lower()`, `split('\n')`,
  `' '.join(...)`, `replace(marker, "")` and `startswith(...)`.
- `Sections` (`sections.dfy`): the parser.
  - Each loop turn first reads its line. `Classify` gives that reading: `Skip` (empty
    after stripping, or a `#` line), `Opens(label, text)` (it starts with
    `"<label>:"`), or `Plain(text)`. `Apply` is what the turn then does to the loop's
    variables.
  - `Machine` is the loop over classified lines, and `Parse` is the loop over a whole
    reply.
  - `ParseSections` is the loop itself: a `while` over the lines. Its body is
    `ReadLine`, and the label search over the dictionary's keys is `FindLabel`. Each is
    proved equal to its functional definition.
  - The lemmas state what the loop does to the dictionary.
- `NotionPage` (`page.dfy`): the page as a `Block` datatype (`Heading1`, `Heading2`,
  `Paragraph`), the properties, and readers that recover the sections from a page.
- `Writer` (`writer.dfy`): the requests sent to Notion (`Archive`, `Create`) and the
  boolean result. `CreateOrUpdatePage` is the whole function: parse, then archive and
  create.
- `Generator` (`generator.dfy`): the word normalisation.
- `Scenarios` (`scenarios.dfy`): whole calls on replies of a given shape. The first is
  the five-line reply the prompt asks for. The second is a reply that writes a
  full-width colon `：`, which opens no section.

Only the copy of the word sent in the prompt is lower-cased and stripped (`:64`). The
page title is `word.lower()` of the stored word, not stripped (`:151`), and the top
heading uses the stored word unchanged (`:169`). `Generator.TitleMatchesPromptWord`
states exactly when the title and the prompt's word agree.

## Model

| member | source | states |
|---|---|---|
| Text.Strip | notion_english_page_creator.py:122 | `strip()` never lengthens a string and leaves no whitespace at either end |
| Text.TrimStart | notion_english_page_creator.py:122 | `lstrip()`, the first half of `strip()`; what it keeps and cuts is stated by `Text.TrimStartCutsSpace` |
| Text.TrimEnd | notion_english_page_creator.py:122 | `rstrip()`, the second half of `strip()`; what it keeps and cuts is stated by `Text.TrimEndCutsSpace` |
| Text.TrimStartCutsSpace | notion_english_page_creator.py:122 | `lstrip()` keeps a suffix starting with a non-space, and everything it drops is whitespace |
| Text.TrimEndCutsSpace | notion_english_page_creator.py:122 | `rstrip()` keeps a prefix ending with a non-space, and everything it drops is whitespace |
| Text.StripIsSlice | notion_english_page_creator.py:122 | the stripped line is a contiguous slice of the line |
| Text.StripIdempotent | notion_english_page_creator.py:130 | stripping an already stripped line changes nothing, so the second `strip()` in the content extraction only matters after the marker is removed |
| Text.StripAvoids | notion_english_page_creator.py:122 | stripping adds no character |
| Text.Lower | notion_english_page_creator.py:151 | `lower()` keeps the length and maps each character independently |
| Text.LowerIdempotent | notion_english_page_creator.py:64 | lowering twice is lowering once |
| Text.Split | notion_english_page_creator.py:121 | `split('\n')` yields at least one piece and no piece holds a line break |
| Text.JoinSplit | notion_english_page_creator.py:121 | joining the pieces with `'\n'` gives back the reply |
| Text.Join | notion_english_page_creator.py:143 | `sep.join(parts)`; `Text.JoinSplit` and `Text.SplitJoin` make it the inverse of `split`, `Text.JoinAvoids` says it adds nothing but separators |
| Text.SplitJoin | notion_english_page_creator.py:121 | splitting lines joined by `'\n'` gives back the lines, when none holds a line break |
| Text.JoinAvoids | notion_english_page_creator.py:143 | `' '.join` of parts without a line break has none |
| Text.RemoveAll | notion_english_page_creator.py:130 | `replace(marker, "")` never lengthens a line and leaves a line without the marker unchanged |
| Text.RemoveLeading | notion_english_page_creator.py:130 | an occurrence of the marker at the start of the line is deleted whole |
| Text.RemoveFree | notion_english_page_creator.py:130 | a line in which the marker's first character does not occur is left as it is |
| Text.RemoveAfterFree | notion_english_page_creator.py:130 | an occurrence further into the line is deleted too, and the text before it is kept |
| Text.RemoveTwice | notion_english_page_creator.py:130 | a leading occurrence and a later one are both deleted, leaving the text around them |
| Text.RemoveAllAvoids | notion_english_page_creator.py:130 | removing the marker adds no character |
| Sections.Initial | notion_english_page_creator.py:110-116 | the dictionary starts with exactly the five labels |
| Sections.FirstLabel | notion_english_page_creator.py:127-128 | a label found is one of the keys and its marker starts the line |
| Sections.FirstLabelUnique | notion_english_page_creator.py:127-135 | as no two labels share a first character, the first-match search finds any label whose marker starts the line |
| Sections.FindLabel | notion_english_page_creator.py:127-135 | the `for` over the dictionary's keys with its `break` finds exactly the first-match label |
| Sections.Classify | notion_english_page_creator.py:122-139 | how one turn reads its line: a label line names one of the five labels whose marker starts the stripped line, and plain text is the non-empty stripped line; `Sections.OpensIff`, `Sections.SkipIff` and `Sections.PlainUnlessMarked` state each case both ways |
| Sections.OpensIff | notion_english_page_creator.py:122-135 | a line opens section `l` if and only if, stripped, it starts with `l` and an ASCII colon; its text is then the stripped line with every occurrence of the marker removed, stripped again |
| Sections.PlainUnlessMarked | notion_english_page_creator.py:127-139 | a line whose stripped form starts with no marker opens no section |
| Sections.RepeatedMarkerRemoved | notion_english_page_creator.py:130 | a label line "<label>:a<label>:b", where the label's first character does not recur in a or b, gets the text a + b, stripped: every occurrence of the marker is deleted, not only the first |
| Sections.SkipIff | notion_english_page_creator.py:122-124 | a line is skipped exactly when, stripped, it is empty or starts with '#' |
| Sections.ReadLine | notion_english_page_creator.py:122-143 | one pass of the loop body updates the dictionary, active section and buffer exactly as one turn of the loop specification |
| Sections.Apply | notion_english_page_creator.py:127-143 | one turn of the loop (with `Commit`, the write at :142-143): a label line makes its label active, any other line keeps the active one, and no entry but the active one changes; `Sections.OpensResets`, `Sections.ApplyValid` and `Sections.ContinuationAppends` state the buffer |
| Sections.Kinds | notion_english_page_creator.py:121-122 | each reply line is classified on its own, in order |
| Sections.Machine | notion_english_page_creator.py:121-143 | the loop over the classified lines; what it computes is stated by `Sections.MachineValid`, `Sections.MachineConcat`, `Sections.ResetOnRepeat`, `Sections.InactiveUnchanged` and `Sections.PreambleDiscarded` |
| Sections.ParseSections | notion_english_page_creator.py:110-143 | the parsing loop computes `Parse` of the reply |
| Sections.Parse | notion_english_page_creator.py:110-143 | the result always has exactly the five labels as keys |
| Sections.ApplyValid | notion_english_page_creator.py:127-143 | a turn keeps the invariant (the active entry is its buffer joined with spaces) and writes no entry but the active section's |
| Sections.OpensResets | notion_english_page_creator.py:128-143 | a label line makes its label active, restarts the buffer with its text (or with nothing when the text is empty) and sets that entry to the text |
| Sections.MachineValid | notion_english_page_creator.py:118-143 | the invariant holds after every line |
| Sections.MachineConcat | notion_english_page_creator.py:121-143 | reading `a + b` is reading `b` from where reading `a` stopped |
| Sections.SkipNoEffect | notion_english_page_creator.py:123-124 | a skipped line changes nothing, wherever it stands |
| Sections.SkippedLineIgnored | notion_english_page_creator.py:122-124 | an empty or '#' reply line can be removed without changing the state or the result |
| Sections.PreambleDiscarded | notion_english_page_creator.py:136-143 | lines before the first label line leave the initial state untouched, and the result is as though they were absent |
| Sections.PreambleIgnored | notion_english_page_creator.py:136-143 | the same, for reply lines that start with no label's marker |
| Sections.ContinuationAppends | notion_english_page_creator.py:136-143 | plain lines read while a section is active are appended to its buffer in order, and no other entry changes |
| Sections.InactiveUnchanged | notion_english_page_creator.py:141-143 | a section that is not active and that no line opens keeps its entry |
| Sections.LeaveSection | notion_english_page_creator.py:127-143 | once another section opens, an entry is frozen until its own label appears again |
| Sections.ResetOnRepeat | notion_english_page_creator.py:128-143 | the last line opening a label decides its entry: that line's text and the plain text up to the next label line, joined with spaces; earlier occurrences are lost |
| Sections.AbsentLabelKeepsDefault | notion_english_page_creator.py:110-116 | a label that starts no line keeps its initial value |
| Sections.InitialValues | notion_english_page_creator.py:110-116 | the initial values are '形容詞' for the part of speech and '' for the other four |
| Sections.ClassifyFreeOfNewlines | notion_english_page_creator.py:122-139 | a line without a line break yields text without one |
| Sections.NoNewlines | notion_english_page_creator.py:121-143 | no parsed value ever holds a line break |
| Sections.ReplyLineOpens | notion_english_page_creator.py:127-135 | a line "<label>: <value>" opens that label with exactly the value |
| Sections.FiveSectionReply | notion_english_page_creator.py:110-143 | a reply giving the five sections in order, one line each, parses to exactly those five values |
| Sections.KindsConcat | notion_english_page_creator.py:121-122 | lines are read independently of their neighbours |
| NotionPage.PageProperties | notion_english_page_creator.py:150-153 | the title is exactly `Lower(word)`, so it has no ASCII capital and the word's length, and the checkbox is set |
| NotionPage.BuildPage | notion_english_page_creator.py:150-228 | the created page: its layout is stated by `NotionPage.PageLayout`, its contents read back by `NotionPage.SectionsReadBack`, `NotionPage.HeadingReadBack` and `NotionPage.NoPartOfSpeechParagraph` |
| NotionPage.PageLayout | notion_english_page_creator.py:164-228 | the page is one top heading followed by exactly four heading-and-paragraph pairs, in dictionary order, each paragraph holding its section |
| NotionPage.SectionsReadBack | notion_english_page_creator.py:172-228 | each of the four body sections is read back from the page under its own heading |
| NotionPage.NoPartOfSpeechParagraph | notion_english_page_creator.py:164-228 | the part of speech has no heading or paragraph of its own |
| NotionPage.HeadingReadBack | notion_english_page_creator.py:165-171 | the top heading gives back the part of speech in the parentheses after the word |
| Writer.CreateOrUpdatePage | notion_english_page_creator.py:101-235 | the whole function sends exactly the requests and returns exactly the result of `Write` on the parsed reply |
| Writer.Write | notion_english_page_creator.py:155-235 | the requests sent and the result returned, given the outcomes of the two remote calls; stated by `Writer.CreateIff`, `Writer.SuccessIff`, `Writer.ArchiveFirst`, `Writer.ArchiveFailureAborts` and `Writer.CreatedPage` |
| Writer.CreateIff | notion_english_page_creator.py:155-161 | a page is created if and only if there is no earlier page id (absent or empty) or archiving it succeeded |
| Writer.SuccessIff | notion_english_page_creator.py:155-235 | the result is True if and only if the page was created and the creation raised nothing |
| Writer.ArchiveFailureAborts | notion_english_page_creator.py:155-158 | with an earlier page whose archiving fails, nothing is created and the result is False |
| Writer.ArchiveFirst | notion_english_page_creator.py:155-161 | the earlier page, and only it, is archived, before anything else; with no page id nothing is archived |
| Writer.CreatedPage | notion_english_page_creator.py:150-163 | every page created is the page for this word and these sections, titled with the lowered word and checked |
| Generator.NormalizedShape | notion_english_page_creator.py:64 | the prompt's word has no ASCII capital, no whitespace at either end, and is no longer than the stored word |
| Generator.NormalizeWord | notion_english_page_creator.py:64 | `word.lower().strip()`; stated by `Generator.NormalizedShape`, `Generator.NormalizeIdempotent` and `Generator.StripLowerCommute` |
| Generator.NormalizeIdempotent | notion_english_page_creator.py:64 | normalising twice is normalising once |
| Generator.StripLowerCommute | notion_english_page_creator.py:64 | lowering then stripping equals stripping then lowering |
| Generator.TitleMatchesPromptWord | notion_english_page_creator.py:64 | the prompt's word equals the lowered title exactly when the lowered word has no surrounding whitespace |
| Scenarios.FirstRun | notion_english_page_creator.py:101-232 | for a word without a page, a five-line reply leads to a single create request for the page of those five values, and the result is whether that creation worked |
| Scenarios.FivePage | notion_english_page_creator.py:150-228 | that page is titled with the lowered word, checked, headed "<word> (<part of speech>)", and has each other value under its heading |
| Scenarios.FullWidthColon | notion_english_page_creator.py:127-143 | a line "意味：…" with a full-width colon opens no section: it is appended to the part of speech, and the meaning stays empty |

## Left out

- The Notion calls are not modelled: `databases.query`, `pages.update(archived=True)`
  and `pages.create`. Their outcomes are the boolean parameters `archived` and
  `created` of `Writer.Write`. A create request is a `Page` value; the JSON envelope of
  each block (`object`, `type`, `rich_text`) is not modelled.
- The OpenAI call and the prompt template (`:66-84`) are not modelled; the reply is an
  arbitrary string. `generate_explanation_from_chatgpt` returning `None`, and `main`
  skipping such words, belong to the batch loop.
- `main` and `get_unprocessed_words` (`:27-57`, `:237-259`) are not modelled. They only
  iterate over remote results.
- Environment loading, client construction and every `logger` call are not modelled,
  because they are configuration and side effects only.
- Exceptions are not modelled. The parser and the page construction cannot raise, so
  the `try`/`except` around the function only matters for the two remote calls. It
  appears as `created` (and as `archived`, which `delete_notion_page` reports).
- Text.ToLower: maps only ASCII `A`-`Z`. Python's `lower()` also lowers other scripts'
  capitals.
- Text.Lower: inherits this ASCII-only mapping, so the title and the prompt's word are
  modelled correctly only for words whose capitals are ASCII.
- Text.IsSpace: lists Python's `str.isspace()` characters explicitly; Unicode
  normalisation plays no part.
