# Text-to-Markdown conversion and heading ids of AI-Textbook-Converter

This project models the logic at the core of the textbook converter.

The model covers two pieces of that logic:

- **`convertTextToMarkdown`** (src/textToMarkdown.js) turns a plain-text textbook into Markdown.
  - It walks the lines once. Three pieces of state are carried from line to line:
    - whether the walk is inside the table of contents;
    - whether the table of contents has ended;
    - how many blank lines came in a row.
  - Each line becomes exactly one output line. A fixed cascade of rules decides how:
    1. a blank line stays blank;
    2. while the table of contents has not yet ended, a line that trims to exactly `目錄`, with or without an ASCII or full-width colon after it, becomes a level-1 heading and opens the table of contents; once it has ended, such a line goes on to the later rules like any other;
    3. a line inside the table of contents is copied, trimmed;
    4. a heading becomes `#` marks plus the cleaned title. The level comes from the major-section, numbered-outline and short-line rules.
    5. a list item is normalised to `- `;
    6. any other line is kept as a paragraph.
- **The HTML side of `markdownToHTML`** (src/converter.js):
  - the overridden `heading_open` rule gives every heading an id `section-k`;
  - the same rule records each h1/h2 heading as a table-of-contents item;
  - the item list is reset before every render;
  - `generateTOCHTML` prints the table of contents from those items.

Most regular expressions of the converter appear twice in the model:

- a ghost predicate says what it means for the expression to match, with an existential over the split points a backtracking engine may choose;
- an executable function is what the converter calls.

A lemma or the function's own contract ties the two together, in both directions. Three simple expressions have no separate ghost predicate; their executable functions' contracts say what they match or remove:

- `/^目錄[:：]?$/` (`IsTocHeader`: exactly three strings);
- `/[.…]+$/` (`StripDotLeaders` and `StripDotLeadersSpec`);
- `/^[•●○◦▪▫-]\s*/` (`StripBullet` and `StripBulletSpec`, used by `ConvertToListItemStrips`).

Examples of what the two-sided reading covers:

- the numbered-outline expression `/^(\d+(?:\.\d+)*)[.\s]+(.+)/` reports the longest capture group that still lets the rest match;
- each `replace` in `cleanTitleText` removes the leftmost match and nothing else.

The main loop is written twice:

- as a reference fold: `StateAt` gives the state before each line, and `OutputLine` gives the line it produces;
- as the method `ConvertTextToMarkdown`, with the same loop as the converter, proved to produce exactly the reference lines.

The heading rule is written twice as well:

- as a left fold over the parser's tokens (`RenderPrefix`);
- as an independent description of which token gets which id and item (`TocIndices`, `RecordedItems`, `TagFor`).

`MarkdownToHtmlSpec` connects the two.

Files:

- `strings.dfy`:
  - `Options`: an option type;
  - `Strings`: the white-space set of `trim`, `trim` itself, `split('\n')` and `join('\n')`, and greedy runs of a character class.
- `patterns.dfy`: the converter's regular expressions.
- `classifier.dfy`: `detectHeadingLevel`, `cleanTitleText` and `convertToListItem`.
- `text_to_markdown.dfy`: the line-by-line pass and its properties.
- `heading_ids.dfy`: heading ids, table-of-contents items and the table-of-contents HTML.

## Model

| member | source | states |
|---|---|---|
| Strings.Trim | src/textToMarkdown.js:18 | the trimmed line has no white space at either end, is empty exactly when the line is all white space, and is no longer than the line |
| Strings.TrimPadded | src/textToMarkdown.js:18 | the trimmed line occurs in the line with only white space before and after it |
| Strings.TrimUnique | src/textToMarkdown.js:18 | any string with no white space at its ends that occurs in the line with only white space around it is the trimmed line, so `trim` is fixed by that description |
| Strings.SplitLines | src/textToMarkdown.js:10 | `split('\n')` gives at least one piece; the first piece is the text up to the first newline, or the whole text when there is none. `SplitLinesNoNewline` and `JoinSplit` give the rest. |
| Strings.JoinLines | src/textToMarkdown.js:65 | `join('\n')` starts with the first line, followed by a newline when more lines follow; `JoinSplit` and `SplitJoin` show it is the inverse of the split |
| Strings.SplitLinesNoNewline | src/textToMarkdown.js:10 | no piece of `split('\n')` contains a newline |
| Strings.JoinSplit | src/textToMarkdown.js:10 | joining the pieces of a split with `\n` gives back the original text |
| Strings.SplitJoin | src/textToMarkdown.js:65 | splitting the `\n`-join of newline-free lines gives back those lines |
| Patterns.IsMajorSection | src/textToMarkdown.js:71-74 | true exactly when the line starts with one of the seven keywords, or with `第`, chapter numerals and `章`, either way followed at once by an ASCII or full-width colon |
| Patterns.NumberedPartsSpec | src/textToMarkdown.js:90-93 | a count is reported exactly when the numbered-outline expression matches; the count is the number of `.`-separated parts of the longest capture that lets the rest of the expression match, which is the capture a backtracking engine returns |
| Patterns.HasNumberedLead | src/textToMarkdown.js:110 | true exactly when the line starts with one or more digits or dots followed by white space |
| Patterns.OrdinalMarkerEndSpec | src/textToMarkdown.js:135 | the marker found is an ordinal marker, and it is the only one the line starts with |
| Patterns.IsTocHeader | src/textToMarkdown.js:37 | `/^目錄[:：]?$/` holds for exactly three strings: `目錄`, and `目錄` followed by an ASCII or a full-width colon |
| Patterns.IsListItemSpec | src/textToMarkdown.js:132-136 | true exactly when the line starts with a bullet glyph and white space, or with `[\da-z]+`, `.` or `)`, and white space |
| Classifier.DetectHeadingLevelSpec | src/textToMarkdown.js:80-116 | level 1 exactly for a major section. Otherwise, when the numbered expression matches, levels 2, 3, 4 for one, two or three parts and level 5 beyond. Otherwise level 3 exactly when the short-line rule holds (under 30 characters, not the last line, next line over 30 characters and not starting with a numbered lead), and level 0 when it does not. |
| Classifier.StripPageNumberSpec | src/textToMarkdown.js:123 | what is removed is a match of `[.…]+\d+$`, and no match starts earlier |
| Classifier.StripDotLeaders | src/textToMarkdown.js:124 | the result is a prefix that does not end in `.` or `…` |
| Classifier.StripDotLeadersSpec | src/textToMarkdown.js:124 | everything removed is `.` or `…` |
| Classifier.StripColonTailSpec | src/textToMarkdown.js:125 | what is removed is a match of `[:：]\s*$`, and no match starts earlier |
| Classifier.CleanTitleText | src/textToMarkdown.js:121-127 | the cleaned title has no white space at its ends, and for a trimmed title it is a prefix of the title |
| Classifier.NothingToClean | src/textToMarkdown.js:121-127 | a trimmed title that ends in none of the removed suffixes is returned unchanged |
| Classifier.StripBulletSpec | src/textToMarkdown.js:148 | when something is removed, it is one bullet glyph and only white space after it, and what is left does not start with white space |
| Classifier.StripOrdinalSpec | src/textToMarkdown.js:149 | when something is removed, it is one ordinal marker and white space. When nothing is removed, the line starts with no ordinal marker. What is left does not start with white space. |
| Classifier.ConvertToListItem | src/textToMarkdown.js:141-150 | the result always starts with `- ` and is a list item. A line already starting with `- ` is kept; otherwise the text after `- ` is a suffix of the line. |
| Classifier.ConvertToListItemStrips | src/textToMarkdown.js:141-150 | a line not already starting with `- ` splits as bullet part, marker part and rest, and becomes `- ` plus the rest. The bullet part is empty when there is no leading bullet, else one bullet and all the white space after it. The marker part is empty when the remainder has no leading ordinal marker, else the marker and all the white space after it. |
| Classifier.ConvertToListItemIdempotent | src/textToMarkdown.js:141-150 | normalising a list item twice gives the same line as normalising it once |
| TextToMarkdown.ConvertTextToMarkdown | src/textToMarkdown.js:9-66 | splitting the output into lines gives, for every input line in order, the line the cascade produces for it; so the line count is kept |
| TextToMarkdown.NextState | src/textToMarkdown.js:21-38 | the blank-line counter goes up on a blank line and back to 0 otherwise. Only a `目錄` line, before the table of contents has ended, opens it. Only a blank line that follows another blank line inside it ends it: that is the only way out of the table of contents, and leaving it also sets the end. An ended table of contents stays ended. `StateInvariant` and `TocClosesOnSecondBlank` build on this. |
| TextToMarkdown.Classify | src/textToMarkdown.js:21-62 | the first rule of the cascade that applies. A line is blank exactly when trimming empties it. It is the table-of-contents title exactly when it is non-blank, the table of contents has not ended, and it matches `/^目錄[:：]?$/`. An entry only occurs inside the table of contents. Heading, list item and paragraph only occur outside it: a heading carries `detectHeadingLevel`'s non-zero level (at most 5); a list item has level 0 and passes `isListItem`; a paragraph has level 0 and fails it. |
| TextToMarkdown.Emit | src/textToMarkdown.js:23-61 | the line pushed is empty exactly for a blank line, or for an empty entry or paragraph, and a list item's line starts with `- `. `HeadingLine` gives a heading's `#` marks, space and cleaned title; `ListItemLine` gives a list item's normalised line; `ParagraphVerbatim` and `TocEntryVerbatim` give the trimmed line for a paragraph and an entry. |
| TextToMarkdown.ConvertPrefix | src/textToMarkdown.js:16-63 | the lines pushed for the first `n` input lines are one per input line, in order |
| TextToMarkdown.ConvertLinesJoin | src/textToMarkdown.js:65 | the output lines contain no newline, so joining and splitting them gives them back |
| TextToMarkdown.StateInvariant | src/textToMarkdown.js:12-34 | the blank-line counter equals the number of blank lines just before the current one; inside the table of contents the counter is at most 1 and the table of contents has not ended |
| TextToMarkdown.TocEndedPersists | src/textToMarkdown.js:26-29 | once the table of contents has ended it stays ended |
| TextToMarkdown.TocClosesOnSecondBlank | src/textToMarkdown.js:21-31 | inside the table of contents, a blank line ends it exactly when the previous line was blank too |
| TextToMarkdown.NoTocAfterEnd | src/textToMarkdown.js:37-47 | after the table of contents has ended, no line is treated as its title or as one of its entries |
| TextToMarkdown.TocTitleOpens | src/textToMarkdown.js:37-41 | before the table of contents has ended, a `目錄` line is output as `# ` plus the line and opens the table of contents |
| TextToMarkdown.TocStaysOpen | src/textToMarkdown.js:21-31 | inside the table of contents a non-blank line leaves the reader inside it, since only the second blank line in a row clears the flag |
| TextToMarkdown.TocEntryVerbatim | src/textToMarkdown.js:44-47 | inside the table of contents, a non-blank line that is not a `目錄` line is copied trimmed |
| TextToMarkdown.BlankLinesKept | src/textToMarkdown.js:21-24 | an output line is empty exactly when its input line is blank |
| TextToMarkdown.TocHeaderIsNotMajor | src/textToMarkdown.js:71-74 | a `目錄` line is never a major section |
| TextToMarkdown.MajorSectionWins | src/textToMarkdown.js:50-55 | outside the table of contents a major-section line is output as `# ` plus its cleaned title, whatever the other rules say |
| TextToMarkdown.NumberedHeading | src/textToMarkdown.js:90-104 | outside the table of contents a numbered line that is not a major section is output with the number of `#` marks its part count gives, then the cleaned title |
| TextToMarkdown.ShortLineHeadingRule | src/textToMarkdown.js:106-113 | a line that no earlier rule claims becomes a level-3 heading exactly when the short-line rule holds |
| TextToMarkdown.ListItemLine | src/textToMarkdown.js:56-58 | a line handled as a list item has heading level 0, is a list item, and is output as `convertToListItem` of the trimmed line, which starts with `- ` |
| TextToMarkdown.ParagraphVerbatim | src/textToMarkdown.js:59-62 | a line that no rule claims is output as the trimmed line |
| TextToMarkdown.OutputLineNoNewline | src/textToMarkdown.js:17-62 | an output line contains no newline when its input line contains none |
| HeadingIds.NatToDecimalRoundTrip | src/converter.js:35 | the printed number has no leading zero and reads back as the number |
| HeadingIds.SectionIdInjective | src/converter.js:35 | two slugs are equal exactly when their numbers are |
| HeadingIds.HeadingOpenRule | src/converter.js:24-47 | the item list only grows at its end, and by one item exactly for an h1 or h2 heading. The new item carries the heading's level and the id printed in its tag. |
| HeadingIds.RenderPrefix | src/converter.js:24-47 | rendering the first `n` tokens gives one tag slot per token, and the item list is the earlier list followed by as many items as there are h1/h2 headings among them; `RenderItems` and `RenderTags` say which items and tags |
| HeadingIds.RenderItems | src/converter.js:35-44 | after rendering, the item list is the earlier list followed by one item per h1/h2 heading, in order; with `p` earlier items, the `m`-th new item has slug `section-(p+m+1)` |
| HeadingIds.RenderTags | src/converter.js:35-46 | every heading token's opening tag carries its own level and the id `section-(c+1)`, where `c` counts the items recorded before it |
| HeadingIds.SlugMatchesTag | src/converter.js:28-46 | the `m`-th recorded item has its heading's level, the next token's text as title, and the same id as that heading's opening tag |
| HeadingIds.LowerLevelSharesId | src/converter.js:35-44 | a heading below h2 gets the same id as the next h1/h2 heading, so ids are not unique across levels |
| HeadingIds.TocIdsDistinct | src/converter.js:35-46 | two h1/h2 headings never share an id, neither in the tag nor in its printed form |
| HeadingIds.OpenTagHtmlIdUnique | src/converter.js:46 | printed opening tags whose levels have the same length are equal only when their ids are |
| HeadingIds.GenerateTocHtml | src/converter.js:226-254 | the table of contents is empty exactly when there are no items |
| HeadingIds.TocEntriesInOrder | src/converter.js:235-243 | the entries are one per item, in the items' order, with item `m`'s entry between those of the items before and after it |
| HeadingIds.GenerateTocHtmlEntries | src/converter.js:226-254 | a non-empty table of contents is the fixed header, then the entries in order, then the fixed footer |
| HeadingIds.MarkdownToHtml | src/converter.js:53-61 | the page has one opening-tag slot per token |
| HeadingIds.MarkdownToHtmlSpec | src/converter.js:53-61 | the table of contents lists exactly this document's h1/h2 headings, numbered from `section-1`, and every tag counts only this document's headings: nothing carries over from an earlier render |
| HeadingIds.EmptyTocIffNoTopHeadings | src/converter.js:53-61 | the table of contents is empty exactly when the document has no h1 or h2 heading |

## Left out

- Lengths are counted in Dafny characters, which are Unicode scalar values, not UTF-16 code units as in JavaScript. The `< 30` and `> 30` thresholds at src/textToMarkdown.js:107,110 give different answers for lines with characters outside the Basic Multilingual Plane. Lone surrogates cannot be represented. The CJK characters the converter matches are all in that plane.
- Markdown parsing by markdown-it (`md.render`, src/converter.js:58) is a library outside the model. Its output is taken as a sequence of `Token`s, each with a kind, a tag and a content. Only the `heading_open` rule's output is modelled; other tokens render as the library does, and that is not modelled.
- `Page` keeps only the table of contents and the opening heading tags. It drops `htmlBody` and the static HTML and CSS page template of `markdownToHTML` (src/converter.js:58, 64-220), which is fixed text with no logic.
- The module-level `tocItems` variable (src/converter.js:21) is passed through the fold as an explicit list. The reset at src/converter.js:55 is `MarkdownToHtml` starting from the empty list.
- Titles and levels go into the HTML without escaping, as in the source. The model keeps them as strings and states nothing about HTML well-formedness.
- `generatePDF` (Puppeteer), `generateWord` (pandoc through a shell) and src/server.js (HTTP routes, uploads, files) are I/O and out of scope.
- The converter has none of the following, and the model adds none of them:
  - marker-token extraction;
  - table-chunk segmentation and an external table-normalisation service;
  - a 45-character heading guard;
  - "Step N" and secondary-bullet rules;
  - page-break insertion;
  - collapsing of repeated blank lines.
