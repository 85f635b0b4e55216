/**
 `convertTextToMarkdown`: one left-to-right pass over the lines of a plain-text
 document. A small state (inside the table of contents?, has it ended?, how many
 blank lines in a row?) is carried from line to line, and each line is rewritten
 into exactly one output line by a fixed-priority cascade: blank line, the
 table-of-contents title `目錄`, a line inside the table of contents, a heading,
 a list item, plain text.

 The pass is written twice: `StateAt`/`OutputLine` define the state before each
 line and the line it produces as a fold, and the method `ConvertTextToMarkdown`
 runs the converter's loop and is proved to produce the same lines.
 */
module TextToMarkdown {
  import opened Strings
  import opened Patterns
  import opened Classifier

  /** The loop's variables `inTOC`, `tocEnded` and `consecutiveEmptyLines`. */
  datatype ScanState = ScanState(inToc: bool, tocEnded: bool, emptyRun: nat)

  const Start: ScanState := ScanState(false, false, 0)

  /** What a line was recognised as. */
  datatype LineKind = Blank | TocHeading | TocEntry | Heading(level: nat) | ListItem | Paragraph

  /** A line that `trim` empties. */
  predicate IsBlank(line: string) {
    Trim(line) == []
  }

  /** The state after a line whose trimmed text is `t`. Only a `目錄` line
      opens the table of contents, only a second blank line in a row inside it
      ends it, and an ended table of contents stays ended. */
  function NextState(st: ScanState, t: string): (r: ScanState)
    ensures r.emptyRun == if t == [] then st.emptyRun + 1 else 0
    ensures r.inToc && !st.inToc ==> !st.tocEnded && IsTocHeader(t)
    ensures r.tocEnded != st.tocEnded ==> st.inToc && t == [] && st.emptyRun >= 1 && !r.inToc
    ensures st.inToc && !r.inToc ==> t == [] && st.emptyRun >= 1 && r.tocEnded
    ensures st.tocEnded ==> r.tocEnded
  {
    if t == [] then
      var run := st.emptyRun + 1;
      if st.inToc && run >= 2 then ScanState(false, true, run) else st.(emptyRun := run)
    else if !st.tocEnded && IsTocHeader(t) then ScanState(true, st.tocEnded, 0)
    else st.(emptyRun := 0)
  }

  /** What line `i`, whose trimmed text is `t`, is recognised as in state `st`:
      the first rule of the cascade that applies. */
  function Classify(st: ScanState, t: string, lines: seq<string>, i: nat): (k: LineKind)
    ensures k == Blank <==> t == []
    ensures k == TocHeading <==> t != [] && !st.tocEnded && IsTocHeader(t)
    ensures k == TocEntry ==> st.inToc
    ensures k.Heading? ==> !st.inToc && 1 <= k.level <= 5 && k.level == DetectHeadingLevel(t, i, lines)
    ensures k == ListItem ==> !st.inToc && DetectHeadingLevel(t, i, lines) == 0 && IsListItem(t)
    ensures k == Paragraph ==> !st.inToc && DetectHeadingLevel(t, i, lines) == 0 && !IsListItem(t)
  {
    if t == [] then Blank
    else if !st.tocEnded && IsTocHeader(t) then TocHeading
    else if st.inToc then TocEntry
    else
      var level := DetectHeadingLevel(t, i, lines);
      if level > 0 then Heading(level)
      else if IsListItem(t) then ListItem
      else Paragraph
  }

  /** The text pushed for a line of the given kind; `t` is the trimmed line.
      Only a blank line, or an empty entry or paragraph, pushes nothing, and a
      list item always starts with `- `; `HeadingLine` gives a heading's text. */
  function Emit(kind: LineKind, t: string): (r: string)
    ensures r == [] <==> kind == Blank || (t == [] && (kind == TocEntry || kind == Paragraph))
    ensures kind == ListItem ==> StartsWithDash(r)
  {
    match kind
    case Blank => ""
    case TocHeading => "# " + t
    case TocEntry => t
    case Heading(level) => Repeat('#', level) + " " + CleanTitleText(t)
    case ListItem => ConvertToListItem(t)
    case Paragraph => t
  }

  /** The state before line `i`. */
  function StateAt(lines: seq<string>, i: nat): ScanState
    requires i <= |lines|
    decreases i
  {
    if i == 0 then Start else NextState(StateAt(lines, i - 1), Trim(lines[i - 1]))
  }

  function KindAt(lines: seq<string>, i: nat): LineKind
    requires i < |lines|
  {
    Classify(StateAt(lines, i), Trim(lines[i]), lines, i)
  }

  /** The output line for input line `i`. */
  function OutputLine(lines: seq<string>, i: nat): string
    requires i < |lines|
  {
    Emit(KindAt(lines, i), Trim(lines[i]))
  }

  /** The output lines of the first `n` input lines: one per input line, in order. */
  function ConvertPrefix(lines: seq<string>, n: nat): (out: seq<string>)
    requires n <= |lines|
    ensures |out| == n
    ensures forall k :: 0 <= k < n ==> out[k] == OutputLine(lines, k)
    decreases n
  {
    if n == 0 then [] else
      var prev := ConvertPrefix(lines, n - 1);
      var last := OutputLine(lines, n - 1);
      SnocIndex(prev, last);
      prev + [last]
  }

  lemma SnocIndex(prev: seq<string>, last: string)
    ensures forall k :: 0 <= k < |prev| ==> (prev + [last])[k] == prev[k]
    ensures (prev + [last])[|prev|] == last
  {
  }

  /** The output lines, one per input line. */
  function ConvertLines(lines: seq<string>): seq<string>
  {
    ConvertPrefix(lines, |lines|)
  }

  /** Number of blank lines immediately before line `i`. */
  function BlanksBefore(lines: seq<string>, i: nat): nat
    requires i <= |lines|
    decreases i
  {
    if i == 0 || !IsBlank(lines[i - 1]) then 0 else BlanksBefore(lines, i - 1) + 1
  }

  /** `convertTextToMarkdown`. Splitting the result into lines gives exactly the
      per-line outputs of the input's lines, so the line count is kept. */
  method ConvertTextToMarkdown(plainText: string) returns (markdown: string)
    ensures SplitLines(markdown) == ConvertLines(SplitLines(plainText))
    ensures |SplitLines(markdown)| == |SplitLines(plainText)|
  {
    var lines := SplitLines(plainText);
    var result: seq<string> := [];
    var st := Start;
    var i := 0;
    while i < |lines|
      invariant i <= |lines|
      invariant st == StateAt(lines, i)
      invariant result == ConvertPrefix(lines, i)
    {
      var t := Trim(lines[i]);
      var out := Emit(Classify(st, t, lines, i), t);
      assert ConvertPrefix(lines, i + 1) == result + [out] by {
        assert out == OutputLine(lines, i);
      }
      result := result + [out];
      assert NextState(st, t) == StateAt(lines, i + 1);
      st := NextState(st, t);
      i := i + 1;
    }
    assert result == ConvertLines(lines);
    ConvertedTextSplits(plainText);
    markdown := JoinLines(result);
  }

  /** The converted lines of a text, joined, split back into themselves. */
  lemma ConvertedTextSplits(plainText: string)
    ensures var out := ConvertLines(SplitLines(plainText));
            SplitLines(JoinLines(out)) == out && |out| == |SplitLines(plainText)|
  {
    SplitLinesNoNewline(plainText);
    ConvertLinesJoin(SplitLines(plainText));
  }

  /** The output lines hold no newline, so joining and splitting them again
      gives them back. */
  lemma ConvertLinesJoin(lines: seq<string>)
    requires |lines| >= 1
    requires forall k :: 0 <= k < |lines| ==> NoNewline(lines[k])
    ensures |ConvertLines(lines)| == |lines|
    ensures SplitLines(JoinLines(ConvertLines(lines))) == ConvertLines(lines)
  {
    var out := ConvertLines(lines);
    forall k | 0 <= k < |out|
      ensures NoNewline(out[k])
    {
      OutputLineNoNewline(lines, k);
    }
    SplitJoin(out);
  }

  // ------------------------------------------------------------------
  // Properties of the pass
  // ------------------------------------------------------------------

  /** The blank-line counter counts the blank lines just before the current one,
      and inside the table of contents it never reaches 2 and the table of
      contents has not ended. */
  lemma {:induction false} StateInvariant(lines: seq<string>, i: nat)
    requires i <= |lines|
    ensures StateAt(lines, i).emptyRun == BlanksBefore(lines, i)
    ensures StateAt(lines, i).inToc ==> !StateAt(lines, i).tocEnded && StateAt(lines, i).emptyRun <= 1
    decreases i
  {
    if i > 0 {
      var prev := StateAt(lines, i - 1);
      var t := Trim(lines[i - 1]);
      StateInvariant(lines, i - 1);
      NextStateKeepsInvariant(prev, t);
      assert StateAt(lines, i) == NextState(prev, t);
      assert BlanksBefore(lines, i) == if t == [] then BlanksBefore(lines, i - 1) + 1 else 0;
    }
  }

  /** One step of the invariant above, on the state alone. */
  lemma NextStateKeepsInvariant(st: ScanState, t: string)
    requires st.inToc ==> !st.tocEnded && st.emptyRun <= 1
    ensures NextState(st, t).emptyRun == if t == [] then st.emptyRun + 1 else 0
    ensures NextState(st, t).inToc ==> !NextState(st, t).tocEnded && NextState(st, t).emptyRun <= 1
  {
  }

  /** Once the table of contents has ended it stays ended. */
  lemma {:induction false} TocEndedPersists(lines: seq<string>, i: nat, j: nat)
    requires i <= j <= |lines|
    requires StateAt(lines, i).tocEnded
    ensures StateAt(lines, j).tocEnded
    decreases j
  {
    if i < j {
      TocEndedPersists(lines, i, j - 1);
      NextStateKeepsEnded(StateAt(lines, j - 1), Trim(lines[j - 1]));
    }
  }

  lemma NextStateKeepsEnded(st: ScanState, t: string)
    ensures st.tocEnded ==> NextState(st, t).tocEnded
  {
  }

  /** Inside the table of contents, a blank line ends it exactly when the line
      before was blank too: the second blank in a row closes it. */
  lemma TocClosesOnSecondBlank(lines: seq<string>, i: nat)
    requires i < |lines|
    requires StateAt(lines, i).inToc
    requires IsBlank(lines[i])
    ensures StateAt(lines, i + 1).tocEnded <==> i > 0 && IsBlank(lines[i - 1])
    ensures StateAt(lines, i + 1).inToc <==> !(i > 0 && IsBlank(lines[i - 1]))
  {
    StateInvariant(lines, i);
  }

  /** After the table of contents has ended, no line is treated as its title or
      as one of its entries: every later line goes through the heading and list
      rules. */
  lemma NoTocAfterEnd(lines: seq<string>, i: nat, j: nat)
    requires i <= j < |lines|
    requires StateAt(lines, i).tocEnded
    ensures !KindAt(lines, j).TocHeading? && !KindAt(lines, j).TocEntry?
  {
    TocEndedPersists(lines, i, j);
    StateInvariant(lines, j);
  }

  /** Before the table of contents has ended, a `目錄` line is emitted as a
      first-level heading and opens the table of contents. */
  lemma TocTitleOpens(lines: seq<string>, i: nat)
    requires i < |lines|
    requires !StateAt(lines, i).tocEnded
    requires IsTocHeader(Trim(lines[i]))
    ensures OutputLine(lines, i) == "# " + Trim(lines[i])
    ensures StateAt(lines, i + 1).inToc
  {
  }

  /** Inside the table of contents a non-blank line keeps the reader inside it:
      only a second blank line in a row leaves it. */
  lemma TocStaysOpen(lines: seq<string>, i: nat)
    requires i < |lines|
    requires StateAt(lines, i).inToc && !IsBlank(lines[i])
    ensures StateAt(lines, i + 1).inToc
  {
  }

  /** Inside the table of contents a non-blank line that is not a `目錄` line is
      copied trimmed, never turned into a heading or a list item. */
  lemma TocEntryVerbatim(lines: seq<string>, i: nat)
    requires i < |lines|
    requires StateAt(lines, i).inToc
    requires !IsBlank(lines[i]) && !IsTocHeader(Trim(lines[i]))
    ensures KindAt(lines, i) == TocEntry
    ensures OutputLine(lines, i) == Trim(lines[i])
  {
  }

  /** An output line is empty exactly when its input line is blank; blank lines
      are neither dropped nor merged. */
  lemma BlankLinesKept(lines: seq<string>, i: nat)
    requires i < |lines|
    ensures OutputLine(lines, i) == "" <==> IsBlank(lines[i])
  {
    var t := Trim(lines[i]);
    match KindAt(lines, i)
    case Blank =>
    case TocHeading =>
    case TocEntry =>
    case Heading(level) =>
      assert (Repeat('#', level) + " " + CleanTitleText(t))[|Repeat('#', level)|] == ' ';
    case ListItem =>
    case Paragraph =>
  }

  /** A `目錄` line is not a major section: the two rules never compete. */
  lemma TocHeaderIsNotMajor(t: string)
    ensures IsTocHeader(t) ==> !MajorSectionSpec(t)
  {
    if IsTocHeader(t) {
      assert t[..2] == TocTitle;
      assert IsMajorSection(t) == false;
    }
  }

  /** Outside the table of contents, a non-blank line that is not a `目錄` line
      and has a heading level is emitted as a heading of that level. */
  lemma HeadingKind(st: ScanState, t: string, lines: seq<string>, i: nat)
    requires !st.inToc && t != [] && !IsTocHeader(t)
    requires DetectHeadingLevel(t, i, lines) > 0
    ensures Classify(st, t, lines, i) == Heading(DetectHeadingLevel(t, i, lines))
  {
  }

  /** Outside the table of contents, a major-section line always becomes a
      level-1 heading, whatever the numbered or short-line rules would say. */
  lemma MajorSectionWins(lines: seq<string>, i: nat)
    requires i < |lines|
    requires !StateAt(lines, i).inToc
    requires MajorSectionSpec(Trim(lines[i]))
    ensures KindAt(lines, i) == Heading(1)
    ensures OutputLine(lines, i) == "# " + CleanTitleText(Trim(lines[i]))
  {
    var t := Trim(lines[i]);
    assert KindAt(lines, i) == Heading(1) by {
      MajorKind(StateAt(lines, i), t, lines, i);
    }
    assert Emit(Heading(1), t) == "# " + CleanTitleText(t) by {
      HeadingLine(1, "# ", t);
    }
  }

  /** A heading line is the level's `#` marks, a space and the cleaned title. */
  lemma HeadingLine(level: nat, marker: string, t: string)
    requires |marker| == level + 1 && marker[level] == ' '
    requires forall k :: 0 <= k < level ==> marker[k] == '#'
    ensures Emit(Heading(level), t) == marker + CleanTitleText(t)
  {
    assert Repeat('#', level) + " " == marker;
  }

  lemma MajorKind(st: ScanState, t: string, lines: seq<string>, i: nat)
    requires !st.inToc && MajorSectionSpec(t)
    ensures Classify(st, t, lines, i) == Heading(1)
  {
    DetectHeadingLevelSpec(t, i, lines);
    TocHeaderIsNotMajor(t);
    assert t != [] by {
      assert IsMajorSection(t);
    }
    HeadingKind(st, t, lines, i);
  }

  /** Outside the table of contents, a line that is not a major section and
      starts with a numbered prefix of `n` parts becomes a heading of level
      2, 3, 4 for `n` = 1, 2, 3 and of level 5 below that. */
  lemma NumberedHeading(lines: seq<string>, i: nat, j: nat)
    requires i < |lines|
    requires !StateAt(lines, i).inToc
    requires !MajorSectionSpec(Trim(lines[i]))
    requires LongestNumberedMatch(Trim(lines[i]), j)
    ensures KindAt(lines, i) == Heading(NumberedLevel(ComponentCount(Trim(lines[i])[..j])))
    ensures OutputLine(lines, i) ==
      Repeat('#', NumberedLevel(ComponentCount(Trim(lines[i])[..j]))) + " " + CleanTitleText(Trim(lines[i]))
  {
    NumberedKind(StateAt(lines, i), Trim(lines[i]), lines, i, j);
  }

  lemma NumberedKind(st: ScanState, t: string, lines: seq<string>, i: nat, j: nat)
    requires !st.inToc && !MajorSectionSpec(t) && LongestNumberedMatch(t, j)
    ensures Classify(st, t, lines, i) == Heading(NumberedLevel(ComponentCount(t[..j])))
  {
    DetectHeadingLevelSpec(t, i, lines);
    assert t != [] && IsDigit(t[0]) by {
      assert t[..j][0] == t[0];
    }
    assert !IsTocHeader(t) by {
      assert t[0] != '目';
    }
    HeadingKind(st, t, lines, i);
  }

  /** Outside the table of contents, a line that no earlier rule claims becomes a
      level-3 heading exactly when the short-line rule holds. */
  lemma ShortLineHeadingRule(lines: seq<string>, i: nat)
    requires i < |lines|
    requires !StateAt(lines, i).inToc
    requires !IsBlank(lines[i]) && !IsTocHeader(Trim(lines[i]))
    requires !MajorSectionSpec(Trim(lines[i]))
    requires forall j: nat :: j <= |Trim(lines[i])| ==> !NumberedMatchAt(Trim(lines[i]), j)
    ensures KindAt(lines, i) == Heading(3) <==> ShortLineHeading(Trim(lines[i]), i, lines)
  {
    DetectHeadingLevelSpec(Trim(lines[i]), i, lines);
  }

  /** List handling only applies to lines that are not headings, and its output
      is the normalised list item, always a `- ` item. */
  lemma ListItemLine(lines: seq<string>, i: nat)
    requires i < |lines|
    requires KindAt(lines, i) == ListItem
    ensures DetectHeadingLevel(Trim(lines[i]), i, lines) == 0
    ensures IsListItem(Trim(lines[i]))
    ensures OutputLine(lines, i) == ConvertToListItem(Trim(lines[i]))
    ensures StartsWithDash(OutputLine(lines, i))
  {
  }

  /** A line that no rule claims is kept as a paragraph: copied trimmed. */
  lemma ParagraphVerbatim(lines: seq<string>, i: nat)
    requires i < |lines|
    requires KindAt(lines, i) == Paragraph
    ensures OutputLine(lines, i) == Trim(lines[i])
  {
  }

  /** Every output line comes from its input line and the marks `#`, `-` and
      space, so it holds no newline when the input line holds none. */
  lemma OutputLineNoNewline(lines: seq<string>, i: nat)
    requires i < |lines|
    requires NoNewline(lines[i])
    ensures NoNewline(OutputLine(lines, i))
  {
    TrimNoNewline(lines[i]);
    EmitNoNewline(KindAt(lines, i), Trim(lines[i]));
  }

  lemma TrimNoNewline(s: string)
    requires NoNewline(s)
    ensures NoNewline(Trim(s))
  {
    TrimPadded(s);
    var t := Trim(s);
    var b := TrimStart(s);
    assert forall k :: 0 <= k < |t| ==> t[k] == s[b + k];
  }

  lemma EmitNoNewline(kind: LineKind, t: string)
    requires NoNewline(t) && IsTrimmed(t)
    ensures NoNewline(Emit(kind, t))
  {
    match kind
    case Blank =>
    case TocHeading =>
    case TocEntry =>
    case Heading(level) =>
      CleanTitleNoNewline(t);
    case ListItem =>
      ListItemNoNewline(t);
    case Paragraph =>
  }

  lemma CleanTitleNoNewline(t: string)
    requires NoNewline(t) && IsTrimmed(t)
    ensures NoNewline(CleanTitleText(t))
  {
    var c := CleanTitleText(t);
    assert forall k :: 0 <= k < |c| ==> c[k] == t[k];
  }

  lemma ListItemNoNewline(t: string)
    requires NoNewline(t)
    ensures NoNewline(ConvertToListItem(t))
  {
    if !StartsWithDash(t) {
      var rest := ListItemText(t);
      SuffixNoNewline(t, |t| - |rest|);
      DashNoNewline(rest);
    }
  }

  lemma DashNoNewline(rest: string)
    requires NoNewline(rest)
    ensures NoNewline("- " + rest)
  {
    var r := "- " + rest;
    assert forall k :: 2 <= k < |r| ==> r[k] == rest[k - 2];
  }
}
