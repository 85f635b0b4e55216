/**
 The regular expressions of the text-to-Markdown converter. Most are written
 twice: once as a ghost predicate that says what it means for the expression to
 match (an existential over the split points a regex engine may choose), and
 once as the executable test the converter calls, whose contract ties it to the
 ghost predicate. The exception is the table-of-contents title `^目錄[:：]?$`
 (`IsTocHeader`), whose contract lists the three strings it accepts. Every expression is anchored with `^` and has no flags, so `$`
 means end of input, `\d` is `[0-9]`, and `.` is any character but a line
 terminator.
 */
module Patterns {
  import opened Options
  import opened Strings

  // ------------------------------------------------------------------
  // isMajorSection: /^(導論|前言|序言|附錄|結語|總結|結論)[:：]/ or
  //                 /^第[一二三四五六七八九十\d]+章[:：]/
  // ------------------------------------------------------------------

  /** The alternatives of the keyword group, in the order they are written. */
  const MajorKeywords: seq<string> := ["導論", "前言", "序言", "附錄", "結語", "總結", "結論"]

  /** An ASCII or full-width colon. */
  predicate IsColon(c: char) {
    c == ':' || c == '：'
  }

  /** `s` starts with keyword `w` and a colon right after it. */
  ghost predicate KeywordThenColon(s: string, w: string) {
    |w| < |s| && s[..|w|] == w && IsColon(s[|w|])
  }

  ghost predicate KeywordSectionSpec(s: string) {
    exists n :: 0 <= n < |MajorKeywords| && KeywordThenColon(s, MajorKeywords[n])
  }

  ghost predicate ChapterSectionSpec(s: string) {
    exists k: nat :: ChapterMarkerAt(s, k)
  }

  /** `第`, numerals up to index `k`, then `章` at `k` and a colon after it. */
  ghost predicate ChapterMarkerAt(s: string, k: nat) {
    && 2 <= k && k + 1 < |s|
    && s[0] == '第'
    && (forall j :: 1 <= j < k ==> IsChapterNumeral(s[j]))
    && s[k] == '章'
    && IsColon(s[k + 1])
  }

  ghost predicate MajorSectionSpec(s: string) {
    KeywordSectionSpec(s) || ChapterSectionSpec(s)
  }

  /** `isMajorSection`: a chapter-level keyword or `第…章`, always followed by a colon. */
  function IsMajorSection(s: string): (r: bool)
    ensures r <==> MajorSectionSpec(s)
  {
    var keyword := |s| >= 3 && s[..2] in MajorKeywords && IsColon(s[2]);
    var chapter :=
      |s| >= 1 && s[0] == '第' &&
      var e := RunEnd(s, 1, ChapterNumeralClass);
      2 <= e && e + 1 < |s| && s[e] == '章' && IsColon(s[e + 1]);
    KeywordSpecExact(s);
    ChapterSpecExact(s);
    keyword || chapter
  }

  lemma KeywordSpecExact(s: string)
    ensures KeywordSectionSpec(s) <==> (|s| >= 3 && s[..2] in MajorKeywords && IsColon(s[2]))
  {
    assert forall n :: 0 <= n < |MajorKeywords| ==> |MajorKeywords[n]| == 2;
    if |s| >= 3 && s[..2] in MajorKeywords && IsColon(s[2]) {
      var n :| 0 <= n < |MajorKeywords| && MajorKeywords[n] == s[..2];
      assert KeywordThenColon(s, MajorKeywords[n]);
    }
    if KeywordSectionSpec(s) {
      var n :| 0 <= n < |MajorKeywords| && KeywordThenColon(s, MajorKeywords[n]);
      assert |MajorKeywords[n]| == 2;
    }
  }

  lemma ChapterSpecExact(s: string)
    ensures ChapterSectionSpec(s) <==>
      (|s| >= 1 && s[0] == '第' &&
       var e := RunEnd(s, 1, ChapterNumeralClass);
       2 <= e && e + 1 < |s| && s[e] == '章' && IsColon(s[e + 1]))
  {
    if ChapterSectionSpec(s) {
      var k: nat :| ChapterMarkerAt(s, k);
      var e := RunEnd(s, 1, ChapterNumeralClass);
      RunEndAll(s, 1, ChapterNumeralClass);
      assert !IsChapterNumeral(s[k]);
      assert k == e;
    }
    if |s| >= 1 && s[0] == '第' {
      var e := RunEnd(s, 1, ChapterNumeralClass);
      RunEndAll(s, 1, ChapterNumeralClass);
      if 2 <= e && e + 1 < |s| && s[e] == '章' && IsColon(s[e + 1]) {
        assert ChapterMarkerAt(s, e);
      }
    }
  }

  // ------------------------------------------------------------------
  // The numbered-outline expression /^(\d+(?:\.\d+)*)[.\s]+(.+)/
  // ------------------------------------------------------------------

  /** What `\d+(?:\.\d+)*` matches in full: digit groups joined by single dots. */
  ghost predicate IsDottedNumber(t: string) {
    && |t| > 0 && IsDigit(t[0]) && IsDigit(t[|t| - 1])
    && (forall k :: 0 <= k < |t| ==> IsDigit(t[k]) || t[k] == '.')
    && (forall k :: 0 <= k < |t| - 1 && t[k] == '.' ==> t[k + 1] != '.')
  }

  /** `[.\s]+(.+)` can match starting at index `j`. */
  ghost predicate TextFollows(s: string, j: nat) {
    exists len: nat :: SeparatorRun(s, j, len)
  }

  /** `[.\s]` covers `s[j..j+len]` and `.` then matches the next character. */
  ghost predicate SeparatorRun(s: string, j: nat, len: nat) {
    && 1 <= len && j + len < |s|
    && (forall k :: j <= k < j + len ==> IsSepChar(s[k]))
    && !IsLineTerminator(s[j + len])
  }

  /** The whole expression matches with capture group 1 equal to `s[..j]`. */
  ghost predicate NumberedMatchAt(s: string, j: nat) {
    0 < j <= |s| && IsDottedNumber(s[..j]) && TextFollows(s, j)
  }

  /** The group a backtracking engine reports: the greedy quantifiers try the
      most `\.\d+` repetitions first, so the capture is the longest one that
      lets the rest of the expression match. */
  ghost predicate LongestNumberedMatch(s: string, j: nat) {
    NumberedMatchAt(s, j) && forall j': nat :: j < j' <= |s| ==> !NumberedMatchAt(s, j')
  }

  /** Number of `.` characters in `t`. */
  function DotCount(t: string): nat
  {
    if t == [] then 0 else DotCount(t[..|t| - 1]) + (if t[|t| - 1] == '.' then 1 else 0)
  }

  /** `t.split('.').length`. */
  function ComponentCount(t: string): nat
  {
    DotCount(t) + 1
  }

  /** Backtracking of the greedy `[.\s]+` over a run of `len` separator
      characters: give characters back one by one until `.` can match the next. */
  function SeparatorBacktrack(s: string, i: nat, len: nat): bool
    requires i + len <= |s|
    requires forall k :: i <= k < i + len ==> IsSepChar(s[k])
    decreases len
  {
    len > 0 && ((i + len < |s| && !IsLineTerminator(s[i + len])) || SeparatorBacktrack(s, i, len - 1))
  }

  /** Giving back separator characters succeeds exactly when some position after
      the first one, within the run or just past it, holds a character `.` matches. */
  lemma {:induction false} SeparatorBacktrackSpec(s: string, i: nat, len: nat)
    requires i + len <= |s|
    requires forall k :: i <= k < i + len ==> IsSepChar(s[k])
    ensures SeparatorBacktrack(s, i, len) <==> exists q :: i < q <= i + len && q < |s| && !IsLineTerminator(s[q])
    decreases len
  {
    if len > 0 {
      SeparatorBacktrackSpec(s, i, len - 1);
    }
  }

  /** Executable `TextFollows`. */
  function TextFollowsAt(s: string, i: nat): bool
    requires i <= |s|
  {
    var e := RunEnd(s, i, SepCharClass);
    RunEndAll(s, i, SepCharClass);
    SeparatorBacktrack(s, i, e - i)
  }

  lemma TextFollowsAtSpec(s: string, i: nat)
    requires i <= |s|
    ensures TextFollowsAt(s, i) <==> TextFollows(s, i)
  {
    var e := RunEnd(s, i, SepCharClass);
    RunEndAll(s, i, SepCharClass);
    TextFollowsWithin(s, i, e);
    SeparatorBacktrackSpec(s, i, e - i);
  }

  /** A separator run that lets `.` match never extends past the greedy run `s[i..e]`. */
  lemma TextFollowsWithin(s: string, i: nat, e: nat)
    requires i <= e <= |s|
    requires e == RunEnd(s, i, SepCharClass)
    ensures TextFollows(s, i) <==> exists q :: i < q <= e && q < |s| && !IsLineTerminator(s[q])
  {
    RunEndAll(s, i, SepCharClass);
    if exists q :: i < q <= e && q < |s| && !IsLineTerminator(s[q]) {
      var q :| i < q <= e && q < |s| && !IsLineTerminator(s[q]);
      assert SeparatorRun(s, i, q - i);
    }
    if TextFollows(s, i) {
      var len: nat :| SeparatorRun(s, i, len);
      assert e < |s| ==> !IsSepChar(s[e]);
      assert len <= e - i;
    }
  }

  lemma DotCountDigits(s: string, e: nat)
    requires e <= |s|
    requires forall k :: 0 <= k < e ==> IsDigit(s[k])
    ensures DotCount(s[..e]) == 0
    decreases e
  {
    if e > 0 {
      assert s[..e][..e - 1] == s[..e - 1];
      DotCountDigits(s, e - 1);
    }
  }

  lemma {:induction false} DotCountStep(s: string, i: nat, e: nat)
    requires i < e <= |s|
    requires s[i] == '.'
    requires forall k :: i < k < e ==> IsDigit(s[k])
    ensures DotCount(s[..e]) == DotCount(s[..i]) + 1
    decreases e
  {
    assert s[..e][..e - 1] == s[..e - 1];
    if e > i + 1 {
      DotCountStep(s, i, e - 1);
    }
  }

  /** A longer capture must continue the current one with `.` and a full digit group. */
  lemma ExtendMatch(s: string, i: nat, j: nat)
    requires 0 < i < j < |s|
    requires !IsDigit(s[i])
    requires IsDottedNumber(s[..j])
    requires !IsDigit(s[j])
    ensures i + 1 < |s| && s[i] == '.' && IsDigit(s[i + 1])
    ensures RunEnd(s, i + 1, DigitClass) <= j
  {
    assert s[..j][i] == s[i];
    assert s[..j][j - 1] == s[j - 1];
    assert s[..j][i + 1] == s[i + 1];
    var e := RunEnd(s, i + 1, DigitClass);
    RunEndAll(s, i + 1, DigitClass);
    assert forall k :: i + 1 <= k < e ==> IsDigit(s[k]);
  }

  lemma DottedStep(s: string, i: nat, e: nat)
    requires 0 < i && i + 1 < e <= |s|
    requires IsDottedNumber(s[..i])
    requires s[i] == '.'
    requires forall k :: i < k < e ==> IsDigit(s[k])
    ensures IsDottedNumber(s[..e])
  {
    var t := s[..e];
    assert forall k :: 0 <= k < i ==> t[k] == s[..i][k];
    assert IsDigit(s[..i][i - 1]);
  }

  /** The backtracking match of `(?:\.\d+)*[.\s]+(.+)` from index `i`, the end of
      a complete digit group; `parts` counts the groups consumed so far. The
      engine first tries one more `\.\d+` group and only falls back to the
      separator when that fails. */
  function NumberedFrom(s: string, i: nat, parts: nat): Option<nat>
    requires 0 < i <= |s|
    requires IsDottedNumber(s[..i]) && parts == ComponentCount(s[..i])
    requires i == |s| || !IsDigit(s[i])
    decreases |s| - i
  {
    var deeper :=
      if i + 1 < |s| && s[i] == '.' && IsDigit(s[i + 1]) then
        var e := RunEnd(s, i + 1, DigitClass);
        RunEndAll(s, i + 1, DigitClass);
        DottedStep(s, i, e);
        DotCountStep(s, i, e);
        NumberedFrom(s, e, parts + 1)
      else None;
    if deeper.Some? then deeper
    else if TextFollowsAt(s, i) then Some(parts)
    else None
  }

  /** `NumberedFrom` reports the part count of the longest capture starting at
      or after `i`, and reports nothing exactly when there is none. */
  lemma {:induction false} NumberedFromSpec(s: string, i: nat, parts: nat) returns (j: nat)
    requires 0 < i <= |s|
    requires IsDottedNumber(s[..i]) && parts == ComponentCount(s[..i])
    requires i == |s| || !IsDigit(s[i])
    ensures var r := NumberedFrom(s, i, parts);
            && (r.Some? ==> i <= j && LongestNumberedMatch(s, j) && r.value == ComponentCount(s[..j]))
            && (r.None? ==> forall j' :: i <= j' <= |s| ==> !NumberedMatchAt(s, j'))
    decreases |s| - i
  {
    var canExtend := i + 1 < |s| && s[i] == '.' && IsDigit(s[i + 1]);
    var deeper: Option<nat> := None;
    var dj: nat := i;
    if canExtend {
      var e := RunEnd(s, i + 1, DigitClass);
      RunEndAll(s, i + 1, DigitClass);
      DottedStep(s, i, e);
      DotCountStep(s, i, e);
      dj := NumberedFromSpec(s, e, parts + 1);
      deeper := NumberedFrom(s, e, parts + 1);
    }
    NumberedFromFacts(s, i, canExtend, deeper);
    j := NumberedFromChoice(s, i, parts, canExtend, deeper, dj);
  }

  /** One unfolding of `NumberedFrom`, with the deeper result named. */
  lemma NumberedFromDef(s: string, i: nat, parts: nat, canExtend: bool, deeper: Option<nat>)
    requires 0 < i <= |s|
    requires IsDottedNumber(s[..i]) && parts == ComponentCount(s[..i])
    requires i == |s| || !IsDigit(s[i])
    requires canExtend <==> (i + 1 < |s| && s[i] == '.' && IsDigit(s[i + 1]))
    requires !canExtend ==> deeper.None?
    requires canExtend ==>
      var e := RunEnd(s, i + 1, DigitClass);
      && IsDottedNumber(s[..e]) && parts + 1 == ComponentCount(s[..e]) && (e == |s| || !IsDigit(s[e]))
      && deeper == NumberedFrom(s, e, parts + 1)
    ensures NumberedFrom(s, i, parts) ==
      if deeper.Some? then deeper else if TextFollowsAt(s, i) then Some(parts) else None
  {
  }

  /** The last step of `NumberedFrom`: a longer capture wins, otherwise the
      separator is tried at `i`. */
  lemma NumberedFromChoice(s: string, i: nat, parts: nat, canExtend: bool, deeper: Option<nat>, dj: nat)
    returns (j: nat)
    requires 0 < i <= |s|
    requires IsDottedNumber(s[..i]) && parts == ComponentCount(s[..i])
    requires i == |s| || !IsDigit(s[i])
    requires canExtend <==> (i + 1 < |s| && s[i] == '.' && IsDigit(s[i + 1]))
    requires !canExtend ==> deeper.None?
    requires canExtend ==>
      var e := RunEnd(s, i + 1, DigitClass);
      && IsDottedNumber(s[..e]) && parts + 1 == ComponentCount(s[..e]) && (e == |s| || !IsDigit(s[e]))
      && deeper == NumberedFrom(s, e, parts + 1)
    requires deeper.Some? ==> i <= dj && LongestNumberedMatch(s, dj) && deeper.value == ComponentCount(s[..dj])
    requires deeper.None? ==> forall j' :: i < j' <= |s| ==> !NumberedMatchAt(s, j')
    ensures var r := NumberedFrom(s, i, parts);
            && (r.Some? ==> i <= j && LongestNumberedMatch(s, j) && r.value == ComponentCount(s[..j]))
            && (r.None? ==> forall j' :: i <= j' <= |s| ==> !NumberedMatchAt(s, j'))
  {
    NumberedFromDef(s, i, parts, canExtend, deeper);
    TextFollowsAtSpec(s, i);
    j := dj;
    if deeper.None? && TextFollowsAt(s, i) {
      j := i;
      assert LongestNumberedMatch(s, i);
    }
  }

  lemma NumberedFromFacts(s: string, i: nat, canExtend: bool, deeper: Option<nat>)
    requires 0 < i <= |s|
    requires i == |s| || !IsDigit(s[i])
    requires canExtend <==> (i + 1 < |s| && s[i] == '.' && IsDigit(s[i + 1]))
    requires canExtend ==> deeper.None? ==>
      forall j :: RunEnd(s, i + 1, DigitClass) <= j <= |s| ==> !NumberedMatchAt(s, j)
    requires !canExtend ==> deeper.None?
    ensures deeper.None? ==> forall j :: i < j <= |s| ==> !NumberedMatchAt(s, j)
  {
    if deeper.None? {
      forall j | i < j <= |s| && NumberedMatchAt(s, j)
        ensures false
      {
        var len: nat :| SeparatorRun(s, j, len);
        ExtendMatch(s, i, j);
      }
    }
  }

  /** `line.match(/^(\d+(?:\.\d+)*)[.\s]+(.+)/)`, reduced to what the converter
      uses: the number of dot-separated parts in capture group 1. */
  function NumberedParts(s: string): Option<nat>
  {
    if |s| > 0 && IsDigit(s[0]) then
      var e := RunEnd(s, 0, DigitClass);
      RunEndAll(s, 0, DigitClass);
      DotCountDigits(s, e);
      NumberedFrom(s, e, 1)
    else None
  }

  /** The expression matches exactly when `NumberedParts` reports a count, and
      the count is that of the capture a backtracking engine returns. */
  lemma NumberedPartsSpec(s: string)
    ensures NumberedParts(s).None? <==> forall j :: 0 <= j <= |s| ==> !NumberedMatchAt(s, j)
    ensures NumberedParts(s).Some? ==>
      exists j: nat :: LongestNumberedMatch(s, j) && NumberedParts(s).value == ComponentCount(s[..j])
    ensures forall j: nat :: LongestNumberedMatch(s, j) ==> NumberedParts(s) == Some(ComponentCount(s[..j]))
  {
    NumberedStartFacts(s);
    if |s| > 0 && IsDigit(s[0]) {
      var e := RunEnd(s, 0, DigitClass);
      RunEndAll(s, 0, DigitClass);
      DotCountDigits(s, e);
      var j := NumberedFromSpec(s, e, 1);
    }
  }

  lemma NumberedStartFacts(s: string)
    ensures forall j :: 0 <= j <= |s| && NumberedMatchAt(s, j) ==> |s| > 0 && IsDigit(s[0]) && RunEnd(s, 0, DigitClass) <= j
    ensures forall j1: nat, j2: nat :: LongestNumberedMatch(s, j1) && LongestNumberedMatch(s, j2) ==> j1 == j2
  {
    forall j | 0 <= j <= |s| && NumberedMatchAt(s, j)
      ensures |s| > 0 && IsDigit(s[0]) && RunEnd(s, 0, DigitClass) <= j
    {
      var len: nat :| SeparatorRun(s, j, len);
      assert s[..j][0] == s[0];
      assert IsSepChar(s[j]);
      RunEndAll(s, 0, DigitClass);
    }
  }

  // ------------------------------------------------------------------
  // The next-line test /^[\d.]+\s/
  // ------------------------------------------------------------------

  ghost predicate NumberedLeadSpec(s: string) {
    exists k :: 1 <= k < |s| && (forall m :: 0 <= m < k ==> IsDigitOrDot(s[m])) && IsWs(s[k])
  }

  /** `s.match(/^[\d.]+\s/)` is non-null. */
  function HasNumberedLead(s: string): (r: bool)
    ensures r <==> NumberedLeadSpec(s)
  {
    var e := RunEnd(s, 0, DigitOrDotClass);
    RunEndAll(s, 0, DigitOrDotClass);
    NumberedLeadExact(s, e);
    1 <= e < |s| && IsWs(s[e])
  }

  lemma NumberedLeadExact(s: string, e: nat)
    requires e == RunEnd(s, 0, DigitOrDotClass)
    ensures NumberedLeadSpec(s) <==> 1 <= e < |s| && IsWs(s[e])
  {
    RunEndAll(s, 0, DigitOrDotClass);
    if NumberedLeadSpec(s) {
      var k :| 1 <= k < |s| && (forall m :: 0 <= m < k ==> IsDigitOrDot(s[m])) && IsWs(s[k]);
      assert !IsDigitOrDot(s[k]);
    }
  }

  // ------------------------------------------------------------------
  // isListItem: /^[•●○◦▪▫-]\s/ or /^[\da-z]+[.)]\s/
  // ------------------------------------------------------------------

  predicate IsBullet(c: char) {
    c in "•●○◦▪▫-"
  }

  predicate IsOrdinalClose(c: char) {
    c == '.' || c == ')'
  }

  ghost predicate BulletItemSpec(s: string) {
    |s| >= 2 && IsBullet(s[0]) && IsWs(s[1])
  }

  /** `[\da-z]` covers `s[..k]`, then `.` or `)` at `k`. */
  ghost predicate OrdinalMarkerAt(s: string, k: nat) {
    && 1 <= k < |s|
    && (forall m :: 0 <= m < k ==> IsOrdinalChar(s[m]))
    && IsOrdinalClose(s[k])
  }

  ghost predicate OrdinalItemSpec(s: string) {
    exists k: nat :: OrdinalMarkerAt(s, k) && k + 1 < |s| && IsWs(s[k + 1])
  }

  /** Executable `[\da-z]+[.)]` at the start: the greedy run must stop exactly
      at the closing character, since that character is not in the run's class.
      `OrdinalMarkerEndSpec` states that this finds the only marker there is. */
  function OrdinalMarkerEnd(s: string): (r: Option<nat>)
    ensures r.Some? ==> 1 <= r.value < |s| && IsOrdinalClose(s[r.value])
  {
    var e := RunEnd(s, 0, OrdinalCharClass);
    if 1 <= e < |s| && IsOrdinalClose(s[e]) then Some(e) else None
  }

  lemma OrdinalMarkerEndSpec(s: string)
    ensures OrdinalMarkerEnd(s).Some? ==> OrdinalMarkerAt(s, OrdinalMarkerEnd(s).value)
    ensures forall k: nat :: OrdinalMarkerAt(s, k) ==> OrdinalMarkerEnd(s) == Some(k)
  {
    var e := RunEnd(s, 0, OrdinalCharClass);
    RunEndAll(s, 0, OrdinalCharClass);
    forall k: nat | OrdinalMarkerAt(s, k) ensures k == e {
      assert !IsOrdinalChar(s[k]);
    }
  }

  /** `isListItem`; `IsListItemSpec` states what it accepts. */
  function IsListItem(s: string): (r: bool)
    ensures BulletItemSpec(s) ==> r
  {
    var m := OrdinalMarkerEnd(s);
    (|s| >= 2 && IsBullet(s[0]) && IsWs(s[1]))
    || (m.Some? && m.value + 1 < |s| && IsWs(s[m.value + 1]))
  }

  /** A line is a list item exactly when it starts with a bullet and a space,
      or with an ordinal marker and a space. */
  lemma IsListItemSpec(s: string)
    ensures IsListItem(s) <==> BulletItemSpec(s) || OrdinalItemSpec(s)
  {
    OrdinalMarkerEndSpec(s);
  }

  // ------------------------------------------------------------------
  // The table-of-contents header /^目錄[:：]?$/
  // ------------------------------------------------------------------

  const TocTitle: string := "目錄"

  /** `/^目錄[:：]?$/`: the title alone, or followed by an ASCII or full-width
      colon, and nothing else. */
  predicate IsTocHeader(s: string): (b: bool)
    ensures b <==> s == TocTitle || s == TocTitle + [':'] || s == TocTitle + ['：']
  {
    s == TocTitle || (|s| == 3 && s[..2] == TocTitle && IsColon(s[2]))
  }
}
