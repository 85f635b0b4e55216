/**
 The per-line decisions of the text-to-Markdown converter: the heading level of a
 trimmed line, the title cleaning applied to headings, and list-item
 normalisation. Each source `replace` with a regular expression becomes a step
 whose contract says which part of the string the expression's leftmost match
 removes.
 */
module Classifier {
  import opened Options
  import opened Strings
  import opened Patterns

  /** Lines shorter than this, followed by a longer line, may be sub-headings. */
  const ShortLineLimit: nat := 30

  /** The short-line rule: a short line that is not the last one, whose next line
      (trimmed) is long and does not start with `[\d.]+\s`. */
  ghost predicate ShortLineHeading(line: string, lineIndex: nat, allLines: seq<string>) {
    && |line| < ShortLineLimit
    && lineIndex + 1 < |allLines|
    && |Trim(allLines[lineIndex + 1])| > ShortLineLimit
    && !NumberedLeadSpec(Trim(allLines[lineIndex + 1]))
  }

  /** The heading level of a numbered line with `parts` dot-separated numbers. */
  ghost function NumberedLevel(parts: nat): nat {
    if parts <= 3 then parts + 1 else 5
  }

  /** `detectHeadingLevel(line, lineIndex, allLines)`: 0 for "not a heading",
      otherwise the level. The rules are tried in a fixed order and the first
      that applies decides; `DetectHeadingLevelSpec` states them. */
  function DetectHeadingLevel(line: string, lineIndex: nat, allLines: seq<string>): (level: nat)
    ensures level <= 5
  {
    if IsMajorSection(line) then 1
    else
      match NumberedParts(line)
      case Some(parts) =>
        if parts == 1 then 2
        else if parts == 2 then 3
        else if parts == 3 then 4
        else 5
      case None =>
        if |line| < ShortLineLimit && lineIndex + 1 < |allLines| then
          var next := Trim(allLines[lineIndex + 1]);
          if |next| > ShortLineLimit && !HasNumberedLead(next) then 3 else 0
        else 0
  }

  /** Level 1 exactly for a major section; otherwise the numbered rule decides
      whenever the numbered expression matches; otherwise level 3 exactly when
      the short-line rule holds, and 0 when it does not. */
  lemma DetectHeadingLevelSpec(line: string, lineIndex: nat, allLines: seq<string>)
    ensures DetectHeadingLevel(line, lineIndex, allLines) == 1 <==> MajorSectionSpec(line)
    ensures !MajorSectionSpec(line) ==>
      forall j: nat :: LongestNumberedMatch(line, j) ==>
        DetectHeadingLevel(line, lineIndex, allLines) == NumberedLevel(ComponentCount(line[..j]))
    ensures !MajorSectionSpec(line) && (forall j: nat :: j <= |line| ==> !NumberedMatchAt(line, j)) ==>
      var level := DetectHeadingLevel(line, lineIndex, allLines);
      (level == 3 <==> ShortLineHeading(line, lineIndex, allLines)) && (level == 0 || level == 3)
  {
    DetectMajorLevel(line, lineIndex, allLines);
    if !MajorSectionSpec(line) {
      DetectNumberedLevel(line, lineIndex, allLines);
      if forall j: nat :: j <= |line| ==> !NumberedMatchAt(line, j) {
        DetectShortLineLevel(line, lineIndex, allLines);
      }
    }
  }

  /** The three parts of `DetectHeadingLevelSpec`, one rule each. */
  lemma DetectMajorLevel(line: string, lineIndex: nat, allLines: seq<string>)
    ensures DetectHeadingLevel(line, lineIndex, allLines) == 1 <==> MajorSectionSpec(line)
  {
  }

  lemma DetectNumberedLevel(line: string, lineIndex: nat, allLines: seq<string>)
    requires !MajorSectionSpec(line)
    ensures forall j: nat :: LongestNumberedMatch(line, j) ==>
      DetectHeadingLevel(line, lineIndex, allLines) == NumberedLevel(ComponentCount(line[..j]))
  {
    NumberedPartsSpec(line);
  }

  lemma DetectShortLineLevel(line: string, lineIndex: nat, allLines: seq<string>)
    requires !MajorSectionSpec(line)
    requires forall j: nat :: j <= |line| ==> !NumberedMatchAt(line, j)
    ensures var level := DetectHeadingLevel(line, lineIndex, allLines);
      (level == 3 <==> ShortLineHeading(line, lineIndex, allLines)) && (level == 0 || level == 3)
  {
    NumberedPartsSpec(line);
  }

  // ------------------------------------------------------------------
  // cleanTitleText
  // ------------------------------------------------------------------

  /** `[.…]+\d+$` matches starting at index `q`. */
  ghost predicate PageNumberFrom(s: string, q: nat) {
    exists k: nat :: PageNumberSplit(s, q, k)
  }

  ghost predicate PageNumberSplit(s: string, q: nat, k: nat) {
    && q < k < |s|
    && (forall m :: q <= m < k ==> IsDotLeader(s[m]))
    && (forall m :: k <= m < |s| ==> IsDigit(s[m]))
  }

  /** `[:：]\s*$` matches starting at index `q`. */
  ghost predicate ColonTailFrom(s: string, q: nat) {
    q < |s| && IsColon(s[q]) && forall m :: q < m < |s| ==> IsWs(s[m])
  }

  lemma PageNumberLocated(s: string, q: nat)
    requires PageNumberFrom(s, q)
    ensures var d := RunStart(s, |s|, DigitClass);
            var p := RunStart(s, d, DotLeaderClass);
            d < |s| && p < d && p <= q
  {
    var k: nat :| PageNumberSplit(s, q, k);
    var d := RunStart(s, |s|, DigitClass);
    RunStartAll(s, |s|, DigitClass);
    assert !IsDigit(s[k - 1]);
    assert d == k;
    var p := RunStart(s, d, DotLeaderClass);
    RunStartAll(s, d, DotLeaderClass);
    assert IsDotLeader(s[k - 1]);
    assert forall m :: q <= m < k ==> IsDotLeader(s[m]);
  }

  /** `.replace(/[.…]+\d+$/, '')`: removes a page number and the dot leaders
      before it; `StripPageNumberSpec` says which part goes. */
  function StripPageNumber(s: string): (r: string)
    ensures r <= s
  {
    var d := RunStart(s, |s|, DigitClass);
    var p := RunStart(s, d, DotLeaderClass);
    if d < |s| && p < d then s[..p] else s
  }

  /** The leftmost match of `[.…]+\d+$` is removed, and only it. */
  lemma StripPageNumberSpec(s: string)
    ensures var r := StripPageNumber(s);
            && (|r| < |s| ==> PageNumberFrom(s, |r|))
            && (forall q: nat :: q < |r| ==> !PageNumberFrom(s, q))
  {
    var d := RunStart(s, |s|, DigitClass);
    var p := RunStart(s, d, DotLeaderClass);
    RunStartAll(s, |s|, DigitClass);
    RunStartAll(s, d, DotLeaderClass);
    assert d < |s| && p < d ==> PageNumberSplit(s, p, d);
    StripPageNumberLeftmost(s);
  }

  lemma StripPageNumberLeftmost(s: string)
    ensures var d := RunStart(s, |s|, DigitClass);
            var p := RunStart(s, d, DotLeaderClass);
            forall q: nat :: PageNumberFrom(s, q) ==> d < |s| && p < d && p <= q
  {
    forall q: nat | PageNumberFrom(s, q)
      ensures var d := RunStart(s, |s|, DigitClass);
              var p := RunStart(s, d, DotLeaderClass);
              d < |s| && p < d && p <= q
    {
      PageNumberLocated(s, q);
    }
  }

  /** `.replace(/[.…]+$/, '')`: removes the whole trailing run of dot leaders. */
  function StripDotLeaders(s: string): (r: string)
    ensures r <= s
    ensures r == [] || !IsDotLeader(r[|r| - 1])
  {
    s[..RunStart(s, |s|, DotLeaderClass)]
  }

  /** What `StripDotLeaders` removes is dot leaders only. */
  lemma StripDotLeadersSpec(s: string)
    ensures forall m :: |StripDotLeaders(s)| <= m < |s| ==> IsDotLeader(s[m])
  {
    RunStartAll(s, |s|, DotLeaderClass);
  }

  /** `.replace(/[:：]\s*$/, '')`: removes a final colon and the white space
      after it; `StripColonTailSpec` says which part goes. */
  function StripColonTail(s: string): (r: string)
    ensures r <= s
  {
    var w := RunStart(s, |s|, WsClass);
    if w > 0 && IsColon(s[w - 1]) then s[..w - 1] else s
  }

  /** The only match of `[:：]\s*$` is removed, and only it. */
  lemma StripColonTailSpec(s: string)
    ensures var r := StripColonTail(s);
            && (|r| < |s| ==> ColonTailFrom(s, |r|))
            && (forall q: nat :: q < |r| ==> !ColonTailFrom(s, q))
  {
    var w := RunStart(s, |s|, WsClass);
    RunStartAll(s, |s|, WsClass);
    ColonTailLocated(s, w);
  }

  lemma ColonTailLocated(s: string, w: nat)
    requires w == RunStart(s, |s|, WsClass)
    ensures forall q: nat :: ColonTailFrom(s, q) ==> w > 0 && q == w - 1
  {
    RunStartAll(s, |s|, WsClass);
    forall q: nat | ColonTailFrom(s, q) ensures w > 0 && q == w - 1 {
      assert !IsWs(s[q]);
    }
  }

  /** The last character of a trimmed, non-empty string that is no dot leader or
      colon, with no page number at its end: `cleanTitleText` has nothing to remove. */
  ghost predicate CleanTitle(text: string) {
    && IsTrimmed(text) && |text| > 0
    && !IsDotLeader(text[|text| - 1]) && !IsColon(text[|text| - 1])
    && forall q: nat :: q < |text| ==> !PageNumberFrom(text, q)
  }

  /** `cleanTitleText`. It only ever removes a suffix of a trimmed title, and
      `NothingToClean` shows it leaves alone a title that has none of the
      suffixes it targets. */
  function CleanTitleText(text: string): (r: string)
    ensures IsTrimmed(r)
    ensures IsTrimmed(text) ==> r <= text
  {
    var a := StripPageNumber(text);
    var b := StripDotLeaders(a);
    var c := StripColonTail(b);
    TrimKeepsStart(c);
    Trim(c)
  }

  lemma NothingToClean(text: string)
    ensures CleanTitle(text) ==> CleanTitleText(text) == text
  {
    if CleanTitle(text) {
      StripPageNumberSpec(text);
      assert StripPageNumber(text) == text;
      assert StripDotLeaders(text) == text;
      StripColonTailSpec(text);
      assert !ColonTailFrom(text, |text| - 1);
      assert StripColonTail(text) == text;
      TrimTrimmed(text);
    }
  }

  // ------------------------------------------------------------------
  // convertToListItem
  // ------------------------------------------------------------------

  /** `.replace` of the pattern `^[•●○◦▪▫-]\s*` by `''`: one bullet glyph and
      the white space after it; `StripBulletSpec` says what was removed. */
  function StripBullet(s: string): (r: string)
    ensures |r| <= |s| && r == s[|s| - |r|..]
    ensures |r| == |s| ==> s == [] || !IsBullet(s[0])
  {
    if |s| > 0 && IsBullet(s[0]) then s[RunEnd(s, 1, WsClass)..] else s
  }

  lemma StripBulletSpec(s: string)
    ensures var r := StripBullet(s);
            && (|r| < |s| ==> IsBullet(s[0]) && AllWs(s[1..|s| - |r|]))
            && (|r| < |s| ==> r == [] || !IsWs(r[0]))
  {
    if |s| > 0 && IsBullet(s[0]) {
      RunEndAll(s, 1, WsClass);
    }
  }

  /** `.replace` of the pattern `^[\da-z]+[.)]\s*` by `''`: one ordinal marker
      and the white space after it; `StripOrdinalSpec` says what was removed. */
  function StripOrdinal(s: string): (r: string)
    ensures |r| <= |s| && r == s[|s| - |r|..]
  {
    match OrdinalMarkerEnd(s)
    case Some(k) => s[RunEnd(s, k + 1, WsClass)..]
    case None => s
  }

  lemma StripOrdinalSpec(s: string)
    ensures var r := StripOrdinal(s);
            && (|r| < |s| ==> exists k: nat :: OrdinalMarkerAt(s, k) && k < |s| - |r| && AllWs(s[k + 1..|s| - |r|]))
            && (|r| == |s| ==> forall k: nat :: !OrdinalMarkerAt(s, k))
            && (|r| < |s| ==> r == [] || !IsWs(r[0]))
  {
    OrdinalMarkerEndSpec(s);
    match OrdinalMarkerEnd(s)
    case Some(k) =>
      StripOrdinalAt(s, k);
    case None =>
  }

  /** With the marker closing at `k`, the white space after it is what goes. */
  lemma StripOrdinalAt(s: string, k: nat)
    requires OrdinalMarkerEnd(s) == Some(k)
    ensures var r := StripOrdinal(s);
            && k < |s| - |r| && AllWs(s[k + 1..|s| - |r|])
            && (r == [] || !IsWs(r[0]))
  {
    var e := RunEnd(s, k + 1, WsClass);
    WsRunSlice(s, k + 1);
    var r := StripOrdinal(s);
    assert r == s[e..];
    assert |s| - |r| == e;
    if r != [] {
      assert r[0] == s[e];
    }
  }

  /** Whether a line already starts with the Markdown bullet `- `. */
  predicate StartsWithDash(line: string) {
    |line| >= 2 && line[0] == '-' && line[1] == ' '
  }

  /** The text a list line keeps: a suffix of the line, with one bullet and then
      one ordinal marker removed from its front. */
  function ListItemText(line: string): (rest: string)
    ensures |rest| <= |line| && rest == line[|line| - |rest|..]
  {
    var b := StripBullet(line);
    var o := StripOrdinal(b);
    SuffixOfSuffix(line, b, o);
    o
  }

  /** `convertToListItem`: the result is always a `- ` item, a line already in
      that form is kept, and otherwise the text after the bullet is a suffix of
      the line. */
  function ConvertToListItem(line: string): (r: string)
    ensures StartsWithDash(r)
    ensures IsListItem(r)
    ensures StartsWithDash(line) ==> r == line
    ensures !StartsWithDash(line) ==> |r| <= |line| + 2 && r[2..] == line[|line| + 2 - |r|..]
  {
    if StartsWithDash(line) then
      DashIsListItem(line);
      line
    else
      var r := DashItem(ListItemText(line));
      DashIsListItem(r);
      r
  }

  /** `- ` and then `rest`. */
  function DashItem(rest: string): (r: string)
    ensures StartsWithDash(r) && |r| == |rest| + 2 && r[2..] == rest
  {
    "- " + rest
  }

  lemma DashIsListItem(s: string)
    requires StartsWithDash(s)
    ensures IsListItem(s)
  {
    assert BulletItemSpec(s);
  }

  /** `p` is what the pattern `^[•●○◦▪▫-]\s*` removes from the front of
      `p + after`: nothing when there is no bullet, otherwise the bullet and
      all the white space after it. */
  ghost predicate BulletCut(p: string, after: string) {
    if p == [] then after == [] || !IsBullet(after[0])
    else IsBullet(p[0]) && AllWs(p[1..]) && (after == [] || !IsWs(after[0]))
  }

  /** `p` is what the pattern `^[\da-z]+[.)]\s*` removes from the front of
      `p + after`: nothing when there is no ordinal marker, otherwise the
      marker and all the white space after it. */
  ghost predicate OrdinalCut(p: string, after: string) {
    if p == [] then forall k: nat :: !OrdinalMarkerAt(after, k)
    else (exists k: nat :: OrdinalMarkerAt(p, k) && AllWs(p[k + 1..])) && (after == [] || !IsWs(after[0]))
  }

  /** A line that does not already start with `- ` is split as
      `bullet + marker + rest` and normalised to `- ` followed by `rest`:
      first a leading bullet and its white space are cut, then a leading
      ordinal marker and its white space. */
  lemma ConvertToListItemStrips(line: string) returns (bullet: string, marker: string, rest: string)
    ensures !StartsWithDash(line) ==>
              && line == bullet + marker + rest
              && ConvertToListItem(line) == "- " + rest
              && BulletCut(bullet, marker + rest)
              && OrdinalCut(marker, rest)
  {
    bullet, marker, rest := [], [], [];
    if !StartsWithDash(line) {
      var bs := StripBullet(line);
      bullet := BulletSplit(line);
      marker := OrdinalSplit(bs);
      rest := StripOrdinal(bs);
      DashThenText(line);
      ConcatAssoc(bullet, marker, rest);
    }
  }

  lemma DashThenText(line: string)
    requires !StartsWithDash(line)
    ensures ConvertToListItem(line) == "- " + StripOrdinal(StripBullet(line))
  {
  }

  /** `StripBullet` cuts a `BulletCut` from the front. */
  lemma BulletSplit(s: string) returns (p: string)
    ensures s == p + StripBullet(s) && BulletCut(p, StripBullet(s))
  {
    var r := StripBullet(s);
    p := s[..|s| - |r|];
    StripBulletSpec(s);
    assert s == p + r;
    if p != [] {
      assert p[1..] == s[1..|s| - |r|];
    }
  }

  /** `StripOrdinal` cuts an `OrdinalCut` from the front. */
  lemma OrdinalSplit(s: string) returns (p: string)
    ensures s == p + StripOrdinal(s) && OrdinalCut(p, StripOrdinal(s))
  {
    var r := StripOrdinal(s);
    p := s[..|s| - |r|];
    StripOrdinalSpec(s);
    assert s == p + r;
    if p != [] {
      var k: nat :| OrdinalMarkerAt(s, k) && k < |s| - |r| && AllWs(s[k + 1..|s| - |r|]);
      assert OrdinalMarkerAt(p, k);
      assert p[k + 1..] == s[k + 1..|s| - |r|];
    }
  }

  /** Normalising a list item twice is the same as normalising it once. */
  lemma ConvertToListItemIdempotent(line: string)
    ensures ConvertToListItem(ConvertToListItem(line)) == ConvertToListItem(line)
  {
  }
}
