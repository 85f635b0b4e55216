/** The optional value used by the pattern matchers and the renderer. */
module Options {
  datatype Option<+T> = None | Some(value: T)
}

/**
 This module gives the JavaScript string primitives the converter relies on
 a Dafny meaning: the white-space class shared by `\s` and `String.prototype.trim`,
 `trim` itself, and `split('\n')` / `join('\n')`.

 Strings are `seq<char>`; a length is the number of characters.
 */
module Strings {

  /** ECMAScript WhiteSpace plus LineTerminator: exactly what `\s` matches and
      what `trim` removes. U+3000 (the ideographic space) is in it. */
  const WhiteSpace: set<char> := {
    '\t', '\n', '\U{000B}', '\U{000C}', '\r', ' ', '\U{00A0}', '\U{1680}',
    '\U{2000}', '\U{2001}', '\U{2002}', '\U{2003}', '\U{2004}', '\U{2005}',
    '\U{2006}', '\U{2007}', '\U{2008}', '\U{2009}', '\U{200A}',
    '\U{2028}', '\U{2029}', '\U{202F}', '\U{205F}', '\U{3000}', '\U{FEFF}'
  }

  predicate IsWs(c: char) {
    c in WhiteSpace
  }

  /** ECMAScript line terminators: the characters a regex `.` does not match. */
  predicate IsLineTerminator(c: char) {
    c == '\n' || c == '\r' || c == '\U{2028}' || c == '\U{2029}'
  }

  /** `\d` without the `u` flag: the ASCII digits only. */
  predicate IsDigit(c: char) {
    '0' <= c <= '9'
  }

  predicate IsNotNewline(c: char) {
    c != '\n'
  }

  /** `[一二三四五六七八九十\d]`, the chapter-number class. */
  predicate IsChapterNumeral(c: char) {
    c in "一二三四五六七八九十" || IsDigit(c)
  }

  /** `[.\s]`, the separator class after a section number. */
  predicate IsSepChar(c: char) {
    c == '.' || IsWs(c)
  }

  /** `[\d.]`. */
  predicate IsDigitOrDot(c: char) {
    IsDigit(c) || c == '.'
  }

  /** `[\da-z]`, the ordinal list-marker class. */
  predicate IsOrdinalChar(c: char) {
    IsDigit(c) || 'a' <= c <= 'z'
  }

  /** `[.…]`, the dot leaders of a table-of-contents line. */
  predicate IsDotLeader(c: char) {
    c == '.' || c == '…'
  }

  /** The character classes whose runs the converter's expressions scan. */
  datatype CharClass =
    | WsClass | NotNewlineClass | ChapterNumeralClass | DigitClass
    | SepCharClass | DigitOrDotClass | OrdinalCharClass | DotLeaderClass

  predicate InClass(cls: CharClass, c: char) {
    match cls
    case WsClass => IsWs(c)
    case NotNewlineClass => IsNotNewline(c)
    case ChapterNumeralClass => IsChapterNumeral(c)
    case DigitClass => IsDigit(c)
    case SepCharClass => IsSepChar(c)
    case DigitOrDotClass => IsDigitOrDot(c)
    case OrdinalCharClass => IsOrdinalChar(c)
    case DotLeaderClass => IsDotLeader(c)
  }

  predicate AllWs(s: string) {
    forall k :: 0 <= k < |s| ==> IsWs(s[k])
  }

  predicate NoNewline(s: string) {
    forall k :: 0 <= k < |s| ==> s[k] != '\n'
  }

  lemma ConcatAssoc(a: string, b: string, c: string)
    ensures a + (b + c) == a + b + c
  {
  }

  /** A suffix of a suffix of `a` is a suffix of `a`. */
  lemma SuffixOfSuffix(a: string, b: string, c: string)
    requires |b| <= |a| && b == a[|a| - |b|..]
    requires |c| <= |b| && c == b[|b| - |c|..]
    ensures c == a[|a| - |c|..]
  {
    assert forall k :: 0 <= k < |c| ==> c[k] == b[|b| - |c| + k] == a[|a| - |c| + k];
  }

  lemma SuffixNoNewline(s: string, b: nat)
    requires b <= |s| && NoNewline(s)
    ensures NoNewline(s[b..])
  {
    assert forall k :: 0 <= k < |s| - b ==> s[b..][k] == s[b + k];
  }

  /** First index at or after `i` whose character is outside class `cls` (or `|s|`).
      That every character before it is in `cls` is `RunEndAll`, kept apart so
      that the quantifier is only present where a proof asks for it. */
  function RunEnd(s: string, i: nat, cls: CharClass): (e: nat)
    requires i <= |s|
    ensures i <= e <= |s|
    ensures e < |s| ==> !InClass(cls, s[e])
    decreases |s| - i
  {
    if i == |s| || !InClass(cls, s[i]) then i else RunEnd(s, i + 1, cls)
  }

  lemma {:induction false} RunEndAll(s: string, i: nat, cls: CharClass)
    requires i <= |s|
    ensures forall k :: i <= k < RunEnd(s, i, cls) ==> InClass(cls, s[k])
    decreases |s| - i
  {
    if i < |s| && InClass(cls, s[i]) {
      RunEndAll(s, i + 1, cls);
    }
  }

  /** A run that is in `cls` up to `e` and stops there ends at `e`. */
  lemma {:induction false} RunEndAt(s: string, i: nat, e: nat, cls: CharClass)
    requires i <= e < |s|
    requires forall k :: i <= k < e ==> InClass(cls, s[k])
    requires !InClass(cls, s[e])
    ensures RunEnd(s, i, cls) == e
    decreases e - i
  {
    if i < e {
      RunEndAt(s, i + 1, e, cls);
    }
  }

  /** The white space a greedy `\s*` consumes from `i` on. */
  lemma WsRunSlice(s: string, i: nat)
    requires i <= |s|
    ensures AllWs(s[i..RunEnd(s, i, WsClass)])
  {
    var e := RunEnd(s, i, WsClass);
    RunEndAll(s, i, WsClass);
    forall m | 0 <= m < e - i ensures IsWs(s[i..e][m]) {
      assert s[i..e][m] == s[i + m];
    }
  }

  /** Start of the longest run of class `cls` that ends just before index `e`;
      `RunStartAll` states that the run is in `cls`. */
  function RunStart(s: string, e: nat, cls: CharClass): (b: nat)
    requires e <= |s|
    ensures b <= e
    ensures b > 0 ==> !InClass(cls, s[b - 1])
    decreases e
  {
    if e == 0 || !InClass(cls, s[e - 1]) then e else RunStart(s, e - 1, cls)
  }

  lemma {:induction false} RunStartAll(s: string, e: nat, cls: CharClass)
    requires e <= |s|
    ensures forall k :: RunStart(s, e, cls) <= k < e ==> InClass(cls, s[k])
    decreases e
  {
    if e > 0 && InClass(cls, s[e - 1]) {
      RunStartAll(s, e - 1, cls);
    }
  }

  /** A string with no white space at either end. */
  predicate IsTrimmed(s: string) {
    s == [] || (!IsWs(s[0]) && !IsWs(s[|s| - 1]))
  }

  /** `r` sits at offset `i` of `s` with only white space around it. */
  predicate PaddedAt(s: string, r: string, i: nat) {
    && i + |r| <= |s|
    && s[i..i + |r|] == r
    && AllWs(s[..i])
    && AllWs(s[i + |r|..])
  }

  /** `String.prototype.trim`: white space removed first from the start, then
      from the end. Where the result sits in `s` is stated by `TrimPadded`,
      apart from this contract to keep proofs about callers cheap. */
  function Trim(s: string): (r: string)
    ensures IsTrimmed(r)
    ensures r == [] <==> AllWs(s)
    ensures |r| <= |s|
  {
    TrimShape(s);
    TrimRight(TrimLeft(s))
  }

  function TrimLeft(s: string): string
    decreases |s|
  {
    if s != [] && IsWs(s[0]) then TrimLeft(s[1..]) else s
  }

  function TrimRight(s: string): string
    decreases |s|
  {
    if s != [] && IsWs(s[|s| - 1]) then TrimRight(s[..|s| - 1]) else s
  }

  /** `TrimLeft` drops a white-space prefix and stops at a non-white-space character. */
  lemma {:induction false} TrimLeftFacts(s: string)
    ensures |TrimLeft(s)| <= |s| && TrimLeft(s) == s[|s| - |TrimLeft(s)|..]
    ensures forall k :: 0 <= k < |s| - |TrimLeft(s)| ==> IsWs(s[k])
    ensures TrimLeft(s) == [] || !IsWs(TrimLeft(s)[0])
    decreases |s|
  {
    if s != [] && IsWs(s[0]) {
      var s' := s[1..];
      TrimLeftFacts(s');
      var r := TrimLeft(s');
      assert s'[|s'| - |r|..] == s[|s| - |r|..];
      forall k | 0 <= k < |s| - |r| ensures IsWs(s[k]) {
        if k > 0 {
          assert s[k] == s'[k - 1];
        }
      }
    }
  }

  /** `TrimRight` drops a white-space suffix and stops at a non-white-space
      character. */
  lemma {:induction false} TrimRightFacts(s: string)
    ensures |TrimRight(s)| <= |s| && TrimRight(s) == s[..|TrimRight(s)|]
    ensures forall k :: |TrimRight(s)| <= k < |s| ==> IsWs(s[k])
    ensures TrimRight(s) == [] || !IsWs(s[|TrimRight(s)| - 1])
    decreases |s|
  {
    if s != [] && IsWs(s[|s| - 1]) {
      var s' := s[..|s| - 1];
      TrimRightFacts(s');
      var r := TrimRight(s');
      assert s'[..|r|] == s[..|r|];
      forall k | |r| <= k < |s| - 1 ensures IsWs(s[k]) {
        assert s[k] == s'[k];
      }
    }
  }

  /** The contract of `Trim`, for its definition. */
  lemma TrimShape(s: string)
    ensures var r := TrimRight(TrimLeft(s));
            && IsTrimmed(r) && |r| <= |s|
            && (r == [] <==> AllWs(s))
  {
    var l := TrimLeft(s);
    var r := TrimRight(l);
    TrimLeftFacts(s);
    TrimRightFacts(l);
    var b := |s| - |l|;
    if r != [] {
      assert r[0] == l[0];
      assert r[|r| - 1] == l[|r| - 1];
      assert !AllWs(s) by {
        assert s[b] == l[0];
      }
    }
  }

  /** Index of the first non-white-space character (or `|s|`). */
  function TrimStart(s: string): (b: nat)
    ensures b <= |s|
  {
    TrimLeftFacts(s);
    |s| - |TrimLeft(s)|
  }

  /** `Trim(s)` is `s` with the white space at both ends removed and nothing else. */
  lemma TrimPadded(s: string)
    ensures PaddedAt(s, Trim(s), TrimStart(s))
  {
    var l := TrimLeft(s);
    var b := TrimStart(s);
    var t := Trim(s);
    TrimLeftFacts(s);
    TrimRightFacts(l);
    assert t == TrimRight(l) && l == s[b..];
    assert s[b..b + |t|] == t by {
      assert l[..|t|] == s[b..b + |t|];
    }
    assert AllWs(s[..b]) by {
      forall k | 0 <= k < b ensures IsWs(s[..b][k]) {
        assert s[..b][k] == s[k];
      }
    }
    assert AllWs(s[b + |t|..]) by {
      assert s[b + |t|..] == l[|t|..];
      forall k | |t| <= k < |l| ensures IsWs(l[k]) {
      }
    }
  }

  /** Trimming a string that does not start with white space keeps a prefix. */
  lemma TrimKeepsStart(s: string)
    ensures s == [] || !IsWs(s[0]) ==> Trim(s) <= s
  {
    TrimRightFacts(s);
  }

  /** Trimming is determined by its declarative description: any trimmed string
      that sits inside `s` with only white space around it is `Trim(s)`. */
  lemma TrimUnique(s: string, r: string, i: nat)
    requires IsTrimmed(r) && PaddedAt(s, r, i)
    ensures r == Trim(s)
  {
    if r == [] {
      assert AllWs(s) by {
        forall k | 0 <= k < |s| ensures IsWs(s[k]) {
          if k < i {
            assert s[..i][k] == s[k];
          } else {
            assert s[i..][k - i] == s[k];
          }
        }
      }
    } else {
      var t := Trim(s);
      var b := TrimStart(s);
      TrimPadded(s);
      assert !IsWs(s[i]) by { assert s[i] == r[0]; }
      assert !IsWs(s[i + |r| - 1]) by { assert s[i + |r| - 1] == r[|r| - 1]; }
      assert t != [];
      assert !IsWs(s[b]) by { assert s[b] == t[0]; }
      assert !IsWs(s[b + |t| - 1]) by { assert s[b + |t| - 1] == t[|t| - 1]; }
      AllWsPrefix(s, i);
      AllWsPrefix(s, b);
      AllWsSuffix(s, i + |r|);
      AllWsSuffix(s, b + |t|);
      assert i == b;
      assert i + |r| == b + |t|;
    }
  }

  lemma AllWsPrefix(s: string, n: nat)
    requires n <= |s| && AllWs(s[..n])
    ensures forall k :: 0 <= k < n ==> IsWs(s[k])
  {
    forall k | 0 <= k < n ensures IsWs(s[k]) {
      assert s[..n][k] == s[k];
    }
  }

  lemma AllWsSuffix(s: string, n: nat)
    requires n <= |s| && AllWs(s[n..])
    ensures forall k :: n <= k < |s| ==> IsWs(s[k])
  {
    forall k | n <= k < |s| ensures IsWs(s[k]) {
      assert s[n..][k - n] == s[k];
    }
  }

  lemma TrimTrimmed(s: string)
    requires IsTrimmed(s)
    ensures Trim(s) == s
  {
    assert s[..0] == [] && s[0 + |s|..] == [] && s[0..0 + |s|] == s;
    TrimUnique(s, s, 0);
  }

  /** `s.split('\n')`: never empty, and the first piece is the text up to the
      first newline, or all of it when there is none. `SplitLinesNoNewline`
      states that no piece holds a newline, `JoinSplit` that the pieces join
      back into `s`. */
  function SplitLines(s: string): (lines: seq<string>)
    ensures |lines| >= 1
    ensures lines[0] <= s && NoNewline(lines[0])
    ensures |lines| == 1 ==> lines[0] == s
    ensures |lines| >= 2 ==> |lines[0]| < |s| && s[|lines[0]|] == '\n'
    decreases |s|
  {
    var e := RunEnd(s, 0, NotNewlineClass);
    RunEndAll(s, 0, NotNewlineClass);
    if e == |s| then [s] else [s[..e]] + SplitLines(s[e + 1..])
  }

  lemma {:induction false} SplitLinesNoNewline(s: string)
    ensures forall k :: 0 <= k < |SplitLines(s)| ==> NoNewline(SplitLines(s)[k])
    decreases |s|
  {
    var e := RunEnd(s, 0, NotNewlineClass);
    RunEndAll(s, 0, NotNewlineClass);
    if e < |s| {
      SplitLinesNoNewline(s[e + 1..]);
    }
  }

  /** `lines.join('\n')`. */
  function JoinLines(lines: seq<string>): (s: string)
    ensures |lines| >= 1 ==> lines[0] <= s
    ensures |lines| >= 2 ==> |lines[0]| < |s| && s[|lines[0]|] == '\n'
    decreases |lines|
  {
    if |lines| == 0 then ""
    else if |lines| == 1 then lines[0]
    else lines[0] + "\n" + JoinLines(lines[1..])
  }

  /** Joining the pieces of a split gives the original text back. */
  lemma {:induction false} JoinSplit(s: string)
    ensures JoinLines(SplitLines(s)) == s
    decreases |s|
  {
    var e := RunEnd(s, 0, NotNewlineClass);
    if e < |s| {
      JoinSplit(s[e + 1..]);
      assert SplitLines(s) == [s[..e]] + SplitLines(s[e + 1..]);
      assert s == s[..e] + "\n" + s[e + 1..];
    }
  }

  /** Splitting a join of newline-free pieces gives the pieces back; in
      particular the number of lines is the number of pieces. */
  lemma {:induction false} SplitJoin(lines: seq<string>)
    requires |lines| >= 1
    requires forall k :: 0 <= k < |lines| ==> NoNewline(lines[k])
    ensures SplitLines(JoinLines(lines)) == lines
    decreases |lines|
  {
    var s := JoinLines(lines);
    if |lines| > 1 {
      var rest := JoinLines(lines[1..]);
      assert s == lines[0] + "\n" + rest;
      assert SplitLines(s) == [lines[0]] + SplitLines(rest) by {
        assert s[..|lines[0]|] == lines[0];
        assert s[|lines[0]| + 1..] == rest;
        RunEndAt(s, 0, |lines[0]|, NotNewlineClass);
      }
      SplitJoin(lines[1..]);
      assert lines == [lines[0]] + lines[1..];
    } else {
      RunEndAll(s, 0, NotNewlineClass);
    }
  }

  /** `c.repeat(n)`. */
  function Repeat(c: char, n: nat): string
  {
    seq(n, _ => c)
  }
}
