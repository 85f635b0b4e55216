/**
 The heading-id rule and the table-of-contents builder of the HTML converter.

 The Markdown parser is outside the model: its output is taken as a sequence
 of tokens, and the renderer visits them left to right. The override of the
 `heading_open` rule gives every heading an id `section-k`, where `k - 1` is
 the number of h1/h2 headings recorded so far, and records each h1/h2 heading
 as a table-of-contents item. The module-level item list is threaded through
 the fold explicitly; `MarkdownToHtml` starts it empty, as the converter
 does before every render.
 */
module HeadingIds {
  import opened Options
  import opened Strings

  datatype TokenKind = HeadingOpen | OtherToken

  /** A parser token: its type, its HTML tag (`h1`, `h2`, ...) and its text. */
  datatype Token = Token(kind: TokenKind, tag: string, content: string)

  /** One table-of-contents entry. */
  datatype TocItem = TocItem(level: string, title: string, slug: string)

  // ------------------------------------------------------------------
  // Decimal numerals, as `String(n)` prints a non-negative integer
  // ------------------------------------------------------------------

  function DigitChar(d: nat): (c: char)
    requires d < 10
    ensures IsDigit(c)
  {
    (('0' as int) + d) as char
  }

  function DigitValue(c: char): nat
    requires IsDigit(c)
  {
    (c as int) - ('0' as int)
  }

  /** Digits only, and no leading zero unless the numeral is `0` itself. */
  predicate IsCanonicalDecimal(s: string) {
    && |s| >= 1
    && (forall k :: 0 <= k < |s| ==> IsDigit(s[k]))
    && (s[0] == '0' ==> |s| == 1)
  }

  function NatToDecimal(n: nat): (r: string)
    ensures |r| >= 1
    decreases n
  {
    if n < 10 then [DigitChar(n)] else NatToDecimal(n / 10) + [DigitChar(n % 10)]
  }

  /** The value of a string of decimal digits. */
  function DecimalValue(s: string): nat
    requires forall k :: 0 <= k < |s| ==> IsDigit(s[k])
    decreases |s|
  {
    if s == [] then 0 else DecimalValue(s[..|s| - 1]) * 10 + DigitValue(s[|s| - 1])
  }

  /** The printed numeral is canonical and reads back as the number. */
  lemma {:induction false} NatToDecimalRoundTrip(n: nat)
    ensures IsCanonicalDecimal(NatToDecimal(n))
    ensures DecimalValue(NatToDecimal(n)) == n
    decreases n
  {
    var r := NatToDecimal(n);
    if n >= 10 {
      NatToDecimalRoundTrip(n / 10);
      var p := NatToDecimal(n / 10);
      assert r[..|r| - 1] == p;
      assert r[0] == p[0];
      assert forall k :: 0 <= k < |p| ==> r[k] == p[k];
    }
  }

  /** The id `'section-' + n`. */
  function SectionId(n: nat): (id: string)
    ensures |id| > |"section-"| && id[..|"section-"|] == "section-"
  {
    "section-" + NatToDecimal(n)
  }

  /** Different numbers give different ids. */
  lemma SectionIdInjective(a: nat, b: nat)
    ensures SectionId(a) == SectionId(b) <==> a == b
  {
    if SectionId(a) == SectionId(b) {
      assert NatToDecimal(a) == SectionId(a)[|"section-"|..];
      assert NatToDecimal(b) == SectionId(b)[|"section-"|..];
      NatToDecimalRoundTrip(a);
      NatToDecimalRoundTrip(b);
    }
  }

  // ------------------------------------------------------------------
  // The heading_open rule
  // ------------------------------------------------------------------

  /** Only h1 and h2 headings go into the table of contents. */
  predicate IsTocLevel(tag: string) {
    tag == "h1" || tag == "h2"
  }

  predicate IsTocHeading(t: Token) {
    t.kind == HeadingOpen && IsTocLevel(t.tag)
  }

  /** The heading text is the content of the token after the opening one, and
      empty when there is none. */
  function TitleAt(tokens: seq<Token>, idx: nat): string
    requires idx < |tokens|
  {
    if idx + 1 < |tokens| then tokens[idx + 1].content else ""
  }

  /** An opening heading tag: its level and its id. */
  datatype OpenTag = OpenTag(level: string, id: string)

  /** The printed form, `<h1 id="section-1">` and the like. */
  function OpenTagHtml(t: OpenTag): string {
    "<" + t.level + " id=\"" + t.id + "\">"
  }

  /** The rule for the heading token at `idx`, given the items recorded so far:
      the opening tag it prints and the item list after it. */
  function HeadingOpenRule(tokens: seq<Token>, idx: nat, items: seq<TocItem>): (r: (OpenTag, seq<TocItem>))
    requires idx < |tokens|
    ensures items <= r.1
    ensures |r.1| == |items| + (if IsTocLevel(tokens[idx].tag) then 1 else 0)
    ensures |r.1| > |items| ==> r.1[|items|].slug == r.0.id && r.1[|items|].level == r.0.level
  {
    var level := tokens[idx].tag;
    var slug := SectionId(|items| + 1);
    var items' := if IsTocLevel(level) then items + [TocItem(level, TitleAt(tokens, idx), slug)] else items;
    (OpenTag(level, slug), items')
  }

  /** What rendering produced: for every token, the opening tag the heading
      rule printed (`None` for tokens other rules render), and the item list. */
  datatype Rendered = Rendered(tags: seq<Option<OpenTag>>, items: seq<TocItem>)

  /** Rendering of the first `n` tokens, starting from the items in `prior`. */
  function RenderPrefix(tokens: seq<Token>, n: nat, prior: seq<TocItem>): (r: Rendered)
    requires n <= |tokens|
    ensures |r.tags| == n
    ensures prior <= r.items
    ensures |r.items| == |prior| + TocCount(tokens, n)
    decreases n
  {
    if n == 0 then Rendered([], prior)
    else
      var p := RenderPrefix(tokens, n - 1, prior);
      if tokens[n - 1].kind == HeadingOpen then
        var h := HeadingOpenRule(tokens, n - 1, p.items);
        Rendered(p.tags + [Some(h.0)], h.1)
      else
        Rendered(p.tags + [None], p.items)
  }

  // ------------------------------------------------------------------
  // Reference description: which headings are recorded, with which ids
  // ------------------------------------------------------------------

  /** Indices, in order, of the h1/h2 heading tokens among the first `n`. */
  function TocIndices(tokens: seq<Token>, n: nat): (idx: seq<nat>)
    requires n <= |tokens|
    ensures |idx| <= n
    decreases n
  {
    if n == 0 then []
    else TocIndices(tokens, n - 1) + (if IsTocHeading(tokens[n - 1]) then [n - 1] else [])
  }

  /** Number of h1/h2 headings before token `n`. */
  function TocCount(tokens: seq<Token>, n: nat): nat
    requires n <= |tokens|
  {
    |TocIndices(tokens, n)|
  }

  /** The `m`-th listed index is a heading token, and exactly `m` listed
      headings come before it. */
  lemma {:induction false} TocIndicesFacts(tokens: seq<Token>, n: nat)
    requires n <= |tokens|
    ensures forall m :: 0 <= m < |TocIndices(tokens, n)| ==>
              && TocIndices(tokens, n)[m] < n
              && IsTocHeading(tokens[TocIndices(tokens, n)[m]])
              && TocIndices(tokens, TocIndices(tokens, n)[m]) == TocIndices(tokens, n)[..m]
    decreases n
  {
    if n > 0 {
      TocIndicesFacts(tokens, n - 1);
      var prev := TocIndices(tokens, n - 1);
      var idx := TocIndices(tokens, n);
      assert idx[..|prev|] == prev;
      forall m | 0 <= m < |idx|
        ensures idx[m] < n && IsTocHeading(tokens[idx[m]]) && TocIndices(tokens, idx[m]) == idx[..m]
      {
        if m < |prev| {
          assert idx[m] == prev[m] && prev[m] < n - 1;
          assert idx[..|prev|][..m] == idx[..m];
        } else {
          assert IsTocHeading(tokens[n - 1]) && idx == prev + [n - 1];
          assert idx[m] == n - 1;
        }
      }
    }
  }

  /** Every h1/h2 heading token before `n` is listed, at the position given
      by the number of headings before it. */
  lemma {:induction false} TocIndicesComplete(tokens: seq<Token>, n: nat, k: nat)
    requires k < n <= |tokens|
    requires IsTocHeading(tokens[k])
    ensures TocCount(tokens, k) < TocCount(tokens, n)
    ensures TocIndices(tokens, n)[TocCount(tokens, k)] == k
    decreases n
  {
    if k < n - 1 {
      TocIndicesComplete(tokens, n - 1, k);
      var prev := TocIndices(tokens, n - 1);
      assert TocIndices(tokens, n)[..|prev|] == prev;
      assert TocIndices(tokens, n)[TocCount(tokens, k)] == prev[TocCount(tokens, k)];
    }
  }

  /** No h1/h2 heading in `[k, n)` means the count does not change; each one
      adds exactly one. */
  lemma {:induction false} TocCountSteps(tokens: seq<Token>, k: nat, n: nat)
    requires k <= n <= |tokens|
    ensures TocCount(tokens, k) <= TocCount(tokens, n)
    ensures (forall j :: k <= j < n ==> !IsTocHeading(tokens[j])) ==> TocCount(tokens, k) == TocCount(tokens, n)
    ensures k < n && IsTocHeading(tokens[k]) ==> TocCount(tokens, k) < TocCount(tokens, n)
    decreases n - k
  {
    if k < n {
      TocCountSteps(tokens, k + 1, n);
    }
  }

  /** Every index in `idx` points into `tokens`. */
  predicate IndicesIn(tokens: seq<Token>, idx: seq<nat>) {
    forall m :: 0 <= m < |idx| ==> idx[m] < |tokens|
  }

  /** The item recorded for the heading at `k` when it is number `number`. */
  function ItemFor(tokens: seq<Token>, k: nat, number: nat): TocItem
    requires k < |tokens|
  {
    TocItem(tokens[k].tag, TitleAt(tokens, k), SectionId(number))
  }

  /** The items for the headings at `idx`, numbered from `base + 1`. */
  function RecordedItems(tokens: seq<Token>, idx: seq<nat>, base: nat): (items: seq<TocItem>)
    requires IndicesIn(tokens, idx)
    ensures |items| == |idx|
    decreases |idx|
  {
    if idx == [] then []
    else RecordedItems(tokens, idx[..|idx| - 1], base) + [ItemFor(tokens, idx[|idx| - 1], base + |idx|)]
  }

  lemma {:induction false} RecordedItemsAt(tokens: seq<Token>, idx: seq<nat>, base: nat)
    requires IndicesIn(tokens, idx)
    ensures forall m :: 0 <= m < |idx| ==> RecordedItems(tokens, idx, base)[m] == ItemFor(tokens, idx[m], base + m + 1)
    decreases |idx|
  {
    if idx != [] {
      var init := idx[..|idx| - 1];
      RecordedItemsAt(tokens, init, base);
      assert forall m :: 0 <= m < |init| ==> init[m] == idx[m];
    }
  }

  /** The opening tag the heading rule prints for token `k`, from the
      reference description: the id counts the h1/h2 headings before it. */
  function TagFor(tokens: seq<Token>, k: nat, base: nat): Option<OpenTag>
    requires k < |tokens|
  {
    if tokens[k].kind == HeadingOpen then
      Some(OpenTag(tokens[k].tag, SectionId(base + TocCount(tokens, k) + 1)))
    else None
  }

  /** The rendered item list is the prior list followed by one item per
      h1/h2 heading, in document order, numbered on from the prior list. */
  lemma {:induction false} RenderItems(tokens: seq<Token>, n: nat, prior: seq<TocItem>)
    requires n <= |tokens|
    ensures IndicesIn(tokens, TocIndices(tokens, n))
    ensures RenderPrefix(tokens, n, prior).items == prior + RecordedItems(tokens, TocIndices(tokens, n), |prior|)
    decreases n
  {
    TocIndicesBounded(tokens, n);
    if n > 0 {
      TocIndicesBounded(tokens, n - 1);
      RenderItems(tokens, n - 1, prior);
      RenderItemsStep(tokens, n, prior);
    }
  }

  lemma {:induction false} TocIndicesBounded(tokens: seq<Token>, n: nat)
    requires n <= |tokens|
    ensures forall m :: 0 <= m < |TocIndices(tokens, n)| ==> TocIndices(tokens, n)[m] < n
    decreases n
  {
    if n > 0 {
      TocIndicesBounded(tokens, n - 1);
    }
  }

  /** One step of `RenderItems`: the heading rule at token `n - 1` appends the
      item of that heading, or nothing. */
  lemma RenderItemsStep(tokens: seq<Token>, n: nat, prior: seq<TocItem>)
    requires 0 < n <= |tokens|
    requires IndicesIn(tokens, TocIndices(tokens, n - 1)) && IndicesIn(tokens, TocIndices(tokens, n))
    requires RenderPrefix(tokens, n - 1, prior).items
          == prior + RecordedItems(tokens, TocIndices(tokens, n - 1), |prior|)
    ensures RenderPrefix(tokens, n, prior).items == prior + RecordedItems(tokens, TocIndices(tokens, n), |prior|)
  {
    var prev := TocIndices(tokens, n - 1);
    var idx := TocIndices(tokens, n);
    var before := RecordedItems(tokens, prev, |prior|);
    RenderPrefixItemStep(tokens, n, prior);
    if IsTocHeading(tokens[n - 1]) {
      var item := ItemFor(tokens, n - 1, |prior| + |idx|);
      assert idx == prev + [n - 1];
      RecordedItemsSnoc(tokens, prev, n - 1, |prior|);
      assert (prior + before) + [item] == prior + (before + [item]);
    } else {
      assert idx == prev;
    }
  }

  /** The heading rule at token `n - 1` appends the item of that heading when it
      is an h1/h2, numbered after the items so far, and leaves the list alone
      otherwise. */
  lemma RenderPrefixItemStep(tokens: seq<Token>, n: nat, prior: seq<TocItem>)
    requires 0 < n <= |tokens|
    ensures var p := RenderPrefix(tokens, n - 1, prior).items;
            RenderPrefix(tokens, n, prior).items
              == if IsTocHeading(tokens[n - 1]) then p + [ItemFor(tokens, n - 1, |p| + 1)] else p
  {
  }

  lemma RecordedItemsSnoc(tokens: seq<Token>, idx: seq<nat>, k: nat, base: nat)
    requires IndicesIn(tokens, idx)
    requires k < |tokens|
    ensures IndicesIn(tokens, idx + [k])
    ensures RecordedItems(tokens, idx + [k], base)
         == RecordedItems(tokens, idx, base) + [ItemFor(tokens, k, base + |idx| + 1)]
  {
    assert (idx + [k])[..|idx|] == idx;
  }

  /** Every token's opening tag is the one the reference description gives. */
  lemma {:induction false} RenderTags(tokens: seq<Token>, n: nat, prior: seq<TocItem>)
    requires n <= |tokens|
    ensures forall k :: 0 <= k < n ==> RenderPrefix(tokens, n, prior).tags[k] == TagFor(tokens, k, |prior|)
    decreases n
  {
    if n > 0 {
      RenderTags(tokens, n - 1, prior);
      var p := RenderPrefix(tokens, n - 1, prior);
      assert forall k :: 0 <= k < n - 1 ==> RenderPrefix(tokens, n, prior).tags[k] == p.tags[k];
    }
  }

  /** The `m`-th recorded item carries the tag, the title and the slug of its
      heading, the slug is `section-(|prior| + m + 1)`, and the opening tag
      printed for that heading carries the same id. */
  lemma SlugMatchesTag(tokens: seq<Token>, prior: seq<TocItem>, m: nat)
    requires m < TocCount(tokens, |tokens|)
    ensures var r := RenderPrefix(tokens, |tokens|, prior);
            var k := TocIndices(tokens, |tokens|)[m];
            && k < |tokens| && IsTocHeading(tokens[k])
            && |r.items| == |prior| + TocCount(tokens, |tokens|)
            && r.items[|prior| + m] == TocItem(tokens[k].tag, TitleAt(tokens, k), SectionId(|prior| + m + 1))
            && r.tags[k] == Some(OpenTag(tokens[k].tag, r.items[|prior| + m].slug))
  {
    var n := |tokens|;
    RenderItems(tokens, n, prior);
    RenderTags(tokens, n, prior);
    TocIndicesFacts(tokens, n);
    var idx := TocIndices(tokens, n);
    RecordedItemsAt(tokens, idx, |prior|);
    assert TocCount(tokens, idx[m]) == m;
  }

  /** A heading below h2 gets the id the next h1/h2 heading will get: ids are
      not unique across levels. */
  lemma LowerLevelSharesId(tokens: seq<Token>, prior: seq<TocItem>, k: nat, k2: nat)
    requires k < k2 < |tokens|
    requires tokens[k].kind == HeadingOpen && !IsTocLevel(tokens[k].tag)
    requires IsTocHeading(tokens[k2])
    requires forall j :: k < j < k2 ==> !IsTocHeading(tokens[j])
    ensures var r := RenderPrefix(tokens, |tokens|, prior);
            var id := SectionId(|prior| + TocCount(tokens, k) + 1);
            r.tags[k] == Some(OpenTag(tokens[k].tag, id)) && r.tags[k2] == Some(OpenTag(tokens[k2].tag, id))
  {
    RenderTags(tokens, |tokens|, prior);
    SameTocCount(tokens, k, k2);
    SharedTag(tokens, |prior|, k, k2);
  }

  /** No h1/h2 heading from `k` up to `k2` leaves the count unchanged. */
  lemma SameTocCount(tokens: seq<Token>, k: nat, k2: nat)
    requires k < k2 <= |tokens|
    requires !IsTocHeading(tokens[k])
    requires forall j :: k < j < k2 ==> !IsTocHeading(tokens[j])
    ensures TocCount(tokens, k) == TocCount(tokens, k2)
  {
    TocCountSteps(tokens, k, k2);
  }

  /** Two heading tokens with the same count before them get the same id. */
  lemma SharedTag(tokens: seq<Token>, base: nat, k: nat, k2: nat)
    requires k < k2 < |tokens|
    requires tokens[k].kind == HeadingOpen && tokens[k2].kind == HeadingOpen
    requires TocCount(tokens, k) == TocCount(tokens, k2)
    ensures TagFor(tokens, k, base) == Some(OpenTag(tokens[k].tag, SectionId(base + TocCount(tokens, k) + 1)))
    ensures TagFor(tokens, k2, base) == Some(OpenTag(tokens[k2].tag, SectionId(base + TocCount(tokens, k) + 1)))
  {
  }

  /** Two h1/h2 headings never share an id, neither in the tag nor in print. */
  lemma TocIdsDistinct(tokens: seq<Token>, prior: seq<TocItem>, k: nat, k2: nat)
    requires k < k2 < |tokens|
    requires IsTocHeading(tokens[k]) && IsTocHeading(tokens[k2])
    ensures var r := RenderPrefix(tokens, |tokens|, prior);
            && r.tags[k].Some? && r.tags[k2].Some?
            && r.tags[k].value.id != r.tags[k2].value.id
            && OpenTagHtml(r.tags[k].value) != OpenTagHtml(r.tags[k2].value)
  {
    var r := RenderPrefix(tokens, |tokens|, prior);
    RenderTags(tokens, |tokens|, prior);
    TocCountSteps(tokens, k, k2);
    var a := |prior| + TocCount(tokens, k) + 1;
    var b := |prior| + TocCount(tokens, k2) + 1;
    SectionIdInjective(a, b);
    OpenTagHtmlIdUnique(r.tags[k].value, r.tags[k2].value);
  }

  /** Printed tags whose levels have the same length are equal only if their
      ids are. */
  lemma OpenTagHtmlIdUnique(t1: OpenTag, t2: OpenTag)
    requires |t1.level| == |t2.level|
    ensures OpenTagHtml(t1) == OpenTagHtml(t2) ==> t1.id == t2.id
  {
    if OpenTagHtml(t1) == OpenTagHtml(t2) {
      var n := 1 + |t1.level| + 5;
      assert |t1.id| == |t2.id|;
      assert t1.id == OpenTagHtml(t1)[n..n + |t1.id|];
      assert t2.id == OpenTagHtml(t2)[n..n + |t2.id|];
    }
  }

  // ------------------------------------------------------------------
  // generateTOCHTML and markdownToHTML
  // ------------------------------------------------------------------

  /** The fixed text of the table-of-contents template literals: the header,
      the four pieces of an entry around its level, slug and title, and the
      footer. */
  datatype TocTemplate = TocTemplate(
    head: string, itemOpen: string, hrefOpen: string, linkOpen: string, itemClose: string, foot: string)

  const Template: TocTemplate := TocTemplate(
    "\n    <div class=\"toc-container\">\n        <div class=\"toc-header\">目錄</div>\n        <ul class=\"toc-list\">\n    ",
    "\n            <li class=\"toc-item ",
    "\">\n                <a href=\"#",
    "\" class=\"toc-link\">",
    "</a>\n                <span class=\"toc-filler\"></span>\n                <span class=\"toc-page\">⇲</span>\n            </li>\n        ",
    "\n        </ul>\n        <div style=\"text-align: center; color: #999; font-size: 12px; margin-top: 20px;\">\n            (點擊標題可跳轉章節，完整頁碼請參閱 Word 檔)\n        </div>\n    </div>\n    ")

  /** One `<li>` of the table of contents: the level as a class, a link to the
      slug and the title, inserted as they are (no HTML escaping). */
  function TocEntry(t: TocTemplate, item: TocItem): string {
    t.itemOpen + item.level + t.hrefOpen + item.slug + t.linkOpen + item.title + t.itemClose
  }

  /** The entries appended one after another, as the `forEach` loop does. */
  function TocEntries(t: TocTemplate, items: seq<TocItem>): string
    decreases |items|
  {
    if items == [] then "" else TocEntries(t, items[..|items| - 1]) + TocEntry(t, items[|items| - 1])
  }

  /** `generateTOCHTML`: empty exactly when there are no items, otherwise the
      entries between the fixed header and footer. */
  function GenerateTocHtml(items: seq<TocItem>): (html: string)
    ensures html == "" <==> items == []
  {
    if |items| == 0 then "" else Template.head + TocEntries(Template, items) + Template.foot
  }

  /** The entries of a concatenation are the concatenation of the entries. */
  lemma {:induction false} TocEntriesAppend(t: TocTemplate, a: seq<TocItem>, b: seq<TocItem>)
    ensures TocEntries(t, a + b) == TocEntries(t, a) + TocEntries(t, b)
    decreases |b|
  {
    if b != [] {
      var b' := b[..|b| - 1];
      var last := b[|b| - 1];
      TocEntriesAppend(t, a, b');
      assert (a + b)[..|a + b| - 1] == a + b';
      assert (a + b)[|a + b| - 1] == last;
      calc {
        TocEntries(t, a + b);
        TocEntries(t, a + b') + TocEntry(t, last);
        (TocEntries(t, a) + TocEntries(t, b')) + TocEntry(t, last);
        TocEntries(t, a) + (TocEntries(t, b') + TocEntry(t, last));
        TocEntries(t, a) + TocEntries(t, b);
      }
    } else {
      assert a + b == a;
    }
  }

  /** One entry per item, in the items' order: item `m`'s entry sits between
      the entries of the items before it and those after it. */
  lemma TocEntriesInOrder(t: TocTemplate, items: seq<TocItem>, m: nat)
    requires m < |items|
    ensures TocEntries(t, items) == TocEntries(t, items[..m]) + TocEntry(t, items[m]) + TocEntries(t, items[m + 1..])
  {
    assert items == items[..m] + [items[m]] + items[m + 1..];
    TocEntriesAppend(t, items[..m] + [items[m]], items[m + 1..]);
    TocEntriesAppend(t, items[..m], [items[m]]);
    assert TocEntries(t, [items[m]]) == TocEntry(t, items[m]) by {
      assert [items[m]][..0] == [];
    }
  }

  /** The table of contents of a non-empty list: the header, item `m`'s entry
      after the entries of the items before it and before those after it, and
      the footer. */
  lemma GenerateTocHtmlEntries(items: seq<TocItem>, m: nat)
    requires m < |items|
    ensures GenerateTocHtml(items)
         == Template.head + (TocEntries(Template, items[..m]) + TocEntry(Template, items[m]) + TocEntries(Template, items[m + 1..]))
          + Template.foot
  {
    TocEntriesInOrder(Template, items, m);
  }

  /** The parts of the page the model covers: the table of contents and the
      opening tag printed for every token. */
  datatype Page = Page(toc: string, tags: seq<Option<OpenTag>>)

  /** `markdownToHTML` on an already parsed document. The item list starts
      empty, so ids restart at `section-1` for every document. */
  function MarkdownToHtml(tokens: seq<Token>): (page: Page)
    ensures |page.tags| == |tokens|
  {
    var r := RenderPrefix(tokens, |tokens|, []);
    Page(GenerateTocHtml(r.items), r.tags)
  }

  /** The table of contents lists the document's own h1/h2 headings, numbered
      from one, and every opening tag counts only this document's headings;
      the result does not depend on any earlier render. */
  lemma MarkdownToHtmlSpec(tokens: seq<Token>)
    ensures IndicesIn(tokens, TocIndices(tokens, |tokens|))
    ensures MarkdownToHtml(tokens).toc == GenerateTocHtml(RecordedItems(tokens, TocIndices(tokens, |tokens|), 0))
    ensures forall k :: 0 <= k < |tokens| ==> MarkdownToHtml(tokens).tags[k] == TagFor(tokens, k, 0)
  {
    var r := RenderPrefix(tokens, |tokens|, []);
    RenderItems(tokens, |tokens|, []);
    RenderTags(tokens, |tokens|, []);
    var recorded := RecordedItems(tokens, TocIndices(tokens, |tokens|), 0);
    assert r.items == [] + recorded == recorded;
    assert MarkdownToHtml(tokens) == Page(GenerateTocHtml(r.items), r.tags);
  }

  /** The table of contents is empty exactly when the document has no h1/h2. */
  lemma EmptyTocIffNoTopHeadings(tokens: seq<Token>)
    ensures MarkdownToHtml(tokens).toc == "" <==> forall k :: 0 <= k < |tokens| ==> !IsTocHeading(tokens[k])
  {
    RenderItems(tokens, |tokens|, []);
    TocCountSteps(tokens, 0, |tokens|);
    if MarkdownToHtml(tokens).toc == "" {
      forall k | 0 <= k < |tokens| ensures !IsTocHeading(tokens[k]) {
        if IsTocHeading(tokens[k]) {
          TocIndicesComplete(tokens, |tokens|, k);
        }
      }
    }
  }
}
