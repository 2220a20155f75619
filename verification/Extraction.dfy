/**
  `_apply_limits` and the paging part of the three extractors. Decoding, DOCX and PDF parsing and OCR
  are inputs here: a source is what those libraries hand over.
 */
module Extraction {
  import opened Strings
  import opened Normalisation
  import opened Paging
  import opened DocxTable

  /** The three budgets, with the bounds the configuration enforces. */
  datatype Limits = Limits(textLimit: nat, pageTextLimit: nat, maxPages: nat) {
    predicate Valid() {
      textLimit >= 10_000 && pageTextLimit >= 1_000 && 1 <= maxPages <= 10_000
    }
  }

  datatype Warning =
    | PageTruncated(pageLabel: Label)
    | TextLimitReached
    | PageLimitReached

  datatype Status = Processed | PartiallyProcessed | OcrRequired | Failed

  datatype Result = Result(status: Status, pages: seq<Page>, characterCount: nat)

  // ----- _apply_limits

  function Min(a: nat, b: nat): (r: nat)
    ensures r <= a && r <= b && (r == a || r == b)
  {
    if a <= b then a else b
  }

  function CutPage(page: Page, pageTextLimit: nat, remaining: nat): Page {
    page.(text := page.text[..Min(|page.text|, Min(pageTextLimit, remaining))])
  }

  /** The pages kept while `remaining` characters of the document budget are left. */
  function Keep(pages: seq<Page>, pageTextLimit: nat, remaining: nat): seq<Page> {
    if pages == [] || remaining == 0 then []
    else
      var kept := CutPage(pages[0], pageTextLimit, remaining);
      [kept] + Keep(pages[1..], pageTextLimit, remaining - |kept.text|)
  }

  function FirstPages(pages: seq<Page>, limits: Limits): seq<Page> {
    pages[..Min(|pages|, limits.maxPages)]
  }

  function Limited(pages: seq<Page>, limits: Limits): seq<Page> {
    Keep(FirstPages(pages, limits), limits.pageTextLimit, limits.textLimit)
  }

  function TextTotal(pages: seq<Page>): nat {
    if pages == [] then 0 else |pages[0].text| + TextTotal(pages[1..])
  }

  /** The characters a budget of `pageTextLimit` a page would allow. */
  function CappedTotal(pages: seq<Page>, pageTextLimit: nat): nat {
    if pages == [] then 0
    else Min(|pages[0].text|, pageTextLimit) + CappedTotal(pages[1..], pageTextLimit)
  }

  /** `kept` is a page of the input with nothing changed but its text cut to a prefix. */
  predicate CutOf(kept: Page, page: Page, pageTextLimit: nat) {
    && kept == page.(text := kept.text)
    && kept.text <= page.text
    && |kept.text| <= pageTextLimit
  }

  lemma {:induction false} KeepBudget(pages: seq<Page>, pageTextLimit: nat, remaining: nat)
    ensures |Keep(pages, pageTextLimit, remaining)| <= |pages|
    ensures TextTotal(Keep(pages, pageTextLimit, remaining)) == Min(remaining, CappedTotal(pages, pageTextLimit))
    ensures forall i :: 0 <= i < |Keep(pages, pageTextLimit, remaining)| ==>
                          CutOf(Keep(pages, pageTextLimit, remaining)[i], pages[i], pageTextLimit)
  {
    if pages != [] && remaining != 0 {
      var kept := CutPage(pages[0], pageTextLimit, remaining);
      var rest := Keep(pages[1..], pageTextLimit, remaining - |kept.text|);
      KeepBudget(pages[1..], pageTextLimit, remaining - |kept.text|);
      assert ([kept] + rest)[1..] == rest;
    }
  }

  /** The three budgets at once: how much is kept, that it is a cut of the input, and when it is everything. */
  lemma LimitsExact(pages: seq<Page>, limits: Limits)
    ensures TextTotal(Limited(pages, limits))
         == Min(limits.textLimit, CappedTotal(FirstPages(pages, limits), limits.pageTextLimit))
    ensures |Limited(pages, limits)| <= |pages| && |Limited(pages, limits)| <= limits.maxPages
    ensures forall i :: 0 <= i < |Limited(pages, limits)| ==>
                          CutOf(Limited(pages, limits)[i], pages[i], limits.pageTextLimit)
  {
    KeepBudget(FirstPages(pages, limits), limits.pageTextLimit, limits.textLimit);
  }

  /** One round of the loop of `_apply_limits`. */
  lemma KeepRound(done: seq<Page>, window: seq<Page>, i: nat, pageTextLimit: nat, remaining: nat)
    requires remaining > 0 && i < |window| && |done| == i
    ensures CutPage(window[i], pageTextLimit, remaining).text <= window[i].text
    ensures done + Keep(window[i..], pageTextLimit, remaining)
         == done + [CutPage(window[i], pageTextLimit, remaining)]
            + Keep(window[i + 1..], pageTextLimit,
                   remaining - |CutPage(window[i], pageTextLimit, remaining).text|)
    ensures done + [CutPage(window[i], pageTextLimit, remaining)] == window[..i + 1]
        <==> done == window[..i] && CutPage(window[i], pageTextLimit, remaining).text == window[i].text
  {
    var kept := CutPage(window[i], pageTextLimit, remaining);
    assert window[i..][1..] == window[i + 1..];
    assert window[..i + 1] == window[..i] + [window[i]];
    assert (done + [kept])[..i] == done && (done + [kept])[i] == kept;
  }

  lemma KeepEnd(done: seq<Page>, window: seq<Page>, i: nat, pageTextLimit: nat, remaining: nat)
    requires i <= |window| && (i == |window| || remaining == 0)
    ensures done + Keep(window[i..], pageTextLimit, remaining) == done
  {
  }

  lemma {:induction false} TextTotalSnoc(pages: seq<Page>, page: Page)
    ensures TextTotal(pages + [page]) == TextTotal(pages) + |page.text|
  {
    if pages == [] {
      assert [] + [page] == [page];
    } else {
      assert (pages + [page])[1..] == pages[1..] + [page];
      TextTotalSnoc(pages[1..], page);
    }
  }

  /** A page starts exactly where the text budget ends, and no page up to it exceeds the page budget. */
  ghost predicate SilentlyCut(pages: seq<Page>, limits: Limits) {
    && |pages| <= limits.maxPages
    && exists i :: 0 <= i < |pages| && UsedUpAt(pages, i, limits.pageTextLimit, limits.textLimit)
  }

  predicate UsedUpAt(pages: seq<Page>, i: nat, pageTextLimit: nat, remaining: nat)
    requires i < |pages|
  {
    TextTotal(pages[..i]) == remaining && forall k :: 0 <= k <= i ==> |pages[k].text| <= pageTextLimit
  }

  lemma UsedUpTail(pages: seq<Page>, j: nat, pageTextLimit: nat, remaining: nat)
    requires 0 < j < |pages| && UsedUpAt(pages, j, pageTextLimit, remaining)
    ensures |pages[0].text| <= pageTextLimit && |pages[0].text| <= remaining
    ensures UsedUpAt(pages[1..], j - 1, pageTextLimit, remaining - |pages[0].text|)
  {
    assert pages[..j][1..] == pages[1..][..j - 1];
  }

  lemma {:induction false} UsedUpCons(first: Page, rest: seq<Page>, i: nat, pageTextLimit: nat)
    requires i < |rest| && |first.text| <= pageTextLimit
    requires forall k :: 0 <= k <= i ==> |rest[k].text| <= pageTextLimit
    ensures forall k :: 0 <= k <= i + 1 ==> |([first] + rest)[k].text| <= pageTextLimit
    ensures [first] + rest[..i] == ([first] + rest)[..i + 1]
  {
  }

  /** If fitting pages use up the budget somewhere, exactly the pages before such a place are kept. */
  lemma {:induction false} KeepUsedUp(pages: seq<Page>, pageTextLimit: nat, remaining: nat, j: nat) returns (i: nat)
    requires j < |pages| && UsedUpAt(pages, j, pageTextLimit, remaining)
    ensures i <= j && Keep(pages, pageTextLimit, remaining) == pages[..i]
    ensures forall k :: 0 <= k <= i ==> |pages[k].text| <= pageTextLimit
  {
    hide UsedUpAt;
    if remaining == 0 {
      i := 0;
      assert |pages[0].text| <= pageTextLimit by {
        UsedUpFits(pages, j, pageTextLimit, remaining);
      }
    } else {
      UsedUpFits(pages, j, pageTextLimit, remaining);
      UsedUpTail(pages, j, pageTextLimit, remaining);
      var first, rest := pages[0], pages[1..];
      assert CutPage(first, pageTextLimit, remaining) == first;
      i := KeepUsedUp(rest, pageTextLimit, remaining - |first.text|, j - 1);
      assert pages == [first] + rest;
      UsedUpCons(first, rest, i, pageTextLimit);
      i := i + 1;
    }
  }

  lemma UsedUpFits(pages: seq<Page>, j: nat, pageTextLimit: nat, remaining: nat)
    requires j < |pages| && UsedUpAt(pages, j, pageTextLimit, remaining)
    ensures |pages[0].text| <= pageTextLimit
    ensures remaining != 0 ==> j > 0
  {
  }

  /** How the loop ended tells whether the cut was silent. */
  lemma SilentlyCutExactly(pages: seq<Page>, limits: Limits, i: nat, broke: bool)
    requires |pages| <= limits.maxPages && i <= |pages| && |Limited(pages, limits)| == i
    requires if broke then i < |pages| && TextTotal(Limited(pages, limits)) == limits.textLimit else i == |pages|
    ensures SilentlyCut(pages, limits)
       <==> broke && Limited(pages, limits) == pages[..i] && |pages[i].text| <= limits.pageTextLimit
  {
    hide Keep;
    var limited := Limited(pages, limits);
    LimitsExact(pages, limits);
    if broke && limited == pages[..i] && |pages[i].text| <= limits.pageTextLimit {
      assert forall k :: 0 <= k < i ==> pages[k] == limited[k];
      assert UsedUpAt(pages, i, limits.pageTextLimit, limits.textLimit);
    }
    if SilentlyCut(pages, limits) {
      var j :| 0 <= j < |pages| && UsedUpAt(pages, j, limits.pageTextLimit, limits.textLimit);
      assert FirstPages(pages, limits) == pages;
      var k := KeepUsedUp(pages, limits.pageTextLimit, limits.textLimit, j);
      assert k == i;
    }
  }

  /** Two pages, the first of which uses up the budget: the second is dropped and nobody is told. */
  lemma SilentCutExample()
    ensures var limits, a, b := Limits(10_000, 10_000, 2), Page(1, PdfPhysical(1), seq(10_000, _ => 'a')),
                                Page(2, PdfPhysical(2), "b");
            && limits.Valid() && SilentlyCut([a, b], limits) && Limited([a, b], limits) == [a]
  {
    var limits := Limits(10_000, 10_000, 2);
    var a, b := Page(1, PdfPhysical(1), seq(10_000, _ => 'a')), Page(2, PdfPhysical(2), "b");
    var pages := [a, b];
    assert pages[..1] == [a] && [a][1..] == [];
    assert TextTotal([a]) == |a.text| + TextTotal([a][1..]) == 10_000;
    assert UsedUpAt(pages, 1, 10_000, 10_000);
    assert FirstPages(pages, limits) == pages;
    var kept := CutPage(a, 10_000, 10_000);
    assert kept.text == a.text;
    assert pages[1..] == [b];
    assert Keep(pages, 10_000, 10_000) == [kept] + Keep([b], 10_000, 0);
  }

  lemma NoText()
    ensures TextTotal([]) == 0
  {
  }

  lemma TooManyPages(pages: seq<Page>, limits: Limits)
    requires |pages| > limits.maxPages
    ensures !SilentlyCut(pages, limits)
  {
  }

  /** One round of the loop: `cut` is the page's text after the first cut, `text` after both. */
  lemma LimitsRound(limited: seq<Page>, window: seq<Page>, i: nat, limits: Limits, total: nat, cut: string, text: string)
    requires i < |window| && |limited| == i && total == TextTotal(limited) < limits.textLimit
    requires cut == window[i].text[..Min(|window[i].text|, limits.pageTextLimit)]
    requires text == cut[..Min(|cut|, limits.textLimit - total)]
    ensures var kept := window[i].(text := text);
            && TextTotal(limited + [kept]) == total + |text| <= limits.textLimit
            && (limited + [kept] == window[..i + 1] <==>
                  limited == window[..i] && |window[i].text| <= limits.pageTextLimit && |cut| <= limits.textLimit - total)
            && limited + [kept] + Keep(window[i + 1..], limits.pageTextLimit, limits.textLimit - (total + |text|))
            == limited + Keep(window[i..], limits.pageTextLimit, limits.textLimit - total)
  {
    hide Keep;
    var kept := window[i].(text := text);
    assert kept == CutPage(window[i], limits.pageTextLimit, limits.textLimit - total);
    KeepRound(limited, window, i, limits.pageTextLimit, limits.textLimit - total);
    TextTotalSnoc(limited, kept);
    if text == window[i].text {
      assert |text| == |window[i].text|;
    }
  }

  method ApplyLimits(pages: seq<Page>, limits: Limits)
    returns (limited: seq<Page>, total: nat, warnings: seq<Warning>, truncated: bool)
    ensures limited == Limited(pages, limits)
    ensures total == TextTotal(limited)
    ensures truncated <==> limited != pages
    ensures warnings != [] ==> truncated
    ensures warnings == [] && truncated <==> SilentlyCut(pages, limits)
  {
    hide Keep, SilentlyCut, CutPage, TextTotal;
    NoText();
    limited, total, warnings, truncated := [], 0, [], false;
    var window := pages[..Min(|pages|, limits.maxPages)];
    var i := 0;
    ghost var goal, broke := Limited(pages, limits), false;
    assert window[0..] == window;
    assert [] + Keep(window[0..], limits.pageTextLimit, limits.textLimit) == goal;
    while i < |window|
      invariant i <= |window| && |limited| == i && !broke
      invariant total == TextTotal(limited) <= limits.textLimit
      invariant limited + Keep(window[i..], limits.pageTextLimit, limits.textLimit - total) == goal
      invariant truncated <==> limited != window[..i]
      invariant truncated <==> warnings != []
    {
      var text := window[i].text;
      if |text| > limits.pageTextLimit {
        text := text[..limits.pageTextLimit];
        warnings := AddWarning(warnings, PageTruncated(window[i].pageLabel));
        truncated := true;
      }
      var remaining := limits.textLimit - total;
      if remaining <= 0 {
        truncated, broke := true, true;
        break;
      }
      ghost var cut := text;
      if |text| > remaining {
        text := text[..remaining];
        warnings := AddWarning(warnings, TextLimitReached);
        truncated := true;
      }
      LimitsRound(limited, window, i, limits, total, cut, text);
      limited := limited + [window[i].(text := text)];
      total := total + |text|;
      i := i + 1;
    }
    KeepEnd(limited, window, i, limits.pageTextLimit, limits.textLimit - total);
    if |pages| > limits.maxPages {
      TooManyPages(pages, limits);
      warnings := AddWarning(warnings, PageLimitReached);
      truncated := true;
    } else {
      SilentlyCutExactly(pages, limits, i, broke);
    }
  }

  /** `dict.fromkeys` keeps the first of equal warnings. */
  function AddWarning(warnings: seq<Warning>, warning: Warning): (r: seq<Warning>)
    ensures warning in r && forall w :: w in warnings ==> w in r
  {
    if warning in warnings then warnings else warnings + [warning]
  }

  // ----- Numbering

  /** Pages are numbered 1, 2, 3, ... */
  predicate Numbered(pages: seq<Page>) {
    forall i :: 0 <= i < |pages| ==> pages[i].number == i + 1
  }

  predicate Consistent(result: Result) {
    Numbered(result.pages) && TextTotal(result.pages) == result.characterCount
  }

  lemma LimitedNumbered(pages: seq<Page>, limits: Limits)
    requires Numbered(pages)
    ensures Numbered(Limited(pages, limits))
  {
    LimitsExact(pages, limits);
  }

  function Finish(pages: seq<Page>, limits: Limits, alsoPartial: bool): Result {
    Result(
      if alsoPartial || Limited(pages, limits) != pages then PartiallyProcessed else Processed,
      Limited(pages, limits),
      TextTotal(Limited(pages, limits)))
  }

  // ----- TXT

  function TxtPageLimit(limits: Limits): nat {
    Min(12_000, limits.pageTextLimit)
  }

  function TxtPages(chunks: seq<string>, formFeed: bool): (pages: seq<Page>)
    ensures |pages| == |chunks| && Numbered(pages)
    ensures forall i :: 0 <= i < |pages| ==> pages[i].text == Normalise(chunks[i], false)
  {
    seq(|chunks|, i requires 0 <= i < |chunks| =>
      Page(i + 1, if formFeed then FormFeedText(i + 1) else LogicalText(i + 1), Normalise(chunks[i], false)))
  }

  function TxtChunks(decoded: string, limits: Limits): seq<string>
    requires limits.Valid()
  {
    var normalized := Normalise(decoded, true);
    if FORM_FEED in normalized then Split(normalized, FORM_FEED)
    else ChunkTexts(normalized, TxtPageLimit(limits))
  }

  function AllTxtPages(decoded: string, limits: Limits): seq<Page>
    requires limits.Valid()
  {
    TxtPages(TxtChunks(decoded, limits), FORM_FEED in Normalise(decoded, true))
  }

  function ExtractTxt(decoded: string, truncatedInput: bool, limits: Limits): Result
    requires limits.Valid()
  {
    Finish(AllTxtPages(decoded, limits), limits, truncatedInput)
  }

  lemma VisibleTxtPages(decoded: string, limits: Limits)
    requires limits.Valid()
    ensures Visible(Concat(Texts(AllTxtPages(decoded, limits)))) == Visible(decoded)
  {
    hide Visible, Concat, Normalise, ChunkTexts, Split, Join;
    var normalized := Normalise(decoded, true);
    var chunks := TxtChunks(decoded, limits);
    NormaliseResult(decoded, true);
    if FORM_FEED in normalized {
      JoinSplit(normalized, FORM_FEED);
      VisibleJoin(chunks, [FORM_FEED]);
    } else {
      ChunkTextsKeep(normalized, TxtPageLimit(limits));
    }
    var texts := Texts(AllTxtPages(decoded, limits));
    forall i | 0 <= i < |chunks|
      ensures Visible(texts[i]) == Visible(chunks[i])
    {
      NormaliseResult(chunks[i], false);
    }
    VisiblePointwise(texts, chunks);
  }

  lemma PrefixAppend(head: string, a: string, b: string)
    requires a <= b
    ensures head + a <= head + b
  {
  }

  /** When no page overflows its own budget, what is kept is the leading part of the whole text. */
  lemma {:induction false} KeepPrefix(pages: seq<Page>, pageTextLimit: nat, remaining: nat)
    requires forall i :: 0 <= i < |pages| ==> |pages[i].text| <= pageTextLimit
    ensures Concat(Texts(Keep(pages, pageTextLimit, remaining))) <= Concat(Texts(pages))
  {
    hide Visible;
    if pages != [] && remaining != 0 {
      var kept := CutPage(pages[0], pageTextLimit, remaining);
      var rest := Keep(pages[1..], pageTextLimit, remaining - |kept.text|);
      KeepPrefix(pages[1..], pageTextLimit, remaining - |kept.text|);
      assert Texts(pages)[1..] == Texts(pages[1..]);
      assert Texts([kept] + rest)[1..] == Texts(rest);
      assert Concat(Texts(Keep(pages, pageTextLimit, remaining))) == kept.text + Concat(Texts(rest));
      if kept.text == pages[0].text {
        PrefixAppend(kept.text, Concat(Texts(rest)), Concat(Texts(pages[1..])));
      } else {
        assert rest == [];
        assert Concat(Texts(rest)) == "";
      }
    } else {
      assert Texts([]) == [];
    }
  }

  lemma ConcatTake(texts: seq<string>, n: nat)
    requires n <= |texts|
    ensures Concat(texts[..n]) <= Concat(texts)
  {
    assert texts == texts[..n] + texts[n..];
    ConcatAppend(texts[..n], texts[n..]);
  }

  lemma VisiblePrefix(a: string, b: string)
    requires a <= b
    ensures Visible(a) <= Visible(b)
  {
    assert b == a + b[|a|..];
    VisibleConcat(a, b[|a|..]);
  }

  /** `_extract_txt` loses no visible character when it reports "processed". */
  lemma TxtLosesNothing(decoded: string, truncatedInput: bool, limits: Limits)
    requires limits.Valid()
    requires ExtractTxt(decoded, truncatedInput, limits).status == Processed
    ensures Visible(Concat(Texts(ExtractTxt(decoded, truncatedInput, limits).pages))) == Visible(decoded)
  {
    VisibleTxtPages(decoded, limits);
  }

  /** Without form feeds the kept pages always show a leading part of the decoded text. */
  lemma TxtKeepsPrefix(decoded: string, truncatedInput: bool, limits: Limits)
    requires limits.Valid()
    requires FORM_FEED !in Normalise(decoded, true)
    ensures Visible(Concat(Texts(ExtractTxt(decoded, truncatedInput, limits).pages))) <= Visible(decoded)
  {
    hide Normalise, ChunkTexts;
    var pages := AllTxtPages(decoded, limits);
    var window := FirstPages(pages, limits);
    ChunkTextsKeep(Normalise(decoded, true), TxtPageLimit(limits));
    forall i | 0 <= i < |pages|
      ensures |pages[i].text| <= limits.pageTextLimit
    {
      NormaliseResult(TxtChunks(decoded, limits)[i], false);
    }
    KeepPrefix(window, limits.pageTextLimit, limits.textLimit);
    assert Texts(window) == Texts(pages)[..|window|];
    ConcatTake(Texts(pages), |window|);
    VisibleTxtPages(decoded, limits);
    VisiblePrefix(Concat(Texts(Limited(pages, limits))), Concat(Texts(pages)));
  }

  // ----- DOCX

  /** A paragraph, or a table as the texts of its cells. */
  datatype DocxBlock =
    | Paragraph(text: string, isHeading: bool)
    | Table(rows: seq<seq<string>>)

  datatype Section = Section(heading: string, blocks: seq<string>)

  /** The block a paragraph or table contributes; blank ones contribute nothing. */
  function SectionBlock(block: DocxBlock): string {
    match block
    case Paragraph(text, _) => Normalise(text, false)
    case Table(rows) => Titled(TableText(rows))
  }

  function Titled(text: string): string {
    if text == "" then "" else "Table\n" + text
  }

  /** Headings open a section; blank paragraphs and empty tables are skipped. */
  function Sections(source: seq<DocxBlock>, open: Section): seq<Section>
    decreases |source|
  {
    if source == [] then
      if open.blocks == [] then [] else [open]
    else
      var text := SectionBlock(source[0]);
      if text == "" then Sections(source[1..], open)
      else if source[0].Paragraph? && source[0].isHeading then
        (if open.blocks == [] then [] else [open]) + Sections(source[1..], Section(text, [text]))
      else Sections(source[1..], open.(blocks := open.blocks + [text]))
  }

  function DocxChunkSize(limits: Limits): nat {
    Min(20_000, limits.pageTextLimit)
  }

  function OneSectionPages(section: Section, start: nat, maximum: nat): seq<Page>
    requires maximum > 0
  {
    SectionPages(PageTexts(section.blocks, maximum), section.heading, start)
  }

  lemma VisibleOneSection(section: Section, start: nat, maximum: nat)
    requires maximum > 0
    ensures Visible(Concat(Texts(OneSectionPages(section, start, maximum)))) == Visible(Concat(section.blocks))
  {
    PageTextsKeep(section.blocks, maximum);
    assert Texts(OneSectionPages(section, start, maximum)) == PageTexts(section.blocks, maximum);
  }

  /** Pages of all sections, numbered on from `start`. */
  function SectionsPages(sections: seq<Section>, start: nat, maximum: nat): seq<Page>
    requires maximum > 0
  {
    if sections == [] then []
    else
      var pages := OneSectionPages(sections[0], start, maximum);
      pages + SectionsPages(sections[1..], start + |pages|, maximum)
  }

  function AllDocxPages(source: seq<DocxBlock>, limits: Limits): seq<Page>
    requires limits.Valid()
  {
    var pages := SectionsPages(Sections(source, Section("", [])), 1, DocxChunkSize(limits));
    if pages == [] then [Page(1, DocxSection(1, ""), "")] else pages
  }

  function ExtractDocx(source: seq<DocxBlock>, limits: Limits): Result
    requires limits.Valid()
  {
    Finish(AllDocxPages(source, limits), limits, false)
  }

  lemma {:induction false} SectionsNumbered(sections: seq<Section>, start: nat, maximum: nat)
    requires maximum > 0
    ensures forall i :: 0 <= i < |SectionsPages(sections, start, maximum)| ==>
                          SectionsPages(sections, start, maximum)[i].number == start + i
  {
    if sections != [] {
      var pages := OneSectionPages(sections[0], start, maximum);
      SectionsNumbered(sections[1..], start + |pages|, maximum);
    }
  }

  /** All the text blocks of a document, as its sections hold them. */
  function SectionText(sections: seq<Section>): string {
    if sections == [] then "" else Concat(sections[0].blocks) + SectionText(sections[1..])
  }

  /** A paragraph as it stands, and a table as `_table_text` prints it. */
  function BlockText(block: DocxBlock): string {
    match block
    case Paragraph(text, _) => text
    case Table(rows) => Titled(TableText(rows))
  }

  function SourceText(source: seq<DocxBlock>): string {
    if source == [] then "" else BlockText(source[0]) + SourceText(source[1..])
  }

  /** The same with every cell of a table that shows anything. */
  function FullBlock(block: DocxBlock): string {
    match block
    case Paragraph(text, _) => text
    case Table(rows) => Titled(FullTable(rows))
  }

  function FullText(source: seq<DocxBlock>): string {
    if source == [] then "" else FullBlock(source[0]) + FullText(source[1..])
  }

  predicate RepeatsCell(block: DocxBlock) {
    block.Table? && TableRepeats(block.rows)
  }

  lemma VisibleSnoc(blocks: seq<string>, block: string)
    ensures Visible(Concat(blocks + [block])) == Visible(Concat(blocks)) + Visible(block)
  {
    ConcatAppend(blocks, [block]);
    assert [block][1..] == [];
    assert Concat([block]) == block;
    VisibleConcat(Concat(blocks), block);
  }

  lemma VisibleOpen(open: Section, later: seq<Section>)
    ensures Visible(SectionText((if open.blocks == [] then [] else [open]) + later))
         == Visible(Concat(open.blocks)) + Visible(SectionText(later))
  {
    if open.blocks == [] {
      assert [] + later == later;
    } else {
      assert ([open] + later)[1..] == later;
      VisibleConcat(Concat(open.blocks), SectionText(later));
    }
  }

  lemma {:induction false} VisibleSections(source: seq<DocxBlock>, open: Section)
    ensures Visible(SectionText(Sections(source, open))) == Visible(Concat(open.blocks)) + Visible(SourceText(source))
    decreases |source|
  {
    if source == [] {
      VisibleOpen(open, []);
      assert (if open.blocks == [] then [] else [open]) + [] == Sections(source, open);
    } else {
      VisibleSourceStep(source);
      var rest, block := source[1..], SectionBlock(source[0]);
      if block == "" {
        VisibleSections(rest, open);
        assert Visible("") + Visible(SourceText(rest)) == Visible(SourceText(rest));
      } else if source[0].Paragraph? && source[0].isHeading {
        VisibleSections(rest, Section(block, [block]));
        assert [block][1..] == [] && Concat([block]) == block;
        VisibleOpen(open, Sections(rest, Section(block, [block])));
      } else {
        VisibleSnoc(open.blocks, block);
        VisibleSections(rest, open.(blocks := open.blocks + [block]));
        Associative(Visible(Concat(open.blocks)), Visible(block), Visible(SourceText(rest)));
      }
    }
  }

  lemma VisibleSourceStep(source: seq<DocxBlock>)
    requires source != []
    ensures Visible(SourceText(source)) == Visible(SectionBlock(source[0])) + Visible(SourceText(source[1..]))
  {
    VisibleConcat(BlockText(source[0]), SourceText(source[1..]));
    VisibleBlock(source[0]);
  }

  lemma VisibleBlock(block: DocxBlock)
    ensures Visible(SectionBlock(block)) == Visible(BlockText(block))
  {
    if block.Paragraph? {
      NormaliseResult(block.text, false);
    }
  }

  lemma VisibleTextsAppend(a: seq<Page>, b: seq<Page>, x: string, y: string)
    requires Visible(Concat(Texts(a))) == Visible(x) && Visible(Concat(Texts(b))) == Visible(y)
    ensures Visible(Concat(Texts(a + b))) == Visible(x + y)
  {
    hide Visible, Concat;
    assert Texts(a + b) == Texts(a) + Texts(b);
    ConcatAppend(Texts(a), Texts(b));
    VisibleConcat(Concat(Texts(a)), Concat(Texts(b)));
    VisibleConcat(x, y);
  }

  lemma {:induction false} VisibleSectionsPages(sections: seq<Section>, start: nat, maximum: nat)
    requires maximum > 0
    ensures Visible(Concat(Texts(SectionsPages(sections, start, maximum)))) == Visible(SectionText(sections))
  {
    hide OneSectionPages;
    if sections == [] {
      assert Texts([]) == [];
    } else {
      var pages := OneSectionPages(sections[0], start, maximum);
      VisibleSectionsPages(sections[1..], start + |pages|, maximum);
      VisibleOneSection(sections[0], start, maximum);
      VisibleTextsAppend(pages, SectionsPages(sections[1..], start + |pages|, maximum),
                         Concat(sections[0].blocks), SectionText(sections[1..]));
    }
  }

  lemma DocxPagesVisible(source: seq<DocxBlock>, limits: Limits)
    requires limits.Valid()
    ensures Visible(Concat(Texts(AllDocxPages(source, limits)))) == Visible(SourceText(source))
    ensures Numbered(AllDocxPages(source, limits))
  {
    var sections := Sections(source, Section("", []));
    VisibleSections(source, Section("", []));
    VisibleSectionsPages(sections, 1, DocxChunkSize(limits));
    SectionsNumbered(sections, 1, DocxChunkSize(limits));
    if SectionsPages(sections, 1, DocxChunkSize(limits)) == [] {
      assert Texts(AllDocxPages(source, limits)) == [""];
      assert Concat([""]) == "" + "";
      assert Texts([]) == [];
    }
  }

  lemma BlockLoses(block: DocxBlock)
    ensures RepeatsCell(block) ==> |Visible(BlockText(block))| < |Visible(FullBlock(block))|
    ensures !RepeatsCell(block) ==> BlockText(block) == FullBlock(block)
  {
    hide Visible, TableText, FullTable, TableRepeats;
    if block.Table? {
      TableLosesExactly(block.rows);
      VisibleConcat("Table\n", TableText(block.rows));
      VisibleConcat("Table\n", FullTable(block.rows));
      NothingVisible("");
    }
  }

  lemma {:induction false} SourceLoses(source: seq<DocxBlock>)
    ensures (exists b :: b in source && RepeatsCell(b)) ==> |Visible(SourceText(source))| < |Visible(FullText(source))|
    ensures !(exists b :: b in source && RepeatsCell(b)) ==> SourceText(source) == FullText(source)
  {
    hide Visible, RepeatsCell, BlockText, FullBlock;
    if source != [] {
      SourceLoses(source[1..]);
      BlockLoses(source[0]);
      assert forall b :: b in source <==> b == source[0] || b in source[1..];
      VisibleConcat(BlockText(source[0]), SourceText(source[1..]));
      VisibleConcat(FullBlock(source[0]), FullText(source[1..]));
    }
  }

  /**
    A document that `_extract_docx` reports as processed shows everything its paragraphs and cells show, exactly
    when no row of a table has two neighbouring cells, blank ones aside, with the same text.
   */
  lemma DocxLosesNothing(source: seq<DocxBlock>, limits: Limits)
    requires limits.Valid()
    requires ExtractDocx(source, limits).status == Processed
    ensures Visible(Concat(Texts(ExtractDocx(source, limits).pages))) == Visible(FullText(source))
       <==> forall b :: b in source ==> !RepeatsCell(b)
  {
    hide Visible, RepeatsCell, SourceText, FullText;
    DocxPagesVisible(source, limits);
    SourceLoses(source);
  }

  /** A table with the one row "5", "5" is reported as processed and shows a single 5. */
  lemma RepeatedCellLost(limits: Limits)
    requires limits.Valid()
    ensures var source := [Table([["5", "5"]])];
            && ExtractDocx(source, limits).status == Processed
            && Texts(ExtractDocx(source, limits).pages) == ["Table\n5"]
            && FullText(source) == "Table\n5 | 5"
  {
    hide TableText, FullTable, Sections, PageTexts, Normalise;
    var source, block := [Table([["5", "5"]])], "Table\n5";
    RepeatedCellDropped();
    assert SectionBlock(source[0]) == block;
    OneTable(source[0], block);
    OneBlockPage(block, DocxChunkSize(limits));
    OneSmallPage(OneSectionPages(Section("", [block]), 1, DocxChunkSize(limits)), limits);
    assert source[1..] == [];
    assert FullText(source) == FullBlock(source[0]) + FullText(source[1..]) == FullBlock(source[0]);
  }

  lemma OneTable(table: DocxBlock, block: string)
    requires table.Table? && SectionBlock(table) == block != ""
    ensures Sections([table], Section("", [])) == [Section("", [block])]
    ensures forall start, maximum: nat :: maximum > 0 ==>
              SectionsPages([Section("", [block])], start, maximum) == OneSectionPages(Section("", [block]), start, maximum)
  {
    hide SectionBlock;
    assert [table][1..] == [];
    assert [] + [block] == [block];
    var section := Section("", [block]);
    assert [section][1..] == [];
  }

  lemma OneBlockPage(block: string, maximum: nat)
    requires maximum > 0 && 0 < |block| <= maximum
    ensures PageTexts([block], maximum) == [block]
  {
    assert [block][1..] == [];
    assert AllPieces([block], maximum) == [block];
    assert [] + [block] == [block];
    assert Pack([], [block], maximum) == Pack([block], [], maximum) == [[block]];
  }

  lemma OneSmallPage(pages: seq<Page>, limits: Limits)
    requires limits.Valid() && |pages| == 1 && |pages[0].text| <= 1_000
    ensures Limited(pages, limits) == pages
  {
    assert pages[1..] == [];
    var kept := CutPage(pages[0], limits.pageTextLimit, limits.textLimit);
    assert kept == pages[0];
    assert FirstPages(pages, limits) == pages == [kept] + [];
    assert Keep(pages[1..], limits.pageTextLimit, limits.textLimit - |kept.text|) == [];
  }

  // ----- PDF

  /** A physical page: the text embedded in it, and what OCR gives if it runs. */
  datatype PdfPage = PdfPage(embedded: string, ocr: OcrText)

  datatype OcrText = NoOcr | OcrText(text: string)

  /** How many characters of the text are among those that `\w` matches. */
  function WordCount(text: string, wordChars: set<char>): nat {
    if text == "" then 0 else (if text[0] in wordChars then 1 else 0) + WordCount(text[1..], wordChars)
  }

  /** `_meaningful` of the normalised embedded text. */
  predicate Meaningful(page: PdfPage, wordChars: set<char>) {
    WordCount(Normalise(page.embedded, false), wordChars) >= 20
  }

  function PdfText(page: PdfPage, wordChars: set<char>): string {
    if Meaningful(page, wordChars) then Normalise(page.embedded, false)
    else if page.ocr.OcrText? then Normalise(page.ocr.text, false)
    else ""
  }

  predicate NeedsOcr(page: PdfPage, wordChars: set<char>) {
    !Meaningful(page, wordChars) && page.ocr.NoOcr?
  }

  function AllPdfPages(source: seq<PdfPage>, wordChars: set<char>, limits: Limits): (pages: seq<Page>)
    ensures Numbered(pages) && |pages| == Min(|source|, limits.maxPages)
  {
    seq(Min(|source|, limits.maxPages), i requires 0 <= i < |source| =>
      Page(i + 1, PdfPhysical(i + 1), PdfText(source[i], wordChars)))
  }

  function ExtractPdf(source: seq<PdfPage>, wordChars: set<char>, limits: Limits): Result {
    var read := source[..Min(|source|, limits.maxPages)];
    var pages := AllPdfPages(source, wordChars, limits);
    var result := Finish(pages, limits, |source| > limits.maxPages || exists p :: p in read && NeedsOcr(p, wordChars));
    if pages != [] && forall p :: p in read ==> NeedsOcr(p, wordChars) then result.(status := OcrRequired) else result
  }

  // ----- All three

  datatype Source =
    | Txt(decoded: string, truncatedInput: bool)
    | Docx(docxBlocks: seq<DocxBlock>)
    | Pdf(pdfPages: seq<PdfPage>, wordChars: set<char>)
    | Unreadable

  function Extract(source: Source, limits: Limits): Result
    requires limits.Valid()
  {
    match source
    case Txt(decoded, truncatedInput) => ExtractTxt(decoded, truncatedInput, limits)
    case Docx(blocks) => ExtractDocx(blocks, limits)
    case Pdf(pages, wordChars) => ExtractPdf(pages, wordChars, limits)
    case Unreadable => Result(Failed, [], 0)
  }

  lemma FinishConsistent(pages: seq<Page>, limits: Limits, alsoPartial: bool)
    requires Numbered(pages)
    ensures Consistent(Finish(pages, limits, alsoPartial))
    ensures |Finish(pages, limits, alsoPartial).pages| <= limits.maxPages
    ensures Finish(pages, limits, alsoPartial).characterCount <= limits.textLimit
  {
    LimitedNumbered(pages, limits);
    LimitsExact(pages, limits);
  }

  lemma PdfConsistent(source: seq<PdfPage>, wordChars: set<char>, limits: Limits)
    ensures Consistent(ExtractPdf(source, wordChars, limits))
    ensures |ExtractPdf(source, wordChars, limits).pages| <= limits.maxPages
    ensures ExtractPdf(source, wordChars, limits).characterCount <= limits.textLimit
  {
    hide NeedsOcr, PdfText, Limited;
    var read := source[..Min(|source|, limits.maxPages)];
    FinishConsistent(AllPdfPages(source, wordChars, limits), limits,
                     |source| > limits.maxPages || exists p :: p in read && NeedsOcr(p, wordChars));
  }

  /** Every extractor numbers its pages 1, 2, 3, ... and counts exactly their characters, within the budgets. */
  lemma ExtractConsistent(source: Source, limits: Limits)
    requires limits.Valid()
    ensures Consistent(Extract(source, limits))
    ensures |Extract(source, limits).pages| <= limits.maxPages
    ensures Extract(source, limits).characterCount <= limits.textLimit
  {
    hide Finish, ExtractPdf, AllDocxPages;
    match source {
      case Txt(decoded, truncatedInput) =>
        FinishConsistent(AllTxtPages(decoded, limits), limits, truncatedInput);
      case Docx(blocks) =>
        DocxPagesVisible(blocks, limits);
        FinishConsistent(AllDocxPages(blocks, limits), limits, false);
      case Pdf(pages, wordChars) =>
        PdfConsistent(pages, wordChars, limits);
      case Unreadable =>
    }
  }
}
