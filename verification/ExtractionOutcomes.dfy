/** When each extractor reports which status, and what a reader of its pages sees of the source. */
module ExtractionOutcomes {
  import opened Strings
  import opened Normalisation
  import opened Paging
  import opened DocxTable
  import opened Extraction

  // ----- When nothing is cut

  /** Every text is within the page budget, all within the text budget, and the last begins before that is used up. */
  predicate WithinTextBudgets(pages: seq<Page>, pageTextLimit: nat, textLimit: nat) {
    && (forall i :: 0 <= i < |pages| ==> |pages[i].text| <= pageTextLimit)
    && TextTotal(pages) <= textLimit
    && (pages != [] ==> TextTotal(pages[..|pages| - 1]) < textLimit)
  }

  predicate WithinBudgets(pages: seq<Page>, limits: Limits) {
    |pages| <= limits.maxPages && WithinTextBudgets(pages, limits.pageTextLimit, limits.textLimit)
  }

  lemma {:induction false} KeepsAll(pages: seq<Page>, pageTextLimit: nat, remaining: nat)
    ensures Keep(pages, pageTextLimit, remaining) == pages <==> WithinTextBudgets(pages, pageTextLimit, remaining)
  {
    if pages != [] && remaining != 0 {
      var first, rest := pages[0], pages[1..];
      var kept := CutPage(first, pageTextLimit, remaining);
      var later := Keep(rest, pageTextLimit, remaining - |kept.text|);
      KeepsAll(rest, pageTextLimit, remaining - |kept.text|);
      assert pages == [first] + rest;
      assert Keep(pages, pageTextLimit, remaining) == pages <==> kept == first && later == rest by {
        assert ([kept] + later)[1..] == later && ([kept] + later)[0] == kept;
      }
      assert kept == first <==> |first.text| <= pageTextLimit && |first.text| <= remaining;
      WithinCons(first, rest, pageTextLimit, remaining);
    }
  }

  lemma WithinCons(first: Page, rest: seq<Page>, pageTextLimit: nat, remaining: nat)
    requires remaining > 0
    ensures WithinTextBudgets([first] + rest, pageTextLimit, remaining)
       <==> |first.text| <= pageTextLimit && |first.text| <= remaining
            && WithinTextBudgets(rest, pageTextLimit, remaining - |first.text|)
  {
    var pages := [first] + rest;
    assert pages[1..] == rest;
    assert TextTotal(pages) == |first.text| + TextTotal(rest);
    assert forall i :: 0 <= i < |rest| ==> rest[i] == pages[i + 1];
    if rest == [] {
      assert pages[..0] == [];
    } else {
      assert pages[..|pages| - 1][1..] == rest[..|rest| - 1];
      assert TextTotal(pages[..|pages| - 1]) == |first.text| + TextTotal(rest[..|rest| - 1]);
    }
  }

  /** `_apply_limits` returns its input exactly when that is within the budgets. */
  lemma UncutExactly(pages: seq<Page>, limits: Limits)
    ensures Limited(pages, limits) == pages <==> WithinBudgets(pages, limits)
  {
    hide Keep, WithinTextBudgets;
    LimitsExact(pages, limits);
    KeepsAll(FirstPages(pages, limits), limits.pageTextLimit, limits.textLimit);
    if |pages| <= limits.maxPages {
      assert FirstPages(pages, limits) == pages;
    }
  }

  /** A text file is processed exactly when all of it was read and its pages are within the budgets. */
  lemma TxtStatus(decoded: string, truncatedInput: bool, limits: Limits)
    requires limits.Valid()
    ensures var status := ExtractTxt(decoded, truncatedInput, limits).status;
            && (status == Processed <==> !truncatedInput && WithinBudgets(AllTxtPages(decoded, limits), limits))
            && (status == PartiallyProcessed <==> status != Processed)
  {
    hide WithinBudgets, AllTxtPages, Limited;
    UncutExactly(AllTxtPages(decoded, limits), limits);
  }

  lemma DocxStatus(source: seq<DocxBlock>, limits: Limits)
    requires limits.Valid()
    ensures var status := ExtractDocx(source, limits).status;
            && (status == Processed <==> WithinBudgets(AllDocxPages(source, limits), limits))
            && (status == PartiallyProcessed <==> status != Processed)
  {
    hide WithinBudgets, AllDocxPages, Limited;
    UncutExactly(AllDocxPages(source, limits), limits);
  }

  // ----- How large the pages of TXT and DOCX files are

  lemma {:induction false} WholePieces(blocks: seq<string>, maximum: nat)
    requires maximum > 0 && JoinLength(blocks) <= maximum
    ensures AllPieces(blocks, maximum) == blocks
  {
    if blocks != [] {
      assert [blocks[0]] + blocks[1..] == blocks;
      JoinLengthConcat([blocks[0]], blocks[1..]);
      WholePieces(blocks[1..], maximum);
    }
  }

  lemma SingleGroup(groups: seq<seq<string>>)
    requires |groups| == 1
    ensures Flatten(groups) == groups[0] && JoinEach(groups) == [Join(groups[0], GAP)]
  {
    assert groups[1..] == [];
    assert groups[0] + Flatten([]) == groups[0];
  }

  /** Blocks that fit on one page together are put on one page. */
  lemma OnePage(blocks: seq<string>, maximum: nat)
    requires maximum > 0 && blocks != [] && JoinLength(blocks) <= maximum
    ensures PageTexts(blocks, maximum) == [Join(blocks, GAP)]
  {
    hide AllPieces, PageTexts, Flatten, JoinLength, Join;
    WholePieces(blocks, maximum);
    JoinLengthIsLength(blocks);
    PageTextsEmpty(blocks, maximum);
    SingleGroup([blocks]);
    GreedyPagingOptimal(blocks, maximum, [blocks]);
    assert |PageTexts(blocks, maximum)| == 1;
    var greedy: seq<seq<string>> :| Flatten(greedy) == blocks && JoinEach(greedy) == PageTexts(blocks, maximum);
    assert |JoinEach(greedy)| == |greedy|;
    SingleGroup(greedy);
  }

  lemma {:induction false} SplitShort(s: string)
    ensures JoinLength(SplitParagraphs(s)) <= |s|
    decreases |s|
  {
    var n := NewlineRun(s);
    if n >= 2 {
      SplitShort(s[n..]);
      assert ([""] + SplitParagraphs(s[n..]))[1..] == SplitParagraphs(s[n..]);
    } else if s != "" {
      SplitShort(s[1..]);
      var rest := SplitParagraphs(s[1..]);
      assert ([[s[0]] + rest[0]] + rest[1..])[1..] == rest[1..];
    }
  }

  lemma {:induction false} ParagraphsShort(parts: seq<string>)
    ensures JoinLength(Paragraphs(parts)) <= JoinLength(parts)
  {
    hide Strip;
    if parts != [] {
      ParagraphsShort(parts[1..]);
      var tail := Paragraphs(parts[1..]);
      assert [Strip(parts[0])] + tail == [Strip(parts[0])] + tail && ([Strip(parts[0])] + tail)[1..] == tail;
      assert [] + tail == tail;
    }
  }

  /**
    The logical pages of a text without form feeds have at most 12000 characters and at most the page budget, and a
    text within both bounds is one page.
   */
  lemma TxtPageSize(decoded: string, limits: Limits)
    requires limits.Valid() && FORM_FEED !in Normalise(decoded, true)
    ensures forall page :: page in AllTxtPages(decoded, limits) ==>
              |page.text| <= 12_000 && |page.text| <= limits.pageTextLimit
    ensures |decoded| <= 12_000 && |decoded| <= limits.pageTextLimit ==> |AllTxtPages(decoded, limits)| == 1
  {
    hide Normalise, ChunkTexts;
    var normalized, maximum := Normalise(decoded, true), TxtPageLimit(limits);
    var chunks := TxtChunks(decoded, limits);
    ChunkTextsKeep(normalized, maximum);
    forall i | 0 <= i < |chunks|
      ensures |Normalise(chunks[i], false)| <= maximum
    {
      NormaliseResult(chunks[i], false);
    }
    NormaliseResult(decoded, true);
    if |decoded| <= maximum {
      OneChunk(normalized, maximum);
    }
  }

  lemma OneChunk(value: string, maximum: nat)
    requires maximum > 0 && |value| <= maximum
    ensures |ChunkTexts(value, maximum)| == 1
  {
    SplitShort(value);
    ParagraphsShort(SplitParagraphs(value));
    if Paragraphs(SplitParagraphs(value)) != [] {
      OnePage(Paragraphs(SplitParagraphs(value)), maximum);
    }
  }

  /**
    The pages of a DOCX section have at most 20000 characters and at most the page budget, and a section within both
    bounds is one page: its blocks with an empty line between them.
   */
  lemma DocxPageSize(section: Section, start: nat, limits: Limits)
    requires limits.Valid()
    ensures var pages := OneSectionPages(section, start, DocxChunkSize(limits));
            && (forall page :: page in pages ==> |page.text| <= 20_000 && |page.text| <= limits.pageTextLimit)
            && (section.blocks != [] && |Join(section.blocks, "\n\n")| <= 20_000
                && |Join(section.blocks, "\n\n")| <= limits.pageTextLimit ==>
                  pages == [Page(start, DocxSection(start, section.heading), Join(section.blocks, "\n\n"))])
  {
    var maximum := DocxChunkSize(limits);
    PageTextsKeep(section.blocks, maximum);
    JoinLengthIsLength(section.blocks);
    if section.blocks != [] && JoinLength(section.blocks) <= maximum {
      OnePage(section.blocks, maximum);
    }
  }

  // ----- Sections open at headings

  /** A block of text, and whether it is a heading. */
  datatype Mark = Mark(text: string, opens: bool)

  /** The paragraphs and tables of a document that show anything. */
  function Marks(source: seq<DocxBlock>): seq<Mark> {
    if source == [] then []
    else
      var text := SectionBlock(source[0]);
      (if text == "" then [] else [Mark(text, source[0].Paragraph? && source[0].isHeading)]) + Marks(source[1..])
  }

  function SectionMarks(section: Section): (r: seq<Mark>)
    ensures |r| == |section.blocks|
  {
    seq(|section.blocks|, i requires 0 <= i < |section.blocks| =>
      Mark(section.blocks[i], i == 0 && section.heading != ""))
  }

  function AllMarks(sections: seq<Section>): seq<Mark> {
    if sections == [] then [] else SectionMarks(sections[0]) + AllMarks(sections[1..])
  }

  /** The heading, if there is one, is the first block. */
  predicate Headed(section: Section) {
    section.heading != "" ==> section.blocks != [] && section.blocks[0] == section.heading
  }

  lemma MarksOpen(open: Section, later: seq<Section>)
    ensures AllMarks((if open.blocks == [] then [] else [open]) + later) == SectionMarks(open) + AllMarks(later)
  {
    assert ([open] + later)[1..] == later && [] + later == later;
  }

  lemma {:induction false} SectionsMarked(source: seq<DocxBlock>, open: Section)
    requires Headed(open)
    ensures var sections := Sections(source, open);
            && AllMarks(sections) == SectionMarks(open) + Marks(source)
            && (forall section :: section in sections ==> section.blocks != [] && Headed(section))
            && (forall k :: 1 <= k < |sections| ==> sections[k].heading != "")
            && (open.blocks != [] ==> sections != [] && sections[0].heading == open.heading)
    decreases |source|
  {
    hide SectionBlock;
    if source == [] {
      MarksOpen(open, []);
      assert (if open.blocks == [] then [] else [open]) + [] == Sections(source, open);
    } else {
      var text, rest := SectionBlock(source[0]), source[1..];
      if text == "" {
        SectionsMarked(rest, open);
        assert [] + Marks(rest) == Marks(rest);
      } else if source[0].Paragraph? && source[0].isHeading {
        var next := Section(text, [text]);
        SectionsMarked(rest, next);
        MarksOpen(open, Sections(rest, next));
        assert SectionMarks(next) == [Mark(text, true)];
        Associative(SectionMarks(open), SectionMarks(next), Marks(rest));
      } else {
        var next := open.(blocks := open.blocks + [text]);
        SectionsMarked(rest, next);
        assert SectionMarks(next) == SectionMarks(open) + [Mark(text, false)];
        Associative(SectionMarks(open), [Mark(text, false)], Marks(rest));
      }
    }
  }

  /**
    The sections hold every block that shows anything, in order; each after the first begins with a heading, which
    names it, and no heading stands inside one.
   */
  lemma SectionsAtHeadings(source: seq<DocxBlock>)
    ensures var sections := Sections(source, Section("", []));
            && AllMarks(sections) == Marks(source)
            && (forall section :: section in sections ==> section.blocks != [] && Headed(section))
            && (forall k :: 1 <= k < |sections| ==> sections[k].heading != "")
  {
    SectionsMarked(source, Section("", []));
    assert [] + Marks(source) == Marks(source);
  }

  // ----- PDF

  /** The text shows what the source text shows, in normal form; a source already in that form is unchanged. */
  predicate Renders(text: string, source: string) {
    && IsNormalised(text, false) && Visible(text) == Visible(source)
    && (IsNormalised(source, false) ==> text == source)
  }

  /** Neither is there enough text embedded in the page nor did OCR read it. */
  predicate LacksText(page: PdfPage, wordChars: set<char>) {
    WordCount(Normalise(page.embedded, false), wordChars) < 20 && page.ocr == NoOcr
  }

  /** The text is what its physical page holds: the embedded text from 20 word characters on, else what OCR read. */
  predicate ShowsPage(text: string, page: PdfPage, wordChars: set<char>) {
    if WordCount(Normalise(page.embedded, false), wordChars) >= 20 then Renders(text, page.embedded)
    else if page.ocr != NoOcr then Renders(text, page.ocr.text)
    else text == ""
  }

  lemma NormaliseRenders(source: string)
    ensures Renders(Normalise(source, false), source)
  {
    hide Visible, IsNormalised;
    NormaliseResult(source, false);
    NormalisedIffFixed(source, false);
  }

  /** Before the text budgets: one page for each physical page within the page budget, showing it. */
  lemma PdfPagesShow(source: seq<PdfPage>, wordChars: set<char>, limits: Limits)
    ensures var pages := AllPdfPages(source, wordChars, limits);
            && |pages| == Min(|source|, limits.maxPages)
            && forall i :: 0 <= i < |pages| ==>
                 pages[i].number == i + 1 && ShowsPage(pages[i].text, source[i], wordChars)
  {
    hide Renders, Normalise, WordCount;
    forall i | 0 <= i < Min(|source|, limits.maxPages)
      ensures ShowsPage(AllPdfPages(source, wordChars, limits)[i].text, source[i], wordChars)
    {
      NormaliseRenders(source[i].embedded);
      if source[i].ocr != NoOcr {
        NormaliseRenders(source[i].ocr.text);
      }
    }
  }

  /** The status of a PDF: which pages lack text, whether all were read, and whether anything was cut. */
  lemma PdfStatus(source: seq<PdfPage>, wordChars: set<char>, limits: Limits)
    requires limits.Valid()
    ensures var status, n := ExtractPdf(source, wordChars, limits).status, Min(|source|, limits.maxPages);
            && (status == OcrRequired <==> source != [] && forall i :: 0 <= i < n ==> LacksText(source[i], wordChars))
            && (status == Processed <==>
                  && |source| <= limits.maxPages
                  && (forall i :: 0 <= i < n ==> !LacksText(source[i], wordChars))
                  && WithinBudgets(AllPdfPages(source, wordChars, limits), limits))
            && (status == PartiallyProcessed <==> status != OcrRequired && status != Processed)
  {
    hide Normalise, WordCount, Limited, WithinBudgets;
    var n := Min(|source|, limits.maxPages);
    var read := source[..n];
    UncutExactly(AllPdfPages(source, wordChars, limits), limits);
    assert forall i :: 0 <= i < n ==> read[i] == source[i] && read[i] in read;
    assert forall p :: LacksText(p, wordChars) <==> NeedsOcr(p, wordChars);
  }

  /** A PDF reported as processed shows every physical page: its embedded text, or what OCR read. */
  lemma PdfLosesNothing(source: seq<PdfPage>, wordChars: set<char>, limits: Limits)
    requires limits.Valid() && ExtractPdf(source, wordChars, limits).status == Processed
    ensures var pages := ExtractPdf(source, wordChars, limits).pages;
            && |pages| == |source|
            && forall i :: 0 <= i < |source| ==>
                 && pages[i].number == i + 1 && !LacksText(source[i], wordChars)
                 && ShowsPage(pages[i].text, source[i], wordChars)
  {
    hide ShowsPage, LacksText, WithinBudgets, Limited;
    PdfStatus(source, wordChars, limits);
    PdfPagesShow(source, wordChars, limits);
    UncutExactly(AllPdfPages(source, wordChars, limits), limits);
  }

  /** Whatever the status, the pages kept are the first ones, each a leading part of what shows its physical page. */
  lemma PdfKeepsPrefixes(source: seq<PdfPage>, wordChars: set<char>, limits: Limits)
    ensures var pages := ExtractPdf(source, wordChars, limits).pages;
            && |pages| <= |source|
            && forall i :: 0 <= i < |pages| ==>
                 && pages[i].number == i + 1
                 && exists whole :: pages[i].text <= whole && ShowsPage(whole, source[i], wordChars)
  {
    hide ShowsPage, Limited, NeedsOcr, PdfText;
    var all := AllPdfPages(source, wordChars, limits);
    PdfPagesShow(source, wordChars, limits);
    LimitsExact(all, limits);
    assert ExtractPdf(source, wordChars, limits).pages == Limited(all, limits);
    forall i | 0 <= i < |Limited(all, limits)|
      ensures exists whole :: Limited(all, limits)[i].text <= whole && ShowsPage(whole, source[i], wordChars)
    {
      assert Limited(all, limits)[i].text <= all[i].text;
    }
  }

  // ----- Reading a PDF page by page

  lemma WordCountEnd()
    ensures forall wordChars :: WordCount("", wordChars) == 0
  {
  }

  lemma {:induction false} WordCountSnoc(text: string, c: char, wordChars: set<char>)
    ensures WordCount(text + [c], wordChars) == WordCount(text, wordChars) + if c in wordChars then 1 else 0
  {
    if text != "" {
      assert (text + [c])[1..] == text[1..] + [c];
      WordCountSnoc(text[1..], c, wordChars);
    }
  }

  /** `_meaningful` */
  method IsMeaningful(text: string, wordChars: set<char>) returns (meaningful: bool)
    ensures meaningful <==> WordCount(text, wordChars) >= 20
  {
    var found := 0;
    for i := 0 to |text|
      invariant found == WordCount(text[..i], wordChars)
    {
      assert text[..i + 1] == text[..i] + [text[i]];
      WordCountSnoc(text[..i], text[i], wordChars);
      if text[i] in wordChars {
        found := found + 1;
      }
    }
    assert text[..|text|] == text;
    meaningful := found >= 20;
  }

  /** How many of the pages lack text. */
  function Lacking(source: seq<PdfPage>, wordChars: set<char>): nat {
    if source == [] then 0
    else
      var last := |source| - 1;
      Lacking(source[..last], wordChars) + if LacksText(source[last], wordChars) then 1 else 0
  }

  lemma {:induction false} LackingAllOrNone(source: seq<PdfPage>, wordChars: set<char>)
    ensures Lacking(source, wordChars) <= |source|
    ensures Lacking(source, wordChars) == |source|
       <==> forall i :: 0 <= i < |source| ==> LacksText(source[i], wordChars)
    ensures Lacking(source, wordChars) == 0
       <==> forall i :: 0 <= i < |source| ==> !LacksText(source[i], wordChars)
  {
    hide LacksText;
    if source != [] {
      LackingAllOrNone(source[..|source| - 1], wordChars);
    }
  }

  /** One round: the text chosen for a page and the count of pages without any. */
  lemma PdfRound(source: seq<PdfPage>, wordChars: set<char>, limits: Limits, i: nat)
    requires i < |source| && i < limits.maxPages
    ensures Lacking(source[..i + 1], wordChars)
         == Lacking(source[..i], wordChars) + if LacksText(source[i], wordChars) then 1 else 0
    ensures AllPdfPages(source, wordChars, limits)[..i + 1]
         == AllPdfPages(source, wordChars, limits)[..i] + [Page(i + 1, PdfPhysical(i + 1), PdfText(source[i], wordChars))]
  {
    hide LacksText, PdfText;
    assert source[..i + 1][..i] == source[..i];
  }

  lemma PdfResult(source: seq<PdfPage>, wordChars: set<char>, limits: Limits)
    ensures var result := ExtractPdf(source, wordChars, limits);
            var limited := Limited(AllPdfPages(source, wordChars, limits), limits);
            result.pages == limited && result.characterCount == TextTotal(limited)
  {
    hide Limited, NeedsOcr, TextTotal;
  }

  /** The loop of `_extract_pdf` over the physical pages, and the status it settles on. */
  method ReadPdf(source: seq<PdfPage>, wordChars: set<char>, limits: Limits) returns (result: Result)
    requires limits.Valid()
    ensures result == ExtractPdf(source, wordChars, limits)
    ensures result.status == Processed ==>
              && |result.pages| == |source|
              && forall i :: 0 <= i < |source| ==> ShowsPage(result.pages[i].text, source[i], wordChars)
  {
    hide Normalise, WordCount, Limited, WithinBudgets, ShowsPage, ExtractPdf, Lacking, AllPdfPages, TextTotal;
    var pages, ocrRequired := [], 0;
    var index := 0;
    LackingAllOrNone(source[..0], wordChars);
    while index < |source| && index < limits.maxPages
      invariant index <= |source| && index <= limits.maxPages
      invariant pages == AllPdfPages(source, wordChars, limits)[..index]
      invariant ocrRequired == Lacking(source[..index], wordChars)
    {
      var page := source[index];
      var text := Normalise(page.embedded, false);
      var meaningful := IsMeaningful(text, wordChars);
      if !meaningful {
        match page.ocr {
          case OcrText(read) =>
            text := Normalise(read, false);
          case NoOcr =>
            text := "";
            ocrRequired := ocrRequired + 1;
        }
      }
      PdfRound(source, wordChars, limits, index);
      pages := pages + [Page(index + 1, PdfPhysical(index + 1), text)];
      index := index + 1;
    }
    assert pages == AllPdfPages(source, wordChars, limits);
    LackingAllOrNone(source[..index], wordChars);
    PdfStatus(source, wordChars, limits);
    PdfResult(source, wordChars, limits);
    var limited, characterCount, _, truncated := ApplyLimits(pages, limits);
    UncutExactly(pages, limits);
    truncated := truncated || |source| > limits.maxPages;
    var status := if pages != [] && ocrRequired == |pages| then OcrRequired
      else if ocrRequired > 0 || truncated then PartiallyProcessed
      else Processed;
    result := Result(status, limited, characterCount);
    if status == Processed {
      PdfLosesNothing(source, wordChars, limits);
    }
  }
}
