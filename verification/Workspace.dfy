/** The generated case documents: `_pages` spreads the records of a document over three pages. */
module Workspace {
  import opened Strings
  import opened Normalisation
  import opened Extraction
  import opened TextFile
  import opened Records

  /** The prose around the records: the opening lines, and per page its section, focus and cross-reference. */
  datatype Frame = Frame(front: seq<string>, section: seq<string>, focus: seq<string>, related: seq<string>, footer: string)

  /** A line extraction leaves alone and the analysis does not read as a record. */
  predicate PlainLine(s: string) {
    CleanLine(s) && !StartsWithTag(s)
  }

  /** A line without control characters, line breaks or trailing blanks. */
  predicate CleanLine(s: string) {
    AllAllowed(s, false) && (forall c :: c in s ==> InLine(c)) && NoTrailingBlank(s)
  }

  predicate FrameOk(frame: Frame) {
    && frame.front != [] && frame.front[0] != "" && frame.footer != ""
    && |frame.section| == |frame.focus| == |frame.related| == 3
    && frame.front[0][0] != MARK && Stripped(frame.front[0]) && Stripped(frame.footer) && PlainLine(frame.footer)
    && (forall s :: s in frame.front ==> PlainLine(s))
    && (forall s :: s in frame.section ==> PlainLine(s))
    && (forall s :: s in frame.focus ==> PlainLine(s))
    && (forall s :: s in frame.related ==> PlainLine(s))
  }

  datatype Triple = Triple(key: string, value: string, detail: string)

  function RecordLine(record: Triple): Line {
    Record(record.key, record.value, record.detail)
  }

  predicate RecordOk(record: Triple) {
    WellFormed(RecordLine(record)) && CleanLine(Print(RecordLine(record)))
  }

  predicate DocumentOk(frame: Frame, records: seq<Triple>) {
    FrameOk(frame) && records != [] && forall r :: r in records ==> RecordOk(r)
  }

  // ----- _pages

  /** `records[start::3]` */
  function EveryThird(records: seq<Triple>, start: nat): seq<Triple>
    decreases |records| - start
  {
    if start >= |records| then [] else [records[start]] + EveryThird(records, start + 3)
  }

  function Selected(records: seq<Triple>, k: nat): seq<Triple>
    requires records != []
  {
    var chosen := EveryThird(records, k);
    if chosen == [] then [records[k % |records|]] else chosen
  }

  function RecordLines(records: seq<Triple>): (r: seq<Line>)
    ensures |r| == |records|
    ensures forall i :: 0 <= i < |r| ==> r[i] == RecordLine(records[i])
  {
    seq(|records|, i requires 0 <= i < |records| => RecordLine(records[i]))
  }

  function Plains(texts: seq<string>): (r: seq<Line>)
    ensures |r| == |texts|
    ensures forall i :: 0 <= i < |r| ==> r[i] == Plain(texts[i])
  {
    seq(|texts|, i requires 0 <= i < |texts| => Plain(texts[i]))
  }

  function Opening(frame: Frame, k: nat): seq<Line>
    requires FrameOk(frame) && k < 3
  {
    Plains(frame.front) + [Plain(frame.section[k]), Plain(""), Plain(frame.focus[k]), Plain("")]
  }

  function Closing(frame: Frame, k: nat): seq<Line>
    requires FrameOk(frame) && k < 3
  {
    [Plain(""), Plain(frame.related[k]), Plain(""), Plain(frame.footer)]
  }

  function DocumentPage(frame: Frame, records: seq<Triple>, k: nat): seq<Line>
    requires FrameOk(frame) && records != [] && k < 3
  {
    Opening(frame, k) + (RecordLines(Selected(records, k)) + Closing(frame, k))
  }

  function DocumentPages(frame: Frame, records: seq<Triple>): seq<seq<Line>>
    requires FrameOk(frame) && records != []
  {
    [DocumentPage(frame, records, 0), DocumentPage(frame, records, 1), DocumentPage(frame, records, 2)]
  }

  // ----- Lines that make a page text

  lemma {:induction false} CleanJoin(lines: seq<string>)
    requires forall s :: s in lines ==> CleanLine(s)
    ensures AllAllowed(Join(lines, "\n"), false) && NoTrailingBlank(Join(lines, "\n"))
  {
    if |lines| == 1 {
      assert lines[0] in lines;
    } else if |lines| > 1 {
      assert lines[0] in lines;
      var rest := Join(lines[1..], "\n");
      CleanJoin(lines[1..]);
      Glue(lines[0], "\n", rest);
      assert Join(lines, "\n") == lines[0] + ("\n" + rest);
    }
  }

  lemma {:induction false} JoinEnds(lines: seq<string>)
    requires lines != [] && lines[0] != "" && lines[|lines| - 1] != ""
    ensures var text := Join(lines, "\n");
            && text != "" && text[0] == lines[0][0]
            && text[|text| - 1] == lines[|lines| - 1][|lines[|lines| - 1]| - 1]
  {
    if |lines| > 1 {
      JoinLast(lines);
    }
  }

  lemma {:induction false} JoinLast(lines: seq<string>)
    requires lines != [] && lines[|lines| - 1] != ""
    ensures var text := Join(lines, "\n");
            && text != "" && text[|text| - 1] == lines[|lines| - 1][|lines[|lines| - 1]| - 1]
  {
    if |lines| > 1 {
      JoinLast(lines[1..]);
      var rest := Join(lines[1..], "\n");
      assert Join(lines, "\n") == lines[0] + "\n" + rest;
    }
  }

  /** Clean lines between a first and last one that show something at their ends are a page text. */
  lemma LinesMakePage(lines: seq<string>)
    requires lines != [] && lines[0] != "" && lines[|lines| - 1] != ""
    requires forall s :: s in lines ==> CleanLine(s)
    requires Stripped(lines[0]) && Stripped(lines[|lines| - 1])
    ensures IsPageText(Join(lines, "\n"))
  {
    hide NoTrailingBlank, Normalise, IsSpace, Join;
    CleanJoin(lines);
    JoinEnds(lines);
    NormalisedIffFixed(Join(lines, "\n"), false);
  }

  lemma {:induction false} PrintedAt(lines: seq<Line>)
    ensures |PrintEach(lines)| == |lines|
    ensures forall i :: 0 <= i < |lines| ==> PrintEach(lines)[i] == Print(lines[i])
  {
    if lines != [] {
      PrintedAt(lines[1..]);
    }
  }

  // ----- The pages of a document

  /** The stride is exact: item `j` is the record at position `start + 3 * j`, as far as there are records. */
  lemma {:induction false} EveryThirdExact(records: seq<Triple>, start: nat)
    ensures var chosen := EveryThird(records, start);
            && (forall j :: 0 <= j < |chosen| ==> start + 3 * j < |records| && chosen[j] == records[start + 3 * j])
            && start + 3 * |chosen| >= |records|
    decreases |records| - start
  {
    if start < |records| {
      EveryThirdExact(records, start + 3);
      var chosen, rest := EveryThird(records, start), EveryThird(records, start + 3);
      forall j | 0 <= j < |chosen|
        ensures start + 3 * j < |records| && chosen[j] == records[start + 3 * j]
      {
        if j > 0 {
          assert chosen[j] == rest[j - 1];
        }
      }
    }
  }

  lemma SelectedExact(records: seq<Triple>, k: nat)
    requires records != []
    ensures forall r :: r in Selected(records, k) ==> r in records
  {
    EveryThirdExact(records, k);
  }

  lemma DocumentLine(frame: Frame, records: seq<Triple>, k: nat, line: Line)
    requires DocumentOk(frame, records) && k < 3
    requires line in DocumentPage(frame, records, k)
    ensures WellFormed(line) && CleanLine(Print(line))
    ensures line.Record? ==> Triple(line.key, line.value, line.detail) in records
  {
    hide CleanLine, WellFormed, Print, PlainLine, Opening, Closing, Selected;
    SelectedExact(records, k);
    var chosen := RecordLines(Selected(records, k));
    if line in chosen {
      var i :| 0 <= i < |chosen| && chosen[i] == line;
      assert Selected(records, k)[i] in records && RecordOk(Selected(records, k)[i]);
    } else {
      PlainOk(frame, k, line);
    }
  }

  lemma BlankLine()
    ensures PlainLine("")
  {
  }

  lemma PlainOk(frame: Frame, k: nat, line: Line)
    requires FrameOk(frame) && k < 3 && line in Opening(frame, k) + Closing(frame, k)
    ensures line.Plain? && WellFormed(line) && CleanLine(Print(line))
  {
    BlankLine();
    assert line.Plain? && PlainLine(line.text);
  }

  lemma DocumentPageOk(frame: Frame, records: seq<Triple>, k: nat)
    requires DocumentOk(frame, records) && k < 3
    ensures AllWellFormed(DocumentPage(frame, records, k))
    ensures IsPageText(PrintPage(DocumentPage(frame, records, k)))
  {
    hide CleanLine, WellFormed, StartsWithTag, IsPageText, Stripped, Selected;
    var lines := DocumentPage(frame, records, k);
    PrintedAt(lines);
    forall l | l in lines
      ensures WellFormed(l) && CleanLine(Print(l))
    {
      DocumentLine(frame, records, k, l);
    }
    assert lines[0] == Plain(frame.front[0]) && lines[|lines| - 1] == Plain(frame.footer);
    LinesMakePage(PrintEach(lines));
  }

  // ----- End to end

  /** The observation a record gives on a page. */
  function Seen(record: Triple, page: nat, lower: string -> string): Observation {
    Observation(Slug(lower(record.key)), record.value, record.detail, page)
  }

  function SeenOn(records: seq<Triple>, page: nat, lower: string -> string): (r: seq<Observation>)
    ensures |r| == |records|
    ensures forall i :: 0 <= i < |r| ==> r[i] == Seen(records[i], page, lower)
  {
    if records == [] then [] else [Seen(records[0], page, lower)] + SeenOn(records[1..], page, lower)
  }

  lemma {:induction false} TriplesConcat(a: seq<Line>, b: seq<Line>, page: nat, lower: string -> string)
    ensures Triples(a + b, page, lower) == Triples(a, page, lower) + Triples(b, page, lower)
  {
    if a == [] {
      assert a + b == b;
    } else {
      assert (a + b)[1..] == a[1..] + b;
      TriplesConcat(a[1..], b, page, lower);
    }
  }

  lemma {:induction false} NoTriples(lines: seq<Line>, page: nat, lower: string -> string)
    requires forall l :: l in lines ==> l.Plain?
    ensures Triples(lines, page, lower) == []
  {
    if lines != [] {
      assert lines[0] in lines;
      NoTriples(lines[1..], page, lower);
    }
  }

  lemma {:induction false} RecordTriples(records: seq<Triple>, page: nat, lower: string -> string)
    ensures Triples(RecordLines(records), page, lower) == SeenOn(records, page, lower)
  {
    if records != [] {
      assert RecordLines(records)[1..] == RecordLines(records[1..]);
      RecordTriples(records[1..], page, lower);
    }
  }

  lemma PageTriples(frame: Frame, records: seq<Triple>, k: nat, lower: string -> string)
    requires DocumentOk(frame, records) && k < 3
    ensures Triples(DocumentPage(frame, records, k), k + 1, lower) == SeenOn(Selected(records, k), k + 1, lower)
  {
    hide Triples, Selected, RecordOk, PlainLine, SeenOn;
    var chosen := RecordLines(Selected(records, k));
    NoTriples(Opening(frame, k), k + 1, lower);
    NoTriples(Closing(frame, k), k + 1, lower);
    RecordTriples(Selected(records, k), k + 1, lower);
    TriplesConcat(Opening(frame, k), chosen + Closing(frame, k), k + 1, lower);
    TriplesConcat(chosen, Closing(frame, k), k + 1, lower);
  }

  lemma ThreePages(pages: seq<seq<Line>>, lower: string -> string)
    requires |pages| == 3
    ensures AllTriples(pages, 1, lower)
         == Triples(pages[0], 1, lower) + (Triples(pages[1], 2, lower) + Triples(pages[2], 3, lower))
  {
    assert pages[2..][1..] == [] && pages[1..][1..] == pages[2..];
    assert AllTriples(pages[2..], 3, lower) == Triples(pages[2], 3, lower);
    assert AllTriples(pages[1..], 2, lower) == Triples(pages[1], 2, lower) + AllTriples(pages[2..], 3, lower);
  }

  /** What the analysis of a document has to see: the selections of the three pages, in order. */
  function Expected(records: seq<Triple>, lower: string -> string): seq<Observation>
    requires records != []
  {
    SeenOn(Selected(records, 0), 1, lower) + (SeenOn(Selected(records, 1), 2, lower) + SeenOn(Selected(records, 2), 3, lower))
  }

  function WrittenDocument(frame: Frame, records: seq<Triple>): string
    requires DocumentOk(frame, records)
  {
    WriteTxt(PrintPages(DocumentPages(frame, records)))
  }

  lemma SelectedThird(records: seq<Triple>, i: nat)
    requires i < |records|
    ensures |Selected(records, i % 3)| > i / 3 && Selected(records, i % 3)[i / 3] == records[i]
  {
    EveryThirdExact(records, i % 3);
  }

  /** Every record is seen, on the page its position selects. */
  lemma EveryRecordExpected(records: seq<Triple>, i: nat, lower: string -> string)
    requires i < |records|
    ensures Seen(records[i], i % 3 + 1, lower) in Expected(records, lower)
  {
    hide Seen, SeenOn, Selected;
    SelectedThird(records, i);
    var first, second, third := SeenOn(Selected(records, 0), 1, lower), SeenOn(Selected(records, 1), 2, lower),
                                SeenOn(Selected(records, 2), 3, lower);
    var o := Seen(records[i], i % 3 + 1, lower);
    if i % 3 == 0 {
      assert first[i / 3] == o;
    } else if i % 3 == 1 {
      assert second[i / 3] == o;
    } else {
      assert third[i / 3] == o;
    }
    assert o in first || o in second || o in third;
  }

  lemma FirstCharacter(frame: Frame, records: seq<Triple>)
    requires DocumentOk(frame, records)
    ensures !StartsWithMark(WrittenDocument(frame, records))
  {
    hide PlainLine, RecordOk, IsPageText, Selected, Stripped;
    var pages := DocumentPages(frame, records);
    var lines := pages[0];
    PrintedAt(lines);
    assert PrintEach(lines)[0] == frame.front[0];
    assert PrintPage(lines)[0] == frame.front[0][0];
    assert PrintPages(pages)[0] == PrintPage(lines);
  }

  /**
    A generated document within the limits, written, extracted and analysed: it is processed exactly when it is
    within the byte budget, and then exactly the records selected for each page are observed, page by page in order.
   */
  lemma DocumentRoundTrip(frame: Frame, records: seq<Triple>, limits: Limits, lower: string -> string)
    requires limits.Valid() && DocumentOk(frame, records)
    requires WithinLimits(PrintPages(DocumentPages(frame, records)), limits)
    ensures var text := WrittenDocument(frame, records);
            var result := Extract(ReadBack(text, limits), limits);
            && (result.status == Processed <==> FitsBudget(text, limits))
            && (FitsBudget(text, limits) ==> SourceObservations(result.pages, lower) == Expected(records, lower))
  {
    hide Extract, ReadBack, SourceObservations, WriteTxt, WithinLimits, AllTriples, Triples, DocumentPage, RecordOk,
      WellFormed, IsPageText, PrintPage, FrameOk, Selected, SeenOn, FitsBudget, StartsWithMark;
    var pages := DocumentPages(frame, records);
    DocumentPageOk(frame, records, 0);
    DocumentPageOk(frame, records, 1);
    DocumentPageOk(frame, records, 2);
    FirstCharacter(frame, records);
    RecordsRoundTrip(pages, limits, lower);
    ThreePages(pages, lower);
    PageTriples(frame, records, 0, lower);
    PageTriples(frame, records, 1, lower);
    PageTriples(frame, records, 2, lower);
  }
}
