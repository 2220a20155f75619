/**
  The record format shared by the workspace writer (`_pages`, `_write_txt`) and the analysis
  (`RECORD_PATTERN`, `_source_observations`): lines `RECORD: key | value | detail`, one page per form feed.
 */
module Records {
  import opened Strings
  import opened Normalisation
  import opened Paging
  import opened Extraction
  import opened TextFile

  // ----- RECORD_PATTERN, with the backtracking of its three `\s*`

  /** What one match captures, and how many characters it consumes. */
  datatype Match = NoMatch | Match(key: string, value: string, detail: string, length: nat)

  datatype Capture = NoCapture | Capture(text: string, length: nat)

  function SpaceRun(s: string): (n: nat)
    ensures n <= |s|
    ensures n < |s| ==> !IsSpace(s[n])
  {
    if s != "" && IsSpace(s[0]) then 1 + SpaceRun(s[1..]) else 0
  }

  predicate InField(c: char) {
    c != '|' && InLine(c)
  }

  predicate InLine(c: char) {
    c != '\r' && c != '\n'
  }

  /** The longest run matching `[^|\r\n]+`. */
  function FieldRun(s: string): (n: nat)
    ensures n <= |s|
  {
    if s != "" && InField(s[0]) then 1 + FieldRun(s[1..]) else 0
  }

  /** The longest run matching `[^\r\n]+`. */
  function LineRun(s: string): (n: nat)
    ensures n <= |s|
  {
    if s != "" && InLine(s[0]) then 1 + LineRun(s[1..]) else 0
  }

  /** `\s*([^\r\n]+)` with `skip` characters given to `\s*` first, fewer if the rest fails. */
  function DetailFrom(s: string, skip: nat): (r: Capture)
    requires skip <= |s|
    ensures r.Capture? ==> 0 < r.length <= |s|
  {
    var n := LineRun(s[skip..]);
    if n > 0 then Capture(s[skip..skip + n], skip + n)
    else if skip == 0 then NoCapture
    else DetailFrom(s, skip - 1)
  }

  /** `\s*([^|\r\n]+)\|` followed by the detail. */
  function ValueFrom(s: string, skip: nat): (r: Match)
    requires skip <= |s|
    ensures r.Match? ==> 0 < r.length <= |s|
  {
    var end := skip + FieldRun(s[skip..]);
    if end > skip && end < |s| && s[end] == '|' && MatchDetail(s[end + 1..]).Capture? then
      var detail := MatchDetail(s[end + 1..]);
      Match("", s[skip..end], detail.text, end + 1 + detail.length)
    else if skip == 0 then NoMatch
    else ValueFrom(s, skip - 1)
  }

  function MatchDetail(s: string): (r: Capture)
    ensures r.Capture? ==> 0 < r.length <= |s|
  {
    DetailFrom(s, SpaceRun(s))
  }

  /** `\s*([^|\r\n]+)\|` followed by the value and the detail. */
  function KeyFrom(s: string, skip: nat): (r: Match)
    requires skip <= |s|
    ensures r.Match? ==> 0 < r.length <= |s|
  {
    var end := skip + FieldRun(s[skip..]);
    if end > skip && end < |s| && s[end] == '|' && MatchValue(s[end + 1..]).Match? then
      var rest := MatchValue(s[end + 1..]);
      Match(s[skip..end], rest.value, rest.detail, end + 1 + rest.length)
    else if skip == 0 then NoMatch
    else KeyFrom(s, skip - 1)
  }

  function MatchValue(s: string): (r: Match)
    ensures r.Match? ==> 0 < r.length <= |s|
  {
    ValueFrom(s, SpaceRun(s))
  }

  const TAG := "RECORD:"

  function Upper(c: char): char {
    if 'a' <= c <= 'z' then c - 'a' + 'A' else c
  }

  /** The text starts with RECORD: in any letter case. */
  predicate StartsWithTag(s: string) {
    |s| >= 7 && forall i :: 0 <= i < 7 ==> Upper(s[i]) == TAG[i]
  }

  function MatchRecord(s: string): (r: Match)
    ensures r.Match? ==> 0 < r.length <= |s|
  {
    if !StartsWithTag(s) then NoMatch
    else
      var rest := KeyFrom(s[7..], SpaceRun(s[7..]));
      if rest.NoMatch? then NoMatch else rest.(length := 7 + rest.length)
  }

  /** `finditer`: `lineStart` says whether `^` matches in front of `s`. */
  function FindAll(lineStart: bool, s: string): seq<Match>
    decreases |s|
  {
    if s == "" then []
    else
      var found := if lineStart then MatchRecord(s) else NoMatch;
      if found.Match? then [found] + FindAll(s[found.length - 1] == '\n', s[found.length..])
      else FindAll(s[0] == '\n', s[1..])
  }

  // ----- _source_observations

  datatype Observation = Observation(key: string, value: string, detail: string, page: nat)

  predicate IsWordChar(c: char) {
    'a' <= c <= 'z' || '0' <= c <= '9'
  }

  /** `re.sub(r"[^a-z0-9]+", "_", s)`; `gap` says a run of replaced characters is under way. */
  function Underscored(s: string, gap: bool): string {
    if s == "" then ""
    else if IsWordChar(s[0]) then [s[0]] + Underscored(s[1..], false)
    else (if gap then "" else "_") + Underscored(s[1..], true)
  }

  function TrimUnderscores(s: string): string
    decreases |s|
  {
    if s == "" then ""
    else if s[0] == '_' then TrimUnderscores(s[1..])
    else if s[|s| - 1] == '_' then TrimUnderscores(s[..|s| - 1])
    else s
  }

  /** The normal form of a key, given its lower-casing. */
  function Slug(lowered: string): string {
    TrimUnderscores(Underscored(lowered, false))
  }

  function ObservationOf(found: Match, page: nat, lower: string -> string): Observation
    requires found.Match?
  {
    Observation(Slug(lower(Strip(found.key))), Strip(found.value), Strip(found.detail), page)
  }

  function PageObservations(found: seq<Match>, page: nat, lower: string -> string): seq<Observation> {
    if found == [] then []
    else (if found[0].Match? then [ObservationOf(found[0], page, lower)] else [])
         + PageObservations(found[1..], page, lower)
  }

  function SourceObservations(pages: seq<Page>, lower: string -> string): seq<Observation> {
    if pages == [] then []
    else PageObservations(FindAll(true, pages[0].text), pages[0].number, lower)
         + SourceObservations(pages[1..], lower)
  }

  // ----- The printed form

  datatype Line =
    | Record(key: string, value: string, detail: string)
    | Plain(text: string)

  /** A field that prints and parses back as it is. */
  predicate IsField(s: string) {
    s != "" && Stripped(s) && forall c :: c in s ==> InField(c)
  }

  predicate WellFormed(line: Line) {
    match line
    case Record(key, value, detail) =>
      && IsField(key) && IsField(value)
      && detail != "" && Stripped(detail) && forall c :: c in detail ==> InLine(c)
    case Plain(text) =>
      !StartsWithTag(text) && forall c :: c in text ==> InLine(c)
  }

  predicate AllWellFormed(lines: seq<Line>) {
    forall l :: l in lines ==> WellFormed(l)
  }

  function Print(line: Line): string {
    match line
    case Record(key, value, detail) => TAG + (" " + (key + (" | " + (value + (" | " + detail)))))
    case Plain(text) => text
  }

  function PrintEach(lines: seq<Line>): seq<string> {
    if lines == [] then [] else [Print(lines[0])] + PrintEach(lines[1..])
  }

  function PrintPage(lines: seq<Line>): string {
    Join(PrintEach(lines), "\n")
  }

  /** The triples of a page, keys in normal form, in the order they are printed. */
  function Triples(lines: seq<Line>, page: nat, lower: string -> string): seq<Observation> {
    if lines == [] then []
    else
      (if lines[0].Record? then
         [Observation(Slug(lower(lines[0].key)), lines[0].value, lines[0].detail, page)]
       else [])
      + Triples(lines[1..], page, lower)
  }

  // ----- A printed record parses back

  lemma {:induction false} FieldRunExact(field: string, rest: string)
    requires forall c :: c in field ==> InField(c)
    requires rest == "" || !InField(rest[0])
    ensures FieldRun(field + rest) == |field|
  {
    if field == "" {
      assert field + rest == rest;
    } else {
      assert (field + rest)[1..] == field[1..] + rest;
      FieldRunExact(field[1..], rest);
    }
  }

  lemma {:induction false} LineRunExact(line: string, rest: string)
    requires forall c :: c in line ==> InLine(c)
    requires rest == "" || !InLine(rest[0])
    ensures LineRun(line + rest) == |line|
  {
    if line == "" {
      assert line + rest == rest;
    } else {
      assert (line + rest)[1..] == line[1..] + rest;
      LineRunExact(line[1..], rest);
    }
  }

  lemma OneSpace(s: string)
    requires s != "" && !IsSpace(s[0])
    ensures SpaceRun(" " + s) == 1 && (" " + s)[1..] == s
  {
  }

  lemma DetailParses(detail: string, tail: string)
    requires detail != "" && Stripped(detail) && forall c :: c in detail ==> InLine(c)
    requires tail == "" || tail[0] == '\n'
    ensures MatchDetail(" " + (detail + tail)) == Capture(detail, 1 + |detail|)
  {
    var s := detail + tail;
    OneSpace(s);
    LineRunExact(detail, tail);
    assert s[..|detail|] == detail;
    assert (" " + s)[1..1 + |detail|] == detail;
  }

  /** A field, a blank and a bar: where the scan for the field ends and what follows it. */
  lemma FieldEnds(field: string, after: string)
    requires IsField(field)
    ensures var s := " " + (field + (" |" + after));
            && SpaceRun(s) == 1
            && FieldRun(s[1..]) == |field| + 1
            && s[1..|field| + 2] == field + " "
            && s[|field| + 2] == '|'
            && s[|field| + 3..] == after
  {
    var body := field + (" |" + after);
    OneSpace(body);
    assert body == (field + " ") + ("|" + after);
    forall c | c in field + " "
      ensures InField(c)
    {
    }
    FieldRunExact(field + " ", "|" + after);
    var s := " " + body;
    assert s == (" " + (field + " ")) + ("|" + after);
    assert s[|field| + 2..] == "|" + after;
  }

  lemma ValueParses(value: string, detail: string, tail: string)
    requires IsField(value)
    requires detail != "" && Stripped(detail) && forall c :: c in detail ==> InLine(c)
    requires tail == "" || tail[0] == '\n'
    ensures MatchValue(" " + (value + (" |" + (" " + (detail + tail)))))
         == Match("", value + " ", detail, |value| + 3 + (1 + |detail|))
  {
    FieldEnds(value, " " + (detail + tail));
    DetailParses(detail, tail);
  }

  lemma KeyParses(key: string, value: string, detail: string, tail: string)
    requires WellFormed(Record(key, value, detail))
    requires tail == "" || tail[0] == '\n'
    ensures var body := " " + (key + (" |" + (" " + (value + (" |" + (" " + (detail + tail)))))));
            KeyFrom(body, SpaceRun(body))
            == Match(key + " ", value + " ", detail, |key| + 3 + (|value| + 3 + (1 + |detail|)))
  {
    FieldEnds(key, " " + (value + (" |" + (" " + (detail + tail)))));
    ValueParses(value, detail, tail);
  }

  lemma PrintWithTail(key: string, value: string, detail: string, tail: string)
    ensures Print(Record(key, value, detail)) + tail
         == TAG + (" " + (key + (" |" + (" " + (value + (" |" + (" " + (detail + tail))))))))
    ensures |Print(Record(key, value, detail))| == 7 + (|key| + 3 + (|value| + 3 + (1 + |detail|)))
  {
    assert " | " == " |" + " ";
    var inner := value + (" | " + detail);
    assert inner + tail == value + (" |" + (" " + (detail + tail)));
    var outer := key + (" | " + inner);
    assert outer + tail == key + (" |" + (" " + (inner + tail)));
  }

  lemma RecordParses(key: string, value: string, detail: string, tail: string)
    requires WellFormed(Record(key, value, detail))
    requires tail == "" || tail[0] == '\n'
    ensures MatchRecord(Print(Record(key, value, detail)) + tail)
         == Match(key + " ", value + " ", detail, |Print(Record(key, value, detail))|)
  {
    hide Print, KeyFrom, SpaceRun;
    KeyParses(key, value, detail, tail);
    PrintWithTail(key, value, detail, tail);
    var body := " " + (key + (" |" + (" " + (value + (" |" + (" " + (detail + tail)))))));
    assert (TAG + body)[7..] == body;
  }

  lemma StripField(field: string)
    requires field != "" && Stripped(field)
    ensures Strip(field) == field && Strip(field + " ") == field
  {
    StripFramed("", field, " ");
    assert "" + (field + " ") == field + " ";
    StripId(field);
  }

  // ----- Scanning line by line

  /** Past the start of a line, nothing is found before the next line. */
  lemma {:induction false} SkipLine(x: string, rest: string)
    requires '\n' !in x
    ensures FindAll(false, x) == []
    ensures FindAll(false, x + ("\n" + rest)) == FindAll(true, rest)
  {
    if x == "" {
      assert x + ("\n" + rest) == "\n" + rest;
      assert ("\n" + rest)[1..] == rest;
    } else {
      assert (x + ("\n" + rest))[1..] == x[1..] + ("\n" + rest);
      SkipLine(x[1..], rest);
    }
  }

  /** What a page's lines are followed by: the end, or a line feed and the remaining lines. */
  function Tail(lines: seq<Line>): string {
    if lines == [] then "" else "\n" + PrintPage(lines)
  }

  lemma PrintNothing()
    ensures PrintPage([]) == ""
  {
  }

  lemma PrintPageStep(lines: seq<Line>)
    requires lines != []
    ensures PrintPage(lines) == Print(lines[0]) + Tail(lines[1..])
  {
    var texts := PrintEach(lines);
    assert texts[1..] == PrintEach(lines[1..]);
    if |lines| > 1 {
      assert lines[1..] != [] && PrintEach(lines[1..]) != [];
      assert Join(texts, "\n") == texts[0] + "\n" + Join(texts[1..], "\n");
    } else {
      assert texts == [Print(lines[0])];
    }
  }

  lemma PlainSkipped(text: string, tail: string)
    requires WellFormed(Plain(text))
    requires tail == "" || tail[0] == '\n'
    requires text + tail != ""
    ensures MatchRecord(text + tail) == NoMatch
  {
    var s := text + tail;
    if |text| >= 7 {
      assert forall i :: 0 <= i < 7 ==> text[i] == s[i];
    } else if |s| >= 7 {
      assert s[|text|] == '\n';
      assert Upper(s[|text|]) != TAG[|text|];
    }
  }

  lemma {:induction false} ScanLines(lines: seq<Line>, page: nat, lower: string -> string)
    requires AllWellFormed(lines)
    ensures PageObservations(FindAll(true, PrintPage(lines)), page, lower) == Triples(lines, page, lower)
  {
    hide PrintPage, Tail, MatchRecord, Slug;
    if lines == [] {
      assert PrintPage([]) == "" by {
        PrintNothing();
      }
    } else {
      ScanLines(lines[1..], page, lower);
      PrintPageStep(lines);
      var line, tail := lines[0], Tail(lines[1..]);
      var text := Print(line);
      assert WellFormed(line);
      match line {
        case Record(key, value, detail) =>
          ScanRecord(key, value, detail, lines[1..], page, lower);
        case Plain(_) =>
          ScanPlain(text, lines[1..]);
      }
    }
  }

  lemma ScanPlain(text: string, rest: seq<Line>)
    requires WellFormed(Plain(text))
    ensures FindAll(true, text + Tail(rest)) == FindAll(true, PrintPage(rest))
  {
    var tail := Tail(rest);
    if text + tail != "" {
      PlainSkipped(text, tail);
      if text == "" {
        assert text + tail == tail;
        assert tail[1..] == PrintPage(rest);
      } else {
        assert (text + tail)[1..] == text[1..] + tail;
        assert forall c :: c in text[1..] ==> c in text;
        SkipLine(text[1..], PrintPage(rest));
        if rest == [] {
          assert text[1..] + tail == text[1..];
        }
      }
    }
  }

  lemma ScanRecord(key: string, value: string, detail: string, rest: seq<Line>, page: nat, lower: string -> string)
    requires WellFormed(Record(key, value, detail))
    ensures PageObservations(FindAll(true, Print(Record(key, value, detail)) + Tail(rest)), page, lower)
         == [Observation(Slug(lower(key)), value, detail, page)]
            + PageObservations(FindAll(true, PrintPage(rest)), page, lower)
  {
    var text, tail := Print(Record(key, value, detail)), Tail(rest);
    var found := Match(key + " ", value + " ", detail, |text|);
    RecordParses(key, value, detail, tail);
    assert (text + tail)[|text|..] == tail;
    assert (text + tail)[|text| - 1] == detail[|detail| - 1];
    assert detail[|detail| - 1] in detail;
    SkipLine("", PrintPage(rest));
    assert "" + ("\n" + PrintPage(rest)) == "\n" + PrintPage(rest);
    var later := FindAll(true, PrintPage(rest));
    assert FindAll(false, tail) == later;
    assert FindAll(true, text + tail) == [found] + later;
    assert ([found] + later)[1..] == later;
    StripField(key);
    StripField(value);
    StripField(detail);
  }

  // ----- Writing pages and reading them back

  /** `_write_txt` */
  function WriteTxt(pages: seq<string>): string {
    Join(pages, "\n\U{0C}\n")
  }

  /** The same text cut at the form feeds: every page but the first and last is framed by line feeds. */
  function Framed(pages: seq<string>, first: bool): (r: seq<string>)
    ensures |r| == |pages|
  {
    if pages == [] then []
    else
      var head := if first then "" else "\n";
      var foot := if |pages| == 1 then "" else "\n";
      [head + (pages[0] + foot)] + Framed(pages[1..], false)
  }

  lemma Regroup(head: string, page: string, rest: string)
    ensures head + (page + "\n") + [FORM_FEED] + ("\n" + rest) == head + (page + "\n\U{0C}\n" + rest)
  {
  }

  lemma {:induction false} WriteIsFramed(pages: seq<string>, first: bool)
    requires pages != []
    ensures Join(Framed(pages, first), [FORM_FEED]) == (if first then "" else "\n") + WriteTxt(pages)
  {
    var head := if first then "" else "\n";
    if |pages| == 1 {
      assert pages[0] + "" == pages[0];
      assert Framed(pages[1..], false) == [];
    } else {
      WriteIsFramed(pages[1..], false);
      var rest := Framed(pages[1..], false);
      var here := head + (pages[0] + "\n");
      assert ([here] + rest)[1..] == rest;
      Regroup(head, pages[0], WriteTxt(pages[1..]));
    }
  }

  /** A page text that extraction leaves as it is. */
  predicate IsPageText(text: string) {
    text != "" && Normalise(text, false) == text
  }

  lemma PageTextChars(text: string)
    requires IsPageText(text)
    ensures FORM_FEED !in text && '\r' !in text
    ensures AllAllowed(text, true) && NoTrailingBlank(text) && Stripped(text)
  {
    hide Normalise, NoTrailingBlank;
    NormalisedIffFixed(text, false);
  }

  /** Gluing texts without trailing blanks with anything but blanks leaves none. */
  lemma Glue(a: string, sep: string, b: string)
    requires NoTrailingBlank(a) && NoTrailingBlank(b)
    requires forall c :: c in sep ==> !IsBlank(c)
    ensures NoTrailingBlank(a + (sep + b))
  {
    var s := a + (sep + b);
    assert forall i :: |a| <= i < |a| + |sep| ==> s[i] == sep[i - |a|] && sep[i - |a|] in sep;
    forall i | 0 <= i < |s| && IsBlank(s[i])
      ensures i + 1 < |s| && s[i + 1] != '\n'
    {
      if i < |a| {
        assert a[i] == s[i];
        assert s[i + 1] == a[i + 1];
      } else if i >= |a| + |sep| {
        assert b[i - |a| - |sep|] == s[i];
        assert s[i + 1] == b[i + 1 - |a| - |sep|];
      }
    }
  }

  lemma FramedChunk(head: string, text: string, foot: string)
    requires IsPageText(text)
    requires head == "" || head == "\n"
    requires foot == "" || foot == "\n"
    ensures FORM_FEED !in head + (text + foot)
    ensures Normalise(head + (text + foot), false) == text
  {
    hide NoTrailingBlank, TrimLines, DropControls, ReplaceCr, ReplaceCrLf, Strip, Visible, IsControl;
    var chunk := head + (text + foot);
    PageTextChars(text);
    NormalisedIffFixed(text, false);
    TrimmedLine("");
    Glue(text, foot, "");
    Glue("", head, text + (foot + ""));
    assert "" + (head + (text + (foot + ""))) == chunk;
    NewlinesId(chunk);
    DropControlsAllowed(chunk, false);
    TrimLinesClean(chunk);
    StripFramed(head, text, foot);
  }

  lemma {:induction false} FramedNormalise(pages: seq<string>, first: bool)
    requires forall p :: p in pages ==> IsPageText(p)
    ensures forall i :: 0 <= i < |pages| ==>
                          && FORM_FEED !in Framed(pages, first)[i]
                          && Normalise(Framed(pages, first)[i], false) == pages[i]
  {
    hide Normalise;
    if pages != [] {
      assert IsPageText(pages[0]);
      FramedChunk(if first then "" else "\n", pages[0], if |pages| == 1 then "" else "\n");
      FramedNormalise(pages[1..], false);
      forall i | 0 <= i < |pages|
        ensures FORM_FEED !in Framed(pages, first)[i] && Normalise(Framed(pages, first)[i], false) == pages[i]
      {
        if i > 0 {
          assert Framed(pages, first)[i] == Framed(pages[1..], false)[i - 1];
          assert pages[i] == pages[1..][i - 1];
        }
      }
    }
  }

  /** What the writer produces is already normalised, form feeds included. */
  lemma {:induction false} WriteNormalised(pages: seq<string>)
    requires pages != [] && forall p :: p in pages ==> IsPageText(p)
    ensures WriteTxt(pages) != "" && IsNormalised(WriteTxt(pages), true)
  {
    hide Normalise, NoTrailingBlank, IsSpace;
    assert IsPageText(pages[0]);
    PageTextChars(pages[0]);
    if |pages| > 1 {
      var sep := "\n\U{0C}\n";
      var rest := WriteTxt(pages[1..]);
      WriteNormalised(pages[1..]);
      Glue(pages[0], sep, rest);
      assert WriteTxt(pages) == pages[0] + (sep + rest);
      var s := WriteTxt(pages);
      assert s[0] == pages[0][0] && s[|s| - 1] == rest[|rest| - 1];
    }
  }

  function CharTotal(texts: seq<string>): nat {
    if texts == [] then 0 else |texts[0]| + CharTotal(texts[1..])
  }

  predicate WithinLimits(pages: seq<string>, limits: Limits) {
    && |pages| <= limits.maxPages
    && CharTotal(pages) <= limits.textLimit
    && forall p :: p in pages ==> |p| <= limits.pageTextLimit
  }

  lemma CutNothing(page: Page, pageTextLimit: nat, remaining: nat)
    requires |page.text| <= pageTextLimit && |page.text| <= remaining
    ensures CutPage(page, pageTextLimit, remaining) == page
  {
  }

  lemma {:induction false} KeepAll(pages: seq<Page>, pageTextLimit: nat, remaining: nat)
    requires forall p :: p in pages ==> p.text != "" && |p.text| <= pageTextLimit
    requires CharTotal(Texts(pages)) <= remaining
    ensures Keep(pages, pageTextLimit, remaining) == pages
  {
    hide CutPage;
    if pages != [] {
      assert Texts(pages)[1..] == Texts(pages[1..]);
      assert pages[0].text != "";
      KeepAll(pages[1..], pageTextLimit, remaining - |pages[0].text|);
      CutNothing(pages[0], pageTextLimit, remaining);
    }
  }

  /** Normalising the written text changes nothing, and its form feeds separate the framed pages. */
  lemma WrittenChunks(pages: seq<string>)
    requires |pages| >= 2 && forall p :: p in pages ==> IsPageText(p)
    ensures Normalise(WriteTxt(pages), true) == WriteTxt(pages)
    ensures FORM_FEED in WriteTxt(pages)
    ensures Split(WriteTxt(pages), FORM_FEED) == Framed(pages, true)
  {
    hide Normalise, NoTrailingBlank, Split;
    var text := WriteTxt(pages);
    WriteNormalised(pages);
    NormalisedIffFixed(text, true);
    assert text == pages[0] + "\n\U{0C}\n" + WriteTxt(pages[1..]);
    assert text[|pages[0]| + 1] == FORM_FEED;
    FramedNormalise(pages, true);
    WriteIsFramed(pages, true);
    assert "" + text == text;
    SplitJoin(Framed(pages, true), FORM_FEED);
  }

  /** Extracting the written text gives the pages back, one per page number. */
  lemma WrittenPages(pages: seq<string>, limits: Limits)
    requires limits.Valid() && |pages| >= 2
    requires forall p :: p in pages ==> IsPageText(p)
    requires WithinLimits(pages, limits)
    ensures ExtractTxt(WriteTxt(pages), false, limits).status == Processed
    ensures Texts(ExtractTxt(WriteTxt(pages), false, limits).pages) == pages
    ensures Numbered(ExtractTxt(WriteTxt(pages), false, limits).pages)
  {
    hide Normalise, Keep, WriteTxt, CharTotal, Framed;
    WrittenChunks(pages);
    FramedNormalise(pages, true);
    var all := AllTxtPages(WriteTxt(pages), limits);
    assert Texts(all) == pages;
    forall p | p in all
      ensures p.text != "" && |p.text| <= limits.pageTextLimit
    {
      var i :| 0 <= i < |all| && all[i] == p;
      assert Texts(all)[i] == pages[i];
      assert pages[i] in pages && IsPageText(pages[i]);
    }
    KeepAll(all, limits.pageTextLimit, limits.textLimit);
    assert FirstPages(all, limits) == all;
  }

  lemma MarkLost(pages: seq<string>, limits: Limits)
    requires limits.Valid() && pages != [] && StartsWithMark(WriteTxt(pages))
    requires ExtractTxt(WriteTxt(pages)[1..], false, limits).status == Processed
    ensures Texts(ExtractTxt(WriteTxt(pages)[1..], false, limits).pages) != pages
  {
    hide Concat, Join, ExtractTxt;
    var text := WriteTxt(pages);
    TxtLosesNothing(text[1..], false, limits);
    VisibleJoin(pages, "\n\U{0C}\n");
    assert Visible(text) == [MARK] + Visible(text[1..]);
  }

  /**
    Written to a file and extracted, pages within the limits come back as they were, exactly when the file is
    within the byte budget and does not begin with a byte-order mark.
   */
  lemma PagesRoundTrip(pages: seq<string>, limits: Limits)
    requires limits.Valid() && |pages| >= 2
    requires forall p :: p in pages ==> IsPageText(p)
    requires WithinLimits(pages, limits)
    ensures var text := WriteTxt(pages);
            var result := Extract(ReadBack(text, limits), limits);
            && (result.status == Processed && Texts(result.pages) == pages
                <==> FitsBudget(text, limits) && !StartsWithMark(text))
            && (!FitsBudget(text, limits) ==> result.status != Processed)
            && Numbered(result.pages)
  {
    hide ReadBack, ExtractTxt, WriteTxt, FitsBudget, Utf8Length, IsPageText, WithinLimits;
    var text := WriteTxt(pages);
    ExtractConsistent(ReadBack(text, limits), limits);
    if !FitsBudget(text, limits) {
      OverBudget(text, limits);
    } else {
      WithinBudget(text, limits);
      if StartsWithMark(text) {
        if ExtractTxt(text[1..], false, limits).status == Processed {
          MarkLost(pages, limits);
        }
      } else {
        WrittenPages(pages, limits);
      }
    }
  }

  function PrintPages(pages: seq<seq<Line>>): (r: seq<string>)
    ensures |r| == |pages|
    ensures forall i :: 0 <= i < |r| ==> r[i] == PrintPage(pages[i])
  {
    seq(|pages|, i requires 0 <= i < |pages| => PrintPage(pages[i]))
  }

  /** The triples of all pages in order, each with the number of its page. */
  function AllTriples(pages: seq<seq<Line>>, start: nat, lower: string -> string): seq<Observation> {
    if pages == [] then []
    else Triples(pages[0], start, lower) + AllTriples(pages[1..], start + 1, lower)
  }

  lemma {:induction false} ObservationsOfPages(
      pages: seq<seq<Line>>, extracted: seq<Page>, start: nat, lower: string -> string)
    requires forall p :: p in pages ==> AllWellFormed(p)
    requires Texts(extracted) == PrintPages(pages)
    requires forall i :: 0 <= i < |extracted| ==> extracted[i].number == start + i
    ensures SourceObservations(extracted, lower) == AllTriples(pages, start, lower)
  {
    hide FindAll, Triples, PrintPage, PageObservations;
    assert |extracted| == |Texts(extracted)| == |pages|;
    if pages != [] {
      assert Texts(extracted)[0] == PrintPages(pages)[0];
      assert pages[0] in pages;
      ScanLines(pages[0], start, lower);
      assert Texts(extracted[1..]) == Texts(extracted)[1..] == PrintPages(pages)[1..] == PrintPages(pages[1..]);
      ObservationsOfPages(pages[1..], extracted[1..], start + 1, lower);
    }
  }

  /**
    Round trip: pages of records and other lines within the limits, written to a file that does not begin with a
    byte-order mark, extracted and analysed. The file is processed exactly when it is within the byte budget, and
    then gives back exactly the records of each page, in order, each under its own page number and with its key in
    normal form.
   */
  lemma RecordsRoundTrip(pages: seq<seq<Line>>, limits: Limits, lower: string -> string)
    requires limits.Valid() && |pages| >= 2
    requires forall p :: p in pages ==> AllWellFormed(p)
    requires forall p :: p in pages ==> IsPageText(PrintPage(p))
    requires WithinLimits(PrintPages(pages), limits) && !StartsWithMark(WriteTxt(PrintPages(pages)))
    ensures var text := WriteTxt(PrintPages(pages));
            var result := Extract(ReadBack(text, limits), limits);
            && (result.status == Processed <==> FitsBudget(text, limits))
            && (FitsBudget(text, limits) ==> SourceObservations(result.pages, lower) == AllTriples(pages, 1, lower))
  {
    hide Normalise, PrintPage, Extract, ReadBack, SourceObservations, AllTriples, WriteTxt, WithinLimits, FitsBudget,
      StartsWithMark;
    var texts := PrintPages(pages);
    forall t | t in texts
      ensures IsPageText(t)
    {
      var i :| 0 <= i < |texts| && texts[i] == t;
      assert pages[i] in pages;
    }
    PagesRoundTrip(texts, limits);
    if FitsBudget(WriteTxt(texts), limits) {
      ObservationsOfPages(pages, Extract(ReadBack(WriteTxt(texts), limits), limits).pages, 1, lower);
    }
  }

  lemma LongPage(text: string, c: char)
    requires text != "" && IsVisible(c) && forall i :: 0 <= i < |text| ==> text[i] == c
    ensures IsPageText(text)
  {
    hide Normalise;
    assert !IsBlank(c) && Allowed(c, false);
    NormalisedIffFixed(text, false);
  }

  /** Three pages of 10 000 four-byte characters in all are within the limits, but not within the byte budget. */
  lemma FourByteOverflow()
    ensures var limits := Limits(10_000, 10_000, 3);
            var pages := [seq(4_000, _ => '\U{1F600}'), seq(3_000, _ => '\U{1F600}'), seq(3_000, _ => '\U{1F600}')];
            && limits.Valid() && (forall p :: p in pages ==> IsPageText(p)) && WithinLimits(pages, limits)
            && Utf8Length(WriteTxt(pages)) == 40_006 && ByteBudget(limits) == 40_004
            && Extract(ReadBack(WriteTxt(pages), limits), limits).status != Processed
  {
    hide IsPageText, Extract, ReadBack, Utf8Length, IsVisible;
    var c := '\U{1F600}';
    var a, b := seq(4_000, _ => '\U{1F600}'), seq(3_000, _ => '\U{1F600}');
    var pages, limits, sep := [a, b, b], Limits(10_000, 10_000, 3), "\n\U{0C}\n";
    assert IsVisible(c) by {
      Astral();
    }
    LongPage(a, c);
    LongPage(b, c);
    Utf8LengthUniform(a, 4);
    Utf8LengthUniform(b, 4);
    Utf8LengthUniform(sep, 1);
    assert pages[1..] == [b, b] && [b, b][1..] == [b] && [b][1..] == [];
    assert WriteTxt([b]) == b;
    assert WriteTxt([b, b]) == b + sep + WriteTxt([b]);
    assert WriteTxt(pages) == a + sep + (b + sep + b);
    Utf8LengthConcat(a + sep, b + sep + b);
    Utf8LengthConcat(a, sep);
    Utf8LengthConcat(b + sep, b);
    Utf8LengthConcat(b, sep);
    assert CharTotal([b]) == |b| && CharTotal([b, b]) == |b| + CharTotal([b]);
    assert CharTotal(pages) == |a| + CharTotal([b, b]);
    OverBudget(WriteTxt(pages), limits);
  }

  /** A page that begins with U+FEFF loses it when the file is read back. */
  lemma MarkedPageLost(limits: Limits)
    requires limits.Valid() && limits.maxPages >= 2
    ensures var pages := ["\U{FEFF}a", "b"];
            && (forall p :: p in pages ==> IsPageText(p)) && WithinLimits(pages, limits)
            && var result := Extract(ReadBack(WriteTxt(pages), limits), limits);
               !(result.status == Processed && Texts(result.pages) == pages)
  {
    hide IsPageText, Extract, ReadBack, FitsBudget, WriteTxt;
    var pages := ["\U{FEFF}a", "b"];
    ShortPage("\U{FEFF}a");
    ShortPage("b");
    assert pages[1..] == ["b"] && ["b"][1..] == [];
    assert CharTotal(pages[1..]) == 1 + CharTotal(["b"][1..]);
    assert StartsWithMark(WriteTxt(pages)) by {
      FirstWritten(pages);
    }
    PagesRoundTrip(pages, limits);
  }

  lemma ShortPage(text: string)
    requires text == "\U{FEFF}a" || text == "b"
    ensures IsPageText(text)
  {
    hide Normalise;
    NormalisedIffFixed(text, false);
  }

  lemma FirstWritten(pages: seq<string>)
    requires pages != [] && pages[0] != ""
    ensures WriteTxt(pages) != "" && WriteTxt(pages)[0] == pages[0][0]
  {
  }

  lemma Astral()
    ensures IsVisible('\U{1F600}')
  {
  }

  // ----- Keys already in normal form

  /** Lower-case letters, digits and single inner underscores, as the record tables use. */
  predicate IsKey(s: string) {
    && s != "" && s[0] != '_' && s[|s| - 1] != '_'
    && (forall c :: c in s ==> IsWordChar(c) || c == '_')
    && forall i :: 0 <= i < |s| - 1 ==> s[i] != '_' || s[i + 1] != '_'
  }

  lemma {:induction false} UnderscoredId(s: string, gap: bool)
    requires forall c :: c in s ==> IsWordChar(c) || c == '_'
    requires forall i :: 0 <= i < |s| - 1 ==> s[i] != '_' || s[i + 1] != '_'
    requires gap && s != "" ==> s[0] != '_'
    ensures Underscored(s, gap) == s
  {
    if s != "" {
      forall i | 0 <= i < |s[1..]| - 1
        ensures s[1..][i] != '_' || s[1..][i + 1] != '_'
      {
        assert s[i + 1] != '_' || s[i + 2] != '_';
      }
      assert s[0] in s;
      assert |s| > 1 ==> s[0] != '_' || s[0 + 1] != '_';
      UnderscoredId(s[1..], s[0] == '_');
    }
  }

  /** A key in normal form comes back unchanged. */
  lemma SlugOfKey(key: string)
    requires IsKey(key)
    ensures Slug(key) == key
  {
    UnderscoredId(key, false);
  }
}
