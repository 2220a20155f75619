/**
  The two packers of `extraction.py`: `_split_section` works on a list of blocks, `_chunk_text` on a text.
  Both are proved against one greedy grouping, which is then proved lossless, bounded and optimal.
 */
module Paging {
  import opened Strings

  const GAP := "\n\n"

  datatype Label =
    | DocxSection(number: nat, heading: string)
    | LogicalText(index: nat)
    | FormFeedText(index: nat)
    | PdfPhysical(index: nat)

  datatype Page = Page(number: nat, pageLabel: Label, text: string)

  // ----- Cutting blocks into pieces

  /** Consecutive slices of `maximum` characters; an empty block is one empty piece. */
  function Pieces(block: string, maximum: nat): (r: seq<string>)
    requires maximum > 0
    ensures r != []
    ensures forall p :: p in r ==> |p| <= maximum
    ensures block != "" ==> forall p :: p in r ==> p != ""
  {
    if |block| <= maximum then [block]
    else [block[..maximum]] + Pieces(block[maximum..], maximum)
  }

  function AllPieces(blocks: seq<string>, maximum: nat): (r: seq<string>)
    requires maximum > 0
    ensures forall p :: p in r ==> |p| <= maximum
  {
    if blocks == [] then [] else Pieces(blocks[0], maximum) + AllPieces(blocks[1..], maximum)
  }

  lemma {:induction false} PiecesConcat(block: string, maximum: nat)
    requires maximum > 0
    ensures Concat(Pieces(block, maximum)) == block
  {
    if |block| > maximum {
      PiecesConcat(block[maximum..], maximum);
    } else {
      assert Concat([block][1..]) == "";
    }
  }

  lemma {:induction false} AllPiecesConcat(blocks: seq<string>, maximum: nat)
    requires maximum > 0
    ensures Concat(AllPieces(blocks, maximum)) == Concat(blocks)
  {
    if blocks != [] {
      PiecesConcat(blocks[0], maximum);
      AllPiecesConcat(blocks[1..], maximum);
      ConcatAppend(Pieces(blocks[0], maximum), AllPieces(blocks[1..], maximum));
    }
  }

  // ----- Greedy grouping

  function JoinLength(pieces: seq<string>): nat {
    if pieces == [] then 0
    else if |pieces| == 1 then |pieces[0]|
    else |pieces[0]| + 2 + JoinLength(pieces[1..])
  }

  lemma {:induction false} JoinLengthIsLength(pieces: seq<string>)
    ensures |Join(pieces, GAP)| == JoinLength(pieces)
  {
    if |pieces| > 1 {
      JoinLengthIsLength(pieces[1..]);
    }
  }

  lemma {:induction false} JoinLengthConcat(a: seq<string>, b: seq<string>)
    ensures a != [] && b != [] ==> JoinLength(a + b) == JoinLength(a) + 2 + JoinLength(b)
    ensures JoinLength(a + b) >= JoinLength(a)
    ensures JoinLength(a + b) >= JoinLength(b)
  {
    if a == [] || b == [] {
      assert a + b == if a == [] then b else a;
    } else if |a| == 1 {
      assert (a + b)[1..] == b;
    } else {
      assert (a + b)[1..] == a[1..] + b;
      JoinLengthConcat(a[1..], b);
    }
  }

  /** First-fit grouping of `pieces` after an open group `current`. */
  function Pack(current: seq<string>, pieces: seq<string>, maximum: nat): (groups: seq<seq<string>>)
    decreases |pieces|
  {
    if pieces == [] then
      if current == [] then [] else [current]
    else if current != [] && JoinLength(current) + 2 + |pieces[0]| > maximum then
      [current] + Pack([pieces[0]], pieces[1..], maximum)
    else
      Pack(current + [pieces[0]], pieces[1..], maximum)
  }

  function Flatten(groups: seq<seq<string>>): seq<string> {
    if groups == [] then [] else groups[0] + Flatten(groups[1..])
  }

  predicate Fits(groups: seq<seq<string>>, maximum: nat) {
    forall g :: g in groups ==> |Join(g, GAP)| <= maximum
  }

  lemma {:induction false} PackFlatten(current: seq<string>, pieces: seq<string>, maximum: nat)
    ensures Flatten(Pack(current, pieces, maximum)) == current + pieces
    decreases |pieces|
  {
    hide JoinLength;
    if pieces == [] {
      assert current + pieces == current;
      assert current != [] ==> [current][1..] == [];
    } else {
      var p, rest := pieces[0], pieces[1..];
      assert current + [p] + rest == current + pieces == current + ([p] + rest);
      PackFlatten([p], rest, maximum);
      PackFlatten(current + [p], rest, maximum);
      assert ([current] + Pack([p], rest, maximum))[1..] == Pack([p], rest, maximum);
    }
  }

  lemma {:induction false} PackFits(current: seq<string>, pieces: seq<string>, maximum: nat)
    requires forall p :: p in pieces ==> |p| <= maximum
    requires JoinLength(current) <= maximum
    ensures Fits(Pack(current, pieces, maximum), maximum)
    ensures [] !in Pack(current, pieces, maximum)
    decreases |pieces|
  {
    hide Join;
    JoinLengthIsLength(current);
    if pieces != [] {
      var p, rest := pieces[0], pieces[1..];
      JoinLengthConcat(current, [p]);
      if current != [] && JoinLength(current) + 2 + |p| > maximum {
        PackFits([p], rest, maximum);
      } else {
        assert current == [] ==> current + [p] == [p];
        PackFits(current + [p], rest, maximum);
      }
    }
  }

  /** Grouping keeps every piece, in order, and never overfills or leaves empty a group. */
  lemma PackSound(pieces: seq<string>, maximum: nat)
    requires forall p :: p in pieces ==> |p| <= maximum
    ensures Flatten(Pack([], pieces, maximum)) == pieces
    ensures Fits(Pack([], pieces, maximum), maximum)
    ensures [] !in Pack([], pieces, maximum)
  {
    PackFlatten([], pieces, maximum);
    PackFits([], pieces, maximum);
    assert [] + pieces == pieces;
  }

  /**
    In any fitting grouping of `before + current + tail` where `current` and the head of `tail` overflow
    together, some non-empty run of leading groups ends before `tail` starts.
   */
  lemma {:induction false} GroupBoundary(
      groups: seq<seq<string>>, before: seq<string>, current: seq<string>, tail: seq<string>, maximum: nat)
    returns (m: nat, left: seq<string>)
    requires Fits(groups, maximum)
    requires Flatten(groups) == before + current + tail
    requires current != [] && tail != [] && JoinLength(current + [tail[0]]) > maximum
    ensures 1 <= m <= |groups| && Flatten(groups[m..]) == left + tail
  {
    var g := groups[0];
    var rest := Flatten(groups[1..]);
    var all := before + current + tail;
    assert g == all[..|g|] && rest == all[|g|..];
    if |g| <= |before| {
      assert rest == before[|g|..] + current + tail;
      m, left := GroupBoundary(groups[1..], before[|g|..], current, tail, maximum);
      assert groups[1..][m..] == groups[m + 1..];
      m := m + 1;
    } else if |g| <= |before| + |current| {
      m, left := 1, current[|g| - |before|..];
      assert rest == left + tail;
    } else {
      var middle := current + [tail[0]];
      var after := g[|before| + |middle|..];
      assert g == before + (middle + after);
      JoinLengthConcat(before, middle + after);
      JoinLengthConcat(middle, after);
      JoinLengthIsLength(g);
      assert false;
    }
  }

  /** No fitting grouping of the same pieces, even with more pieces in front, has fewer groups. */
  lemma {:induction false} PackOptimal(
      current: seq<string>, pieces: seq<string>, maximum: nat, groups: seq<seq<string>>, before: seq<string>)
    requires Fits(groups, maximum)
    requires Flatten(groups) == before + current + pieces
    ensures |Pack(current, pieces, maximum)| <= |groups|
    decreases |pieces|
  {
    if pieces != [] {
      var p, rest := pieces[0], pieces[1..];
      JoinLengthConcat(current, [p]);
      if current != [] && JoinLength(current) + 2 + |p| > maximum {
        var m, left := GroupBoundary(groups, before, current, pieces, maximum);
        assert left + pieces == left + [p] + rest;
        PackOptimal([p], rest, maximum, groups[m..], left);
      } else {
        assert before + current + pieces == before + (current + [p]) + rest;
        PackOptimal(current + [p], rest, maximum, groups, before);
      }
    }
  }

  // ----- Page texts

  function JoinEach(groups: seq<seq<string>>): (r: seq<string>)
    ensures |r| == |groups|
    ensures forall i :: 0 <= i < |r| ==> r[i] == Join(groups[i], GAP)
  {
    seq(|groups|, i requires 0 <= i < |groups| => Join(groups[i], GAP))
  }

  function PageTexts(blocks: seq<string>, maximum: nat): seq<string>
    requires maximum > 0
  {
    JoinEach(Pack([], AllPieces(blocks, maximum), maximum))
  }

  lemma {:induction false} VisibleJoinEach(groups: seq<seq<string>>)
    ensures Visible(Concat(JoinEach(groups))) == Visible(Concat(Flatten(groups)))
  {
    if groups != [] {
      VisibleJoinEach(groups[1..]);
      assert JoinEach(groups)[1..] == JoinEach(groups[1..]);
      VisibleJoin(groups[0], GAP);
      VisibleConcat(Join(groups[0], GAP), Concat(JoinEach(groups[1..])));
      ConcatAppend(groups[0], Flatten(groups[1..]));
      VisibleConcat(Concat(groups[0]), Concat(Flatten(groups[1..])));
    }
  }

  /** Paging loses nothing visible, and every page text fits. */
  lemma PageTextsKeep(blocks: seq<string>, maximum: nat)
    requires maximum > 0
    ensures Visible(Concat(PageTexts(blocks, maximum))) == Visible(Concat(blocks))
    ensures forall t :: t in PageTexts(blocks, maximum) ==> |t| <= maximum
  {
    var pieces := AllPieces(blocks, maximum);
    PackSound(pieces, maximum);
    VisibleJoinEach(Pack([], pieces, maximum));
    AllPiecesConcat(blocks, maximum);
    var groups := Pack([], pieces, maximum);
    forall t | t in PageTexts(blocks, maximum)
      ensures |t| <= maximum
    {
      var i :| 0 <= i < |groups| && t == JoinEach(groups)[i];
      assert groups[i] in groups;
    }
  }

  /**
    Greedy paging is optimal: it is itself an order-preserving grouping of the pieces into fitting pages,
    and no other such grouping has fewer pages.
   */
  lemma GreedyPagingOptimal(blocks: seq<string>, maximum: nat, groups: seq<seq<string>>)
    requires maximum > 0
    requires Flatten(groups) == AllPieces(blocks, maximum)
    requires Fits(groups, maximum)
    ensures exists greedy :: Flatten(greedy) == AllPieces(blocks, maximum) && Fits(greedy, maximum)
                          && JoinEach(greedy) == PageTexts(blocks, maximum)
    ensures |PageTexts(blocks, maximum)| <= |groups|
  {
    var pieces := AllPieces(blocks, maximum);
    PackSound(pieces, maximum);
    assert pieces == [] + [] + pieces;
    PackOptimal([], pieces, maximum, groups, []);
    var greedy := Pack([], pieces, maximum);
    assert Flatten(greedy) == pieces && Fits(greedy, maximum);
  }

  // ----- _split_section

  function SectionPages(texts: seq<string>, heading: string, start: nat): (pages: seq<Page>)
    ensures |pages| == |texts|
    ensures forall i :: 0 <= i < |pages| ==>
                          pages[i] == Page(start + i, DocxSection(start + i, heading), texts[i])
  {
    seq(|texts|, i requires 0 <= i < |texts| => Page(start + i, DocxSection(start + i, heading), texts[i]))
  }

  /** The pieces of one block from `offset` on. */
  function PiecesFrom(block: string, offset: nat, maximum: nat): seq<string>
    requires maximum > 0
  {
    if offset == 0 || offset < |block| then
      Pieces(if offset <= |block| then block[offset..] else "", maximum)
    else []
  }

  lemma PiecesFromHead(block: string, offset: nat, maximum: nat, end: nat)
    requires maximum > 0 && offset < (if |block| > 1 then |block| else 1)
    requires end == (if offset + maximum <= |block| then offset + maximum else |block|)
    ensures offset <= end
    ensures PiecesFrom(block, offset, maximum) == [block[offset..end]] + PiecesFrom(block, offset + maximum, maximum)
  {
    var here := block[offset..];
    if |here| > maximum {
      assert here[..maximum] == block[offset..end];
      assert here[maximum..] == block[offset + maximum..];
    } else {
      assert block[offset..end] == here;
    }
  }

  lemma PiecesFromStep(block: string, offset: nat, maximum: nat, end: nat, later: seq<string>)
    requires maximum > 0 && offset < (if |block| > 1 then |block| else 1)
    requires end == (if offset + maximum <= |block| then offset + maximum else |block|)
    ensures offset <= end
    ensures PiecesFrom(block, offset, maximum) + later
         == [block[offset..end]] + (PiecesFrom(block, offset + maximum, maximum) + later)
  {
    hide *;
    PiecesFromHead(block, offset, maximum, end);
    Associative([block[offset..end]], PiecesFrom(block, offset + maximum, maximum), later);
  }

  lemma AllPiecesStep(blocks: seq<string>, b: nat, maximum: nat)
    requires maximum > 0 && b < |blocks|
    ensures AllPieces(blocks[b..], maximum)
         == PiecesFrom(blocks[b], 0, maximum) + AllPieces(blocks[b + 1..], maximum)
  {
    assert blocks[b..][1..] == blocks[b + 1..];
    assert blocks[b][0..] == blocks[b];
  }

  /** Closing the open group: what `flush` appends. */
  function Flushed(texts: seq<string>, current: seq<string>): seq<string> {
    if current == [] then texts else texts + [Join(current, GAP)]
  }

  lemma FlushStep(texts: seq<string>, current: seq<string>, piece: string, rest: seq<string>, maximum: nat)
    requires current != [] && JoinLength(current) + 2 + |piece| > maximum
    ensures Outlook(texts, current, [piece] + rest, maximum)
         == Outlook(Flushed(texts, current), [piece], rest, maximum)
  {
    hide JoinLength, Join;
    assert ([piece] + rest)[1..] == rest;
    assert JoinEach([current] + Pack([piece], rest, maximum))
        == [Join(current, GAP)] + JoinEach(Pack([piece], rest, maximum));
  }

  lemma KeepStep(current: seq<string>, piece: string, rest: seq<string>, maximum: nat)
    requires current == [] || JoinLength(current) + 2 + |piece| <= maximum
    ensures Pack(current, [piece] + rest, maximum) == Pack(current + [piece], rest, maximum)
  {
    assert ([piece] + rest)[1..] == rest;
  }

  lemma FlushEnd(texts: seq<string>, current: seq<string>, maximum: nat)
    ensures Outlook(texts, current, [], maximum) == Flushed(texts, current)
  {
    if current == [] {
      assert JoinEach([]) == [];
    } else {
      assert JoinEach([current]) == [Join(current, GAP)];
    }
  }

  /** `flush` for a list of pages. */
  method Flush(pages: seq<Page>, current: seq<string>, heading: string, start: nat)
    returns (flushed: seq<Page>)
    requires pages == SectionPages(Texts(pages), heading, start)
    ensures Texts(flushed) == Flushed(Texts(pages), current)
    ensures flushed == SectionPages(Texts(flushed), heading, start)
  {
    if current == [] {
      return pages;
    }
    var number := start + |pages|;
    flushed := pages + [Page(number, DocxSection(number, heading), Join(current, GAP))];
  }

  function Texts(pages: seq<Page>): (r: seq<string>)
    ensures |r| == |pages|
    ensures forall i :: 0 <= i < |r| ==> r[i] == pages[i].text
  {
    seq(|pages|, i requires 0 <= i < |pages| => pages[i].text)
  }

  /** What the pages will be once `pieces` are packed behind the open group. */
  function Outlook(texts: seq<string>, current: seq<string>, pieces: seq<string>, maximum: nat): seq<string> {
    texts + JoinEach(Pack(current, pieces, maximum))
  }

  lemma OutlookStart(blocks: seq<string>, maximum: nat)
    requires maximum > 0
    ensures Outlook([], [], AllPieces(blocks, maximum), maximum) == PageTexts(blocks, maximum)
  {
    assert [] + PageTexts(blocks, maximum) == PageTexts(blocks, maximum);
  }

  /** The body of the inner loop: flush if the piece would overflow, then append it. */
  method PackPiece(
      pagesIn: seq<Page>, currentIn: seq<string>, lengthIn: nat, piece: string,
      heading: string, start: nat, maximum: nat, ghost rest: seq<string>)
    returns (pages: seq<Page>, current: seq<string>, currentLength: nat)
    requires pagesIn == SectionPages(Texts(pagesIn), heading, start)
    requires lengthIn == JoinLength(currentIn)
    ensures pages == SectionPages(Texts(pages), heading, start)
    ensures currentLength == JoinLength(current)
    ensures Outlook(Texts(pages), current, rest, maximum)
         == Outlook(Texts(pagesIn), currentIn, [piece] + rest, maximum)
  {
    pages, current, currentLength := pagesIn, currentIn, lengthIn;
    var addedLength := |piece| + (if current != [] then 2 else 0);
    if current != [] && currentLength + addedLength > maximum {
      FlushStep(Texts(pages), current, piece, rest, maximum);
      pages := Flush(pages, current, heading, start);
      current := [];
      currentLength := 0;
      assert [] + [piece] == [piece];
    } else {
      KeepStep(current, piece, rest, maximum);
    }
    JoinLengthConcat(current, [piece]);
    current := current + [piece];
    currentLength := currentLength + |piece| + (if |current| > 1 then 2 else 0);
  }

  /** The inner loop: the slices of one block, packed one by one. */
  method PackBlock(
      pagesIn: seq<Page>, currentIn: seq<string>, lengthIn: nat, block: string,
      heading: string, start: nat, maximum: nat, ghost later: seq<string>)
    returns (pages: seq<Page>, current: seq<string>, currentLength: nat)
    requires maximum > 0
    requires pagesIn == SectionPages(Texts(pagesIn), heading, start)
    requires lengthIn == JoinLength(currentIn)
    ensures pages == SectionPages(Texts(pages), heading, start)
    ensures currentLength == JoinLength(current)
    ensures Outlook(Texts(pages), current, later, maximum)
         == Outlook(Texts(pagesIn), currentIn, PiecesFrom(block, 0, maximum) + later, maximum)
  {
    hide Outlook, JoinLength, SectionPages, Texts;
    pages, current, currentLength := pagesIn, currentIn, lengthIn;
    var offset := 0;
    ghost var rest := PiecesFrom(block, 0, maximum) + later;
    while offset < (if |block| > 1 then |block| else 1)
      invariant pages == SectionPages(Texts(pages), heading, start)
      invariant currentLength == JoinLength(current)
      invariant rest == PiecesFrom(block, offset, maximum) + later
      invariant Outlook(Texts(pages), current, rest, maximum)
             == Outlook(Texts(pagesIn), currentIn, PiecesFrom(block, 0, maximum) + later, maximum)
    {
      var end := if offset + maximum <= |block| then offset + maximum else |block|;
      PiecesFromStep(block, offset, maximum, end, later);
      rest := PiecesFrom(block, offset + maximum, maximum) + later;
      pages, current, currentLength :=
        PackPiece(pages, current, currentLength, block[offset..end], heading, start, maximum, rest);
      offset := offset + maximum;
    }
    assert rest == later;
  }

  /** `_split_section`, with its running length and its flush-before-overflow test. */
  method SplitSection(blocks: seq<string>, heading: string, start: nat, maximum: nat) returns (pages: seq<Page>)
    requires maximum > 0
    ensures pages == SectionPages(PageTexts(blocks, maximum), heading, start)
  {
    pages := [];
    var current: seq<string> := [];
    var currentLength := 0;
    ghost var goal := PageTexts(blocks, maximum);
    assert blocks[0..] == blocks;
    OutlookStart(blocks, maximum);
    for b := 0 to |blocks|
      invariant pages == SectionPages(Texts(pages), heading, start)
      invariant currentLength == JoinLength(current)
      invariant Outlook(Texts(pages), current, AllPieces(blocks[b..], maximum), maximum) == goal
    {
      AllPiecesStep(blocks, b, maximum);
      pages, current, currentLength :=
        PackBlock(pages, current, currentLength, blocks[b], heading, start, maximum,
                  AllPieces(blocks[b + 1..], maximum));
    }
    assert blocks[|blocks|..] == [];
    FlushEnd(Texts(pages), current, maximum);
    pages := Flush(pages, current, heading, start);
  }

  // ----- _chunk_text

  /** `re.split(r"\n{2,}", value)` */
  function SplitParagraphs(s: string): (r: seq<string>)
    ensures |r| >= 1
    decreases |s|
  {
    var n := NewlineRun(s);
    if n >= 2 then [""] + SplitParagraphs(s[n..])
    else if s == "" then [""]
    else
      var rest := SplitParagraphs(s[1..]);
      [[s[0]] + rest[0]] + rest[1..]
  }

  function NewlineRun(s: string): (n: nat)
    ensures n <= |s|
    ensures forall i :: 0 <= i < n ==> s[i] == '\n'
    ensures n < |s| ==> s[n] != '\n'
  {
    if s != "" && s[0] == '\n' then 1 + NewlineRun(s[1..]) else 0
  }

  /** The stripped paragraphs that are not blank. */
  function Paragraphs(parts: seq<string>): (r: seq<string>)
    ensures forall p :: p in r ==> p != ""
  {
    if parts == [] then []
    else (if Strip(parts[0]) == "" then [] else [Strip(parts[0])]) + Paragraphs(parts[1..])
  }

  lemma {:induction false} VisibleSplitParagraphs(s: string)
    ensures Visible(Concat(SplitParagraphs(s))) == Visible(s)
    decreases |s|
  {
    var n := NewlineRun(s);
    if n >= 2 {
      VisibleSplitParagraphs(s[n..]);
      VisibleAfterNewlines(s, n);
      assert ([""] + SplitParagraphs(s[n..]))[1..] == SplitParagraphs(s[n..]);
      assert Concat(SplitParagraphs(s)) == Concat(SplitParagraphs(s[n..]));
    } else if s != "" {
      var rest := SplitParagraphs(s[1..]);
      VisibleSplitParagraphs(s[1..]);
      ConcatPrefixed(s[0], rest);
      VisibleConcat([s[0]], Concat(rest));
    }
  }

  lemma VisibleAfterNewlines(s: string, n: nat)
    requires n <= |s| && forall i :: 0 <= i < n ==> s[i] == '\n'
    ensures Visible(s[n..]) == Visible(s)
  {
    hide Visible;
    NothingVisible(s[..n]);
    assert s == s[..n] + s[n..];
    VisibleConcat(s[..n], s[n..]);
  }

  lemma ConcatPrefixed(c: char, parts: seq<string>)
    requires parts != []
    ensures Concat([[c] + parts[0]] + parts[1..]) == [c] + Concat(parts)
  {
    assert [c] + parts[0] + Concat(parts[1..]) == [c] + (parts[0] + Concat(parts[1..]));
    assert ([[c] + parts[0]] + parts[1..])[1..] == parts[1..];
  }

  lemma {:induction false} VisibleParagraphs(parts: seq<string>)
    ensures Visible(Concat(Paragraphs(parts))) == Visible(Concat(parts))
  {
    if parts != [] {
      VisibleParagraphs(parts[1..]);
      VisibleStrip(parts[0]);
      VisibleConcat(parts[0], Concat(parts[1..]));
      var p := Strip(parts[0]);
      var tail := Paragraphs(parts[1..]);
      if p == "" {
        assert [] + tail == tail;
      } else {
        assert ([p] + tail)[1..] == tail;
        VisibleConcat(p, Concat(tail));
      }
    }
  }

  function ChunkTexts(value: string, maximum: nat): seq<string>
    requires maximum > 0
  {
    var paragraphs := Paragraphs(SplitParagraphs(value));
    if paragraphs == [] then [""] else PageTexts(paragraphs, maximum)
  }

  /** A piece as long as the bound stands alone: it closes the open group and is closed by what follows. */
  lemma FullPiece(texts: seq<string>, current: seq<string>, piece: string, rest: seq<string>, maximum: nat)
    requires |piece| == maximum && rest != []
    ensures Outlook(texts, current, [piece] + rest, maximum)
         == Outlook(Flushed(texts, current) + [piece], [], rest, maximum)
  {
    var flushed := Flushed(texts, current);
    if current == [] {
      KeepStep(current, piece, rest, maximum);
      assert current + [piece] == [piece];
    } else {
      FlushStep(texts, current, piece, rest, maximum);
    }
    assert rest == [rest[0]] + rest[1..];
    FlushStep(flushed, [piece], rest[0], rest[1..], maximum);
    KeepStep([], rest[0], rest[1..], maximum);
    assert [] + [rest[0]] == [rest[0]];
  }

  lemma {:induction false} PackNonEmpty(current: seq<string>, pieces: seq<string>, maximum: nat)
    ensures current != [] || pieces != [] ==> Pack(current, pieces, maximum) != []
    decreases |pieces|
  {
    if pieces != [] {
      PackNonEmpty(current + [pieces[0]], pieces[1..], maximum);
    }
  }

  lemma PageTextsEmpty(blocks: seq<string>, maximum: nat)
    requires maximum > 0
    ensures PageTexts(blocks, maximum) == [] <==> blocks == []
  {
    if blocks != [] {
      assert AllPieces(blocks, maximum) == Pieces(blocks[0], maximum) + AllPieces(blocks[1..], maximum);
      PackNonEmpty([], AllPieces(blocks, maximum), maximum);
    }
  }

  lemma JoinSnoc(group: seq<string>, piece: string)
    requires group != []
    ensures Join(group + [piece], GAP) == Join(group, GAP) + GAP + piece
    ensures JoinLength(group + [piece]) == JoinLength(group) + 2 + |piece|
  {
    JoinConcat(group, [piece], GAP);
    JoinLengthConcat(group, [piece]);
  }

  lemma PiecesSplit(block: string, maximum: nat, later: seq<string>)
    requires 0 < maximum < |block|
    ensures Pieces(block, maximum) + later
         == [block[..maximum]] + (Pieces(block[maximum..], maximum) + later)
  {
  }

  /** Packing one paragraph, as the body of the outer loop of `_chunk_text` does. */
  method PackParagraph(
      chunksIn: seq<string>, currentIn: string, stripped: string, maximum: nat,
      ghost groupIn: seq<string>, ghost later: seq<string>)
    returns (chunks: seq<string>, current: string, ghost group: seq<string>)
    requires maximum > 0 && stripped != ""
    requires currentIn == Join(groupIn, GAP) && "" !in groupIn
    ensures chunksIn <= chunks && current != "" && |current| <= maximum
    ensures current == Join(group, GAP) && "" !in group && group != []
    ensures Outlook(chunks, group, later, maximum)
         == Outlook(chunksIn, groupIn, Pieces(stripped, maximum) + later, maximum)
  {
    chunks, current, group := chunksIn, currentIn, groupIn;
    var paragraph := stripped;
    while |paragraph| > maximum
      invariant paragraph != "" && chunksIn <= chunks
      invariant current == Join(group, GAP) && "" !in group
      invariant Outlook(chunks, group, Pieces(paragraph, maximum) + later, maximum)
             == Outlook(chunksIn, groupIn, Pieces(stripped, maximum) + later, maximum)
    {
      ghost var rest := Pieces(paragraph[maximum..], maximum) + later;
      PiecesSplit(paragraph, maximum, later);
      FullPiece(chunks, group, paragraph[..maximum], rest, maximum);
      JoinLengthIsLength(group);
      GroupEmptyIffTextEmpty(group);
      if current != "" {
        chunks := chunks + [current];
        current := "";
      }
      group := [];
      chunks := chunks + [paragraph[..maximum]];
      paragraph := paragraph[maximum..];
    }
    JoinLengthIsLength(group);
    GroupEmptyIffTextEmpty(group);
    var candidate := if current != "" then current + GAP + paragraph else paragraph;
    if |candidate| > maximum && current != "" {
      FlushStep(chunks, group, paragraph, later, maximum);
      chunks := chunks + [current];
      current := paragraph;
      group := [paragraph];
    } else {
      KeepStep(group, paragraph, later, maximum);
      if group != [] {
        JoinSnoc(group, paragraph);
      } else {
        assert group + [paragraph] == [paragraph];
      }
      current := candidate;
      group := group + [paragraph];
    }
  }

  lemma GroupEmptyIffTextEmpty(group: seq<string>)
    requires "" !in group
    ensures Join(group, GAP) == "" <==> group == []
  {
    if |group| >= 1 {
      assert group[0] in group;
    }
  }

  /** `_chunk_text` returns the page texts `_split_section` would make of the stripped paragraphs. */
  method ChunkText(value: string, maximum: nat) returns (chunks: seq<string>)
    requires maximum > 0
    ensures chunks == ChunkTexts(value, maximum)
  {
    hide Outlook, PageTexts, Pieces, SplitParagraphs, Strip;
    var parts := SplitParagraphs(value);
    chunks := [];
    var current := "";
    ghost var group: seq<string> := [];
    ghost var goal := PageTexts(Paragraphs(parts), maximum);
    assert parts[0..] == parts;
    OutlookStart(Paragraphs(parts), maximum);
    var i := 0;
    while i < |parts|
      invariant i <= |parts|
      invariant current == Join(group, GAP) && "" !in group
      invariant Outlook(chunks, group, AllPieces(Paragraphs(parts[i..]), maximum), maximum) == goal
      invariant group == [] ==> chunks == []
    {
      var paragraph := Strip(parts[i]);
      assert parts[i..][1..] == parts[i + 1..];
      ghost var later := Paragraphs(parts[i + 1..]);
      if paragraph != "" {
        assert Paragraphs(parts[i..]) == [paragraph] + later;
        assert ([paragraph] + later)[1..] == later;
        chunks, current, group :=
          PackParagraph(chunks, current, paragraph, maximum, group, AllPieces(later, maximum));
      } else {
        assert [] + later == later;
      }
      i := i + 1;
    }
    assert AllPieces(Paragraphs(parts[i..]), maximum) == [];
    FlushEnd(chunks, group, maximum);
    GroupEmptyIffTextEmpty(group);
    PageTextsEmpty(Paragraphs(parts), maximum);
    if current != "" || chunks == [] {
      chunks := chunks + [current];
    }
  }

  lemma VisibleNothing()
    ensures Visible(Concat([""])) == "" == Visible(Concat([]))
  {
    assert [""][1..] == [];
  }

  /** Chunking loses nothing visible, always yields a chunk, and every chunk fits. */
  lemma ChunkTextsKeep(value: string, maximum: nat)
    requires maximum > 0
    ensures Visible(Concat(ChunkTexts(value, maximum))) == Visible(value)
    ensures forall t :: t in ChunkTexts(value, maximum) ==> |t| <= maximum
    ensures ChunkTexts(value, maximum) != []
  {
    hide Visible, SplitParagraphs, Paragraphs, PageTexts;
    var paragraphs := Paragraphs(SplitParagraphs(value));
    VisibleSplitParagraphs(value);
    VisibleParagraphs(SplitParagraphs(value));
    PageTextsKeep(paragraphs, maximum);
    PageTextsEmpty(paragraphs, maximum);
    VisibleNothing();
  }

  /** The two packers agree on every text that has a paragraph to pack. */
  method PackersAgree(value: string, maximum: nat, heading: string, start: nat)
    returns (chunks: seq<string>, pages: seq<Page>)
    requires maximum > 0
    ensures Paragraphs(SplitParagraphs(value)) != [] ==> chunks == Texts(pages)
    ensures Paragraphs(SplitParagraphs(value)) == [] ==> chunks == [""] && pages == []
  {
    chunks := ChunkText(value, maximum);
    pages := SplitSection(Paragraphs(SplitParagraphs(value)), heading, start, maximum);
  }
}
