/** Normalisation line by line: what becomes of each line of a text, whichever way its lines end. */
module SourceLines {
  import opened Strings
  import opened Normalisation

  /** The lines of a text: each ends at a carriage return and line feed, a carriage return, or a line feed. */
  function Lines(s: string): (lines: seq<string>)
    ensures |lines| >= 1
  {
    if s == "" then [""]
    else if s[0] == '\r' && |s| >= 2 && s[1] == '\n' then [""] + Lines(s[2..])
    else if s[0] == '\r' || s[0] == '\n' then [""] + Lines(s[1..])
    else
      var rest := Lines(s[1..]);
      [[s[0]] + rest[0]] + rest[1..]
  }

  /** The characters of a line that are kept, in order. */
  predicate KeptFrom(kept: string, line: string, preserveFormFeed: bool)
    decreases |line|
  {
    if line == "" then kept == ""
    else if line[0] == '\t' || (preserveFormFeed && line[0] == FORM_FEED) || (line[0] >= ' ' && line[0] != '\U{7F}') then
      kept != "" && kept[0] == line[0] && KeptFrom(kept[1..], line[1..], preserveFormFeed)
    else KeptFrom(kept, line[1..], preserveFormFeed)
  }

  predicate AllBlank(s: string) {
    forall c :: c in s ==> c == ' ' || c == '\t'
  }

  /** The line without its control characters and without the blanks at its end. */
  ghost predicate CleanOf(clean: string, line: string, preserveFormFeed: bool) {
    && (clean == "" || (clean[|clean| - 1] != ' ' && clean[|clean| - 1] != '\t'))
    && exists blanks :: AllBlank(blanks) && KeptFrom(clean + blanks, line, preserveFormFeed)
  }

  lemma {:induction false} LinesAreSplit(s: string)
    ensures Split(ReplaceCr(ReplaceCrLf(s)), '\n') == Lines(s)
  {
    if s != "" {
      if s[0] == '\r' && |s| >= 2 && s[1] == '\n' {
        LinesAreSplit(s[2..]);
        assert ReplaceCr(ReplaceCrLf(s)) == ['\n'] + ReplaceCr(ReplaceCrLf(s[2..]));
        SplitCons('\n', ReplaceCr(ReplaceCrLf(s[2..])), '\n');
      } else {
        LinesAreSplit(s[1..]);
        var c := if s[0] == '\r' then '\n' else s[0];
        assert ReplaceCrLf(s) == [s[0]] + ReplaceCrLf(s[1..]);
        assert ReplaceCr(ReplaceCrLf(s)) == [c] + ReplaceCr(ReplaceCrLf(s[1..]));
        SplitCons(c, ReplaceCr(ReplaceCrLf(s[1..])), '\n');
      }
    }
  }

  lemma DropFirst(c: char, rest: string, preserveFormFeed: bool)
    ensures DropControls([c] + rest, preserveFormFeed)
         == if Allowed(c, preserveFormFeed) then [c] + DropControls(rest, preserveFormFeed)
            else DropControls(rest, preserveFormFeed)
  {
    assert ([c] + rest)[1..] == rest;
    assert "" + DropControls(rest, preserveFormFeed) == DropControls(rest, preserveFormFeed);
  }

  lemma {:induction false} DropKeeps(line: string, preserveFormFeed: bool)
    requires '\n' !in line
    ensures KeptFrom(DropControls(line, preserveFormFeed), line, preserveFormFeed)
    ensures '\n' !in DropControls(line, preserveFormFeed)
  {
    if line != "" {
      var c, rest := line[0], line[1..];
      assert line == [c] + rest && c in line;
      DropFirst(c, rest, preserveFormFeed);
      DropKeeps(rest, preserveFormFeed);
      var kept := DropControls(line, preserveFormFeed);
      if Allowed(c, preserveFormFeed) {
        assert kept[1..] == DropControls(rest, preserveFormFeed);
      }
    }
  }

  lemma {:induction false} TrimLineBlanks(line: string)
    ensures AllBlank(line[|TrimLine(line)|..])
  {
    if line != "" && IsBlank(line[|line| - 1]) {
      var shorter, n := line[..|line| - 1], |TrimLine(line)|;
      TrimLineBlanks(shorter);
      assert line[n..] == shorter[n..] + [line[|line| - 1]];
    }
  }

  lemma TrimLineCleans(line: string, preserveFormFeed: bool)
    requires '\n' !in line
    ensures CleanOf(TrimLine(DropControls(line, preserveFormFeed)), line, preserveFormFeed)
  {
    hide KeptFrom, AllBlank;
    var kept := DropControls(line, preserveFormFeed);
    var clean := TrimLine(kept);
    DropKeeps(line, preserveFormFeed);
    TrimLineBlanks(kept);
    assert kept == clean + kept[|clean|..];
  }

  function DropEach(lines: seq<string>, preserveFormFeed: bool): (r: seq<string>)
    ensures |r| == |lines|
    ensures forall i :: 0 <= i < |r| ==> r[i] == DropControls(lines[i], preserveFormFeed)
  {
    seq(|lines|, i requires 0 <= i < |lines| => DropControls(lines[i], preserveFormFeed))
  }

  lemma DropEachCons(first: string, lines: seq<string>, preserveFormFeed: bool)
    ensures DropEach([first] + lines, preserveFormFeed)
         == [DropControls(first, preserveFormFeed)] + DropEach(lines, preserveFormFeed)
  {
    hide DropControls;
  }

  lemma FirstAndRest(first: string, rest: seq<string>)
    ensures ([first] + rest)[0] == first && ([first] + rest)[1..] == rest
  {
  }

  /** A character other than a line feed belongs to the first line, kept or not. */
  lemma SplitDropsCharacter(c: char, rest: string, preserveFormFeed: bool)
    requires c != '\n'
    requires Split(DropControls(rest, preserveFormFeed), '\n') == DropEach(Split(rest, '\n'), preserveFormFeed)
    ensures Split(DropControls([c] + rest, preserveFormFeed), '\n')
         == DropEach(Split([c] + rest, '\n'), preserveFormFeed)
  {
    hide Split, DropControls, Allowed, DropEach;
    var first, later := Split(rest, '\n')[0], Split(rest, '\n')[1..];
    assert [first] + later == Split(rest, '\n');
    DropFirst(c, rest, preserveFormFeed);
    DropFirst(c, first, preserveFormFeed);
    SplitCons(c, rest, '\n');
    SplitCons(c, DropControls(rest, preserveFormFeed), '\n');
    DropEachCons([c] + first, later, preserveFormFeed);
    DropEachCons(first, later, preserveFormFeed);
    FirstAndRest(DropControls(first, preserveFormFeed), DropEach(later, preserveFormFeed));
  }

  /** Control characters are dropped line by line: the line feeds stay. */
  lemma {:induction false} SplitDrops(s: string, preserveFormFeed: bool)
    ensures Split(DropControls(s, preserveFormFeed), '\n') == DropEach(Split(s, '\n'), preserveFormFeed)
  {
    if s != "" {
      var c, rest := s[0], s[1..];
      SplitDrops(rest, preserveFormFeed);
      hide Split, DropControls, Allowed, DropEach;
      assert s == [c] + rest;
      if c == '\n' {
        DropFirst(c, rest, preserveFormFeed);
        SplitCons(c, rest, '\n');
        SplitCons(c, DropControls(rest, preserveFormFeed), '\n');
        LineFeedAllowed(preserveFormFeed);
        DropEachCons("", Split(rest, '\n'), preserveFormFeed);
        DropNothing(preserveFormFeed);
      } else {
        SplitDropsCharacter(c, rest, preserveFormFeed);
      }
    }
  }

  lemma DropNothing(preserveFormFeed: bool)
    ensures DropControls("", preserveFormFeed) == ""
  {
  }

  lemma LineFeedAllowed(preserveFormFeed: bool)
    ensures Allowed('\n', preserveFormFeed)
  {
  }

  /**
    The normal form of a text is its lines, whichever way they end, each without control characters and blanks at its
    end, joined by line feeds, less the white space at both ends.
   */
  lemma NormalisedLines(value: string, preserveFormFeed: bool) returns (clean: seq<string>, lo: nat, hi: nat)
    ensures |clean| == |Lines(value)|
    ensures forall i :: 0 <= i < |clean| ==> CleanOf(clean[i], Lines(value)[i], preserveFormFeed)
    ensures var joined := Join(clean, "\n");
            && lo <= hi <= |joined| && Normalise(value, preserveFormFeed) == joined[lo..hi]
            && (forall k :: 0 <= k < lo || hi <= k < |joined| ==> IsSpace(joined[k]))
  {
    hide CleanOf, Split, DropControls, Strip;
    var newlines := ReplaceCr(ReplaceCrLf(value));
    LinesAreSplit(value);
    SplitDrops(newlines, preserveFormFeed);
    clean := TrimEach(Split(DropControls(newlines, preserveFormFeed), '\n'));
    forall i | 0 <= i < |clean|
      ensures CleanOf(clean[i], Lines(value)[i], preserveFormFeed)
    {
      assert Split(newlines, '\n')[i] in Split(newlines, '\n');
      TrimLineCleans(Lines(value)[i], preserveFormFeed);
    }
    lo, hi := StripSpaces(Join(clean, "\n"));
  }

  lemma {:induction false} StripLeftSpaces(s: string) returns (lo: nat)
    ensures lo <= |s| && StripLeft(s) == s[lo..] && forall k :: 0 <= k < lo ==> IsSpace(s[k])
  {
    lo := 0;
    if s != "" && IsSpace(s[0]) {
      lo := StripLeftSpaces(s[1..]);
      assert forall k :: 0 < k < lo + 1 ==> s[k] == s[1..][k - 1];
      lo := lo + 1;
    }
  }

  lemma {:induction false} StripRightSpaces(s: string)
    ensures forall k :: |StripRight(s)| <= k < |s| ==> IsSpace(s[k])
  {
    if s != "" && IsSpace(s[|s| - 1]) {
      StripRightSpaces(s[..|s| - 1]);
      assert forall k :: 0 <= k < |s| - 1 ==> s[k] == s[..|s| - 1][k];
    }
  }

  lemma StripSpaces(s: string) returns (lo: nat, hi: nat)
    ensures lo <= hi <= |s| && Strip(s) == s[lo..hi]
    ensures forall k :: 0 <= k < lo || hi <= k < |s| ==> IsSpace(s[k])
  {
    hide IsSpace, StripLeft, StripRight;
    lo := StripLeftSpaces(s);
    StripRightSpaces(s[lo..]);
    hi := lo + |Strip(s)|;
    assert forall k :: hi <= k < |s| ==> s[k] == s[lo..][k - lo];
  }
}
