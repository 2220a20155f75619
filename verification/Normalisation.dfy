/** `_normalise_text`: the four-pass rewriter every extracted text goes through. */
module Normalisation {
  import opened Strings

  function ReplaceCrLf(s: string): (r: string)
    ensures |r| <= |s|
  {
    if s == "" then ""
    else if |s| >= 2 && s[0] == '\r' && s[1] == '\n' then "\n" + ReplaceCrLf(s[2..])
    else [s[0]] + ReplaceCrLf(s[1..])
  }

  function ReplaceCr(s: string): (r: string)
    ensures |r| == |s|
  {
    if s == "" then ""
    else [if s[0] == '\r' then '\n' else s[0]] + ReplaceCr(s[1..])
  }

  predicate Allowed(c: char, preserveFormFeed: bool) {
    c == '\n' || c == '\t' || (preserveFormFeed && c == FORM_FEED) || !IsControl(c)
  }

  function DropControls(s: string, preserveFormFeed: bool): (r: string)
    ensures |r| <= |s|
  {
    if s == "" then ""
    else (if Allowed(s[0], preserveFormFeed) then [s[0]] else "") + DropControls(s[1..], preserveFormFeed)
  }

  predicate IsBlank(c: char) {
    c == ' ' || c == '\t'
  }

  /** `re.sub(r"[ \t]+$", "", line)` */
  function TrimLine(line: string): (r: string)
    ensures |r| <= |line| && r == line[..|r|]
    ensures r == "" || !IsBlank(r[|r| - 1])
  {
    if line != "" && IsBlank(line[|line| - 1]) then TrimLine(line[..|line| - 1]) else line
  }

  function TrimEach(lines: seq<string>): (r: seq<string>)
    ensures |r| == |lines|
    ensures forall i :: 0 <= i < |r| ==> r[i] == TrimLine(lines[i])
  {
    seq(|lines|, i requires 0 <= i < |lines| => TrimLine(lines[i]))
  }

  function TrimLines(s: string): string {
    Join(TrimEach(Split(s, '\n')), "\n")
  }

  function Normalise(value: string, preserveFormFeed: bool): string {
    Strip(TrimLines(DropControls(ReplaceCr(ReplaceCrLf(value)), preserveFormFeed)))
  }

  // ----- What a normalised text looks like

  /** No blank stands at the end of a line. */
  predicate NoTrailingBlank(s: string) {
    forall i :: 0 <= i < |s| && IsBlank(s[i]) ==> i + 1 < |s| && s[i + 1] != '\n'
  }

  predicate AllAllowed(s: string, preserveFormFeed: bool) {
    forall c :: c in s ==> Allowed(c, preserveFormFeed)
  }

  predicate IsNormalised(s: string, preserveFormFeed: bool) {
    AllAllowed(s, preserveFormFeed) && NoTrailingBlank(s) && Stripped(s)
  }

  // ----- Each pass in turn

  lemma {:induction false} NewlinesId(s: string)
    requires '\r' !in s
    ensures ReplaceCr(ReplaceCrLf(s)) == s
  {
    if s != "" {
      NewlinesId(s[1..]);
    }
  }

  lemma {:induction false} DropControlsAllowed(s: string, preserveFormFeed: bool)
    ensures AllAllowed(DropControls(s, preserveFormFeed), preserveFormFeed)
    ensures AllAllowed(s, preserveFormFeed) ==> DropControls(s, preserveFormFeed) == s
  {
    if s != "" {
      DropControlsAllowed(s[1..], preserveFormFeed);
    }
  }

  lemma TrimEachCons(line: string, tail: seq<string>)
    requires tail != []
    ensures Join(TrimEach([line] + tail), "\n") == TrimLine(line) + "\n" + Join(TrimEach(tail), "\n")
  {
    assert TrimEach([line] + tail) == [TrimLine(line)] + TrimEach(tail);
    JoinConcat([TrimLine(line)], TrimEach(tail), "\n");
  }

  /** Trimming the lines of a text that starts with a complete line. */
  lemma TrimLinesStep(line: string, rest: string)
    requires '\n' !in line
    ensures TrimLines(line + "\n" + rest) == TrimLine(line) + "\n" + TrimLines(rest)
  {
    SplitFirst(line, '\n', rest);
    TrimEachCons(line, Split(rest, '\n'));
  }

  lemma TrimLinesSingle(line: string)
    requires '\n' !in line
    ensures TrimLines(line) == TrimLine(line)
  {
    SplitSingle(line, '\n');
  }

  /** Either the text is one line, or a line, a line feed and the rest. */
  lemma FirstLine(s: string) returns (line: string, rest: string)
    ensures '\n' !in line
    ensures '\n' in s ==> s == line + "\n" + rest && |rest| < |s|
    ensures '\n' !in s ==> s == line
  {
    if '\n' !in s {
      return s, "";
    }
    if s[0] == '\n' {
      return "", s[1..];
    }
    line, rest := FirstLine(s[1..]);
    line := [s[0]] + line;
  }

  lemma TrimmedLine(line: string)
    requires '\n' !in line
    ensures NoTrailingBlank(line) <==> (line == "" || !IsBlank(line[|line| - 1]))
    ensures NoTrailingBlank(line) <==> TrimLine(line) == line
  {
    if line != "" && !IsBlank(line[|line| - 1]) {
      forall i | 0 <= i < |line| && IsBlank(line[i])
        ensures i + 1 < |line| && line[i + 1] != '\n'
      {
        assert line[i + 1] in line;
      }
    }
  }

  lemma NoTrailingBlankStep(line: string, rest: string)
    requires '\n' !in line
    ensures NoTrailingBlank(line + "\n" + rest) <==> NoTrailingBlank(line) && NoTrailingBlank(rest)
  {
    var s := line + "\n" + rest;
    assert forall i :: 0 <= i < |line| ==> s[i] == line[i] && line[i] in line;
    assert s[|line|] == '\n';
    assert forall i :: 0 <= i < |rest| ==> s[|line| + 1 + i] == rest[i];
    if NoTrailingBlank(line) && NoTrailingBlank(rest) {
      forall i | 0 <= i < |s| && IsBlank(s[i])
        ensures i + 1 < |s| && s[i + 1] != '\n'
      {
        if i > |line| {
          assert s[i] == rest[i - |line| - 1];
        }
      }
    }
    if NoTrailingBlank(s) {
      forall i | 0 <= i < |line| && IsBlank(line[i])
        ensures i + 1 < |line| && line[i + 1] != '\n'
      {
        assert s[i + 1] != '\n';
      }
      forall i | 0 <= i < |rest| && IsBlank(rest[i])
        ensures i + 1 < |rest| && rest[i + 1] != '\n'
      {
        assert s[|line| + 1 + i] == rest[i];
      }
    }
  }

  lemma {:induction false} TrimLinesClean(s: string)
    ensures NoTrailingBlank(TrimLines(s))
    ensures NoTrailingBlank(s) ==> TrimLines(s) == s
    ensures |TrimLines(s)| <= |s|
    ensures forall c :: c in TrimLines(s) ==> c in s
    ensures Visible(TrimLines(s)) == Visible(s)
    decreases |s|
  {
    var line, rest := FirstLine(s);
    var t := TrimLine(line);
    assert forall c :: c in t ==> c in line;
    TrimmedLine(line);
    TrimmedLine(t);
    VisibleTrimLine(line);
    if '\n' in s {
      TrimLinesClean(rest);
      TrimLinesStep(line, rest);
      NoTrailingBlankStep(t, TrimLines(rest));
      NoTrailingBlankStep(line, rest);
      VisibleConcat(line + "\n", rest);
      VisibleConcat(line, "\n");
      VisibleConcat(t + "\n", TrimLines(rest));
      VisibleConcat(t, "\n");
    } else {
      TrimLinesSingle(line);
    }
  }

  lemma {:induction false} VisibleTrimLine(line: string)
    ensures Visible(TrimLine(line)) == Visible(line)
  {
    if line != "" && IsBlank(line[|line| - 1]) {
      VisibleTrimLine(line[..|line| - 1]);
      assert line == line[..|line| - 1] + [line[|line| - 1]];
      VisibleConcat(line[..|line| - 1], [line[|line| - 1]]);
    }
  }

  lemma {:induction false} VisibleReplaceCrLf(s: string)
    ensures Visible(ReplaceCrLf(s)) == Visible(s)
    decreases |s|
  {
    if |s| >= 2 && s[0] == '\r' && s[1] == '\n' {
      VisibleReplaceCrLf(s[2..]);
      assert Visible(s[1..]) == Visible(s[1..][1..]);
      assert s[1..][1..] == s[2..];
    } else if s != "" {
      VisibleReplaceCrLf(s[1..]);
    }
  }

  lemma {:induction false} VisibleReplaceCr(s: string)
    ensures Visible(ReplaceCr(s)) == Visible(s)
  {
    if s != "" {
      VisibleReplaceCr(s[1..]);
    }
  }

  lemma {:induction false} VisibleDropControls(s: string, preserveFormFeed: bool)
    ensures Visible(DropControls(s, preserveFormFeed)) == Visible(s)
  {
    if s != "" {
      var rest := DropControls(s[1..], preserveFormFeed);
      VisibleDropControls(s[1..], preserveFormFeed);
      assert ([s[0]] + rest)[1..] == rest;
      assert "" + rest == rest;
    }
  }

  lemma NoTrailingBlankMiddle(s: string, lo: nat, hi: nat)
    requires lo <= hi <= |s| && NoTrailingBlank(s) && Stripped(s[lo..hi])
    ensures NoTrailingBlank(s[lo..hi])
  {
    var m := s[lo..hi];
    forall i | 0 <= i < |m| && IsBlank(m[i])
      ensures i + 1 < |m| && m[i + 1] != '\n'
    {
      assert s[lo + i] == m[i];
    }
  }

  // ----- Main results

  /** Whatever goes in, what comes out is normalised, no longer, and shows the same visible text. */
  lemma NormaliseResult(value: string, preserveFormFeed: bool)
    ensures IsNormalised(Normalise(value, preserveFormFeed), preserveFormFeed)
    ensures |Normalise(value, preserveFormFeed)| <= |value|
    ensures Visible(Normalise(value, preserveFormFeed)) == Visible(value)
  {
    hide Visible, TrimLines, DropControls, ReplaceCr, ReplaceCrLf, NoTrailingBlank, Allowed, StripLeft, StripRight;
    var a := ReplaceCr(ReplaceCrLf(value));
    var b := DropControls(a, preserveFormFeed);
    var c := TrimLines(b);
    VisibleReplaceCrLf(value);
    VisibleReplaceCr(ReplaceCrLf(value));
    VisibleDropControls(a, preserveFormFeed);
    DropControlsAllowed(a, preserveFormFeed);
    TrimLinesClean(b);
    VisibleStrip(c);
    var lo, hi := StripMiddle(c);
    NoTrailingBlankMiddle(c, lo, hi);
    assert forall x :: x in c[lo..hi] ==> x in c;
  }

  /** The fixed points of `_normalise_text` are exactly the normalised texts. */
  lemma NormalisedIffFixed(s: string, preserveFormFeed: bool)
    ensures IsNormalised(s, preserveFormFeed) <==> Normalise(s, preserveFormFeed) == s
  {
    hide Visible, TrimLines, DropControls, ReplaceCr, ReplaceCrLf, NoTrailingBlank, StripLeft, StripRight;
    NormaliseResult(s, preserveFormFeed);
    if IsNormalised(s, preserveFormFeed) {
      NewlinesId(s);
      DropControlsAllowed(s, preserveFormFeed);
      TrimLinesClean(s);
      StripId(s);
    }
  }

  lemma NormaliseIdempotent(value: string, preserveFormFeed: bool)
    ensures Normalise(Normalise(value, preserveFormFeed), preserveFormFeed) == Normalise(value, preserveFormFeed)
  {
    NormaliseResult(value, preserveFormFeed);
    NormalisedIffFixed(Normalise(value, preserveFormFeed), preserveFormFeed);
  }
}
