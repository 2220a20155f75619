/** What `RECORD_PATTERN` matches in any text, told without its backtracking. */
module Patterns {
  import opened Strings
  import opened Records

  predicate AllSpaces(s: string) {
    forall c :: c in s ==> IsSpace(c)
  }

  /** White space up to `k`, a field up to `e`, and a bar. */
  predicate FieldAt(s: string, k: nat, e: nat) {
    k < e < |s| && AllSpaces(s[..k]) && (forall c :: c in s[k..e] ==> InField(c)) && s[e] == '|'
  }

  /** White space up to `k`, and a part of a line up to `e`. */
  predicate DetailAt(s: string, k: nat, e: nat) {
    k < e <= |s| && AllSpaces(s[..k]) && forall c :: c in s[k..e] ==> InLine(c)
  }

  /** Where the three fields begin and end, each counted from behind the bar before it. */
  datatype Spans = Spans(k1: nat, e1: nat, k2: nat, e2: nat, k3: nat, e3: nat)

  /** The tag is the word RECORD and a colon, each letter in either case. */
  lemma TagInAnyCase(s: string)
    ensures StartsWithTag(s)
       <==> && |s| >= 7 && s[0] in "Rr" && s[1] in "Ee" && s[2] in "Cc" && s[3] in "Oo" && s[4] in "Rr" && s[5] in "Dd"
            && s[6] == ':'
  {
    if |s| >= 7 {
      assert StartsWithTag(s) <==> forall i :: 0 <= i < 7 ==> Upper(s[i]) == "RECORD:"[i];
    }
  }

  /** The value and the detail laid out like this. */
  predicate ValueAt(s: string, at: Spans) {
    FieldAt(s, at.k2, at.e2) && DetailAt(s[at.e2 + 1..], at.k3, at.e3)
  }

  // ----- Runs

  lemma {:induction false} SpaceRunIs(s: string, k: nat)
    requires k <= |s|
    ensures AllSpaces(s[..k]) <==> k <= SpaceRun(s)
  {
    hide IsSpace;
    if k > 0 {
      assert s[1..][..k - 1] == s[1..k];
      assert s[..k] == [s[0]] + s[1..k];
      SpaceRunIs(s[1..], k - 1);
      assert s[0] in s[..k];
    }
  }

  lemma {:induction false} FieldRunIs(s: string, e: nat)
    requires e <= |s|
    ensures FieldRun(s) == e <==> (forall c :: c in s[..e] ==> InField(c)) && (e < |s| ==> !InField(s[e]))
  {
    hide InField;
    if e > 0 {
      assert s[1..][..e - 1] == s[1..e];
      assert s[..e] == [s[0]] + s[1..e];
      FieldRunIs(s[1..], e - 1);
      assert s[0] in s[..e];
    }
  }

  lemma {:induction false} LineRunIs(s: string)
    ensures forall c :: c in s[..LineRun(s)] ==> InLine(c)
    ensures LineRun(s) < |s| ==> !InLine(s[LineRun(s)])
  {
    if s != "" && InLine(s[0]) {
      assert s[..LineRun(s)] == [s[0]] + s[1..][..LineRun(s[1..])];
      LineRunIs(s[1..]);
    }
  }

  lemma SliceOfTail(s: string, k: nat, n: nat)
    requires k + n <= |s|
    ensures s[k..][..n] == s[k..k + n]
  {
  }

  /** A field starting at `k` ends where the longest run does. */
  lemma FieldIsRun(s: string, k: nat, e: nat)
    requires FieldAt(s, k, e)
    ensures k + FieldRun(s[k..]) == e && k <= SpaceRun(s)
  {
    hide FieldRun, SpaceRun, AllSpaces;
    assert !InField('|');
    SliceOfTail(s, k, e - k);
    FieldRunIs(s[k..], e - k);
    SpaceRunIs(s, k);
  }

  lemma RunIsField(s: string, k: nat)
    requires k <= SpaceRun(s) && k <= |s|
    ensures var e := k + FieldRun(s[k..]); k < e < |s| && s[e] == '|' ==> FieldAt(s, k, e)
  {
    hide FieldRun, SpaceRun, AllSpaces, InField;
    var n := FieldRun(s[k..]);
    SliceOfTail(s, k, n);
    FieldRunIs(s[k..], n);
    SpaceRunIs(s, k);
  }

  // ----- The detail

  lemma {:induction false} DetailSound(s: string, skip: nat) returns (k: nat)
    requires skip <= |s| && skip <= SpaceRun(s) && DetailFrom(s, skip).Capture?
    ensures var found := DetailFrom(s, skip);
            && DetailAt(s, k, found.length) && found.text == s[k..found.length]
            && (found.length < |s| ==> !InLine(s[found.length]))
  {
    var n := LineRun(s[skip..]);
    if n > 0 {
      k := skip;
      LineRunIs(s[skip..]);
      assert s[skip..][..n] == s[skip..skip + n];
      SpaceRunIs(s, skip);
    } else {
      k := DetailSound(s, skip - 1);
    }
  }

  lemma {:induction false} DetailComplete(s: string, skip: nat, k: nat)
    requires k <= skip <= |s| && k < |s| && InLine(s[k])
    ensures DetailFrom(s, skip).Capture?
  {
    if k < skip {
      DetailComplete(s, skip - 1, k);
    } else {
      assert s[skip..][0] == s[k];
    }
  }

  lemma DetailExactly(s: string)
    ensures MatchDetail(s).Capture? <==> exists k: nat, e: nat :: DetailAt(s, k, e)
  {
    if MatchDetail(s).Capture? {
      var k := DetailSound(s, SpaceRun(s));
    }
    if k: nat, e: nat :| DetailAt(s, k, e) {
      SpaceRunIs(s, k);
      assert s[k] in s[k..e];
      DetailComplete(s, SpaceRun(s), k);
    }
  }

  // ----- The value

  function FieldEnd(s: string, skip: nat): nat
    requires skip <= |s|
  {
    skip + FieldRun(s[skip..])
  }

  /** The attempt with `skip` characters of white space gets as far as the bar. */
  predicate BarAfter(s: string, skip: nat)
    requires skip <= |s|
  {
    skip < FieldEnd(s, skip) < |s| && s[FieldEnd(s, skip)] == '|'
  }

  lemma ValueStep(s: string, skip: nat)
    requires skip <= |s|
    ensures ValueFrom(s, skip)
         == if BarAfter(s, skip) && MatchDetail(s[FieldEnd(s, skip) + 1..]).Capture? then
              var end := FieldEnd(s, skip);
              var detail := MatchDetail(s[end + 1..]);
              Match("", s[skip..end], detail.text, end + 1 + detail.length)
            else if skip == 0 then NoMatch
            else ValueFrom(s, skip - 1)
  {
    hide FieldRun, MatchDetail;
  }

  lemma {:induction false} ValueSound(s: string, skip: nat) returns (at: Spans)
    requires skip <= |s| && skip <= SpaceRun(s) && ValueFrom(s, skip).Match?
    ensures var found := ValueFrom(s, skip);
            && ValueAt(s, at) && found.value == s[at.k2..at.e2]
            && found.detail == s[at.e2 + 1..][at.k3..at.e3] && found.length == at.e2 + 1 + at.e3
            && (found.length < |s| ==> !InLine(s[found.length]))
  {
    hide ValueFrom, FieldRun, SpaceRun, DetailFrom, FieldAt, DetailAt, InLine;
    ValueStep(s, skip);
    if BarAfter(s, skip) && MatchDetail(s[FieldEnd(s, skip) + 1..]).Capture? {
      RunIsField(s, skip);
      var rest := s[FieldEnd(s, skip) + 1..];
      var k := DetailSound(rest, SpaceRun(rest));
      at := Spans(0, 0, skip, FieldEnd(s, skip), k, MatchDetail(rest).length);
    } else {
      at := ValueSound(s, skip - 1);
    }
  }

  lemma {:induction false} ValueComplete(s: string, skip: nat, at: Spans)
    requires at.k2 <= skip <= |s| && ValueAt(s, at)
    ensures ValueFrom(s, skip).Match?
  {
    hide ValueFrom, FieldRun, DetailFrom, DetailAt, MatchDetail;
    ValueStep(s, skip);
    if at.k2 < skip {
      ValueComplete(s, skip - 1, at);
    } else {
      FieldIsRun(s, at.k2, at.e2);
      DetailExactly(s[at.e2 + 1..]);
    }
  }

  lemma ValueExactly(s: string)
    ensures MatchValue(s).Match? <==> exists at :: ValueAt(s, at)
  {
    hide ValueFrom, FieldRun, SpaceRun, ValueAt, FieldAt;
    if MatchValue(s).Match? {
      var at := ValueSound(s, SpaceRun(s));
    }
    if at :| ValueAt(s, at) {
      ValueField(s, at);
      FieldIsRun(s, at.k2, at.e2);
      ValueComplete(s, SpaceRun(s), at);
    }
  }

  lemma ValueField(s: string, at: Spans)
    requires ValueAt(s, at)
    ensures FieldAt(s, at.k2, at.e2)
  {
  }

  // ----- The key and the whole record

  lemma KeyStep(s: string, skip: nat)
    requires skip <= |s|
    ensures KeyFrom(s, skip)
         == if BarAfter(s, skip) && MatchValue(s[FieldEnd(s, skip) + 1..]).Match? then
              var end := FieldEnd(s, skip);
              var rest := MatchValue(s[end + 1..]);
              Match(s[skip..end], rest.value, rest.detail, end + 1 + rest.length)
            else if skip == 0 then NoMatch
            else KeyFrom(s, skip - 1)
  {
    hide FieldRun, MatchValue;
  }

  /** The record without its tag. */
  predicate KeyAt(s: string, at: Spans) {
    FieldAt(s, at.k1, at.e1) && ValueAt(s[at.e1 + 1..], at)
  }

  /** The match has the fields and the length laid out. */
  predicate Captures(s: string, at: Spans, found: Match)
    requires KeyAt(s, at)
  {
    var rest := s[at.e1 + 1..];
    && found.Match? && found.key == s[at.k1..at.e1] && found.value == rest[at.k2..at.e2]
    && found.detail == rest[at.e2 + 1..][at.k3..at.e3]
    && found.length == at.e1 + 1 + at.e2 + 1 + at.e3
    && (found.length < |s| ==> !InLine(s[found.length]))
  }

  lemma {:induction false} KeySound(s: string, skip: nat) returns (at: Spans)
    requires skip <= |s| && skip <= SpaceRun(s) && KeyFrom(s, skip).Match?
    ensures KeyAt(s, at) && Captures(s, at, KeyFrom(s, skip))
  {
    hide KeyFrom, FieldRun, SpaceRun, ValueFrom, InLine, AllSpaces;
    KeyStep(s, skip);
    if BarAfter(s, skip) && MatchValue(s[FieldEnd(s, skip) + 1..]).Match? {
      RunIsField(s, skip);
      var rest := s[FieldEnd(s, skip) + 1..];
      var inner := ValueSound(rest, SpaceRun(rest));
      at := inner.(k1 := skip, e1 := FieldEnd(s, skip));
      assert ValueAt(rest, at);
    } else {
      at := KeySound(s, skip - 1);
    }
  }

  lemma {:induction false} KeyComplete(s: string, skip: nat, at: Spans)
    requires at.k1 <= skip <= |s| && KeyAt(s, at)
    ensures KeyFrom(s, skip).Match?
  {
    hide KeyFrom, FieldRun, ValueFrom, MatchValue, ValueAt;
    KeyStep(s, skip);
    if at.k1 < skip {
      KeyComplete(s, skip - 1, at);
    } else {
      FieldIsRun(s, at.k1, at.e1);
      ValueExactly(s[at.e1 + 1..]);
    }
  }

  /** The pattern matches exactly the texts that begin with a record laid out in some way. */
  lemma MatchesExactly(s: string)
    ensures MatchRecord(s).Match? <==> StartsWithTag(s) && exists at :: KeyAt(s[7..], at)
  {
    hide KeyFrom, SpaceRun, ValueAt, InLine, FieldRun;
    if MatchRecord(s).Match? {
      var at := KeySound(s[7..], SpaceRun(s[7..]));
    }
    if StartsWithTag(s) {
      if at :| KeyAt(s[7..], at) {
        FieldIsRun(s[7..], at.k1, at.e1);
        KeyComplete(s[7..], SpaceRun(s[7..]), at);
      }
    }
  }

  /** What a match captures: the three fields of such a layout, the last as long as the line goes on. */
  lemma MatchCaptures(s: string) returns (at: Spans)
    requires MatchRecord(s).Match?
    ensures StartsWithTag(s) && MatchRecord(s).length >= 7
    ensures KeyAt(s[7..], at) && Captures(s[7..], at, MatchRecord(s).(length := MatchRecord(s).length - 7))
  {
    hide KeyFrom, SpaceRun, KeyAt;
    at := KeySound(s[7..], SpaceRun(s[7..]));
  }

  // ----- finditer

  /** `^` matches at this position. */
  predicate LineStart(text: string, p: nat)
    requires p <= |text|
  {
    p == 0 || text[p - 1] == '\n'
  }

  predicate RecordStart(text: string, p: nat)
    requires p <= |text|
  {
    LineStart(text, p) && MatchRecord(text[p..]).Match?
  }

  /**
    The matches found from `o` on stand at these positions: in order, without overlap, and no line start that is
    outside all of them begins a record.
   */
  ghost predicate FoundAt(text: string, o: nat, found: seq<Match>, at: seq<nat>)
    requires o <= |text|
    decreases |at|
  {
    && |found| == |at|
    && if at == [] then forall q :: o <= q <= |text| ==> !RecordStart(text, q)
       else
         && o <= at[0] <= |text| && RecordStart(text, at[0]) && found[0] == MatchRecord(text[at[0]..])
         && (forall q :: o <= q < at[0] ==> !RecordStart(text, q))
         && FoundAt(text, at[0] + found[0].length, found[1..], at[1..])
  }

  /** One round of the search. */
  lemma FindStep(text: string, o: nat)
    requires o <= |text|
    ensures FindAll(LineStart(text, o), text[o..])
         == if o == |text| then []
            else if RecordStart(text, o) then
              var found := MatchRecord(text[o..]);
              [found] + FindAll(LineStart(text, o + found.length), text[o + found.length..])
            else FindAll(LineStart(text, o + 1), text[o + 1..])
  {
    hide MatchRecord;
    if o < |text| {
      var s := text[o..];
      assert s[1..] == text[o + 1..];
      if RecordStart(text, o) {
        var found := MatchRecord(s);
        assert s[found.length..] == text[o + found.length..];
        assert s[found.length - 1] == text[o + found.length - 1];
      }
    }
  }

  lemma FoundLater(text: string, o: nat, found: seq<Match>, at: seq<nat>)
    requires o < |text| && !RecordStart(text, o) && FoundAt(text, o + 1, found, at)
    ensures FoundAt(text, o, found, at)
  {
    hide MatchRecord;
  }

  lemma {:induction false} FindsAll(text: string, o: nat) returns (at: seq<nat>)
    requires o <= |text|
    ensures FoundAt(text, o, FindAll(LineStart(text, o), text[o..]), at)
    decreases |text| - o
  {
    hide FindAll, MatchRecord, LineStart;
    FindStep(text, o);
    if o == |text| {
      at := [];
      assert text[o..] == "";
      NoRecordInNothing();
    } else if RecordStart(text, o) {
      var found := MatchRecord(text[o..]);
      var next := o + found.length;
      var later := FindsAll(text, next);
      var matches := FindAll(LineStart(text, next), text[next..]);
      at := [o] + later;
      assert ([found] + matches)[1..] == matches && at[1..] == later;
    } else {
      at := FindsAll(text, o + 1);
      FoundLater(text, o, FindAll(LineStart(text, o + 1), text[o + 1..]), at);
    }
  }

  lemma NoRecordInNothing()
    ensures MatchRecord("") == NoMatch
  {
  }

  /** The records `finditer` finds in a text: exactly those at line starts, from left to right, without overlap. */
  lemma FindAllExactly(text: string) returns (at: seq<nat>)
    ensures FoundAt(text, 0, FindAll(true, text), at)
  {
    hide FindAll;
    at := FindsAll(text, 0);
    assert text[0..] == text;
  }
}
