/** Python string operations the text pipeline is built from: whitespace, strip, split, join. */
module Strings {

  const FORM_FEED: char := '\U{0C}'

  /** True of exactly the characters that `str.strip` removes and `\s` matches in Python. */
  predicate IsSpace(c: char) {
    || '\t' <= c <= '\r'
    || '\U{1C}' <= c <= ' '
    || c == '\U{85}' || c == '\U{A0}' || c == '\U{1680}'
    || '\U{2000}' <= c <= '\U{200A}'
    || c == '\U{2028}' || c == '\U{2029}' || c == '\U{202F}' || c == '\U{205F}' || c == '\U{3000}'
  }

  /** A control character that extraction removes: below U+0020, or DEL. */
  predicate IsControl(c: char) {
    c < ' ' || c == '\U{7F}'
  }

  /** The characters no extraction step is allowed to lose. */
  predicate IsVisible(c: char) {
    !IsSpace(c) && !IsControl(c)
  }

  function Shown(c: char): string {
    if IsVisible(c) then [c] else ""
  }

  function Visible(s: string): string {
    if s == "" then "" else Shown(s[0]) + Visible(s[1..])
  }

  lemma Associative<T>(a: seq<T>, b: seq<T>, c: seq<T>)
    ensures (a + b) + c == a + (b + c)
  {
  }

  lemma {:induction false} VisibleConcat(a: string, b: string)
    ensures Visible(a + b) == Visible(a) + Visible(b)
  {
    hide Shown;
    if a == "" {
      assert a + b == b;
    } else {
      assert (a + b)[1..] == a[1..] + b;
      VisibleConcat(a[1..], b);
      Associative(Shown(a[0]), Visible(a[1..]), Visible(b));
    }
  }

  lemma {:induction false} NothingVisible(s: string)
    requires forall c :: c in s ==> !IsVisible(c)
    ensures Visible(s) == ""
  {
    if s != "" {
      NothingVisible(s[1..]);
    }
  }

  function StripLeft(s: string): (r: string)
    ensures |r| <= |s|
    ensures r == "" || !IsSpace(r[0])
    ensures exists k :: 0 <= k <= |s| && r == s[k..]
  {
    if s != "" && IsSpace(s[0]) then
      var r := StripLeft(s[1..]);
      assert forall k :: 0 <= k <= |s[1..]| ==> s[1..][k..] == s[k + 1..];
      r
    else
      assert s == s[0..];
      s
  }

  function StripRight(s: string): (r: string)
    ensures |r| <= |s| && r == s[..|r|]
    ensures r == "" || !IsSpace(r[|r| - 1])
  {
    if s != "" && IsSpace(s[|s| - 1]) then StripRight(s[..|s| - 1]) else s
  }

  /** `str.strip()` */
  function Strip(s: string): (r: string)
    ensures |r| <= |s|
  {
    StripRight(StripLeft(s))
  }

  predicate Stripped(s: string) {
    s != "" ==> !IsSpace(s[0]) && !IsSpace(s[|s| - 1])
  }

  /** What `strip` leaves is a middle part of its input, free of whitespace at both ends. */
  lemma StripMiddle(s: string) returns (lo: nat, hi: nat)
    ensures lo <= hi <= |s| && Strip(s) == s[lo..hi]
    ensures Stripped(Strip(s))
  {
    var l := StripLeft(s);
    lo :| 0 <= lo <= |s| && l == s[lo..];
    hi := lo + |Strip(s)|;
  }

  lemma StripId(s: string)
    requires Stripped(s)
    ensures Strip(s) == s
  {
  }

  lemma {:induction false} VisibleStripLeft(s: string)
    ensures Visible(StripLeft(s)) == Visible(s)
  {
    if s != "" && IsSpace(s[0]) {
      VisibleStripLeft(s[1..]);
    }
  }

  lemma {:induction false} VisibleStripRight(s: string)
    ensures Visible(StripRight(s)) == Visible(s)
  {
    if s != "" && IsSpace(s[|s| - 1]) {
      VisibleStripRight(s[..|s| - 1]);
      assert s == s[..|s| - 1] + [s[|s| - 1]];
      VisibleConcat(s[..|s| - 1], [s[|s| - 1]]);
    }
  }

  lemma VisibleStrip(s: string)
    ensures Visible(Strip(s)) == Visible(s)
  {
    VisibleStripLeft(s);
    VisibleStripRight(StripLeft(s));
  }

  lemma {:induction false} StripLeftFrame(pre: string, s: string)
    requires s != "" && !IsSpace(s[0])
    requires forall c :: c in pre ==> IsSpace(c)
    ensures StripLeft(pre + s) == s
  {
    if pre == "" {
      assert pre + s == s;
    } else {
      assert (pre + s)[1..] == pre[1..] + s;
      StripLeftFrame(pre[1..], s);
    }
  }

  lemma {:induction false} StripRightFrame(s: string, post: string)
    requires s != "" && !IsSpace(s[|s| - 1])
    requires forall c :: c in post ==> IsSpace(c)
    ensures StripRight(s + post) == s
  {
    if post == "" {
      assert s + post == s;
    } else {
      assert (s + post)[..|s + post| - 1] == s + post[..|post| - 1];
      StripRightFrame(s, post[..|post| - 1]);
    }
  }

  /** Framing a stripped non-empty text with whitespace is undone by `strip`. */
  lemma StripFramed(pre: string, s: string, post: string)
    requires s != "" && Stripped(s)
    requires forall c :: c in pre ==> IsSpace(c)
    requires forall c :: c in post ==> IsSpace(c)
    ensures Strip(pre + (s + post)) == s
  {
    StripLeftFrame(pre, s + post);
    StripRightFrame(s, post);
  }

  /** `str.split(sep)` for a one-character separator. */
  function Split(s: string, sep: char): (parts: seq<string>)
    ensures |parts| >= 1
    ensures forall p :: p in parts ==> sep !in p
  {
    if s == "" then [""]
    else
      var rest := Split(s[1..], sep);
      if s[0] == sep then [""] + rest else [[s[0]] + rest[0]] + rest[1..]
  }

  /** `sep.join(parts)` */
  function Join(parts: seq<string>, sep: string): string {
    if parts == [] then ""
    else if |parts| == 1 then parts[0]
    else parts[0] + sep + Join(parts[1..], sep)
  }

  lemma {:induction false} JoinSplit(s: string, sep: char)
    ensures Join(Split(s, sep), [sep]) == s
  {
    if s != "" {
      JoinSplit(s[1..], sep);
      var rest := Split(s[1..], sep);
      if s[0] == sep {
        assert ([""] + rest)[1..] == rest;
        assert Join(Split(s, sep), [sep]) == [sep] + s[1..];
      } else {
        assert ([[s[0]] + rest[0]] + rest[1..])[1..] == rest[1..];
        assert Join(Split(s, sep), [sep]) == [s[0]] + Join(rest, [sep]);
      }
    }
  }

  lemma SplitCons(c: char, rest: string, sep: char)
    ensures c != sep ==> Split([c] + rest, sep) == [[c] + Split(rest, sep)[0]] + Split(rest, sep)[1..]
    ensures c == sep ==> Split([c] + rest, sep) == [""] + Split(rest, sep)
  {
    assert ([c] + rest)[1..] == rest;
  }

  /** Splitting text that starts with a separator-free part and a separator. */
  lemma {:induction false} SplitFirst(p: string, sep: char, rest: string)
    requires sep !in p
    ensures Split(p + [sep] + rest, sep) == [p] + Split(rest, sep)
  {
    var s := p + [sep] + rest;
    if p == "" {
      assert s == [sep] + rest;
      SplitCons(sep, rest, sep);
    } else {
      var tail := p[1..] + [sep] + rest;
      assert s == [p[0]] + tail;
      SplitCons(p[0], tail, sep);
      SplitFirst(p[1..], sep, rest);
      assert [p[0]] + p[1..] == p;
    }
  }

  lemma {:induction false} SplitSingle(p: string, sep: char)
    requires sep !in p
    ensures Split(p, sep) == [p]
  {
    if p != "" {
      SplitSingle(p[1..], sep);
      assert p == [p[0]] + p[1..];
      SplitCons(p[0], p[1..], sep);
    }
  }

  lemma {:induction false} SplitJoin(parts: seq<string>, sep: char)
    requires parts != []
    requires forall p :: p in parts ==> sep !in p
    ensures Split(Join(parts, [sep]), sep) == parts
  {
    if |parts| == 1 {
      SplitSingle(parts[0], sep);
    } else {
      SplitJoin(parts[1..], sep);
      SplitFirst(parts[0], sep, Join(parts[1..], [sep]));
    }
  }

  /** Joining two non-empty lists. */
  lemma {:induction false} JoinConcat(a: seq<string>, b: seq<string>, sep: string)
    requires a != [] && b != []
    ensures Join(a + b, sep) == Join(a, sep) + sep + Join(b, sep)
  {
    if |a| == 1 {
      assert (a + b)[1..] == b;
    } else {
      assert (a + b)[1..] == a[1..] + b;
      JoinConcat(a[1..], b, sep);
    }
  }

  /** All parts in order, with nothing between them. */
  function Concat(parts: seq<string>): string {
    if parts == [] then "" else parts[0] + Concat(parts[1..])
  }

  lemma {:induction false} ConcatAppend(a: seq<string>, b: seq<string>)
    ensures Concat(a + b) == Concat(a) + Concat(b)
  {
    if a == [] {
      assert a + b == b;
    } else {
      assert (a + b)[1..] == a[1..] + b;
      ConcatAppend(a[1..], b);
    }
  }

  /** A separator made of whitespace adds nothing visible. */
  lemma {:induction false} VisibleJoin(parts: seq<string>, sep: string)
    requires forall c :: c in sep ==> IsSpace(c)
    ensures Visible(Join(parts, sep)) == Visible(Concat(parts))
  {
    NothingVisible(sep);
    if |parts| == 1 {
      assert Concat(parts[1..]) == "";
      assert Concat(parts) == parts[0];
    } else if |parts| > 1 {
      VisibleJoin(parts[1..], sep);
      VisibleConcat(parts[0] + sep, Join(parts[1..], sep));
      VisibleConcat(parts[0], sep);
      VisibleConcat(parts[0], Concat(parts[1..]));
    }
  }

  /** Lists that agree part by part on what is visible agree as a whole. */
  lemma {:induction false} VisiblePointwise(a: seq<string>, b: seq<string>)
    requires |a| == |b|
    requires forall i :: 0 <= i < |a| ==> Visible(a[i]) == Visible(b[i])
    ensures Visible(Concat(a)) == Visible(Concat(b))
  {
    if a != [] {
      VisiblePointwise(a[1..], b[1..]);
      VisibleConcat(a[0], Concat(a[1..]));
      VisibleConcat(b[0], Concat(b[1..]));
    }
  }
}
