/** Text files: what the extraction reads back of a text written as UTF-8, within its byte budget. */
module TextFile {
  import opened Strings
  import opened Extraction

  const MARK := '\U{FEFF}'

  function CharBytes(c: char): (n: nat)
    ensures 1 <= n <= 4
  {
    if c < '\U{80}' then 1 else if c < '\U{800}' then 2 else if c < '\U{10000}' then 3 else 4
  }

  function Utf8Length(s: string): nat {
    if s == "" then 0 else CharBytes(s[0]) + Utf8Length(s[1..])
  }

  function ByteBudget(limits: Limits): nat {
    limits.textLimit * 4 + 4
  }

  /** The characters of which all bytes are among the first `budget` bytes. */
  function CutToBytes(s: string, budget: nat): string {
    if s == "" || CharBytes(s[0]) > budget then "" else [s[0]] + CutToBytes(s[1..], budget - CharBytes(s[0]))
  }

  predicate FitsBudget(text: string, limits: Limits) {
    Utf8Length(text) <= ByteBudget(limits)
  }

  predicate StartsWithMark(text: string) {
    text != "" && text[0] == MARK
  }

  /**
    What `_extract_txt` decodes from the file of a text without NUL characters: at most the byte budget is read, a
    character cut by it is dropped, and a byte-order mark in front is taken off, for which no character may be cut.
   */
  function ReadBack(text: string, limits: Limits): Source {
    var kept := CutToBytes(text, ByteBudget(limits));
    if !StartsWithMark(kept) then Txt(kept, !FitsBudget(text, limits))
    else if FitsBudget(text, limits) || Utf8Length(kept) == ByteBudget(limits) then
      Txt(kept[1..], !FitsBudget(text, limits))
    else Unreadable
  }

  lemma {:induction false} CutNone(s: string, budget: nat)
    requires Utf8Length(s) <= budget
    ensures CutToBytes(s, budget) == s
  {
    if s != "" {
      CutNone(s[1..], budget - CharBytes(s[0]));
    }
  }

  lemma {:induction false} Utf8LengthConcat(a: string, b: string)
    ensures Utf8Length(a + b) == Utf8Length(a) + Utf8Length(b)
  {
    if a == "" {
      assert a + b == b;
    } else {
      assert (a + b)[1..] == a[1..] + b;
      Utf8LengthConcat(a[1..], b);
    }
  }

  lemma {:induction false} Utf8LengthUniform(s: string, n: nat)
    requires forall i :: 0 <= i < |s| ==> CharBytes(s[i]) == n
    ensures Utf8Length(s) == n * |s|
  {
    if s != "" {
      Utf8LengthUniform(s[1..], n);
    }
  }

  /** Reading back beyond the budget is never reported as processed. */
  lemma OverBudget(text: string, limits: Limits)
    requires limits.Valid() && !FitsBudget(text, limits)
    ensures Extract(ReadBack(text, limits), limits).status != Processed
  {
  }

  lemma WithinBudget(text: string, limits: Limits)
    requires FitsBudget(text, limits)
    ensures ReadBack(text, limits) == Txt(if StartsWithMark(text) then text[1..] else text, false)
  {
    CutNone(text, ByteBudget(limits));
  }
}
