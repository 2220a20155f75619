/**
  What it means that a rejected claim stands in a motion, said on the texts themselves: its words follow one another
  in the lower-cased motion with something other than letters and digits between them. The gate blocks exactly that.
 */
module RejectedClaims {
  import opened Options
  import opened StableHash
  import opened MotionGate
  import opened MotionStore

  // ----- Words in a text

  predicate IsWordUnit(u: bv16) {
    97 <= u <= 122 || 48 <= u <= 57
  }

  /** `toLowerCase`, as far as its result can be an ASCII letter: two signs outside ASCII have one. */
  function Lowered(text: Text): Text {
    if text == [] then []
    else
      (if 65 <= text[0] <= 90 then [text[0] + 32]
       else if text[0] == 0x212A then [107]
       else if text[0] == 0x130 then [105, 0x307]
       else [text[0]])
      + Lowered(text[1..])
  }

  predicate IsWord(word: Text) {
    word != [] && forall u :: u in word ==> IsWordUnit(u)
  }

  predicate AllWords(words: seq<Text>) {
    forall w :: w in words ==> IsWord(w)
  }

  predicate NoWordUnits(text: Text) {
    forall u :: u in text ==> !IsWordUnit(u)
  }

  /** The text is the words in order, with at least one other unit between any two. */
  ghost predicate Spells(text: Text, words: seq<Text>)
    decreases |words|
  {
    && words != []
    && if |words| == 1 then text == words[0]
       else exists gap, rest :: IsGap(gap) && text == words[0] + gap + rest && Spells(rest, words[1..])
  }

  predicate IsGap(gap: Text) {
    gap != [] && NoWordUnits(gap)
  }

  /** The lower-cased text has exactly these words. */
  ghost predicate HasWords(text: Text, words: seq<Text>) {
    && AllWords(words)
    && if words == [] then NoWordUnits(Lowered(text))
       else exists lead, core, trail ::
              NoWordUnits(lead) && NoWordUnits(trail) && Spells(core, words) && Lowered(text) == lead + core + trail
  }

  /** Somewhere in the motion the words follow one another. */
  ghost predicate Stands(words: seq<Text>, motion: Text) {
    exists before, core, after :: Lowered(motion) == before + core + after && Spells(core, words)
  }

  /** The length of the words with one space between any two. */
  function Units(words: seq<Text>): nat {
    if words == [] then 0 else if |words| == 1 then |words[0]| else |words[0]| + 1 + Units(words[1..])
  }

  // ----- Splitting a lower-cased text into words

  function WordsOf(text: Text, word: Text): seq<Text>
    decreases |text|
  {
    if text == [] then
      if word == [] then [] else [word]
    else if IsWordUnit(text[0]) then WordsOf(text[1..], word + [text[0]])
    else (if word == [] then [] else [word]) + WordsOf(text[1..], [])
  }

  lemma {:induction false} ClaimWordsLowered(value: Text, word: Text)
    ensures ClaimWords(value, word) == WordsOf(Lowered(value), word)
    decreases |value|
  {
    if value != [] {
      var u, rest := value[0], Lowered(value[1..]);
      if u == 0x130 {
        assert Lowered(value) == [105, 0x307] + rest;
        assert Lowered(value)[1..] == [0x307] + rest && ([0x307] + rest)[1..] == rest;
        assert WordsOf([0x307] + rest, word + [105]) == [word + [105]] + WordsOf(rest, []);
        ClaimWordsLowered(value[1..], []);
      } else {
        assert Lowered(value)[1..] == rest;
        ClaimWordsLowered(value[1..], []);
        ClaimWordsLowered(value[1..], word + [ClaimUnit(u)]);
      }
    }
  }

  lemma UnwordsCons(word: Text, rest: seq<Text>)
    ensures Unwords([word] + rest) == if rest == [] then word else word + [32] + Unwords(rest)
  {
    assert ([word] + rest)[1..] == rest;
  }

  lemma {:induction false} UnitsOfUnwords(words: seq<Text>)
    ensures |Unwords(words)| == Units(words)
  {
    if |words| > 1 {
      UnitsOfUnwords(words[1..]);
    }
  }

  lemma {:induction false} PlainWord(text: Text, word: Text, later: Text)
    requires forall u :: u in text ==> IsWordUnit(u)
    ensures WordsOf(text + later, word) == WordsOf(later, word + text)
    decreases |text|
  {
    if text == [] {
      assert text + later == later && word + text == word;
    } else {
      assert (text + later)[1..] == text[1..] + later;
      assert (word + [text[0]]) + text[1..] == word + text;
      PlainWord(text[1..], word + [text[0]], later);
    }
  }

  lemma {:induction false} GapEndsWord(gap: Text, word: Text, later: Text)
    requires NoWordUnits(gap) && gap != []
    ensures WordsOf(gap + later, word) == (if word == [] then [] else [word]) + WordsOf(later, [])
    decreases |gap|
  {
    assert (gap + later)[1..] == gap[1..] + later;
    if |gap| > 1 {
      GapEndsWord(gap[1..], [], later);
    } else {
      assert gap[1..] + later == later;
    }
  }

  /** Nothing but other units makes no words. */
  lemma NoWords(text: Text)
    requires NoWordUnits(text)
    ensures WordsOf(text, []) == []
  {
    if text != [] {
      GapEndsWord(text, [], []);
      assert text + [] == text;
    }
  }

  // ----- A claim that stands is found

  lemma {:induction false} PendingFirst(text: Text, word: Text)
    requires word != []
    ensures WordsOf(text, word) != [] && word <= Unwords(WordsOf(text, word))
    decreases |text|
  {
    if text != [] {
      if IsWordUnit(text[0]) {
        PendingFirst(text[1..], word + [text[0]]);
      } else {
        UnwordsCons(word, WordsOf(text[1..], []));
      }
    }
  }

  lemma {:induction false} SpelledFirst(core: Text, words: seq<Text>, word: Text, after: Text)
    requires AllWords(words) && Spells(core, words)
    ensures word + Unwords(words) <= Unwords(WordsOf(core + after, word))
    decreases |words|
  {
    assert words[0] in words;
    if |words| == 1 {
      PlainWord(core, word, after);
      PendingFirst(after, word + core);
    } else {
      var gap, rest :| IsGap(gap) && core == words[0] + gap + rest && Spells(rest, words[1..]);
      assert core + after == words[0] + (gap + (rest + after));
      PlainWord(words[0], word, gap + (rest + after));
      GapEndsWord(gap, word + words[0], rest + after);
      SpelledFirst(rest, words[1..], [], after);
      assert [] + Unwords(words[1..]) == Unwords(words[1..]);
      assert words[1] in words;
      JoinFirst(word, words, WordsOf(rest + after, []));
    }
  }

  lemma JoinFirst(word: Text, words: seq<Text>, found: seq<Text>)
    requires |words| > 1 && words[1] != [] && Unwords(words[1..]) <= Unwords(found)
    ensures word + Unwords(words) <= Unwords([word + words[0]] + found)
  {
    hide Spells;
    var rest := words[1..];
    assert words == [words[0]] + rest;
    UnwordsCons(words[0], rest);
    UnwordsCons(word + words[0], found);
    assert Unwords(rest) != [];
    PrefixAfter(word + words[0] + [32], Unwords(rest), Unwords(found));
    assert word + Unwords(words) == word + words[0] + [32] + Unwords(rest);
  }

  lemma PrefixAfter(head: Text, a: Text, b: Text)
    requires a <= b
    ensures head + a <= head + b
  {
  }

  /** The words that are complete after `text`, and the one still open. */
  function Closed(text: Text, word: Text): (seq<Text>, Text)
    decreases |text|
  {
    if text == [] then ([], word)
    else if IsWordUnit(text[0]) then Closed(text[1..], word + [text[0]])
    else
      var (closed, open) := Closed(text[1..], []);
      ((if word == [] then [] else [word]) + closed, open)
  }

  lemma {:induction false} WordsAppend(text: Text, word: Text, later: Text)
    ensures WordsOf(text + later, word) == Closed(text, word).0 + WordsOf(later, Closed(text, word).1)
    decreases |text|
  {
    if text == [] {
      assert text + later == later;
    } else {
      assert (text + later)[1..] == text[1..] + later;
      if IsWordUnit(text[0]) {
        WordsAppend(text[1..], word + [text[0]], later);
      } else {
        WordsAppend(text[1..], [], later);
      }
    }
  }

  lemma {:induction false} UnwordsConcat(a: seq<Text>, b: seq<Text>)
    requires a != [] && b != []
    ensures Unwords(a + b) == Unwords(a) + [32] + Unwords(b)
  {
    var rest := a[1..];
    assert a + b == [a[0]] + (rest + b);
    UnwordsCons(a[0], rest + b);
    assert a == [a[0]] + rest;
    UnwordsCons(a[0], rest);
    if rest == [] {
      assert rest + b == b;
    } else {
      UnwordsConcat(rest, b);
    }
  }

  lemma SuffixIncludes(head: Text, text: Text, phrase: Text, tail: Text)
    requires tail + phrase <= text
    ensures Includes(head + text, phrase)
  {
    assert OccursAt(head + text, phrase, |head| + |tail|);
  }

  lemma StandingFound(words: seq<Text>, motion: Text)
    requires AllWords(words) && Stands(words, motion)
    ensures Includes(NormalizeClaim(motion), Unwords(words))
  {
    hide Spells, Unwords, Includes;
    var before, core, after :| Lowered(motion) == before + core + after && Spells(core, words);
    ClaimWordsLowered(motion, []);
    assert before + core + after == before + (core + after);
    WordsAppend(before, [], core + after);
    var (closed, open) := Closed(before, []);
    var found := WordsOf(core + after, open);
    SpelledFirst(core, words, open, after);
    NonEmpty(core, words);
    SpelledSome(core, words, open, after);
    if closed == [] {
      assert closed + found == found;
      SuffixIncludes([], Unwords(found), Unwords(words), open);
      assert [] + Unwords(found) == Unwords(found);
    } else {
      UnwordsConcat(closed, found);
      SuffixIncludes(Unwords(closed) + [32], Unwords(found), Unwords(words), open);
    }
  }

  lemma NonEmpty(core: Text, words: seq<Text>)
    requires Spells(core, words) && AllWords(words)
    ensures words != [] && Unwords(words) != []
  {
    assert words[0] in words;
  }

  lemma SpelledSome(core: Text, words: seq<Text>, open: Text, after: Text)
    requires AllWords(words) && Spells(core, words)
    ensures WordsOf(core + after, open) != []
  {
    SpelledFirst(core, words, open, after);
    NonEmpty(core, words);
  }

  // ----- A claim that is found stands

  /** A sequence is cut at the first separator in one way only. */
  lemma UniqueCut<T>(a: seq<T>, b: seq<T>, sep: T, x: seq<T>, y: seq<T>)
    requires a + [sep] + x == b + [sep] + y && sep !in a && sep !in b
    ensures a == b && x == y
  {
    var all := a + [sep] + x;
    assert all[|a|] == sep && (b + [sep] + y)[|b|] == sep;
    assert forall k :: 0 <= k < |a| ==> all[k] == a[k];
    assert forall k :: 0 <= k < |b| ==> all[k] == b[k];
    assert |a| == |b|;
    assert all[|a| + 1..] == x && all[|b| + 1..] == y;
    assert all[..|a|] == a && all[..|b|] == b;
  }

  lemma SpaceBetween(words: seq<Text>)
    requires AllWords(words) && words != []
    ensures if |words| == 1 then Unwords(words) == words[0]
            else Unwords(words) == words[0] + [32] + Unwords(words[1..])
    ensures 32 !in words[0] && (|words| > 1 ==> 32 in Unwords(words))
  {
    assert words[0] in words && !IsWordUnit(32);
    if |words| > 1 {
      assert Unwords(words)[|words[0]|] == 32;
    }
  }

  /** If a phrase is cut at a space, its first word stands before it. */
  lemma CutAtSpace(words: seq<Text>, head: Text, tail: Text)
    requires AllWords(words) && words != [] && Unwords(words) == head + [32] + tail && 32 !in head
    ensures |words| >= 2 && words[0] == head && Unwords(words[1..]) == tail
  {
    hide Unwords, IsWordUnit;
    SpaceBetween(words);
    assert Unwords(words)[|head|] == 32;
    UniqueCut(words[0], head, 32, Unwords(words[1..]), tail);
  }

  lemma NoSpaceInPart(word: Text, phrase: Text, i: nat)
    requires AllUnits(word) && OccursAt(word, phrase, i)
    ensures 32 !in phrase
  {
    assert !IsWordUnit(32);
    assert forall u :: u in phrase ==> u in word[i..i + |phrase|];
  }

  /** A phrase that is part of a word is one word. */
  lemma PartIsWord(words: seq<Text>, word: Text, i: nat)
    requires AllWords(words) && words != [] && AllUnits(word)
    requires OccursAt(word, Unwords(words), i)
    ensures |words| == 1 && Unwords(words) == words[0]
  {
    hide Unwords, IsWordUnit, OccursAt, AllUnits, AllWords;
    NoSpaceInPart(word, Unwords(words), i);
    SpaceBetween(words);
  }

  lemma NoSpaceInWord(word: Text, i: nat)
    requires AllUnits(word) && i <= |word|
    ensures 32 !in word[i..] && 32 !in word
  {
    assert !IsWordUnit(32);
  }

  predicate AllUnits(text: Text) {
    forall u :: u in text ==> IsWordUnit(u)
  }

  /** The phrase goes on behind the first word, so a space and another word come next. */
  lemma CutWords(word: Text, found: seq<Text>, phrase: Text, i: nat)
    requires OccursAt(Unwords([word] + found), phrase, i) && i <= |word| < i + |phrase|
    ensures OccursAt(word + ([32] + Unwords(found)), phrase, i)
  {
    UnwordsCons(word, found);
    assert word + [32] + Unwords(found) == word + ([32] + Unwords(found));
  }

  lemma NoWordsNoText(words: seq<Text>)
    ensures Unwords(words) != [] ==> words != []
  {
  }

  lemma CutText(word: Text, later: Text, phrase: Text, i: nat)
    requires i <= |word| < i + |phrase| && OccursAt(word + ([32] + later), phrase, i)
    ensures var k := |word| - i;
            phrase == word[i..] + [32] + phrase[k + 1..] && phrase[k + 1..] <= later
  {
    var all, k := word + ([32] + later), |word| - i;
    assert phrase[..k] == word[i..];
    assert phrase[k] == all[|word|];
    assert phrase[k + 1..] == later[..|phrase| - k - 1];
  }

  /** A phrase that begins in the first word and goes on: its first word ends that word, the others follow. */
  lemma CutPhrase(word: Text, found: seq<Text>, words: seq<Text>, i: nat)
    requires AllUnits(word) && AllWords(words) && i <= |word| < i + |Unwords(words)|
    requires OccursAt(Unwords([word] + found), Unwords(words), i)
    ensures |words| >= 2 && words[0] == word[i..] && Unwords(words[1..]) <= Unwords(found)
  {
    hide Unwords, OccursAt;
    var phrase := Unwords(words);
    NoWordsNoText(words);
    CutWords(word, found, phrase, i);
    CutText(word, Unwords(found), phrase, i);
    NoSpaceInWord(word, i);
    CutAtSpace(words, word[i..], phrase[|word| - i + 1..]);
  }

  lemma Bridge(word: Text, i: nat, u: bv16, rest: Text, lead: Text, core: Text, after: Text)
    requires i <= |word| && rest == lead + core + after
    ensures word + ([u] + rest) == word[..i] + (word[i..] + ([u] + lead) + core) + after
  {
  }

  lemma Skipped(word: Text, u: bv16, rest: Text, before: Text, core: Text, after: Text)
    requires rest == before + core + after
    ensures word + ([u] + rest) == (word + [u] + before) + core + after
  {
  }

  lemma PartOfWord(word: Text, i: nat, phrase: Text, text: Text)
    requires OccursAt(word, phrase, i)
    ensures word + text == word[..i] + phrase + (word[i + |phrase|..] + text)
  {
  }

  lemma SpellsCons(head: Text, gap: Text, rest: Text, words: seq<Text>)
    requires |words| >= 2 && words[0] == head && IsGap(gap) && Spells(rest, words[1..])
    ensures Spells(head + gap + rest, words)
  {
  }

  /** A phrase that goes on after the word: where the rest of it stands, the whole of it does. */
  lemma Across(text: Text, word: Text, i: nat, words: seq<Text>, lead: Text, core: Text, after: Text)
      returns (whole: Text)
    requires text != [] && !IsWordUnit(text[0]) && i <= |word| && |words| >= 2 && words[0] == word[i..]
    requires NoWordUnits(lead) && Spells(core, words[1..]) && [] + text[1..] == lead + core + after
    ensures Spells(whole, words) && word + text == word[..i] + whole + after
  {
    var gap := [text[0]] + lead;
    whole := word[i..] + gap + core;
    assert [] + text[1..] == text[1..] && text == [text[0]] + text[1..];
    Bridge(word, i, text[0], text[1..], lead, core, after);
    SpellsCons(word[i..], gap, core, words);
  }

  lemma StepOver(text: Text, before: Text, core: Text, after: Text)
    requires text != [] && [] + text[1..] == before + core + after
    ensures [] + text == ([text[0]] + before) + core + after
  {
    assert [] + text[1..] == text[1..];
    Skipped([], text[0], text[1..], before, core, after);
    assert [] + [text[0]] + before == [text[0]] + before;
    assert [] + ([text[0]] + text[1..]) == [] + text;
  }

  lemma StepInto(text: Text, word: Text)
    requires text != []
    ensures (word + [text[0]]) + text[1..] == word + text
  {
  }

  lemma InWord(word: Text, words: seq<Text>, i: nat, text: Text) returns (before: Text, core: Text, after: Text)
    requires AllUnits(word) && AllWords(words) && words != [] && OccursAt(word, Unwords(words), i)
    ensures Spells(core, words) && word + text == before + core + after && before == word[..i]
  {
    hide Unwords, Spells, IsWordUnit;
    PartIsWord(words, word, i);
    PartOfWord(word, i, Unwords(words), text);
    SomePhrase(words);
    before, core, after := word[..i], Unwords(words), word[i + |Unwords(words)|..] + text;
  }

  lemma {:induction false} FoundFirst(text: Text, word: Text, words: seq<Text>)
      returns (lead: Text, core: Text, after: Text)
    requires AllUnits(word) && AllWords(words) && words != []
    requires Unwords(words) <= Unwords(WordsOf(text, word))
    ensures NoWordUnits(lead) && Spells(core, words) && word + text == lead + core + after
    ensures word != [] ==> lead == []
    decreases |text|, 1
  {
    hide Unwords, Spells, IsWordUnit;
    var phrase := Unwords(words);
    SomePhrase(words);
    if text == [] {
      OneWord(word);
      lead, core, after := InWord(word, words, 0, text);
    } else if IsWordUnit(text[0]) {
      lead, core, after := FoundFirst(text[1..], word + [text[0]], words);
      StepInto(text, word);
    } else if word == [] {
      assert [] + WordsOf(text[1..], []) == WordsOf(text[1..], []);
      lead, core, after := FoundFirst(text[1..], [], words);
      StepOver(text, lead, core, after);
      lead := [text[0]] + lead;
    } else {
      lead, core, after := FirstBeyond(text, word, words);
    }
  }

  lemma {:induction false} FirstBeyond(text: Text, word: Text, words: seq<Text>)
      returns (lead: Text, core: Text, after: Text)
    requires AllUnits(word) && word != [] && AllWords(words) && words != []
    requires text != [] && !IsWordUnit(text[0])
    requires Unwords(words) <= Unwords(WordsOf(text, word))
    ensures lead == [] && Spells(core, words) && word + text == lead + core + after
    decreases |text|, 0
  {
    hide Unwords, Spells, IsWordUnit;
    var phrase, found := Unwords(words), WordsOf(text[1..], []);
    SomePhrase(words);
    assert WordsOf(text, word) == [word] + found;
    hide WordsOf;
    if |phrase| <= |word| {
      PrefixOfFirst(word, found, phrase);
      lead, core, after := InWord(word, words, 0, text);
    } else {
      assert OccursAt(Unwords([word] + found), phrase, 0);
      CutPhrase(word, found, words, 0);
      var lead', core', after' := FoundFirst(text[1..], [], words[1..]);
      core := Across(text, word, 0, words, lead', core', after');
      lead, after := word[..0], after';
    }
  }

  lemma SomePhrase(words: seq<Text>)
    requires AllWords(words) && words != []
    ensures Unwords(words) != []
    ensures |words| == 1 ==> forall core :: Spells(core, words) <==> core == Unwords(words)
  {
    assert words[0] in words;
  }

  lemma OneWord(word: Text)
    ensures Unwords(WordsOf([], word)) == word
  {
  }

  lemma PrefixOfFirst(word: Text, found: seq<Text>, phrase: Text)
    requires phrase <= Unwords([word] + found) && |phrase| <= |word|
    ensures OccursAt(word, phrase, 0)
  {
    UnwordsCons(word, found);
    assert phrase == word[..|phrase|];
  }

  lemma {:induction false} FoundAnywhere(text: Text, word: Text, words: seq<Text>, i: nat)
      returns (before: Text, core: Text, after: Text)
    requires AllUnits(word) && AllWords(words) && words != []
    requires OccursAt(Unwords(WordsOf(text, word)), Unwords(words), i)
    ensures Spells(core, words) && word + text == before + core + after
    decreases |text|, 1
  {
    hide Unwords, Spells, IsWordUnit, OccursAt;
    SomePhrase(words);
    if text == [] {
      OneWord(word);
      before, core, after := InWord(word, words, i, text);
    } else if IsWordUnit(text[0]) {
      before, core, after := FoundAnywhere(text[1..], word + [text[0]], words, i);
      StepInto(text, word);
    } else if word == [] {
      assert [] + WordsOf(text[1..], []) == WordsOf(text[1..], []);
      before, core, after := FoundAnywhere(text[1..], [], words, i);
      StepOver(text, before, core, after);
      before := [text[0]] + before;
    } else {
      before, core, after := FoundBeyond(text, word, words, i);
    }
  }

  lemma SkippedTo(word: Text, text: Text, before: Text, core: Text, after: Text)
    requires text != [] && [] + text[1..] == before + core + after
    ensures word + text == (word + [text[0]] + before) + core + after
  {
    assert [] + text[1..] == text[1..] && [text[0]] + text[1..] == text;
    Skipped(word, text[0], text[1..], before, core, after);
  }

  lemma LaterWords(words: seq<Text>)
    requires AllWords(words) && words != []
    ensures AllWords(words[1..]) && AllUnits([])
  {
    assert forall w :: w in words[1..] ==> w in words;
  }

  lemma {:induction false} FoundBeyond(text: Text, word: Text, words: seq<Text>, i: nat)
      returns (before: Text, core: Text, after: Text)
    requires AllUnits(word) && word != [] && AllWords(words) && words != []
    requires text != [] && !IsWordUnit(text[0])
    requires OccursAt(Unwords(WordsOf(text, word)), Unwords(words), i)
    ensures Spells(core, words) && word + text == before + core + after
    decreases |text|, 0
  {
    hide Unwords, Spells, IsWordUnit, OccursAt, AllUnits, AllWords;
    var phrase, found := Unwords(words), WordsOf(text[1..], []);
    LaterWords(words);
    SomePhrase(words);
    assert WordsOf(text, word) == [word] + found;
    hide WordsOf;
    if i + |phrase| <= |word| {
      WithinFirst(word, found, phrase, i);
      before, core, after := InWord(word, words, i, text);
    } else if i > |word| {
      AfterFirst(word, found, phrase, i);
      before, core, after := FoundAnywhere(text[1..], [], words, i - |word| - 1);
      SkippedTo(word, text, before, core, after);
      before := word + [text[0]] + before;
    } else {
      CutPhrase(word, found, words, i);
      var lead', core', after' := FoundFirst(text[1..], [], words[1..]);
      core := Across(text, word, i, words, lead', core', after');
      before, after := word[..i], after';
    }
  }

  lemma WithinFirst(word: Text, found: seq<Text>, phrase: Text, i: nat)
    requires OccursAt(Unwords([word] + found), phrase, i) && i + |phrase| <= |word|
    ensures OccursAt(word, phrase, i)
  {
    UnwordsCons(word, found);
    assert phrase == word[i..i + |phrase|];
  }

  lemma AfterFirst(word: Text, found: seq<Text>, phrase: Text, i: nat)
    requires OccursAt(Unwords([word] + found), phrase, i) && i > |word| && phrase != []
    ensures OccursAt(Unwords(found), phrase, i - |word| - 1)
  {
    UnwordsCons(word, found);
    var j := i - |word| - 1;
    assert Unwords([word] + found)[i..i + |phrase|] == Unwords(found)[j..j + |phrase|];
  }

  /** The normalised motion contains the phrase exactly when its words stand in the motion. */
  lemma StandsExactly(words: seq<Text>, motion: Text)
    requires AllWords(words) && words != []
    ensures Includes(NormalizeClaim(motion), Unwords(words)) <==> Stands(words, motion)
  {
    hide Spells, Unwords;
    ClaimWordsLowered(motion, []);
    if Includes(NormalizeClaim(motion), Unwords(words)) {
      var i :| 0 <= i <= |NormalizeClaim(motion)| && OccursAt(NormalizeClaim(motion), Unwords(words), i);
      var before, core, after := FoundAnywhere(Lowered(motion), [], words, i);
      assert [] + Lowered(motion) == Lowered(motion);
    }
    if Stands(words, motion) {
      StandingFound(words, motion);
    }
  }

  /** A text with these words is split into them. */
  lemma {:induction false} SpelledWords(core: Text, words: seq<Text>, trail: Text)
    requires AllWords(words) && Spells(core, words) && NoWordUnits(trail)
    ensures WordsOf(core + trail, []) == words
    decreases |words|
  {
    assert words[0] in words;
    if |words| == 1 {
      PlainWord(core, [], trail);
      assert [] + core == core;
      if trail != [] {
        GapEndsWord(trail, core, []);
        assert trail + [] == trail;
      }
    } else {
      var gap, rest :| IsGap(gap) && core == words[0] + gap + rest && Spells(rest, words[1..]);
      assert core + trail == words[0] + (gap + (rest + trail));
      PlainWord(words[0], [], gap + (rest + trail));
      assert [] + words[0] == words[0];
      GapEndsWord(gap, words[0], rest + trail);
      SpelledWords(rest, words[1..], trail);
    }
  }

  lemma HasWordsExactly(text: Text, words: seq<Text>)
    requires HasWords(text, words)
    ensures ClaimWords(text, []) == words
  {
    hide IsWordUnit, WordsOf, ClaimWords;
    ClaimWordsLowered(text, []);
    if words == [] {
      NoWords(Lowered(text));
    } else {
      var lead, core, trail :|
        NoWordUnits(lead) && NoWordUnits(trail) && Spells(core, words) && Lowered(text) == lead + core + trail;
      SpelledWords(core, words, trail);
      assert lead + core + trail == lead + (core + trail);
      if lead != [] {
        GapEndsWord(lead, [], core + trail);
      } else {
        assert lead + (core + trail) == core + trail;
      }
    }
  }

  // ----- The claims of an argument

  /** The words without every "police". */
  predicate Leaves(words: seq<Text>, left: seq<Text>, word: Text) {
    if words == [] then left == []
    else if words[0] == word then Leaves(words[1..], left, word)
    else left != [] && left[0] == words[0] && Leaves(words[1..], left[1..], word)
  }

  /** The title without a closing "allegation", if a word is left. */
  predicate IsCore(title: seq<Text>, core: seq<Text>) {
    if |title| >= 2 && title[|title| - 1] == Ascii("allegation") then title == core + [Ascii("allegation")]
    else core == title
  }

  predicate IsFixedClaim(argumentId: string, claim: seq<Text>) {
    || (argumentId == "ETH-ARG-01" && claim == [Ascii("custody"), Ascii("chronology")])
    || (argumentId == "ETH-ARG-02" && claim == [Ascii("seizure"), Ascii("sequence")])
    || (argumentId == "ETH-ARG-04" && claim == [Ascii("intentional"), Ascii("police"), Ascii("fabrication")])
    || (argumentId == "ETH-ARG-04" && claim == [Ascii("intentional"), Ascii("fabrication")])
  }

  /** What must not stand in a motion once the argument is rejected. */
  ghost predicate IsClaim(argument: EthicsArgument, title: seq<Text>, claim: seq<Text>) {
    || claim == title
    || IsCore(title, claim)
    || (exists core :: IsCore(title, core) && Leaves(core, claim, Ascii("police")))
    || IsFixedClaim(argument.id, claim)
  }

  /** A claim of the rejected argument, at least twelve units long, stands in the motion. */
  ghost predicate ClaimStands(argument: EthicsArgument, motion: Text) {
    && argument.status == Rejected
    && exists title, claim :: HasWords(argument.title, title) && IsClaim(argument, title, claim)
                              && Units(claim) >= 12 && Stands(claim, motion)
  }

  // ----- Every text has words

  lemma {:induction false} SomeWords(text: Text) returns (lead: Text, words: seq<Text>, core: Text, trail: Text)
    ensures NoWordUnits(lead) && NoWordUnits(trail) && AllWords(words) && text == lead + core + trail
    ensures if words == [] then core == [] else Spells(core, words) && core != [] && IsWordUnit(core[0])
    decreases |text|
  {
    if text == [] {
      lead, words, core, trail := [], [], [], [];
    } else {
      lead, words, core, trail := SomeWords(text[1..]);
      var u := text[0];
      assert text == [u] + text[1..];
      if !IsWordUnit(u) {
        lead := [u] + lead;
      } else if words == [] {
        lead, words, core, trail := [], [[u]], [u], lead + trail;
      } else if lead == [] {
        words, core := LongerFirst(u, words, core);
      } else {
        var more := [[u]] + words;
        assert more[1..] == words;
        SpellsCons([u], lead, core, more);
        lead, words, core := [], more, [u] + lead + core;
      }
    }
  }

  lemma LongerFirst(u: bv16, words: seq<Text>, core: Text) returns (more: seq<Text>, longer: Text)
    requires IsWordUnit(u) && AllWords(words) && Spells(core, words)
    ensures more != [] && AllWords(more) && Spells(longer, more) && longer == [u] + core
  {
    assert words[0] in words;
    more, longer := [[u] + words[0]] + words[1..], [u] + core;
    assert forall w :: w in more ==> w == [u] + words[0] || w in words;
    assert more[1..] == words[1..];
    if |words| > 1 {
      var gap, rest :| IsGap(gap) && core == words[0] + gap + rest && Spells(rest, words[1..]);
      assert longer == more[0] + gap + rest;
    }
  }

  lemma TitleHasWords(title: Text) returns (words: seq<Text>)
    ensures HasWords(title, words) && words == ClaimWords(title, [])
  {
    var lead, found, core, trail := SomeWords(Lowered(title));
    words := found;
    if words == [] {
      assert forall u :: u in Lowered(title) ==> u in lead || u in trail;
    }
    HasWordsExactly(title, words);
  }

  // ----- The phrases of the gate are the claims

  lemma AsciiConcat(a: string, b: string)
    ensures Ascii(a + b) == Ascii(a) + Ascii(b)
  {
  }

  lemma AsciiUnit(c: char)
    requires 'a' <= c <= 'z'
    ensures IsWordUnit((c as int % 128) as bv16)
  {
  }

  predicate Letters(s: string) {
    s != "" && forall i :: 0 <= i < |s| ==> 'a' <= s[i] <= 'z'
  }

  lemma AsciiWord(s: string)
    requires Letters(s)
    ensures IsWord(Ascii(s))
  {
    forall u | u in Ascii(s)
      ensures IsWordUnit(u)
    {
      var i :| 0 <= i < |s| && Ascii(s)[i] == u;
      AsciiUnit(s[i]);
    }
  }

  lemma TwoWords(a: string, b: string)
    requires Letters(a) && Letters(b)
    ensures AllWords([Ascii(a), Ascii(b)]) && Unwords([Ascii(a), Ascii(b)]) == Ascii(a + " " + b)
  {
    AsciiWord(a);
    AsciiWord(b);
    AsciiConcat(a, " ");
    AsciiConcat(a + " ", b);
    UnwordsCons(Ascii(a), [Ascii(b)]);
    assert [Ascii(a)] + [Ascii(b)] == [Ascii(a), Ascii(b)];
    assert Ascii(" ") == [32];
  }

  lemma ThreeWords(a: string, b: string, c: string)
    requires Letters(a) && Letters(b) && Letters(c)
    ensures AllWords([Ascii(a), Ascii(b), Ascii(c)])
    ensures Unwords([Ascii(a), Ascii(b), Ascii(c)]) == Ascii(a + " " + b + " " + c)
  {
    TwoWords(b, c);
    AsciiWord(a);
    AsciiConcat(a, " ");
    AsciiConcat(a + " ", b + " " + c);
    assert a + " " + b + " " + c == a + " " + (b + " " + c);
    UnwordsCons(Ascii(a), [Ascii(b), Ascii(c)]);
    assert [Ascii(a)] + [Ascii(b), Ascii(c)] == [Ascii(a), Ascii(b), Ascii(c)];
    assert Ascii(" ") == [32];
  }

  lemma CustodyClaim()
    ensures var claim := [Ascii("custody"), Ascii("chronology")];
            AllWords(claim) && Unwords(claim) == Ascii("custody chronology")
  {
    hide Unwords, Ascii;
    TwoWords("custody", "chronology");
    assert "custody" + " " + "chronology" == "custody chronology";
  }

  lemma SeizureClaim()
    ensures var claim := [Ascii("seizure"), Ascii("sequence")];
            AllWords(claim) && Unwords(claim) == Ascii("seizure sequence")
  {
    hide Unwords, Ascii;
    TwoWords("seizure", "sequence");
    assert "seizure" + " " + "sequence" == "seizure sequence";
  }

  lemma FabricationClaim()
    ensures var claim := [Ascii("intentional"), Ascii("fabrication")];
            AllWords(claim) && Unwords(claim) == Ascii("intentional fabrication")
  {
    hide Unwords, Ascii;
    TwoWords("intentional", "fabrication");
    assert "intentional" + " " + "fabrication" == "intentional fabrication";
  }

  lemma PoliceFabricationClaim()
    ensures var claim := [Ascii("intentional"), Ascii("police"), Ascii("fabrication")];
            AllWords(claim) && Unwords(claim) == Ascii("intentional police fabrication")
  {
    hide Unwords, Ascii;
    ThreeWords("intentional", "police", "fabrication");
    assert "intentional" + " " + "police" + " " + "fabrication" == "intentional police fabrication";
  }

  /** The fixed phrases are the fixed claims, printed. */
  lemma FixedClaims(argumentId: string)
    ensures forall claim :: IsFixedClaim(argumentId, claim) ==>
              AllWords(claim) && claim != [] && Unwords(claim) in DeterministicPhrases(argumentId)
    ensures forall p :: p in DeterministicPhrases(argumentId) ==>
              exists claim :: IsFixedClaim(argumentId, claim) && Unwords(claim) == p
  {
    hide Unwords, Ascii, AllWords;
    CustodyClaim();
    SeizureClaim();
    FabricationClaim();
    PoliceFabricationClaim();
    if argumentId == "ETH-ARG-01" {
      assert IsFixedClaim(argumentId, [Ascii("custody"), Ascii("chronology")]);
    } else if argumentId == "ETH-ARG-02" {
      assert IsFixedClaim(argumentId, [Ascii("seizure"), Ascii("sequence")]);
    } else if argumentId == "ETH-ARG-04" {
      assert IsFixedClaim(argumentId, [Ascii("intentional"), Ascii("police"), Ascii("fabrication")]);
      assert IsFixedClaim(argumentId, [Ascii("intentional"), Ascii("fabrication")]);
    }
  }

  lemma {:induction false} LeavesExactly(words: seq<Text>, left: seq<Text>, word: Text)
    ensures Leaves(words, left, word) <==> left == WithoutWord(words, word)
    ensures AllWords(words) ==> AllWords(WithoutWord(words, word))
  {
    hide IsWord;
    if words != [] {
      var rest := words[1..];
      if words[0] == word {
        LeavesExactly(rest, left, word);
        assert [] + WithoutWord(rest, word) == WithoutWord(rest, word);
      } else {
        LeavesExactly(rest, if left == [] then [] else left[1..], word);
        if left != [] && left[0] == words[0] {
          assert left == [words[0]] + left[1..];
        }
      }
    }
  }

  lemma CoreExactly(title: seq<Text>, core: seq<Text>)
    ensures IsCore(title, core) <==> core == CoreWords(title)
    ensures AllWords(title) ==> AllWords(CoreWords(title))
  {
    hide Ascii, IsWord;
    if |title| >= 2 && title[|title| - 1] == Ascii("allegation") {
      assert title == title[..|title| - 1] + [Ascii("allegation")];
      if title == core + [Ascii("allegation")] {
        assert core == title[..|title| - 1];
      }
    }
  }

  /** The phrases of an argument are its claims, printed. */
  lemma PhrasesAreClaims(argument: EthicsArgument, title: seq<Text>)
    requires title == ClaimWords(argument.title, []) && AllWords(title)
    ensures forall claim :: IsClaim(argument, title, claim) ==> AllWords(claim) && Unwords(claim) in Phrases(argument)
    ensures forall p :: p in Phrases(argument) ==> exists claim :: IsClaim(argument, title, claim) && Unwords(claim) == p
  {
    hide Unwords, Ascii, AllWords, DeterministicPhrases, IsFixedClaim, ClaimWords, CoreWords, WithoutWord, IsCore, Leaves;
    var core := CoreWords(title);
    var broad := WithoutWord(core, Ascii("police"));
    FixedClaims(argument.id);
    CoreExactly(title, core);
    LeavesExactly(core, broad, Ascii("police"));
    forall claim | IsClaim(argument, title, claim)
      ensures AllWords(claim) && Unwords(claim) in Phrases(argument)
    {
      CoreExactly(title, claim);
      if c :| IsCore(title, c) && Leaves(c, claim, Ascii("police")) {
        CoreExactly(title, c);
        LeavesExactly(core, claim, Ascii("police"));
      }
      PhraseList(argument);
    }
    PhraseList(argument);
    assert IsClaim(argument, title, title) && IsClaim(argument, title, core) && IsClaim(argument, title, broad);
  }

  lemma PhraseList(argument: EthicsArgument)
    ensures var title := ClaimWords(argument.title, []);
            var core := CoreWords(title);
            forall p :: p in Phrases(argument) <==>
              p == Unwords(title) || p == Unwords(core) || p == Unwords(WithoutWord(core, Ascii("police")))
              || p in DeterministicPhrases(argument.id)
  {
    hide Unwords, Ascii, DeterministicPhrases, ClaimWords, CoreWords, WithoutWord;
  }

  /** A rejected argument is found in a motion exactly when one of its claims, twelve units or longer, stands there. */
  lemma FoundExactly(argument: EthicsArgument, motion: Text)
    ensures RejectedButPresent(argument, motion) <==> ClaimStands(argument, motion)
  {
    hide Phrases, Includes, NormalizeClaim, Unwords, Units, HasWords, IsClaim, Stands, ClaimWords, AllWords;
    var title := TitleHasWords(argument.title);
    WordsOfTitle(argument.title, title);
    PhrasesAreClaims(argument, title);
    if RejectedButPresent(argument, motion) {
      var p :| p in Phrases(argument) && |p| >= 12 && Includes(NormalizeClaim(motion), p);
      var claim :| IsClaim(argument, title, claim) && Unwords(claim) == p;
      ClaimMeasured(claim, motion);
    }
    if ClaimStands(argument, motion) {
      var title', claim :| HasWords(argument.title, title') && IsClaim(argument, title', claim)
                           && Units(claim) >= 12 && Stands(claim, motion);
      HasWordsExactly(argument.title, title');
      ClaimMeasured(claim, motion);
    }
  }

  lemma WordsOfTitle(text: Text, words: seq<Text>)
    requires HasWords(text, words)
    ensures AllWords(words)
  {
  }

  lemma ClaimMeasured(claim: seq<Text>, motion: Text)
    requires AllWords(claim)
    ensures |Unwords(claim)| == Units(claim)
    ensures Units(claim) >= 12 ==> (Includes(NormalizeClaim(motion), Unwords(claim)) <==> Stands(claim, motion))
  {
    hide Includes, NormalizeClaim, Stands;
    UnitsOfUnwords(claim);
    if claim != [] {
      StandsExactly(claim, motion);
    }
  }

  // ----- The gate

  /** No claim of a rejected argument stands in the motion. */
  ghost predicate NoRejectedClaim(record: Case) {
    forall a :: a in record.ethicsArguments ==> !ClaimStands(a, record.currentMotion)
  }

  /** The gate's test for rejected arguments passes exactly when none of their claims stands in the motion. */
  lemma GateOnClaims(record: Case)
    ensures RejectedAbsent(record) <==> NoRejectedClaim(record)
    ensures Approvable(record) ==> NoRejectedClaim(record)
    ensures !NoRejectedClaim(record) ==> RejectedArgumentPresent in ApprovalBlockers(record)
  {
    hide RejectedButPresent, ClaimStands, MotionExists, SavedMotionMatches, CitationsPass, RejectionApplied,
      EthicsResolved, UnsafeExcluded;
    forall a | a in record.ethicsArguments
      ensures RejectedButPresent(a, record.currentMotion) <==> ClaimStands(a, record.currentMotion)
    {
      FoundExactly(a, record.currentMotion);
    }
  }

  /**
    A rejected title of twelve units or more blocks the approval wherever it stands in the motion, in any letter case
    and with anything but letters and digits between its words.
   */
  lemma RejectedTitleBlocks(
      record: Case, argument: EthicsArgument, title: seq<Text>, before: Text, core: Text, after: Text,
      reviewerName: Text, pin: string, confirmed: bool)
    requires argument in record.ethicsArguments && argument.status == Rejected
    requires HasWords(argument.title, title) && Units(title) >= 12
    requires Lowered(record.currentMotion) == before + core + after && Spells(core, title)
    ensures !Approvable(record) && !ExportUnlocked(record)
    ensures ApproveResult(Some(record), reviewerName, pin, confirmed) != Recorded
  {
    hide HasWords, Units, Spells, ApprovalBlockers, ExportUnlocked, Trim;
    assert Stands(title, record.currentMotion);
    assert IsClaim(argument, title, title);
    assert ClaimStands(argument, record.currentMotion);
    hide Stands, ClaimStands, IsClaim;
    GateOnClaims(record);
    GateExact(record);
  }

  /** The same for the four fixed claims, whatever the title says. */
  lemma FixedClaimBlocks(
      record: Case, argument: EthicsArgument, claim: seq<Text>, before: Text, core: Text, after: Text,
      reviewerName: Text, pin: string, confirmed: bool)
    requires argument in record.ethicsArguments && argument.status == Rejected && IsFixedClaim(argument.id, claim)
    requires Lowered(record.currentMotion) == before + core + after && Spells(core, claim)
    ensures !Approvable(record) && !ExportUnlocked(record)
    ensures ApproveResult(Some(record), reviewerName, pin, confirmed) != Recorded
  {
    hide HasWords, Spells, ApprovalBlockers, ExportUnlocked, Trim;
    var title := TitleHasWords(argument.title);
    assert Units(claim) >= 12;
    hide IsFixedClaim, Units;
    assert Stands(claim, record.currentMotion);
    assert IsClaim(argument, title, claim);
    assert ClaimStands(argument, record.currentMotion);
    hide Stands, ClaimStands, IsClaim;
    GateOnClaims(record);
    GateExact(record);
  }

  // ----- The bound

  lemma {:induction false} LoweredWord(word: Text)
    requires forall u :: u in word ==> IsWordUnit(u)
    ensures Lowered(word) == word
  {
    if word != [] {
      assert word[0] in word;
      LoweredWord(word[1..]);
    }
  }

  lemma OneWordTitle(word: Text)
    requires IsWord(word)
    ensures HasWords(word, [word])
  {
    LoweredWord(word);
    assert [] + word + [] == word;
    assert NoWordUnits([]) && Spells(word, [word]);
  }

  /** A rejected title of one word that stands in the motion blocks it from twelve units on, and not before. */
  lemma TwelveUnits(argument: EthicsArgument, before: Text, after: Text, motion: Text)
    requires argument.status == Rejected && IsWord(argument.title) && argument.title != Ascii("police")
    requires argument.id != "ETH-ARG-01" && argument.id != "ETH-ARG-02" && argument.id != "ETH-ARG-04"
    requires Lowered(motion) == before + argument.title + after
    ensures RejectedButPresent(argument, motion) <==> |argument.title| >= 12
  {
    hide IsWord, RejectedButPresent, Ascii, Lowered;
    var title := [argument.title];
    OneWordTitle(argument.title);
    FoundExactly(argument, motion);
    assert Stands(title, motion) by {
      assert Spells(argument.title, title);
    }
    assert IsClaim(argument, title, title) && Units(title) == |argument.title|;
    hide Stands, Spells;
    if ClaimStands(argument, motion) {
      var found, claim :| HasWords(argument.title, found) && IsClaim(argument, found, claim)
                          && Units(claim) >= 12 && Stands(claim, motion);
      HasWordsExactly(argument.title, found);
      HasWordsExactly(argument.title, title);
      OnlyClaim(argument, claim);
    }
  }

  lemma OnlyClaim(argument: EthicsArgument, claim: seq<Text>)
    requires argument.title != Ascii("police") && IsClaim(argument, [argument.title], claim)
    requires argument.id != "ETH-ARG-01" && argument.id != "ETH-ARG-02" && argument.id != "ETH-ARG-04"
    ensures claim == [argument.title]
  {
    hide Ascii;
    var title := [argument.title];
    assert title[1..] == [];
    if core :| IsCore(title, core) && Leaves(core, claim, Ascii("police")) {
      assert core == title;
      assert Leaves(title[1..], claim[1..], Ascii("police"));
      assert claim == [claim[0]] + claim[1..];
    }
  }

  lemma OneWordMotion(id: string, s: string)
    requires id != "ETH-ARG-01" && id != "ETH-ARG-02" && id != "ETH-ARG-04" && Letters(s) && |s| != 6
    ensures RejectedButPresent(EthicsArgument(id, Ascii(s), Rejected, false), Ascii(s)) <==> |s| >= 12
  {
    hide RejectedButPresent, IsWordUnit, Lowered;
    var word := Ascii(s);
    AsciiWord(s);
    assert |Ascii("police")| == 6;
    hide Ascii;
    LoweredWord(word);
    assert [] + word + [] == word;
    TwelveUnits(EthicsArgument(id, word, Rejected, false), [], [], word);
  }

  lemma TwelveBlocksElevenPasses(id: string)
    requires id != "ETH-ARG-01" && id != "ETH-ARG-02" && id != "ETH-ARG-04"
    ensures RejectedButPresent(EthicsArgument(id, Ascii("exaggeration"), Rejected, false), Ascii("exaggeration"))
    ensures !RejectedButPresent(EthicsArgument(id, Ascii("speculation"), Rejected, false), Ascii("speculation"))
  {
    hide RejectedButPresent, Ascii;
    OneWordMotion(id, "exaggeration");
    OneWordMotion(id, "speculation");
  }
}
